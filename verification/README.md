# Issue seeding and bootstrap helpers, modelled in Dafny

This project models two small pieces of string logic from a PHP web application
and the Python script that seeds its issue tracker. It proves properties of each.

**`kanban/create_issues.py`: issue seeding.** Each CSV row becomes one issue:

- The raw `labels` column is normalized into a list of distinct, stripped,
  non-empty labels in first-seen order (`normalize_labels`).
- The issue kind is classified from the labels: bug, then db, then docs,
  otherwise feature (`kind_from_labels`).
- The kind label is put in front when it is missing (`ensure_primary_label`).
- Two ordered keyword-rule chains pick a business-process tag and a user role
  (`infer_dfd`, `infer_role`).
- One of four fixed Markdown templates is rendered (`build_body` and the
  `body_*` functions).
- `main` keeps only the rows with a non-blank title, cuts them to `--limit`
  when the limit is positive, and builds the `gh issue create` argument vector.

The model follows the code in two places:

- A title made only of whitespace counts as blank.
- The limit applies to the rows left after blank-title rows are dropped.

**`bootstrap.php`: application bootstrap.**

- `load_env` reads a `.env` file line by line. It:
  - skips blank lines and `#` comments;
  - splits each line at its first `=` and trims both sides;
  - skips blank keys;
  - removes one pair of matching outer quotes;
  - stores the entry, so a later line for the same key overwrites an earlier one.
- `base_path` joins the project root with a relative path.
- The class autoloader maps a class under the `App\` namespace to `app/<path>.php`.

Modules:

- `Options`: the optional value.
- `Strings`: the trim, lower-case, substring, split, join and replace helpers.
- `Labels`, `Inference`, `Templates` and `Seeding`: the Python script.
- `Env` and `Paths`: the PHP bootstrap.

The loops of the source are methods proved against specification functions:

- `NormalizeLabels` against `Collect`.
- `SelectRows` against `WithTitle`.
- `LoadEnv` against the fold `Loaded`.

One observation: the P4 rule's keyword "actualizar perfil" never decides anything. A title containing it already contains "perfil" (`Inference.ActualizarPerfilSubsumed`).

## Model

| member | source | states |
|---|---|---|
| Labels.PyStrip | kanban/create_issues.py:15 | str.strip() removes exactly the surrounding whitespace (the full str.isspace set): the result is a slice of the input with only whitespace before and after it, and it neither starts nor ends with whitespace |
| Labels.PiecesCover | kanban/create_issues.py:18 | the comma-separated pieces, joined with commas again, give back the stripped input |
| Labels.NormalizeLabels | kanban/create_issues.py:14-23 | the loop's result is the list `Collect` specifies, and it is well formed: no duplicates; each label non-empty, stripped and comma-free |
| Labels.NormalizedSpec | kanban/create_issues.py:15-23 | blank input gives []; every non-empty stripped piece is in the result and every label of the result is a stripped piece; the result is ordered by first occurrence among the stripped pieces; the result is well formed |
| Labels.CollectComplete | kanban/create_issues.py:19-22 | every non-empty piece ends up in the list |
| Labels.CollectOrder | kanban/create_issues.py:18-23 | every listed label is a non-empty piece; labels are listed in the order of their first occurrence, so none is listed twice |
| Labels.CollectDistinct | kanban/create_issues.py:21-22 | a list of distinct non-empty pieces is kept as it is |
| Labels.NormalizedIdempotent | kanban/create_issues.py:14-23 | normalizing the comma-joined form of a well-formed label list gives the list back |
| Labels.KindFromLabels | kanban/create_issues.py:54-62 | the kind returned applies (its label is present, or it is feature), and no other applicable kind has higher precedence (bug > db > docs > feature) |
| Labels.KindNameIsLabel | kanban/create_issues.py:54-62 | every kind name is itself a well-formed label |
| Labels.KindNamesDistinct | kanban/create_issues.py:56-62 | distinct kinds have distinct label names |
| Labels.EnsurePrimaryLabel | kanban/create_issues.py:64-68 | the result is unchanged when the kind is present, otherwise the kind followed by the labels. The kind then occurs as often as before, or exactly once if newly inserted, and every other label keeps its count. No duplicates and well-formedness are preserved |
| Inference.FirstMatchWins | kanban/create_issues.py:25-39 | the first rule that fires decides, whatever later rules say |
| Inference.FirstMatchNone | kanban/create_issues.py:39 | when no rule fires the fallback is returned ("N/A (fuera del DFD)" for infer_dfd) |
| Inference.DfdRulesFire | kanban/create_issues.py:27-37 | each of the six rules of the table fires exactly on its keyword condition of the if-chain (title keywords, and the "requests" label for the last) |
| Inference.DfdOfByRules | kanban/create_issues.py:26-39 | the if-chain over the lower-cased title equals first-match evaluation of the ordered rule table P1..P5, requests |
| Inference.InferDfdByRules | kanban/create_issues.py:25-39 | infer_dfd equals first-match evaluation of the rule table on the lower-cased title, with fallback "N/A (fuera del DFD)" |
| Inference.ActualizarPerfilSubsumed | kanban/create_issues.py:33 | a title containing "actualizar perfil" already contains "perfil" |
| Inference.InferRole | kanban/create_issues.py:41-52 | "N/A" exactly when no role of admin, vendor, buyer, viewer is a label or in the lower-cased title; otherwise the first such role in that order |
| Templates.TemplateFor | kanban/create_issues.py:156-163 | "docs", "db" and "bug" select their own template, exactly those; any other kind string selects feature |
| Templates.BodyShape | kanban/create_issues.py:70-163 | every body is the template's heading, the description, then a tail fixed by the template; only the feature tail depends on process tag and role |
| Templates.DescriptionVerbatim | kanban/create_issues.py:70-154 | the description appears unchanged right after the heading line |
| Templates.OnlyFeatureUsesDfdAndRole | kanban/create_issues.py:156-163 | for docs, db and bug the body does not depend on the process tag or the role |
| Templates.FeatureUserStory | kanban/create_issues.py:80-81 | the feature body contains the user story "Como <role> quiero" |
| Templates.HeadingFirst | kanban/create_issues.py:70-154 | each body starts with its template's heading |
| Templates.TemplatesDistinct | kanban/create_issues.py:156-163 | kinds selecting different templates never yield the same body, whatever the other arguments |
| Templates.DescriptionDetermined | kanban/create_issues.py:70-154 | for fixed kind, process tag and role, the body determines the description |
| Templates.TemplateForName | kanban/create_issues.py:194-199 | the name of a classified kind selects that kind's own template |
| Seeding.BlankTitle | kanban/create_issues.py:182 | a title counts as blank exactly when all its characters are whitespace |
| Seeding.WithTitleMembers | kanban/create_issues.py:179-183 | the rows kept are exactly the input rows whose stripped title is non-empty |
| Seeding.WithTitleAppend | kanban/create_issues.py:179-183 | filtering keeps file order: filtering a concatenation concatenates the filtered parts |
| Seeding.SelectRows | kanban/create_issues.py:179-186 | the loop keeps the titled rows in order, then truncates to the limit when it is positive. The result is a prefix of the titled rows, of length min(limit, count) for a positive limit and all of them otherwise, and every row in it is an input row with a title |
| Seeding.PrepareIssue | kanban/create_issues.py:188-199 | title and milestone are stripped; the labels are well formed and hold the classified kind's name (the normalized labels unchanged, or the kind in front); the body is the kind's template with the stripped description, the process tag and the role |
| Seeding.CreateCommand | kanban/create_issues.py:201-207 | the vector starts with `gh issue create --repo R --title T --body B` |
| Seeding.CreateCommandLayout | kanban/create_issues.py:201-207 | `--label`, `--milestone` and `--project` follow in that order, each present exactly when it has a value, with the comma-joined labels and the stripped project name |
| Seeding.CreateCommandLabels | kanban/create_issues.py:202-203 | the `--label` argument of a prepared issue normalizes back to exactly its labels |
| Seeding.ExampleProcessRow | kanban/create_issues.py:188-199 | title "P1 Crear Solicitud" without labels: labels normalize to [], kind feature, process "P1 Crear Solicitud", role "N/A" |
| Seeding.ExampleBugRow | kanban/create_issues.py:188-199 | title "Fix login bug" with labels "bug,vendor": labels ["bug", "vendor"], kind bug, role "vendor" |
| Env.PhpTrim | bootstrap.php:31 | PHP trim() removes exactly the surrounding characters of " \t\n\r\0\x0B": the result is a slice of the input with only those characters before and after it, and it neither starts nor ends with one |
| Env.SplitAtFirstEquals | bootstrap.php:36 | the key part has no '='; with an '=' the line is key + "=" + value, otherwise the value is "" |
| Env.Unquote | bootstrap.php:44-49 | a quoted value loses exactly two characters (a lone quote becomes ""); any other value keeps its length |
| Env.UnquoteQuoted | bootstrap.php:44-49 | text between a matching pair of double or single quotes comes back intact |
| Env.UnquotePlain | bootstrap.php:44-49 | a value not wrapped in matching quotes is stored as it is |
| Env.ParseLine | bootstrap.php:30-33 | a line that trims to nothing or starts with '#' after trimming gives no entry; any entry has a non-empty, trimmed key without '=' (lines with an '=' are described fully by ParseLineOf, the others by ParseLineNoEquals) |
| Env.ParseAssignment | bootstrap.php:36-49 | there is no entry exactly when the text before the first '=' trims to nothing; an entry's key is non-empty, trimmed and has no '=' |
| Env.SplitAtFirstEqualsOf | bootstrap.php:36 | KEY=value splits into KEY and value when KEY has no '=', even if value has |
| Env.ParseLineOf | bootstrap.php:30-49 | any line with an '=' is split at its first '='; a key part that trims to nothing or to a comment gives no entry, otherwise the trimmed key is defined as the trimmed, unquoted value (so "  KEY = value  " defines KEY as value) |
| Env.ParseLineQuoted | bootstrap.php:36-49 | KEY="text" defines KEY as exactly text, whatever text contains |
| Env.ParseLinePlain | bootstrap.php:36-49 | KEY=value with an unquoted value defines KEY as value |
| Env.ParseLineNoEquals | bootstrap.php:36-42 | a non-blank, non-comment line without '=' defines its trimmed text as a key with value "" |
| Env.LoadedLastWins | bootstrap.php:30-54 | after loading, a key has the value of its last definition in the file; keys the file does not define keep their earlier value or stay absent |
| Env.LoadedAppend | bootstrap.php:30-54 | loading a file in two parts is loading it at once |
| Env.LoadEnv | bootstrap.php:19-55 | a missing or unreadable file changes nothing; otherwise the loop's map is the fold of the per-line updates over the file |
| Paths.BasePath | bootstrap.php:13-16 | base_path('') is the root; any other path gives the root followed by a separator |
| Paths.BasePathEmpty | bootstrap.php:15 | base_path('') is exactly the root |
| Paths.BasePathJoin | bootstrap.php:15 | for a non-empty path: root, one separator, then a tail of the path that starts with no separator; everything dropped from the path is separators |
| Paths.BasePathRelative | bootstrap.php:15 | a path with no leading separator is appended after exactly one separator |
| Paths.BasePathLeadingSeparator | bootstrap.php:15 | an extra leading separator on a non-empty path changes nothing |
| Paths.BasePathSeparatorOnly | bootstrap.php:15 | base_path('/') is root + "/", which differs from base_path('') |
| Paths.ClassFile | bootstrap.php:59-66 | no file exactly for class names without the `App\` prefix |
| Paths.ClassFileLayout | bootstrap.php:60-66 | under the prefix the file is root/app/<rest with '\' turned into '/'>.php; that middle part has no '\', and without '/' in the class name the class name is recovered from it |
| Paths.ClassFileInjective | bootstrap.php:60-66 | distinct `App\` classes without '/' in their names map to distinct files |

## Left out

- `run`, `gh_repo_from_cwd` and submitting the issue: these run the external `gh` tool as a subprocess, which is foreign I/O. The model stops at the argument vector (`Seeding.CreateCommand`).
- Argument parsing, opening and parsing the CSV file, and printing in `main`: these are console and file I/O. Rows arrive as a sequence of `SeedRow`, and a column that is missing or empty reads as "".
- Python's `str.lower()` is modelled on ASCII letters only (`Strings.ToLower`), because Unicode case mapping is not modelled. For example, an upper-case 'Ú' in a title is not lowered, so a title with "BÚSQUEDA" does not match the keyword "búsqueda" in the model.
- Python's `str.strip()` is modelled with the characters for which `str.isspace()` holds. PHP's `trim()` is modelled with its default list " \t\n\r\0\x0B".
- Reading the `.env` file: `is_file` and `file(...)` become the parameter `file`, which is `None` when the file is missing or unreadable and otherwise holds its lines without line terminators. `FILE_SKIP_EMPTY_LINES` needs no modelling, because an empty line contributes nothing anyway.
- `$_ENV`, `$_SERVER` and `putenv` receive the same key and value. They are modelled as one map.
- `DIRECTORY_SEPARATOR` is platform-dependent; it is fixed to '/'.
- The autoloader's `is_file` check and `require` are file I/O. The model stops at the path it would load (`Paths.ClassFile`).
- The helpers file, the config arrays, the timezone, the session setup, `Database` construction and the exception handler (bootstrap.php:73-115) are runtime plumbing and foreign calls. They are not modelled.
- Env.Unquote: its own contract states only the length of the result. Its content is stated by `Env.UnquoteQuoted` and `Env.UnquotePlain`.
