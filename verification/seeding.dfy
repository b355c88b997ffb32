/** The per-row work of main() in kanban/create_issues.py: which seed rows are
    processed, how one row becomes a complete issue (title, body, labels,
    milestone), and the argument vector handed to the issue tracker's CLI.
    Reading the CSV file, running the CLI and printing are not modelled; rows
    arrive as a sequence. */
module Seeding {
  import opened Strings
  import opened Labels
  import opened Inference
  import opened Templates

  /** One seed row; a column the row lacks (or leaves empty) reads as "". */
  datatype SeedRow = SeedRow(title: string, body: string, labels: string, milestone: string)

  /** A fully prepared issue, ready to be submitted. */
  datatype Issue = Issue(title: string, body: string, labels: seq<string>, milestone: string)

  predicate HasTitle(row: SeedRow) {
    PyStrip(row.title) != ""
  }

  /** A title counts as blank exactly when it is made only of whitespace. */
  lemma BlankTitle(row: SeedRow)
    ensures !HasTitle(row) <==> forall i :: 0 <= i < |row.title| ==> row.title[i] in PyWhitespace
  {
    TrimEmpty(row.title, PyWhitespace);
  }

  /** The rows the reading loop keeps: those with a non-blank title, in file order. */
  function WithTitle(rows: seq<SeedRow>): seq<SeedRow>
    decreases |rows|
  {
    if rows == [] then []
    else
      var kept := WithTitle(rows[..|rows| - 1]);
      if HasTitle(rows[|rows| - 1]) then kept + [rows[|rows| - 1]] else kept
  }

  /** The rows kept are exactly the rows with a title. */
  lemma {:induction false} WithTitleMembers(rows: seq<SeedRow>)
    ensures forall r :: r in WithTitle(rows) <==> r in rows && HasTitle(r)
    decreases |rows|
  {
    if rows != [] {
      var init := rows[..|rows| - 1];
      WithTitleMembers(init);
      assert rows == init + [rows[|rows| - 1]];
    }
  }

  /** One more row is kept exactly when it has a title. */
  lemma WithTitleSnoc(rows: seq<SeedRow>, row: SeedRow)
    ensures WithTitle(rows + [row]) == WithTitle(rows) + (if HasTitle(row) then [row] else [])
  {
    assert (rows + [row])[..|rows|] == rows;
  }

  /** Filtering respects file order: filtering a concatenation concatenates the filtered parts. */
  lemma {:induction false} WithTitleAppend(a: seq<SeedRow>, b: seq<SeedRow>)
    ensures WithTitle(a + b) == WithTitle(a) + WithTitle(b)
    decreases |b|
  {
    if b == [] {
      assert a + b == a;
    } else {
      var init := b[..|b| - 1];
      var last := b[|b| - 1];
      var extra := if HasTitle(last) then [last] else [];
      calc {
        WithTitle(a + b);
        { assert a + b == (a + init) + [last]; }
        WithTitle((a + init) + [last]);
        { WithTitleSnoc(a + init, last); }
        WithTitle(a + init) + extra;
        { WithTitleAppend(a, init); }
        WithTitle(a) + WithTitle(init) + extra;
        { assert b == init + [last]; WithTitleSnoc(init, last); }
        WithTitle(a) + WithTitle(b);
      }
    }
  }

  /** Python's `rows[:limit]`, applied only when the limit is positive. */
  function Limited(rows: seq<SeedRow>, limit: int): seq<SeedRow> {
    if limit > 0 && limit < |rows| then rows[..limit] else rows
  }

  /** The row selection of main(): keep the rows with a title, then, when
      `limit` is positive, only the first `limit` of them. */
  method SelectRows(rows: seq<SeedRow>, limit: int) returns (selected: seq<SeedRow>)
    ensures selected == Limited(WithTitle(rows), limit)
    ensures forall r :: r in selected ==> r in rows && HasTitle(r)
    ensures limit <= 0 ==> selected == WithTitle(rows)
    ensures limit > 0 ==> |selected| == if limit < |WithTitle(rows)| then limit else |WithTitle(rows)|
    ensures selected == WithTitle(rows)[..|selected|]
  {
    WithTitleMembers(rows);
    selected := [];
    var i := 0;
    while i < |rows|
      invariant 0 <= i <= |rows|
      invariant selected == WithTitle(rows[..i])
    {
      assert rows[..i + 1][..i] == rows[..i];
      if PyStrip(rows[i].title) != "" {
        selected := selected + [rows[i]];
      }
      i := i + 1;
    }
    assert rows[..|rows|] == rows;
    if limit > 0 && limit < |selected| {
      selected := selected[..limit];
    }
  }

  /** The loop body of main() up to the submission: strip the fields, normalize
      the labels, classify the kind, make the kind a label, infer process and
      role, and render the body. */
  method PrepareIssue(row: SeedRow) returns (issue: Issue)
    ensures issue.title == PyStrip(row.title)
    ensures issue.milestone == PyStrip(row.milestone)
    ensures WellFormedLabels(issue.labels)
    ensures var given := Normalized(row.labels);
            var kind := KindFromLabels(given);
            kind.Name() in issue.labels &&
            (kind.Name() in given ==> issue.labels == given) &&
            (kind.Name() !in given ==> issue.labels == [kind.Name()] + given) &&
            issue.body == BuildBody(kind.Name(), PyStrip(row.body),
                                    InferDfd(issue.title, issue.labels), InferRole(issue.title, issue.labels))
  {
    var title := PyStrip(row.title);
    var desc := PyStrip(row.body);
    var labels := NormalizeLabels(row.labels);
    var milestone := PyStrip(row.milestone);

    var kind := KindFromLabels(labels);
    var name := kind.Name();
    KindNameIsLabel(kind);
    labels := EnsurePrimaryLabel(labels, name);

    var dfd := InferDfd(title, labels);
    var role := InferRole(title, labels);
    var body := BuildBody(name, desc, dfd, role);
    issue := Issue(title, body, labels, milestone);
  }

  /** The `gh issue create` argument vector for a prepared issue. */
  function CreateCommand(repo: string, issue: Issue, project: string): (cmd: seq<string>)
    ensures |cmd| >= 9 && cmd[..9] == ["gh", "issue", "create", "--repo", repo, "--title", issue.title, "--body", issue.body]
  {
    ["gh", "issue", "create", "--repo", repo, "--title", issue.title, "--body", issue.body] +
    LabelOption(issue.labels) + MilestoneOption(issue.milestone) + ProjectOption(project)
  }

  /** `--label` with the comma-joined labels, when there are any. */
  function LabelOption(labels: seq<string>): seq<string> {
    if labels != [] then ["--label", Join(labels, ",")] else []
  }

  /** `--milestone`, when the milestone is set. */
  function MilestoneOption(milestone: string): seq<string> {
    if milestone != "" then ["--milestone", milestone] else []
  }

  /** `--project` with the stripped project name, when it is not blank. */
  function ProjectOption(project: string): seq<string> {
    if PyStrip(project) != "" then ["--project", PyStrip(project)] else []
  }

  /** The options follow the fixed prefix in the order labels, milestone,
      project, each present exactly when it has a value. */
  lemma CreateCommandLayout(repo: string, issue: Issue, project: string)
    ensures var cmd := CreateCommand(repo, issue, project);
            var l := if issue.labels != [] then 2 else 0;
            var m := if issue.milestone != "" then 2 else 0;
            var p := if PyStrip(project) != "" then 2 else 0;
            |cmd| == 9 + l + m + p &&
            (l == 2 ==> cmd[9] == "--label" && cmd[10] == Join(issue.labels, ",")) &&
            (m == 2 ==> cmd[9 + l] == "--milestone" && cmd[10 + l] == issue.milestone) &&
            (p == 2 ==> cmd[9 + l + m] == "--project" && cmd[10 + l + m] == PyStrip(project))
  {
    var base := ["gh", "issue", "create", "--repo", repo, "--title", issue.title, "--body", issue.body];
    var lo, mo, po := LabelOption(issue.labels), MilestoneOption(issue.milestone), ProjectOption(project);
    var cmd := CreateCommand(repo, issue, project);
    assert cmd == base + lo + mo + po;
    assert forall i :: 0 <= i < |lo| ==> cmd[9 + i] == lo[i];
    assert forall i :: 0 <= i < |mo| ==> cmd[9 + |lo| + i] == mo[i];
    assert forall i :: 0 <= i < |po| ==> cmd[9 + |lo| + |mo| + i] == po[i];
  }

  /** For a prepared issue, the `--label` argument normalizes back to exactly its labels. */
  lemma CreateCommandLabels(repo: string, issue: Issue, project: string)
    requires issue.labels != [] && WellFormedLabels(issue.labels)
    ensures CreateCommand(repo, issue, project)[9] == "--label"
    ensures Normalized(CreateCommand(repo, issue, project)[10]) == issue.labels
  {
    CreateCommandLayout(repo, issue, project);
    NormalizedIdempotent(issue.labels);
  }

  // ---------------------------------------------------------------------------
  // Two worked rows
  // ---------------------------------------------------------------------------

  /** A row titled "P1 Crear Solicitud" with no labels: kind feature, labels
      ["feature"], process P1 and no role. */
  lemma ExampleProcessRow()
    ensures Normalized("") == [] && KindFromLabels([]) == Feature
    ensures InferDfd("P1 Crear Solicitud", ["feature"]) == DfdP1
    ensures InferRole("P1 Crear Solicitud", ["feature"]) == NoRole
  {
    assert PyStrip("") == "";
    ExampleProcessRowDfd();
    ExampleProcessRowRole();
  }

  /** Its title starts with "p1" once lower-cased, so rule P1 decides. */
  lemma ExampleProcessRowDfd()
    ensures InferDfd("P1 Crear Solicitud", ["feature"]) == DfdP1
  {
    var t := ToLower("P1 Crear Solicitud");
    assert StartsWith(t, "p1");
  }

  /** No role is a label and none is named in its title. */
  lemma ExampleProcessRowRole()
    ensures InferRole("P1 Crear Solicitud", ["feature"]) == NoRole
  {
    ProcessTitleNamesNoRole();
    FeatureLabelNamesNoRole();
    InferRoleNone("P1 Crear Solicitud", ["feature"]);
  }

  /** The label list ["feature"] holds no role. */
  lemma FeatureLabelNamesNoRole()
    ensures "admin" !in ["feature"] && "vendor" !in ["feature"]
    ensures "buyer" !in ["feature"] && "viewer" !in ["feature"]
  {
    assert "feature"[0] == 'f';
  }

  /** "p1 crear solicitud" has no 'm', 'v' or 'y', so it names no role. */
  lemma ProcessTitleNamesNoRole()
    ensures var t := ToLower("P1 Crear Solicitud");
      !Contains(t, "admin") && !Contains(t, "vendor") && !Contains(t, "buyer") && !Contains(t, "viewer")
  {
    var t := ToLower("P1 Crear Solicitud");
    assert 'm' !in t && 'v' !in t && 'y' !in t;
    NotContainsMissing(t, "admin", 2);
    NotContainsMissing(t, "vendor", 0);
    NotContainsMissing(t, "buyer", 2);
    NotContainsMissing(t, "viewer", 0);
  }

  /** A row titled "Fix login bug" labelled "bug,vendor": labels ["bug", "vendor"]
      (the kind label is already there), kind bug and role vendor. */
  lemma ExampleBugRow()
    ensures Normalized("bug,vendor") == ["bug", "vendor"]
    ensures KindFromLabels(["bug", "vendor"]) == Bug
    ensures InferRole("Fix login bug", ["bug", "vendor"]) == "vendor"
  {
    ExampleBugRowLabels();
    ExampleBugRowRole();
  }

  /** "bug,vendor" is the comma-joined form of a well-formed list, so it normalizes to that list. */
  lemma ExampleBugRowLabels()
    ensures Normalized("bug,vendor") == ["bug", "vendor"]
  {
    BugVendorWellFormed();
    assert Join(["bug", "vendor"], ",") == "bug,vendor";
    NormalizedIdempotent(["bug", "vendor"]);
  }

  /** ["bug", "vendor"] is a well-formed label list. */
  lemma BugVendorWellFormed()
    ensures WellFormedLabels(["bug", "vendor"])
  {
    var labels := ["bug", "vendor"];
    assert labels[0][0] == 'b' && labels[0][2] == 'g' && labels[1][0] == 'v' && labels[1][5] == 'r';
  }

  /** "admin" is neither a label nor in a title without 'a'; "vendor" is a label. */
  lemma ExampleBugRowRole()
    ensures InferRole("Fix login bug", ["bug", "vendor"]) == "vendor"
  {
    var labels := ["bug", "vendor"];
    var t := ToLower("Fix login bug");
    assert 'a' !in t;
    NotContainsMissing(t, "admin", 0);
    assert "admin" !in labels;
    assert "vendor" in labels;
  }
}
