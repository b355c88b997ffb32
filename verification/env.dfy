/** The .env loader of bootstrap.php (load_env): a line-oriented KEY=VALUE
    parser whose entries are written into the process environment. The three
    places PHP writes an entry to ($_ENV, $_SERVER and putenv) are one map
    here, and reading the file is a parameter: `None` when the file is missing
    or unreadable, otherwise its lines without their line terminators. */
module Env {
  import opened Options
  import opened Strings

  /** The characters PHP's trim() removes by default. */
  const PhpWhitespace: set<char> := {' ', '\t', '\n', '\r', '\0', '\U{B}'}

  /** PHP's trim() with its default character list. */
  function PhpTrim(s: string): (r: string)
    ensures IsTrimmed(r, PhpWhitespace)
    ensures exists a, b ::
      0 <= a <= b <= |s| && r == s[a..b] &&
      (forall i :: 0 <= i < a ==> s[i] in PhpWhitespace) && (forall i :: b <= i < |s| ==> s[i] in PhpWhitespace)
  {
    TrimMiddle(s, PhpWhitespace);
    Trim(s, PhpWhitespace)
  }

  datatype Entry = Entry(key: string, value: string)

  /** explode('=', $line, 2) padded to two parts with '': the text before the
      first '=' and the text after it ('' when there is no '='). */
  function SplitAtFirstEquals(line: string): (parts: (string, string))
    ensures '=' !in parts.0
    ensures '=' in line ==> line == parts.0 + "=" + parts.1
    ensures '=' !in line ==> parts == (line, "")
  {
    match IndexOf(line, '=')
    case None => (line, "")
    case Some(i) =>
      assert line == line[..i] + "=" + line[i + 1..];
      (line[..i], line[i + 1..])
  }

  /** A value wrapped in a matching pair of double or single quotes. */
  predicate Quoted(value: string) {
    value != "" &&
    ((value[0] == '"' && value[|value| - 1] == '"') || (value[0] == '\'' && value[|value| - 1] == '\''))
  }

  /** Drops one quote character from each end of a quoted value; PHP's
      substr($value, 1, -1) turns a lone quote character into ''. */
  function Unquote(value: string): (r: string)
    ensures |r| == if Quoted(value) then (if |value| >= 2 then |value| - 2 else 0) else |value|
  {
    if Quoted(value) then (if |value| >= 2 then value[1..|value| - 1] else "") else value
  }

  /** Quoting and unquoting are inverse: any text between matching quotes comes back intact. */
  lemma UnquoteQuoted(text: string, quote: char)
    requires quote == '"' || quote == '\''
    ensures Unquote([quote] + text + [quote]) == text
  {
    var v := [quote] + text + [quote];
    assert v[1..|v| - 1] == text;
  }

  /** An unquoted value is kept as it is. */
  lemma UnquotePlain(value: string)
    requires !Quoted(value)
    ensures Unquote(value) == value
  {
  }

  /** The entry one line of the file contributes, if any: blank lines and
      comment lines (first non-blank character '#') contribute nothing. */
  function ParseLine(line: string): (e: Option<Entry>)
    ensures e.Some? ==> e.value.key != "" && IsTrimmed(e.value.key, PhpWhitespace) && '=' !in e.value.key
    ensures PhpTrim(line) == "" || PhpTrim(line)[0] == '#' ==> e.None?
  {
    var t := PhpTrim(line);
    if t == "" || t[0] == '#' then None else ParseAssignment(t)
  }

  /** The entry of a non-blank, non-comment line: split at the first '=',
      trim both sides and unquote the value; a blank key gives nothing. */
  function ParseAssignment(t: string): (e: Option<Entry>)
    ensures e.Some? ==> e.value.key != "" && IsTrimmed(e.value.key, PhpWhitespace) && '=' !in e.value.key
    ensures e.None? <==> PhpTrim(SplitAtFirstEquals(t).0) == ""
  {
    var parts := SplitAtFirstEquals(t);
    var key := PhpTrim(parts.0);
    if key == "" then None
    else
      assert '=' !in key by {
        if '=' in key { TrimChars(parts.0, PhpWhitespace, '='); }
      }
      Some(Entry(key, Unquote(PhpTrim(parts.1))))
  }

  /** Splitting KEY=value at its first '=' gives back KEY and value when KEY has no '='. */
  lemma SplitAtFirstEqualsOf(key: string, value: string)
    requires '=' !in key
    ensures SplitAtFirstEquals(key + "=" + value) == (key, value)
  {
    var line := key + "=" + value;
    assert line[|key|] == '=' && line[..|key|] == key && line[|key| + 1..] == value;
    assert IndexOf(line, '=') == Some(|key|);
  }

  /** The first non-blank character of the key part, after trimming, is the
      first character of the trimmed key. */
  lemma LeftTrimmedStart(key: string)
    requires TrimLeft(key, PhpWhitespace) != ""
    ensures PhpTrim(key) != "" && PhpTrim(key)[0] == TrimLeft(key, PhpWhitespace)[0]
  {
    var l := TrimLeft(key, PhpWhitespace);
    assert l[0] == key[LeadingCount(key, PhpWhitespace)];
    assert TrailingCount(l, PhpWhitespace) < |l|;
  }

  /** Any line with an '=' in it: the text before the first '=' and the text
      after it are trimmed, a key that trims to nothing or starts a comment
      gives no entry, and otherwise the trimmed key is defined as the trimmed,
      unquoted value (which may itself contain '='). */
  lemma ParseLineOf(key: string, value: string)
    requires '=' !in key
    ensures ParseLine(key + "=" + value) ==
      if PhpTrim(key) == "" || PhpTrim(key)[0] == '#' then None
      else Some(Entry(PhpTrim(key), Unquote(PhpTrim(value))))
  {
    var line := key + "=" + value;
    var k := TrimLeft(key, PhpWhitespace);
    var v := TrimRight(value, PhpWhitespace);
    TrimAround(key, '=', value, PhpWhitespace);
    var t := PhpTrim(line);
    assert t == k + "=" + v;
    assert '=' !in k by {
      assert forall i :: 0 <= i < |k| ==> k[i] == key[LeadingCount(key, PhpWhitespace) + i];
    }
    if k == "" {
      assert PhpTrim(key) == "";
      assert t[0] == '=';
    } else {
      LeftTrimmedStart(key);
      assert t[0] == k[0];
    }
    assert ParseLine(line) == if t[0] == '#' then None else ParseAssignment(t);
    SplitAtFirstEqualsOf(k, v);
    TrimOfTrimLeft(key, PhpWhitespace);
    TrimOfTrimRight(value, PhpWhitespace);
  }

  /** A key written KEY="text" reads back as exactly `text`, even when the text
      contains '=', '#', quotes or surrounding blanks. */
  lemma ParseLineQuoted(key: string, text: string)
    requires key != "" && IsTrimmed(key, PhpWhitespace) && '=' !in key && key[0] != '#'
    ensures ParseLine(key + "=\"" + text + "\"") == Some(Entry(key, text))
  {
    var v := "\"" + text + "\"";
    assert key + "=\"" + text + "\"" == key + "=" + v;
    assert IsTrimmed(v, PhpWhitespace) by {
      assert v[0] == '"' && v[|v| - 1] == '"';
    }
    UnquoteQuoted(text, '"');
    ParseLineOf(key, v);
    TrimTrimmed(key, PhpWhitespace);
    TrimTrimmed(v, PhpWhitespace);
  }

  /** A key written KEY=value with an unquoted value reads back as that value. */
  lemma ParseLinePlain(key: string, value: string)
    requires key != "" && IsTrimmed(key, PhpWhitespace) && '=' !in key && key[0] != '#'
    requires IsTrimmed(value, PhpWhitespace) && !Quoted(value)
    ensures ParseLine(key + "=" + value) == Some(Entry(key, value))
  {
    ParseLineOf(key, value);
    TrimTrimmed(key, PhpWhitespace);
    TrimTrimmed(value, PhpWhitespace);
  }

  /** A line without '=' defines its whole trimmed text as a key with the empty value. */
  lemma ParseLineNoEquals(line: string)
    requires PhpTrim(line) != "" && PhpTrim(line)[0] != '#' && '=' !in line
    ensures ParseLine(line) == Some(Entry(PhpTrim(line), ""))
  {
    var t := PhpTrim(line);
    assert '=' !in t by {
      if '=' in t { TrimChars(line, PhpWhitespace, '='); }
    }
    TrimTrimmed(t, PhpWhitespace);
    assert PhpTrim("") == "";
  }

  /** The environment after one line has been processed. */
  function ApplyLine(env: map<string, string>, line: string): map<string, string> {
    match ParseLine(line)
    case None => env
    case Some(e) => env[e.key := e.value]
  }

  /** The environment after the lines have been processed in order. */
  function Loaded(env: map<string, string>, lines: seq<string>): map<string, string>
    decreases |lines|
  {
    if lines == [] then env
    else ApplyLine(Loaded(env, lines[..|lines| - 1]), lines[|lines| - 1])
  }

  /** The value the last line defining `key` gives it, if some line does. */
  function LastValue(lines: seq<string>, key: string): Option<string>
    decreases |lines|
  {
    if lines == [] then None
    else
      var e := ParseLine(lines[|lines| - 1]);
      if e.Some? && e.value.key == key then Some(e.value.value)
      else LastValue(lines[..|lines| - 1], key)
  }

  /** Later lines win: a key defined in the file ends with the value of its
      last definition, and every other key keeps its earlier value (or stays
      absent). */
  lemma {:induction false} LoadedLastWins(env: map<string, string>, lines: seq<string>, key: string)
    ensures key in Loaded(env, lines) <==> key in env || LastValue(lines, key).Some?
    ensures key in Loaded(env, lines) ==>
      Loaded(env, lines)[key] == match LastValue(lines, key) case Some(v) => v case None => env[key]
    decreases |lines|
  {
    if lines != [] {
      LoadedLastWins(env, lines[..|lines| - 1], key);
    }
  }

  /** Processing a file in two parts is processing it at once. */
  lemma {:induction false} LoadedAppend(env: map<string, string>, a: seq<string>, b: seq<string>)
    ensures Loaded(env, a + b) == Loaded(Loaded(env, a), b)
    decreases |b|
  {
    if b == [] {
      assert a + b == a;
    } else {
      var init, last := b[..|b| - 1], b[|b| - 1];
      calc {
        Loaded(env, a + b);
        { assert (a + b)[..|a + b| - 1] == a + init && (a + b)[|a + b| - 1] == last; }
        ApplyLine(Loaded(env, a + init), last);
        { LoadedAppend(env, a, init); }
        ApplyLine(Loaded(Loaded(env, a), init), last);
        Loaded(Loaded(env, a), b);
      }
    }
  }

  /** One more line is one more ApplyLine step. */
  lemma LoadedStep(env: map<string, string>, lines: seq<string>, i: nat)
    requires i < |lines|
    ensures Loaded(env, lines[..i + 1]) == ApplyLine(Loaded(env, lines[..i]), lines[i])
  {
    assert lines[..i + 1][..i] == lines[..i];
  }

  /** load_env: walk the lines, skip blanks and comments, split each line at
      its first '=', trim key and value, skip blank keys, strip one pair of
      matching quotes from the value and store the entry. A missing or
      unreadable file changes nothing. */
  method LoadEnv(env: map<string, string>, file: Option<seq<string>>) returns (result: map<string, string>)
    ensures file.None? ==> result == env
    ensures file.Some? ==> result == Loaded(env, file.value)
  {
    result := env;
    if file.None? {
      return;
    }
    var lines := file.value;
    var i := 0;
    while i < |lines|
      invariant 0 <= i <= |lines|
      invariant result == Loaded(env, lines[..i])
    {
      LoadedStep(env, lines, i);
      var line := PhpTrim(lines[i]);
      i := i + 1;
      if line == "" || line[0] == '#' {
        continue;
      }
      assert ParseLine(lines[i - 1]) == ParseAssignment(line);
      var parts := SplitAtFirstEquals(line);
      var key := PhpTrim(parts.0);
      var value := PhpTrim(parts.1);
      if key == "" {
        continue;
      }
      value := Unquote(value);
      result := result[key := value];
    }
    assert lines[..|lines|] == lines;
  }
}
