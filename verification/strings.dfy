/** The optional value used for "no result" answers (a rule that does not fire,
    a line that yields no entry, a class name the autoloader ignores). */
module Options {
  datatype Option<+T> = None | Some(value: T)
}

/** Character-level string helpers shared by the label, template and .env models.
    Strings are sequences of characters; trimming is parameterised by the set of
    characters the host language strips. */
module Strings {
  import opened Options

  /** A string with no character of `ws` at either end. */
  predicate IsTrimmed(s: string, ws: set<char>) {
    s == [] || (s[0] !in ws && s[|s| - 1] !in ws)
  }

  /** Number of leading characters of `s` that belong to `ws`. */
  function LeadingCount(s: string, ws: set<char>): (n: nat)
    ensures n <= |s|
    ensures forall i :: 0 <= i < n ==> s[i] in ws
    ensures n < |s| ==> s[n] !in ws
    decreases |s|
  {
    if s != [] && s[0] in ws then 1 + LeadingCount(s[1..], ws) else 0
  }

  /** Number of trailing characters of `s` that belong to `ws`. */
  function TrailingCount(s: string, ws: set<char>): (n: nat)
    ensures n <= |s|
    ensures forall i :: |s| - n <= i < |s| ==> s[i] in ws
    ensures n < |s| ==> s[|s| - 1 - n] !in ws
    decreases |s|
  {
    if s != [] && s[|s| - 1] in ws then 1 + TrailingCount(s[..|s| - 1], ws) else 0
  }

  /** Drops the longest prefix made only of characters of `ws` (PHP's ltrim, Python's lstrip). */
  function TrimLeft(s: string, ws: set<char>): string {
    s[LeadingCount(s, ws)..]
  }

  /** Drops the longest suffix made only of characters of `ws`. */
  function TrimRight(s: string, ws: set<char>): string {
    s[..|s| - TrailingCount(s, ws)]
  }

  /** Strips characters of `ws` from both ends (Python's str.strip, PHP's trim). */
  function Trim(s: string, ws: set<char>): (r: string)
    ensures IsTrimmed(r, ws)
    ensures |r| <= |s|
  {
    TrimRight(TrimLeft(s, ws), ws)
  }

  /** Trimming leaves an already trimmed string alone; in particular it is idempotent. */
  lemma TrimTrimmed(s: string, ws: set<char>)
    requires IsTrimmed(s, ws)
    ensures Trim(s, ws) == s
  {
  }

  /** Every character of a trimmed string comes from the original. */
  lemma TrimChars(s: string, ws: set<char>, c: char)
    requires c in Trim(s, ws)
    ensures c in s
  {
    var l := TrimLeft(s, ws);
    var r := TrimRight(l, ws);
    var i :| 0 <= i < |r| && r[i] == c;
    assert l[i] == c;
    assert s[|s| - |l| + i] == c;
  }

  /** Trimming removes exactly the surrounding characters of `ws`: the result is
      a slice of `s`, everything before and after it belongs to `ws`, and (by
      the contract of Trim) the slice itself neither starts nor ends with one. */
  lemma TrimMiddle(s: string, ws: set<char>)
    ensures exists a, b ::
      0 <= a <= b <= |s| && Trim(s, ws) == s[a..b] &&
      (forall i :: 0 <= i < a ==> s[i] in ws) && (forall i :: b <= i < |s| ==> s[i] in ws)
  {
    var a := LeadingCount(s, ws);
    var l := TrimLeft(s, ws);
    var b := a + |l| - TrailingCount(l, ws);
    assert Trim(s, ws) == s[a..b];
    forall i | b <= i < |s|
      ensures s[i] in ws
    {
      assert s[i] == l[i - a];
    }
  }

  /** Conversely, a trimmed slice with only characters of `ws` around it is what
      Trim returns, so the result of Trim is determined by that description. */
  lemma TrimUnique(s: string, ws: set<char>, a: nat, b: nat)
    requires a <= b <= |s|
    requires forall i :: 0 <= i < a ==> s[i] in ws
    requires forall i :: b <= i < |s| ==> s[i] in ws
    requires IsTrimmed(s[a..b], ws)
    ensures Trim(s, ws) == s[a..b]
  {
    var n := LeadingCount(s, ws);
    if a == b {
      assert forall i :: 0 <= i < |s| ==> s[i] in ws;
      assert n == |s|;
    } else {
      assert s[a] == s[a..b][0];
      assert n == a;
      var l := TrimLeft(s, ws);
      assert forall i :: b - a <= i < |l| ==> l[i] == s[a + i];
      assert l[b - a - 1] == s[a..b][b - a - 1];
      assert TrailingCount(l, ws) == |s| - b;
    }
  }

  /** Trimming after a left trim is trimming. */
  lemma TrimOfTrimLeft(s: string, ws: set<char>)
    ensures Trim(TrimLeft(s, ws), ws) == Trim(s, ws)
  {
    var l := TrimLeft(s, ws);
    assert LeadingCount(l, ws) == 0 by {
      if l != [] { assert l[0] == s[LeadingCount(s, ws)]; }
    }
    assert TrimLeft(l, ws) == l;
  }

  /** Trimming after a right trim is trimming. */
  lemma TrimOfTrimRight(s: string, ws: set<char>)
    ensures Trim(TrimRight(s, ws), ws) == Trim(s, ws)
  {
    var r := TrimRight(s, ws);
    var a := LeadingCount(r, ws);
    var l := TrimLeft(r, ws);
    var b := a + |l| - TrailingCount(l, ws);
    assert Trim(r, ws) == r[a..b];
    assert r == s[..|r|];
    assert b == |r|;
    assert r[a..b] == s[a..b];
    TrimUnique(s, ws, a, b);
  }

  /** Around a character that is never stripped, trimming only touches the two
      outer ends: the text before it loses its leading characters of `ws`, the
      text after it its trailing ones. */
  lemma TrimAround(k: string, c: char, v: string, ws: set<char>)
    requires c !in ws
    ensures Trim(k + [c] + v, ws) == TrimLeft(k, ws) + [c] + TrimRight(v, ws)
  {
    var a := LeadingCount(k, ws);
    var m := |v| - TrailingCount(v, ws);
    var line := k + [c] + v;
    SliceAround(k, c, v, a, m);
    forall i | 0 <= i < a
      ensures line[i] in ws
    {
      assert line[i] == k[i];
    }
    forall i | |k| + 1 + m <= i < |line|
      ensures line[i] in ws
    {
      assert line[i] == v[i - |k| - 1];
    }
    TrimUnique(line, ws, a, |k| + 1 + m);
  }

  /** The slice of k + [c] + v from offset `a` of k to offset `m` of v. */
  lemma SliceAround(k: string, c: char, v: string, a: nat, m: nat)
    requires a <= |k| && m <= |v|
    ensures (k + [c] + v)[a..|k| + 1 + m] == k[a..] + [c] + v[..m]
  {
    var line := k + [c] + v;
    assert line[a..|k| + 1 + m] == line[a..|k|] + line[|k|..|k| + 1 + m];
    assert line[|k|..|k| + 1 + m] == [c] + v[..m];
  }

  /** A string trims to nothing exactly when all its characters are stripped. */
  lemma TrimEmpty(s: string, ws: set<char>)
    ensures Trim(s, ws) == [] <==> forall i :: 0 <= i < |s| ==> s[i] in ws
  {
  }

  /** ASCII lower-casing of one character. */
  function LowerChar(c: char): char {
    if 'A' <= c <= 'Z' then (c as int + 32) as char else c
  }

  /** ASCII lower-casing (Python's str.lower on the ASCII range). */
  function ToLower(s: string): (r: string)
    ensures |r| == |s|
    ensures forall i :: 0 <= i < |s| ==> r[i] == LowerChar(s[i])
  {
    seq(|s|, i requires 0 <= i < |s| => LowerChar(s[i]))
  }

  predicate StartsWith(s: string, prefix: string) {
    |prefix| <= |s| && s[..|prefix|] == prefix
  }

  predicate EndsWith(s: string, suffix: string) {
    |suffix| <= |s| && s[|s| - |suffix|..] == suffix
  }

  /** Python's `pat in t` for strings: `pat` occurs somewhere in `t`. */
  predicate Contains(t: string, pat: string)
    decreases |t|
  {
    StartsWith(t, pat) || (t != [] && Contains(t[1..], pat))
  }

  /** `pat` sits at offset `i` of `t`. */
  predicate OccursAt(t: string, pat: string, i: int) {
    0 <= i <= |t| - |pat| && t[i..i + |pat|] == pat
  }

  /** `Contains` holds exactly when `pat` sits at some offset of `t`. */
  lemma {:induction false} ContainsAt(t: string, pat: string)
    ensures Contains(t, pat) <==> exists i :: OccursAt(t, pat, i)
    decreases |t|
  {
    if t != [] {
      ContainsAt(t[1..], pat);
      if exists i :: OccursAt(t, pat, i) {
        var i :| OccursAt(t, pat, i);
        if i > 0 {
          assert t[1..][i - 1..i - 1 + |pat|] == pat;
          assert OccursAt(t[1..], pat, i - 1);
        }
      }
      if Contains(t[1..], pat) {
        var i :| OccursAt(t[1..], pat, i);
        assert t[i + 1..i + 1 + |pat|] == pat;
        assert OccursAt(t, pat, i + 1);
      }
      if StartsWith(t, pat) {
        assert OccursAt(t, pat, 0);
      }
    } else {
      if exists i :: OccursAt(t, pat, i) {
        assert pat == [] && StartsWith(t, pat);
      }
      if StartsWith(t, pat) {
        assert OccursAt(t, pat, 0);
      }
    }
  }

  /** A string containing `big` also contains every piece of `big`. */
  lemma ContainsPiece(t: string, big: string, i: nat, j: nat)
    requires i <= j <= |big| && Contains(t, big)
    ensures Contains(t, big[i..j])
  {
    ContainsAt(t, big);
    var k :| OccursAt(t, big, k);
    forall m | 0 <= m < j - i
      ensures t[k + i..k + j][m] == big[i..j][m]
    {
      assert t[k..k + |big|][i + m] == big[i + m];
    }
    assert t[k + i..k + j] == big[i..j];
    assert OccursAt(t, big[i..j], k + i);
    ContainsAt(t, big[i..j]);
  }

  /** An occurrence survives adding text on either side. */
  lemma ContainsExtend(pre: string, t: string, post: string, pat: string)
    requires Contains(t, pat)
    ensures Contains(pre + t + post, pat)
  {
    ContainsAt(t, pat);
    var i :| OccursAt(t, pat, i);
    var big := pre + t + post;
    forall m | 0 <= m < |pat|
      ensures big[|pre| + i + m] == pat[m]
    {
      assert t[i..i + |pat|][m] == pat[m];
    }
    assert big[|pre| + i..|pre| + i + |pat|] == pat;
    assert OccursAt(big, pat, |pre| + i);
    ContainsAt(big, pat);
  }

  /** A text lacking one of the characters of `pat` does not contain `pat`. */
  lemma NotContainsMissing(t: string, pat: string, k: nat)
    requires k < |pat| && pat[k] !in t
    ensures !Contains(t, pat)
  {
    forall i | 0 <= i <= |t| - |pat|
      ensures !OccursAt(t, pat, i)
    {
      assert t[i..i + |pat|][k] == t[i + k];
    }
    ContainsAt(t, pat);
  }

  /** Position of the first occurrence of `c` in `s`, if any. */
  function IndexOf(s: string, c: char): (r: Option<nat>)
    ensures r.None? <==> c !in s
    ensures r.Some? ==> r.value < |s| && s[r.value] == c && c !in s[..r.value]
    decreases |s|
  {
    if s == [] then None
    else if s[0] == c then Some(0)
    else
      match IndexOf(s[1..], c)
      case None => None
      case Some(i) =>
        assert s[1..][..i] == s[1..i + 1];
        Some(i + 1)
  }

  /** Splits `s` at every `c` (Python's str.split with an explicit separator). */
  function Split(s: string, c: char): (parts: seq<string>)
    ensures |parts| >= 1
    ensures forall k :: 0 <= k < |parts| ==> c !in parts[k]
    decreases |s|
  {
    match IndexOf(s, c)
    case None => [s]
    case Some(i) => [s[..i]] + Split(s[i + 1..], c)
  }

  /** Glues `parts` together with `sep` between neighbours (Python's sep.join). */
  function Join(parts: seq<string>, sep: string): string
    decreases |parts|
  {
    if |parts| == 0 then ""
    else if |parts| == 1 then parts[0]
    else parts[0] + sep + Join(parts[1..], sep)
  }

  /** Joining what was split gives back the original string. */
  lemma {:induction false} JoinSplit(s: string, c: char)
    ensures Join(Split(s, c), [c]) == s
    decreases |s|
  {
    match IndexOf(s, c)
    case None =>
    case Some(i) =>
      var rest := Split(s[i + 1..], c);
      JoinSplit(s[i + 1..], c);
      assert ([s[..i]] + rest)[1..] == rest;
      assert Join([s[..i]] + rest, [c]) == s[..i] + [c] + Join(rest, [c]);
      assert s == s[..i] + [c] + s[i + 1..];
  }

  /** Splitting at the first separator peels off the text before it. */
  lemma SplitFirst(first: string, c: char, rest: string)
    requires c !in first
    ensures Split(first + [c] + rest, c) == [first] + Split(rest, c)
  {
    var s := first + [c] + rest;
    assert s[|first|] == c && s[..|first|] == first && s[|first| + 1..] == rest;
    assert IndexOf(s, c) == Some(|first|);
  }

  /** Splitting what was joined gives back the parts, when no part contains the separator. */
  lemma {:induction false} SplitJoin(parts: seq<string>, c: char)
    requires |parts| >= 1
    requires forall k :: 0 <= k < |parts| ==> c !in parts[k]
    ensures Split(Join(parts, [c]), c) == parts
    decreases |parts|
  {
    if |parts| > 1 {
      SplitFirst(parts[0], c, Join(parts[1..], [c]));
      SplitJoin(parts[1..], c);
      assert [parts[0]] + parts[1..] == parts;
    }
  }

  /** The joined string begins with the first part and ends with the last one. */
  lemma {:induction false} JoinEnds(parts: seq<string>, sep: string)
    requires |parts| >= 1
    ensures StartsWith(Join(parts, sep), parts[0])
    ensures EndsWith(Join(parts, sep), parts[|parts| - 1])
    decreases |parts|
  {
    if |parts| > 1 {
      JoinEnds(parts[1..], sep);
      var j := Join(parts, sep);
      var rest := Join(parts[1..], sep);
      assert j == parts[0] + (sep + rest);
      assert j[..|parts[0]|] == parts[0];
      var last := parts[|parts| - 1];
      assert rest[|rest| - |last|..] == last;
      assert j[|j| - |last|..] == rest[|rest| - |last|..];
    }
  }

  /** The pieces of a three-part concatenation sit where they were put. */
  lemma MiddleOf(a: string, b: string, c: string)
    ensures (a + b + c)[..|a|] == a
    ensures (a + b + c)[|a|..|a| + |b|] == b
    ensures (a + b + c)[|a| + |b|..] == c
  {
  }

  /** Replaces every `from` character by `to` (PHP's str_replace on one-character strings). */
  function Replace(s: string, from: char, to: char): (r: string)
    ensures |r| == |s|
    ensures forall i :: 0 <= i < |s| ==> r[i] == (if s[i] == from then to else s[i])
  {
    seq(|s|, i requires 0 <= i < |s| => if s[i] == from then to else s[i])
  }

  /** Replacing `from` by `to` and back restores a string that had no `to` in it. */
  lemma ReplaceBack(s: string, from: char, to: char)
    requires to !in s
    ensures Replace(Replace(s, from, to), to, from) == s
  {
  }
}
