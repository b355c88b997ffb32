/** Label handling of kanban/create_issues.py: turning the raw comma-separated
    `labels` column into a clean label list, classifying the issue kind from it,
    and making sure the kind itself is one of the labels. */
module Labels {
  import opened Strings

  /** The characters Python's str.strip() removes: exactly those for which
      str.isspace() holds. */
  const PyWhitespace: set<char> := {
    ' ', '\t', '\n', '\r', '\U{B}', '\U{C}', '\U{1C}', '\U{1D}', '\U{1E}', '\U{1F}',
    '\U{85}', '\U{A0}', '\U{1680}', '\U{2000}', '\U{2001}', '\U{2002}', '\U{2003}',
    '\U{2004}', '\U{2005}', '\U{2006}', '\U{2007}', '\U{2008}', '\U{2009}', '\U{200A}',
    '\U{2028}', '\U{2029}', '\U{202F}', '\U{205F}', '\U{3000}'
  }

  /** Python's str.strip() with no argument. */
  function PyStrip(s: string): (r: string)
    ensures IsTrimmed(r, PyWhitespace)
    ensures exists a, b ::
      0 <= a <= b <= |s| && r == s[a..b] &&
      (forall i :: 0 <= i < a ==> s[i] in PyWhitespace) && (forall i :: b <= i < |s| ==> s[i] in PyWhitespace)
  {
    TrimMiddle(s, PyWhitespace);
    Trim(s, PyWhitespace)
  }

  predicate NoDuplicates<T(==)>(xs: seq<T>) {
    forall i, j :: 0 <= i < j < |xs| ==> xs[i] != xs[j]
  }

  /** What normalize_labels promises of its result: distinct labels, each
      non-empty, without surrounding whitespace and without a comma. */
  predicate WellFormedLabels(labels: seq<string>) {
    NoDuplicates(labels) &&
    forall i :: 0 <= i < |labels| ==>
      labels[i] != "" && IsTrimmed(labels[i], PyWhitespace) && ',' !in labels[i]
  }

  // ---------------------------------------------------------------------------
  // normalize_labels
  // ---------------------------------------------------------------------------

  /** The comma-separated pieces normalize_labels walks over. */
  function Pieces(s: string): seq<string> {
    Split(PyStrip(s), ',')
  }

  /** The pieces lose nothing of the stripped input: joined with commas they
      give it back. */
  lemma PiecesCover(s: string)
    ensures Join(Pieces(s), ",") == PyStrip(s)
  {
    JoinSplit(PyStrip(s), ',');
  }

  /** Every piece stripped, in order. */
  function StripAll(pieces: seq<string>): (r: seq<string>)
    ensures |r| == |pieces|
    ensures forall i :: 0 <= i < |pieces| ==> r[i] == PyStrip(pieces[i])
  {
    seq(|pieces|, i requires 0 <= i < |pieces| => PyStrip(pieces[i]))
  }

  /** The list the loop of normalize_labels has built after seeing the stripped
      pieces `xs`: each one is appended unless it is empty or already there. */
  function Collect(xs: seq<string>): (out: seq<string>)
    decreases |xs|
  {
    if xs == [] then []
    else
      var out := Collect(xs[..|xs| - 1]);
      var x := xs[|xs| - 1];
      if x != "" && x !in out then out + [x] else out
  }

  /** The result of normalize_labels on the raw column text `s`. */
  function Normalized(s: string): seq<string> {
    if PyStrip(s) == "" then [] else Collect(StripAll(Pieces(s)))
  }

  /** Index of the first occurrence of `y` in `xs`, or -1 when there is none. */
  function FirstIndex(xs: seq<string>, y: string): (k: int)
    ensures -1 <= k < |xs|
    ensures k >= 0 ==> xs[k] == y && y !in xs[..k]
    ensures k == -1 ==> y !in xs
    decreases |xs|
  {
    if xs == [] then -1
    else
      var k := FirstIndex(xs[..|xs| - 1], y);
      if k >= 0 then
        assert xs[..|xs| - 1][..k] == xs[..k];
        k
      else if xs[|xs| - 1] == y then
        assert xs[..|xs| - 1] == xs[..|xs| - 1];
        |xs| - 1
      else
        assert xs == xs[..|xs| - 1] + [xs[|xs| - 1]];
        -1
  }

  /** Every non-empty item ends up in the list. */
  lemma {:induction false} CollectComplete(xs: seq<string>)
    ensures forall q :: 0 <= q < |xs| && xs[q] != "" ==> xs[q] in Collect(xs)
    decreases |xs|
  {
    if xs != [] {
      var init := xs[..|xs| - 1];
      CollectComplete(init);
      forall q | 0 <= q < |xs| && xs[q] != ""
        ensures xs[q] in Collect(xs)
      {
        if q < |init| {
          assert xs[q] == init[q];
        }
      }
    }
  }

  /** Every element of the list is a non-empty item, and the elements are in the
      order of their first occurrence among the items; in particular no label is
      listed twice. */
  lemma {:induction false} CollectOrder(xs: seq<string>)
    ensures forall i :: 0 <= i < |Collect(xs)| ==>
      Collect(xs)[i] != "" && FirstIndex(xs, Collect(xs)[i]) >= 0
    ensures forall i, j :: 0 <= i < j < |Collect(xs)| ==>
      FirstIndex(xs, Collect(xs)[i]) < FirstIndex(xs, Collect(xs)[j])
    decreases |xs|
  {
    if xs != [] {
      var init := xs[..|xs| - 1];
      var prev := Collect(init);
      var x := xs[|xs| - 1];
      CollectOrder(init);
      CollectComplete(init);
      // A label already listed keeps its first index when one more item arrives.
      forall y | FirstIndex(init, y) >= 0
        ensures FirstIndex(xs, y) == FirstIndex(init, y)
      {
      }
      if x != "" && x !in prev {
        assert FirstIndex(init, x) == -1;
        assert FirstIndex(xs, x) == |xs| - 1;
      }
    }
  }

  /** A list of distinct non-empty items is collected to itself. */
  lemma {:induction false} CollectDistinct(xs: seq<string>)
    requires NoDuplicates(xs)
    requires forall i :: 0 <= i < |xs| ==> xs[i] != ""
    ensures Collect(xs) == xs
    decreases |xs|
  {
    if xs != [] {
      var init := xs[..|xs| - 1];
      CollectDistinct(init);
      assert init + [xs[|xs| - 1]] == xs;
    }
  }

  /** The result of normalize_labels is well formed, holds every non-empty
      stripped piece, and lists labels in first-occurrence order. */
  lemma NormalizedSpec(s: string)
    ensures WellFormedLabels(Normalized(s))
    ensures PyStrip(s) == "" ==> Normalized(s) == []
    ensures PyStrip(s) != "" ==> forall q :: 0 <= q < |Pieces(s)| && PyStrip(Pieces(s)[q]) != "" ==>
      PyStrip(Pieces(s)[q]) in Normalized(s)
    ensures PyStrip(s) != "" ==> forall i :: 0 <= i < |Normalized(s)| ==>
      FirstIndex(StripAll(Pieces(s)), Normalized(s)[i]) >= 0
    ensures PyStrip(s) != "" ==> forall i, j :: 0 <= i < j < |Normalized(s)| ==>
      0 <= FirstIndex(StripAll(Pieces(s)), Normalized(s)[i]) < FirstIndex(StripAll(Pieces(s)), Normalized(s)[j])
  {
    if PyStrip(s) != "" {
      var pieces := Pieces(s);
      var items := StripAll(pieces);
      var out := Collect(items);
      CollectOrder(items);
      CollectComplete(items);
      forall i | 0 <= i < |out|
        ensures out[i] != "" && IsTrimmed(out[i], PyWhitespace) && ',' !in out[i]
      {
        var k := FirstIndex(items, out[i]);
        assert out[i] == PyStrip(pieces[k]);
        if ',' in out[i] {
          TrimChars(pieces[k], PyWhitespace, ',');
        }
      }
    }
  }

  /** Stripping leaves well-formed labels alone. */
  lemma StripAllWellFormed(labels: seq<string>)
    requires WellFormedLabels(labels)
    ensures StripAll(labels) == labels
  {
    forall i | 0 <= i < |labels|
      ensures PyStrip(labels[i]) == labels[i]
    {
      TrimTrimmed(labels[i], PyWhitespace);
    }
  }

  /** The comma-joined form of non-empty well-formed labels is itself stripped and non-empty. */
  lemma JoinedStripped(labels: seq<string>)
    requires labels != [] && WellFormedLabels(labels)
    ensures PyStrip(Join(labels, ",")) == Join(labels, ",") != ""
  {
    var j := Join(labels, ",");
    var first := labels[0];
    var last := labels[|labels| - 1];
    JoinEnds(labels, ",");
    assert j[0] == first[0] by {
      assert j[..|first|] == first;
    }
    assert j[|j| - 1] == last[|last| - 1] by {
      assert j[|j| - |last|..] == last;
    }
    assert IsTrimmed(j, PyWhitespace);
    TrimTrimmed(j, PyWhitespace);
  }

  /** Normalizing the comma-joined form of a normalized list gives the list back
      (normalization is idempotent). */
  lemma NormalizedIdempotent(labels: seq<string>)
    requires WellFormedLabels(labels)
    ensures Normalized(Join(labels, ",")) == labels
  {
    if labels != [] {
      JoinedStripped(labels);
      SplitJoin(labels, ',');
      assert Pieces(Join(labels, ",")) == labels;
      StripAllWellFormed(labels);
      CollectDistinct(labels);
    }
  }

  /** normalize_labels: split the stripped text at commas, strip every piece and
      append it when it is non-empty and not yet present. */
  method NormalizeLabels(s: string) returns (out: seq<string>)
    ensures out == Normalized(s)
    ensures WellFormedLabels(out)
  {
    var t := PyStrip(s);
    if t == "" {
      return [];
    }
    var pieces := Split(t, ',');
    ghost var items := StripAll(pieces);
    out := [];
    var i := 0;
    while i < |pieces|
      invariant 0 <= i <= |pieces|
      invariant out == Collect(items[..i])
    {
      var x := PyStrip(pieces[i]);
      CollectStep(items, i);
      if x != "" && x !in out {
        out := out + [x];
      }
      i := i + 1;
    }
    assert items[..|pieces|] == items;
    NormalizedSpec(s);
  }

  /** One more item: Collect appends it when it is non-empty and new. */
  lemma CollectStep(xs: seq<string>, i: nat)
    requires i < |xs|
    ensures Collect(xs[..i + 1]) ==
      if xs[i] != "" && xs[i] !in Collect(xs[..i]) then Collect(xs[..i]) + [xs[i]] else Collect(xs[..i])
  {
    assert xs[..i + 1][..i] == xs[..i];
  }

  // ---------------------------------------------------------------------------
  // kind_from_labels and ensure_primary_label
  // ---------------------------------------------------------------------------

  /** The four issue kinds, each named by the label that selects it. */
  datatype Kind = Bug | Db | Docs | Feature {
    function Name(): string {
      match this
      case Bug => "bug"
      case Db => "db"
      case Docs => "docs"
      case Feature => "feature"
    }

    /** Precedence: a lower rank wins. */
    function Rank(): nat {
      match this
      case Bug => 0
      case Db => 1
      case Docs => 2
      case Feature => 3
    }

    /** Whether this kind may be chosen for `labels`: its label is present, or it is the default. */
    predicate Applies(labels: seq<string>) {
      this == Feature || Name() in labels
    }
  }

  /** kind_from_labels: "bug", then "db", then "docs", else feature. */
  function KindFromLabels(labels: seq<string>): (k: Kind)
    ensures k.Applies(labels)
    ensures forall other: Kind :: other.Applies(labels) ==> k.Rank() <= other.Rank()
  {
    if "bug" in labels then Bug
    else if "db" in labels then Db
    else if "docs" in labels then Docs
    else Feature
  }

  /** A kind's name is itself a well-formed label. */
  lemma KindNameIsLabel(k: Kind)
    ensures WellFormedLabels([k.Name()])
  {
    var n := k.Name();
    assert n[0] in {'b', 'd', 'f'} && n[|n| - 1] in {'g', 'b', 's', 'e'};
  }

  /** Distinct kinds have distinct names, so a kind is identified by its label. */
  lemma KindNamesDistinct(a: Kind, b: Kind)
    requires a != b
    ensures a.Name() != b.Name()
  {
  }

  /** ensure_primary_label: a copy of `labels` with `kind` put in front when it is missing. */
  method EnsurePrimaryLabel(labels: seq<string>, kind: string) returns (labs: seq<string>)
    ensures kind in labels ==> labs == labels
    ensures kind !in labels ==> labs == [kind] + labels && labs[0] == kind
    ensures multiset(labs)[kind] == if kind in labels then multiset(labels)[kind] else 1
    ensures forall l :: l != kind ==> multiset(labs)[l] == multiset(labels)[l]
    ensures NoDuplicates(labels) ==> NoDuplicates(labs)
    ensures WellFormedLabels(labels) && WellFormedLabels([kind]) ==> WellFormedLabels(labs)
  {
    labs := labels;
    if kind !in labs {
      labs := [kind] + labs;
    }
  }
}
