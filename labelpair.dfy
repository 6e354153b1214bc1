/**
 * Label pairs and label-pair sequences: their order, their text rendering and
 * their fingerprint.
 */
module LabelPairs {
  import Strings
  import Fnv
  import Sorting

  datatype Pair = Pair(name: string, value: string)

  /** `labelPair.Before`: by name, then by value. */
  predicate Before(a: Pair, b: Pair) {
    if Strings.Less(a.name, b.name) then true
    else if Strings.Less(b.name, a.name) then false
    else Strings.Less(a.value, b.value)
  }

  lemma BeforeIrreflexive(a: Pair)
    ensures !Before(a, a)
  {
    Strings.LessIrreflexive(a.name);
    Strings.LessIrreflexive(a.value);
  }

  lemma BeforeAsymmetric(a: Pair, b: Pair)
    requires Before(a, b)
    ensures !Before(b, a)
  {
    if Strings.Less(a.name, b.name) {
      Strings.LessAsymmetric(a.name, b.name);
    } else {
      if a.name != b.name {
        Strings.LessConnected(a.name, b.name);
      }
      Strings.LessAsymmetric(a.value, b.value);
    }
  }

  lemma BeforeTransitive(a: Pair, b: Pair, c: Pair)
    requires Before(a, b) && Before(b, c)
    ensures Before(a, c)
  {
    Strings.LessIrreflexive(a.name);
    Strings.LessIrreflexive(b.name);
    if a.name != b.name {
      Strings.LessConnected(a.name, b.name);
    }
    if b.name != c.name {
      Strings.LessConnected(b.name, c.name);
    }
    if a.name == b.name && b.name == c.name {
      Strings.LessTransitive(a.value, b.value, c.value);
    } else if a.name == b.name {
      assert Strings.Less(b.name, c.name);
    } else if b.name == c.name {
      assert Strings.Less(a.name, b.name);
    } else {
      Strings.LessTransitive(a.name, b.name, c.name);
      Strings.LessAsymmetric(a.name, c.name);
    }
  }

  /** Exactly one of `a` before `b` and `b` before `a` holds for distinct pairs. */
  lemma BeforeConnected(a: Pair, b: Pair)
    requires a != b
    ensures Before(a, b) || Before(b, a)
  {
    if a.name != b.name {
      Strings.LessConnected(a.name, b.name);
    } else {
      Strings.LessConnected(a.value, b.value);
    }
  }

  /** `labelPair.Before` is a strict total order on any collection of pairs. */
  lemma BeforeStrictTotal(xs: multiset<Pair>)
    ensures Sorting.StrictTotalOn(Before, xs)
  {
    forall a, b | a in xs && b in xs && Before(a, b) ensures !Before(b, a) {
      BeforeAsymmetric(a, b);
    }
    forall a, b, c | a in xs && b in xs && c in xs && Before(a, b) && Before(b, c)
      ensures Before(a, c)
    {
      BeforeTransitive(a, b, c);
    }
    forall a, b | a in xs && b in xs && a != b ensures Before(a, b) || Before(b, a) {
      BeforeConnected(a, b);
    }
  }

  /** `labelPair.String`: `name=value`. */
  function Render(p: Pair): string {
    p.name + "=" + p.value
  }

  /** A rendered pair splits back into its name and value at the `=`. */
  lemma RenderRoundTrip(p: Pair)
    requires '=' !in p.name && '=' !in p.value
    ensures Strings.Split(Render(p), '=') == [p.name, p.value]
  {
    assert Strings.Join([p.name, p.value], '=') == Render(p);
    Strings.SplitJoin([p.name, p.value], '=');
  }

  /** The renderings of `l`, in order. */
  function Renders(l: seq<Pair>): (r: seq<string>)
    ensures |r| == |l|
  {
    seq(|l|, i requires 0 <= i < |l| => Render(l[i]))
  }

  /** `labelPairs.Strings`: one rendering per pair, appended in order. */
  method ToStrings(l: seq<Pair>) returns (s: seq<string>)
    ensures |s| == |l|
    ensures forall i :: 0 <= i < |l| ==> s[i] == l[i].name + "=" + l[i].value
    ensures s == Renders(l)
  {
    s := [];
    var i := 0;
    while i < |l|
      invariant 0 <= i <= |l|
      invariant |s| == i
      invariant forall k :: 0 <= k < i ==> s[k] == l[k].name + "=" + l[k].value
    {
      s := s + [Render(l[i])];
      i := i + 1;
    }
  }

  /**
   * `labelPairs.String`: the renderings joined with `,`; only the empty
   * sequence renders as "", and one pair renders as itself.
   */
  function LabelsString(l: seq<Pair>): (r: string)
    ensures r == "" <==> l == []
    ensures |l| == 1 ==> r == Render(l[0])
  {
    Strings.Join(Renders(l), ',')
  }

  /** Reads a rendering `n1=v1,n2=v2,...` back into pairs. */
  function ParseLabels(s: string): seq<Pair> {
    var pieces := Strings.Split(s, ',');
    seq(|pieces|, i requires 0 <= i < |pieces| => ParsePair(pieces[i]))
  }

  function ParsePair(piece: string): Pair {
    var parts := Strings.Split(piece, '=');
    Pair(parts[0], if |parts| >= 2 then parts[1] else "")
  }

  /** Whether a name or value can appear in the text rendering unambiguously. */
  predicate Plain(s: string) {
    ',' !in s && '=' !in s
  }

  /**
   * The text rendering loses nothing: for a non-empty sequence whose names and
   * values hold no `,` or `=`, parsing the rendering gives back the sequence.
   */
  lemma {:induction false} LabelsStringRoundTrip(l: seq<Pair>)
    requires |l| >= 1
    requires forall i :: 0 <= i < |l| ==> Plain(l[i].name) && Plain(l[i].value)
    ensures ParseLabels(LabelsString(l)) == l
  {
    var parts := Renders(l);
    forall k | 0 <= k < |parts| ensures ',' !in parts[k] {
      assert parts[k] == l[k].name + "=" + l[k].value;
    }
    Strings.SplitJoin(parts, ',');
    var r := ParseLabels(LabelsString(l));
    assert |r| == |l|;
    forall i | 0 <= i < |l| ensures r[i] == l[i] {
      RenderRoundTrip(l[i]);
    }
  }

  /** `fmt.Fprint(digest, pair.Name, pair.Value)` for every pair: no separators. */
  function Flatten(l: seq<Pair>): string
    decreases |l|
  {
    if l == [] then "" else Flatten(l[..|l| - 1]) + l[|l| - 1].name + l[|l| - 1].value
  }

  /** The identity of a label sequence: FNV-1a-64 of its flattened text. */
  function FingerprintOf(l: seq<Pair>): Fnv.Fingerprint {
    Fnv.HashString(Flatten(l)) as int
  }

  /** `labelPairs.fingerprint`: feeds every name, then its value, into one digest. */
  method Fingerprint(l: seq<Pair>) returns (fp: Fnv.Fingerprint)
    ensures fp == Fnv.HashString(Flatten(l)) as int
  {
    var digest := Fnv.OffsetBasis;
    var i := 0;
    while i < |l|
      invariant 0 <= i <= |l|
      invariant digest == Fnv.HashString(Flatten(l[..i]))
    {
      assert l[..i + 1][..i] == l[..i];
      Fnv.FeedAppend(Fnv.OffsetBasis, Flatten(l[..i]), l[i].name);
      Fnv.FeedAppend(Fnv.OffsetBasis, Flatten(l[..i]) + l[i].name, l[i].value);
      digest := Fnv.Feed(Fnv.Feed(digest, l[i].name), l[i].value);
      i := i + 1;
    }
    assert l[..i] == l;
    fp := digest as int;
  }

  lemma FingerprintEmpty()
    ensures FingerprintOf([]) == Fnv.OffsetBasis as int
  {
  }

  /** Moving the boundary between a name and its value does not change the identity. */
  lemma FingerprintCollision()
    ensures FingerprintOf([Pair("ab", "c")]) == FingerprintOf([Pair("a", "bc")])
  {
    assert Flatten([Pair("ab", "c")]) == "abc" == Flatten([Pair("a", "bc")]);
  }

  lemma {:induction false} FlattenAppend(a: seq<Pair>, b: seq<Pair>)
    ensures Flatten(a + b) == Flatten(a) + Flatten(b)
    decreases |b|
  {
    if b == [] {
      assert a + b == a;
    } else {
      var n := |b| - 1;
      assert (a + b)[..|a + b| - 1] == a + b[..n];
      FlattenAppend(a, b[..n]);
    }
  }

  /** `labelPairs.Before`: some position of `l` is before the same position of `o`. */
  predicate SeqBefore(l: seq<Pair>, o: seq<Pair>)
    requires |o| >= |l|
    decreases |l|
  {
    if l == [] then false
    else if Before(l[0], o[0]) then true
    else SeqBefore(l[1..], o[1..])
  }

  lemma {:induction false} SeqBeforeExists(l: seq<Pair>, o: seq<Pair>)
    requires |o| >= |l|
    ensures SeqBefore(l, o) <==> exists i :: 0 <= i < |l| && Before(l[i], o[i])
    decreases |l|
  {
    if l != [] {
      SeqBeforeExists(l[1..], o[1..]);
      if SeqBefore(l[1..], o[1..]) {
        var i :| 0 <= i < |l| - 1 && Before(l[1..][i], o[1..][i]);
        assert Before(l[i + 1], o[i + 1]);
      }
      if exists i :: 0 <= i < |l| && Before(l[i], o[i]) {
        var i :| 0 <= i < |l| && Before(l[i], o[i]);
        if i > 0 {
          assert Before(l[1..][i - 1], o[1..][i - 1]);
        }
      }
    }
  }

  lemma SeqBeforeIrreflexive(l: seq<Pair>)
    ensures !SeqBefore(l, l)
  {
    SeqBeforeExists(l, l);
    forall i | 0 <= i < |l| ensures !Before(l[i], l[i]) {
      BeforeIrreflexive(l[i]);
    }
  }

  /** On one-pair sequences the sequence order is the pair order. */
  lemma SeqBeforeSingle(l: seq<Pair>, o: seq<Pair>)
    requires |l| == 1 && |o| == 1
    ensures SeqBefore(l, o) == Before(l[0], o[0])
  {
  }

  /** With two dimensions, each sequence can be before the other. */
  lemma SeqBeforeNotAsymmetric()
    ensures var l := [Pair("a", "2"), Pair("b", "1")];
            var o := [Pair("a", "1"), Pair("b", "2")];
            SeqBefore(l, o) && SeqBefore(o, l)
  {
    var l := [Pair("a", "2"), Pair("b", "1")];
    var o := [Pair("a", "1"), Pair("b", "2")];
    assert Strings.Less("1", "2");
    assert !Strings.Less("a", "a") && !Strings.Less("b", "b");
    assert Before(l[1], o[1]);
    assert Before(o[0], l[0]);
    SeqBeforeExists(l, o);
    SeqBeforeExists(o, l);
  }

  /** The first-difference order the source evidently intended. */
  predicate LexBefore(l: seq<Pair>, o: seq<Pair>)
    decreases |l|
  {
    if l == [] then o != []
    else if o == [] then false
    else if Before(l[0], o[0]) then true
    else if Before(o[0], l[0]) then false
    else LexBefore(l[1..], o[1..])
  }

  lemma {:induction false} LexBeforeAsymmetric(l: seq<Pair>, o: seq<Pair>)
    requires LexBefore(l, o)
    ensures !LexBefore(o, l)
    decreases |l|
  {
    if l != [] && o != [] {
      if Before(l[0], o[0]) {
        BeforeAsymmetric(l[0], o[0]);
      } else {
        LexBeforeAsymmetric(l[1..], o[1..]);
      }
    }
  }

  /** Pairs neither before the other are equal. */
  lemma Trichotomy(a: Pair, b: Pair)
    requires !Before(a, b) && !Before(b, a)
    ensures a == b
  {
    if a != b {
      BeforeConnected(a, b);
    }
  }

  lemma {:induction false} LexBeforeTransitive(a: seq<Pair>, b: seq<Pair>, c: seq<Pair>)
    requires LexBefore(a, b) && LexBefore(b, c)
    ensures LexBefore(a, c)
    decreases |a|
  {
    if a != [] {
      if !Before(a[0], b[0]) && !Before(b[0], a[0]) {
        Trichotomy(a[0], b[0]);
      }
      if !Before(b[0], c[0]) && !Before(c[0], b[0]) {
        Trichotomy(b[0], c[0]);
      }
      if Before(a[0], b[0]) && Before(b[0], c[0]) {
        BeforeTransitive(a[0], b[0], c[0]);
      } else if Before(a[0], b[0]) {
        assert b[0] == c[0];
      } else if Before(b[0], c[0]) {
        assert a[0] == b[0];
      } else {
        LexBeforeTransitive(a[1..], b[1..], c[1..]);
        assert a[0] == c[0];
        BeforeIrreflexive(a[0]);
      }
    }
  }

  lemma {:induction false} LexBeforeConnected(l: seq<Pair>, o: seq<Pair>)
    requires l != o
    ensures LexBefore(l, o) || LexBefore(o, l)
    decreases |l|
  {
    if l != [] && o != [] && !Before(l[0], o[0]) && !Before(o[0], l[0]) {
      Trichotomy(l[0], o[0]);
      assert l == [l[0]] + l[1..] && o == [o[0]] + o[1..];
      LexBeforeConnected(l[1..], o[1..]);
    }
  }

  /** The intended order is a strict total order on label sequences. */
  lemma LexBeforeStrictTotal(xs: multiset<seq<Pair>>)
    ensures Sorting.StrictTotalOn(LexBefore, xs)
  {
    forall a, b | a in xs && b in xs && LexBefore(a, b) ensures !LexBefore(b, a) {
      LexBeforeAsymmetric(a, b);
    }
    forall a, b, c | a in xs && b in xs && c in xs && LexBefore(a, b) && LexBefore(b, c)
      ensures LexBefore(a, c)
    {
      LexBeforeTransitive(a, b, c);
    }
    forall a, b | a in xs && b in xs && a != b ensures LexBefore(a, b) || LexBefore(b, a) {
      LexBeforeConnected(a, b);
    }
  }
}
