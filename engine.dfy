/**
 * The per-kind family engine that counter.go, gauge.go and summary.go each
 * spell out once: a family owns its children and an index from fingerprint
 * to position; a partial accumulates labels and applies them to find or
 * create a child. One class per entity, parameterised by the family's kind.
 */
module Engine {
  import opened Outcomes
  import opened Fnv
  import opened LabelPairs
  import opened Sorting
  import opened Metric
  import opened Records
  import opened Index

  datatype QuantilePair = QuantilePair(quantile: real, accuracy: real)

  /** `CounterOptions`, `GaugeOptions` and `SummaryOptions` beyond `MetricOptions`. */
  datatype KindOptions =
    | CounterOptions(defaultValue: real)
    | GaugeOptions(defaultValue: real)
    | SummaryOptions(requestedQuantiles: seq<QuantilePair>)

  datatype FamilyOptions = FamilyOptions(meta: MetricOptions, kindOptions: KindOptions) {
    function Kind(): Kind {
      match kindOptions
      case CounterOptions(_) => CounterKind
      case GaugeOptions(_) => GaugeKind
      case SummaryOptions(_) => SummaryKind
    }
  }

  /** The panics of the engine, and Go's runtime panics on bad indices. */
  datatype Panic =
    | OddLabelCount
    | WrongDimensions
    | UndeclaredDimension(pair: Pair)
    | MissingFingerprint
    | IndexOutOfRange(index: int)
    | SliceOutOfRange

  datatype Outcome<T> = Ok(value: T) | Panicked(panic: Panic)

  /**
   * The options' `validate`: counters and gauges check Name and Help;
   * summaries then also demand at least one requested quantile.
   */
  function ValidateOptions(o: FamilyOptions): (r: Option<ConfigError>)
    ensures r == None <==>
      o.meta.name != "" && o.meta.help != ""
      && (o.kindOptions.SummaryOptions? ==> |o.kindOptions.requestedQuantiles| > 0)
    ensures Metric.Validate(o.meta).Some? ==> r == Metric.Validate(o.meta)
  {
    match o.kindOptions
    case SummaryOptions(qs) =>
      if Metric.Validate(o.meta).Some? then Metric.Validate(o.meta)
      else if |qs| == 0 then Some(NoQuantiles)
      else None
    case _ => Metric.Validate(o.meta)
  }

  /** The state a new child starts in, and the state `Reset` restores. */
  function InitialPayload(k: KindOptions): Payload {
    match k
    case CounterOptions(v) => Scalar(v)
    case GaugeOptions(v) => Scalar(v)
    case SummaryOptions(_) => NoPayload
  }

  /** `labels[2k], labels[2k+1]` as the k-th pair. */
  function PairsOf(strs: seq<string>): (r: seq<Pair>)
    requires |strs| % 2 == 0
    ensures |r| == |strs| / 2
  {
    seq(|strs| / 2, k requires 0 <= k < |strs| / 2 => Pair(strs[2 * k], strs[2 * k + 1]))
  }

  /** The pairing loop shared by `With` and `NewChild`. */
  method PairUp(strs: seq<string>) returns (pairs: seq<Pair>)
    requires |strs| % 2 == 0
    ensures |pairs| == |strs| / 2
    ensures forall k :: 0 <= k < |pairs| ==> pairs[k] == Pair(strs[2 * k], strs[2 * k + 1])
  {
    pairs := [];
    var i := 0;
    while i < |strs|
      invariant 0 <= i <= |strs| && i % 2 == 0
      invariant |pairs| == i / 2
      invariant forall k :: 0 <= k < |pairs| ==> pairs[k] == Pair(strs[2 * k], strs[2 * k + 1])
    {
      pairs := pairs + [Pair(strs[i], strs[i + 1])];
      i := i + 2;
    }
  }

  /** Labels as `Apply` leaves them: sorted unless they already were. */
  function Canonical(l: seq<Pair>): seq<Pair> {
    if IsSorted(l, Before) then l else SortBy(l, Before)
  }

  /** Canonical labels are sorted by the pair order and are a permutation. */
  lemma CanonicalSorted(l: seq<Pair>)
    ensures Sorted(Canonical(l), Before)
    ensures multiset(Canonical(l)) == multiset(l)
    ensures IsSorted(l, Before) ==> Canonical(l) == l
  {
    BeforeStrictTotal(multiset(l));
    TotalIsWeak(Before, multiset(l));
    if IsSorted(l, Before) {
      IsSortedSorted(l, Before);
    } else {
      SortBySorted(l, Before);
    }
  }

  /** Label sets that are permutations of each other canonicalise alike. */
  lemma CanonicalPermutation(l1: seq<Pair>, l2: seq<Pair>)
    requires multiset(l1) == multiset(l2)
    ensures Canonical(l1) == Canonical(l2)
    ensures FingerprintOf(Canonical(l1)) == FingerprintOf(Canonical(l2))
  {
    CanonicalSorted(l1);
    CanonicalSorted(l2);
    BeforeStrictTotal(multiset(l1));
    SortedUnique(Canonical(l1), Canonical(l2), Before);
  }

  /** Canonicalising twice is canonicalising once. */
  lemma CanonicalIdempotent(l: seq<Pair>)
    ensures Canonical(Canonical(l)) == Canonical(l)
  {
    CanonicalSorted(l);
    SortedIsSorted(Canonical(l), Before);
  }

  /** `validate`'s loop: each name must still be unaccounted for, then it is used up. */
  function CheckNames(l: seq<Pair>, remaining: set<string>): (r: Option<Panic>)
    ensures r.Some? ==> r.value.UndeclaredDimension? && r.value.pair in l
    decreases |l|
  {
    if l == [] then None
    else if l[0].name !in remaining then Some(UndeclaredDimension(l[0]))
    else CheckNames(l[1..], remaining - {l[0].name})
  }

  /** The partial's `validate`: the count first, then the names. */
  function ValidateLabels(l: seq<Pair>, dims: seq<string>): (r: Option<Panic>)
    ensures (r == Some(WrongDimensions)) <==> |l| != |dims|
    ensures r.Some? && r != Some(WrongDimensions) ==> r.value.UndeclaredDimension? && r.value.pair in l
  {
    if |l| != |dims| then Some(WrongDimensions)
    else CheckNames(l, set d | d in dims)
  }

  /** The names of `l` are pairwise distinct. */
  predicate DistinctNames(l: seq<Pair>) {
    forall i, j :: 0 <= i < j < |l| ==> l[i].name != l[j].name
  }

  lemma {:induction false} CheckNamesIff(l: seq<Pair>, remaining: set<string>)
    ensures CheckNames(l, remaining) == None <==>
            (forall i :: 0 <= i < |l| ==> l[i].name in remaining) && DistinctNames(l)
    decreases |l|
  {
    if l != [] {
      var rest := remaining - {l[0].name};
      CheckNamesIff(l[1..], rest);
      if CheckNames(l, remaining) == None {
        assert l[0].name in remaining;
        forall i | 0 <= i < |l| ensures l[i].name in remaining {
          if i > 0 {
            assert l[1..][i - 1] == l[i];
          }
        }
        forall i, j | 0 <= i < j < |l| ensures l[i].name != l[j].name {
          assert l[1..][j - 1] == l[j];
          if i > 0 {
            assert l[1..][i - 1] == l[i];
          }
        }
      }
      if (forall i :: 0 <= i < |l| ==> l[i].name in remaining) && DistinctNames(l) {
        forall i | 0 <= i < |l[1..]| ensures l[1..][i].name in rest {
          assert l[1..][i] == l[i + 1];
        }
        forall i, j | 0 <= i < j < |l[1..]| ensures l[1..][i].name != l[1..][j].name {
          assert l[1..][i] == l[i + 1] && l[1..][j] == l[j + 1];
        }
      }
    }
  }

  /**
   * Validation succeeds iff the label count equals the number of
   * dimensions, every name is a dimension, and no name repeats.
   */
  lemma ValidateLabelsIff(l: seq<Pair>, dims: seq<string>)
    ensures ValidateLabels(l, dims) == None <==>
            |l| == |dims| && (forall i :: 0 <= i < |l| ==> l[i].name in dims) && DistinctNames(l)
  {
    CheckNamesIff(l, set d | d in dims);
  }

  /** Validation fails when a declared dimension is missing. */
  lemma MissingDimensionRejected(l: seq<Pair>, dims: seq<string>, d: string)
    requires d in dims
    requires forall i :: 0 <= i < |l| ==> l[i].name != d
    ensures ValidateLabels(l, dims).Some?
  {
    ValidateLabelsIff(l, dims);
    if ValidateLabels(l, dims) == None {
      var names := set i | 0 <= i < |l| :: l[i].name;
      var dimSet := set x | x in dims;
      assert names <= dimSet - {d};
      NamesCard(l);
      SetOfSeqCard(dims);
      SubsetCard(names, dimSet - {d});
      assert false;
    }
  }

  /** Distinct names: as many names as pairs. */
  lemma {:induction false} NamesCard(l: seq<Pair>)
    requires DistinctNames(l)
    ensures |set i | 0 <= i < |l| :: l[i].name| == |l|
    decreases |l|
  {
    if l != [] {
      var n := |l| - 1;
      var init := l[..n];
      assert DistinctNames(init);
      NamesCard(init);
      var s0 := set i | 0 <= i < n :: init[i].name;
      var s1 := set i | 0 <= i < |l| :: l[i].name;
      assert s0 == set i | 0 <= i < n :: l[i].name;
      assert s1 == s0 + {l[n].name};
      assert l[n].name !in s0;
    }
  }

  lemma SubsetCard<T>(a: set<T>, b: set<T>)
    requires a <= b
    ensures |a| <= |b|
  {
    assert b == a + (b - a);
    assert a * (b - a) == {};
  }

  /** A sequence has at most as many distinct elements as positions. */
  lemma {:induction false} SetOfSeqCard(s: seq<string>)
    ensures |set x | x in s| <= |s|
    decreases |s|
  {
    if s != [] {
      var n := |s| - 1;
      SetOfSeqCard(s[..n]);
      assert (set x | x in s) == (set x | x in s[..n]) + {s[n]};
    }
  }

  /** A metric instance: a counter, gauge or summary child of a family. */
  class Child {
    const labels: seq<Pair>
    const fp: Fingerprint
    const family: MetricFamily
    var payload: Payload

    constructor (labels: seq<Pair>, fp: Fingerprint, family: MetricFamily, payload: Payload)
      ensures this.labels == labels && this.fp == fp && this.family == family && this.payload == payload
    {
      this.labels := labels;
      this.fp := fp;
      this.family := family;
      this.payload := payload;
    }

    /** `counter.Set` and `gauge.Set`. */
    method Set(v: real)
      requires !family.options.kindOptions.SummaryOptions?
      modifies this
      ensures payload == Scalar(v)
    {
      payload := Scalar(v);
    }

    /** `Reset`: counters and gauges go back to DefaultValue; a summary is left as it is. */
    method Reset()
      modifies this
      ensures family.options.kindOptions.SummaryOptions? ==> payload == old(payload)
      ensures !family.options.kindOptions.SummaryOptions? ==> payload == InitialPayload(family.options.kindOptions)
    {
      if !family.options.kindOptions.SummaryOptions? {
        payload := InitialPayload(family.options.kindOptions);
      }
    }

    /** `summary.Sample`: accepted and ignored. */
    method Sample(v: real)
      requires family.options.kindOptions.SummaryOptions?
      ensures unchanged(this)
    {
    }

    /** `Forget`: asks the family to forget this child's fingerprint. */
    method Forget() returns (r: Option<Panic>)
      requires family.Valid()
      modifies family
      ensures family.Valid()
      ensures fp !in old(family.childrenSet) ==>
                r == Some(MissingFingerprint) && family.children == old(family.children)
                && family.childrenSet == old(family.childrenSet)
      ensures fp in old(family.childrenSet) ==>
                family.childrenSet == old(family.childrenSet) - {fp}
                && match ForgetSlices(old(family.children), old(family.childrenSet)[fp])
                   case Some(rest) => family.children == rest && r == None
                   case None => family.children == old(family.children) && r == Some(SliceOutOfRange)
    {
      r := family.Forget(fp);
    }

    /**
     * `asText` of a child of the given kind, prefixed with the name of the
     * family that dumps it, as `dumpText` writes `f.name` then the text.
     */
    function TextLine(familyName: string, kind: Kind): Record
      reads this
    {
      if kind == SummaryKind then Records.TextLine(familyName, Literal("none"))
      else Records.TextLine(familyName + "{" + LabelsString(labels) + "}: ", Formatted(payload))
    }

    /** `asProto`: the labels in order and the kind's payload. */
    function ChildRecord(): ChildRecord
      reads this
    {
      Records.ChildRecord(labels, payload)
    }
  }

  /**
   * `Child.Before`. With more labels in `a` than in `b`, Go is true when some
   * shared position is before and otherwise indexes past `b`'s end and panics;
   * the model is false in that last case.
   */
  function ChildBefore(a: Child, b: Child): bool {
    if |a.labels| <= |b.labels| then SeqBefore(a.labels, b.labels)
    else SeqBefore(a.labels[..|b.labels|], b.labels)
  }

  /** `a` is before `b` exactly when some position both have is before. */
  lemma ChildBeforeExists(a: Child, b: Child)
    ensures ChildBefore(a, b) <==> exists i :: 0 <= i < |a.labels| && i < |b.labels| && Before(a.labels[i], b.labels[i])
  {
    if |a.labels| <= |b.labels| {
      SeqBeforeExists(a.labels, b.labels);
    } else {
      var l := a.labels[..|b.labels|];
      SeqBeforeExists(l, b.labels);
      assert forall i :: 0 <= i < |l| ==> l[i] == a.labels[i];
    }
  }

  /** With at most one dimension the children order is a strict weak order. */
  lemma ChildOrderWeak(cs: multiset<Child>, arity: nat)
    requires arity <= 1 && forall c :: c in cs ==> |c.labels| == arity
    ensures StrictWeakOn(ChildBefore, cs)
  {
    if arity == 1 {
      forall a, b | a in cs && b in cs && ChildBefore(a, b) ensures !ChildBefore(b, a) {
        SeqBeforeSingle(a.labels, b.labels);
        SeqBeforeSingle(b.labels, a.labels);
        BeforeAsymmetric(a.labels[0], b.labels[0]);
      }
      forall a, b, c | a in cs && b in cs && c in cs && !ChildBefore(a, b) && !ChildBefore(b, c)
        ensures !ChildBefore(a, c)
      {
        var p, q, t := a.labels[0], b.labels[0], c.labels[0];
        SeqBeforeSingle(a.labels, b.labels);
        SeqBeforeSingle(b.labels, c.labels);
        SeqBeforeSingle(a.labels, c.labels);
        if p != q && q != t {
          BeforeConnected(p, q);
          BeforeConnected(q, t);
          BeforeTransitive(t, q, p);
          BeforeAsymmetric(t, p);
        }
      }
    }
  }

  /**
   * Only with at most one dimension does sorting leave the children ordered;
   * with two, `SeqBeforeNotAsymmetric` shows the order is not one.
   */
  lemma SortedWhenOneDimension(cs: seq<Child>, arity: nat)
    requires arity <= 1 && forall i :: 0 <= i < |cs| ==> |cs[i].labels| == arity
    ensures Sorted(SortBy(cs, ChildBefore), ChildBefore)
  {
    forall c | c in multiset(cs) ensures |c.labels| == arity {
      var i :| 0 <= i < |cs| && cs[i] == c;
    }
    ChildOrderWeak(multiset(cs), arity);
    SortBySorted(cs, ChildBefore);
  }

  /** The child's stored `fingerprint`, the key of the family's index. */
  function Key(c: Child): Fingerprint {
    c.fp
  }

  /** Registering a child with a new fingerprint over an exact index gives an exact index. */
  lemma RegisterExact(before: seq<Child>, base: map<Fingerprint, int>, c: Child, after: seq<Child>)
    requires base == PositionMap(before, Key) && Distinct(before, Key) && c.fp !in base
    requires after == SortBy(before + [c], ChildBefore)
    ensures base + PositionMap(after, Key) == PositionMap(after, Key) && Distinct(after, Key)
  {
    ReindexExact(before, c, after, Key);
  }

  /** Sorting children keeps them children of the same family with the same arity. */
  lemma SortedMembers(all: seq<Child>, r: seq<Child>, family: MetricFamily, arity: int)
    requires forall i :: 0 <= i < |all| ==> all[i].family == family && |all[i].labels| == arity
    requires r == SortBy(all, ChildBefore)
    ensures forall i :: 0 <= i < |r| ==> r[i].family == family && |r[i].labels| == arity
  {
    SortByMembers(all, ChildBefore);
  }

  lemma ExactIndexed(cs: seq<Child>, idx: map<Fingerprint, int>)
    requires idx == PositionMap(cs, Key)
    ensures Indexed(cs, idx, Key)
  {
  }

  /**
   * The index is exactly the positions of the children, and no two children
   * share a fingerprint. Registering keeps this; `forget` does not.
   */
  ghost predicate ExactIndex(cs: seq<Child>, idx: map<Fingerprint, int>) {
    idx == PositionMap(cs, Key) && Distinct(cs, Key)
  }

  /** What `Apply` does once the labels are canonical. */
  datatype Plan = Reuse(child: Child) | Refuse(panic: Panic) | Create

  /** `Apply`'s decision: an indexed child wins, then the index's panic, then validation. */
  function PlanFor(cs: seq<Child>, idx: map<Fingerprint, int>, l: seq<Pair>, dims: seq<string>): Plan {
    match LookupIn(cs, idx, FingerprintOf(l))
    case Found(c) => Reuse(c)
    case LookupPanic(i) => Refuse(IndexOutOfRange(i))
    case NotFound =>
      if ValidateLabels(l, dims).Some? then Refuse(ValidateLabels(l, dims).value) else Create
  }

  /**
   * On an exact index, `Apply` reuses a child exactly when one carries the
   * labels' fingerprint, never hits the index panic, and creates a child
   * exactly when none carries it and the labels are valid.
   */
  lemma PlanOnExact(cs: seq<Child>, idx: map<Fingerprint, int>, l: seq<Pair>, dims: seq<string>)
    requires idx == PositionMap(cs, Key)
    ensures var plan := PlanFor(cs, idx, l, dims);
            && (plan.Reuse? <==> exists i :: 0 <= i < |cs| && cs[i].fp == FingerprintOf(l))
            && (plan.Reuse? ==> plan.child in cs && plan.child.fp == FingerprintOf(l))
            && (plan.Refuse? ==> !plan.panic.IndexOutOfRange?)
            && (plan.Create? <==>
                  (forall i :: 0 <= i < |cs| ==> cs[i].fp != FingerprintOf(l))
                  && |l| == |dims| && (forall i :: 0 <= i < |l| ==> l[i].name in dims) && DistinctNames(l))
  {
    ExactIndexed(cs, idx);
    LookupIndexed(cs, idx, FingerprintOf(l));
    ValidateLabelsIff(l, dims);
  }

  /**
   * Label sets whose concatenations collide share a fingerprint, so `Apply`
   * with `a="bc"` hands back the child registered for `ab="c"`.
   */
  lemma CollidingLabelsReuse(c: Child, dims: seq<string>)
    requires c.labels == [Pair("ab", "c")] && c.fp == FingerprintOf(c.labels)
    ensures Canonical([Pair("a", "bc")]) == [Pair("a", "bc")]
    ensures PlanFor([c], PositionMap([c], Key), [Pair("a", "bc")], dims) == Reuse(c)
  {
    FingerprintCollision();
    assert FingerprintOf([Pair("a", "bc")]) == c.fp;
    var m := PositionMap([c], Key);
    PositionMapExact([c], Key, 0);
    assert m[c.fp] == 0;
  }

  /** The result of `find`. */
  datatype Lookup = Found(child: Child) | NotFound | LookupPanic(index: int)

  /** `find`: the index gives a position, and Go panics if it is out of range. */
  function LookupIn(cs: seq<Child>, idx: map<Fingerprint, int>, f: Fingerprint): Lookup {
    if f !in idx then NotFound
    else if 0 <= idx[f] < |cs| then Found(cs[idx[f]])
    else LookupPanic(idx[f])
  }

  /** On a consistent index, `find` finds exactly the children that carry `f`. */
  lemma LookupIndexed(cs: seq<Child>, idx: map<Fingerprint, int>, f: Fingerprint)
    requires Indexed(cs, idx, Key)
    ensures !LookupIn(cs, idx, f).LookupPanic?
    ensures LookupIn(cs, idx, f).Found? <==> exists i :: 0 <= i < |cs| && cs[i].fp == f
    ensures LookupIn(cs, idx, f).Found? ==> LookupIn(cs, idx, f).child.fp == f
  {
    if exists i :: 0 <= i < |cs| && cs[i].fp == f {
      var i :| 0 <= i < |cs| && cs[i].fp == f;
      assert cs[i].fp in idx;
    }
  }

  /**
   * The children slice after `forget` removes position `index`, as written:
   * `children[1:]` at 0, `children[:index-1]` at the last position, and
   * `children[:index-1] + children[index+1:]` elsewhere. `None` is Go's
   * slice-bounds panic.
   */
  function ForgetSlices(cs: seq<Child>, index: int): Option<seq<Child>> {
    if index == 0 then (if |cs| >= 1 then Some(cs[1..]) else None)
    else if index == |cs| - 1 then (if index >= 1 then Some(cs[..index - 1]) else None)
    else if 1 <= index && index + 1 <= |cs| then Some(cs[..index - 1] + cs[index + 1..])
    else None
  }

  /** At position 0 exactly the first child goes. */
  lemma ForgetFirst(cs: seq<Child>)
    requires |cs| >= 1
    ensures ForgetSlices(cs, 0) == Some(cs[1..])
  {
  }

  /** At any later position the child before it goes too: two children are lost. */
  lemma ForgetDropsPredecessor(cs: seq<Child>, index: int)
    requires 1 <= index < |cs|
    ensures ForgetSlices(cs, index) == Some(cs[..index - 1] + cs[index + 1..])
    ensures |ForgetSlices(cs, index).value| == |cs| - 2
  {
    if index == |cs| - 1 {
      assert cs[index + 1..] == [];
      assert cs[..index - 1] + cs[index + 1..] == cs[..index - 1];
    }
  }

  /** A stale position past the end is a slice-bounds panic. */
  lemma ForgetStalePanics(cs: seq<Child>, index: int)
    requires index >= |cs|
    ensures ForgetSlices(cs, index) == None
  {
  }

  /**
   * Without renumbering, forgetting the first of several children leaves an
   * index that no longer matches the positions.
   */
  lemma ForgetFirstBreaksIndex(cs: seq<Child>, idx: map<Fingerprint, int>)
    requires Indexed(cs, idx, Key) && Distinct(cs, Key) && |cs| >= 2
    ensures !Indexed(ForgetSlices(cs, 0).value, idx - {cs[0].fp}, Key)
  {
    var rest := cs[1..];
    var idx' := idx - {cs[0].fp};
    var f := cs[1].fp;
    assert f in idx';
    var k := idx[f];
    assert cs[k].fp == f;
    assert k == 1;
    assert f != cs[0].fp;
    assert idx'[f] == 1;
    if |cs| > 2 {
      assert rest[1] == cs[2];
      assert cs[2].fp != f;
    }
    assert !(0 <= idx'[f] < |rest| && rest[idx'[f]].fp == f);
  }

  /**
   * After forgetting the first of three children, `find` on the second one's
   * fingerprint returns the third child, and on the third one's panics.
   */
  lemma ForgetFirstMisdirectsFind(a: Child, b: Child, c: Child)
    requires a.fp != b.fp && b.fp != c.fp && a.fp != c.fp
    ensures var cs := [a, b, c];
            var idx := PositionMap(cs, Key) - {a.fp};
            var after := ForgetSlices(cs, 0).value;
            LookupIn(after, idx, b.fp) == Found(c) && LookupIn(after, idx, c.fp) == LookupPanic(2)
  {
    var cs := [a, b, c];
    assert Distinct(cs, Key);
    var m := PositionMap(cs, Key);
    PositionMapExact(cs, Key, 1);
    PositionMapExact(cs, Key, 2);
    assert m[b.fp] == 1 && m[c.fp] == 2;
    var idx := m - {a.fp};
    assert idx[b.fp] == 1 && idx[c.fp] == 2;
    var after := ForgetSlices(cs, 0).value;
    assert after == [b, c];
    assert LookupIn(after, idx, b.fp) == Found(after[1]);
  }

  /**
   * Forgetting the only child leaves no children and an empty index: `find`
   * reports not-found and the family no longer wants to be dumped.
   */
  lemma ForgetOnlyChild(cs: seq<Child>, idx: map<Fingerprint, int>)
    requires Indexed(cs, idx, Key) && |cs| == 1
    ensures var after := ForgetSlices(cs, idx[cs[0].fp]).value;
            var idx' := idx - {cs[0].fp};
            after == [] && idx' == map[] && LookupIn(after, idx', cs[0].fp) == NotFound
  {
    assert cs[0].fp in idx;
    assert idx[cs[0].fp] == 0;
    forall f | f in idx ensures f == cs[0].fp {
      assert idx[f] == 0;
    }
    assert idx.Keys == {cs[0].fp};
    var idx' := idx - {cs[0].fp};
    assert idx'.Keys == {};
  }

  /** The evidently intended removal: splice out one position and rebuild the index. */
  function ForgetSpliced(cs: seq<Child>, idx: map<Fingerprint, int>, f: Fingerprint): (r: (seq<Child>, map<Fingerprint, int>))
    requires f in idx && 0 <= idx[f] < |cs|
  {
    var rest := cs[..idx[f]] + cs[idx[f] + 1..];
    (rest, PositionMap(rest, Key))
  }

  /**
   * The spliced removal drops exactly the forgotten child, keeps the order of
   * the rest, and leaves a consistent index without `f`.
   */
  lemma ForgetSplicedCorrect(cs: seq<Child>, idx: map<Fingerprint, int>, f: Fingerprint)
    requires Indexed(cs, idx, Key) && Distinct(cs, Key) && f in idx
    ensures var (rest, idx') := ForgetSpliced(cs, idx, f);
            && |rest| == |cs| - 1
            && multiset(rest) + multiset{cs[idx[f]]} == multiset(cs)
            && Indexed(rest, idx', Key) && Distinct(rest, Key)
            && f !in idx'
            && (forall i :: 0 <= i < |rest| ==> idx'[rest[i].fp] == i)
  {
    var p := idx[f];
    var rest := cs[..p] + cs[p + 1..];
    var m := PositionMap(rest, Key);
    assert ForgetSpliced(cs, idx, f) == (rest, m);
    assert Key(cs[p]) == f;
    SpliceShape(cs, p);
    SpliceDistinct(cs, Key, p);
    forall i | 0 <= i < |rest| ensures m[rest[i].fp] == i {
      PositionMapExact(rest, Key, i);
    }
  }

  /** The spliced removal keeps the index exact and the remaining children as they were. */
  lemma ForgetSplicedExact(cs: seq<Child>, idx: map<Fingerprint, int>, f: Fingerprint, family: MetricFamily, arity: int)
    requires ExactIndex(cs, idx) && f in idx
    requires forall i :: 0 <= i < |cs| ==> cs[i].family == family && |cs[i].labels| == arity
    ensures 0 <= idx[f] < |cs|
    ensures ExactIndex(ForgetSpliced(cs, idx, f).0, ForgetSpliced(cs, idx, f).1)
    ensures forall c :: c in ForgetSpliced(cs, idx, f).0 ==> c.family == family && |c.labels| == arity
  {
    ExactIndexed(cs, idx);
    var p := idx[f];
    SpliceMembers(cs, p, family, arity);
    SpliceDistinct(cs, Key, p);
  }

  lemma SpliceMembers(cs: seq<Child>, p: int, family: MetricFamily, arity: int)
    requires 0 <= p < |cs|
    requires forall i :: 0 <= i < |cs| ==> cs[i].family == family && |cs[i].labels| == arity
    ensures forall c :: c in cs[..p] + cs[p + 1..] ==> c.family == family && |c.labels| == arity
  {
    forall c | c in cs[..p] + cs[p + 1..] ensures c in cs {
      assert c in cs[..p] || c in cs[p + 1..];
    }
  }

  /** A family: its options, derived name, stored fingerprint, children and index. */
  class MetricFamily {
    const name: string
    const fp: Fingerprint
    const options: FamilyOptions
    var children: seq<Child>
    var childrenSet: map<Fingerprint, int>

    /**
     * What the source keeps true: every child belongs to this family and has
     * one pair per dimension (only validated label sets are registered).
     */
    ghost predicate Valid()
      reads this
    {
      forall i :: 0 <= i < |children| ==>
        children[i].family == this && |children[i].labels| == |options.meta.dimensions|
    }

    /** The family literal of `NewCounterFamily` and its siblings. */
    constructor (name: string, fp: Fingerprint, options: FamilyOptions)
      ensures this.name == name && this.fp == fp && this.options == options
      ensures children == [] && childrenSet == map[]
      ensures Valid() && ExactIndex(children, childrenSet)
    {
      this.name := name;
      this.fp := fp;
      this.options := options;
      children := [];
      childrenSet := map[];
    }

    /** `ForgetAll`: no children and an empty index. */
    method ForgetAll()
      modifies this
      ensures children == [] && childrenSet == map[]
      ensures Valid() && ExactIndex(children, childrenSet)
    {
      children := [];
      childrenSet := map[];
    }

    /** `ResetAll`: every child's `Reset`; the children and the index stay. */
    method ResetAll()
      requires Valid()
      modifies set i | 0 <= i < |children| :: children[i]
      ensures unchanged(this)
      ensures options.kindOptions.SummaryOptions? ==>
                forall i :: 0 <= i < |children| ==> children[i].payload == old(children[i].payload)
      ensures !options.kindOptions.SummaryOptions? ==>
                forall i :: 0 <= i < |children| ==> children[i].payload == InitialPayload(options.kindOptions)
    {
      var i := 0;
      while i < |children|
        invariant 0 <= i <= |children|
        invariant options.kindOptions.SummaryOptions? ==>
                    forall k :: 0 <= k < |children| ==> children[k].payload == old(children[k].payload)
        invariant !options.kindOptions.SummaryOptions? ==>
                    forall k :: 0 <= k < i ==> children[k].payload == InitialPayload(options.kindOptions)
      {
        children[i].Reset();
        i := i + 1;
      }
    }

    /** `forget`: drop the fingerprint from the index, then slice the children. */
    method Forget(f: Fingerprint) returns (r: Option<Panic>)
      requires Valid()
      modifies this
      ensures Valid()
      ensures f !in old(childrenSet) ==>
                r == Some(MissingFingerprint) && children == old(children) && childrenSet == old(childrenSet)
      ensures f in old(childrenSet) ==>
                childrenSet == old(childrenSet) - {f}
                && match ForgetSlices(old(children), old(childrenSet)[f])
                   case Some(rest) => children == rest && r == None
                   case None => children == old(children) && r == Some(SliceOutOfRange)
    {
      if f !in childrenSet {
        return Some(MissingFingerprint);
      }
      var index := childrenSet[f];
      childrenSet := childrenSet - {f};
      var sliced := ForgetSlices(children, index);
      if sliced.None? {
        return Some(SliceOutOfRange);
      }
      children := sliced.value;
      r := None;
    }

    /**
     * The evidently intended `forget`: splice out exactly the forgotten child
     * and rebuild the index, which then stays exact.
     */
    method ForgetCorrected(f: Fingerprint) returns (r: Option<Panic>)
      requires Valid() && ExactIndex(children, childrenSet)
      modifies this
      ensures Valid() && ExactIndex(children, childrenSet)
      ensures f !in old(childrenSet) ==>
                r == Some(MissingFingerprint) && children == old(children) && childrenSet == old(childrenSet)
      ensures f in old(childrenSet) ==>
                r == None && (children, childrenSet) == ForgetSpliced(old(children), old(childrenSet), f)
    {
      if f !in childrenSet {
        return Some(MissingFingerprint);
      }
      ForgetSplicedExact(children, childrenSet, f, this, |options.meta.dimensions|);
      var (rest, index) := ForgetSpliced(children, childrenSet, f);
      children := rest;
      childrenSet := index;
      r := None;
    }

    /** `find`. */
    method Find(f: Fingerprint) returns (r: Lookup)
      ensures r == LookupIn(children, childrenSet, f)
    {
      if f !in childrenSet {
        return NotFound;
      }
      var index := childrenSet[f];
      if index < 0 || index >= |children| {
        return LookupPanic(index);
      }
      r := Found(children[index]);
    }

    /** `register`: append, sort, and write every position into the index. */
    method Register(c: Child)
      requires Valid() && c.family == this && |c.labels| == |options.meta.dimensions|
      modifies this
      ensures Valid()
      ensures children == SortBy(old(children) + [c], ChildBefore)
      ensures childrenSet == old(childrenSet) + PositionMap(children, Key)
      ensures ExactIndex(old(children), old(childrenSet)) && c.fp !in old(childrenSet) ==> ExactIndex(children, childrenSet)
    {
      var sorted := SortBy(children + [c], ChildBefore);
      SortedMembers(children + [c], sorted, this, |options.meta.dimensions|);
      var index := Reindex(childrenSet, sorted, Key);
      if ExactIndex(children, childrenSet) && c.fp !in childrenSet {
        RegisterExact(children, childrenSet, c, sorted);
      }
      children := sorted;
      childrenSet := index;
    }

    /** The tail of `Apply`: a child at its initial value, registered. */
    method Create(labels: seq<Pair>, f: Fingerprint) returns (c: Child)
      requires Valid() && |labels| == |options.meta.dimensions|
      modifies this
      ensures fresh(c) && c.labels == labels && c.fp == f && c.family == this
      ensures c.payload == InitialPayload(options.kindOptions)
      ensures Valid()
      ensures children == SortBy(old(children) + [c], ChildBefore)
      ensures childrenSet == old(childrenSet) + PositionMap(children, Key)
      ensures ExactIndex(old(children), old(childrenSet)) && f !in old(childrenSet) ==> ExactIndex(children, childrenSet)
      ensures c in children
    {
      c := new Child(labels, f, this, InitialPayload(options.kindOptions));
      ghost var before := children;
      Register(c);
      assert c in multiset(before + [c]);
      assert c in multiset(children);
    }

    /** `NewChild`: pair the strings up into a fresh partial, or panic on an odd count. */
    method NewChild(strs: seq<string>) returns (r: Outcome<Partial>)
      ensures |strs| % 2 != 0 <==> r.Panicked?
      ensures r.Panicked? ==> r.panic == OddLabelCount
      ensures r.Ok? ==> fresh(r.value) && r.value.family == this && r.value.labels == PairsOf(strs)
    {
      if |strs| % 2 != 0 {
        return Panicked(OddLabelCount);
      }
      var pairs := PairUp(strs);
      var p := new Partial(pairs, this);
      r := Ok(p);
    }

    /** `shouldDump`. */
    method ShouldDump() returns (b: bool)
      ensures b <==> children != []
    {
      b := |children| > 0;
    }

    /** The lines `dumpText` writes for the children, in order. */
    ghost function TextLines(): seq<Record>
      reads this, set i | 0 <= i < |children| :: children[i]
    {
      TextLinesOf(name, options.Kind(), children)
    }

    /** `dumpText`: one line per child, in order, stopping at the first error. */
    method DumpText(w: Writer) returns (err: Option<WriteError>)
      modifies w
      ensures (w.State(), err) == Run(w.failures, old(w.State()), TextLinesOf(name, options.Kind(), children))
    {
      ghost var lines := TextLinesOf(name, options.Kind(), children);
      var i := 0;
      while i < |children|
        invariant 0 <= i <= |children|
        invariant (w.State(), None) == Run(w.failures, old(w.State()), lines[..i])
      {
        ghost var s := w.State();
        err := w.Write(children[i].TextLine(name, options.Kind()));
        RunStep(w.failures, old(w.State()), lines, i, s, w.State(), err);
        if err.Some? {
          return;
        }
        i := i + 1;
      }
      assert lines[..i] == lines;
      err := None;
    }

    /** The protocol-buffer family `dumpProto` builds. */
    function ProtoRecord(o: DumpOptions): Record
      reads this, set i | 0 <= i < |children| :: children[i]
    {
      ProtoFamily(name, options.Kind(), if o.includeHelp then Some(options.meta.help) else None,
                  ChildRecordsOf(children))
    }

    /** `dumpProto`: one delimited message for the whole family. */
    method DumpProto(w: Writer, o: DumpOptions) returns (err: Option<WriteError>)
      modifies w
      ensures (w.State(), err) == Run(w.failures, old(w.State()), [ProtoRecord(o)])
    {
      err := w.Write(ProtoRecord(o));
    }

    /** The object `MarshalJSON` encodes. */
    function JsonRecord(): JsonFamily
      reads this, set i | 0 <= i < |children| :: children[i]
    {
      JsonFamily(name, match options.Kind() case CounterKind => "counter" case GaugeKind => "gauge" case SummaryKind => "summary",
                 ChildRecordsOf(children))
    }
  }

  /** The text lines a family named `familyName` of kind `kind` writes for `cs`, in order. */
  function TextLinesOf(familyName: string, kind: Kind, cs: seq<Child>): (r: seq<Record>)
    reads set i | 0 <= i < |cs| :: cs[i]
    ensures |r| == |cs|
    ensures forall i :: 0 <= i < |cs| ==> r[i] == cs[i].TextLine(familyName, kind)
    decreases |cs|
  {
    if cs == [] then []
    else TextLinesOf(familyName, kind, cs[..|cs| - 1]) + [cs[|cs| - 1].TextLine(familyName, kind)]
  }

  /** A summary family's text dump is its name followed by `none`, once per child. */
  lemma SummaryTextLines(familyName: string, cs: seq<Child>)
    ensures TextLinesOf(familyName, SummaryKind, cs) == seq(|cs|, i => Records.TextLine(familyName, Literal("none")))
    ensures forall i :: 0 <= i < |cs| ==> LiteralLine(TextLinesOf(familyName, SummaryKind, cs)[i]) == familyName + "none\n"
  {
    var lines := TextLinesOf(familyName, SummaryKind, cs);
    var none := Records.TextLine(familyName, Literal("none"));
    forall i | 0 <= i < |cs| ensures lines[i] == none {
      assert lines[i] == cs[i].TextLine(familyName, SummaryKind);
    }
    assert lines == seq(|cs|, i => none);
  }

  lemma TextLinesAppend(familyName: string, kind: Kind, a: seq<Child>, b: seq<Child>)
    ensures TextLinesOf(familyName, kind, a + b) == TextLinesOf(familyName, kind, a) + TextLinesOf(familyName, kind, b)
  {
  }

  function ChildRecordsOf(cs: seq<Child>): (r: seq<ChildRecord>)
    reads set i | 0 <= i < |cs| :: cs[i]
    ensures |r| == |cs|
    ensures forall i :: 0 <= i < |cs| ==> r[i] == cs[i].ChildRecord()
    decreases |cs|
  {
    if cs == [] then [] else ChildRecordsOf(cs[..|cs| - 1]) + [cs[|cs| - 1].ChildRecord()]
  }

  /** A partial: labels accumulated so far and the family they are meant for. */
  class Partial {
    var labels: seq<Pair>
    const family: MetricFamily

    constructor (labels: seq<Pair>, family: MetricFamily)
      ensures this.labels == labels && this.family == family
    {
      this.labels := labels;
      this.family := family;
    }

    /** `With`: append the pairs after the existing labels, or panic on an odd count. */
    method With(strs: seq<string>) returns (r: Option<Panic>)
      modifies this
      ensures |strs| % 2 != 0 ==> r == Some(OddLabelCount) && labels == old(labels)
      ensures |strs| % 2 == 0 ==> r == None && labels == old(labels) + PairsOf(strs)
    {
      if |strs| % 2 != 0 {
        return Some(OddLabelCount);
      }
      var pairs := PairUp(strs);
      labels := labels + pairs;
      r := None;
    }

    /** `Clone`: a new partial with a copy of the labels and the same family. */
    method Clone() returns (q: Partial)
      ensures fresh(q) && q.labels == labels && q.family == family
    {
      q := new Partial(labels, family);
    }

    /** A clone takes later `With` calls without changing the original. */
    method CloneThenWith(strs: seq<string>) returns (q: Partial)
      ensures fresh(q) && q.family == family && labels == old(labels)
      ensures |strs| % 2 == 0 ==> q.labels == labels + PairsOf(strs)
      ensures |strs| % 2 != 0 ==> q.labels == labels
    {
      q := Clone();
      var _ := q.With(strs);
    }

    /** `validate`. */
    method Validate() returns (r: Option<Panic>)
      ensures r == ValidateLabels(labels, family.options.meta.dimensions)
    {
      var dims := family.options.meta.dimensions;
      if |labels| != |dims| {
        return Some(WrongDimensions);
      }
      var unaccounted := set d | d in dims;
      var i := 0;
      while i < |labels|
        invariant 0 <= i <= |labels|
        invariant CheckNames(labels, set d | d in dims) == CheckNames(labels[i..], unaccounted)
      {
        var pair := labels[i];
        assert labels[i..][1..] == labels[i + 1..];
        if pair.name !in unaccounted {
          return Some(UndeclaredDimension(pair));
        }
        unaccounted := unaccounted - {pair.name};
        i := i + 1;
      }
      r := None;
    }

    /**
     * `Apply`: canonicalise, fingerprint, then do what `PlanFor` decides:
     * return the child the index gives, panic, or register a new child.
     */
    method Apply() returns (r: Outcome<Child>)
      requires family.Valid()
      modifies this, family
      ensures family.Valid()
      ensures labels == Canonical(old(labels))
      ensures var plan := PlanFor(old(family.children), old(family.childrenSet), labels, family.options.meta.dimensions);
        && (plan.Reuse? ==> r == Ok(plan.child) && unchanged(family))
        && (plan.Refuse? ==> r == Panicked(plan.panic) && unchanged(family))
        && (plan.Create? ==>
              r.Ok? && fresh(r.value)
              && r.value.labels == labels && r.value.fp == FingerprintOf(labels) && r.value.family == family
              && r.value.payload == InitialPayload(family.options.kindOptions)
              && family.children == SortBy(old(family.children) + [r.value], ChildBefore)
              && family.childrenSet == old(family.childrenSet) + PositionMap(family.children, Key))
      ensures ExactIndex(old(family.children), old(family.childrenSet)) ==> ExactIndex(family.children, family.childrenSet)
    {
      if !IsSorted(labels, Before) {
        labels := SortBy(labels, Before);
      }
      var f := LabelPairs.Fingerprint(labels);
      var found := family.Find(f);
      if found.Found? {
        return Ok(found.child);
      }
      if found.LookupPanic? {
        return Panicked(IndexOutOfRange(found.index));
      }
      var invalid := Validate();
      if invalid.Some? {
        return Panicked(invalid.value);
      }
      assert f !in family.childrenSet;
      var c := family.Create(labels, f);
      r := Ok(c);
    }
  }
}
