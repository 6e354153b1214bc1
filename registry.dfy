/**
 * The registry every family constructor registers into, and the
 * constructors themselves (`NewCounterFamily`, `NewGaugeFamily`,
 * `NewSummaryFamily`), with the registry passed in explicitly.
 */
module Registries {
  import opened Outcomes
  import opened Fnv
  import opened Sorting
  import opened Metric
  import opened Records
  import opened Index
  import opened Engine
  import opened Families

  /** The registry's key for a family: its `fingerprint()`, the stored `fp` field. */
  function FamilyKey(f: MetricFamily): Fingerprint {
    f.fp
  }

  /** The registry's index is exactly the positions, and no two families share a key. */
  ghost predicate ExactFamilies(fs: seq<MetricFamily>, idx: map<Fingerprint, int>) {
    idx == PositionMap(fs, FamilyKey) && Distinct(fs, FamilyKey)
  }

  /** The families that have at least one child, in registry order. */
  ghost function NonEmpty(fs: seq<MetricFamily>): (r: seq<MetricFamily>)
    reads set k | 0 <= k < |fs| :: fs[k]
    decreases |fs|
  {
    if fs == [] then []
    else NonEmpty(fs[..|fs| - 1]) + (if fs[|fs| - 1].children != [] then [fs[|fs| - 1]] else [])
  }

  /** A family is collected exactly when it is registered and has children. */
  lemma {:induction false} NonEmptyMembers(fs: seq<MetricFamily>, f: MetricFamily)
    ensures f in NonEmpty(fs) <==> f in fs && f.children != []
    decreases |fs|
  {
    if fs != [] {
      var n := |fs| - 1;
      NonEmptyMembers(fs[..n], f);
      assert fs == fs[..n] + [fs[n]];
    }
  }

  datatype RegisterOutcome = Registered | AlreadyRegistered

  class Registry {
    var families: seq<MetricFamily>
    var familiesSet: map<Fingerprint, int>

    /** `newRegistry`. */
    constructor ()
      ensures families == [] && familiesSet == map[]
      ensures ExactFamilies(families, familiesSet)
    {
      families := [];
      familiesSet := map[];
    }

    /**
     * `register`: a family whose key is already indexed is refused (Go
     * panics); otherwise it is appended, the list sorted by name, and every
     * position written into the index.
     */
    method Register(f: MetricFamily) returns (r: RegisterOutcome)
      modifies this
      ensures FamilyKey(f) in old(familiesSet) ==> r == AlreadyRegistered && unchanged(this)
      ensures FamilyKey(f) !in old(familiesSet) ==>
                && r == Registered
                && families == SortBy(old(families) + [f], NameLess)
                && familiesSet == old(familiesSet) + PositionMap(families, FamilyKey)
                && Sorted(families, NameLess)
      ensures ExactFamilies(old(families), old(familiesSet)) ==> ExactFamilies(families, familiesSet)
    {
      if f.fp in familiesSet {
        return AlreadyRegistered;
      }
      var sorted := SortBy(families + [f], NameLess);
      NameLessWeak(multiset(families + [f]));
      SortBySorted(families + [f], NameLess);
      var index := Reindex(familiesSet, sorted, FamilyKey);
      if ExactFamilies(families, familiesSet) {
        ReindexExact(families, f, sorted, FamilyKey);
      }
      families := sorted;
      familiesSet := index;
      r := Registered;
    }

    /** `collectFamilies`: the families that want to be dumped, in order. */
    method CollectFamilies() returns (fs: seq<MetricFamily>)
      ensures fs == NonEmpty(families)
    {
      fs := [];
      var i := 0;
      while i < |families|
        invariant 0 <= i <= |families|
        invariant fs == NonEmpty(families[..i])
      {
        assert families[..i + 1][..i] == families[..i];
        var dump := families[i].ShouldDump();
        if dump {
          fs := fs + [families[i]];
        }
        i := i + 1;
      }
      assert families[..i] == families;
    }

    /** `dump`: collect, then dump the collected list in the requested format. */
    method Dump(w: Writer, o: DumpOptions) returns (r: DumpResult)
      modifies w
      ensures o.format == FormatProto ==>
                r.Completed? && (w.State(), r.err) == Run(w.failures, old(w.State()), old(ProtosOf(NonEmpty(families), o)))
      ensures o.format == FormatText ==>
                r.Completed? && (w.State(), r.err) == Run(w.failures, old(w.State()), Concat(old(TextChunks(NonEmpty(families)))))
      ensures o.format == FormatJson ==>
                r.Completed? && (w.State(), r.err) == Run(w.failures, old(w.State()), [old(JsonOf(NonEmpty(families)))])
      ensures o.format != FormatProto && o.format != FormatText && o.format != FormatJson ==>
                r == IllegalFormat(o.format) && unchanged(w)
    {
      var fs := CollectFamilies();
      assert TextChunks(fs) == old(TextChunks(NonEmpty(families)));
      assert ProtosOf(fs, o) == old(ProtosOf(NonEmpty(families), o));
      r := Families.Dump(fs, w, o);
    }
  }

  /** What a family constructor ends in: a family, or one of its two panics. */
  datatype Construction = Constructed(family: MetricFamily) | InvalidOptions(error: ConfigError) | Duplicate

  /**
   * `NewCounterFamily` and its siblings as written: validate, build the
   * family with its derived name and the `fp` field left at zero, register.
   */
  method NewFamily(reg: Registry, o: FamilyOptions) returns (r: Construction)
    modifies reg
    ensures ValidateOptions(o).Some? ==> r == InvalidOptions(ValidateOptions(o).value) && unchanged(reg)
    ensures ValidateOptions(o).None? && 0 in old(reg.familiesSet) ==> r == Duplicate && unchanged(reg)
    ensures ValidateOptions(o).None? && 0 !in old(reg.familiesSet) ==>
              && r.Constructed? && fresh(r.family)
              && r.family.name == DeriveName(o.meta) && r.family.fp == 0 && r.family.options == o
              && r.family.children == [] && r.family.childrenSet == map[]
              && reg.families == SortBy(old(reg.families) + [r.family], NameLess)
    ensures ExactFamilies(old(reg.families), old(reg.familiesSet)) ==> ExactFamilies(reg.families, reg.familiesSet)
  {
    var invalid := ValidateOptions(o);
    if invalid.Some? {
      return InvalidOptions(invalid.value);
    }
    var family := new MetricFamily(DeriveName(o.meta), 0, o);
    var outcome := reg.Register(family);
    if outcome == AlreadyRegistered {
      return Duplicate;
    }
    r := Constructed(family);
  }

  /** The evidently intended constructor: the stored fingerprint is the name's. */
  method NewFamilyCorrected(reg: Registry, o: FamilyOptions) returns (r: Construction)
    modifies reg
    ensures ValidateOptions(o).Some? ==> r == InvalidOptions(ValidateOptions(o).value) && unchanged(reg)
    ensures ValidateOptions(o).None? && NameFingerprint(DeriveName(o.meta)) in old(reg.familiesSet) ==>
              r == Duplicate && unchanged(reg)
    ensures ValidateOptions(o).None? && NameFingerprint(DeriveName(o.meta)) !in old(reg.familiesSet) ==>
              && r.Constructed? && fresh(r.family)
              && r.family.name == DeriveName(o.meta) && r.family.fp == NameFingerprint(DeriveName(o.meta))
              && r.family.options == o && r.family.children == [] && r.family.childrenSet == map[]
              && reg.families == SortBy(old(reg.families) + [r.family], NameLess)
    ensures ExactFamilies(old(reg.families), old(reg.familiesSet)) ==> ExactFamilies(reg.families, reg.familiesSet)
  {
    var invalid := ValidateOptions(o);
    if invalid.Some? {
      return InvalidOptions(invalid.value);
    }
    var name := DeriveName(o.meta);
    var family := new MetricFamily(name, NameFingerprint(name), o);
    var outcome := reg.Register(family);
    if outcome == AlreadyRegistered {
      return Duplicate;
    }
    r := Constructed(family);
  }

  /**
   * As written, the second valid family constructed against a registry is
   * refused whatever its name: both families carry the key zero.
   */
  method SecondFamilyRefused(o1: FamilyOptions, o2: FamilyOptions) returns (r1: Construction, r2: Construction)
    requires ValidateOptions(o1).None? && ValidateOptions(o2).None?
    ensures r1.Constructed? && r2 == Duplicate
  {
    var reg := new Registry();
    r1 := NewFamily(reg, o1);
    r2 := NewFamily(reg, o2);
  }

  /**
   * With the corrected constructor, two valid families whose names hash
   * apart are both registered, and the registry lists them by name.
   */
  method TwoFamiliesRegistered(o1: FamilyOptions, o2: FamilyOptions) returns (r1: Construction, r2: Construction, listed: seq<MetricFamily>)
    requires ValidateOptions(o1).None? && ValidateOptions(o2).None?
    requires NameFingerprint(DeriveName(o1.meta)) != NameFingerprint(DeriveName(o2.meta))
    ensures r1.Constructed? && r2.Constructed?
    ensures |listed| == 2 && multiset(listed) == multiset{r1.family, r2.family}
    ensures !NameLess(listed[1], listed[0])
  {
    var reg := new Registry();
    r1 := NewFamilyCorrected(reg, o1);
    var f1 := r1.family;
    assert [] + [f1] == [f1];
    assert reg.families == [f1];
    assert reg.familiesSet.Keys == {f1.fp};
    r2 := NewFamilyCorrected(reg, o2);
    var f2 := r2.family;
    listed := reg.families;
    assert listed == SortBy([f1, f2], NameLess);
    NameLessWeak(multiset([f1, f2]));
    SortBySorted([f1, f2], NameLess);
  }
}
