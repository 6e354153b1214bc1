/** The list of families a registry holds and the three dump formats over it. */
module Families {
  import opened Outcomes
  import opened Fnv
  import opened Strings
  import opened Sorting
  import opened LabelPairs
  import opened Records
  import opened Engine

  /** `families.Less`: by family name. */
  function NameLess(a: MetricFamily, b: MetricFamily): bool {
    Less(a.name, b.name)
  }

  /**
   * Ordering by name is a strict weak order (families with equal names are
   * equivalent), so sorting the registry's list orders it by name.
   */
  lemma NameLessWeak(fs: multiset<MetricFamily>)
    ensures StrictWeakOn(NameLess, fs)
  {
    forall a, b | a in fs && b in fs && NameLess(a, b) ensures !NameLess(b, a) {
      LessAsymmetric(a.name, b.name);
    }
    forall a, b, c | a in fs && b in fs && c in fs && !NameLess(a, b) && !NameLess(b, c)
      ensures !NameLess(a, c)
    {
      if a.name == c.name {
        LessIrreflexive(a.name);
      } else {
        if a.name != b.name {
          LessConnected(a.name, b.name);
        }
        if b.name != c.name {
          LessConnected(b.name, c.name);
        }
        if a.name != b.name && b.name != c.name {
          LessTransitive(c.name, b.name, a.name);
        }
        LessAsymmetric(c.name, a.name);
      }
    }
  }

  /** `familyName.fingerprint`: FNV-1a-64 of the name's bytes. */
  function NameFingerprint(n: string): Fingerprint {
    HashString(n) as int
  }

  /** A family name hashes like a single label whose name is the family name and whose value is empty. */
  lemma NameFingerprintAsLabels(n: string)
    ensures NameFingerprint(n) == FingerprintOf([Pair(n, "")])
  {
    assert Flatten([Pair(n, "")]) == Flatten([]) + n + "";
    assert Flatten([]) + n + "" == n;
  }

  /** Each family's text lines, family by family. */
  ghost function TextChunks(fs: seq<MetricFamily>): (r: seq<seq<Record>>)
    reads set k | 0 <= k < |fs| :: fs[k]
    reads set k, j | 0 <= k < |fs| && 0 <= j < |fs[k].children| :: fs[k].children[j]
    ensures |r| == |fs|
  {
    seq(|fs|, k requires 0 <= k < |fs|
                reads set m | 0 <= m < |fs| :: fs[m]
                reads set m, j | 0 <= m < |fs| && 0 <= j < |fs[m].children| :: fs[m].children[j]
              => TextLinesOf(fs[k].name, fs[k].options.Kind(), fs[k].children))
  }

  /** `families.dumpText`: each family in order, stopping at the first error. */
  method DumpText(fs: seq<MetricFamily>, w: Writer) returns (err: Option<WriteError>)
    modifies w
    ensures (w.State(), err) == Run(w.failures, old(w.State()), Concat(old(TextChunks(fs))))
  {
    ghost var chunks := TextChunks(fs);
    var i := 0;
    while i < |fs|
      invariant 0 <= i <= |fs|
      invariant chunks == old(TextChunks(fs))
      invariant (w.State(), None) == Run(w.failures, old(w.State()), Concat(chunks[..i]))
    {
      ghost var s := w.State();
      ConcatPrefix(chunks, i);
      assert chunks[i] == TextLinesOf(fs[i].name, fs[i].options.Kind(), fs[i].children);
      err := fs[i].DumpText(w);
      RunChunk(w.failures, old(w.State()), Concat(chunks[..i]), chunks[i], Concat(chunks), s, w.State(), err);
      if err.Some? {
        return;
      }
      i := i + 1;
    }
    assert chunks[..i] == chunks;
    err := None;
  }

  /** The messages `families.dumpProto` writes: one per family. */
  ghost function ProtosOf(fs: seq<MetricFamily>, o: DumpOptions): (r: seq<Record>)
    reads set k | 0 <= k < |fs| :: fs[k]
    reads set k, j | 0 <= k < |fs| && 0 <= j < |fs[k].children| :: fs[k].children[j]
    ensures |r| == |fs|
  {
    seq(|fs|, k requires 0 <= k < |fs|
                reads set m | 0 <= m < |fs| :: fs[m]
                reads set m, j | 0 <= m < |fs| && 0 <= j < |fs[m].children| :: fs[m].children[j]
              => fs[k].ProtoRecord(o))
  }

  /** `families.dumpProto`: one message per family, stopping at the first error. */
  method DumpProto(fs: seq<MetricFamily>, w: Writer, o: DumpOptions) returns (err: Option<WriteError>)
    modifies w
    ensures (w.State(), err) == Run(w.failures, old(w.State()), old(ProtosOf(fs, o)))
  {
    ghost var msgs := ProtosOf(fs, o);
    var i := 0;
    while i < |fs|
      invariant 0 <= i <= |fs|
      invariant msgs == old(ProtosOf(fs, o))
      invariant (w.State(), None) == Run(w.failures, old(w.State()), msgs[..i])
    {
      ghost var s := w.State();
      assert msgs[i] == fs[i].ProtoRecord(o);
      err := fs[i].DumpProto(w, o);
      RunStep(w.failures, old(w.State()), msgs, i, s, w.State(), err);
      if err.Some? {
        return;
      }
      i := i + 1;
    }
    assert msgs[..i] == msgs;
    err := None;
  }

  /** The document `families.dumpJSON` encodes: every family's JSON object, in order. */
  function JsonOf(fs: seq<MetricFamily>): (r: Record)
    reads set k | 0 <= k < |fs| :: fs[k]
    reads set k, j | 0 <= k < |fs| && 0 <= j < |fs[k].children| :: fs[k].children[j]
    ensures r.JsonDocument? && |r.families| == |fs|
    ensures forall k :: 0 <= k < |fs| ==> r.families[k].name == fs[k].name
  {
    JsonDocument(seq(|fs|, k requires 0 <= k < |fs|
                             reads set m | 0 <= m < |fs| :: fs[m]
                             reads set m, j | 0 <= m < |fs| && 0 <= j < |fs[m].children| :: fs[m].children[j]
                           => fs[k].JsonRecord()))
  }

  /** `families.dumpJSON`: the whole list as one encoded document. */
  method DumpJson(fs: seq<MetricFamily>, w: Writer) returns (err: Option<WriteError>)
    modifies w
    ensures (w.State(), err) == Run(w.failures, old(w.State()), [old(JsonOf(fs))])
  {
    err := w.Write(JsonOf(fs));
  }

  /** The outcome of `families.dump`: the writer's result, or the panic on an unknown format. */
  datatype DumpResult = Completed(err: Option<WriteError>) | IllegalFormat(format: int)

  /** `families.dump`: dispatch on the requested format. */
  method Dump(fs: seq<MetricFamily>, w: Writer, o: DumpOptions) returns (r: DumpResult)
    modifies w
    ensures o.format == FormatProto ==>
              r.Completed? && (w.State(), r.err) == Run(w.failures, old(w.State()), old(ProtosOf(fs, o)))
    ensures o.format == FormatText ==>
              r.Completed? && (w.State(), r.err) == Run(w.failures, old(w.State()), Concat(old(TextChunks(fs))))
    ensures o.format == FormatJson ==>
              r.Completed? && (w.State(), r.err) == Run(w.failures, old(w.State()), [old(JsonOf(fs))])
    ensures o.format != FormatProto && o.format != FormatText && o.format != FormatJson ==>
              r == IllegalFormat(o.format) && unchanged(w)
  {
    if o.format == FormatProto {
      var err := DumpProto(fs, w, o);
      r := Completed(err);
    } else if o.format == FormatText {
      var err := DumpText(fs, w);
      r := Completed(err);
    } else if o.format == FormatJson {
      var err := DumpJson(fs, w);
      r := Completed(err);
    } else {
      r := IllegalFormat(o.format);
    }
  }
}
