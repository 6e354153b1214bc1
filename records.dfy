/**
 * Dump options, the records the dump pipeline hands to its output sink, and
 * a fallible sink.
 *
 * The byte-level encodings (protocol buffers, `%f` formatting of values, JSON)
 * are not modelled: a record says what is written, not how it is encoded.
 */
module Records {
  import opened Outcomes
  import opened LabelPairs

  /** `dumpFormat` is a Go `int`; only these three values are handled. */
  const FormatProto: int := 0
  const FormatText: int := 1
  const FormatJson: int := 2

  datatype DumpOptions = DumpOptions(includeHelp: bool, format: int)

  datatype Kind = CounterKind | GaugeKind | SummaryKind

  /** A child's numeric state: counters and gauges hold a value, summaries none. */
  datatype Payload = Scalar(value: real) | NoPayload

  /** The part of a text line after its head: a `%f`-formatted value or a literal. */
  datatype TextValue = Formatted(payload: Payload) | Literal(text: string)

  /** One child as carried in a protocol-buffer or JSON family. */
  datatype ChildRecord = ChildRecord(labels: seq<Pair>, payload: Payload)

  datatype JsonFamily = JsonFamily(name: string, typeTag: string, children: seq<ChildRecord>)

  /** What one write call hands to the sink. */
  datatype Record =
    | TextLine(head: string, value: TextValue)
    | ProtoFamily(name: string, kind: Kind, help: Option<string>, metrics: seq<ChildRecord>)
    | JsonDocument(families: seq<JsonFamily>)

  /** The bytes of a text line whose value is a literal. */
  function LiteralLine(r: Record): string
    requires r.TextLine? && r.value.Literal?
  {
    r.head + r.value.text + "\n"
  }

  /** The error a failed write returns. */
  datatype WriteError = WriteError(attempt: nat)

  /** What the sink has accepted, and how many writes were attempted. */
  datatype WriterState = WriterState(written: seq<Record>, attempts: nat)

  /**
   * Writing `rs` one by one and stopping at the first error. A write fails
   * when its attempt number is in `failures`; a failed write stores nothing.
   */
  function Run(failures: set<nat>, s: WriterState, rs: seq<Record>): (WriterState, Option<WriteError>)
    decreases |rs|
  {
    if rs == [] then (s, None)
    else if s.attempts in failures then (WriterState(s.written, s.attempts + 1), Some(WriteError(s.attempts)))
    else Run(failures, WriterState(s.written + [rs[0]], s.attempts + 1), rs[1..])
  }

  /** Writing `a + b` is writing `a`, then `b` unless `a` failed. */
  lemma {:induction false} RunAppend(failures: set<nat>, s: WriterState, a: seq<Record>, b: seq<Record>)
    ensures Run(failures, s, a + b) ==
            if Run(failures, s, a).1.Some? then Run(failures, s, a)
            else Run(failures, Run(failures, s, a).0, b)
    decreases |a|
  {
    if a == [] {
      assert a + b == b;
    } else if s.attempts !in failures {
      assert (a + b)[1..] == a[1..] + b;
      RunAppend(failures, WriterState(s.written + [a[0]], s.attempts + 1), a[1..], b);
    }
  }

  /**
   * One more write after a clean prefix: success extends the prefix, and a
   * failure is the outcome of writing the whole sequence.
   */
  lemma RunStep(failures: set<nat>, s0: WriterState, rs: seq<Record>, i: nat,
                s: WriterState, s': WriterState, err: Option<WriteError>)
    requires i < |rs| && (s, None) == Run(failures, s0, rs[..i])
    requires (s', err) == Run(failures, s, [rs[i]])
    ensures err.None? ==> (s', None) == Run(failures, s0, rs[..i + 1])
    ensures err.Some? ==> (s', err) == Run(failures, s0, rs)
  {
    assert rs[..i + 1] == rs[..i] + [rs[i]];
    RunAppend(failures, s0, rs[..i], [rs[i]]);
    if err.Some? {
      assert rs == rs[..i + 1] + rs[i + 1..];
      RunAppend(failures, s0, rs[..i + 1], rs[i + 1..]);
    }
  }

  /**
   * Writing a further chunk `b` after a clean prefix `a` of `all`: success
   * extends the prefix, and a failure is the outcome of writing all of `all`.
   */
  lemma RunChunk(failures: set<nat>, s0: WriterState, a: seq<Record>, b: seq<Record>, all: seq<Record>,
                 s: WriterState, s': WriterState, err: Option<WriteError>)
    requires (s, None) == Run(failures, s0, a)
    requires (s', err) == Run(failures, s, b)
    requires a + b <= all
    ensures err.None? ==> (s', None) == Run(failures, s0, a + b)
    ensures err.Some? ==> (s', err) == Run(failures, s0, all)
  {
    RunAppend(failures, s0, a, b);
    if err.Some? {
      assert all == (a + b) + all[|a + b|..];
      RunAppend(failures, s0, a + b, all[|a + b|..]);
    }
  }

  /** The records of several writers' turns, one after another. */
  function Concat(chunks: seq<seq<Record>>): (r: seq<Record>)
    decreases |chunks|
  {
    if chunks == [] then [] else Concat(chunks[..|chunks| - 1]) + chunks[|chunks| - 1]
  }

  /** The chunks before `i`, then chunk `i`, form a prefix of all chunks. */
  lemma {:induction false} ConcatPrefix(chunks: seq<seq<Record>>, i: int)
    requires 0 <= i < |chunks|
    ensures Concat(chunks[..i + 1]) == Concat(chunks[..i]) + chunks[i]
    ensures Concat(chunks[..i + 1]) <= Concat(chunks)
    decreases |chunks|
  {
    assert chunks[..i + 1][..i] == chunks[..i];
    if i + 1 < |chunks| {
      var n := |chunks| - 1;
      assert chunks[..n][..i + 1] == chunks[..i + 1];
      assert chunks[..n][..i] == chunks[..i];
      ConcatPrefix(chunks[..n], i);
    } else {
      assert chunks[..i + 1] == chunks;
    }
  }

  /** When no attempt fails, everything is written and the result is nil. */
  lemma {:induction false} RunAllSucceed(failures: set<nat>, s: WriterState, rs: seq<Record>)
    requires forall u :: s.attempts <= u < s.attempts + |rs| ==> u !in failures
    ensures Run(failures, s, rs) == (WriterState(s.written + rs, s.attempts + |rs|), None)
    decreases |rs|
  {
    if rs == [] {
      assert s.written + rs == s.written;
    } else {
      RunAllSucceed(failures, WriterState(s.written + [rs[0]], s.attempts + 1), rs[1..]);
      assert s.written + [rs[0]] + rs[1..] == s.written + rs;
    }
  }

  /**
   * The first failing attempt is the error returned; everything before it is
   * written and nothing after it is attempted.
   */
  lemma {:induction false} RunFirstFailure(failures: set<nat>, s: WriterState, rs: seq<Record>, t: nat)
    requires s.attempts <= t < s.attempts + |rs| && t in failures
    requires forall u :: s.attempts <= u < t ==> u !in failures
    ensures Run(failures, s, rs) == (WriterState(s.written + rs[..t - s.attempts], t + 1), Some(WriteError(t)))
    decreases |rs|
  {
    if t == s.attempts {
      assert rs[..0] == [];
      assert s.written + rs[..0] == s.written;
    } else {
      RunFirstFailure(failures, WriterState(s.written + [rs[0]], s.attempts + 1), rs[1..], t);
      assert rs[..t - s.attempts] == [rs[0]] + rs[1..][..t - s.attempts - 1];
      assert s.written + [rs[0]] + rs[1..][..t - s.attempts - 1] == s.written + rs[..t - s.attempts];
    }
  }

  /** An `io.Writer` whose failures are fixed in advance by attempt number. */
  class Writer {
    const failures: set<nat>
    var written: seq<Record>
    var attempts: nat

    constructor (failures: set<nat>)
      ensures this.failures == failures && written == [] && attempts == 0
    {
      this.failures := failures;
      written := [];
      attempts := 0;
    }

    function State(): WriterState
      reads this
    {
      WriterState(written, attempts)
    }

    method Write(r: Record) returns (err: Option<WriteError>)
      modifies this
      ensures (State(), err) == Run(failures, old(State()), [r])
    {
      if attempts in failures {
        err := Some(WriteError(attempts));
      } else {
        written := written + [r];
        err := None;
      }
      attempts := attempts + 1;
    }
  }
}
