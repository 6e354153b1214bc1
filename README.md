# A verified model of the `prometheus/new` metric engine

This project models the experimental instrumentation core of the Go client
library's `prometheus/new` package. A program declares metric *families*:
counters, gauges and summaries. A family has a derived name, a help text and
a list of label *dimensions*. It holds *children*, one per label set.

A child is reached through a *partial*:
- `NewChild` and `With` accumulate label pairs.
- `Apply` sorts them and fingerprints them with FNV-1a-64.
- `Apply` then looks the fingerprint up in the family's index
  (`childrenSet`, a map from fingerprint to position).
- If the fingerprint is not found, `Apply` validates the labels against
  the dimensions and registers a new child at the kind's default value.

Families register with a registry. The registry keeps them sorted by name,
rejects a second family with the same fingerprint, and dumps the non-empty
ones as protocol buffers, text or JSON, stopping at the first write error.

The model keeps the source's shape:
- Families, children, partials, the registry and the output sink are
  classes whose fields the methods update.
- The label pairs, the hash, name derivation and validation are pure
  functions.
- The three per-kind files (`counter.go`, `gauge.go`, `summary.go`) are
  structurally identical. One generic engine (`Engine`) models all three,
  and a `KindOptions` tag selects the kind.
- Go panics become result values: `Option<Panic>`, `Outcome<T>`, `Lookup`,
  `Construction` and `DumpResult`.

The model keeps the source's defects and proves them. The "## Findings"
section pairs each one with a corrected definition.

Modules:
- `Strings`: Go string order, `strings.Join`/`Split`.
- `Fnv`: FNV-1a-64 over UTF-8.
- `Sorting`: the stand-in for `sort.Sort`/`sort.IsSorted`.
- `LabelPairs`: `labelpair.go`.
- `Metric`: `metric.go`.
- `Records`: dump options, written records, the fallible writer.
- `Index`: position maps, the fingerprint-to-index maps.
- `Engine`: `counter.go`, `gauge.go`, `summary.go`.
- `Families`: `family.go`.
- `Registries`: `registry.go`, and the family constructors.

Collaborators the model takes as parameters or abstracts:
- The output `io.Writer` is the `Records.Writer` class. It holds a fixed set
  of attempt numbers at which a write fails. `Records.Run` is the pure
  specification of a sequence of writes that stops at the first failure.
- The global `defaultRegistry` becomes a `Registry` argument of the
  constructors.

## Model

| member | source | states |
|---|---|---|
| Strings.LessIrreflexive | prometheus/new/labelpair.go:15-20 | Go's string `<` never relates a string to itself |
| Strings.LessTransitive | prometheus/new/labelpair.go:15-20 | string `<` is transitive |
| Strings.LessAsymmetric | prometheus/new/labelpair.go:15-20 | string `<` is asymmetric |
| Strings.LessConnected | prometheus/new/labelpair.go:15-20 | of two distinct strings one is `<` the other |
| Strings.Join | prometheus/new/labelpair.go:77-79 | `strings.Join` is as long as all parts together plus one separator between each two |
| Strings.SplitJoin | prometheus/new/labelpair.go:77-79 | splitting at the separator undoes joining, when no part contains the separator |
| LabelPairs.Before | prometheus/new/labelpair.go:14-27 | definition (no contract); its meaning is carried by `BeforeIrreflexive`, `BeforeAsymmetric`, `BeforeTransitive`, `BeforeConnected` and `BeforeStrictTotal` |
| LabelPairs.BeforeIrreflexive | prometheus/new/labelpair.go:14-27 | no pair is before itself |
| LabelPairs.BeforeAsymmetric | prometheus/new/labelpair.go:14-27 | if `a` is before `b` then `b` is not before `a` |
| LabelPairs.BeforeTransitive | prometheus/new/labelpair.go:14-27 | the pair order is transitive |
| LabelPairs.BeforeConnected | prometheus/new/labelpair.go:14-27 | of two distinct pairs one is before the other (name first, then value) |
| LabelPairs.BeforeStrictTotal | prometheus/new/labelpair.go:14-27 | the pair order is a strict total order on any collection of pairs, so `labelPairs.Less` sorts |
| LabelPairs.Render | prometheus/new/labelpair.go:29-31 | definition (no contract); its meaning is carried by `RenderRoundTrip` and `Renders` |
| LabelPairs.RenderRoundTrip | prometheus/new/labelpair.go:29-31 | `name=value` splits back into name and value when neither holds `=` |
| LabelPairs.Renders | prometheus/new/labelpair.go:67-75 | one rendering per pair |
| LabelPairs.ToStrings | prometheus/new/labelpair.go:67-75 | `Strings` yields exactly `name=value` for each pair, in sequence order, which is the list `labelPairs.String` joins (`Renders`) |
| LabelPairs.LabelsString | prometheus/new/labelpair.go:77-79 | the comma join is `""` exactly for the empty sequence, and a single pair renders as itself |
| LabelPairs.LabelsStringRoundTrip | prometheus/new/labelpair.go:67-79 | parsing the text rendering gives back a non-empty label sequence whose names and values hold no `,` or `=` |
| LabelPairs.Fingerprint | prometheus/new/labelpair.go:47-55 | the digest loop returns FNV-1a-64 of the flattened `Name1 Value1 Name2 Value2 ...` with no separators |
| LabelPairs.FingerprintEmpty | prometheus/new/labelpair.go:47-55 | the empty sequence's fingerprint is the FNV-64 offset basis |
| LabelPairs.FingerprintCollision | prometheus/new/labelpair.go:51 | `[("ab","c")]` and `[("a","bc")]` get the same fingerprint |
| LabelPairs.FlattenAppend | prometheus/new/labelpair.go:50-52 | the flattened string of a concatenation is the concatenation of the flattened strings, so the hash depends only on it |
| Fnv.FoldAppend | prometheus/new/labelpair.go:50-54 | feeding bytes in two writes gives the digest of one write of both |
| Fnv.EncodeRune | prometheus/new/labelpair.go:51 | a character is one to four UTF-8 bytes, one exactly for ASCII |
| Fnv.EncodeAppend | prometheus/new/labelpair.go:51 | the UTF-8 encoding of a concatenation is the concatenation of the encodings |
| Fnv.FeedAppend | prometheus/new/labelpair.go:50-52 | fprinting two strings one after the other hashes their concatenation |
| LabelPairs.SeqBefore | prometheus/new/labelpair.go:57-65 | definition (no contract); its meaning is carried by `SeqBeforeExists`, `SeqBeforeIrreflexive`, `SeqBeforeSingle` and `SeqBeforeNotAsymmetric` |
| LabelPairs.SeqBeforeExists | prometheus/new/labelpair.go:57-65 | with `len(o) >= len(l)` as the precondition, `l.Before(o)` holds iff some position of `l` is before the same position of `o` |
| LabelPairs.SeqBeforeIrreflexive | prometheus/new/labelpair.go:58-64 | `l.Before(l)` is false |
| LabelPairs.SeqBeforeSingle | prometheus/new/labelpair.go:57-65 | on one-pair sequences the sequence order is the pair order |
| LabelPairs.SeqBeforeNotAsymmetric | prometheus/new/labelpair.go:58-62 | `[(a,2),(b,1)]` and `[(a,1),(b,2)]` are each before the other |
| LabelPairs.LexBeforeAsymmetric | prometheus/new/labelpair.go:57-65 | the corrected first-difference order is asymmetric |
| LabelPairs.LexBeforeTransitive | prometheus/new/labelpair.go:57-65 | the corrected order is transitive |
| LabelPairs.LexBeforeConnected | prometheus/new/labelpair.go:57-65 | of two distinct sequences one is first-difference-before the other |
| LabelPairs.LexBeforeStrictTotal | prometheus/new/labelpair.go:57-65 | the corrected order is a strict total order on label sequences |
| Sorting.Insert | prometheus/new/counter.go:329 | the insertion step adds exactly one element |
| Sorting.SortBy | prometheus/new/counter.go:329 | the stand-in for `sort.Sort` returns a permutation of its input |
| Sorting.SortBySorted | prometheus/new/registry.go:28 | when `Less` is a strict weak order on the elements, the result is sorted |
| Sorting.SortedIsSorted | prometheus/new/counter.go:63-65 | a sorted sequence passes `sort.IsSorted` |
| Sorting.IsSortedSorted | prometheus/new/counter.go:63-65 | under a strict weak order, passing `sort.IsSorted` means sorted |
| Sorting.SortedUnique | prometheus/new/counter.go:63-67 | under a strict total order, two sorted permutations of the same multiset are equal |
| Sorting.SortByMembers | prometheus/new/counter.go:326-329 | every element of the sorted list comes from the input |
| Sorting.TotalIsWeak | prometheus/new/labelpair.go:39-41 | a strict total order is a strict weak order |
| Metric.DeriveName | prometheus/new/metric.go:23-34 | definition (no contract); its meaning is carried by `DeriveNameIsJoin` and `NameIsSuffix` |
| Metric.DeriveNameIsJoin | prometheus/new/metric.go:23-34 | the derived name is the non-empty ones of namespace and subsystem, then the name, joined with `_`: `Namespace_Subsystem_Name`, `Namespace_Name`, `Subsystem_Name` or `Name` |
| Metric.NameIsSuffix | prometheus/new/metric.go:23-34 | `Name` is always a suffix of the derived name |
| Metric.Validate | prometheus/new/metric.go:36-43 | the options are valid iff Name and Help are both non-empty; Name is checked first |
| Engine.ValidateOptions | prometheus/new/summary.go:30-36 | a summary's options are valid iff Name and Help are non-empty and at least one quantile is requested; the Name/Help error wins |
| Engine.PairsOf | prometheus/new/counter.go:107-112 | an even string list gives half as many pairs |
| Engine.PairUp | prometheus/new/counter.go:341-346 | the pairing loop builds `(labels[2k], labels[2k+1])` for every k, in order |
| Engine.MetricFamily.NewChild | prometheus/new/counter.go:335-352 | an odd count panics before any partial exists; otherwise a fresh partial of this family holds the paired labels. The same holds at `summary.go:308-325` |
| Engine.Partial.With | prometheus/new/counter.go:99-113 | an odd count panics with the labels unchanged; otherwise the pairs are appended in order after the existing labels |
| Engine.Partial.Clone | prometheus/new/counter.go:86-97 | a fresh partial with equal labels and the same family |
| Engine.Partial.CloneThenWith | prometheus/new/counter.go:86-113 | `With` on a clone extends only the clone; the original's labels stay as they were |
| Engine.CanonicalSorted | prometheus/new/counter.go:63-65 | the labels after `Apply`'s sort step are sorted by the pair order, are a permutation of the accumulated ones, and already-sorted labels are untouched |
| Engine.CanonicalPermutation | prometheus/new/counter.go:63-67 | label lists that are permutations of each other sort to the same sequence and the same fingerprint |
| Engine.CanonicalIdempotent | prometheus/new/counter.go:63-65 | sorting sorted labels changes nothing |
| Engine.CheckNames | prometheus/new/counter.go:50-56 | the name loop only ever reports a pair of the labels as undeclared |
| Engine.ValidateLabels | prometheus/new/counter.go:40-57 | the wrong-dimensions panic happens iff the label count differs from the dimension count; any other panic names an offending pair |
| Engine.CheckNamesIff | prometheus/new/counter.go:45-56 | the name loop succeeds iff every name is still unaccounted for and no name repeats |
| Engine.ValidateLabelsIff | prometheus/new/counter.go:40-57 | `validate` succeeds iff the count matches, every name is a dimension, and no name repeats |
| Engine.MissingDimensionRejected | prometheus/new/counter.go:40-57 | labels that omit a declared dimension are rejected |
| Engine.Partial.Validate | prometheus/new/counter.go:40-57 | the validation loop returns exactly the verdict of `ValidateLabels`. The same holds at `summary.go:53-70` |
| Engine.PlanOnExact | prometheus/new/counter.go:67-72 | on an exact index, `Apply` reuses a child iff one carries the fingerprint, never hits the index panic, and creates iff none carries it and the labels are valid |
| Engine.CollidingLabelsReuse | prometheus/new/counter.go:67-70 | `Apply` with `a="bc"` returns the child registered for `ab="c"`, because only the fingerprint is compared |
| Engine.Partial.Apply | prometheus/new/counter.go:59-84 | labels become canonical. A fingerprint hit returns that child without validating and leaves the family unchanged. A panic leaves the family unchanged. Otherwise a fresh child with these labels, this fingerprint and the default value is registered. An exact index stays exact. The same holds at `gauge.go:59-84`, `summary.go:72-96` |
| Engine.MetricFamily.Create | prometheus/new/counter.go:74-81 | the new child is fresh, at the kind's initial value, and is among the children after registering |
| Engine.Child.constructor | prometheus/new/counter.go:74-79 | a child with the given labels, fingerprint, family and value |
| Engine.Child.Set | prometheus/new/gauge.go:133-138 | `Set(v)` makes the value `v` and changes nothing else. The same holds at `counter.go:165-170` |
| Engine.Child.Reset | prometheus/new/gauge.go:144-149 | a gauge or counter goes back to its default value; a summary is left as it is. The same holds at `summary.go:154-156` |
| Engine.Child.Sample | prometheus/new/summary.go:143-148 | `Sample` changes no state |
| Engine.Child.Forget | prometheus/new/counter.go:172-174 | the child asks its family to forget its fingerprint, with the family's outcome |
| Engine.MetricFamily.constructor | prometheus/new/counter.go:219-223 | a new family has no children and an empty, exact index |
| Engine.MetricFamily.ForgetAll | prometheus/new/gauge.go:238-244 | no children and an empty index |
| Engine.MetricFamily.ResetAll | prometheus/new/gauge.go:246-253 | every child is reset (a summary child is kept as it is); the children and the index are unchanged |
| Engine.MetricFamily.Find | prometheus/new/gauge.go:278-288 | `find` is the indexed child when the fingerprint is indexed, not-found when it is not, and an index panic for a stale position |
| Engine.LookupIn | prometheus/new/counter.go:310-320 | definition (no contract); its meaning is carried by `LookupIndexed` and `MetricFamily.Find` |
| Engine.LookupIndexed | prometheus/new/counter.go:310-320 | on a consistent index `find` never panics and finds exactly the children that carry the fingerprint |
| Engine.MetricFamily.Register | prometheus/new/counter.go:322-333 | the children are the sorted `old ++ [c]` (a permutation), the index is the old map overwritten with every position, and a new fingerprint keeps the index exact. The same holds at `summary.go:295-306` |
| Engine.RegisterExact | prometheus/new/counter.go:326-332 | registering a new fingerprint over an exact index gives an exact index with distinct fingerprints |
| Engine.SortedMembers | prometheus/new/counter.go:326-329 | sorting keeps every child a member of the family with the family's arity |
| Engine.ChildBefore | prometheus/new/counter.go:212-214 | definition (no contract); its meaning is carried by `ChildBeforeExists`, `ChildOrderWeak` and `SortedWhenOneDimension` |
| Engine.ChildBeforeExists | prometheus/new/counter.go:212-214 | one child is before another exactly when, at some position both label lists have, its pair is before the other's. Where Go would panic instead, the model is false |
| Engine.ChildOrderWeak | prometheus/new/counter.go:212-214 | with at most one dimension the children order is a strict weak order |
| Engine.SortedWhenOneDimension | prometheus/new/counter.go:329 | with at most one dimension `register` leaves the children sorted |
| Engine.MetricFamily.Forget | prometheus/new/counter.go:287-308 | a missing fingerprint panics with nothing changed; otherwise the fingerprint leaves the index, nothing is renumbered, and the children become exactly the as-written slices, or Go's slice panic. The same holds at `summary.go:260-281` |
| Engine.ForgetSlices | prometheus/new/counter.go:296-307 | definition (no contract); its meaning is carried by `ForgetFirst`, `ForgetDropsPredecessor`, `ForgetStalePanics` and `MetricFamily.Forget` |
| Engine.ForgetFirst | prometheus/new/counter.go:298-299 | at index 0 exactly the first child goes |
| Engine.ForgetDropsPredecessor | prometheus/new/counter.go:300-307 | at the last or a middle index the preceding child goes too, so two children are lost |
| Engine.ForgetStalePanics | prometheus/new/counter.go:300-307 | a position at or past the end is a slice panic |
| Engine.ForgetFirstBreaksIndex | prometheus/new/counter.go:296-299 | forgetting the first of several children leaves the index out of step with the positions |
| Engine.ForgetFirstMisdirectsFind | prometheus/new/counter.go:296-320 | after forgetting the first of three, `find` on the second's fingerprint returns the third and on the third's panics |
| Engine.ForgetOnlyChild | prometheus/new/gauge.go:255-288 | forgetting the only child leaves no children and an empty index, so `find` reports not-found |
| Engine.MetricFamily.ShouldDump | prometheus/new/gauge.go:372-377 | a family wants to be dumped iff it has a child |
| Engine.ForgetSplicedCorrect | prometheus/new/counter.go:297-307 | the corrected removal drops exactly the forgotten child, keeps the order of the rest, and leaves a consistent, renumbered index without the fingerprint |
| Engine.ForgetSplicedExact | prometheus/new/counter.go:297-307 | the corrected removal keeps the index exact and the remaining children members of the family |
| Engine.MetricFamily.ForgetCorrected | prometheus/new/counter.go:287-308 | the corrected `forget`: the children and index become the spliced removal, which stays exact |
| Engine.Child.TextLine | prometheus/new/counter.go:205-210 | definition (no contract); its meaning is carried by `TextLinesOf`, `SummaryTextLines` and `MetricFamily.DumpText` |
| Engine.TextLinesOf | prometheus/new/gauge.go:343-355 | one text line per child, in children order |
| Engine.TextLinesAppend | prometheus/new/gauge.go:348-353 | the lines of two runs of children are the lines of each |
| Engine.SummaryTextLines | prometheus/new/summary.go:180-183 | a summary family writes exactly `familyName + "none\n"` per child, in order |
| Engine.MetricFamily.DumpText | prometheus/new/gauge.go:343-355 | the writer ends as writing the children's lines in order and stopping at the first error would leave it, and that error is returned. Every line starts with this family's own name and is formatted for this family's kind. The same holds at `summary.go:348-360` |
| Engine.Child.ChildRecord | prometheus/new/counter.go:183-203 | definition (no contract); its meaning is carried by `ChildRecordsOf` |
| Engine.ChildRecordsOf | prometheus/new/counter.go:367-369 | one record per child, in children order, carrying its labels and value |
| Engine.MetricFamily.DumpProto | prometheus/new/counter.go:354-373 | one write of the family's message (help only when requested), whose error is returned |
| Records.Writer.constructor | prometheus/new/family.go:59-67 | a fresh writer has written nothing and attempted nothing |
| Records.Writer.Write | prometheus/new/counter.go:380 | one write: appended unless its attempt number fails, and the failure is reported |
| Records.RunAppend | prometheus/new/family.go:59-67 | writing two runs one after the other is writing their concatenation, unless the first fails |
| Records.RunStep | prometheus/new/family.go:50-56 | one more write extends a successful prefix or ends the whole run with its error |
| Records.RunChunk | prometheus/new/family.go:59-67 | a family's lines extend a successful prefix or end the whole dump with their error |
| Records.ConcatPrefix | prometheus/new/family.go:59-67 | the lines of the first `i+1` families are those of the first `i` followed by the next family's |
| Records.RunAllSucceed | prometheus/new/family.go:49-67 | when no write fails, everything is written and the result is nil |
| Records.RunFirstFailure | prometheus/new/family.go:49-67 | the first failing write ends the run with its error; exactly the earlier records are written and nothing later is attempted |
| Families.NameLess | prometheus/new/family.go:32-34 | definition (no contract); its meaning is carried by `NameLessWeak` |
| Families.NameLessWeak | prometheus/new/family.go:32-34 | ordering families by name is a strict weak order |
| Families.NameFingerprint | prometheus/new/family.go:75-81 | definition (no contract); its meaning is carried by `NameFingerprintAsLabels` |
| Families.NameFingerprintAsLabels | prometheus/new/family.go:75-81 | a family name hashes as FNV-1a-64 of its bytes, like a single label with that name and an empty value |
| Families.TextChunks | prometheus/new/family.go:59-67 | one chunk of text lines per family |
| Families.DumpText | prometheus/new/family.go:59-67 | the families' lines are written family by family, in order, up to and including the first failing write, whose error is returned |
| Engine.MetricFamily.ProtoRecord | prometheus/new/counter.go:354-373 | definition (no contract); its meaning is carried by `MetricFamily.DumpProto` and `Families.ProtosOf` |
| Families.ProtosOf | prometheus/new/family.go:49-57 | one message per family |
| Families.DumpProto | prometheus/new/family.go:49-57 | one message per family, in order, stopping at the first error |
| Engine.MetricFamily.JsonRecord | prometheus/new/counter.go:389-402 | definition (no contract); its meaning is carried by `Families.JsonOf` |
| Families.JsonOf | prometheus/new/family.go:69-71 | one JSON object per family, in order, named as the family |
| Families.DumpJson | prometheus/new/family.go:69-71 | the whole list is one write |
| Families.Dump | prometheus/new/family.go:36-47 | proto, text and JSON go to their dumps; any other format is the illegal-format panic with the writer untouched |
| Index.PositionMap | prometheus/new/registry.go:30-32 | the rewrite loop maps each key to a position carrying it, and its keys are exactly the keys of the list |
| Index.PositionMapLast | prometheus/new/registry.go:30-32 | the position left under a key is the last one carrying it |
| Index.PositionMapExact | prometheus/new/registry.go:30-32 | with distinct keys every position is recorded under its own key |
| Index.Reindex | prometheus/new/registry.go:30-32 | the loop leaves the old map overwritten with every position |
| Index.DistinctPermutation | prometheus/new/registry.go:25-32 | a permutation of a list with distinct keys has distinct keys |
| Index.ReindexExact | prometheus/new/registry.go:25-32 | appending a new key, permuting, and overwriting the old exact index gives an exact index |
| Index.SpliceShape | prometheus/new/counter.go:303-306 | splicing out one position shifts the later elements down by one and removes exactly that element |
| Index.SpliceDistinct | prometheus/new/counter.go:303-306 | splicing keeps the keys distinct and drops the removed key |
| Registries.Registry.constructor | prometheus/new/registry.go:57-61 | a new registry has no families and an empty, exact index |
| Registries.Registry.Register | prometheus/new/registry.go:17-33 | an already-indexed fingerprint is refused with nothing changed; otherwise the families are the sorted `old ++ [f]`, sorted by name, the index is rewritten with every position, and an exact index stays exact |
| Registries.NonEmptyMembers | prometheus/new/registry.go:35-48 | a family is collected iff it is registered and has a child |
| Registries.Registry.CollectFamilies | prometheus/new/registry.go:35-48 | exactly the families whose `shouldDump` holds, as an order-preserving subsequence |
| Registries.Registry.Dump | prometheus/new/registry.go:50-55 | the collected families dumped in the requested format, or the illegal-format panic |
| Registries.NewFamily | prometheus/new/counter.go:216-228 | invalid options panic with the registry unchanged. When key 0 is taken the constructor panics as a duplicate. Otherwise a fresh family with the derived name, `fp == 0` and no children is registered. The same holds at `gauge.go:184-196`, `summary.go:189-201` |
| Registries.SecondFamilyRefused | prometheus/new/registry_test.go:83-99 | the first valid family registers and any second valid family is refused, whatever its name |
| Registries.NewFamilyCorrected | prometheus/new/counter.go:216-228 | the corrected constructor stores the name's fingerprint and refuses only a family whose name hashes to a registered key |
| Registries.TwoFamiliesRegistered | prometheus/new/registry.go:17-33 | with the corrected constructor two families whose names hash apart are both registered and listed in name order |

## Left out

- Locking: every `sync.RWMutex` is left out, and each method is one atomic step. So are the find-then-register race in `Apply` and the in-flight forgetting noted at `registry.go:51-53`. Both are about concurrency.
- `Families.DumpJson`, `Registries.Registry.Dump`: `MarshalJSON` takes a read lock and, through `defer f.RLock()`, takes a second one instead of releasing it (`counter.go:389-391`, `gauge.go:357-359`, `summary.go:362-364`). This is not modelled. In the source, each JSON dump leaves every dumped family read-locked for good, even in one goroutine. From then on that family's `register`, `forget` and `ForgetAll` block forever on `f.Lock()`. So does every `Apply` that would create a child, and every `Child.Forget`. The model lets `Engine.Partial.Apply`, `Engine.Child.Forget` and `Engine.MetricFamily.ForgetAll` go ahead after a JSON dump.
- `Increment`, `IncrementBy`, `Decrement` and `DecrementBy` are left out. They are float64 arithmetic. The value is a `real` that only `Set`, `Reset` and creation assign.
- The `%f` formatting of values in `asText` is left out. A text line carries the value itself (`Formatted(payload)`), not its decimal rendering.
- Protocol-buffer and JSON encoding are left out; they are library code. `asProto`, `ext.WriteDelimited`, `json.Marshal` and `json.NewEncoder` become records of what is written (`ProtoFamily`, `JsonDocument`). The model hands the writer one write record per message. `ext.WriteDelimited` is not part of this model, and it may issue the length prefix and the body as separate `Write` calls. In that case the source's attempt count differs from the model's. A failure may then also fall between prefix and body, which the model does not represent.
- The `io.Writer` is modelled by a fixed set of failing attempt numbers, and its error value by the attempt number. Partial writes are not modelled.
- `defaultRegistry` is left out: the constructors take the registry as an argument.
- Panics are results, not unwinding. The model does not cover a caller that recovers and goes on using half-updated state. Two paths in the source leave state changed before a panic, and the model states both. `forget` deletes the index entry before a slice panic (`Engine.MetricFamily.Forget`). `Apply` sorts the partial's labels before a validation or index panic (`Engine.Partial.Apply` ensures `labels == Canonical(old(labels))` in every outcome).
- Slices are values, and aliasing is not modelled even where the source makes it observable. `Apply` creates the child with `Labels: p.labels` (`counter.go:77`), so the child shares the partial's backing array. For example, `NewChild` with three pairs builds that array by `append`, with length 3 and capacity 4 (`counter.go:341-346`). A later one-pair `With` on the same partial appends into the spare slot. The next `Apply` then sorts the array in place (`counter.go:63-65`) and so rewrites the existing child's labels under its old fingerprint. `Engine.Child`'s labels are a `const` value, so the model cannot show this. Nor does it model the backing array `children[1:]` shares.
- `Sorting.SortBy`: `sort.Sort` is replaced by an insertion sort over the same `Less`. The sort lemmas (`Sorting.SortBy`, `Sorting.SortBySorted`) claim only what holds for any Go sort: a permutation, sorted when `Less` is a strict weak order. The register methods, though, state the one order this insertion sort gives. With two or more dimensions the children order is not one (`LabelPairs.SeqBeforeNotAsymmetric`), so Go's resulting order may differ from this model's. Ties may also come out in a different order, even with one dimension: `Engine.MetricFamily.Register` and `Registries.Registry.Register` ensure the order of a stable insertion sort, while `sort.Sort` is not stable above 12 elements. Ties are reachable: two families may have equal names and different keys, and after the as-written `forget` an `Apply` can add a second child with a still-listed child's labels.
- `Engine.ChildBefore`: when the receiver has more labels, Go returns true if some shared position is before, and otherwise panics indexing past the shorter list. The model returns false in that panic case. All children of a family have the family's arity (`Engine.MetricFamily.Valid`), so the guard never fires on registered children.
- `Engine.Child.Set` requires a counter or gauge child. Summaries have no `Set` in the source; Go's types enforce this.
- `Len` and `Swap` of `labelPairs`, `families` and the children lists are left out. Only `sort.Sort` calls them, and `Sorting.SortBy` stands in for it, so the exchange of two positions (`labelpair.go:43-45`, `family.go:28-30`) is not stated on its own. `familyName.String` is the identity: names are plain strings.
- Strings: a Dafny `string` holds Unicode scalar values, while a Go `string` is any byte sequence. Names and values that are not valid UTF-8 (such as `"\xff"`) cannot be represented. So the following hold only for valid UTF-8 strings:
  - `Strings.LessIrreflexive`, `Strings.LessTransitive`, `Strings.LessAsymmetric`, `Strings.LessConnected`: Go's byte-wise `<`, which on valid UTF-8 is code-point order.
  - `Fnv.EncodeRune`, `Fnv.EncodeAppend` and `Fnv.FeedAppend`: the UTF-8 bytes written to the hash.
  - `LabelPairs.Fingerprint`: the FNV-1a-64 of the flattened bytes.
  - `Families.NameFingerprintAsLabels`.
- `dump.go` holds only types. It becomes `Records.DumpOptions` and integer format constants.
- `Families.JsonOf` states the document's shape and the family names, not its byte encoding.

## Findings

| source | as written | input that shows it | evidently intended | confidence | as-written member | corrected member |
|---|---|---|---|---|---|---|
| prometheus/new/counter.go:300-307 | `forget` keeps `children[:index-1]`, which also drops `children[index-1]` | children `[a, b, c]`, forget `b` (index 1): only `[c]` is left | remove exactly `children[index]` | high (not executed) | Engine.ForgetDropsPredecessor | Engine.MetricFamily.ForgetCorrected |
| prometheus/new/counter.go:296-299 | `forget` deletes one index entry and never renumbers the others | children `[a, b, c]`, forget `a`: `find(b)` returns `c` and `find(c)` panics with index 2 | rebuild the index after removing a child | high (not executed) | Engine.ForgetFirstMisdirectsFind | Engine.ForgetSplicedCorrect |
| prometheus/new/counter.go:219-223 | the family literal never sets `fp`, so every family's `fingerprint()` is 0 | two valid families named `a` and `b`: the second constructor panics as already registered | store the name's fingerprint (`familyName.fingerprint`) | high (not executed) | Registries.SecondFamilyRefused | Registries.TwoFamiliesRegistered |
| prometheus/new/labelpair.go:57-65 | `labelPairs.Before` is true if any position is before, not the first differing one | `[(a,2),(b,1)]` and `[(a,1),(b,2)]` are each before the other | first-difference lexicographic order | high (not executed) | LabelPairs.SeqBeforeNotAsymmetric | LabelPairs.LexBeforeStrictTotal |

The engine keeps the as-written behaviour, because that is what the source does. `Engine.Child.Forget` calls the as-written `forget`, `Registries.NewFamily` leaves `fp` at 0, and children are sorted with `labelPairs.Before`. The corrected members sit beside them, and the corrected-member column names where the intended property is proved.
