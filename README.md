# Serialization order of the Java code generator

This project models `GenerateSerializeFieldsAndExtensions`, the routine of the
Java code generator in Protocol Buffers that emits the `writeTo` body of a
message. For one message descriptor it does three things:

1. It copies the message's extension ranges into a buffer and sorts them by
   start.
2. It merges the fields with the sorted ranges in one pass with two cursors.
   The fields come in already sorted by field number. A field goes next only
   when its number is strictly less than the next range's start, so a range
   wins a tie. When one input runs out, the rest of the other is drained.
3. After every emitted item it calls the method-splitting hook
   `MaybeSplitJavaMethod`, and then increments `fields_in_function`. The
   hook gets the plain call/definition templates, or the ones that also
   take an extension writer when the message has any extension range.

The model is the module `MessageSerialization` in `message_serialization.dfy`.
The printer is a class whose `trace` records what it was asked to do:
`Emit(item)` for each rendered field or range, and `Split(shape, counters)`
for each hook call. The `Split` event records the template shape and the
counters handed to the hook. The hook's effect on the counters is an abstract
function parameter `hook: Counters -> Counters`.

`GenerateSerializeFieldsAndExtensions` is an imperative method with the
source's loop. Its postcondition ties the new trace to the pure function
`Plan`, built from `Merge` (the merge order) and `Trace` (each item followed by
one hook call). `Trace` gets the template shape from `ShapeFor`, the
`extension_range_count() > 0` test of line 87, and advances the counters with
`Step`: the hook's update through the two pointers (lines 88 and 95), then the
increment of `fields_in_function` (line 101). The lemmas state the source's promises about `Merge` and
`Trace`: exactly-once emission, stability, increasing keys, the strict
tie-break, the degenerate cases, and the alternation of render and hook
events with a constant shape.

## Model

| member | source | states |
|---|---|---|
| `MessageSerialization.SortByStart` | src/google/protobuf/compiler/java/message_serialization.h:66-67 | the array is sorted in place by range start and holds the same ranges (multiset preserved) |
| `MessageSerialization.SortedExtensionRanges` | src/google/protobuf/compiler/java/message_serialization.h:61-67 | the collected buffer is sorted by start and is a permutation of the descriptor's extension ranges |
| `MessageSerialization.SortedOrderUnique` | src/google/protobuf/compiler/java/message_serialization.h:61-67 | when range starts are distinct, any two start-sorted permutations of the same ranges are equal, so the order `std::sort` leaves unspecified (it is not stable) cannot change the result |
| `MessageSerialization.Merge` | src/google/protobuf/compiler/java/message_serialization.h:72-86 | the merge emits exactly one item per loop iteration: field_count + range_count items |
| `MessageSerialization.MergeUnfold` | src/google/protobuf/compiler/java/message_serialization.h:75-85 | one loop iteration from cursors i, j: a range is emitted when the fields are exhausted or the field's number is not below the range's start, otherwise the field; the cursor of what was emitted advances by one |
| `MessageSerialization.MergeExactlyOnce` | src/google/protobuf/compiler/java/message_serialization.h:73-86 | the multiset of emitted items is exactly the fields plus the ranges: each emitted once, nothing else emitted |
| `MessageSerialization.MergeMembers` | src/google/protobuf/compiler/java/message_serialization.h:73-86 | an item is emitted iff it is one of the fields or one of the ranges |
| `MessageSerialization.MergeStable` | src/google/protobuf/compiler/java/message_serialization.h:73-86 | the fields appear in the output in their input order, and so do the ranges |
| `MessageSerialization.MergeWithoutRanges` | src/google/protobuf/compiler/java/message_serialization.h:77-79 | with no extension ranges the output is exactly the fields, in input order |
| `MessageSerialization.MergeWithoutFields` | src/google/protobuf/compiler/java/message_serialization.h:75-76 | with no fields the output is exactly the sorted ranges, in order |
| `MessageSerialization.MergeKeysAbove` | src/google/protobuf/compiler/java/message_serialization.h:73-86 | a lower bound of every field number and every range start bounds every emitted key |
| `MessageSerialization.MergeSorted` | src/google/protobuf/compiler/java/message_serialization.h:51-53 | with fields sorted by number and ranges by start, the emitted keys (number or start) are non-decreasing: the documented increasing order by field number |
| `MessageSerialization.FieldBeforeRangeIff` | src/google/protobuf/compiler/java/message_serialization.h:80-84 | for sorted inputs a field comes before a range iff its number is strictly below the range's start; so on a tie the range is emitted first |
| `MessageSerialization.Trace` | src/google/protobuf/compiler/java/message_serialization.h:73-102 | the trace of n items has exactly 2n events; which event sits where is stated by `TraceAlternates` |
| `MessageSerialization.Iterate` | src/google/protobuf/compiler/java/message_serialization.h:69-101 | the counters after k items are those of the start for k = 0, and one `Step` past the counters after k-1 items otherwise |
| `MessageSerialization.Plan` | src/google/protobuf/compiler/java/message_serialization.h:69-102 | the events of one call: two per field and two per extension range. It is built from `Merge`, `ShapeFor` (the `extension_range_count() > 0` test of line 87) and `Step` (the hook's counter update of lines 88/95 followed by the `++` of line 101); `PlanLayout`, `TraceAlternates` and `Iterate` state what these definitions give |
| `MessageSerialization.TraceAlternates` | src/google/protobuf/compiler/java/message_serialization.h:87-101 | event 2k renders the k-th item and event 2k+1 calls the hook with the same shape and with the counters after k items |
| `MessageSerialization.TraceEmits` | src/google/protobuf/compiler/java/message_serialization.h:73-86 | the items rendered by the trace are exactly the merged items, in merge order |
| `MessageSerialization.PlanLayout` | src/google/protobuf/compiler/java/message_serialization.h:69-102 | one call renders field_count + range_count items in merge order, each followed by one hook call; every hook call uses the extension-aware shape iff the message has an extension range; the first hook call gets fields_in_function 0 and method_num 1; no fields and no ranges give no event |
| `MessageSerialization.PlanEmitsEachOnce` | src/google/protobuf/compiler/java/message_serialization.h:61-86 | over one call, the rendered items are exactly the fields read from `sorted_fields` plus the descriptor's own extension ranges, each once, whichever start-sorted permutation the sort produced |
| `MessageSerialization.AsExtensionsPermutation` | src/google/protobuf/compiler/java/message_serialization.h:61-67 | reordering the ranges (as the sort does) does not change which range items exist, or how often |
| `MessageSerialization.CountersWithoutSplitting` | src/google/protobuf/compiler/java/message_serialization.h:69-101 | if the hook never resets the counters, fields_in_function after k items is k more than at the start and method_num is unchanged |
| `MessageSerialization.Printer.constructor` | src/google/protobuf/compiler/java/message_serialization.h:58 | the output sink `io::Printer`, reduced to the record of what it is asked to print; a fresh one has recorded nothing |
| `MessageSerialization.GenerateSerializeExtensionRange` | src/google/protobuf/compiler/java/message_serialization.h:47-49 | rendering a range appends exactly one render event for it to the printer |
| `MessageSerialization.GenerateSerializationCode` | src/google/protobuf/compiler/java/message_serialization.h:78-79 | rendering a field through its generator appends exactly one render event for it |
| `MessageSerialization.MaybeSplitJavaMethod` | src/google/protobuf/compiler/java/message_serialization.h:87-100 | a hook call appends one hook event with the shape and the counters it was given, and returns the counters the hook decides |
| `MessageSerialization.GenerateSerializeFieldsAndExtensions` | src/google/protobuf/compiler/java/message_serialization.h:56-103 | the loop terminates; the ranges it uses are sorted by start and a permutation of the descriptor's; the printer's trace is the old trace followed by exactly `Plan` (merged items, each followed by one hook call with the message's shape and the running counters) |

## Left out

- The internals of `MaybeSplitJavaMethod` (comparing the counter to a size limit, resetting it, bumping `method_num`, printing the templates): it is defined in the generator's helpers, which are not part of this model. Its effect on the two counters is the abstract `hook` parameter, and its output is one recorded `Split` event.
- `ExtensionRangeOrdering` is not part of this model; the ordering is taken to compare `start`. `std::sort` is modelled by an insertion sort that promises only what `std::sort` promises: sorted by that key and a permutation of the input. The order among ranges with equal start is not modelled (`SortedOrderUnique` shows it cannot matter when starts are distinct).
- The vector's `reserve`/`push_back` is modelled as filling a freshly allocated array of `extension_range_count()` elements by index.
- Text emission by `io::Printer`, the Java template strings and the `$var$` substitution through the `variables` map: the two template pairs are the two-valued `Shape`.
- `FieldGeneratorMap::get(...).GenerateSerializationCode` and the body of `GenerateSerializeExtensionRange`: foreign rendering calls, recorded as `Emit` events.
- The descriptor classes beyond an integer field number and a range's start and end. `sorted_fields` is a sequence standing for the `field_count()` entries the loop reads; entries past those are never read and are not modelled.
- The `int` against `size_t` comparison of the loop condition and the 32-bit width of `fields_in_function` and `method_num`: integers are unbounded here.
