/**
 * The serialization planner of the Java code generator: for one message it
 * decides in which order the serialization statements of its fields and of
 * its extension ranges are emitted, and asks a method-splitting hook after
 * every emitted statement whether the generated Java method should be closed.
 *
 * Rendering is not modelled: every statement the generator would print is
 * recorded as an event on the printer, so the order and the number of the
 * calls is what the model is about.
 */
module MessageSerialization {

  // ---------------------------------------------------------------------------
  // Schema entities (only the parts the planner reads)
  // ---------------------------------------------------------------------------

  /** A field of the message, reduced to its field number. */
  datatype FieldDescriptor = FieldDescriptor(number: int)

  /** An extension range covers the field numbers start (inclusive) to end (exclusive). */
  datatype ExtensionRange = ExtensionRange(start: int, end: int)

  /** A message descriptor: its fields and its extension ranges, in declaration order. */
  datatype Descriptor = Descriptor(fields: seq<FieldDescriptor>, extensionRanges: seq<ExtensionRange>)

  /** One unit of emitted serialization code. */
  datatype Item = Field(field: FieldDescriptor) | Extension(range: ExtensionRange)

  /**
   * The pair of call and definition templates handed to the splitting hook:
   * the plain one, or the one whose generated methods also take an
   * extension writer.
   */
  datatype Shape = Plain | ExtensionAware

  /** The two counters the splitting hook receives by pointer. */
  datatype Counters = Counters(fieldsInFunction: int, methodNum: int)

  /** What the printer is asked to do: render one item, or call the splitting hook. */
  datatype Event = Emit(item: Item) | Split(shape: Shape, counters: Counters)

  /** The counters before the first item: no field in the current function, method number 1. */
  const Initial := Counters(0, 1)

  /** The ordering key of an item: a field's number, a range's start. */
  function Key(item: Item): int
  {
    match item
    case Field(f) => f.number
    case Extension(r) => r.start
  }

  predicate SortedByNumber(fields: seq<FieldDescriptor>)
  {
    forall a, b :: 0 <= a < b < |fields| ==> fields[a].number <= fields[b].number
  }

  predicate SortedByStart(ranges: seq<ExtensionRange>)
  {
    forall a, b :: 0 <= a < b < |ranges| ==> ranges[a].start <= ranges[b].start
  }

  predicate DistinctStarts(ranges: seq<ExtensionRange>)
  {
    forall a, b :: 0 <= a < b < |ranges| ==> ranges[a].start != ranges[b].start
  }

  predicate KeysNondecreasing(items: seq<Item>)
  {
    forall a, b :: 0 <= a < b < |items| ==> Key(items[a]) <= Key(items[b])
  }

  function AsFields(fields: seq<FieldDescriptor>): seq<Item>
  {
    seq(|fields|, k requires 0 <= k < |fields| => Field(fields[k]))
  }

  function AsExtensions(ranges: seq<ExtensionRange>): seq<Item>
  {
    seq(|ranges|, k requires 0 <= k < |ranges| => Extension(ranges[k]))
  }

  /** The fields among some items, in their order there. */
  function FieldsOf(items: seq<Item>): seq<FieldDescriptor>
  {
    if items == [] then []
    else (if items[0].Field? then [items[0].field] else []) + FieldsOf(items[1..])
  }

  /** The extension ranges among some items, in their order there. */
  function RangesOf(items: seq<Item>): seq<ExtensionRange>
  {
    if items == [] then []
    else (if items[0].Extension? then [items[0].range] else []) + RangesOf(items[1..])
  }

  /** The items rendered by a trace of printer events, in order. */
  function EmittedItems(trace: seq<Event>): seq<Item>
  {
    if trace == [] then []
    else (if trace[0].Emit? then [trace[0].item] else []) + EmittedItems(trace[1..])
  }

  // ---------------------------------------------------------------------------
  // Sorting the extension ranges
  // ---------------------------------------------------------------------------

  /**
   * Sorts the ranges in place by start. The generator uses std::sort with
   * ExtensionRangeOrdering; the model promises what that promises: the array
   * ends sorted by start and holds the same ranges.
   */
  method SortByStart(a: array<ExtensionRange>)
    modifies a
    ensures SortedByStart(a[..])
    ensures multiset(a[..]) == old(multiset(a[..]))
  {
    var i := 0;
    while i < a.Length
      invariant 0 <= i <= a.Length
      invariant forall x, y :: 0 <= x < y < i ==> a[x].start <= a[y].start
      invariant multiset(a[..]) == old(multiset(a[..]))
    {
      InsertAt(a, i);
      i := i + 1;
    }
  }

  /** Moves a[i] left past every larger start, so that a[..i+1] is sorted. */
  method InsertAt(a: array<ExtensionRange>, i: nat)
    requires i < a.Length
    requires forall x, y :: 0 <= x < y < i ==> a[x].start <= a[y].start
    modifies a
    ensures forall x, y :: 0 <= x < y <= i ==> a[x].start <= a[y].start
    ensures multiset(a[..]) == old(multiset(a[..]))
  {
    var k := i;
    while k > 0 && a[k - 1].start > a[k].start
      invariant 0 <= k <= i
      invariant forall x, y :: 0 <= x < y <= i && x != k && y != k ==> a[x].start <= a[y].start
      invariant forall y :: k < y <= i ==> a[k].start <= a[y].start
      invariant multiset(a[..]) == old(multiset(a[..]))
    {
      Swap(a, k - 1, k);
      k := k - 1;
    }
  }

  method Swap(a: array<ExtensionRange>, x: nat, y: nat)
    requires x < y < a.Length
    modifies a
    ensures a[x] == old(a[y]) && a[y] == old(a[x])
    ensures forall z :: 0 <= z < a.Length && z != x && z != y ==> a[z] == old(a[z])
    ensures multiset(a[..]) == old(multiset(a[..]))
  {
    a[x], a[y] := a[y], a[x];
  }

  /**
   * Collects the descriptor's extension ranges into a fresh buffer and sorts
   * it by start.
   */
  method SortedExtensionRanges(d: Descriptor) returns (sorted: seq<ExtensionRange>)
    ensures SortedByStart(sorted)
    ensures multiset(sorted) == multiset(d.extensionRanges)
  {
    var count := |d.extensionRanges|;
    var a := new ExtensionRange[count];
    var i := 0;
    while i < count
      invariant 0 <= i <= count
      invariant a[..i] == d.extensionRanges[..i]
    {
      a[i] := d.extensionRanges[i];
      i := i + 1;
    }
    assert a[..] == d.extensionRanges;
    SortByStart(a);
    sorted := a[..];
  }

  /**
   * When range starts are distinct (as they are for the non-overlapping
   * ranges of a valid schema), the sorted order is unique, so the order
   * std::sort leaves unspecified (it is not stable) cannot change the result.
   */
  lemma {:induction false} SortedOrderUnique(s1: seq<ExtensionRange>, s2: seq<ExtensionRange>)
    requires SortedByStart(s1) && SortedByStart(s2) && DistinctStarts(s1)
    requires multiset(s1) == multiset(s2)
    ensures s1 == s2
    decreases |s1|
  {
    assert |s2| == |multiset(s2)| == |multiset(s1)| == |s1|;
    if s1 != [] {
      SortedHeadsAgree(s1, s2);
      SameTailMultiset(s1, s2);
      assert SortedByStart(s1[1..]) && SortedByStart(s2[1..]) && DistinctStarts(s1[1..]);
      SortedOrderUnique(s1[1..], s2[1..]);
      assert s1 == [s1[0]] + s1[1..] && s2 == [s2[0]] + s2[1..];
    }
  }

  lemma SortedHeadsAgree(s1: seq<ExtensionRange>, s2: seq<ExtensionRange>)
    requires s1 != [] && s2 != []
    requires SortedByStart(s1) && SortedByStart(s2) && DistinctStarts(s1)
    requires multiset(s1) == multiset(s2)
    ensures s1[0] == s2[0]
  {
    assert s1[0] in multiset(s2);
    var m :| 0 <= m < |s2| && s2[m] == s1[0];
    assert s2[0] in multiset(s1);
    var p :| 0 <= p < |s1| && s1[p] == s2[0];
    assert s2[0].start <= s2[m].start;
    assert p == 0;
  }

  lemma SameTailMultiset(s1: seq<ExtensionRange>, s2: seq<ExtensionRange>)
    requires s1 != [] && s2 != [] && s1[0] == s2[0]
    requires multiset(s1) == multiset(s2)
    ensures multiset(s1[1..]) == multiset(s2[1..])
  {
    assert s1 == [s1[0]] + s1[1..];
    assert s2 == [s2[0]] + s2[1..];
    assert multiset(s1[1..]) == multiset(s1) - multiset{s1[0]};
    assert multiset(s2[1..]) == multiset(s2) - multiset{s2[0]};
  }

  // ---------------------------------------------------------------------------
  // The two-cursor merge
  // ---------------------------------------------------------------------------

  /**
   * The order in which the merge loop emits the items: while both inputs
   * remain, the field goes first only when its number is strictly less
   * than the range's start; once one input is exhausted the other is
   * drained.
   */
  function Merge(fields: seq<FieldDescriptor>, ranges: seq<ExtensionRange>): (r: seq<Item>)
    ensures |r| == |fields| + |ranges|
    decreases |fields| + |ranges|
  {
    if fields == [] && ranges == [] then []
    else if fields == [] then [Extension(ranges[0])] + Merge(fields, ranges[1..])
    else if ranges == [] then [Field(fields[0])] + Merge(fields[1..], ranges)
    else if fields[0].number < ranges[0].start then [Field(fields[0])] + Merge(fields[1..], ranges)
    else [Extension(ranges[0])] + Merge(fields, ranges[1..])
  }

  lemma AsFieldsCons(fields: seq<FieldDescriptor>)
    requires fields != []
    ensures AsFields(fields) == [Field(fields[0])] + AsFields(fields[1..])
  {
  }

  lemma AsExtensionsCons(ranges: seq<ExtensionRange>)
    requires ranges != []
    ensures AsExtensions(ranges) == [Extension(ranges[0])] + AsExtensions(ranges[1..])
  {
  }

  /** Every field and every range is emitted exactly once, and nothing else is. */
  lemma {:induction false} MergeExactlyOnce(fields: seq<FieldDescriptor>, ranges: seq<ExtensionRange>)
    ensures multiset(Merge(fields, ranges)) == multiset(AsFields(fields)) + multiset(AsExtensions(ranges))
    decreases |fields| + |ranges|
  {
    if fields == [] && ranges == [] {
    } else if fields == [] || (ranges != [] && fields[0].number >= ranges[0].start) {
      MergeExactlyOnce(fields, ranges[1..]);
      var tail := Merge(fields, ranges[1..]);
      assert Merge(fields, ranges) == [Extension(ranges[0])] + tail;
      AsExtensionsCons(ranges);
      assert multiset(Merge(fields, ranges)) == multiset{Extension(ranges[0])} + multiset(tail);
      assert multiset(AsExtensions(ranges)) == multiset{Extension(ranges[0])} + multiset(AsExtensions(ranges[1..]));
    } else {
      MergeExactlyOnce(fields[1..], ranges);
      var tail := Merge(fields[1..], ranges);
      assert Merge(fields, ranges) == [Field(fields[0])] + tail;
      AsFieldsCons(fields);
      assert multiset(Merge(fields, ranges)) == multiset{Field(fields[0])} + multiset(tail);
      assert multiset(AsFields(fields)) == multiset{Field(fields[0])} + multiset(AsFields(fields[1..]));
    }
  }

  /** An item is emitted iff it is one of the fields or one of the ranges. */
  lemma {:induction false} MergeMembers(fields: seq<FieldDescriptor>, ranges: seq<ExtensionRange>, x: Item)
    ensures x in Merge(fields, ranges) <==>
              (x.Field? && x.field in fields) || (x.Extension? && x.range in ranges)
    decreases |fields| + |ranges|
  {
    if fields == [] && ranges == [] {
    } else if fields == [] || (ranges != [] && fields[0].number >= ranges[0].start) {
      MergeMembers(fields, ranges[1..], x);
      assert ranges == [ranges[0]] + ranges[1..];
    } else {
      MergeMembers(fields[1..], ranges, x);
      assert fields == [fields[0]] + fields[1..];
    }
  }

  /**
   * Stability: the fields come out in their input order, and so do the
   * ranges, because the cursors only move forward.
   */
  lemma {:induction false} MergeStable(fields: seq<FieldDescriptor>, ranges: seq<ExtensionRange>)
    ensures FieldsOf(Merge(fields, ranges)) == fields
    ensures RangesOf(Merge(fields, ranges)) == ranges
    decreases |fields| + |ranges|
  {
    var m := Merge(fields, ranges);
    if fields == [] && ranges == [] {
    } else if fields == [] || (ranges != [] && fields[0].number >= ranges[0].start) {
      MergeStable(fields, ranges[1..]);
      assert m[1..] == Merge(fields, ranges[1..]);
      assert ranges == [ranges[0]] + ranges[1..];
    } else {
      MergeStable(fields[1..], ranges);
      assert m[1..] == Merge(fields[1..], ranges);
      assert fields == [fields[0]] + fields[1..];
    }
  }

  /** With no extension ranges the output is exactly the fields, in input order. */
  lemma {:induction false} MergeWithoutRanges(fields: seq<FieldDescriptor>)
    ensures Merge(fields, []) == AsFields(fields)
  {
    if fields != [] {
      MergeWithoutRanges(fields[1..]);
      AsFieldsCons(fields);
    }
  }

  /** With no fields the output is exactly the (sorted) ranges, in order. */
  lemma {:induction false} MergeWithoutFields(ranges: seq<ExtensionRange>)
    ensures Merge([], ranges) == AsExtensions(ranges)
  {
    if ranges != [] {
      MergeWithoutFields(ranges[1..]);
      AsExtensionsCons(ranges);
    }
  }

  /** Every key emitted is at least any common lower bound of the inputs. */
  lemma {:induction false} MergeKeysAbove(fields: seq<FieldDescriptor>, ranges: seq<ExtensionRange>, bound: int)
    requires forall k :: 0 <= k < |fields| ==> bound <= fields[k].number
    requires forall k :: 0 <= k < |ranges| ==> bound <= ranges[k].start
    ensures forall k :: 0 <= k < |Merge(fields, ranges)| ==> bound <= Key(Merge(fields, ranges)[k])
    decreases |fields| + |ranges|
  {
    if fields == [] && ranges == [] {
    } else if fields == [] || (ranges != [] && fields[0].number >= ranges[0].start) {
      MergeKeysAbove(fields, ranges[1..], bound);
    } else {
      MergeKeysAbove(fields[1..], ranges, bound);
    }
  }

  /**
   * The documented promise: when the fields are sorted by number and the
   * ranges by start, the emitted keys are in increasing order.
   */
  lemma {:induction false} MergeSorted(fields: seq<FieldDescriptor>, ranges: seq<ExtensionRange>)
    requires SortedByNumber(fields) && SortedByStart(ranges)
    ensures KeysNondecreasing(Merge(fields, ranges))
    decreases |fields| + |ranges|
  {
    var m := Merge(fields, ranges);
    if fields == [] && ranges == [] {
    } else {
      var fs, rs := fields, ranges;
      if fields == [] || (ranges != [] && fields[0].number >= ranges[0].start) {
        rs := ranges[1..];
      } else {
        fs := fields[1..];
      }
      var tail := Merge(fs, rs);
      assert m == [m[0]] + tail;
      MergeSorted(fs, rs);
      MergeKeysAbove(fs, rs, Key(m[0]));
      forall a, b | 0 <= a < b < |m|
        ensures Key(m[a]) <= Key(m[b])
      {
        assert m[b] == tail[b - 1];
        if a > 0 {
          assert m[a] == tail[a - 1];
        }
      }
    }
  }

  /**
   * Between a field and a range the order is fixed by the strict comparison
   * of the loop: for sorted inputs, a field is emitted before a range iff its
   * number is strictly less than the range's start. In particular, on a tie
   * (number == start) the range comes first.
   */
  lemma {:induction false} FieldBeforeRangeIff(fields: seq<FieldDescriptor>, ranges: seq<ExtensionRange>)
    requires SortedByNumber(fields) && SortedByStart(ranges)
    ensures var m := Merge(fields, ranges);
            forall a, b :: 0 <= a < |m| && 0 <= b < |m| && m[a].Field? && m[b].Extension? ==>
              (a < b <==> m[a].field.number < m[b].range.start)
    decreases |fields| + |ranges|
  {
    var m := Merge(fields, ranges);
    if fields == [] && ranges == [] {
    } else if fields == [] || (ranges != [] && fields[0].number >= ranges[0].start) {
      var tail := Merge(fields, ranges[1..]);
      assert m == [Extension(ranges[0])] + tail;
      FieldBeforeRangeIff(fields, ranges[1..]);
      forall a, b | 0 <= a < |m| && 0 <= b < |m| && m[a].Field? && m[b].Extension?
        ensures a < b <==> m[a].field.number < m[b].range.start
      {
        assert a != 0;
        MergeMembers(fields, ranges[1..], m[a]);
        assert m[a] == tail[a - 1];
        if b == 0 {
          assert fields != [];
          assert m[a].field.number >= ranges[0].start;
        } else {
          assert m[b] == tail[b - 1];
        }
      }
    } else {
      var tail := Merge(fields[1..], ranges);
      assert m == [Field(fields[0])] + tail;
      FieldBeforeRangeIff(fields[1..], ranges);
      forall a, b | 0 <= a < |m| && 0 <= b < |m| && m[a].Field? && m[b].Extension?
        ensures a < b <==> m[a].field.number < m[b].range.start
      {
        assert b != 0;
        MergeMembers(fields[1..], ranges, m[b]);
        assert m[b] == tail[b - 1];
        if a == 0 {
          assert ranges != [];
          assert fields[0].number < m[b].range.start;
        } else {
          assert m[a] == tail[a - 1];
        }
      }
    }
  }

  // ---------------------------------------------------------------------------
  // The trace of printer events
  // ---------------------------------------------------------------------------

  /**
   * The counters after one item: the hook's update, then the increment of
   * fields_in_function that follows every hook call.
   */
  function Step(hook: Counters -> Counters, c: Counters): Counters
  {
    var next := hook(c);
    Counters(next.fieldsInFunction + 1, next.methodNum)
  }

  /**
   * The counters after k items, starting from c: the counters after the
   * k-th item are one step past those after the (k-1)-th.
   */
  function Iterate(hook: Counters -> Counters, c: Counters, k: nat): (r: Counters)
    ensures k == 0 ==> r == c
    ensures k > 0 ==> r == Step(hook, Iterate(hook, c, k - 1))
    decreases k
  {
    if k == 0 then c else Iterate(hook, Step(hook, c), k - 1)
  }

  /** The shape chosen from whether the message declares any extension range. */
  function ShapeFor(d: Descriptor): Shape
  {
    if |d.extensionRanges| > 0 then ExtensionAware else Plain
  }

  /** The events for emitting items in order, each followed by one hook call. */
  function Trace(items: seq<Item>, shape: Shape, hook: Counters -> Counters, c: Counters): (t: seq<Event>)
    ensures |t| == 2 * |items|
  {
    if items == [] then []
    else [Emit(items[0]), Split(shape, c)] + Trace(items[1..], shape, hook, Step(hook, c))
  }

  /** Everything one call of the generator asks of the printer. */
  function Plan(d: Descriptor, sortedFields: seq<FieldDescriptor>, sortedExtensions: seq<ExtensionRange>,
                hook: Counters -> Counters): (p: seq<Event>)
    ensures |p| == 2 * (|sortedFields| + |sortedExtensions|)
  {
    Trace(Merge(sortedFields, sortedExtensions), ShapeFor(d), hook, Initial)
  }

  /**
   * The trace alternates render, hook call: event 2k renders the k-th item
   * and event 2k+1 calls the hook with the same shape and with the counters
   * after k items.
   */
  lemma {:induction false} TraceAlternates(items: seq<Item>, shape: Shape, hook: Counters -> Counters, c: Counters)
    ensures var t := Trace(items, shape, hook, c);
            forall k :: 0 <= k < |items| ==>
              t[2 * k] == Emit(items[k]) && t[2 * k + 1] == Split(shape, Iterate(hook, c, k))
  {
    if items != [] {
      var t := Trace(items, shape, hook, c);
      var rest := Trace(items[1..], shape, hook, Step(hook, c));
      assert t == [Emit(items[0]), Split(shape, c)] + rest;
      TraceAlternates(items[1..], shape, hook, Step(hook, c));
      forall k | 0 <= k < |items|
        ensures t[2 * k] == Emit(items[k]) && t[2 * k + 1] == Split(shape, Iterate(hook, c, k))
      {
        if k > 0 {
          assert items[1..][k - 1] == items[k];
          assert t[2 * k] == rest[2 * (k - 1)];
          assert t[2 * k + 1] == rest[2 * (k - 1) + 1];
        }
      }
    }
  }

  /** The items rendered by a trace are exactly the planned items, in order. */
  lemma {:induction false} TraceEmits(items: seq<Item>, shape: Shape, hook: Counters -> Counters, c: Counters)
    ensures EmittedItems(Trace(items, shape, hook, c)) == items
  {
    if items != [] {
      var t := Trace(items, shape, hook, c);
      var rest := Trace(items[1..], shape, hook, Step(hook, c));
      assert t[1..][1..] == rest;
      TraceEmits(items[1..], shape, hook, Step(hook, c));
      assert items == [items[0]] + items[1..];
    }
  }

  /**
   * The whole plan of one call: one render event per field and per range,
   * each followed by one hook call, every hook call with the shape that
   * depends only on whether the message has extension ranges, and the first
   * call with fields_in_function 0 and method_num 1. No fields and no ranges
   * give no event at all.
   */
  lemma PlanLayout(d: Descriptor, sortedFields: seq<FieldDescriptor>, sortedExtensions: seq<ExtensionRange>,
                   hook: Counters -> Counters)
    ensures var p := Plan(d, sortedFields, sortedExtensions, hook);
            && |p| == 2 * (|sortedFields| + |sortedExtensions|)
            && EmittedItems(p) == Merge(sortedFields, sortedExtensions)
            && (forall k :: 0 <= k < |p| && p[k].Split? ==>
                  p[k].shape == (if |d.extensionRanges| > 0 then ExtensionAware else Plain))
            && (|p| > 0 ==> p[1] == Split(ShapeFor(d), Counters(0, 1)))
  {
    var items := Merge(sortedFields, sortedExtensions);
    var p := Plan(d, sortedFields, sortedExtensions, hook);
    TraceAlternates(items, ShapeFor(d), hook, Initial);
    TraceEmits(items, ShapeFor(d), hook, Initial);
    forall k | 0 <= k < |p| && p[k].Split?
      ensures p[k].shape == ShapeFor(d)
    {
      var q := k / 2;
      assert k == 2 * q || k == 2 * q + 1;
      assert 0 <= q < |items|;
      assert p[2 * q] == Emit(items[q]);
    }
    if |p| > 0 {
      assert p[2 * 0 + 1] == Split(ShapeFor(d), Iterate(hook, Initial, 0));
    }
  }

  /**
   * If the hook never splits (leaves the counters alone), fields_in_function
   * counts the items emitted so far and method_num stays where it was.
   */
  lemma {:induction false} CountersWithoutSplitting(hook: Counters -> Counters, c: Counters, k: nat)
    requires forall x :: hook(x) == x
    ensures Iterate(hook, c, k) == Counters(c.fieldsInFunction + k, c.methodNum)
    decreases k
  {
    if k > 0 {
      CountersWithoutSplitting(hook, Step(hook, c), k - 1);
    }
  }

  /** The wrapped ranges count each range exactly as often as the ranges do, and no field. */
  lemma {:induction false} AsExtensionsCount(ranges: seq<ExtensionRange>, x: Item)
    ensures multiset(AsExtensions(ranges))[x] == if x.Extension? then multiset(ranges)[x.range] else 0
  {
    if ranges != [] {
      AsExtensionsCons(ranges);
      AsExtensionsCount(ranges[1..], x);
      assert ranges == [ranges[0]] + ranges[1..];
    }
  }

  /** Wrapping two permutations of the same ranges gives permutations of the same items. */
  lemma AsExtensionsPermutation(s1: seq<ExtensionRange>, s2: seq<ExtensionRange>)
    requires multiset(s1) == multiset(s2)
    ensures multiset(AsExtensions(s1)) == multiset(AsExtensions(s2))
  {
    forall x
      ensures multiset(AsExtensions(s1))[x] == multiset(AsExtensions(s2))[x]
    {
      AsExtensionsCount(s1, x);
      AsExtensionsCount(s2, x);
    }
  }

  /**
   * End to end: over one call, the rendered items are exactly the fields the
   * loop reads plus the descriptor's own extension ranges, each once, for any
   * start-sorted permutation the sort may have produced.
   */
  lemma PlanEmitsEachOnce(d: Descriptor, sortedFields: seq<FieldDescriptor>, sortedExtensions: seq<ExtensionRange>,
                          hook: Counters -> Counters)
    requires multiset(sortedExtensions) == multiset(d.extensionRanges)
    ensures multiset(EmittedItems(Plan(d, sortedFields, sortedExtensions, hook)))
            == multiset(AsFields(sortedFields)) + multiset(AsExtensions(d.extensionRanges))
  {
    PlanLayout(d, sortedFields, sortedExtensions, hook);
    MergeExactlyOnce(sortedFields, sortedExtensions);
    AsExtensionsPermutation(sortedExtensions, d.extensionRanges);
  }

  // ---------------------------------------------------------------------------
  // The generator
  // ---------------------------------------------------------------------------

  /** The output sink; it records what it is asked to print. */
  class Printer {
    var trace: seq<Event>

    constructor ()
      ensures trace == []
    {
      trace := [];
    }
  }

  /** Renders the serialization code of one extension range. */
  method GenerateSerializeExtensionRange(printer: Printer, range: ExtensionRange)
    modifies printer
    ensures printer.trace == old(printer.trace) + [Emit(Extension(range))]
  {
    printer.trace := printer.trace + [Emit(Extension(range))];
  }

  /** Renders the serialization code of one field, through its field generator. */
  method GenerateSerializationCode(printer: Printer, field: FieldDescriptor)
    modifies printer
    ensures printer.trace == old(printer.trace) + [Emit(Field(field))]
  {
    printer.trace := printer.trace + [Emit(Field(field))];
  }

  /**
   * The method-splitting hook: it is handed the counters and the templates
   * of one shape, may close the current generated method, and gives back
   * the updated counters, which the abstract hook function decides.
   */
  method MaybeSplitJavaMethod(printer: Printer, counters: Counters, shape: Shape, hook: Counters -> Counters)
    returns (next: Counters)
    modifies printer
    ensures printer.trace == old(printer.trace) + [Split(shape, counters)]
    ensures next == hook(counters)
  {
    printer.trace := printer.trace + [Split(shape, counters)];
    next := hook(counters);
  }

  /**
   * Emits the serialization of all fields and extension ranges of a
   * message in increasing order of field number, calling the splitting hook
   * after every item. The sorted ranges are returned as a ghost value so
   * that callers can state the plan.
   */
  method GenerateSerializeFieldsAndExtensions(printer: Printer, d: Descriptor, sortedFields: seq<FieldDescriptor>,
                                              hook: Counters -> Counters)
    returns (ghost extensions: seq<ExtensionRange>)
    requires |sortedFields| == |d.fields|
    modifies printer
    ensures SortedByStart(extensions) && multiset(extensions) == multiset(d.extensionRanges)
    ensures printer.trace == old(printer.trace) + Plan(d, sortedFields, extensions, hook)
  {
    var sortedExtensions := SortedExtensionRanges(d);
    extensions := sortedExtensions;
    ghost var shape := ShapeFor(d);
    ghost var goal := old(printer.trace) + Plan(d, sortedFields, sortedExtensions, hook);

    var fieldsInFunction := 0;
    var methodNum := 1;

    var i, j := 0, 0;
    while i < |d.fields| || j < |sortedExtensions|
      invariant 0 <= i <= |sortedFields| && 0 <= j <= |sortedExtensions|
      invariant goal == printer.trace + Trace(Merge(sortedFields[i..], sortedExtensions[j..]), shape, hook,
                                              Counters(fieldsInFunction, methodNum))
      decreases |sortedFields| - i + |sortedExtensions| - j
    {
      ghost var rest := Merge(sortedFields[i..], sortedExtensions[j..]);
      ghost var before := printer.trace;
      ghost var c := Counters(fieldsInFunction, methodNum);
      MergeUnfold(sortedFields, sortedExtensions, i, j);
      if i == |d.fields| {
        GenerateSerializeExtensionRange(printer, sortedExtensions[j]);
        j := j + 1;
      } else if j == |sortedExtensions| {
        GenerateSerializationCode(printer, sortedFields[i]);
        i := i + 1;
      } else if sortedFields[i].number < sortedExtensions[j].start {
        GenerateSerializationCode(printer, sortedFields[i]);
        i := i + 1;
      } else {
        GenerateSerializeExtensionRange(printer, sortedExtensions[j]);
        j := j + 1;
      }
      assert printer.trace == before + [Emit(rest[0])];
      assert rest[1..] == Merge(sortedFields[i..], sortedExtensions[j..]);

      var next: Counters;
      if |d.extensionRanges| > 0 {
        next := MaybeSplitJavaMethod(printer, Counters(fieldsInFunction, methodNum), ExtensionAware, hook);
      } else {
        next := MaybeSplitJavaMethod(printer, Counters(fieldsInFunction, methodNum), Plain, hook);
      }
      fieldsInFunction, methodNum := next.fieldsInFunction, next.methodNum;
      fieldsInFunction := fieldsInFunction + 1;
      assert printer.trace == before + [Emit(rest[0]), Split(shape, c)];
      assert Counters(fieldsInFunction, methodNum) == Step(hook, c);
      TraceCons(goal, before, rest, shape, hook, c);
    }
  }

  /** One step of the merge loop, from cursors i and j. */
  lemma MergeUnfold(fields: seq<FieldDescriptor>, ranges: seq<ExtensionRange>, i: nat, j: nat)
    requires i <= |fields| && j <= |ranges| && (i < |fields| || j < |ranges|)
    ensures if i == |fields| || (j < |ranges| && fields[i].number >= ranges[j].start)
            then Merge(fields[i..], ranges[j..]) == [Extension(ranges[j])] + Merge(fields[i..], ranges[j + 1..])
            else Merge(fields[i..], ranges[j..]) == [Field(fields[i])] + Merge(fields[i + 1..], ranges[j..])
  {
  }

  /** Emitting the first pending item and calling the hook once completes a prefix of the plan. */
  lemma TraceCons(goal: seq<Event>, before: seq<Event>, items: seq<Item>, shape: Shape,
                  hook: Counters -> Counters, c: Counters)
    requires items != []
    requires goal == before + Trace(items, shape, hook, c)
    ensures goal == (before + [Emit(items[0]), Split(shape, c)]) + Trace(items[1..], shape, hook, Step(hook, c))
  {
  }
}
