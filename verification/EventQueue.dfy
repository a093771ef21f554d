/**
 EventQueue: a binary heap of events with an index from event id to heap position.

 Every operation is proved to act on the abstract queue of module Events, whatever the layout
 of the heap, and to keep `Valid`: the heap order holds, and the index map is exactly the
 position of every stored event.
 */
module EventQueues {
  import opened Common
  import opened Utf16
  import opened Events

  function Parent(i: nat): nat
    requires i > 0
  {
    (i - 1) / 2
  }

  ghost predicate Ordered<P>(h: seq<SimEvent<P>>, i: nat)
    requires 0 < i < |h|
  {
    !Before(h[i], h[Parent(i)])
  }

  ghost predicate HeapOrder<P>(h: seq<SimEvent<P>>) {
    forall i :: 0 < i < |h| ==> Ordered(h, i)
  }

  ghost function Elements<P>(h: seq<SimEvent<P>>): set<SimEvent<P>> {
    set e | e in h
  }

  ghost function Ids<P>(h: seq<SimEvent<P>>): set<Text> {
    set e | e in h :: e.id
  }

  ghost predicate Distinct<P>(h: seq<SimEvent<P>>) {
    forall i, j :: 0 <= i < j < |h| ==> h[i].id != h[j].id && h[i].sequenceNum != h[j].sequenceNum
  }

  /** The index map knows the position of every event, and of nothing else. */
  ghost predicate Indexed<P>(h: seq<SimEvent<P>>, index: map<Text, nat>) {
    && index.Keys == Ids(h)
    && forall i :: 0 <= i < |h| ==> h[i].id in index && index[h[i].id] == i
  }

  function Swapped<P>(h: seq<SimEvent<P>>, i: nat, j: nat): seq<SimEvent<P>>
    requires i < |h| && j < |h|
  {
    h[i := h[j]][j := h[i]]
  }

  lemma {:induction false} SwappedKeeps<P>(h: seq<SimEvent<P>>, i: nat, j: nat)
    requires i < |h| && j < |h|
    ensures Elements(Swapped(h, i, j)) == Elements(h) && Ids(Swapped(h, i, j)) == Ids(h)
    ensures Distinct(h) ==> Distinct(Swapped(h, i, j))
  {
    var s := Swapped(h, i, j);
    assert s[i] == h[j] && s[j] == h[i];
    forall e | e in h ensures e in s {
      var k :| 0 <= k < |h| && h[k] == e;
      assert s[if k == i then j else if k == j then i else k] == e;
    }
    forall e | e in s ensures e in h {}
    assert Elements(s) == Elements(h);
  }

  lemma {:induction false} SwappedIndexed<P>(h: seq<SimEvent<P>>, index: map<Text, nat>, i: nat, j: nat)
    requires i < |h| && j < |h| && i != j && Distinct(h) && Indexed(h, index)
    ensures Indexed(Swapped(h, i, j), index[h[j].id := i][h[i].id := j])
  {
    SwappedKeeps(h, i, j);
    var g, index' := Swapped(h, i, j), index[h[j].id := i][h[i].id := j];
    assert h[i].id in index && h[j].id in index;
    assert index'.Keys == index.Keys;
    forall k | 0 <= k < |g| ensures g[k].id in index' && index'[g[k].id] == k {
      SwappedAt(h, i, j, k);
    }
  }

  lemma {:induction false} SwappedAt<P>(h: seq<SimEvent<P>>, i: nat, j: nat, k: nat)
    requires i < |h| && j < |h| && i != j && k < |h| && Distinct(h)
    ensures var g := Swapped(h, i, j);
            if k == i then g[k] == h[j]
            else if k == j then g[k] == h[i]
            else g[k] == h[k] && g[k].id != h[i].id && g[k].id != h[j].id
  {
  }

  // ---------- one step of each sift, on the bare heap ----------

  /** A heap whose only misplaced event, `curr`, may have to rise. */
  ghost predicate RisingAt<P>(h: seq<SimEvent<P>>, curr: nat)
    requires curr < |h|
  {
    && (forall i :: 0 < i < |h| && i != curr ==> Ordered(h, i))
    && (curr > 0 ==> forall i :: 0 < i < |h| && Parent(i) == curr ==> !Before(h[i], h[Parent(curr)]))
  }

  lemma {:induction false} RiseStep<P>(h: seq<SimEvent<P>>, curr: nat)
    requires 0 < curr < |h| && RisingAt(h, curr) && Before(h[curr], h[Parent(curr)])
    ensures RisingAt(Swapped(h, curr, Parent(curr)), Parent(curr))
  {
    var p := Parent(curr);
    var g := Swapped(h, curr, p);
    assert g[p] == h[curr] && g[curr] == h[p];
    assert forall i :: 0 <= i < |h| && i != p && i != curr ==> g[i] == h[i];
    forall i | 0 < i < |g| && i != p ensures Ordered(g, i) {
      assert i != curr ==> Ordered(h, i);
    }
    if p > 0 {
      assert Ordered(h, p);
      forall i | 0 < i < |g| && Parent(i) == p ensures !Before(g[i], g[Parent(p)]) {
        assert i != curr ==> Ordered(h, i);
      }
    }
  }

  lemma {:induction false} RiseDone<P>(h: seq<SimEvent<P>>, curr: nat)
    requires curr < |h| && RisingAt(h, curr)
    requires curr > 0 ==> !Before(h[curr], h[Parent(curr)])
    ensures HeapOrder(h)
  {
  }

  /** The order holds at and below `index`, except that `curr` may have to sink. */
  ghost predicate SinkingAt<P>(h: seq<SimEvent<P>>, index: nat, curr: nat) {
    && (forall i :: 0 < i < |h| && Parent(i) >= index && Parent(i) != curr ==> Ordered(h, i))
    && (index == curr || (index < curr && Parent(curr) >= index))
    && (index < curr < |h| ==>
          forall i :: 0 < i < |h| && Parent(i) == curr ==> !Before(h[i], h[Parent(curr)]))
  }

  /** `child` is the lesser child of `curr`. */
  ghost predicate LesserChild<P>(h: seq<SimEvent<P>>, curr: nat, child: nat)
  {
    && 0 < child < |h| && Parent(child) == curr
    && forall i :: 0 < i < |h| && Parent(i) == curr ==> !Before(h[i], h[child])
  }

  lemma {:induction false} SinkStep<P>(h: seq<SimEvent<P>>, index: nat, curr: nat, child: nat)
    requires SinkingAt(h, index, curr) && LesserChild(h, curr, child) && Before(h[child], h[curr])
    ensures SinkingAt(Swapped(h, curr, child), index, child)
  {
    var g := Swapped(h, curr, child);
    assert g[curr] == h[child] && g[child] == h[curr];
    assert forall i :: 0 <= i < |h| && i != child && i != curr ==> g[i] == h[i];
    forall i | 0 < i < |g| && Parent(i) >= index && Parent(i) != child ensures Ordered(g, i) {
      assert Parent(i) != curr ==> Ordered(h, i);
    }
    forall i | 0 < i < |g| && Parent(i) == child ensures !Before(g[i], g[curr]) {
      assert Ordered(h, i);
    }
  }

  lemma {:induction false} SinkDone<P>(h: seq<SimEvent<P>>, index: nat, curr: nat)
    requires SinkingAt(h, index, curr)
    requires forall i :: 0 < i < |h| && Parent(i) == curr ==> Ordered(h, i)
    ensures forall i :: 0 < i < |h| && Parent(i) >= index ==> Ordered(h, i)
  {
  }

  /** In a heap no event precedes the root. */
  lemma {:induction false} RootFirst<P>(h: seq<SimEvent<P>>, i: nat)
    requires HeapOrder(h) && i < |h|
    ensures !Before(h[i], h[0])
  {
    if i > 0 {
      RootFirst(h, Parent(i));
      assert Ordered(h, i);
    }
  }

  lemma {:induction false} DistinctUnique<P>(h: seq<SimEvent<P>>)
    requires Distinct(h)
    ensures Unique(Elements(h))
  {
    forall a, b | a in Elements(h) && b in Elements(h) && a != b
      ensures a.id != b.id && a.sequenceNum != b.sequenceNum
    {
      var i :| 0 <= i < |h| && h[i] == a;
      var j :| 0 <= j < |h| && h[j] == b;
    }
  }

  lemma {:induction false} RootLeast<P>(h: seq<SimEvent<P>>)
    requires HeapOrder(h) && Distinct(h) && h != []
    ensures Unique(Elements(h)) && IsLeast(h[0], Elements(h))
  {
    DistinctUnique(h);
    forall e | e in Elements(h) && e != h[0] ensures Before(h[0], e) {
      var i :| 0 <= i < |h| && h[i] == e;
      RootFirst(h, i);
    }
  }

  /** The state a checkpoint keeps of a queue. */
  datatype Snapshot<P> = Snapshot(nextSequence: nat, events: seq<SimEvent<P>>)

  class EventQueue<P(==)> {
    var heap: seq<SimEvent<P>>
    var eventIndexMap: map<Text, nat>
    var nextSequenceNum: nat

    ghost predicate Valid()
      reads this
    {
      && HeapOrder(heap)
      && Distinct(heap)
      && Indexed(heap, eventIndexMap)
      && forall e :: e in Elements(heap) ==> e.sequenceNum < nextSequenceNum
    }

    /** The abstract queue this heap represents. */
    ghost function Abstract(): Queue<P>
      reads this
    {
      Queue(Elements(heap), nextSequenceNum)
    }

    lemma {:induction false} AbstractWellFormed()
      requires Valid()
      ensures WellFormed(Abstract())
    {
      DistinctUnique(heap);
    }

    constructor ()
      ensures Valid() && Abstract() == Queue({}, 0)
    {
      heap := [];
      eventIndexMap := map[];
      nextSequenceNum := 0;
    }

    method Size() returns (n: nat)
      requires Valid()
      ensures n == |Abstract().stored|
    {
      n := |heap|;
      DistinctSize(heap);
    }

    method IsEmpty() returns (empty: bool)
      ensures empty <==> Abstract().stored == {}
    {
      empty := |heap| == 0;
      assert heap != [] ==> heap[|heap| - 1] in Elements(heap);
    }

    method Push(timeUs: int, eventType: Text, payload: P, priority: int := 0, customId: Option<Text> := None)
      returns (event: SimEvent<P>)
      requires Valid()
      requires forall e :: e in Abstract().stored ==>
                 e.id != if customId.Some? then customId.value else AutoId(nextSequenceNum, timeUs)
      modifies this
      ensures Valid()
      ensures event == SimEvent(
                if customId.Some? then customId.value else AutoId(old(nextSequenceNum), timeUs),
                timeUs, priority, old(nextSequenceNum), eventType, payload, false)
      ensures Abstract() == Events.Push(old(Abstract()), event)
    {
      var sequenceNum := nextSequenceNum;
      nextSequenceNum := nextSequenceNum + 1;
      var id := if customId.Some? then customId.value else AutoId(sequenceNum, timeUs);
      event := SimEvent(id, timeUs, priority, sequenceNum, eventType, payload, false);
      AppendLast(event);
      SiftUp(|heap| - 1);
    }

    method AppendLast(event: SimEvent<P>)
      requires HeapOrder(heap) && Distinct(heap) && Indexed(heap, eventIndexMap)
      requires forall e :: e in Elements(heap) ==> e.id != event.id && e.sequenceNum < event.sequenceNum
      modifies this`heap, this`eventIndexMap
      ensures |heap| == |old(heap)| + 1 && RisingAt(heap, |heap| - 1)
      ensures Distinct(heap) && Indexed(heap, eventIndexMap)
      ensures Elements(heap) == Elements(old(heap)) + {event}
      ensures forall e :: e in Elements(heap) ==> e.sequenceNum <= event.sequenceNum
    {
      NewToAll(heap, event);
      Appended(heap, event);
      AppendedIndexed(heap, eventIndexMap, event);
      heap := heap + [event];
      var index := |heap| - 1;
      eventIndexMap := eventIndexMap[event.id := index];
    }

    method Peek() returns (event: Option<SimEvent<P>>)
      requires Valid()
      modifies this
      ensures Valid() && WellFormed(old(Abstract()))
      ensures event == Front(old(Abstract())) && Abstract() == Prune(old(Abstract()))
      ensures event.None? <==> forall x :: x in old(Abstract()).stored ==> x.cancelled
      ensures event.Some? ==>
                && event.value in old(Abstract()).stored && !event.value.cancelled
                && forall x :: x in old(Abstract()).stored && !x.cancelled && x != event.value ==>
                     || event.value.timeUs < x.timeUs
                     || (event.value.timeUs == x.timeUs && (event.value.priority < x.priority
                         || (event.value.priority == x.priority && event.value.sequenceNum < x.sequenceNum)))
    {
      AbstractWellFormed();
      FrontIsEarliest(Abstract());
      PruneCancelled();
      if |heap| > 0 {
        event := Some(heap[0]);
      } else {
        event := None;
      }
    }

    method Pop() returns (event: Option<SimEvent<P>>)
      requires Valid()
      modifies this
      ensures Valid() && WellFormed(old(Abstract()))
      ensures event == Front(old(Abstract())) && Abstract() == Events.Pop(old(Abstract()))
      ensures event.None? <==> forall x :: x in old(Abstract()).stored ==> x.cancelled
      ensures event.Some? ==>
                && event.value in old(Abstract()).stored && !event.value.cancelled
                && forall x :: x in old(Abstract()).stored && !x.cancelled && x != event.value ==>
                     || event.value.timeUs < x.timeUs
                     || (event.value.timeUs == x.timeUs && (event.value.priority < x.priority
                         || (event.value.priority == x.priority && event.value.sequenceNum < x.sequenceNum)))
    {
      AbstractWellFormed();
      FrontIsEarliest(Abstract());
      PruneKeepsLive(Abstract());
      PruneCancelled();
      if |heap| == 0 {
        return None;
      }
      RootLeast(heap);
      event := Some(heap[0]);
      ghost var stored := Elements(heap);
      ghost var root := heap[0];
      LeastFirst(root, stored);
      RemoveRoot();
    }

    /** Cancels a live event, and says whether there was one with this id. */
    method Cancel(eventId: Text) returns (cancelled: bool)
      requires Valid()
      modifies this
      ensures Valid()
      ensures cancelled <==> HasLive(old(Abstract()), eventId)
      ensures Abstract() == Events.Cancel(old(Abstract()), eventId)
    {
      ghost var q := Abstract();
      AbstractWellFormed();
      if eventId in eventIndexMap {
        var idx := eventIndexMap[eventId];
        IndexedPosition(heap, eventIndexMap, eventId);
        if idx < |heap| {
          var ev := heap[idx];
          if ev.id == eventId && !ev.cancelled {
            assert ev in Live(Elements(heap));
            heap := heap[idx := ev.(cancelled := true)];
            CancelAt(old(heap), idx);
            CancelOne(q, ev);
            return true;
          }
        }
      }
      cancelled := false;
      NotLive(heap, eventIndexMap, eventId);
      CancelNone(q, eventId);
    }

    method SerializeState() returns (state: Snapshot<P>)
      requires Valid()
      ensures state.nextSequence == nextSequenceNum
      ensures Elements(state.events) == Live(Abstract().stored)
      ensures Distinct(state.events)
    {
      var events := [];
      for i := 0 to |heap|
        invariant Elements(events) == Live(Elements(heap[..i]))
        invariant Distinct(events)
      {
        assert heap[..i + 1] == heap[..i] + [heap[i]];
        assert Elements(heap[..i + 1]) == Elements(heap[..i]) + {heap[i]};
        if !heap[i].cancelled {
          forall e | e in events ensures e.id != heap[i].id && e.sequenceNum != heap[i].sequenceNum {
            assert e in Elements(events);
            var k :| 0 <= k < |heap[..i]| && heap[..i][k] == e;
          }
          assert Elements(events + [heap[i]]) == Elements(events) + {heap[i]};
          events := events + [heap[i]];
        }
      }
      assert heap[..|heap|] == heap;
      state := Snapshot(nextSequenceNum, events);
    }

    /** Whatever was queued before, the queue becomes the one in the snapshot. */
    method RestoreState(state: Snapshot<P>)
      requires Distinct(state.events)
      requires forall e :: e in state.events ==> e.sequenceNum < state.nextSequence
      modifies this
      ensures Valid()
      ensures Abstract() == Queue(Elements(state.events), state.nextSequence)
    {
      nextSequenceNum := state.nextSequence;
      heap := [];
      eventIndexMap := map[];
      for k := 0 to |state.events|
        invariant heap == state.events[..k] && eventIndexMap == map[]
        invariant nextSequenceNum == state.nextSequence
      {
        heap := heap + [state.events[k]];
      }
      assert heap == state.events;
      Heapify();
      Reindex();
    }

    /** Rebuilds the heap order bottom up. Swaps may put entries into the index on the way. */
    method Heapify()
      requires Distinct(heap) && eventIndexMap == map[]
      modifies this`heap, this`eventIndexMap
      ensures HeapOrder(heap) && Distinct(heap) && Elements(heap) == Elements(old(heap))
      ensures eventIndexMap.Keys <= Ids(heap)
    {
      ghost var all := Elements(heap);
      var i := |heap| / 2;
      while i >= 0
        invariant -1 <= i <= |heap| / 2
        invariant Distinct(heap) && Elements(heap) == all
        invariant eventIndexMap.Keys <= Ids(heap)
        invariant forall j :: 0 < j < |heap| && Parent(j) >= i + 1 ==> Ordered(heap, j)
      {
        SiftDown(i);
        i := i - 1;
      }
      HeapOrderFrom(heap);
    }

    method Reindex()
      requires Distinct(heap) && eventIndexMap.Keys <= Ids(heap)
      modifies this`eventIndexMap
      ensures Indexed(heap, eventIndexMap)
    {
      for k := 0 to |heap|
        invariant eventIndexMap.Keys <= Ids(heap)
        invariant forall j :: 0 <= j < k ==> heap[j].id in eventIndexMap && eventIndexMap[heap[j].id] == j
      {
        assert heap[k] in heap;
        eventIndexMap := eventIndexMap[heap[k].id := k];
      }
      assert Ids(heap) <= eventIndexMap.Keys;
    }

    method SiftUp(index: nat)
      requires index < |heap| && Distinct(heap) && Indexed(heap, eventIndexMap)
      requires RisingAt(heap, index)
      modifies this`heap, this`eventIndexMap
      ensures HeapOrder(heap) && Distinct(heap) && Indexed(heap, eventIndexMap)
      ensures Elements(heap) == Elements(old(heap)) && Ids(heap) == Ids(old(heap)) && |heap| == |old(heap)|
    {
      var curr: nat := index;
      while curr > 0
        invariant curr < |heap| == |old(heap)|
        invariant Distinct(heap) && Indexed(heap, eventIndexMap)
        invariant Elements(heap) == Elements(old(heap)) && Ids(heap) == Ids(old(heap))
        invariant RisingAt(heap, curr)
      {
        var parent := (curr - 1) / 2;
        if Compare(heap[curr], heap[parent]) < 0 {
          RiseStep(heap, curr);
          Swap(curr, parent);
          curr := parent;
        } else {
          break;
        }
      }
      RiseDone(heap, curr);
    }

    /** Restores the order at and below `index`, provided it holds everywhere further down. */
    method SiftDown(index: nat)
      requires Distinct(heap)
      requires SinkingAt(heap, index, index)
      modifies this`heap, this`eventIndexMap
      ensures forall i :: 0 < i < |heap| && Parent(i) >= index ==> Ordered(heap, i)
      ensures Distinct(heap)
      ensures Elements(heap) == Elements(old(heap)) && Ids(heap) == Ids(old(heap)) && |heap| == |old(heap)|
      ensures old(Indexed(heap, eventIndexMap)) ==> Indexed(heap, eventIndexMap)
      ensures eventIndexMap.Keys <= old(eventIndexMap).Keys + Ids(heap)
    {
      var curr: nat := index;
      var len := |heap|;
      ghost var all, ids, keys, indexed := Elements(heap), Ids(heap), eventIndexMap.Keys, Indexed(heap, eventIndexMap);
      while 2 * curr + 1 < len
        invariant |heap| == len && Distinct(heap) && Elements(heap) == all && Ids(heap) == ids
        invariant indexed ==> Indexed(heap, eventIndexMap)
        invariant eventIndexMap.Keys <= keys + ids
        invariant SinkingAt(heap, index, curr)
        decreases len - curr
      {
        var smallest := LesserChildOf(curr);
        if Compare(heap[smallest], heap[curr]) < 0 {
          SinkStep(heap, index, curr, smallest);
          Swap(curr, smallest);
          curr := smallest;
        } else {
          break;
        }
      }
      SinkDone(heap, index, curr);
    }

    method LesserChildOf(curr: nat) returns (smallest: nat)
      requires 2 * curr + 1 < |heap|
      ensures LesserChild(heap, curr, smallest)
    {
      smallest := 2 * curr + 1;
      var right := smallest + 1;
      if right < |heap| && Compare(heap[right], heap[smallest]) < 0 {
        smallest := right;
      }
      forall i | 0 < i < |heap| && Parent(i) == curr ensures !Before(heap[i], heap[smallest]) {
        assert i == 2 * curr + 1 || i == 2 * curr + 2;
      }
    }

    method Swap(i: nat, j: nat)
      requires i < |heap| && j < |heap| && i != j && Distinct(heap)
      modifies this`heap, this`eventIndexMap
      ensures heap == Swapped(old(heap), i, j) && Distinct(heap)
      ensures Elements(heap) == Elements(old(heap)) && Ids(heap) == Ids(old(heap))
      ensures old(Indexed(heap, eventIndexMap)) ==> Indexed(heap, eventIndexMap)
      ensures eventIndexMap.Keys <= old(eventIndexMap).Keys + Ids(heap)
    {
      SwappedKeeps(heap, i, j);
      ghost var before, index := heap, eventIndexMap;
      var temp := heap[i];
      heap := heap[i := heap[j]];
      heap := heap[j := temp];
      eventIndexMap := eventIndexMap[heap[i].id := i];
      eventIndexMap := eventIndexMap[heap[j].id := j];
      if Indexed(before, index) {
        SwappedIndexed(before, index, i, j);
      }
    }

    /** Removes the root: the last event takes its place and sinks. */
    method RemoveRoot()
      requires Valid() && |heap| > 0
      modifies this`heap, this`eventIndexMap
      ensures Valid()
      ensures Elements(heap) == Elements(old(heap)) - {old(heap)[0]} && |heap| == |old(heap)| - 1
    {
      MoveLastToRoot();
      if |heap| > 0 {
        SiftDown(0);
        HeapOrderFrom(heap);
      }
    }

    method MoveLastToRoot()
      requires Valid() && |heap| > 0
      modifies this`heap, this`eventIndexMap
      ensures SinkingAt(heap, 0, 0) && Distinct(heap) && Indexed(heap, eventIndexMap)
      ensures Elements(heap) == Elements(old(heap)) - {old(heap)[0]} && |heap| == |old(heap)| - 1
    {
      var root, last := heap[0], heap[|heap| - 1];
      ghost var before, index := heap, eventIndexMap;
      eventIndexMap := Without(eventIndexMap, root.id);
      heap := heap[..|heap| - 1];
      if |heap| > 0 {
        heap := heap[0 := last];
        eventIndexMap := eventIndexMap[last.id := 0];
      }
      LastMoved(before, index, heap, eventIndexMap);
    }

    method PruneCancelled()
      requires Valid()
      modifies this`heap, this`eventIndexMap
      ensures Valid() && WellFormed(old(Abstract()))
      ensures Abstract() == Prune(old(Abstract()))
      ensures Front(old(Abstract())) == if heap == [] then None else Some(heap[0])
    {
      AbstractWellFormed();
      while |heap| > 0 && heap[0].cancelled
        invariant Valid() && WellFormed(Abstract())
        invariant Prune(Abstract()) == Prune(old(Abstract()))
        invariant Front(Abstract()) == Front(old(Abstract()))
        decreases |heap|
      {
        RootLeast(heap);
        ghost var q := Abstract();
        ghost var root := heap[0];
        RemoveRoot();
        AbstractWellFormed();
        PruneDropsCancelledLeast(q, root);
      }
      if heap != [] { RootLeast(heap); }
      PruneLiveRoot(Abstract(), heap);
    }
  }

  lemma {:induction false} NewToAll<P>(h: seq<SimEvent<P>>, e: SimEvent<P>)
    requires forall x :: x in Elements(h) ==> x.id != e.id && x.sequenceNum < e.sequenceNum
    ensures forall x :: x in h ==> x.id != e.id && x.sequenceNum != e.sequenceNum
  {
    forall x | x in h ensures x.id != e.id && x.sequenceNum != e.sequenceNum {
      assert x in Elements(h);
    }
  }

  lemma {:induction false} Appended<P>(h: seq<SimEvent<P>>, e: SimEvent<P>)
    requires HeapOrder(h) && Distinct(h)
    requires forall x :: x in h ==> x.id != e.id && x.sequenceNum != e.sequenceNum
    ensures Distinct(h + [e]) && RisingAt(h + [e], |h|)
    ensures Elements(h + [e]) == Elements(h) + {e} && Ids(h + [e]) == Ids(h) + {e.id}
  {
    var g := h + [e];
    assert forall i :: 0 <= i < |h| ==> g[i] == h[i] && g[i] in h;
    forall i | 0 < i < |h| ensures Ordered(g, i) {
      assert Ordered(h, i);
    }
    assert e in g;
    forall x | x in h ensures x in g {}
    forall x | x in g ensures x in h || x == e {}
  }

  lemma {:induction false} AppendedIndexed<P>(h: seq<SimEvent<P>>, index: map<Text, nat>, e: SimEvent<P>)
    requires Indexed(h, index) && forall x :: x in h ==> x.id != e.id
    ensures Indexed(h + [e], index[e.id := |h|])
  {
    var g := h + [e];
    forall i | 0 <= i < |h| ensures g[i] == h[i] && g[i].id != e.id {
      assert h[i] in h;
    }
    assert Ids(g) == Ids(h) + {e.id} by {
      assert e in g;
      forall x | x in h ensures x in g {}
    }
  }

  lemma {:induction false} LeastFirst<P>(root: SimEvent<P>, stored: set<SimEvent<P>>)
    requires IsLeast(root, stored)
    ensures stored - {root} == set x | x in stored && Before(root, x)
  {
  }

  lemma {:induction false} RootReplaced<P>(h: seq<SimEvent<P>>, g: seq<SimEvent<P>>)
    requires HeapOrder(h) && Distinct(h) && |h| > 1
    requires g == h[..|h| - 1][0 := h[|h| - 1]]
    ensures SinkingAt(g, 0, 0)
    ensures Distinct(g) && Elements(g) == Elements(h) - {h[0]} && Ids(g) == Ids(h) - {h[0].id}
  {
    forall e | e in h && e != h[0] ensures e in g {
      var k :| 0 <= k < |h| && h[k] == e;
      assert g[if k == |h| - 1 then 0 else k] == e;
    }
    forall i | 0 <= i < |g| ensures g[i] in h && g[i].id != h[0].id {}
    forall i | 0 < i < |g| && Parent(i) > 0 ensures Ordered(g, i) {
      assert Ordered(h, i);
    }
    assert Elements(g) == Elements(h) - {h[0]};
  }

  function Without(index: map<Text, nat>, id: Text): map<Text, nat> {
    map k | k in index && k != id :: index[k]
  }

  lemma {:induction false} SingleUnindexed<P>(h: seq<SimEvent<P>>, index: map<Text, nat>)
    requires Indexed(h, index) && |h| == 1
    ensures var g := h[..|h| - 1];
            && SinkingAt(g, 0, 0) && Distinct(g) && Elements(g) == Elements(h) - {h[0]}
            && Indexed(g, Without(index, h[0].id))
  {
    assert h == [h[0]];
    assert Ids(h) == {h[0].id};
    assert Without(index, h[0].id).Keys == {};
  }

  lemma {:induction false} RootUnindexed<P>(h: seq<SimEvent<P>>, index: map<Text, nat>)
    requires HeapOrder(h) && Distinct(h) && Indexed(h, index) && |h| > 1
    ensures var g := h[..|h| - 1][0 := h[|h| - 1]];
            && SinkingAt(g, 0, 0) && Distinct(g) && Elements(g) == Elements(h) - {h[0]}
            && Indexed(g, Without(index, h[0].id)[h[|h| - 1].id := 0])
  {
    RootReplaced(h, h[..|h| - 1][0 := h[|h| - 1]]);
  }

  lemma {:induction false} LastMoved<P>(
    h: seq<SimEvent<P>>, index: map<Text, nat>, g: seq<SimEvent<P>>, index': map<Text, nat>)
    requires HeapOrder(h) && Distinct(h) && Indexed(h, index) && h != []
    requires g == if |h| > 1 then h[..|h| - 1][0 := h[|h| - 1]] else h[..|h| - 1]
    requires index' == if |h| > 1 then Without(index, h[0].id)[h[|h| - 1].id := 0] else Without(index, h[0].id)
    ensures SinkingAt(g, 0, 0) && Distinct(g) && Elements(g) == Elements(h) - {h[0]} && Indexed(g, index')
  {
    if |h| > 1 {
      RootUnindexed(h, index);
    } else {
      SingleUnindexed(h, index);
    }
  }

  lemma {:induction false} HeapOrderFrom<P>(h: seq<SimEvent<P>>)
    requires forall i :: 0 < i < |h| && Parent(i) >= 0 ==> Ordered(h, i)
    ensures HeapOrder(h)
  {
  }

  lemma {:induction false} PruneDropsCancelledLeast<P>(q: Queue<P>, root: SimEvent<P>)
    requires WellFormed(q) && IsLeast(root, q.stored) && root.cancelled
    ensures WellFormed(q.(stored := q.stored - {root}))
    ensures Prune(q.(stored := q.stored - {root})) == Prune(q)
    ensures Front(q.(stored := q.stored - {root})) == Front(q)
  {
    var rest := q.(stored := q.stored - {root});
    assert Live(rest.stored) == Live(q.stored);
    if Live(q.stored) != {} {
      assert Before(root, Least(Live(q.stored)));
      assert Prune(rest).stored == Prune(q).stored;
    }
  }

  lemma {:induction false} PruneLiveRoot<P>(q: Queue<P>, h: seq<SimEvent<P>>)
    requires WellFormed(q) && q.stored == Elements(h)
    requires h != [] ==> IsLeast(h[0], q.stored) && !h[0].cancelled
    ensures Prune(q) == q
    ensures Front(q) == if h == [] then None else Some(h[0])
  {
    if h == [] {
      assert Live(q.stored) == {};
    } else {
      assert h[0] in Live(q.stored);
      LeastUnique(h[0], Live(q.stored));
      assert Prune(q).stored == q.stored;
    }
  }

  lemma {:induction false} DistinctSize<P>(h: seq<SimEvent<P>>)
    requires Distinct(h)
    ensures |Elements(h)| == |h|
  {
    if h == [] {
      assert Elements(h) == {};
    } else {
      var n: nat := |h| - 1;
      var front, last := h[..n], h[n];
      DistinctSize(front);
      assert h == front + [last];
      assert last !in front;
      assert Elements(h) == Elements(front) + {last};
    }
  }

  lemma {:induction false} IndexedPosition<P>(h: seq<SimEvent<P>>, index: map<Text, nat>, id: Text)
    requires Indexed(h, index) && id in index
    ensures index[id] < |h| && h[index[id]].id == id
  {
    assert id in Ids(h);
    var e :| e in h && e.id == id;
    var i :| 0 <= i < |h| && h[i] == e;
  }

  lemma {:induction false} NotLive<P>(h: seq<SimEvent<P>>, index: map<Text, nat>, id: Text)
    requires Indexed(h, index)
    requires id in index ==> index[id] >= |h| || h[index[id]].id != id || h[index[id]].cancelled
    ensures forall e :: e in Live(Elements(h)) ==> e.id != id
  {
    forall e | e in Live(Elements(h)) ensures e.id != id {
      var i :| 0 <= i < |h| && h[i] == e;
      assert index[h[i].id] == i;
    }
  }

  /** Setting the flag of one event keeps the heap and its index. */
  lemma {:induction false} CancelAt<P>(h: seq<SimEvent<P>>, idx: nat)
    requires idx < |h| && Distinct(h) && HeapOrder(h)
    ensures var g := h[idx := h[idx].(cancelled := true)];
            && Distinct(g) && Ids(g) == Ids(h) && HeapOrder(g)
            && Elements(g) == (Elements(h) - {h[idx]}) + {h[idx].(cancelled := true)}
  {
    var c := h[idx].(cancelled := true);
    var g := h[idx := c];
    assert forall i :: 0 <= i < |h| && i != idx ==> g[i] == h[i];
    forall e | e in h && e != h[idx] ensures e in g {
      var i :| 0 <= i < |h| && h[i] == e;
      assert g[i] == e;
    }
    assert g[idx] == c;
    assert Elements(g) == (Elements(h) - {h[idx]}) + {c};
    assert h[idx] in h;
    assert Ids(g) == Ids(h);
    forall i | 0 < i < |g| ensures Ordered(g, i) { assert Ordered(h, i); }
  }

  lemma {:induction false} CancelNone<P>(q: Queue<P>, id: Text)
    requires WellFormed(q) && forall e :: e in Live(q.stored) ==> e.id != id
    ensures Events.Cancel(q, id) == q && !HasLive(q, id)
  {
    forall e | e in q.stored && e.id == id ensures e.(cancelled := true) == e {
      assert e !in Live(q.stored);
    }
    assert Events.Cancel(q, id).stored == q.stored;
  }

  lemma {:induction false} CancelOne<P>(q: Queue<P>, e: SimEvent<P>)
    requires WellFormed(q) && e in q.stored
    ensures Events.Cancel(q, e.id).stored == (q.stored - {e}) + {e.(cancelled := true)}
  {
    var c := Events.Cancel(q, e.id);
    forall x | x in q.stored && x.id == e.id ensures x == e {}
    assert e.(cancelled := true) in c.stored;
  }
}
