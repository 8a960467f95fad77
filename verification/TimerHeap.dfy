/**
  The timer queue of Src/utility/dm_timer.c: a binary min-heap on timeouts kept in an array. Both
  sifting loops move a hole instead of swapping, so mid-loop the array holds one event twice and
  another not at all. The proofs follow `v`, the array with the missing event put into the hole.
*/
module TimerHeap {
  import opened Wrappers

  datatype Event = Event(timeout: int, callback: nat)

  ghost predicate Edge(s: seq<Event>, p: int, j: int) {
    0 <= p < |s| && 0 <= j < |s| && s[p].timeout <= s[j].timeout
  }

  function Parent(j: int): int { (j - 1) / 2 }

  /** Every event but the root is no earlier than its parent. */
  ghost predicate Ordered(s: seq<Event>) {
    forall j {:trigger Parent(j)} | 0 < j < |s| :: Edge(s, Parent(j), j)
  }

  lemma {:induction false} RootIsMin(s: seq<Event>, k: nat)
    requires Ordered(s) && k < |s|
    ensures s[0].timeout <= s[k].timeout
  {
    if k > 0 {
      assert Edge(s, Parent(k), k);
      RootIsMin(s, Parent(k));
    }
  }

  /** Ordered except that v[i] may be earlier than its parent. */
  ghost predicate UpTo(v: seq<Event>, i: nat) {
    && (forall j {:trigger Parent(j)} | 0 < j < |v| && j != i :: Edge(v, Parent(j), j))
    && (forall j {:trigger Parent(j)} | 0 < j < |v| && Parent(j) == i && 0 < i :: Edge(v, Parent(i), j))
  }

  /** Ordered except that v[i] may be later than its children. */
  ghost predicate DownTo(v: seq<Event>, i: nat) {
    && (forall j {:trigger Parent(j)} | 0 < j < |v| && Parent(j) != i :: Edge(v, Parent(j), j))
    && (forall j {:trigger Parent(j)} | 0 < j < |v| && Parent(j) == i && 0 < i :: Edge(v, Parent(i), j))
  }

  function Swap(v: seq<Event>, i: nat, p: nat): (w: seq<Event>)
    requires i < |v| && p < |v|
    ensures |w| == |v| && multiset(w) == multiset(v)
    ensures forall j | 0 <= j < |v| :: w[j] == if j == i then v[p] else if j == p then v[i] else v[j]
  {
    v[i := v[p]][p := v[i]]
  }

  lemma {:induction false} SiftUpStep(v: seq<Event>, i: nat)
    requires 0 < i < |v| && UpTo(v, i) && v[i].timeout < v[Parent(i)].timeout
    ensures UpTo(Swap(v, i, Parent(i)), Parent(i))
  {
    var p := Parent(i);
    var w := Swap(v, i, p);
    forall j | 0 < j < |w| && j != p ensures Edge(w, Parent(j), j) {
      assert j != i ==> Edge(v, Parent(j), j);
      assert Parent(j) == i ==> Edge(v, p, j);
    }
    if 0 < p {
      forall j | 0 < j < |w| && Parent(j) == p ensures Edge(w, Parent(p), j) {
        assert Edge(v, Parent(p), p);
        assert j != i ==> Edge(v, p, j);
      }
    }
  }

  lemma {:induction false} SiftUpDone(v: seq<Event>, i: nat)
    requires i < |v| && UpTo(v, i) && (0 < i ==> v[Parent(i)].timeout <= v[i].timeout)
    ensures Ordered(v)
  {
    forall j | 0 < j < |v| ensures Edge(v, Parent(j), j) { }
  }

  lemma {:induction false} SiftDownStep(v: seq<Event>, i: nat, a: nat)
    requires i < |v| && 0 < a < |v| && Parent(a) == i && DownTo(v, i) && v[a].timeout < v[i].timeout
    requires forall b {:trigger Parent(b)} | 0 < b < |v| && Parent(b) == i :: v[a].timeout <= v[b].timeout
    ensures DownTo(Swap(v, i, a), a)
  {
    var w := Swap(v, i, a);
    forall j | 0 < j < |w| && Parent(j) != a ensures Edge(w, Parent(j), j) {
      assert Parent(j) != i ==> Edge(v, Parent(j), j);
      assert j == i ==> Edge(v, Parent(i), a);
    }
    forall j | 0 < j < |w| && Parent(j) == a ensures Edge(w, i, j) {
      assert Edge(v, a, j);
    }
  }

  lemma {:induction false} SiftDownDone(v: seq<Event>, i: nat)
    requires i < |v| && DownTo(v, i)
    requires forall b {:trigger Parent(b)} | 0 < b < |v| && Parent(b) == i :: v[i].timeout <= v[b].timeout
    ensures Ordered(v)
  {
    forall j | 0 < j < |v| ensures Edge(v, Parent(j), j) { }
  }

  /** The a-th event is the earliest child of the i-th. */
  lemma {:induction false} ChildrenOf(v: seq<Event>, i: nat, a: nat)
    requires a < |v| && (a == 2 * i + 1 || a == 2 * i + 2)
    requires v[2 * i + 1].timeout >= v[a].timeout && (2 * i + 2 < |v| ==> v[2 * i + 2].timeout >= v[a].timeout)
    ensures Parent(a) == i
    ensures forall b {:trigger Parent(b)} | 0 < b < |v| && Parent(b) == i :: v[a].timeout <= v[b].timeout
  {
    forall b | 0 < b < |v| && Parent(b) == i ensures v[a].timeout <= v[b].timeout {
      assert b == 2 * i + 1 || b == 2 * i + 2;
    }
  }

  /** Timeouts that have passed, in non-decreasing order. */
  ghost predicate Due(fired: seq<Event>, now: int) {
    && (forall i | 0 <= i < |fired| :: fired[i].timeout <= now)
    && (forall i, j | 0 <= i < j < |fired| :: fired[i].timeout <= fired[j].timeout)
  }

  lemma {:induction false} DueAppend(fired: seq<Event>, e: Event, now: int)
    requires Due(fired, now) && e.timeout <= now && (fired != [] ==> fired[|fired| - 1].timeout <= e.timeout)
    ensures Due(fired + [e], now)
  {
    forall i, j | 0 <= i < j < |fired + [e]| ensures (fired + [e])[i].timeout <= (fired + [e])[j].timeout {
      if j == |fired| && i < j - 1 { assert fired[i].timeout <= fired[|fired| - 1].timeout; }
    }
  }

  ghost predicate AllFrom(t: int, s: seq<Event>) {
    forall k | 0 <= k < |s| :: t <= s[k].timeout
  }

  lemma {:induction false} RootBelow(before: seq<Event>, after: seq<Event>)
    requires Ordered(before) && before != [] && multiset(after) + multiset{before[0]} == multiset(before)
    ensures AllFrom(before[0].timeout, after)
  {
    forall k | 0 <= k < |after| ensures before[0].timeout <= after[k].timeout {
      assert after[k] in multiset(after) && after[k] in multiset(before);
      var j :| 0 <= j < |before| && before[j] == after[k];
      RootIsMin(before, j);
    }
  }

  /** The heap without its last place, the last event standing in for the root. */
  ghost function Replaced(s: seq<Event>): (v: seq<Event>)
    requires |s| > 1
    ensures |v| == |s| - 1 && multiset(v) + multiset{s[0]} == multiset(s)
    ensures forall j | 0 < j < |v| :: v[j] == s[j]
    ensures v[0] == s[|s| - 1] && (Ordered(s) ==> DownTo(v, 0))
  {
    var n := |s| - 1;
    var v := s[..n][0 := s[n]];
    assert s == s[..n] + [s[n]];
    assert Ordered(s) ==> DownTo(v, 0) by {
      if Ordered(s) {
        forall j | 0 < j < |v| && Parent(j) != 0 ensures Edge(v, Parent(j), j) {
          assert Edge(s, Parent(j), j);
        }
      }
    }
    v
  }

  /** The array s is the heap v but for the hole at i. */
  ghost predicate Hole(s: seq<Event>, v: seq<Event>, i: nat) {
    |s| == |v| && i < |v| && forall j | 0 <= j < |v| && j != i :: s[j] == v[j]
  }

  lemma {:induction false} HoleMoves(s: seq<Event>, v: seq<Event>, i: nat, p: nat)
    requires Hole(s, v, i) && p < |v| && p != i
    ensures Hole(s[i := s[p]], Swap(v, i, p), p)
  {
  }

  lemma {:induction false} HoleFilled(s: seq<Event>, v: seq<Event>, i: nat)
    requires Hole(s, v, i)
    ensures s[i := v[i]] == v
  {
  }

  lemma {:induction false} SameBelow(s: seq<Event>, v: seq<Event>, i: nat)
    requires Hole(s, v, i)
    ensures 2 * i + 1 < |v| ==> s[2 * i + 1] == v[2 * i + 1]
    ensures 2 * i + 2 < |v| ==> s[2 * i + 2] == v[2 * i + 2]
  {
  }

  lemma {:induction false} AppendedUpTo(s: seq<Event>, event: Event)
    requires Ordered(s)
    ensures UpTo(s + [event], |s|)
  {
    forall j | 0 < j < |s| ensures Edge(s + [event], Parent(j), j) { assert Edge(s, Parent(j), j); }
  }

  /** The events fired so far and those left are all of them, and none left is earlier than one fired. */
  ghost predicate Progress(fired: seq<Event>, left: seq<Event>, now: int, all: multiset<Event>) {
    && multiset(fired) + multiset(left) == all && Due(fired, now)
    && (fired != [] ==> AllFrom(fired[|fired| - 1].timeout, left))
  }

  lemma {:induction false} Progresses(fired: seq<Event>, left: seq<Event>, now: int, all: multiset<Event>, e: Event,
      rest: seq<Event>)
    requires Progress(fired, left, now, all) && left != [] && e == left[0] && e.timeout <= now
    requires multiset(rest) + multiset{e} == multiset(left) && AllFrom(e.timeout, rest)
    ensures Progress(fired + [e], rest, now, all)
  {
    DueAppend(fired, e, now);
  }

  // ---------- runs ----------

  datatype HeapOp = PushOp(event: Event) | PopOp

  ghost predicate Earliest(e: Event, m: multiset<Event>) { e in m && forall f | f in m :: e.timeout <= f.timeout }

  /** What one operation does to the stored events: a push adds its event, and a pop of a heap that is not
      empty takes out and returns an earliest one. */
  ghost predicate Does(m: multiset<Event>, op: HeapOp, result: Option<Event>, n: multiset<Event>) {
    match op
    case PushOp(e) => n == m + multiset{e} && result == None
    case PopOp =>
      if m == multiset{} then n == m && result == None
      else result.Some? && Earliest(result.value, m) && n + multiset{result.value} == m
  }

  /** How many events are stored after an operation. */
  function SizeAfter(n: nat, op: HeapOp): nat {
    match op
    case PushOp(_) => n + 1
    case PopOp => if n == 0 then 0 else n - 1
  }

  /** Every push of the run finds a free place in an array of `cap` places. */
  predicate FitsIn(n: nat, ops: seq<HeapOp>, cap: nat)
    decreases |ops|
  {
    ops == [] || ((ops[0].PushOp? ==> n < cap) && FitsIn(SizeAfter(n, ops[0]), ops[1..], cap))
  }

  /** `stored` lists the stored events before and after every operation. */
  ghost predicate Plays(ops: seq<HeapOp>, results: seq<Option<Event>>, stored: seq<multiset<Event>>) {
    && |results| <= |ops| && |stored| == |results| + 1
    && forall i {:trigger ops[i]} | 0 <= i < |results| :: Does(stored[i], ops[i], results[i], stored[i + 1])
  }

  lemma {:induction false} FitsNext(n: nat, ops: seq<HeapOp>, i: nat, cap: nat)
    requires i < |ops| && FitsIn(n, ops[i..], cap)
    ensures (ops[i].PushOp? ==> n < cap) && FitsIn(SizeAfter(n, ops[i]), ops[i + 1..], cap)
  {
    assert ops[i..][1..] == ops[i + 1..];
  }

  /** The run so far leads from the stored events a to the stored events b. */
  ghost predicate Led(ops: seq<HeapOp>, results: seq<Option<Event>>, stored: seq<multiset<Event>>,
                      a: multiset<Event>, b: multiset<Event>) {
    Plays(ops, results, stored) && stored[0] == a && stored[|results|] == b
  }

  lemma {:induction false} LedOn(ops: seq<HeapOp>, results: seq<Option<Event>>, stored: seq<multiset<Event>>,
                                 a: multiset<Event>, b: multiset<Event>, r: Option<Event>, n: multiset<Event>)
    requires Led(ops, results, stored, a, b) && |results| < |ops| && Does(b, ops[|results|], r, n)
    ensures Led(ops, results + [r], stored + [n], a, n)
  {
  }

  lemma {:induction false} RootIsEarliest(s: seq<Event>)
    requires Ordered(s) && s != []
    ensures Earliest(s[0], multiset(s))
  {
    forall f | f in multiset(s) ensures s[0].timeout <= f.timeout {
      assert f in s;
      var k :| 0 <= k < |s| && s[k] == f;
      RootIsMin(s, k);
    }
  }

  class MinHeap {
    const events: array<Event>
    var size: nat

    ghost predicate Valid() reads this, events {
      size <= events.Length && Ordered(events[..size])
    }

    ghost function Contents(): seq<Event>
      requires size <= events.Length
      reads this, events
    {
      events[..size]
    }

    constructor (capacity: nat, none: Event)
      ensures Valid() && Contents() == [] && events.Length == capacity && fresh(events)
    {
      events := new Event[capacity](_ => none);
      size := 0;
    }

    /** The loop of min_heap_push: moves the hole at the end up until `event` fits. */
    method SiftUp(event: Event, ghost v0: seq<Event>)
      requires 0 < size <= events.Length && Hole(events[..size], v0, size - 1)
      requires v0[size - 1] == event && UpTo(v0, size - 1)
      modifies events
      ensures Valid() && multiset(Contents()) == multiset(v0)
    {
      ghost var v := v0;
      var i: nat := size - 1;
      while i > 0
        invariant Hole(events[..size], v, i) && v[i] == event && UpTo(v, i) && multiset(v) == multiset(v0)
      {
        var p := (i - 1) / 2;
        if events[p].timeout <= event.timeout { break; }
        assert events[..size][p] == v[p];
        SiftUpStep(v, i);
        HoleMoves(events[..size], v, i, p);
        v := Swap(v, i, p);
        Move(i, p);
        i := p;
      }
      assert 0 < i ==> events[..size][Parent(i)] == v[Parent(i)];
      SiftUpDone(v, i);
      HoleFilled(events[..size], v, i);
      Put(i, event);
    }

    method Move(i: nat, p: nat)
      requires i < size <= events.Length && p < size
      modifies events
      ensures events[..size] == old(events[..size])[i := old(events[p])]
    {
      events[i] := events[p];
    }

    method Put(i: nat, event: Event)
      requires i < size <= events.Length
      modifies events
      ensures events[..size] == old(events[..size])[i := event]
    {
      events[i] := event;
    }

    /** min_heap_push */
    method Push(event: Event)
      requires Valid() && size < events.Length
      modifies this, events
      ensures Valid() && multiset(Contents()) == old(multiset(Contents())) + multiset{event}
      ensures size == old(size) + 1
    {
      ghost var s := Contents();
      size := size + 1;
      AppendedUpTo(s, event);
      assert events[..size][..size - 1] == s;
      SiftUp(event, s + [event]);
    }

    method EarlierChild(i: nat) returns (a: nat)
      requires 2 * i + 1 < size <= events.Length
      ensures a < size && (a == 2 * i + 1 || a == 2 * i + 2) && events[a].timeout <= events[2 * i + 1].timeout
      ensures 2 * i + 2 < size ==> events[a].timeout <= events[2 * i + 2].timeout
    {
      a := i * 2 + 1;
      var b := i * 2 + 2;
      if b < size && events[b].timeout < events[a].timeout { a := b; }
    }

    /** The loop of min_heap_pop: moves the hole at the root down until `event` fits. */
    method SiftDown(event: Event, ghost v0: seq<Event>)
      requires 0 < size <= events.Length && Hole(events[..size], v0, 0) && v0[0] == event && DownTo(v0, 0)
      modifies events
      ensures Valid() && multiset(Contents()) == multiset(v0)
    {
      ghost var v := v0;
      var i := 0;
      while i * 2 + 1 < size
        invariant Hole(events[..size], v, i) && v[i] == event && DownTo(v, i) && multiset(v) == multiset(v0)
        decreases size - i
      {
        var a := EarlierChild(i);
        SameBelow(events[..size], v, i);
        ChildrenOf(v, i, a);
        if events[a].timeout >= event.timeout { break; }
        SiftDownStep(v, i, a);
        HoleMoves(events[..size], v, i, a);
        v := Swap(v, i, a);
        Move(i, a);
        i := a;
      }
      SiftDownDone(v, i);
      HoleFilled(events[..size], v, i);
      Put(i, event);
    }

    /** min_heap_top followed by min_heap_pop, as handle_events calls them: an earliest event. */
    method Pop() returns (top: Event)
      requires Valid() && size > 0
      modifies this, events
      ensures Valid() && size == old(size) - 1 && Earliest(top, old(multiset(Contents())))
      ensures multiset(Contents()) + multiset{top} == old(multiset(Contents()))
      ensures top == old(events[0]) && AllFrom(top.timeout, Contents())
    {
      ghost var s := Contents();
      RootIsEarliest(s);
      top := events[0];
      size := size - 1;
      var event := events[size];
      if size == 0 {
        events[0] := event;
        assert s == [top];
      } else {
        SiftDown(event, Replaced(s));
      }
      RootBelow(s, Contents());
    }

    /** handle_events with the time it sampled; `fired` lists the callbacks in the order they run. */
    method HandleEvents(now: int) returns (fired: seq<Event>)
      requires Valid()
      modifies this, events
      ensures Valid() && multiset(fired) + multiset(Contents()) == old(multiset(Contents()))
      ensures Due(fired, now) && forall i | 0 <= i < size :: now < Contents()[i].timeout
    {
      fired := [];
      ghost var all := multiset(Contents());
      while size > 0 && events[0].timeout <= now
        invariant Valid() && Progress(fired, Contents(), now, all)
        decreases size
      {
        ghost var before := Contents();
        assert events[0] == before[0];
        var event := Pop();
        Progresses(fired, before, now, all, event, Contents());
        fired := fired + [event];
      }
      forall k | 0 <= k < size ensures now < Contents()[k].timeout { RootIsMin(Contents(), k); }
    }

    /** Any sequence of pushes and pops, however long, whose every push finds a free place. */
    method Play(ops: seq<HeapOp>) returns (results: seq<Option<Event>>, ghost stored: seq<multiset<Event>>)
      requires Valid() && FitsIn(size, ops, events.Length)
      modifies this, events
      ensures Valid() && |results| == |ops| && Plays(ops, results, stored)
      ensures stored[0] == old(multiset(Contents())) && stored[|ops|] == multiset(Contents())
    {
      ghost var start := multiset(Contents());
      results, stored := [], [start];
      for i := 0 to |ops|
        invariant Valid() && FitsIn(size, ops[i..], events.Length)
        invariant |results| == i && Led(ops, results, stored, start, multiset(Contents()))
      {
        FitsNext(size, ops, i, events.Length);
        ghost var before := multiset(Contents());
        var r := PlayOne(ops[i]);
        ghost var after := multiset(Contents());
        LedOn(ops, results, stored, start, before, r, after);
        results, stored := results + [r], stored + [after];
      }
    }

    method PlayOne(op: HeapOp) returns (result: Option<Event>)
      requires Valid() && (op.PushOp? ==> size < events.Length)
      modifies this, events
      ensures Valid() && size == SizeAfter(old(size), op)
      ensures Does(old(multiset(Contents())), op, result, multiset(Contents()))
    {
      result := None;
      match op
      case PushOp(e) => Push(e);
      case PopOp =>
        assert size == 0 ==> Contents() == [];
        assert size > 0 ==> Contents()[0] in multiset(Contents());
        if size > 0 {
          var e := Pop();
          result := Some(e);
        }
    }

    /** add_timer, with the time it reads as a parameter. */
    method AddTimer(now: int, timeout: int, callback: nat)
      requires Valid() && size < events.Length
      modifies this, events
      ensures Valid() && multiset(Contents()) == old(multiset(Contents())) + multiset{Event(now + timeout, callback)}
    {
      Push(Event(now + timeout, callback));
    }
  }
}
