/**
  The block pool of Src/mpool.c: carving and searching the node list in place, and the protocol of
  threads that allocate and free as a transition system whose steps are the critical sections.
*/
module BlockPool {
  import opened Holdings
  import opened Spans
  import opened Waiting

  /** A node of the list: the address of its block and whether it is handed out. */
  datatype Block = Block(data: int, used: bool)

  function Unused(nodes: seq<Block>): nat {
    if nodes == [] then 0 else (if nodes[0].used then 0 else 1) + Unused(nodes[1..])
  }

  /** Index of the first unused node, or the length if there is none. */
  function FirstUnused(nodes: seq<Block>): (k: nat)
    ensures k <= |nodes| && (forall j | 0 <= j < k :: nodes[j].used) && (k < |nodes| ==> !nodes[k].used)
  {
    if nodes == [] || !nodes[0].used then 0 else 1 + FirstUnused(nodes[1..])
  }

  /** Index of the first node for address d, or the length if there is none. */
  function Find(nodes: seq<Block>, d: int): (k: nat)
    ensures k <= |nodes| && (forall j | 0 <= j < k :: nodes[j].data != d) && (k < |nodes| ==> nodes[k].data == d)
  {
    if nodes == [] || nodes[0].data == d then 0 else 1 + Find(nodes[1..], d)
  }

  lemma {:induction false} UnusedUpdate(nodes: seq<Block>, k: nat, b: Block)
    requires k < |nodes|
    ensures Unused(nodes[k := b]) + (if nodes[k].used then 0 else 1) == Unused(nodes) + (if b.used then 0 else 1)
  {
    if k == 0 {
      assert nodes[0 := b][1..] == nodes[1..];
    } else {
      assert nodes[k := b][1..] == nodes[1..][k - 1 := b];
      UnusedUpdate(nodes[1..], k - 1, b);
    }
  }

  lemma {:induction false} UnusedZero(nodes: seq<Block>)
    ensures Unused(nodes) == 0 <==> FirstUnused(nodes) == |nodes|
  {
    if nodes != [] { UnusedZero(nodes[1..]); }
  }

  /** The list pool_init builds in [base, base + total): the last block first. */
  ghost predicate Carved(nodes: seq<Block>, base: int, block: nat) {
    forall i {:trigger nodes[i]} | 0 <= i < |nodes| :: nodes[i] == Block(base + (|nodes| - 1 - i) * block, false)
  }

  /** For all sizes, and from one block on, every block lies inside the allocation and no two overlap. */
  lemma {:induction false} CarvedDisjoint(nodes: seq<Block>, base: int, block: nat, total: nat)
    requires 0 < block && |nodes| == total / block && Carved(nodes, base, block)
    ensures forall i | 0 <= i < |nodes| :: base <= nodes[i].data && nodes[i].data + block <= base + total
    ensures forall i, j | 0 <= i < |nodes| && 0 <= j < |nodes| && i != j :: Apart(nodes[i].data, nodes[j].data, block)
  {
    var n := |nodes|;
    assert n * block <= total;
    forall i, j | 0 <= i < n && 0 <= j < n
      ensures base <= nodes[i].data && nodes[i].data + block <= base + total
      ensures i != j ==> Apart(nodes[i].data, nodes[j].data, block)
    {
      Tiled(base, block, n, n - 1 - j, n - 1 - i);
    }
  }

  class Pool {
    var nodes: seq<Block>
    var count: int

    /** pool_init */
    constructor (base: int, block: nat, total: nat)
      requires 0 < block
      ensures |nodes| == total / block == count && Carved(nodes, base, block)
    {
      nodes, count := [], 0;
      new;
      var ptr := base;
      var n := total / block;
      for i := 0 to n
        invariant |nodes| == i == count && ptr == base + i * block && Carved(nodes, base, block)
      {
        nodes := [Block(ptr, false)] + nodes;
        ptr := ptr + block;
        count := count + 1;
        assert (i + 1) * block == i * block + block;
      }
    }

    /** pool_alloc from the search on: the first unused block, or nothing. */
    method Take() returns (found: bool, data: int)
      modifies this
      ensures var k := FirstUnused(old(nodes));
              && found == (k < |old(nodes)|)
              && (found ==>
                    data == old(nodes)[k].data && nodes == old(nodes)[k := Block(data, true)]
                    && count == old(count) - 1)
              && (!found ==> nodes == old(nodes) && count == old(count))
    {
      var k := 0;
      while k < |nodes| && nodes[k].used
        invariant 0 <= k <= |nodes| && forall j | 0 <= j < k :: nodes[j].used
      {
        k := k + 1;
      }
      FirstUnusedIs(nodes, k);
      found, data := k < |nodes|, 0;
      if found {
        data := nodes[k].data;
        nodes := nodes[k := nodes[k].(used := true)];
        count := count - 1;
      }
    }

    /** pool_free up to the signal: an address that is no block of the pool is ignored. */
    method Give(data: int) returns (found: bool)
      modifies this
      ensures var k := Find(old(nodes), data);
              && found == (k < |old(nodes)|)
              && (found ==> nodes == old(nodes)[k := Block(data, false)] && count == old(count) + 1)
              && (!found ==> nodes == old(nodes) && count == old(count))
    {
      var k := 0;
      while k < |nodes| && nodes[k].data != data
        invariant 0 <= k <= |nodes| && forall j | 0 <= j < k :: nodes[j].data != data
      {
        k := k + 1;
      }
      assert k == Find(nodes, data);
      found := k < |nodes|;
      if found {
        nodes := nodes[k := nodes[k].(used := false)];
        count := count + 1;
      }
    }
  }

  lemma {:induction false} FirstUnusedIs(nodes: seq<Block>, k: nat)
    requires k <= |nodes| && (forall j | 0 <= j < k :: nodes[j].used) && (k < |nodes| ==> !nodes[k].used)
    ensures k == FirstUnused(nodes)
  {
  }

  // ---------- the protocol ----------

  datatype State = State(nodes: seq<Block>, count: int, modes: seq<Mode>, held: seq<multiset<int>>)

  datatype Step =
    | Alloc(i: nat)                       // pool_alloc, up to the wait or the return
    | Resume(i: nat)                      // a woken allocator gets the lock back and searches
    | Free(i: nat, d: int, wake: nat)     // pool_free of a block that thread i holds
    | FreeOther(i: nat, d: int)           // pool_free of an address that is no block
    | Spurious(i: nat)

  predicate Enabled(s: State, step: Step) {
    && |s.held| == |s.modes|
    && match step
       case Alloc(i) => i < |s.modes| && s.modes[i] == Idle
       case Resume(i) => i < |s.modes| && s.modes[i] == Woken
       case Free(i, d, w) => i < |s.modes| && s.modes[i] == Idle && d in s.held[i] && CanWake(s.modes, w)
       case FreeOther(i, d) => i < |s.modes| && s.modes[i] == Idle && Find(s.nodes, d) == |s.nodes|
       case Spurious(i) => i < |s.modes| && s.modes[i] == Asleep
  }

  function TakeFor(s: State, i: nat): State
    requires i < |s.held|
  {
    var k := FirstUnused(s.nodes);
    if k == |s.nodes| then s
    else s.(nodes := s.nodes[k := Block(s.nodes[k].data, true)], count := s.count - 1,
            held := s.held[i := s.held[i] + multiset{s.nodes[k].data}])
  }

  function Apply(s: State, step: Step): State
    requires Enabled(s, step)
  {
    match step
    case Alloc(i) => if s.count == 0 then s.(modes := s.modes[i := Asleep]) else TakeFor(s, i)
    case Resume(i) => TakeFor(s, i).(modes := s.modes[i := Idle])
    case Free(i, d, w) =>
      var k := Find(s.nodes, d);
      if k == |s.nodes| then s
      else s.(nodes := s.nodes[k := Block(d, false)], count := s.count + 1,
              held := s.held[i := s.held[i] - multiset{d}], modes := Wake(s.modes, w))
    case FreeOther(i, d) => s
    case Spurious(i) => s.(modes := s.modes[i := Woken])
  }

  ghost predicate Runs(s: State, steps: seq<Step>, t: State)
    decreases |steps|
  {
    if steps == [] then s == t
    else Enabled(s, steps[0]) && Runs(Apply(s, steps[0]), steps[1..], t)
  }

  ghost predicate Distinct(nodes: seq<Block>) {
    forall i, j | 0 <= i < j < |nodes| :: nodes[i].data != nodes[j].data
  }

  /** Address d is held once if it is a block handed out, and not at all otherwise. */
  ghost predicate Owned(s: State, d: int) {
    var k := Find(s.nodes, d);
    Total(s.held)[d] == if k < |s.nodes| && s.nodes[k].used then 1 else 0
  }

  /** Whatever the count says, a block handed out has one owner and any other block none. */
  ghost predicate Owners(s: State) {
    Distinct(s.nodes) && |s.held| == |s.modes| && forall d :: Owned(s, d)
  }

  ghost predicate Inv(s: State) { Owners(s) && s.count == Unused(s.nodes) && NoLostWakeup(s) }

  /** While an allocator sleeps, every unused block has a woken allocator coming for it. */
  ghost predicate NoLostWakeup(s: State) {
    Asleep in s.modes ==> s.count <= multiset(s.modes)[Woken]
  }

  lemma {:induction false} FindAt(nodes: seq<Block>, k: nat)
    requires Distinct(nodes) && k < |nodes|
    ensures Find(nodes, nodes[k].data) == k
  {
    if k > 0 { FindAt(nodes[1..], k - 1); }
  }

  lemma {:induction false} FindSame(nodes: seq<Block>, k: nat, used: bool, d: int)
    requires k < |nodes|
    ensures Find(nodes[k := Block(nodes[k].data, used)], d) == Find(nodes, d)
  {
    if k == 0 {
      assert nodes[0 := Block(nodes[0].data, used)][1..] == nodes[1..];
    } else {
      assert nodes[k := Block(nodes[k].data, used)][1..] == nodes[1..][k - 1 := Block(nodes[k].data, used)];
      FindSame(nodes[1..], k - 1, used, d);
    }
  }

  lemma {:induction false} TakeOwned(s: State, i: nat, d: int)
    requires Distinct(s.nodes) && Owned(s, d) && i < |s.held|
    ensures Owned(TakeFor(s, i), d)
  {
    var k := FirstUnused(s.nodes);
    if k < |s.nodes| {
      FindAt(s.nodes, k);
      FindSame(s.nodes, k, true, d);
      TotalUpdate(s.held, i, s.held[i] + multiset{s.nodes[k].data}, d);
    }
  }

  lemma {:induction false} FreeOwned(s: State, i: nat, d: int, w: nat, e: int)
    requires Distinct(s.nodes) && Owned(s, d) && Owned(s, e) && Enabled(s, Free(i, d, w))
    ensures Owned(Apply(s, Free(i, d, w)), e)
    ensures Find(s.nodes, d) < |s.nodes| && s.nodes[Find(s.nodes, d)].used
  {
    TotalUpdate(s.held, i, s.held[i] - multiset{d}, d);
    TotalUpdate(s.held, i, s.held[i] - multiset{d}, e);
    FindSame(s.nodes, Find(s.nodes, d), false, e);
  }

  lemma {:induction false} StepOwned(s: State, step: Step, d: int)
    requires Owners(s) && Enabled(s, step)
    ensures Owned(Apply(s, step), d)
  {
    assert Owned(s, d);
    match step
    case Alloc(i) => TakeOwned(s, i, d);
    case Resume(i) => TakeOwned(s, i, d);
    case Free(i, e, w) => assert Owned(s, e); FreeOwned(s, i, e, w, d);
    case _ =>
  }

  /** By how much the count exceeds the unused nodes. */
  function Excess(s: State): int { s.count - Unused(s.nodes) }

  lemma {:induction false} StepExcess(s: State, step: Step)
    requires Owners(s) && Enabled(s, step)
    ensures Excess(Apply(s, step)) == Excess(s)
  {
    var k := FirstUnused(s.nodes);
    if k < |s.nodes| { UnusedUpdate(s.nodes, k, Block(s.nodes[k].data, true)); }
    if step.Free? {
      assert Owned(s, step.d);
      FreeOwned(s, step.i, step.d, step.wake, step.d);
      UnusedUpdate(s.nodes, Find(s.nodes, step.d), Block(step.d, false));
    }
  }

  lemma {:induction false} StepNoLostWakeup(s: State, step: Step)
    requires NoLostWakeup(s) && s.count == Unused(s.nodes) && Enabled(s, step)
    ensures NoLostWakeup(Apply(s, step))
  {
    UnusedZero(s.nodes);
  }

  lemma {:induction false} StepDistinct(s: State, step: Step)
    requires Distinct(s.nodes) && Enabled(s, step)
    ensures Distinct(Apply(s, step).nodes)
  {
  }

  /** Every step of every interleaving keeps the invariant. */
  lemma {:induction false} StepInv(s: State, step: Step)
    requires Inv(s) && Enabled(s, step)
    ensures Inv(Apply(s, step))
  {
    StepOwners(s, step);
    StepExcess(s, step);
    StepNoLostWakeup(s, step);
  }

  lemma {:induction false} StepOwners(s: State, step: Step)
    requires Owners(s) && Enabled(s, step)
    ensures Owners(Apply(s, step))
  {
    forall d ensures Owned(Apply(s, step), d) { StepOwned(s, step, d); }
    StepDistinct(s, step);
  }

  lemma {:induction false} RunInv(s: State, steps: seq<Step>, t: State)
    requires Inv(s) && Runs(s, steps, t)
    ensures Inv(t)
    decreases |steps|
  {
    if steps != [] {
      StepInv(s, steps[0]);
      RunInv(Apply(s, steps[0]), steps[1..], t);
    }
  }

  function Initial(nodes: seq<Block>, threads: nat): State {
    State(nodes, |nodes|, seq(threads, _ => Idle), seq(threads, _ => multiset{}))
  }

  lemma {:induction false} AllUnused(nodes: seq<Block>)
    requires forall i | 0 <= i < |nodes| :: !nodes[i].used
    ensures Unused(nodes) == |nodes|
  {
    if nodes != [] { AllUnused(nodes[1..]); }
  }

  lemma {:induction false} InitialInv(nodes: seq<Block>, base: int, block: nat, threads: nat)
    requires 0 < block && Carved(nodes, base, block)
    ensures Inv(Initial(nodes, threads))
  {
    AllUnused(nodes);
    NothingHeld(Initial(nodes, threads).held);
    forall i, j | 0 <= i < j < |nodes| ensures nodes[i].data != nodes[j].data {
      Stride(block, |nodes| - 1 - j, |nodes| - 1 - i);
    }
    assert Asleep !in Initial(nodes, threads).modes;
  }

  /** What holds in every reachable state of a pool that pool_init made, for any number of threads that
      free only blocks they hold: `count` is the number of unused nodes, no wake-up is lost, and a
      block is held by one thread if it is marked used and by none otherwise. */
  lemma {:induction false} Reachable(nodes: seq<Block>, base: int, block: nat, threads: nat, steps: seq<Step>, s: State)
    requires 0 < block && Carved(nodes, base, block) && Runs(Initial(nodes, threads), steps, s)
    ensures 0 <= s.count == Unused(s.nodes)
    ensures Asleep in s.modes ==> s.count <= multiset(s.modes)[Woken]
    ensures forall k | 0 <= k < |s.nodes| ::
              Total(s.held)[s.nodes[k].data] == (if s.nodes[k].used then 1 else 0) && OneHolder(s, s.nodes[k].data)
  {
    InitialInv(nodes, base, block, threads);
    RunInv(Initial(nodes, threads), steps, s);
    forall k | 0 <= k < |s.nodes|
      ensures Total(s.held)[s.nodes[k].data] == (if s.nodes[k].used then 1 else 0) && OneHolder(s, s.nodes[k].data)
    {
      HeldOnce(s, k);
    }
  }

  /** No two threads hold the block at d. */
  ghost predicate OneHolder(s: State, d: int) {
    forall i, j | 0 <= i < j < |s.held| && d in s.held[i] :: d !in s.held[j]
  }

  lemma {:induction false} HeldOnce(s: State, k: nat)
    requires Inv(s) && k < |s.nodes|
    ensures Total(s.held)[s.nodes[k].data] == (if s.nodes[k].used then 1 else 0) && OneHolder(s, s.nodes[k].data)
  {
    var d := s.nodes[k].data;
    assert Owned(s, d);
    FindAt(s.nodes, k);
    forall i, j | 0 <= i < j < |s.held| && d in s.held[i] ensures d !in s.held[j] {
      TwoHolders(s.held, i, j, d);
    }
  }

  // ---------- what the calls do ----------

  /** While some block is unused, pool_alloc and a woken allocator alike mark the first unused block, which
      is k, and hand it to their thread; otherwise nothing is handed out, a call sleeps and a woken
      allocator returns. */
  lemma {:induction false} AllocHandsOut(s: State, step: Step, i: nat) returns (k: nat)
    requires Inv(s) && Enabled(s, step) && (step == Alloc(i) || step == Resume(i))
    ensures k <= |s.nodes| && (forall j | 0 <= j < k :: s.nodes[j].used) && (k == |s.nodes| <==> s.count == 0)
    ensures var t := Apply(s, step);
            if k < |s.nodes| then
              && !s.nodes[k].used && t.nodes == s.nodes[k := Block(s.nodes[k].data, true)]
              && t.count == s.count - 1 && t.held == s.held[i := s.held[i] + multiset{s.nodes[k].data}]
              && t.modes == s.modes[i := Idle]
            else
              && t.nodes == s.nodes && t.count == s.count && t.held == s.held
              && t.modes == s.modes[i := if step.Alloc? then Asleep else Idle]
  {
    k := FirstUnused(s.nodes);
    UnusedZero(s.nodes);
  }

  /** pool_free of a block that the thread holds: the block, which was in use, becomes unused and leaves its
      holder, every other block and holder is as before, the count goes up by one, and one sleeping
      allocator, if there is any, is woken. */
  lemma {:induction false} FreeGivesBack(s: State, i: nat, d: int, w: nat) returns (k: nat)
    requires Inv(s) && Enabled(s, Free(i, d, w))
    ensures k < |s.nodes| && s.nodes[k] == Block(d, true)
    ensures var t := Apply(s, Free(i, d, w));
            && t.nodes == s.nodes[k := Block(d, false)] && t.count == s.count + 1
            && t.held == s.held[i := s.held[i] - multiset{d}]
            && t.modes == if Asleep in s.modes then s.modes[w := Woken] else s.modes
  {
    assert Owned(s, d);
    FreeOwned(s, i, d, w, d);
    k := Find(s.nodes, d);
  }

  /** A block given back can be had again: when it is the first unused one, the next allocation hands out
      just that block. */
  lemma {:induction false} FreeThenAlloc(s: State, i: nat, d: int, w: nat, j: nat) returns (k: nat)
    requires Inv(s) && Enabled(s, Free(i, d, w)) && s.count == 0 && j < |s.modes| && s.modes[j] == Idle
    ensures k < |s.nodes| && s.nodes[k] == Block(d, true)
    ensures var f := Apply(s, Free(i, d, w));
            Enabled(f, Alloc(j)) && Apply(f, Alloc(j)).nodes == s.nodes && d in Apply(f, Alloc(j)).held[j]
  {
    k := FreeGivesBack(s, i, d, w);
    var f := Apply(s, Free(i, d, w));
    StepInv(s, Free(i, d, w));
    UnusedZero(s.nodes);
    assert forall l | 0 <= l < k :: f.nodes[l] == s.nodes[l] && s.nodes[l].used;
    var _ := AllocHandsOut(f, Alloc(j), j);
    assert f.nodes[k := Block(d, true)] == s.nodes;
  }

  /** From s, where thread i is in the wait, the steps lead to t, where it has just come back. */
  ghost predicate ComesBack(s: State, i: nat, steps: seq<Step>, t: State)
    decreases |steps|
  {
    && steps != [] && Enabled(s, steps[0])
    && var u := Apply(s, steps[0]);
       if steps[0] == Resume(i) then |steps| == 1 && t == u else ComesBack(u, i, steps[1..], t)
  }

  /** A schedule under which the pool_alloc that thread i calls in s returns in t. */
  ghost predicate Returns(s: State, i: nat, steps: seq<Step>, t: State) {
    && steps != [] && steps[0] == Alloc(i) && Enabled(s, steps[0])
    && var u := Apply(s, steps[0]);
       if u.modes[i] == Idle then |steps| == 1 && t == u else ComesBack(u, i, steps[1..], t)
  }

  function Holds(s: State, i: nat): multiset<int> { if i < |s.held| then s.held[i] else multiset{} }

  /** An allocator that waits can return NULL: it waits once, not in a loop. */
  lemma {:induction false} AllocNull(s: State, i: nat)
    requires Inv(s) && Enabled(s, Alloc(i)) && s.count == 0
    ensures exists t :: Returns(s, i, [Alloc(i), Spurious(i), Resume(i)], t) && t.held == s.held
  {
    UnusedZero(s.nodes);
    var steps := [Alloc(i), Spurious(i), Resume(i)];
    var u := Apply(s, Alloc(i));
    var v := Apply(u, Spurious(i));
    var t := Apply(v, Resume(i));
    assert steps[1..] == [Spurious(i), Resume(i)] && steps[1..][1..] == [Resume(i)];
    assert ComesBack(v, i, [Resume(i)], t);
    assert ComesBack(u, i, [Spurious(i), Resume(i)], t);
    assert Returns(s, i, steps, t);
  }

  /** pool_alloc hands out a block under every schedule exactly when the count is not zero at the call. */
  lemma {:induction false} AllocSafeIff(s: State, i: nat)
    requires Inv(s) && Enabled(s, Alloc(i))
    ensures (forall steps, t | Returns(s, i, steps, t) :: |Holds(t, i)| == |Holds(s, i)| + 1) <==> s.count != 0
  {
    UnusedZero(s.nodes);
    if s.count == 0 { AllocNull(s, i); }
  }

  // ---------- double frees ----------

  /** pool_free does not look at `used`: it keeps the count right exactly when the block was in use. */
  lemma {:induction false} FreeKeepsCountIff(nodes: seq<Block>, count: int, k: nat)
    requires k < |nodes| && count == Unused(nodes)
    ensures count + 1 == Unused(nodes[k := Block(nodes[k].data, false)]) <==> nodes[k].used
  {
    UnusedUpdate(nodes, k, Block(nodes[k].data, false));
  }

  /** The state after pool_free of the k-th block. */
  function Freed(s: State, k: nat, w: nat): State
    requires k < |s.nodes| && CanWake(s.modes, w)
  {
    s.(nodes := s.nodes[k := Block(s.nodes[k].data, false)], count := s.count + 1, modes := Wake(s.modes, w))
  }

  lemma {:induction false} RunExcess(s: State, steps: seq<Step>, t: State)
    requires Owners(s) && Runs(s, steps, t)
    ensures Owners(t) && Excess(t) == Excess(s)
    decreases |steps|
  {
    if steps != [] {
      StepOwners(s, steps[0]);
      StepExcess(s, steps[0]);
      RunExcess(Apply(s, steps[0]), steps[1..], t);
    }
  }

  /** Freeing a block that is not in use breaks the count for good: in every later state of every run it
      is one more than the unused blocks, so when no block is left an allocation does not wait and
      returns NULL. */
  lemma {:induction false} DoubleFreeForGood(s: State, k: nat, w: nat, steps: seq<Step>, t: State, i: nat)
    requires Inv(s) && k < |s.nodes| && !s.nodes[k].used && CanWake(s.modes, w)
    requires Runs(Freed(s, k, w), steps, t)
    ensures t.count == Unused(t.nodes) + 1
    ensures Unused(t.nodes) == 0 && Enabled(t, Alloc(i)) ==> Apply(t, Alloc(i)) == t
  {
    var f := Freed(s, k, w);
    assert s.nodes[k := Block(s.nodes[k].data, false)] == s.nodes;
    assert forall d :: Owned(s, d) ==> Owned(f, d);
    RunExcess(f, steps, t);
    UnusedZero(t.nodes);
  }
}
