/**
  The fixed-size slice allocator of Src/elr_mpl/elr_mpl.c (non-threaded build).

  `Arena` is what a pool whose slices all come from one node means: a tag per carved slice and a
  FIFO of free slices. `Store` is the memory the C code works on, structs keyed by their address,
  and the functions on it follow the pointer updates of the code, for any number of nodes.
  `SlicePool` runs those updates in place. `TakeRefines` and `FreeRefines` prove that with one node
  the pointer code is the arena.
*/
module Slices {
  import opened Lists
  import opened Spans

  // ---------- the meaning of a one-node pool ----------

  /** `tags[k]` is the tag of the k-th carved slice; `free` lists the free slices, oldest first. */
  datatype Arena = Arena(cap: nat, tags: seq<int>, free: seq<nat>) {
    /** No slice is free twice, and a slice's tag is even exactly when the slice is in use. */
    ghost predicate Valid() {
      && |tags| <= cap
      && NoDup(free)
      && (forall i | 0 <= i < |free| :: free[i] < |tags|)
      && (forall k | 0 <= k < |tags| :: 0 <= tags[k] && (tags[k] % 2 == 0 <==> k !in free))
    }

    predicate InUse(k: nat) { k < |tags| && k !in free }

    /** The next slice can be had without a second node. */
    predicate HasRoom() { free != [] || |tags| < cap }

    /** Hands out the slice that has been free longest, or carves a new one. */
    function Take(): (r: (Arena, nat))
      requires Valid() && HasRoom()
      ensures r.0.Valid() && r.0.cap == cap
      ensures !InUse(r.1) && forall k: nat :: r.0.InUse(k) <==> InUse(k) || k == r.1
      ensures r.1 < |r.0.tags| && |tags| <= |r.0.tags|
      ensures forall k | 0 <= k < |tags| :: r.0.tags[k] == if k == r.1 then tags[k] + 1 else tags[k]
      ensures |r.0.tags| - |r.0.free| == |tags| - |free| + 1
    {
      if free != [] then
        var k := free[0];
        var a := Arena(cap, tags[k := tags[k] + 1], free[1..]);
        assert forall j: nat :: j in free <==> j == k || j in free[1..];
        (a, k)
      else
        (Arena(cap, tags + [0], []), |tags|)
    }

    /** Takes a slice back: its tag changes and it queues behind the other free slices. */
    function Give(k: nat): (a: Arena)
      requires Valid() && InUse(k)
      ensures a.Valid() && a.cap == cap && |a.tags| == |tags|
      ensures forall j: nat :: a.InUse(j) <==> InUse(j) && j != k
      ensures forall j | 0 <= j < |tags| :: a.tags[j] == if j == k then tags[j] + 1 else tags[j]
      ensures |a.tags| - |a.free| == |tags| - |free| - 1
    {
      Arena(cap, tags[k := tags[k] + 1], free + [k])
    }
  }

  datatype Op = TakeOp | GiveOp(slot: nat)

  predicate Enabled(a: Arena, op: Op) {
    match op
    case TakeOp => a.HasRoom()
    case GiveOp(k) => a.InUse(k)
  }

  function Apply(a: Arena, op: Op): (b: Arena)
    requires a.Valid() && Enabled(a, op)
    ensures b.Valid()
  {
    match op
    case TakeOp => a.Take().0
    case GiveOp(k) => a.Give(k)
  }

  /** A legal history: every take has room and every free is of a slice in use. */
  ghost predicate Runs(a: Arena, ops: seq<Op>, b: Arena)
    requires a.Valid()
    decreases |ops|
  {
    if ops == [] then a == b
    else Enabled(a, ops[0]) && Runs(Apply(a, ops[0]), ops[1..], b)
  }

  /** Over any history tags never decrease, and slices stay carved. */
  lemma {:induction false} TagsGrow(a: Arena, ops: seq<Op>, b: Arena)
    requires a.Valid() && Runs(a, ops, b)
    ensures b.Valid() && |a.tags| <= |b.tags|
    ensures forall k | 0 <= k < |a.tags| :: a.tags[k] <= b.tags[k]
    decreases |ops|
  {
    if ops != [] {
      TagsGrow(Apply(a, ops[0]), ops[1..], b);
    }
  }

  /** A handle carries the tag its slice had when it was issued. Once the slice's tag has moved on,
      no later history, however long, brings it back: the handle stays unavailable. */
  lemma {:induction false} StaleHandleNeverRevives(issued: Arena, ops1: seq<Op>, stale: Arena, ops2: seq<Op>,
      later: Arena, k: nat)
    requires issued.Valid() && k < |issued.tags|
    requires Runs(issued, ops1, stale) && stale.Valid() && Runs(stale, ops2, later)
    requires k < |stale.tags| && stale.tags[k] != issued.tags[k]
    ensures k < |later.tags| && later.tags[k] != issued.tags[k]
  {
    TagsGrow(issued, ops1, stale);
    TagsGrow(stale, ops2, later);
  }

  // ---------- the order of slices ----------

  /** The slices that takes hand out again in a history, in order, and those given back. */
  function Reused(a: Arena, ops: seq<Op>, b: Arena): seq<nat>
    requires a.Valid() && Runs(a, ops, b)
    decreases |ops|
  {
    if ops == [] then []
    else (if ops[0].TakeOp? && a.free != [] then [a.Take().1] else []) + Reused(Apply(a, ops[0]), ops[1..], b)
  }

  function GivenBack(ops: seq<Op>): seq<nat>
    decreases |ops|
  {
    if ops == [] then [] else (if ops[0].GiveOp? then [ops[0].slot] else []) + GivenBack(ops[1..])
  }

  /** Slices are handed out again in the order in which they were given back, over every history: those
      reused, followed by those still free, are those free at first, followed by those given back. */
  lemma {:induction false} OldestFirst(a: Arena, ops: seq<Op>, b: Arena)
    requires a.Valid() && Runs(a, ops, b)
    ensures Reused(a, ops, b) + b.free == a.free + GivenBack(ops)
    decreases |ops|
  {
    if ops == [] {
      assert a.free + [] == [] + a.free;
    } else {
      var c := Apply(a, ops[0]);
      OldestFirst(c, ops[1..], b);
      var out, back := Reused(c, ops[1..], b), GivenBack(ops[1..]);
      match ops[0]
      case TakeOp => if a.free != [] { FirstOut(a.free, out, b.free, back); } else { assert [] + out == out; }
      case GiveOp(k) => LastIn(a.free, k, out, b.free, back);
    }
  }

  lemma {:induction false} FirstOut(free: seq<nat>, out: seq<nat>, left: seq<nat>, back: seq<nat>)
    requires free != [] && out + left == free[1..] + back
    ensures [free[0]] + out + left == free + ([] + back)
  {
    assert [free[0]] + out + left == [free[0]] + (out + left) && free == [free[0]] + free[1..] && [] + back == back;
    assert [free[0]] + (free[1..] + back) == [free[0]] + free[1..] + back;
  }

  lemma {:induction false} LastIn(free: seq<nat>, k: nat, out: seq<nat>, left: seq<nat>, back: seq<nat>)
    requires out + left == free + [k] + back
    ensures [] + out + left == free + ([k] + back)
  {
    assert [] + out == out && free + [k] + back == free + ([k] + back);
  }

  /** A take with nothing free carves the next slice, in order, with tag 0. */
  lemma {:induction false} TakeCarves(a: Arena)
    requires a.Valid() && a.HasRoom() && a.free == []
    ensures a.Take().1 == |a.tags| && a.Take().0.tags == a.tags + [0] && a.Take().0.free == []
  {
  }

  // ---------- sizes ----------

  /** Aligned struct sizes of an LP64 build. */
  const NODE_HDR: int := 64
  const SLICE_HDR: int := 32
  const MAX_SLICE_SIZE: int := 32768
  const MAX_SLICE_COUNT: int := 64

  function Align(size: nat): (r: nat)
    ensures r % 4 == 0 && size <= r < size + 4
  {
    (size + 3) / 4 * 4
  }

  function SliceSize(objSize: nat): nat { SLICE_HDR + Align(objSize) }

  function SliceCount(sliceSize: nat): nat
    requires 0 < sliceSize
  {
    if sliceSize < MAX_SLICE_SIZE then
      MAX_SLICE_COUNT - sliceSize * (MAX_SLICE_COUNT - 1) / MAX_SLICE_SIZE
    else 1
  }

  function NodeSize(sliceSize: nat): nat
    requires 0 < sliceSize
  {
    sliceSize * SliceCount(sliceSize) + NODE_HDR
  }

  /** Address of the k-th slice of a node. */
  function SlotAddr(node: int, size: nat, k: nat): int { node + NODE_HDR + k * size }

  lemma {:induction false} SliceCountRange(sliceSize: nat)
    requires 0 < sliceSize
    ensures 1 <= SliceCount(sliceSize) <= 64
  {
  }

  /** A slice is its 32-byte header and the object rounded up to 4 bytes. Slices of 32 KiB and more come one
      to a node; for smaller ones the count falls with the size from 64 to 2, and a node is its slices and a
      header of 64 bytes. */
  lemma {:induction false} SliceSizes(objSize: nat)
    ensures var size := SliceSize(objSize); var n := SliceCount(size);
            && size % 4 == 0 && 32 + objSize <= size < 36 + objSize
            && (32768 <= size ==> n == 1)
            && (size < 32768 ==> (64 - n) * 32768 <= 63 * size < (65 - n) * 32768 && 2 <= n)
            && NodeSize(size) == 64 + n * size
  {
    var size := SliceSize(objSize);
    if size < 32768 { assert SliceCount(size) == 64 - size * 63 / 32768 && size * 63 == 63 * size; }
    assert SliceCount(size) * size == size * SliceCount(size);
  }

  /** For every object size a node holds between 1 and 64 slices, each with room for its header and
      its object; every slice lies inside the node's allocation behind its header and no two overlap. */
  lemma {:induction false} NodeGeometry(node: int, objSize: nat)
    ensures var size := SliceSize(objSize); var n := SliceCount(size);
            && 1 <= n <= 64 && SLICE_HDR + objSize <= size
            && (forall k: nat | k < n :: node + NODE_HDR <= SlotAddr(node, size, k)
                                         && SlotAddr(node, size, k) + size <= node + NodeSize(size))
            && (forall j: nat, k: nat | j < n && k < n && j != k ::
                  Apart(SlotAddr(node, size, j), SlotAddr(node, size, k), size))
  {
    var size := SliceSize(objSize);
    SliceCountRange(size);
    var n := SliceCount(size);
    assert n * size == size * n;
    forall j: nat, k: nat | j < n && k < n
      ensures node + NODE_HDR <= SlotAddr(node, size, k) && SlotAddr(node, size, k) + size <= node + NodeSize(size)
      ensures j != k ==> Apart(SlotAddr(node, size, j), SlotAddr(node, size, k), size)
    {
      Tiled(node + NODE_HDR, size, n, j, k);
    }
  }

  // ---------- the structs in memory ----------

  datatype Slice = Slice(prev: int, next: int, node: int, tag: int, addr: int)
  datatype Node = Node(prev: int, next: int, freeHead: int, freeTail: int, using: int, used: int, firstAvail: int,
                       released: bool)

  /** One pool's fields and its nodes and slices. A pointer is the index of its target in the order
      of creation; `addr` and `firstAvail` are byte addresses. Reading a pointer to nothing yields a
      zero struct and writing through it does nothing. */
  datatype Store = Store(sliceCount: nat, sliceSize: nat, firstNode: int, newNode: int, firstFree: int,
                         nodes: seq<Node>, slices: seq<Slice>) {
    function S(p: int): Slice { if 0 <= p < |slices| then slices[p] else Slice(NULL, NULL, NULL, 0, 0) }
    function N(p: int): Node { if 0 <= p < |nodes| then nodes[p] else Node(NULL, NULL, NULL, NULL, 0, 0, 0, true) }
    function SetS(p: int, s: Slice): Store { if 0 <= p < |slices| then this.(slices := slices[p := s]) else this }
    function SetN(p: int, n: Node): Store { if 0 <= p < |nodes| then this.(nodes := nodes[p := n]) else this }

    /** _elr_alloc_mem_node; malloc returned the block at `block`. */
    function AllocNode(block: int): Store {
      var nd := |nodes|;
      var m := this.(nodes := nodes + [Node(NULL, firstNode, NULL, NULL, 0, 0, block + NODE_HDR, false)],
                     newNode := nd, firstNode := nd);
      m.SetN(firstNode, m.N(firstNode).(prev := nd))
    }

    /** _elr_slice_from_node, with a node to carve from. */
    function SliceFromNode(): (Store, int) {
      var n := N(newNode);
      var m := SetN(newNode, n.(used := n.used + 1, using := n.using + 1, firstAvail := n.firstAvail + sliceSize));
      (m.(slices := slices + [Slice(NULL, NULL, newNode, 0, n.firstAvail)],
          newNode := if n.used + 1 == sliceCount then NULL else newNode), |slices|)
    }

    /** The branch of _elr_slice_from_pool that reuses the first free slice. */
    function Reuse(): (Store, int) {
      var s := firstFree;
      var nd := S(s).node;
      var rest := S(s).next;
      var m := SetN(nd, N(nd).(freeHead := rest, using := N(nd).using + 1)).(firstFree := rest);
      var m := m.SetS(rest, m.S(rest).(prev := NULL));
      (m.SetS(s, m.S(s).(next := NULL, prev := NULL, tag := m.S(s).tag + 1)), s)
    }

    /** _elr_slice_from_pool; `block` is what malloc returns if a node is needed. */
    function SliceFromPool(block: int): (Store, int) {
      if firstFree != NULL then Reuse()
      else if newNode != NULL then SliceFromNode()
      else AllocNode(block).SliceFromNode()
    }

    /** _elr_remove_unused_node: the memory afterwards and whether the node was released. */
    function RemoveUnusedNode(nd: int): (Store, bool) {
      var after := S(N(nd).freeTail).next;
      var before := S(N(nd).freeHead).prev;
      if N(nd).using != 0 || (after == NULL && before == NULL) then (this, false) else
      var m := SetS(after, S(after).(prev := before));
      var m := if before != NULL then m.SetS(before, m.S(before).(next := after)) else m.(firstFree := after);
      (m.DropNode(nd), true)
    }

    /** The end of _elr_remove_unused_node: the node leaves the list of nodes and is freed. */
    function DropNode(nd: int): Store {
      var p, q := N(nd).prev, N(nd).next;
      var m := if p != NULL then SetN(p, N(p).(next := q)) else this.(firstNode := q);
      var m := m.SetN(q, m.N(q).(prev := p));
      m.SetN(nd, m.N(nd).(released := true))
    }

    /** The branch of elr_mpl_free for a node without free slices. */
    function PushFirst(s: int, nd: int): Store {
      var m := SetN(nd, N(nd).(freeHead := s, freeTail := s));
      var m := m.SetS(s, m.S(s).(next := firstFree));
      m.SetS(firstFree, m.S(firstFree).(prev := s)).(firstFree := s)
    }

    /** The branch of elr_mpl_free that links behind the node's last free slice. */
    function PushLast(s: int, nd: int): Store {
      var tail := N(nd).freeTail;
      var m := SetS(s, S(s).(next := S(tail).next));
      var m := m.SetS(m.S(tail).next, m.S(m.S(tail).next).(prev := s));
      var m := m.SetS(tail, m.S(tail).(next := s));
      var m := m.SetS(s, m.S(s).(prev := tail));
      m.SetN(nd, m.N(nd).(freeTail := s))
    }

    /** elr_mpl_free of the slice `s`. */
    function FreeSlice(s: int): Store {
      var nd := S(s).node;
      var m := SetS(s, S(s).(tag := S(s).tag + 1)).SetN(nd, N(nd).(using := N(nd).using - 1));
      if m.N(nd).freeHead == NULL then m.PushFirst(s, nd)
      else
        var (m', removed) := m.RemoveUnusedNode(nd);
        if removed then m' else m.PushLast(s, nd)
    }
  }

  // ---------- with one node, the pointers are the arena ----------

  /** The free slices are chained in both directions, in order, with NULL at both ends. */
  ghost predicate Chained(slices: seq<Slice>, free: seq<nat>)
    requires forall i | 0 <= i < |free| :: free[i] < |slices|
  {
    && (free != [] ==> slices[free[0]].prev == NULL && slices[free[|free| - 1]].next == NULL)
    && (forall i, j | 0 <= i < j < |free| && j - i == 1 ::
          slices[free[i]].next == free[j] && slices[free[j]].prev == free[i])
  }

  /** The slices are the carved ones, with the arena's tags, at consecutive addresses of the node;
      the free ones form the list and the others are unlinked. */
  ghost predicate SliceRep(slices: seq<Slice>, tags: seq<int>, free: seq<nat>, base: int, size: nat) {
    && |slices| == |tags|
    && (forall i | 0 <= i < |free| :: free[i] < |tags|)
    && (forall k | 0 <= k < |tags| :: slices[k].node == 0 && slices[k].tag == tags[k])
    && (forall k | 0 <= k < |tags| :: slices[k].addr == SlotAddr(base, size, k))
    && (forall k | 0 <= k < |tags| && k !in free :: slices[k].prev == NULL && slices[k].next == NULL)
    && Chained(slices, free)
  }

  /** `base` is the block malloc gave for the node. `using` plus the free slices are the carved ones. */
  ghost predicate Rep(m: Store, a: Arena, base: int) {
    && a.Valid() && 0 < a.cap == m.sliceCount
    && m.firstFree == At(a.free, 0)
    && SliceRep(m.slices, a.tags, a.free, base, m.sliceSize)
    && (if a.tags == [] then m.nodes == [] && m.firstNode == NULL && m.newNode == NULL
        else
          && |m.nodes| == 1 && m.firstNode == 0 && m.newNode == (if |a.tags| < a.cap then 0 else NULL)
          && m.nodes[0] == Node(NULL, NULL, At(a.free, 0), m.nodes[0].freeTail, |a.tags| - |a.free|, |a.tags|,
                                SlotAddr(base, m.sliceSize, |a.tags|), false)
          && (a.free != [] ==> m.nodes[0].freeTail == a.free[|a.free| - 1]))
  }

  lemma {:induction false} NextSlot(base: int, size: nat, k: nat)
    ensures SlotAddr(base, size, k + 1) == SlotAddr(base, size, k) + size && SlotAddr(base, size, 0) == base + NODE_HDR
  {
    OneMore(size, k);
  }

  lemma {:induction false} PopChain(slices: seq<Slice>, free: seq<nat>, s2: seq<Slice>)
    requires NoDup(free) && free != [] && |slices| == |s2|
    requires forall i | 0 <= i < |free| :: free[i] < |slices|
    requires Chained(slices, free)
    requires forall k | 0 <= k < |slices| && k != free[0] :: s2[k].next == slices[k].next
    requires forall k | 0 <= k < |slices| && k != free[0] ::
               s2[k].prev == if k == At(free, 1) then NULL else slices[k].prev
    ensures Chained(s2, free[1..])
  {
    var rest := free[1..];
    forall i, j | 0 <= i < j < |rest| && j - i == 1
      ensures s2[rest[i]].next == rest[j] && s2[rest[j]].prev == rest[i]
    {
      assert rest[i] == free[i + 1] && rest[j] == free[j + 1];
    }
  }

  lemma {:induction false} PushChain(slices: seq<Slice>, free: seq<nat>, k: nat, s2: seq<Slice>)
    requires NoDup(free) && k !in free && k < |slices| == |s2|
    requires forall i | 0 <= i < |free| :: free[i] < |slices|
    requires Chained(slices, free)
    requires s2[k].next == NULL && s2[k].prev == At(free, |free| - 1)
    requires forall i | 0 <= i < |slices| && i != k :: s2[i].prev == slices[i].prev
    requires forall i | 0 <= i < |slices| && i != k ::
               s2[i].next == if i == At(free, |free| - 1) then k else slices[i].next
    ensures Chained(s2, free + [k])
  {
    var all := free + [k];
    assert forall i | 0 <= i < |free| :: all[i] == free[i] && free[i] != k;
    forall i, j | 0 <= i < j < |all| && j - i == 1
      ensures s2[all[i]].next == all[j] && s2[all[j]].prev == all[i]
    {
      if j < |free| { assert free[i] != free[|free| - 1]; }
    }
  }

  /** What reusing the first free slice does to a one-node pool. */
  lemma {:induction false} ReuseEffect(m: Store, a: Arena, base: int)
    requires Rep(m, a, base) && a.free != []
    ensures var k, rest := a.free[0], At(a.free, 1);
            && m.Reuse().1 == k
            && m.Reuse().0.nodes == [m.nodes[0].(using := |a.tags| - |a.free| + 1, freeHead := rest)]
            && m.Reuse().0 == m.(firstFree := rest, nodes := m.Reuse().0.nodes, slices := m.Reuse().0.slices)
    ensures Unlinked(m.slices, a.free, m.Reuse().0.slices)
  {
    var k, rest := a.free[0], At(a.free, 1);
    assert m.S(k).next == rest && m.S(k).node == 0 by {
      if |a.free| > 1 { assert m.slices[a.free[0]].next == a.free[1]; }
    }
    if |a.free| > 1 { assert a.free[0] != a.free[1]; }
  }

  /** `s2` is `slices` with the first free slice taken off the list. */
  ghost predicate Unlinked(slices: seq<Slice>, free: seq<nat>, s2: seq<Slice>)
    requires free != []
  {
    && |s2| == |slices|
    && forall i | 0 <= i < |slices| ::
         s2[i] == if i == free[0] then slices[i].(next := NULL, prev := NULL, tag := slices[i].tag + 1)
                  else if i == At(free, 1) then slices[i].(prev := NULL) else slices[i]
  }

  lemma {:induction false} UnlinkedRep(slices: seq<Slice>, a: Arena, base: int, size: nat, s2: seq<Slice>)
    requires a.Valid() && a.free != [] && SliceRep(slices, a.tags, a.free, base, size)
    requires Unlinked(slices, a.free, s2)
    ensures SliceRep(s2, a.tags[a.free[0] := a.tags[a.free[0]] + 1], a.free[1..], base, size)
  {
    PopChain(slices, a.free, s2);
    forall k | 0 <= k < |a.tags| && k !in a.free[1..] ensures s2[k].prev == NULL && s2[k].next == NULL {
      if k != a.free[0] { assert k !in a.free; }
      if |a.free| > 1 { assert a.free[1] in a.free[1..]; }
    }
  }

  lemma {:induction false} ReuseRefines(m: Store, a: Arena, base: int)
    requires Rep(m, a, base) && a.free != []
    ensures Rep(m.Reuse().0, a.Take().0, base) && m.Reuse().1 == a.free[0]
  {
    ReuseEffect(m, a, base);
    UnlinkedRep(m.slices, a, base, m.sliceSize, m.Reuse().0.slices);
  }

  lemma {:induction false} CarveRefines(m: Store, a: Arena, base: int, block: int)
    requires Rep(m, a, base) && a.free == [] && |a.tags| < a.cap
    requires a.tags == [] ==> block == base
    ensures Rep(m.SliceFromPool(block).0, a.Take().0, base) && m.SliceFromPool(block).1 == |a.tags|
  {
    NextSlot(base, m.sliceSize, |a.tags|);
  }

  /** Allocation is `Take`: it returns the slice the arena hands out. */
  lemma {:induction false} TakeRefines(m: Store, a: Arena, base: int, block: int)
    requires Rep(m, a, base) && a.HasRoom()
    requires a.tags == [] ==> block == base
    ensures Rep(m.SliceFromPool(block).0, a.Take().0, base)
    ensures m.SliceFromPool(block).1 == a.Take().1
  {
    if a.free != [] { ReuseRefines(m, a, base); } else { CarveRefines(m, a, base, block); }
  }

  /** `s2` is `slices` with slice k put behind the last free one. */
  ghost predicate Relinked(slices: seq<Slice>, free: seq<nat>, k: nat, s2: seq<Slice>) {
    && |s2| == |slices|
    && forall i | 0 <= i < |slices| ::
         s2[i] == if i == k then slices[i].(tag := slices[i].tag + 1, prev := At(free, |free| - 1))
                  else if i == At(free, |free| - 1) then slices[i].(next := k) else slices[i]
  }

  ghost predicate FreeDoes(m: Store, a: Arena, k: nat, t: Store) {
    && t == m.(firstFree := At(a.free + [k], 0), nodes := t.nodes, slices := t.slices)
    && |m.nodes| == 1
    && t.nodes == [m.nodes[0].(using := |a.tags| - |a.free| - 1, freeTail := k, freeHead := At(a.free + [k], 0))]
    && Relinked(m.slices, a.free, k, t.slices)
  }

  lemma {:induction false} FreeFirst(m: Store, a: Arena, base: int, k: nat)
    requires Rep(m, a, base) && a.InUse(k) && a.free == []
    ensures FreeDoes(m, a, k, m.FreeSlice(k))
  {
  }

  lemma {:induction false} FreeNext(m: Store, a: Arena, base: int, k: nat)
    requires Rep(m, a, base) && a.InUse(k) && a.free != []
    ensures FreeDoes(m, a, k, m.FreeSlice(k))
  {
    assert a.free[|a.free| - 1] in a.free;
    assert (a.free + [k])[0] == a.free[0];
  }

  /** What a free does to a one-node pool: the node is not released, whatever `using` says. */
  lemma {:induction false} FreeEffect(m: Store, a: Arena, base: int, k: nat)
    requires Rep(m, a, base) && a.InUse(k)
    ensures FreeDoes(m, a, k, m.FreeSlice(k))
  {
    if a.free == [] { FreeFirst(m, a, base, k); } else { FreeNext(m, a, base, k); }
  }

  lemma {:induction false} RelinkedRep(slices: seq<Slice>, a: Arena, base: int, size: nat, k: nat, s2: seq<Slice>)
    requires a.Valid() && a.InUse(k) && SliceRep(slices, a.tags, a.free, base, size)
    requires Relinked(slices, a.free, k, s2)
    ensures SliceRep(s2, a.tags[k := a.tags[k] + 1], a.free + [k], base, size)
  {
    PushChain(slices, a.free, k, s2);
    forall i | 0 <= i < |a.tags| && i !in a.free + [k] ensures s2[i].prev == NULL && s2[i].next == NULL {
      assert i !in a.free && i != k;
      if a.free != [] { assert a.free[|a.free| - 1] in a.free; }
    }
  }

  /** Freeing is `Give`: the slice goes to the tail of the list. */
  lemma {:induction false} FreeRefines(m: Store, a: Arena, base: int, k: nat)
    requires Rep(m, a, base) && a.InUse(k)
    ensures Rep(m.FreeSlice(k), a.Give(k), base)
  {
    FreeEffect(m, a, base, k);
    RelinkedRep(m.slices, a, base, m.sliceSize, k, m.FreeSlice(k).slices);
  }

  // ---------- the updates in place ----------

  function EmptyStore(count: nat, size: nat): Store { Store(count, size, NULL, NULL, NULL, [], []) }

  class SlicePool {
    var m: Store
    ghost var arena: Arena
    ghost var base: int

    /** The pool's slices all come from the block at `base`, and it means `arena`. */
    ghost predicate OneNode() reads this { Rep(m, arena, base) }

    constructor (count: nat, size: nat)
      requires 0 < count
      ensures OneNode() && arena == Arena(count, [], []) && m.sliceSize == size
    {
      m := EmptyStore(count, size);
      arena := Arena(count, [], []);
    }

    method AllocNode(block: int)
      modifies this`m
      ensures m == old(m).AllocNode(block)
    {
      var first := m.firstNode;
      var nd := |m.nodes|;
      m := m.(newNode := nd, nodes := m.nodes + [Node(NULL, first, NULL, NULL, 0, 0, block + NODE_HDR, false)]);
      m := m.SetN(first, m.N(first).(prev := nd));
      m := m.(firstNode := nd);
    }

    method SliceFromNode() returns (s: int)
      modifies this`m
      ensures (m, s) == old(m).SliceFromNode()
    {
      var nd := m.newNode;
      var n := m.N(nd);
      s := |m.slices|;
      m := m.SetN(nd, n.(used := n.used + 1, using := n.using + 1, firstAvail := n.firstAvail + m.sliceSize));
      m := m.(slices := m.slices + [Slice(NULL, NULL, nd, 0, n.firstAvail)]);
      if n.used + 1 == m.sliceCount { m := m.(newNode := NULL); }
    }

    method Reuse() returns (s: int)
      modifies this`m
      ensures (m, s) == old(m).Reuse()
    {
      s := m.firstFree;
      var nd := m.S(s).node;
      var rest := m.S(s).next;
      m := m.SetN(nd, m.N(nd).(freeHead := rest, using := m.N(nd).using + 1));
      m := m.(firstFree := rest);
      m := m.SetS(rest, m.S(rest).(prev := NULL));
      m := m.SetS(s, m.S(s).(next := NULL, prev := NULL, tag := m.S(s).tag + 1));
    }

    /** Takes the arena's next slice, for as long as one node suffices. */
    method SliceFromPool(block: int) returns (s: int)
      modifies this
      ensures (m, s) == old(m).SliceFromPool(block)
      ensures old(OneNode() && arena.HasRoom()) ==>
                OneNode() && (arena, s) == old(arena.Take()) && (old(arena).tags != [] ==> base == old(base))
    {
      ghost var m0 := m;
      if m.firstFree != NULL {
        s := Reuse();
      } else {
        if m.newNode == NULL { AllocNode(block); }
        s := SliceFromNode();
      }
      if old(OneNode() && arena.HasRoom()) {
        if arena.tags == [] { base := block; }
        TakeRefines(m0, arena, base, block);
        arena := arena.Take().0;
      }
    }

    method RemoveUnusedNode(nd: int) returns (removed: bool)
      modifies this`m
      ensures (m, removed) == old(m).RemoveUnusedNode(nd)
    {
      var after, before := m.S(m.N(nd).freeTail).next, m.S(m.N(nd).freeHead).prev;
      removed := m.N(nd).using == 0 && (after != NULL || before != NULL);
      if removed {
        m := m.SetS(after, m.S(after).(prev := before));
        if before != NULL {
          m := m.SetS(before, m.S(before).(next := after));
        } else {
          m := m.(firstFree := after);
        }
        var p, q := m.N(nd).prev, m.N(nd).next;
        if p != NULL {
          m := m.SetN(p, m.N(p).(next := q));
        } else {
          m := m.(firstNode := q);
        }
        m := m.SetN(q, m.N(q).(prev := p));
        m := m.SetN(nd, m.N(nd).(released := true));
      }
    }

    method PushFirst(s: int, nd: int)
      modifies this`m
      ensures m == old(m).PushFirst(s, nd)
    {
      var first := m.firstFree;
      m := m.SetN(nd, m.N(nd).(freeHead := s, freeTail := s));
      m := m.SetS(s, m.S(s).(next := first));
      m := m.SetS(first, m.S(first).(prev := s));
      m := m.(firstFree := s);
    }

    method PushLast(s: int, nd: int)
      modifies this`m
      ensures m == old(m).PushLast(s, nd)
    {
      var tail := m.N(nd).freeTail;
      m := m.SetS(s, m.S(s).(next := m.S(tail).next));
      m := m.SetS(m.S(tail).next, m.S(m.S(tail).next).(prev := s));
      m := m.SetS(tail, m.S(tail).(next := s));
      m := m.SetS(s, m.S(s).(prev := tail));
      m := m.SetN(nd, m.N(nd).(freeTail := s));
    }

    method FreeSlice(s: int)
      modifies this`m
      ensures m == old(m).FreeSlice(s)
    {
      var nd := m.S(s).node;
      m := m.SetS(s, m.S(s).(tag := m.S(s).tag + 1));
      m := m.SetN(nd, m.N(nd).(using := m.N(nd).using - 1));
      if m.N(nd).freeHead == NULL {
        PushFirst(s, nd);
      } else {
        var removed := RemoveUnusedNode(nd);
        if !removed { PushLast(s, nd); }
      }
    }

    /** Gives slice `s` back to the arena, for as long as it has one node. */
    method Free(s: int)
      modifies this
      ensures m == old(m).FreeSlice(s)
      ensures 0 <= s && old(OneNode()) && old(arena).InUse(s) ==>
                OneNode() && arena == old(arena).Give(s) && base == old(base)
    {
      ghost var m0 := m;
      FreeSlice(s);
      if 0 <= s && old(OneNode()) && arena.InUse(s) {
        FreeRefines(m0, arena, base, s);
        arena := arena.Give(s);
      }
    }
  }
}
