/**
  Slice pools of Src/elr_mpl/elr_mpl.c with more than one node: a pool that outgrows its node can lose a
  slice, whatever its capacity, and what becomes of that slice; and what releasing a node keeps.
*/
module LostSlices {
  import opened Lists
  import opened Slices

  // ---------- with two nodes it is not ----------

  /** A pool whose one node is carved up and whose slices are all in use. */
  ghost predicate Full(m: Store, a: Arena, base: int) { Rep(m, a, base) && a.free == [] && |a.tags| == a.cap }

  /** One allocation more brings a second node, whose first slice has the number `cap`. */
  lemma {:induction false} SecondNode(m: Store, a: Arena, base: int, block: int)
    requires Full(m, a, base)
    ensures var (n, s) := m.SliceFromPool(block);
            && s == a.cap && |n.nodes| == 2 && n.firstFree == NULL && n.newNode == (if a.cap == 1 then NULL else 1)
            && n.slices == m.slices + [Slice(NULL, NULL, 1, 0, block + NODE_HDR)]
            && n.nodes[0].freeHead == NULL && n.nodes[0].using == a.cap && !n.nodes[0].released
            && n.nodes[1].freeHead == NULL && n.nodes[1].using == 1 && !n.nodes[1].released
            && n.nodes[1].used == 1 && n.sliceCount == a.cap
  {
  }

  /** Freeing slice 0 and then slice `cap` makes both heads of their nodes' lists, and links them. */
  lemma {:induction false} FreeBoth(n: Store, x: nat)
    requires |n.nodes| == 2 && 0 < x < |n.slices| && n.slices[0].node == 0 && n.slices[x].node == 1
    requires n.firstFree == NULL && n.nodes[0].freeHead == NULL && n.nodes[1].freeHead == NULL
    requires n.slices[0].prev == NULL && n.slices[x].prev == NULL
    ensures var f := n.FreeSlice(0).FreeSlice(x);
            && f == n.(firstFree := x, nodes := f.nodes, slices := f.slices)
            && f.slices == n.slices[0 := n.slices[0].(next := NULL, prev := x, tag := n.slices[0].tag + 1)]
                                   [x := n.slices[x].(next := 0, prev := NULL, tag := n.slices[x].tag + 1)]
            && f.nodes == [n.nodes[0].(freeHead := 0, freeTail := 0, using := n.nodes[0].using - 1),
                           n.nodes[1].(freeHead := x, freeTail := x, using := n.nodes[1].using - 1)]
  {
    var g := n.FreeSlice(0);
    assert g == n.(firstFree := 0, nodes := g.nodes, slices := g.slices);
    assert g.slices == n.slices[0 := n.slices[0].(next := NULL, tag := n.slices[0].tag + 1)];
    assert g.nodes == [n.nodes[0].(freeHead := 0, freeTail := 0, using := n.nodes[0].using - 1), n.nodes[1]];
  }

  /** Taking slice x again points its node's list head at slice 0, in the other node. */
  lemma {:induction false} TakeAgain(f: Store, x: nat)
    requires |f.nodes| == 2 && 0 < x < |f.slices| && f.slices[x].node == 1 && f.slices[x].next == 0 && f.firstFree == x
    ensures var (t, s) := f.SliceFromPool(0);
            && s == x && t == f.(firstFree := 0, nodes := t.nodes, slices := t.slices)
            && t.slices == f.slices[0 := f.slices[0].(prev := NULL)]
                                   [x := f.slices[x].(next := NULL, prev := NULL, tag := f.slices[x].tag + 1)]
            && t.nodes == [f.nodes[0], f.nodes[1].(freeHead := 0, using := f.nodes[1].using + 1)]
  {
  }

  /** So freeing it again links it behind its node's last free slice, which is itself. */
  lemma {:induction false} FreeAgain(t: Store, x: nat)
    requires |t.nodes| == 2 && 0 < x < |t.slices| && t.slices[x].node == 1
    requires t.slices[x].next == NULL && t.slices[0].prev == NULL && t.nodes[1].freeHead == 0
             && t.nodes[1].freeTail == x
    ensures var l := t.FreeSlice(x);
            && l == t.(nodes := l.nodes, slices := l.slices)
            && l.slices == t.slices[x := t.slices[x].(next := x, prev := x, tag := t.slices[x].tag + 1)]
            && l.nodes == [t.nodes[0], t.nodes[1].(using := t.nodes[1].using - 1)]
  {
  }

  /** Whether p is a slice of node n. */
  predicate Inside(m: Store, n: int, p: int) { 0 <= p < |m.slices| && m.slices[p].node == n }

  /** Whether p is NULL or a slice of another node. */
  predicate Outside(m: Store, n: int, p: int) { NULL <= p < |m.slices| && !Inside(m, n, p) }

  /** A pointer that slice p may hold: NULL or, for a slice of node n, a slice of node n, and for
      another one none of them. */
  predicate Side(m: Store, n: int, p: int, v: int) {
    if Inside(m, n, p) then v == NULL || Inside(m, n, v) else Outside(m, n, v)
  }

  predicate LinksSide(m: Store, n: int, p: int) { Side(m, n, p, m.S(p).next) && Side(m, n, p, m.S(p).prev) }

  /** The slices of node n and those of the other nodes have no link to each other. */
  ghost predicate SlicesSplit(m: Store, n: int) {
    forall p {:trigger LinksSide(m, n, p)} | 0 <= p < |m.slices| :: LinksSide(m, n, p)
  }

  predicate HeadSide(m: Store, n: int, k: int) { Outside(m, n, m.N(k).freeHead) && Outside(m, n, m.N(k).freeTail) }

  /** Neither the free list's head nor another node's list points to a slice of node n. */
  ghost predicate HeadsSplit(m: Store, n: int) {
    && Outside(m, n, m.firstFree)
    && (forall k {:trigger HeadSide(m, n, k)} | 0 <= k < |m.nodes| && k != n :: HeadSide(m, n, k))
  }

  /** Slice x of node n is free by its tag but cut off from the free list. */
  ghost predicate Lost(m: Store, n: nat, x: nat) {
    && n < |m.nodes| && Inside(m, n, x) && m.slices[x].tag % 2 == 1 && !m.nodes[n].released
    && SlicesSplit(m, n) && HeadsSplit(m, n)
    && m.nodes[n].freeHead != NULL && Outside(m, n, m.nodes[n].freeHead) && Inside(m, n, m.nodes[n].freeTail)
  }

  /** The bound of one node is exact, for every capacity: from every full pool, one allocation more,
      freeing slice 0 and the new slice, and taking and freeing the new slice once more leaves it free
      by its tag and by its node's counter, linked to itself and cut off from the free list, which
      holds only slice 0. */
  lemma {:induction false} TwoNodesLoseASlice(m: Store, a: Arena, base: int, block: int) returns (lost: Store)
    requires Full(m, a, base)
    ensures var x := a.cap;
            var f := m.SliceFromPool(block).0.FreeSlice(0).FreeSlice(x);
            && f.SliceFromPool(0).1 == x && lost == f.SliceFromPool(0).0.FreeSlice(x)
            && lost.firstFree == 0 && lost.S(0).next == NULL && lost.S(x).next == x && lost.S(x).prev == x
            && lost.N(1).using == 0 && lost.N(1).used == 1 && lost.newNode == (if x == 1 then NULL else 1)
            && lost.sliceCount == a.cap && |lost.slices| == a.cap + 1 && |lost.nodes| == 2 && Lost(lost, 1, x)
            && lost.N(1).freeHead == 0 && lost.N(1).freeTail == x && lost.S(0).prev == NULL && lost.S(0).node == 0
  {
    var x := a.cap;
    SecondNode(m, a, base, block);
    var n := m.SliceFromPool(block).0;
    FreeBoth(n, x);
    var f := n.FreeSlice(0).FreeSlice(x);
    TakeAgain(f, x);
    var t := f.SliceFromPool(0).0;
    FreeAgain(t, x);
    lost := t.FreeSlice(x);
    LostNow(m, a, base, lost, block);
  }

  lemma {:induction false} LostNow(m: Store, a: Arena, base: int, lost: Store, block: int)
    requires Full(m, a, base) && |lost.slices| == a.cap + 1 && |lost.nodes| == 2 && lost.firstFree == 0
    requires forall k | 0 < k < a.cap :: lost.slices[k] == m.slices[k]
    requires var s := lost.slices[0]; s.node == 0 && s.next == NULL && s.prev == NULL
    requires lost.slices[a.cap] == Slice(a.cap, a.cap, 1, 3, block + NODE_HDR)
    requires lost.nodes[0].freeHead == 0 && lost.nodes[0].freeTail == 0 && lost.nodes[1].freeHead == 0
    requires lost.nodes[1].freeTail == a.cap && !lost.nodes[1].released
    ensures Lost(lost, 1, a.cap)
  {
    forall p | 0 <= p < |lost.slices| ensures LinksSide(lost, 1, p) {
      if 0 < p < a.cap { assert lost.slices[p] == m.slices[p] && m.slices[p].node == 0; }
    }
    assert HeadSide(lost, 1, 0);
  }

  // ---------- what becomes of the lost slice ----------

  datatype StoreOp = TakeFrom(block: int) | FreeOf(s: int)

  /** Callers free only slices in use. */
  predicate Legal(m: Store, op: StoreOp) {
    op.FreeOf? ==> 0 <= op.s < |m.slices| && m.slices[op.s].tag % 2 == 0
  }

  function Do(m: Store, op: StoreOp): Store {
    match op
    case TakeFrom(block) => m.SliceFromPool(block).0
    case FreeOf(s) => m.FreeSlice(s)
  }

  ghost predicate StoreRuns(m: Store, ops: seq<StoreOp>, t: Store)
    decreases |ops|
  {
    if ops == [] then m == t else Legal(m, ops[0]) && StoreRuns(Do(m, ops[0]), ops[1..], t)
  }

  /** The slices that the allocations of a history return. */
  function Returned(m: Store, ops: seq<StoreOp>): seq<int>
    decreases |ops|
  {
    if ops == [] then []
    else (if ops[0].TakeFrom? then [m.SliceFromPool(ops[0].block).1] else []) + Returned(Do(m, ops[0]), ops[1..])
  }

  lemma {:induction false} LinksOf(m: Store, n: nat, x: nat, p: int)
    requires Lost(m, n, x) && NULL <= p < |m.slices|
    ensures Side(m, n, p, m.S(p).next) && Side(m, n, p, m.S(p).prev)
  {
    assert LinksSide(m, n, p);
  }

  lemma {:induction false} HeadOf(m: Store, n: nat, x: nat, k: int)
    requires Lost(m, n, x)
    ensures 0 <= k < |m.nodes| ==> Outside(m, n, m.N(k).freeHead) && (k != n ==> Outside(m, n, m.N(k).freeTail))
  {
    if 0 <= k < |m.nodes| && k != n { assert HeadSide(m, n, k); }
  }

  /** Both stores have the same slices in the same nodes. */
  ghost predicate SameSides(m: Store, t: Store, n: int) {
    |t.slices| == |m.slices| && forall q {:trigger Inside(t, n, q)} :: Inside(t, n, q) == Inside(m, n, q)
  }

  lemma {:induction false} WriteSlice(m: Store, n: nat, x: nat, p: int, r: Slice)
    requires Lost(m, n, x) && r.node == m.S(p).node && (p == x ==> r.tag % 2 == 1)
    requires 0 <= p < |m.slices| ==> Side(m, n, p, r.next) && Side(m, n, p, r.prev)
    ensures Lost(m.SetS(p, r), n, x) && SameSides(m, m.SetS(p, r), n)
    ensures forall q: int :: m.SetS(p, r).S(q).node == m.S(q).node
    ensures forall q: int | q != p :: m.SetS(p, r).S(q) == m.S(q)
  {
    var t := m.SetS(p, r);
    assert SameSides(m, t, n);
    forall q | 0 <= q < |t.slices| ensures LinksSide(t, n, q) { assert LinksSide(m, n, q); }
    forall k | 0 <= k < |t.nodes| && k != n ensures HeadSide(t, n, k) { assert HeadSide(m, n, k); }
  }

  lemma {:induction false} WriteNode(m: Store, n: nat, x: nat, k: int, r: Node)
    requires Lost(m, n, x)
    requires 0 <= k < |m.nodes| ==> Outside(m, n, r.freeHead)
    requires 0 <= k < |m.nodes| && k != n ==> Outside(m, n, r.freeTail)
    requires k == n ==> r.freeHead != NULL && Inside(m, n, r.freeTail) && !r.released
    ensures Lost(m.SetN(k, r), n, x) && SameSides(m, m.SetN(k, r), n)
  {
    var t := m.SetN(k, r);
    assert SameSides(m, t, n);
    forall q | 0 <= q < |t.slices| ensures LinksSide(t, n, q) { assert LinksSide(m, n, q); }
    forall j | 0 <= j < |t.nodes| && j != n ensures HeadSide(t, n, j) { assert HeadSide(m, n, j); }
  }

  lemma {:induction false} WriteFirst(m: Store, n: nat, x: nat, v: int, first: int)
    requires Lost(m, n, x) && Outside(m, n, v)
    ensures Lost(m.(firstFree := v, firstNode := first), n, x)
            && SameSides(m, m.(firstFree := v, firstNode := first), n)
  {
    var t := m.(firstFree := v, firstNode := first);
    assert SameSides(m, t, n);
    forall q | 0 <= q < |t.slices| ensures LinksSide(t, n, q) { assert LinksSide(m, n, q); }
    forall k | 0 <= k < |t.nodes| && k != n ensures HeadSide(t, n, k) { assert HeadSide(m, n, k); }
  }

  lemma {:induction false} ReuseKeepsLost(m: Store, n: nat, x: nat)
    requires Lost(m, n, x) && m.firstFree != NULL
    ensures Lost(m.Reuse().0, n, x) && m.Reuse().1 != x
  {
    var s := m.firstFree;
    var nd, rest := m.S(s).node, m.S(s).next;
    assert Outside(m, n, s) && s != NULL && nd != n;
    LinksOf(m, n, x, s);
    var r := m.N(nd).(freeHead := rest, using := m.N(nd).using + 1);
    HeadOf(m, n, x, nd);
    WriteNode(m, n, x, nd, r);
    var a := m.SetN(nd, r);
    assert a.slices == m.slices;
    WriteFirst(a, n, x, rest, a.firstNode);
    var t := DetachKeepsLost(a.(firstFree := rest), n, x, s, rest);
    assert m.Reuse() == (t, s);
  }

  lemma {:induction false} DetachKeepsLost(m: Store, n: nat, x: nat, s: int, rest: int) returns (t: Store)
    requires Lost(m, n, x) && 0 <= s < |m.slices| && m.slices[s].node != n && Outside(m, n, rest)
    ensures var c := m.SetS(rest, m.S(rest).(prev := NULL));
            t == c.SetS(s, c.S(s).(next := NULL, prev := NULL, tag := c.S(s).tag + 1))
    ensures Lost(t, n, x)
  {
    LinksOf(m, n, x, rest);
    WriteSlice(m, n, x, rest, m.S(rest).(prev := NULL));
    var c := m.SetS(rest, m.S(rest).(prev := NULL));
    WriteSlice(c, n, x, s, c.S(s).(next := NULL, prev := NULL, tag := c.S(s).tag + 1));
    t := c.SetS(s, c.S(s).(next := NULL, prev := NULL, tag := c.S(s).tag + 1));
  }

  lemma {:induction false} CarveKeepsLost(m: Store, n: nat, x: nat)
    requires Lost(m, n, x)
    ensures Lost(m.SliceFromNode().0, n, x) && m.SliceFromNode().1 != x
  {
    var t := m.SliceFromNode().0;
    assert forall p | 0 <= p < |m.slices| :: t.slices[p] == m.slices[p];
    assert forall p {:trigger Outside(t, n, p)} | Outside(m, n, p) :: Outside(t, n, p);
    assert forall p {:trigger Inside(t, n, p)} | Inside(m, n, p) :: Inside(t, n, p);
    forall q | 0 <= q < |t.slices| ensures LinksSide(t, n, q) {
      if q < |m.slices| { assert LinksSide(m, n, q); }
    }
    forall k | 0 <= k < |t.nodes| && k != n ensures HeadSide(t, n, k) { assert HeadSide(m, n, k); }
  }

  lemma {:induction false} NewNodeKeepsLost(m: Store, n: nat, x: nat, block: int)
    requires Lost(m, n, x)
    ensures Lost(m.AllocNode(block), n, x)
  {
    var t := m.AllocNode(block);
    assert t.slices == m.slices;
    assert forall k | 0 <= k < |m.nodes| :: t.nodes[k] == m.nodes[k].(prev := t.nodes[k].prev);
    assert SameSides(m, t, n);
    forall q | 0 <= q < |t.slices| ensures LinksSide(t, n, q) { assert LinksSide(m, n, q); }
    forall k | 0 <= k < |t.nodes| && k != n ensures HeadSide(t, n, k) {
      if k < |m.nodes| { assert HeadSide(m, n, k); }
    }
  }

  lemma {:induction false} TakeKeepsLost(m: Store, n: nat, x: nat, block: int)
    requires Lost(m, n, x)
    ensures Lost(m.SliceFromPool(block).0, n, x) && m.SliceFromPool(block).1 != x
  {
    if m.firstFree != NULL {
      ReuseKeepsLost(m, n, x);
    } else if m.newNode != NULL {
      CarveKeepsLost(m, n, x);
    } else {
      NewNodeKeepsLost(m, n, x, block);
      CarveKeepsLost(m.AllocNode(block), n, x);
    }
  }

  /** The tag and the counter, which the first two assignments of a free change. */
  function Counted(m: Store, s: int): Store {
    var nd := m.S(s).node;
    m.SetS(s, m.S(s).(tag := m.S(s).tag + 1)).SetN(nd, m.N(nd).(using := m.N(nd).using - 1))
  }

  lemma {:induction false} CountedKeepsLost(m: Store, n: nat, x: nat, s: int)
    requires Lost(m, n, x) && Legal(m, FreeOf(s))
    ensures Lost(Counted(m, s), n, x)
  {
    var t := Counted(m, s);
    assert forall p | 0 <= p < |m.slices| :: t.slices[p] == m.slices[p].(tag := t.slices[p].tag);
    assert forall k | 0 <= k < |m.nodes| :: t.nodes[k] == m.nodes[k].(using := t.nodes[k].using);
    assert SameSides(m, t, n);
    forall q | 0 <= q < |t.slices| ensures LinksSide(t, n, q) { assert LinksSide(m, n, q); }
    forall k | 0 <= k < |t.nodes| && k != n ensures HeadSide(t, n, k) { assert HeadSide(m, n, k); }
  }

  lemma {:induction false} PushFirstKeepsLost(m: Store, n: nat, x: nat, s: int, nd: int)
    requires Lost(m, n, x) && 0 <= s < |m.slices| && m.slices[s].node == nd != n
    ensures Lost(m.PushFirst(s, nd), n, x)
  {
    var a := m.SetN(nd, m.N(nd).(freeHead := s, freeTail := s));
    HeadOf(m, n, x, nd);
    WriteNode(m, n, x, nd, m.N(nd).(freeHead := s, freeTail := s));
    var b := a.SetS(s, a.S(s).(next := m.firstFree));
    LinksOf(a, n, x, s);
    WriteSlice(a, n, x, s, a.S(s).(next := m.firstFree));
    var c := b.SetS(m.firstFree, b.S(m.firstFree).(prev := s));
    LinksOf(b, n, x, m.firstFree);
    WriteSlice(b, n, x, m.firstFree, b.S(m.firstFree).(prev := s));
    WriteFirst(c, n, x, s, c.firstNode);
  }

  lemma {:induction false} InsertKeepsLost(m: Store, n: nat, x: nat, s: int, tail: int) returns (t: Store)
    requires Lost(m, n, x) && 0 <= s < |m.slices| && s != x && NULL <= tail < |m.slices|
    requires tail == NULL || (Inside(m, n, tail) <==> Inside(m, n, s))
    ensures var a := m.SetS(s, m.S(s).(next := m.S(tail).next));
            t == a.SetS(a.S(tail).next, a.S(a.S(tail).next).(prev := s))
    ensures Lost(t, n, x) && |t.slices| == |m.slices| && t.nodes == m.nodes
            && forall q: int :: t.S(q).node == m.S(q).node
  {
    LinksOf(m, n, x, tail);
    LinksOf(m, n, x, s);
    var a := m.SetS(s, m.S(s).(next := m.S(tail).next));
    WriteSlice(m, n, x, s, m.S(s).(next := m.S(tail).next));
    LinksOf(a, n, x, tail);
    var q := a.S(tail).next;
    LinksOf(a, n, x, q);
    WriteSlice(a, n, x, q, a.S(q).(prev := s));
    t := a.SetS(q, a.S(q).(prev := s));
  }

  lemma {:induction false} PushLastKeepsLost(m: Store, n: nat, x: nat, s: int, nd: int)
    requires Lost(m, n, x) && 0 <= s < |m.slices| && s != x && m.slices[s].node == nd && 0 <= nd < |m.nodes|
    ensures Lost(m.PushLast(s, nd), n, x)
  {
    var tail := m.N(nd).freeTail;
    HeadOf(m, n, x, nd);
    var b := InsertKeepsLost(m, n, x, s, tail);
    LinksOf(b, n, x, tail);
    var c := b.SetS(tail, b.S(tail).(next := s));
    WriteSlice(b, n, x, tail, b.S(tail).(next := s));
    LinksOf(c, n, x, s);
    var d := c.SetS(s, c.S(s).(prev := tail));
    WriteSlice(c, n, x, s, c.S(s).(prev := tail));
    HeadOf(d, n, x, nd);
    WriteNode(d, n, x, nd, d.N(nd).(freeTail := s));
    assert m.PushLast(s, nd) == d.SetN(nd, d.N(nd).(freeTail := s));
  }

  lemma {:induction false} RemoveKeepsLost(m: Store, n: nat, x: nat, nd: int)
    requires Lost(m, n, x) && 0 <= nd < |m.nodes| && nd != n
    ensures Lost(m.RemoveUnusedNode(nd).0, n, x)
  {
    var after, before := m.S(m.N(nd).freeTail).next, m.S(m.N(nd).freeHead).prev;
    HeadOf(m, n, x, nd);
    LinksOf(m, n, x, m.N(nd).freeTail);
    LinksOf(m, n, x, m.N(nd).freeHead);
    if m.RemoveUnusedNode(nd).1 {
      LinksOf(m, n, x, after);
      WriteSlice(m, n, x, after, m.S(after).(prev := before));
      var a := m.SetS(after, m.S(after).(prev := before));
      LinksOf(a, n, x, before);
      if before != NULL {
        WriteSlice(a, n, x, before, a.S(before).(next := after));
      } else {
        WriteFirst(a, n, x, after, a.firstNode);
      }
      var b := if before != NULL then a.SetS(before, a.S(before).(next := after)) else a.(firstFree := after);
      NodesKeepLost(b, n, x, nd);
    }
  }

  lemma {:induction false} NodesKeepLost(m: Store, n: nat, x: nat, nd: int)
    requires Lost(m, n, x) && 0 <= nd < |m.nodes| && nd != n
    ensures Lost(m.DropNode(nd), n, x)
  {
    var p, q := m.N(nd).prev, m.N(nd).next;
    var a := if p != NULL then m.SetN(p, m.N(p).(next := q)) else m.(firstNode := q);
    HeadOf(m, n, x, p);
    if p != NULL { WriteNode(m, n, x, p, m.N(p).(next := q)); } else { WriteFirst(m, n, x, m.firstFree, q); }
    HeadOf(a, n, x, q);
    WriteNode(a, n, x, q, a.N(q).(prev := p));
    var b := a.SetN(q, a.N(q).(prev := p));
    HeadOf(b, n, x, nd);
    WriteNode(b, n, x, nd, b.N(nd).(released := true));
  }

  /** The only way for the lost slice to come back is that its node is released first. */
  lemma {:induction false} FreeKeepsLost(m: Store, n: nat, x: nat, s: int)
    requires Lost(m, n, x) && Legal(m, FreeOf(s)) && !m.FreeSlice(s).N(n).released
    ensures Lost(m.FreeSlice(s), n, x)
  {
    CountedKeepsLost(m, n, x, s);
    var c, nd := Counted(m, s), m.S(s).node;
    if c.N(nd).freeHead == NULL {
      PushFirstKeepsLost(c, n, x, s, nd);
    } else if c.RemoveUnusedNode(nd).1 {
      if nd != n { RemoveKeepsLost(c, n, x, nd); }
    } else {
      PushLastKeepsLost(c, n, x, s, nd);
    }
  }

  /** Slices stay in their nodes, and no node but nd is released. */
  ghost predicate Framed(m: Store, t: Store, nd: int) {
    && t.newNode == m.newNode && |t.slices| == |m.slices| && |t.nodes| == |m.nodes|
    && (forall p | 0 <= p < |m.slices| :: t.slices[p].node == m.slices[p].node)
    && (forall k | 0 <= k < |m.nodes| ::
          (m.nodes[k].released ==> t.nodes[k].released) && (k != nd ==> t.nodes[k].released == m.nodes[k].released))
  }

  lemma {:induction false} PushFirstFramed(m: Store, s: int, nd: int)
    ensures Framed(m, m.PushFirst(s, nd), nd)
  {
  }

  lemma {:induction false} PushLastFramed(m: Store, s: int, nd: int)
    ensures Framed(m, m.PushLast(s, nd), nd)
  {
    var tail := m.N(nd).freeTail;
    var a := m.SetS(s, m.S(s).(next := m.S(tail).next));
    var b := a.SetS(a.S(tail).next, a.S(a.S(tail).next).(prev := s));
    assert Framed(m, b, nd);
    var c := b.SetS(tail, b.S(tail).(next := s));
    var d := c.SetS(s, c.S(s).(prev := tail));
    assert Framed(b, d, nd);
  }

  lemma {:induction false} DropFramed(m: Store, nd: int)
    ensures Framed(m, m.DropNode(nd), nd)
  {
  }

  lemma {:induction false} RemoveFramed(m: Store, nd: int)
    ensures Framed(m, m.RemoveUnusedNode(nd).0, nd)
  {
    var after, before := m.S(m.N(nd).freeTail).next, m.S(m.N(nd).freeHead).prev;
    var a := m.SetS(after, m.S(after).(prev := before));
    var b := if before != NULL then a.SetS(before, a.S(before).(next := after)) else a.(firstFree := after);
    assert Framed(m, b, nd);
    DropFramed(b, nd);
  }

  lemma {:induction false} FreeFramed(m: Store, s: int)
    ensures Framed(m, m.FreeSlice(s), m.S(s).node)
  {
    var c, nd := Counted(m, s), m.S(s).node;
    assert Framed(m, c, nd);
    PushFirstFramed(c, s, nd);
    RemoveFramed(c, nd);
    PushLastFramed(c, s, nd);
  }

  lemma {:induction false} TakeReleasesNone(m: Store, block: int, k: nat)
    requires k < |m.nodes| && m.nodes[k].released
    ensures k < |m.SliceFromPool(block).0.nodes| && m.SliceFromPool(block).0.nodes[k].released
  {
  }

  lemma {:induction false} ReleasedStays(m: Store, op: StoreOp, k: nat)
    requires k < |m.nodes| && m.nodes[k].released
    ensures k < |Do(m, op).nodes| && Do(m, op).nodes[k].released
  {
    match op
    case TakeFrom(block) => TakeReleasesNone(m, block, k);
    case FreeOf(s) => FreeFramed(m, s);
  }

  lemma {:induction false} ReleasedStaysInRun(m: Store, ops: seq<StoreOp>, t: Store, k: nat)
    requires k < |m.nodes| && m.nodes[k].released && StoreRuns(m, ops, t)
    ensures t.N(k).released
    decreases |ops|
  {
    if ops != [] {
      ReleasedStays(m, ops[0], k);
      ReleasedStaysInRun(Do(m, ops[0]), ops[1..], t, k);
    }
  }

  /** As long as its node has not been released, no later history, however long and over however many
      nodes, returns the lost slice. */
  lemma {:induction false} StaysLost(m: Store, ops: seq<StoreOp>, t: Store, n: nat, x: nat)
    requires Lost(m, n, x) && StoreRuns(m, ops, t) && !t.N(n).released
    ensures Lost(t, n, x) && x !in Returned(m, ops)
    decreases |ops|
  {
    if ops != [] {
      var u := Do(m, ops[0]);
      StepKeepsLost(m, ops[0], ops[1..], t, n, x);
      StaysLost(u, ops[1..], t, n, x);
    }
  }

  lemma {:induction false} StepKeepsLost(m: Store, op: StoreOp, rest: seq<StoreOp>, t: Store, n: nat, x: nat)
    requires Lost(m, n, x) && Legal(m, op) && StoreRuns(Do(m, op), rest, t) && !t.N(n).released
    ensures Lost(Do(m, op), n, x) && (op.TakeFrom? ==> m.SliceFromPool(op.block).1 != x)
  {
    match op
    case TakeFrom(block) => TakeKeepsLost(m, n, x, block);
    case FreeOf(s) =>
      StillStands(m, s, rest, t, n);
      FreeKeepsLost(m, n, x, s);
  }

  lemma {:induction false} StillStands(m: Store, s: int, rest: seq<StoreOp>, t: Store, n: nat)
    requires n < |m.nodes| && StoreRuns(m.FreeSlice(s), rest, t) && !t.N(n).released
    ensures !m.FreeSlice(s).N(n).released
  {
    FreeFramed(m, s);
    if m.FreeSlice(s).N(n).released { ReleasedStaysInRun(m.FreeSlice(s), rest, t, n); }
  }

  /** The lost slice is the only one of its node, and will be. */
  ghost predicate Alone(m: Store, n: nat, x: nat) {
    Lost(m, n, x) && m.newNode != n && forall p | 0 <= p < |m.slices| :: m.slices[p].node == n ==> p == x
  }

  lemma {:induction false} StaysAlone(m: Store, op: StoreOp, n: nat, x: nat)
    requires Alone(m, n, x) && Legal(m, op)
    ensures Alone(Do(m, op), n, x) && (op.TakeFrom? ==> m.SliceFromPool(op.block).1 != x)
  {
    match op
    case TakeFrom(block) => TakeKeepsLost(m, n, x, block);
    case FreeOf(s) =>
      FreeFramed(m, s);
      FreeKeepsLost(m, n, x, s);
  }

  /** With one slice per node the slice is lost for ever. */
  lemma {:induction false} LostForever(m: Store, ops: seq<StoreOp>, t: Store, n: nat, x: nat)
    requires Alone(m, n, x) && StoreRuns(m, ops, t)
    ensures Alone(t, n, x) && x !in Returned(m, ops)
    decreases |ops|
  {
    if ops != [] {
      StaysAlone(m, ops[0], n, x);
      LostForever(Do(m, ops[0]), ops[1..], t, n, x);
    }
  }

  /** After the history above, whatever is allocated and freed later: with one slice per node the lost
      slice never comes back, and otherwise not before its node has been released. */
  lemma {:induction false} NeverReturned(m: Store, a: Arena, base: int, block: int, lost: Store, ops: seq<StoreOp>,
      t: Store)
    requires Full(m, a, base)
    requires lost == m.SliceFromPool(block).0.FreeSlice(0).FreeSlice(a.cap).SliceFromPool(0).0.FreeSlice(a.cap)
    requires StoreRuns(lost, ops, t) && (a.cap > 1 ==> !t.N(1).released)
    ensures a.cap !in Returned(lost, ops)
  {
    var l := TwoNodesLoseASlice(m, a, base, block);
    if a.cap == 1 {
      assert |lost.slices| == 2 && lost.slices[0] == lost.S(0);
      LostForever(lost, ops, t, 1, 1);
    } else {
      StaysLost(lost, ops, t, 1, a.cap);
    }
  }

  /** With more slices per node it does come back, out of a node that has been given back: taking slice
      0, carving the next slice of the second node and freeing that releases the node and puts the
      lost slice at the head of the free list. */
  lemma {:induction false} ComesBackReleased(m: Store, a: Arena, base: int, block: int)
    requires Full(m, a, base) && a.cap > 1
    ensures var x := a.cap;
            var lost := m.SliceFromPool(block).0.FreeSlice(0).FreeSlice(x).SliceFromPool(0).0.FreeSlice(x);
            var t := lost.SliceFromPool(0).0.SliceFromPool(0).0.FreeSlice(x + 1);
            t.N(1).released && t.SliceFromPool(0).1 == x
  {
    var x := a.cap;
    var lost := TwoNodesLoseASlice(m, a, base, block);
    TakeZero(lost, x);
    var u := lost.SliceFromPool(0).0;
    CarveSecond(u, x);
    ReleaseSecond(u.SliceFromPool(0).0, x);
  }

  lemma {:induction false} TakeZero(l: Store, x: nat)
    requires 0 < x && |l.slices| == x + 1 && |l.nodes| == 2 && l.firstFree == 0 && l.S(0).next == NULL
             && l.S(0).node == 0
    ensures var u := l.SliceFromPool(0).0;
            && u.firstFree == NULL && u.newNode == l.newNode && |u.slices| == x + 1 && |u.nodes| == 2
            && u.N(1) == l.N(1) && u.S(x) == l.S(x) && u.S(0).prev == NULL && u.sliceCount == l.sliceCount
  {
  }

  lemma {:induction false} CarveSecond(u: Store, x: nat)
    requires 0 < x && |u.slices| == x + 1 && |u.nodes| == 2 && u.firstFree == NULL && u.newNode == 1
    ensures var v := u.SliceFromPool(0).0;
            && |v.slices| == x + 2 && |v.nodes| == 2 && v.S(x + 1).node == 1 && v.S(x) == u.S(x) && v.S(0) == u.S(0)
            && v.N(1).using == u.N(1).using + 1 && v.N(1).freeHead == u.N(1).freeHead
                && v.N(1).freeTail == u.N(1).freeTail
  {
  }

  lemma {:induction false} ReleaseSecond(v: Store, x: nat)
    requires 0 < x && |v.slices| == x + 2 && |v.nodes| == 2 && v.S(x + 1).node == 1 && v.N(1).using == 1
    requires v.S(x).next == x && v.S(0).prev == NULL && v.N(1).freeHead == 0 && v.N(1).freeTail == x
    ensures v.FreeSlice(x + 1).N(1).released && v.FreeSlice(x + 1).firstFree == x
  {
  }

  // ---------- releasing a node ----------

  /** The nodes of the pool are linked in both directions, in order. */
  ghost predicate NodesChained(nodes: seq<Node>, order: seq<nat>)
    requires forall i | 0 <= i < |order| :: order[i] < |nodes|
  {
    && (order != [] ==> nodes[order[0]].prev == NULL && nodes[order[|order| - 1]].next == NULL)
    && (forall i, j | 0 <= i < j < |order| && j - i == 1 ::
          nodes[order[i]].next == order[j] && nodes[order[j]].prev == order[i])
  }

  /** The links before and behind a segment of the free list. */
  lemma {:induction false} SegmentEnds(slices: seq<Slice>, pre: seq<nat>, seg: seq<nat>, post: seq<nat>)
    requires seg != [] && (forall i | 0 <= i < |pre + seg + post| :: (pre + seg + post)[i] < |slices|)
    requires Chained(slices, pre + seg + post)
    ensures seg[0] < |slices| && seg[|seg| - 1] < |slices|
    ensures slices[seg[0]].prev == At(pre, |pre| - 1) && slices[seg[|seg| - 1]].next == At(post, 0)
  {
    var l, a, b := pre + seg + post, |pre|, |pre| + |seg|;
    assert l[a] == seg[0] && l[b - 1] == seg[|seg| - 1];
    if a > 0 { assert l[a - 1] == pre[a - 1] && slices[l[a]].prev == l[a - 1]; }
    if b < |l| { assert l[b] == post[0] && slices[l[b - 1]].next == l[b]; }
  }

  /** The links of the slices on both sides of the segment now point to each other. */
  ghost predicate GapClosed(slices: seq<Slice>, before: int, after: int, s2: seq<Slice>) {
    && |s2| == |slices|
    && forall i | 0 <= i < |slices| ::
         s2[i].prev == (if i == after then before else slices[i].prev)
         && s2[i].next == (if i == before then after else slices[i].next)
  }

  /** A free list around a segment, and the list with the segment's gap closed. */
  ghost predicate Gap(slices: seq<Slice>, pre: seq<nat>, seg: seq<nat>, post: seq<nat>, s2: seq<Slice>) {
    && NoDup(pre + seg + post) && seg != []
    && (forall i | 0 <= i < |pre + seg + post| :: (pre + seg + post)[i] < |slices|)
    && Chained(slices, pre + seg + post) && GapClosed(slices, At(pre, |pre| - 1), At(post, 0), s2)
  }

  /** A slice outside the segment keeps its links, except where the gap was. */
  lemma {:induction false} GapSide(slices: seq<Slice>, pre: seq<nat>, seg: seq<nat>, post: seq<nat>, s2: seq<Slice>,
      i: nat)
    requires Gap(slices, pre, seg, post, s2) && i < |pre + post|
    ensures var c := (pre + post)[i];
            && c < |s2| && s2[c].next == At(pre + post, i + 1) && s2[c].prev == At(pre + post, i - 1)
  {
    var l, k, d := pre + seg + post, pre + post, |seg|;
    var a := if i < |pre| then i else i + d;
    assert k[i] == l[a];
    Neighbours(slices, l, a);
    if pre != [] { assert l[|pre| - 1] == pre[|pre| - 1] && (a != |pre| - 1 ==> l[a] != l[|pre| - 1]); }
    if post != [] { assert l[|pre| + d] == post[0] && (a != |pre| + d ==> l[a] != l[|pre| + d]); }
    if i + 1 < |k| { assert k[i + 1] == l[if i + 1 < |pre| then i + 1 else i + 1 + d]; }
    if i > 0 { assert k[i - 1] == l[if i - 1 < |pre| then i - 1 else i - 1 + d]; }
  }

  lemma {:induction false} Neighbours(slices: seq<Slice>, l: seq<nat>, a: nat)
    requires a < |l| && (forall i | 0 <= i < |l| :: l[i] < |slices|) && Chained(slices, l)
    ensures slices[l[a]].next == At(l, a + 1) && slices[l[a]].prev == At(l, a - 1)
  {
    if a + 1 < |l| { assert slices[l[a]].next == l[a + 1]; }
    if a > 0 { assert slices[l[a]].prev == l[a - 1]; }
  }

  lemma {:induction false} GapChained(slices: seq<Slice>, pre: seq<nat>, seg: seq<nat>, post: seq<nat>, s2: seq<Slice>)
    requires Gap(slices, pre, seg, post, s2)
    ensures (forall i | 0 <= i < |pre + post| :: (pre + post)[i] < |s2|) && Chained(s2, pre + post)
  {
    var k := pre + post;
    forall i | 0 <= i < |k| ensures k[i] < |s2| { GapSide(slices, pre, seg, post, s2, i); }
    forall i, j | 0 <= i < j < |k| && j - i == 1 ensures s2[k[i]].next == k[j] && s2[k[j]].prev == k[i] {
      GapSide(slices, pre, seg, post, s2, i);
      GapSide(slices, pre, seg, post, s2, j);
    }
    if k != [] {
      GapSide(slices, pre, seg, post, s2, 0);
      GapSide(slices, pre, seg, post, s2, |k| - 1);
    }
  }

  lemma {:induction false} DropSlices(m: Store, nd: int)
    ensures m.DropNode(nd).slices == m.slices && m.DropNode(nd).firstFree == m.firstFree
  {
  }

  lemma {:induction false} RemoveEffect(m: Store, nd: int, before: int, after: int)
    requires m.N(nd).using == 0 && (before != NULL || after != NULL)
    requires m.S(m.N(nd).freeHead).prev == before && m.S(m.N(nd).freeTail).next == after
    ensures var (t, removed) := m.RemoveUnusedNode(nd);
            && removed && GapClosed(m.slices, before, after, t.slices)
            && t.firstFree == if before == NULL then after else m.firstFree
  {
    var a := m.SetS(after, m.S(after).(prev := before));
    var b := if before != NULL then a.SetS(before, a.S(before).(next := after)) else a.(firstFree := after);
    DropSlices(b, nd);
  }

  /** When the free slices of an unused node stand together in the free list, and are not all of it,
      releasing the node takes exactly them out and leaves the others linked in both directions. */
  lemma {:induction false} RemoveKeepsList(m: Store, nd: int, pre: seq<nat>, seg: seq<nat>, post: seq<nat>)
    requires NoDup(pre + seg + post) && seg != [] && pre + post != []
    requires forall i | 0 <= i < |pre + seg + post| :: (pre + seg + post)[i] < |m.slices|
    requires Chained(m.slices, pre + seg + post) && m.firstFree == At(pre + seg + post, 0)
    requires m.N(nd).using == 0 && m.N(nd).freeHead == seg[0] && m.N(nd).freeTail == seg[|seg| - 1]
    ensures m.RemoveUnusedNode(nd).1 && m.RemoveUnusedNode(nd).0.firstFree == At(pre + post, 0)
    ensures var s2 := m.RemoveUnusedNode(nd).0.slices;
            && |s2| == |m.slices| && (forall i | 0 <= i < |pre + post| :: (pre + post)[i] < |s2|)
            && Chained(s2, pre + post)
  {
    var before, after := At(pre, |pre| - 1), At(post, 0);
    SegmentEnds(m.slices, pre, seg, post);
    assert pre == [] <==> before == NULL;
    RemoveEffect(m, nd, before, after);
    var t := m.RemoveUnusedNode(nd).0;
    GapChained(m.slices, pre, seg, post, t.slices);
    assert pre != [] ==> (pre + post)[0] == (pre + seg + post)[0];
  }

  lemma {:induction false} NodeNeighbours(nodes: seq<Node>, l: seq<nat>, a: nat)
    requires a < |l| && (forall i | 0 <= i < |l| :: l[i] < |nodes|) && NodesChained(nodes, l)
    ensures nodes[l[a]].next == At(l, a + 1) && nodes[l[a]].prev == At(l, a - 1)
  {
    if a + 1 < |l| { assert nodes[l[a]].next == l[a + 1]; }
    if a > 0 { assert nodes[l[a]].prev == l[a - 1]; }
  }

  /** The neighbours of nd now point to each other. */
  ghost predicate NodeGap(nodes: seq<Node>, nd: nat, n2: seq<Node>)
    requires nd < |nodes|
  {
    && |n2| == |nodes|
    && forall k | 0 <= k < |nodes| && k != nd ::
         n2[k].next == (if k == nodes[nd].prev then nodes[nd].next else nodes[k].next)
         && n2[k].prev == (if k == nodes[nd].next then nodes[nd].prev else nodes[k].prev)
  }

  lemma {:induction false} DropGap(m: Store, nd: nat)
    requires nd < |m.nodes|
    ensures var t := m.DropNode(nd);
            && NodeGap(m.nodes, nd, t.nodes) && t.nodes[nd].released
            && t.firstNode == if m.nodes[nd].prev == NULL then m.nodes[nd].next else m.firstNode
  {
  }

  lemma {:induction false} NodeSide(nodes: seq<Node>, order: seq<nat>, i: nat, n2: seq<Node>, j: nat)
    requires NoDup(order) && i < |order| && (forall k | 0 <= k < |order| :: order[k] < |nodes|)
    requires NodesChained(nodes, order) && NodeGap(nodes, order[i], n2) && j < |order| - 1
    ensures var rest := order[..i] + order[i + 1..];
            && rest[j] < |n2| && n2[rest[j]].next == At(rest, j + 1) && n2[rest[j]].prev == At(rest, j - 1)
  {
    var a := if j < i then j else j + 1;
    NodeNeighbours(nodes, order, i);
    NodeNeighbours(nodes, order, a);
    assert order[a] != order[i];
    if i > 0 { assert a != i - 1 ==> order[a] != order[i - 1]; }
    if i + 1 < |order| { assert a != i + 1 ==> order[a] != order[i + 1]; }
  }

  lemma {:induction false} NodesCut(nodes: seq<Node>, order: seq<nat>, i: nat, n2: seq<Node>)
    requires NoDup(order) && i < |order| && (forall k | 0 <= k < |order| :: order[k] < |nodes|)
    requires NodesChained(nodes, order) && NodeGap(nodes, order[i], n2)
    ensures var rest := order[..i] + order[i + 1..];
            (forall j | 0 <= j < |rest| :: rest[j] < |n2|) && NodesChained(n2, rest)
  {
    var rest := order[..i] + order[i + 1..];
    forall j | 0 <= j < |rest| ensures rest[j] < |n2| { NodeSide(nodes, order, i, n2, j); }
    forall j, k | 0 <= j < k < |rest| && k - j == 1 ensures n2[rest[j]].next == rest[k] && n2[rest[k]].prev == rest[j] {
      NodeSide(nodes, order, i, n2, j);
      NodeSide(nodes, order, i, n2, k);
    }
    if rest != [] {
      NodeSide(nodes, order, i, n2, 0);
      NodeSide(nodes, order, i, n2, |rest| - 1);
    }
  }

  /** And the node, wherever it stands in the list of nodes, is taken out of that too. */
  lemma {:induction false} DropKeepsNodes(m: Store, order: seq<nat>, i: nat)
    requires NoDup(order) && i < |order| && (forall j | 0 <= j < |order| :: order[j] < |m.nodes|)
    requires NodesChained(m.nodes, order) && m.firstNode == At(order, 0)
    ensures var t, rest := m.DropNode(order[i]), order[..i] + order[i + 1..];
            && t.firstNode == At(rest, 0) && t.nodes[order[i]].released
            && (forall j | 0 <= j < |rest| :: rest[j] < |t.nodes|) && NodesChained(t.nodes, rest)
  {
    DropGap(m, order[i]);
    NodesCut(m.nodes, order, i, m.DropNode(order[i]).nodes);
    NodeNeighbours(m.nodes, order, i);
  }
}
