/**
  When Src/elr_mpl/elr_mpl.c gives a node back, in pools of any number of nodes: exactly when its last slice
  in use is freed and other slices of the pool are free beside its own. So a slice in use keeps its node, as
  long as the free list hands out free slices.
*/
module NodeRelease {
  import opened Lists
  import opened LostSlices
  import opened Slices

  // ---------- the books ----------

  /** Tags, counters and the slices' nodes are the same; only links and heads differ. */
  ghost predicate SameBooks(m: Store, t: Store) {
    && t.newNode == m.newNode && |t.slices| == |m.slices| && |t.nodes| == |m.nodes|
    && (forall p | 0 <= p < |m.slices| :: t.slices[p].node == m.slices[p].node && t.slices[p].tag == m.slices[p].tag)
    && (forall k | 0 <= k < |m.nodes| :: t.nodes[k].using == m.nodes[k].using)
  }

  lemma {:induction false} PushFirstBooks(m: Store, s: int, nd: int)
    ensures SameBooks(m, m.PushFirst(s, nd))
  {
  }

  lemma {:induction false} PushLastBooks(m: Store, s: int, nd: int)
    ensures SameBooks(m, m.PushLast(s, nd))
  {
    var tail := m.N(nd).freeTail;
    var a := m.SetS(s, m.S(s).(next := m.S(tail).next));
    var b := a.SetS(a.S(tail).next, a.S(a.S(tail).next).(prev := s));
    assert SameBooks(m, b);
    var c := b.SetS(tail, b.S(tail).(next := s));
    var d := c.SetS(s, c.S(s).(prev := tail));
    assert SameBooks(b, d);
  }

  lemma {:induction false} DropBooks(m: Store, nd: int)
    ensures SameBooks(m, m.DropNode(nd))
  {
  }

  lemma {:induction false} RemoveBooks(m: Store, nd: int)
    ensures SameBooks(m, m.RemoveUnusedNode(nd).0)
  {
    var after, before := m.S(m.N(nd).freeTail).next, m.S(m.N(nd).freeHead).prev;
    var a := m.SetS(after, m.S(after).(prev := before));
    var b := if before != NULL then a.SetS(before, a.S(before).(next := after)) else a.(firstFree := after);
    assert SameBooks(m, b);
    DropBooks(b, nd);
  }

  /** A free changes the tag of its slice and the counter of its node, and nothing else in the books. */
  lemma {:induction false} FreeBooks(m: Store, s: int)
    ensures SameBooks(Counted(m, s), m.FreeSlice(s))
  {
    var c, nd := Counted(m, s), m.S(s).node;
    PushFirstBooks(c, s, nd);
    RemoveBooks(c, nd);
    PushLastBooks(c, s, nd);
  }

  // ---------- when a node is released ----------

  lemma {:induction false} CountedFields(m: Store, s: int, nd: int, p: int)
    requires 0 <= s < |m.slices| && nd == m.slices[s].node && 0 <= nd < |m.nodes|
    ensures var c := Counted(m, s);
            && c.N(nd) == m.N(nd).(using := m.N(nd).using - 1)
            && c.S(p).next == m.S(p).next && c.S(p).prev == m.S(p).prev
  {
  }

  lemma {:induction false} RemovedIff(m: Store, nd: int)
    requires 0 <= nd < |m.nodes|
    ensures m.RemoveUnusedNode(nd).1
            <==> m.N(nd).using == 0 && (m.S(m.N(nd).freeTail).next != NULL || m.S(m.N(nd).freeHead).prev != NULL)
    ensures m.RemoveUnusedNode(nd).1 ==> m.RemoveUnusedNode(nd).0.N(nd).released
  {
  }

  /** Freeing s releases its node exactly when s was the last slice in use there by the node's counter, and
      the node's free slices have a free slice of another node on one side; no other node is touched. */
  lemma {:induction false} ReleasedIff(m: Store, s: int, nd: int)
    requires 0 <= s < |m.slices| && nd == m.slices[s].node && 0 <= nd < |m.nodes| && !m.nodes[nd].released
    ensures m.FreeSlice(s).N(nd).released
            <==> m.N(nd).using == 1 && m.N(nd).freeHead != NULL
                 && (m.S(m.N(nd).freeTail).next != NULL || m.S(m.N(nd).freeHead).prev != NULL)
    ensures forall k | 0 <= k < |m.nodes| && k != nd :: m.FreeSlice(s).N(k).released == m.nodes[k].released
  {
    var c := Counted(m, s);
    CountedFields(m, s, nd, m.N(nd).freeTail);
    CountedFields(m, s, nd, m.N(nd).freeHead);
    FreeFramed(m, s);
    RemovedIff(c, nd);
    if c.N(nd).freeHead == NULL {
      PushFirstStands(c, s, nd);
    } else if !c.RemoveUnusedNode(nd).1 {
      PushLastStands(c, s, nd);
    }
  }

  lemma {:induction false} PushFirstStands(m: Store, s: int, nd: int)
    requires 0 <= nd < |m.nodes|
    ensures m.PushFirst(s, nd).N(nd).released == m.N(nd).released
  {
  }

  lemma {:induction false} PushLastStands(m: Store, s: int, nd: int)
    requires 0 <= nd < |m.nodes|
    ensures m.PushLast(s, nd).N(nd).released == m.N(nd).released
  {
  }

  // ---------- slices in use ----------

  /** How many slices of node n are in use. */
  function InUseOf(slices: seq<Slice>, n: int): nat {
    if slices == [] then 0
    else (if slices[0].node == n && slices[0].tag % 2 == 0 then 1 else 0) + InUseOf(slices[1..], n)
  }

  function One(r: Slice, n: int): nat { if r.node == n && r.tag % 2 == 0 then 1 else 0 }

  lemma {:induction false} InUseUpdate(slices: seq<Slice>, p: nat, r: Slice, n: int)
    requires p < |slices|
    ensures InUseOf(slices[p := r], n) + One(slices[p], n) == InUseOf(slices, n) + One(r, n)
  {
    if p == 0 {
      assert slices[0 := r][1..] == slices[1..];
    } else {
      assert slices[p := r][1..] == slices[1..][p - 1 := r];
      InUseUpdate(slices[1..], p - 1, r, n);
    }
  }

  lemma {:induction false} InUseAppend(slices: seq<Slice>, r: Slice, n: int)
    ensures InUseOf(slices + [r], n) == InUseOf(slices, n) + One(r, n)
  {
    if slices == [] {
      assert [r][1..] == [];
    } else {
      assert (slices + [r])[1..] == slices[1..] + [r];
      InUseAppend(slices[1..], r, n);
    }
  }

  lemma {:induction false} InUseSame(a: seq<Slice>, b: seq<Slice>, n: int)
    requires |a| == |b| && forall p | 0 <= p < |a| :: a[p].node == b[p].node && a[p].tag == b[p].tag
    ensures InUseOf(a, n) == InUseOf(b, n)
  {
    if a != [] {
      assert forall p | 0 <= p < |a[1..]| :: a[1..][p] == a[p + 1] && b[1..][p] == b[p + 1];
      InUseSame(a[1..], b[1..], n);
    }
  }

  lemma {:induction false} TwoInUse(slices: seq<Slice>, p: nat, q: nat, n: int)
    requires p < |slices| && q < |slices| && p != q && One(slices[p], n) == 1 && One(slices[q], n) == 1
    ensures InUseOf(slices, n) >= 2
  {
    var r := slices[p].(tag := 1);
    InUseUpdate(slices, p, r, n);
    InUseUpdate(slices[p := r], q, r, n);
  }

  ghost predicate CountRight(m: Store, n: int) { m.N(n).using == InUseOf(m.slices, n) }

  /** Every node's counter counts its slices in use, and slices belong to nodes. */
  ghost predicate Accounts(m: Store) {
    && (m.newNode == NULL || 0 <= m.newNode < |m.nodes|)
    && (forall p | 0 <= p < |m.slices| :: 0 <= m.slices[p].node < |m.nodes|)
    && (forall n {:trigger CountRight(m, n)} | 0 <= n < |m.nodes| :: CountRight(m, n))
  }

  lemma {:induction false} FreeAccounts(m: Store, s: int)
    requires Accounts(m) && Legal(m, FreeOf(s))
    ensures Accounts(m.FreeSlice(s))
  {
    var c, t, nd := Counted(m, s), m.FreeSlice(s), m.S(s).node;
    FreeBooks(m, s);
    forall n | 0 <= n < |t.nodes| ensures CountRight(t, n) {
      assert CountRight(m, n);
      InUseUpdate(m.slices, s, c.slices[s], n);
      InUseSame(t.slices, c.slices, n);
    }
  }

  /** The slice a take would reuse is free. */
  predicate HeadFree(m: Store) {
    m.firstFree != NULL ==> 0 <= m.firstFree < |m.slices| && m.slices[m.firstFree].tag % 2 == 1
  }

  lemma {:induction false} ReuseBooks(m: Store, s: int)
    requires s == m.firstFree && 0 <= s < |m.slices| && 0 <= m.slices[s].node < |m.nodes|
    ensures var t, nd := m.Reuse().0, m.slices[s].node;
            && t.newNode == m.newNode && |t.slices| == |m.slices| && |t.nodes| == |m.nodes|
            && (forall p | 0 <= p < |m.slices| :: t.slices[p].node == m.slices[p].node
                  && t.slices[p].tag == if p == s then m.slices[s].tag + 1 else m.slices[p].tag)
            && (forall k | 0 <= k < |m.nodes| ::
                  t.nodes[k].using == if k == nd then m.nodes[nd].using + 1 else m.nodes[k].using)
            && (forall k | 0 <= k < |m.nodes| :: t.nodes[k].released == m.nodes[k].released)
  {
  }

  lemma {:induction false} ReuseAccounts(m: Store)
    requires Accounts(m) && HeadFree(m) && m.firstFree != NULL
    ensures Accounts(m.Reuse().0)
  {
    var s, t := m.firstFree, m.Reuse().0;
    ReuseBooks(m, s);
    forall n | 0 <= n < |t.nodes| ensures CountRight(t, n) {
      assert CountRight(m, n);
      var r := m.slices[s].(tag := m.slices[s].tag + 1);
      InUseUpdate(m.slices, s, r, n);
      InUseSame(t.slices, m.slices[s := r], n);
    }
  }

  lemma {:induction false} CarveAccounts(m: Store)
    requires Accounts(m) && m.newNode != NULL
    ensures Accounts(m.SliceFromNode().0)
  {
    var t := m.SliceFromNode().0;
    forall n | 0 <= n < |t.nodes| ensures CountRight(t, n) {
      assert CountRight(m, n);
      InUseAppend(m.slices, t.slices[|m.slices|], n);
    }
  }

  lemma {:induction false} NothingOf(slices: seq<Slice>, n: int)
    requires forall p | 0 <= p < |slices| :: slices[p].node != n
    ensures InUseOf(slices, n) == 0
  {
    if slices != [] { NothingOf(slices[1..], n); }
  }

  lemma {:induction false} NewNodeAccounts(m: Store, block: int)
    requires Accounts(m)
    ensures Accounts(m.AllocNode(block)) && m.AllocNode(block).newNode != NULL
  {
    var t := m.AllocNode(block);
    forall n | 0 <= n < |t.nodes| ensures CountRight(t, n) {
      if n < |m.nodes| { assert CountRight(m, n); } else { NothingOf(m.slices, n); }
    }
  }

  lemma {:induction false} TakeAccounts(m: Store, block: int)
    requires Accounts(m) && HeadFree(m)
    ensures Accounts(m.SliceFromPool(block).0)
  {
    if m.firstFree != NULL {
      ReuseAccounts(m);
    } else if m.newNode != NULL {
      CarveAccounts(m);
    } else {
      NewNodeAccounts(m, block);
      CarveAccounts(m.AllocNode(block));
    }
  }

  /** A take leaves slices in use and nodes that stand as they are. */
  lemma {:induction false} TakeKeeps(m: Store, block: int, p: int)
    requires Accounts(m) && HeadFree(m) && 0 <= p < |m.slices| && m.slices[p].tag % 2 == 0
    ensures var t, n := m.SliceFromPool(block).0, m.slices[p].node;
            && p < |t.slices| && t.slices[p].node == n && t.slices[p].tag == m.slices[p].tag
            && n < |t.nodes| && t.nodes[n].released == m.nodes[n].released && m.SliceFromPool(block).1 != p
  {
    if m.firstFree != NULL { ReuseBooks(m, m.firstFree); }
  }

  /** Freeing one slice never takes the node from under another that is in use. */
  lemma {:induction false} FreeKeeps(m: Store, s: int, p: int)
    requires Accounts(m) && Legal(m, FreeOf(s)) && 0 <= p < |m.slices| && m.slices[p].tag % 2 == 0 && p != s
    requires !m.nodes[m.slices[p].node].released
    ensures var t, n := m.FreeSlice(s), m.slices[p].node;
            && |t.slices| == |m.slices| && t.slices[p].node == n && t.slices[p].tag == m.slices[p].tag
            && |t.nodes| == |m.nodes| && !t.nodes[n].released
  {
    var n := m.slices[p].node;
    FreeBooks(m, s);
    FreeFramed(m, s);
    if m.slices[s].node == n {
      assert CountRight(m, n);
      TwoInUse(m.slices, s, p, n);
      ReleasedIff(m, s, n);
    }
  }

  /** Whenever a take of the history finds something in the free list, it is a free slice. */
  ghost predicate HeadsFree(m: Store, ops: seq<StoreOp>)
    decreases |ops|
  {
    ops == [] || ((ops[0].TakeFrom? ==> HeadFree(m)) && HeadsFree(Do(m, ops[0]), ops[1..]))
  }

  /** Over any history in any number of nodes: a slice in use that is not freed stays in use, keeps its tag,
      is not handed out again, and its node is not released. */
  lemma {:induction false} InUseStands(m: Store, ops: seq<StoreOp>, t: Store, p: int)
    requires Accounts(m) && StoreRuns(m, ops, t) && HeadsFree(m, ops) && FreeOf(p) !in ops
    requires 0 <= p < |m.slices| && m.slices[p].tag % 2 == 0 && !m.nodes[m.slices[p].node].released
    ensures t.S(p).tag == m.slices[p].tag && t.S(p).node == m.slices[p].node && !t.N(m.slices[p].node).released
    ensures p !in Returned(m, ops) && Accounts(t)
    decreases |ops|
  {
    if ops != [] {
      match ops[0] {
        case TakeFrom(block) =>
          TakeAccounts(m, block);
          TakeKeeps(m, block, p);
        case FreeOf(s) =>
          FreeAccounts(m, s);
          FreeKeeps(m, s, p);
      }
      InUseStands(Do(m, ops[0]), ops[1..], t, p);
    }
  }

  /** A pool whose slices all come from one node has its accounts in order, and a free slice to hand out. */
  lemma {:induction false} OneNodeAccounts(m: Store, a: Arena, base: int)
    requires Rep(m, a, base)
    ensures Accounts(m) && HeadFree(m)
  {
    if a.tags == [] {
      assert m.slices == [];
    } else {
      CountTags(m.slices, a);
      assert CountRight(m, 0);
    }
    if a.free != [] { assert a.free[0] in a.free; }
  }

  lemma {:induction false} CountTags(slices: seq<Slice>, a: Arena)
    requires a.Valid() && |slices| == |a.tags|
    requires forall k | 0 <= k < |a.tags| :: slices[k].node == 0 && slices[k].tag == a.tags[k]
    ensures InUseOf(slices, 0) == |a.tags| - |a.free|
  {
    var n := |slices|;
    CountFree(slices, n);
    Distinct(a.free, n);
    assert (set k: nat | k < n && slices[k].tag % 2 == 1) == (set k: nat | k < n && k in a.free);
  }

  lemma {:induction false} CountFree(slices: seq<Slice>, n: nat)
    requires n <= |slices| && forall k | 0 <= k < |slices| :: slices[k].node == 0
    ensures n - InUseOf(slices[..n], 0) == |set k: nat | k < n && slices[k].tag % 2 == 1|
    ensures slices[..|slices|] == slices
  {
    if n > 0 {
      CountFree(slices, n - 1);
      assert slices[..n] == slices[..n - 1] + [slices[n - 1]];
      InUseAppend(slices[..n - 1], slices[n - 1], 0);
      var before := set k: nat | k < n - 1 && slices[k].tag % 2 == 1;
      var after := set k: nat | k < n && slices[k].tag % 2 == 1;
      assert after == if slices[n - 1].tag % 2 == 1 then before + {n - 1} else before;
    }
  }

  lemma {:induction false} Distinct(free: seq<nat>, n: nat)
    requires NoDup(free) && forall i | 0 <= i < |free| :: free[i] < n
    ensures |set k: nat | k < n && k in free| == |free|
  {
    if free != [] {
      var l := |free| - 1;
      Distinct(free[..l], n);
      assert (set k: nat | k < n && k in free) == (set k: nat | k < n && k in free[..l]) + {free[l]};
    }
  }
}
