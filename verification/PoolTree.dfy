/**
  The tree of pools of Src/elr_mpl/elr_mpl.c. Every pool but the root lives in a slice of the root
  pool, so a pool pointer is a slot of an `Arena`, and a handle is a slot with the tag the slot had
  when the pool was created. Siblings form a doubly linked list headed by the parent's `firstChild`,
  and the memory nodes of a pool form a list headed by `firstNode`.
*/
module PoolTree {
  import opened Lists
  import opened Slices
  import opened Wrappers

  datatype Ptr = Null | Root | Slot(k: nat)

  datatype Pool = Pool(parent: Ptr, firstChild: Ptr, prev: Ptr, next: Ptr, firstNode: int, newNode: int, sliceTag: int)
  datatype MemNode = MemNode(owner: Ptr, prev: int, next: int)
  datatype Handle = Handle(pool: Ptr, tag: int)

  // ---------- the tree the links stand for ----------

  /** What the lists say of one pool: its children in order, its parent (Null for the root), its
      memory nodes in order, and when it was created. */
  datatype Info = Info(kids: seq<Ptr>, par: Ptr, nodes: seq<int>, birth: nat)

  /** The live pools. A child is younger than its parent, which is why there are no cycles. */
  datatype Tree = Tree(at: map<Ptr, Info>, clock: nat) {
    ghost predicate Valid() {
      && Root in at && Null !in at
      && (forall p {:trigger at[p]} | p in at :: at[p].birth < clock && NoDup(at[p].kids))
      && (forall c {:trigger at[c].par} | c in at && c != Root ::
            at[c].par in at && c in at[at[c].par].kids && at[at[c].par].birth < at[c].birth)
      && (forall p, i {:trigger at[p].kids[i]} | p in at && 0 <= i < |at[p].kids| ::
            at[p].kids[i] in at && at[p].kids[i] != Root && at[at[p].kids[i]].par == p)
    }

    /** Following parents from q meets p. */
    ghost predicate Under(q: Ptr, p: Ptr)
      requires Valid() && q in at
      decreases at[q].birth
    {
      q == p || (q != Root && Under(at[q].par, p))
    }

    ghost function Subtree(p: Ptr): set<Ptr>
      requires Valid()
    {
      set q | q in at && Under(q, p)
    }

    /** The subtrees of the first i children of p. */
    ghost function Below(p: Ptr, i: nat): set<Ptr>
      requires Valid() && p in at && i <= |at[p].kids|
    {
      set q, j | q in at && 0 <= j < i && Under(q, at[p].kids[j]) :: q
    }
  }

  lemma {:induction false} UnderAge(t: Tree, q: Ptr, p: Ptr)
    requires t.Valid() && q in t.at && p in t.at && t.Under(q, p)
    ensures t.at[p].birth <= t.at[q].birth && (q != p ==> t.at[p].birth < t.at[q].birth)
    decreases t.at[q].birth
  {
    if q != p { UnderAge(t, t.at[q].par, p); }
  }

  /** Two ancestors of the same pool lie on one path. */
  lemma {:induction false} OnePath(t: Tree, q: Ptr, c: Ptr, d: Ptr)
    requires t.Valid() && q in t.at && c in t.at && d in t.at && t.Under(q, c) && t.Under(q, d)
    ensures t.Under(c, d) || t.Under(d, c)
    decreases t.at[q].birth
  {
    if q != c && q != d { OnePath(t, t.at[q].par, c, d); }
  }

  lemma {:induction false} UnderTransitive(t: Tree, q: Ptr, c: Ptr, p: Ptr)
    requires t.Valid() && q in t.at && c in t.at && t.Under(q, c) && t.Under(c, p)
    ensures t.Under(q, p)
    decreases t.at[q].birth
  {
    if q != c && q != p { UnderTransitive(t, t.at[q].par, c, p); }
  }

  /** A pool strictly below p is below exactly one child of p. */
  lemma {:induction false} BelowAChild(t: Tree, q: Ptr, p: Ptr) returns (j: nat)
    requires t.Valid() && q in t.at && p in t.at && q != p && t.Under(q, p)
    ensures j < |t.at[p].kids| && t.Under(q, t.at[p].kids[j])
    decreases t.at[q].birth
  {
    if t.at[q].par == p {
      j :| 0 <= j < |t.at[p].kids| && t.at[p].kids[j] == q;
    } else {
      j := BelowAChild(t, t.at[q].par, p);
      UnderTransitive(t, q, t.at[q].par, t.at[p].kids[j]);
    }
  }

  lemma {:induction false} SiblingsApart(t: Tree, q: Ptr, p: Ptr, i: nat, j: nat)
    requires t.Valid() && p in t.at && i < j < |t.at[p].kids| && q in t.at
    ensures !(t.Under(q, t.at[p].kids[i]) && t.Under(q, t.at[p].kids[j]))
  {
    var c, d := t.at[p].kids[i], t.at[p].kids[j];
    if t.Under(q, c) && t.Under(q, d) {
      OnePath(t, q, c, d);
      if t.Under(c, d) { UnderAge(t, p, d); } else { UnderAge(t, p, c); }
      assert false;
    }
  }

  lemma {:induction false} ChildSubtree(t: Tree, p: Ptr, i: nat)
    requires t.Valid() && p in t.at && i < |t.at[p].kids|
    ensures t.Below(p, i + 1) == t.Below(p, i) + t.Subtree(t.at[p].kids[i])
    ensures t.Below(p, i) !! t.Subtree(t.at[p].kids[i])
    ensures p !in t.Subtree(t.at[p].kids[i]) && t.Subtree(t.at[p].kids[i]) <= t.Subtree(p)
    ensures t.at[p].birth < t.at[t.at[p].kids[i]].birth
  {
    var c := t.at[p].kids[i];
    forall q | q in t.Below(p, i) ensures q !in t.Subtree(c) {
      var j :| 0 <= j < i && t.Under(q, t.at[p].kids[j]);
      SiblingsApart(t, q, p, j, i);
    }
    if p in t.Subtree(c) { UnderAge(t, p, c); }
    forall q | q in t.Subtree(c) ensures q in t.Subtree(p) {
      assert t.Under(c, p);
      UnderTransitive(t, q, c, p);
    }
  }

  lemma {:induction false} WholeSubtree(t: Tree, p: Ptr)
    requires t.Valid() && p in t.at
    ensures t.Subtree(p) == t.Below(p, |t.at[p].kids|) + {p} && p !in t.Below(p, |t.at[p].kids|)
  {
    forall q | q in t.Subtree(p) && q != p ensures q in t.Below(p, |t.at[p].kids|) {
      var j := BelowAChild(t, q, p);
    }
    forall q | q in t.Below(p, |t.at[p].kids|) ensures q in t.Subtree(p) && q != p {
      var j :| 0 <= j < |t.at[p].kids| && t.Under(q, t.at[p].kids[j]);
      ChildSubtree(t, p, j);
    }
  }

  // ---------- links and tree agree ----------

  function PtrAt(ks: seq<Ptr>, i: int): Ptr { if 0 <= i < |ks| then ks[i] else Null }

  /** `firstChild` and `next` list the children ks of p. */
  ghost predicate Forward(pools: map<Ptr, Pool>, p: Ptr, ks: seq<Ptr>) {
    && p in pools && pools[p].firstChild == PtrAt(ks, 0)
    && (forall i | 0 <= i < |ks| :: ks[i] in pools)
    && (forall i {:trigger pools[ks[i]]} | 0 <= i < |ks| :: pools[ks[i]].next == PtrAt(ks, i + 1))
  }

  /** `prev` and `parent` point back. */
  ghost predicate Backward(pools: map<Ptr, Pool>, p: Ptr, ks: seq<Ptr>) {
    && (forall i | 0 <= i < |ks| :: ks[i] in pools)
    && (forall i {:trigger pools[ks[i]]} | 0 <= i < |ks| ::
          pools[ks[i]].prev == PtrAt(ks, i - 1) && pools[ks[i]].parent == p)
  }

  /** The nodes owned by p are bs, listed from `firstNode`. */
  ghost predicate Nodes(nodes: map<int, MemNode>, p: Ptr, first: int, bs: seq<int>) {
    && NoDup(bs) && NULL !in bs && first == At(bs, 0)
    && (forall n {:trigger nodes[n]} | n in nodes && nodes[n].owner == p :: n in bs)
    && (forall i | 0 <= i < |bs| :: bs[i] in nodes && nodes[bs[i]].owner == p)
    && (bs != [] ==> nodes[bs[0]].prev == NULL && nodes[bs[|bs| - 1]].next == NULL)
    && (forall i, j | 0 <= i < j < |bs| && j - i == 1 :: nodes[bs[i]].next == bs[j] && nodes[bs[j]].prev == bs[i])
  }

  ghost predicate Down(pools: map<Ptr, Pool>, nodes: map<int, MemNode>, p: Ptr, ks: seq<Ptr>, bs: seq<int>) {
    Forward(pools, p, ks) && Nodes(nodes, p, pools[p].firstNode, bs)
  }

  /** The nodes left when the pools in `gone` give theirs up. */
  ghost function Keep(nodes: map<int, MemNode>, gone: set<Ptr>): map<int, MemNode> {
    map n | n in nodes && nodes[n].owner !in gone :: nodes[n]
  }

  /** The nodes left when those of the list bs have been freed. */
  ghost function Without(nodes: map<int, MemNode>, bs: seq<int>): map<int, MemNode> {
    map n | n in nodes && n !in bs :: nodes[n]
  }

  lemma {:induction false} WithoutNext(nodes: map<int, MemNode>, bs: seq<int>, i: nat)
    requires NoDup(bs) && i < |bs| && bs[i] in nodes
    ensures bs[i] in Without(nodes, bs[..i])
    ensures Without(nodes, bs[..i + 1]) == Without(nodes, bs[..i]) - {bs[i]}
  {
    assert bs[..i + 1] == bs[..i] + [bs[i]];
  }

  lemma {:induction false} WithoutAll(nodes: map<int, MemNode>, p: Ptr, first: int, bs: seq<int>)
    requires Nodes(nodes, p, first, bs)
    ensures Without(nodes, bs) == Keep(nodes, {p})
  {
    assert forall n | n in nodes :: nodes[n].owner == p <==> n in bs;
  }

  /** b is a after the slots of `order` were freed one by one. */
  ghost predicate Released(a: Arena, order: seq<nat>, b: Arena) {
    && b.Valid() && b.cap == a.cap && |b.tags| == |a.tags| && b.free == a.free + order
    && forall k | 0 <= k < |a.tags| :: b.tags[k] == if k in order then a.tags[k] + 1 else a.tags[k]
  }

  lemma {:induction false} ReleasedCompose(a: Arena, o1: seq<nat>, b: Arena, o2: seq<nat>, c: Arena)
    requires Released(a, o1, b) && Released(b, o2, c)
    ensures Released(a, o1 + o2, c)
  {
    assert a.free + (o1 + o2) == c.free;
    forall i, j | 0 <= i < |o1| && 0 <= j < |o2| ensures o1[i] != o2[j] {
      assert c.free[|a.free| + i] == o1[i] && c.free[|a.free| + |o1| + j] == o2[j];
    }
  }

  lemma {:induction false} ReleaseOne(a: Arena, k: nat)
    requires a.Valid() && a.InUse(k)
    ensures Released(a, [k], a.Give(k))
  {
  }

  lemma {:induction false} KeepNodes(nodes: map<int, MemNode>, p: Ptr, first: int, bs: seq<int>, gone: set<Ptr>)
    requires Nodes(nodes, p, first, bs) && p !in gone
    ensures Nodes(Keep(nodes, gone), p, first, bs)
  {
  }

  lemma {:induction false} DownStable(t: Tree, q: Ptr, p: Ptr, i: nat, pools: map<Ptr, Pool>, pools': map<Ptr, Pool>,
                   nodes: map<int, MemNode>, bs: seq<int>)
    requires t.Valid() && p in t.at && i < |t.at[p].kids| && q in t.Subtree(t.at[p].kids[i])
    requires Down(pools, nodes, q, t.at[q].kids, bs)
    requires pools'.Keys == pools.Keys
    requires forall c {:trigger pools'[c]} | c in pools && c != p && c !in t.Below(p, i) ::
               pools'[c].firstChild == pools[c].firstChild && pools'[c].next == pools[c].next
               && pools'[c].firstNode == pools[c].firstNode
    ensures Down(pools', Keep(nodes, t.Below(p, i)), q, t.at[q].kids, bs)
  {
    ChildSubtree(t, p, i);
    forall j | 0 <= j < |t.at[q].kids| ensures t.at[q].kids[j] in t.Subtree(t.at[p].kids[i]) {
      assert t.Under(t.at[q].kids[j], q);
      UnderTransitive(t, t.at[q].kids[j], q, t.at[p].kids[i]);
    }
    KeepNodes(nodes, q, pools[q].firstNode, bs, t.Below(p, i));
  }

  datatype Heap = Heap(pools: map<Ptr, Pool>, nodes: map<int, MemNode>, arena: Arena) {
    function SetPool(p: Ptr, r: Pool): Heap { this.(pools := pools[p := r]) }
    function SetFirst(p: Ptr, c: Ptr): Heap
      requires p in pools
    {
      SetPool(p, pools[p].(firstChild := c))
    }
  }

  /** From g to h exactly the pools in `gone` were destroyed: their nodes are freed and their slots
      given back in the order `order`; every other pool is untouched. */
  ghost predicate Gone(g: Heap, h: Heap, gone: set<Ptr>, order: seq<nat>) {
    && h.pools.Keys == g.pools.Keys
    && (forall q {:trigger h.pools[q]} | q in g.pools && q !in gone :: h.pools[q] == g.pools[q])
    && h.nodes == Keep(g.nodes, gone)
    && (forall k :: k in order <==> Slot(k) in gone)
    && Released(g.arena, order, h.arena)
  }

  lemma {:induction false} GoneChild(g: Heap, h: Heap, h': Heap, p: Ptr, c: Ptr, d: Ptr, r: Pool,
                  gone: set<Ptr>, order: seq<nat>, sub: set<Ptr>, sorder: seq<nat>)
    requires p in g.pools && c in h.pools && p in h.pools && p != c
    requires Gone(g.SetFirst(p, c), h, gone, order) && p !in gone + sub && c in sub
    requires Gone(h.SetFirst(p, d).SetPool(c, r), h', sub, sorder)
    ensures Gone(g.SetFirst(p, d), h', gone + sub, order + sorder)
  {
    ReleasedCompose(g.arena, order, h.arena, sorder, h'.arena);
    assert h'.nodes == Keep(g.nodes, gone + sub);
  }

  lemma {:induction false} GoneSelf(g: Heap, h: Heap, p: Ptr, k: nat, r: Pool, gone: set<Ptr>, order: seq<nat>)
    requires p in g.pools && p == Slot(k) && p !in gone && Gone(g.SetFirst(p, Null), h, gone, order)
    requires p in h.pools && h.arena.Valid() && h.arena.InUse(k)
    ensures Gone(g, Heap(h.pools[p := r], Keep(h.nodes, {p}), h.arena.Give(k)), gone + {p}, order + [k])
  {
    ReleaseOne(h.arena, k);
    ReleasedCompose(g.arena, order, h.arena, [k], h.arena.Give(k));
    assert Keep(h.nodes, {p}) == Keep(g.nodes, gone + {p});
  }

  /** Pool p and everything below it is live, correctly linked downwards, and owns what it should. */
  ghost predicate Ready(h: Heap, t: Tree, p: Ptr) {
    && t.Valid() && p in t.at && p != Root && h.arena.Valid()
    && (forall q {:trigger Standing(h, t, q)} | q in t.Subtree(p) :: Standing(h, t, q))
  }

  /** A live pool other than the root whose lists of children and of nodes are in order. */
  ghost predicate Standing(h: Heap, t: Tree, q: Ptr) {
    q in t.at && q.Slot? && h.arena.InUse(q.k) && Down(h.pools, h.nodes, q, t.at[q].kids, t.at[q].nodes)
  }

  /** h' is g with the first i children of p destroyed and p's own first-child link and the next
      child's parent and tag overwritten. */
  ghost predicate Between(g: Heap, h': Heap, p: Ptr, below: set<Ptr>, order: seq<nat>) {
    && h'.pools.Keys == g.pools.Keys
    && (forall q {:trigger h'.pools[q]} | q in g.pools && q != p && q !in below ::
          && h'.pools[q].firstChild == g.pools[q].firstChild && h'.pools[q].next == g.pools[q].next
          && h'.pools[q].firstNode == g.pools[q].firstNode)
    && h'.nodes == Keep(g.nodes, below)
    && (forall k :: k in order <==> Slot(k) in below)
    && Released(g.arena, order, h'.arena)
  }

  lemma {:induction false} Unhook(g: Heap, h: Heap, p: Ptr, c: Ptr, d: Ptr, below: set<Ptr>, order: seq<nat>)
    requires p in g.pools && p in h.pools && c in h.pools && p != c && p !in below && c !in below
    requires Gone(g.SetFirst(p, c), h, below, order)
    ensures Between(g, h.SetFirst(p, d).SetPool(c, h.pools[c].(parent := Null, sliceTag := -1)), p, below, order)
    ensures h.pools[c] == g.pools[c]
  {
  }

  lemma {:induction false} ReadyChild(g: Heap, h': Heap, t: Tree, p: Ptr, i: nat, order: seq<nat>)
    requires Ready(g, t, p) && i < |t.at[p].kids| && Between(g, h', p, t.Below(p, i), order)
    ensures Ready(h', t, t.at[p].kids[i])
  {
    var c := t.at[p].kids[i];
    ChildSubtree(t, p, i);
    forall q | q in t.Subtree(c) ensures Standing(h', t, q) {
      assert Standing(g, t, q);
      DownStable(t, q, p, i, g.pools, h'.pools, g.nodes, t.at[q].nodes);
    }
  }

  lemma {:induction false} NextChild(g: Heap, t: Tree, p: Ptr, i: nat)
    requires Ready(g, t, p) && i < |t.at[p].kids|
    ensures p in g.pools && t.at[p].kids[i] in g.pools && g.pools[t.at[p].kids[i]].next == PtrAt(t.at[p].kids, i + 1)
    ensures t.at[p].kids[i] != Root && t.at[p].kids[i] != p
    ensures t.Below(p, i + 1) == t.Below(p, i) + t.Subtree(t.at[p].kids[i])
    ensures t.at[p].kids[i] in t.Subtree(t.at[p].kids[i]) && t.at[p].kids[i] !in t.Below(p, i)
    ensures p !in t.Subtree(t.at[p].kids[i]) && t.at[p].birth < t.at[t.at[p].kids[i]].birth < t.clock
  {
    assert p in t.Subtree(p) && Standing(g, t, p);
    ChildSubtree(t, p, i);
  }

  // ---------- the whole state ----------

  /** Pool q is linked to its children in both directions, owns its nodes, and carries its slot's tag. */
  ghost predicate PoolOk(h: Heap, t: Tree, q: Ptr) {
    && q in t.at && Down(h.pools, h.nodes, q, t.at[q].kids, t.at[q].nodes)
    && Backward(h.pools, q, t.at[q].kids)
    && (q.Slot? ==> h.arena.InUse(q.k) && h.pools[q].sliceTag == h.arena.tags[q.k])
  }

  ghost predicate AllOk(h: Heap, t: Tree) {
    forall q {:trigger PoolOk(h, t, q)} | q in t.at :: PoolOk(h, t, q)
  }

  /** No slot in use and no memory node without its pool in the tree. */
  ghost predicate NoLeak(h: Heap, t: Tree) {
    && (forall k: nat {:trigger h.arena.InUse(k)} :: h.arena.InUse(k) ==> Slot(k) in t.at)
    && (forall n {:trigger h.nodes[n]} | n in h.nodes :: h.nodes[n].owner in t.at)
  }

  /** Links, tags, node lists and slots in use all agree with the tree. */
  ghost predicate WF(h: Heap, t: Tree) {
    t.Valid() && AllOk(h, t) && NoLeak(h, t)
  }

  /** elr_mpl_create in the tree: c becomes the first child of p. */
  function Graft(t: Tree, p: Ptr, c: Ptr): Tree
    requires p in t.at
  {
    Tree(t.at[p := t.at[p].(kids := [c] + t.at[p].kids)][c := Info([], p, [], t.clock)], t.clock + 1)
  }

  lemma {:induction false} GraftKids(t: Tree, p: Ptr, c: Ptr, q: Ptr, i: nat)
    requires t.Valid() && p in t.at && c !in t.at && q in Graft(t, p, c).at && i < |Graft(t, p, c).at[q].kids|
    ensures var u := Graft(t, p, c);
            u.at[q].kids[i] in u.at && u.at[q].kids[i] != Root && u.at[u.at[q].kids[i]].par == q
  {
    if q == p && i > 0 { assert Graft(t, p, c).at[p].kids[i] == t.at[p].kids[i - 1]; }
    if q != p && q != c { assert Graft(t, p, c).at[q].kids[i] == t.at[q].kids[i]; }
  }

  lemma {:induction false} GraftParent(t: Tree, p: Ptr, c: Ptr, d: Ptr)
    requires t.Valid() && p in t.at && c !in t.at && d in Graft(t, p, c).at && d != Root
    ensures var u := Graft(t, p, c);
            u.at[d].par in u.at && d in u.at[u.at[d].par].kids && u.at[u.at[d].par].birth < u.at[d].birth
  {
    if d != c { assert Graft(t, p, c).at[d].par == t.at[d].par && d in t.at[t.at[d].par].kids; }
  }

  lemma {:induction false} GraftValid(t: Tree, p: Ptr, c: Ptr)
    requires t.Valid() && p in t.at && c !in t.at && c != Null
    ensures Graft(t, p, c).Valid()
  {
    var u := Graft(t, p, c);
    forall q, i | q in u.at && 0 <= i < |u.at[q].kids|
      ensures u.at[q].kids[i] in u.at && u.at[q].kids[i] != Root && u.at[u.at[q].kids[i]].par == q
    {
      GraftKids(t, p, c, q, i);
    }
    forall d | d in u.at && d != Root
      ensures u.at[d].par in u.at && d in u.at[u.at[d].par].kids && u.at[u.at[d].par].birth < u.at[d].birth
    {
      GraftParent(t, p, c, d);
    }
    forall q | q in u.at ensures NoDup(u.at[q].kids) && u.at[q].birth < u.clock {
      GraftNoDup(t, p, c, q);
    }
  }

  lemma {:induction false} NewFirst(ks: seq<Ptr>, c: Ptr)
    requires NoDup(ks) && c !in ks
    ensures NoDup([c] + ks)
  {
  }

  lemma {:induction false} GraftNoDup(t: Tree, p: Ptr, c: Ptr, q: Ptr)
    requires t.Valid() && p in t.at && c !in t.at && q in Graft(t, p, c).at
    ensures NoDup(Graft(t, p, c).at[q].kids) && Graft(t, p, c).at[q].birth < t.clock + 1
  {
    if q == p {
      assert forall i | 0 <= i < |t.at[p].kids| :: t.at[p].kids[i] != c;
      NewFirst(t.at[p].kids, c);
    }
  }

  /** The links after elr_mpl_create put a pool at c, in front of the children ks of p. */
  ghost predicate Pushed(g: map<Ptr, Pool>, h: map<Ptr, Pool>, p: Ptr, ks: seq<Ptr>, c: Ptr, tag: int) {
    && h.Keys == g.Keys + {c} && p in g && p != c
    && h[c] == Pool(p, Null, Null, PtrAt(ks, 0), NULL, NULL, tag)
    && (forall q {:trigger h[q]} | q in g && q != c ::
          h[q] == if q == p then g[q].(firstChild := c)
                  else if ks != [] && q == ks[0] then g[q].(prev := c) else g[q])
  }

  lemma {:induction false} PushedList(g: map<Ptr, Pool>, h: map<Ptr, Pool>, p: Ptr, ks: seq<Ptr>, c: Ptr, tag: int)
    requires Forward(g, p, ks) && Backward(g, p, ks) && Pushed(g, h, p, ks, c, tag) && NoDup(ks)
    requires forall i | 0 <= i < |ks| :: ks[i] != c && ks[i] != p
    ensures Forward(h, p, [c] + ks) && Backward(h, p, [c] + ks)
  {
    var ls := [c] + ks;
    forall i | 0 <= i < |ls|
      ensures ls[i] in h && h[ls[i]].next == PtrAt(ls, i + 1) && h[ls[i]].prev == PtrAt(ls, i - 1)
              && h[ls[i]].parent == p
    {
      if i > 0 {
        assert ls[i] == ks[i - 1] && g[ks[i - 1]].next == PtrAt(ks, i);
        assert i > 1 ==> ks[i - 1] != ks[0];
      }
    }
  }

  lemma {:induction false} OtherList(g: map<Ptr, Pool>, h: map<Ptr, Pool>, p: Ptr, kp: seq<Ptr>, c: Ptr, tag: int,
      q: Ptr, kq: seq<Ptr>)
    requires Pushed(g, h, p, kp, c, tag) && Forward(g, q, kq) && Backward(g, q, kq) && q != p && q != c
    requires forall i | 0 <= i < |kq| :: kq[i] != c && kq[i] !in kp
    ensures Forward(h, q, kq) && Backward(h, q, kq)
  {
    forall i | 0 <= i < |kq|
      ensures kq[i] in h && h[kq[i]].next == g[kq[i]].next && h[kq[i]].prev == g[kq[i]].prev
              && h[kq[i]].parent == g[kq[i]].parent
    {
      KeptLinks(g, h, p, kp, c, tag, kq[i]);
    }
    KeptFirst(g, h, p, kp, c, tag, q);
    SameLinks(g, h, q, kq);
  }

  lemma {:induction false} KeptLinks(g: map<Ptr, Pool>, h: map<Ptr, Pool>, p: Ptr, kp: seq<Ptr>, c: Ptr, tag: int,
      q: Ptr)
    requires Pushed(g, h, p, kp, c, tag) && q in g && q != c && q !in kp
    ensures q in h && h[q].next == g[q].next && h[q].prev == g[q].prev && h[q].parent == g[q].parent
  {
  }

  lemma {:induction false} KeptFirst(g: map<Ptr, Pool>, h: map<Ptr, Pool>, p: Ptr, kp: seq<Ptr>, c: Ptr, tag: int,
      q: Ptr)
    requires Pushed(g, h, p, kp, c, tag) && q in g && q != c
    ensures q in h && h[q].firstNode == g[q].firstNode && h[q].sliceTag == g[q].sliceTag
    ensures q != p ==> h[q].firstChild == g[q].firstChild
  {
  }

  /** A list whose pools keep their links stays the list. */
  lemma {:induction false} SameLinks(g: map<Ptr, Pool>, h: map<Ptr, Pool>, q: Ptr, ks: seq<Ptr>)
    requires Forward(g, q, ks) && Backward(g, q, ks) && q in h && h[q].firstChild == g[q].firstChild
    requires forall i | 0 <= i < |ks| ::
               ks[i] in h && h[ks[i]].next == g[ks[i]].next && h[ks[i]].prev == g[ks[i]].prev
                   && h[ks[i]].parent == g[ks[i]].parent
    ensures Forward(h, q, ks) && Backward(h, q, ks)
  {
  }

  /** What the lists of different pools have to do with each other. */
  lemma {:induction false} ListsApart(t: Tree, p: Ptr, q: Ptr, i: nat)
    requires t.Valid() && p in t.at && q in t.at && i < |t.at[q].kids|
    ensures t.at[q].kids[i] in t.at && t.at[q].kids[i] != q && t.at[q].kids[i] != Null && t.at[q].kids[i] != Root
    ensures p != q ==> t.at[q].kids[i] !in t.at[p].kids
  {
    assert t.at[t.at[q].kids[i]].par == q;
  }

  lemma {:induction false} GraftLinks(g: Heap, h: Heap, t: Tree, p: Ptr, c: Ptr, tag: int, q: Ptr)
    requires t.Valid() && q in t.at && p in t.at && c !in t.at
    requires Forward(g.pools, q, t.at[q].kids) && Backward(g.pools, q, t.at[q].kids)
    requires Pushed(g.pools, h.pools, p, t.at[p].kids, c, tag)
    ensures Forward(h.pools, q, Graft(t, p, c).at[q].kids) && Backward(h.pools, q, Graft(t, p, c).at[q].kids)
  {
    var ks := t.at[q].kids;
    forall i | 0 <= i < |ks| ensures ks[i] != c && ks[i] != q && (q != p ==> ks[i] !in t.at[p].kids) {
      ListsApart(t, p, q, i);
    }
    if q == p {
      PushedList(g.pools, h.pools, p, ks, c, tag);
    } else {
      OtherList(g.pools, h.pools, p, t.at[p].kids, c, tag, q, ks);
    }
  }

  /** Slot k, free in a, is handed out in b, and nothing happens to the slots in use. */
  ghost predicate Taken(a: Arena, b: Arena, k: nat) {
    && !a.InUse(k) && b.InUse(k)
    && (forall j: nat {:trigger a.InUse(j)} {:trigger b.InUse(j)} :: b.InUse(j) <==> a.InUse(j) || j == k)
    && (forall j: nat {:trigger b.tags[j]} | a.InUse(j) :: b.tags[j] == a.tags[j])
    && Later(a, b)
  }

  /** Between a and b tags only grow, so a handle that is stale in a is stale in b. */
  ghost predicate Later(a: Arena, b: Arena) {
    |a.tags| <= |b.tags| && forall j {:trigger b.tags[j]} | 0 <= j < |a.tags| :: a.tags[j] <= b.tags[j]
  }

  lemma {:induction false} GraftOldPool(g: Heap, h: Heap, t: Tree, p: Ptr, k: nat, q: Ptr)
    requires t.Valid() && p in t.at && Slot(k) !in t.at && PoolOk(g, t, q)
    requires Taken(g.arena, h.arena, k) && h.nodes == g.nodes
    requires Pushed(g.pools, h.pools, p, t.at[p].kids, Slot(k), h.arena.tags[k])
    ensures PoolOk(h, Graft(t, p, Slot(k)), q)
  {
    var u := Graft(t, p, Slot(k));
    GraftLinks(g, h, t, p, Slot(k), h.arena.tags[k], q);
    KeptFirst(g.pools, h.pools, p, t.at[p].kids, Slot(k), h.arena.tags[k], q);
    assert u.at[q].nodes == t.at[q].nodes;
    assert Nodes(h.nodes, q, h.pools[q].firstNode, u.at[q].nodes);
  }

  lemma {:induction false} GraftNewPool(g: Heap, h: Heap, t: Tree, p: Ptr, k: nat)
    requires NoLeak(g, t) && p in t.at && Slot(k) !in t.at && Taken(g.arena, h.arena, k) && h.nodes == g.nodes
    requires Pushed(g.pools, h.pools, p, t.at[p].kids, Slot(k), h.arena.tags[k])
    ensures PoolOk(h, Graft(t, p, Slot(k)), Slot(k))
  {
  }

  lemma {:induction false} GraftAllOk(g: Heap, h: Heap, t: Tree, p: Ptr, k: nat)
    requires t.Valid() && AllOk(g, t) && NoLeak(g, t) && p in t.at && Slot(k) !in t.at
    requires Taken(g.arena, h.arena, k) && h.nodes == g.nodes
    requires Pushed(g.pools, h.pools, p, t.at[p].kids, Slot(k), h.arena.tags[k])
    ensures AllOk(h, Graft(t, p, Slot(k)))
  {
    var u := Graft(t, p, Slot(k));
    forall q | q in u.at ensures PoolOk(h, u, q) {
      if q == Slot(k) {
        GraftNewPool(g, h, t, p, k);
      } else {
        GraftOldPool(g, h, t, p, k, q);
      }
    }
  }

  lemma {:induction false} GraftNoLeak(g: Heap, h: Heap, t: Tree, p: Ptr, k: nat)
    requires NoLeak(g, t) && p in t.at && Taken(g.arena, h.arena, k) && h.nodes == g.nodes
    ensures NoLeak(h, Graft(t, p, Slot(k)))
  {
  }

  lemma {:induction false} GraftWF(g: Heap, h: Heap, t: Tree, p: Ptr, k: nat)
    requires WF(g, t) && p in t.at && Slot(k) !in t.at && Taken(g.arena, h.arena, k) && h.nodes == g.nodes
    requires Pushed(g.pools, h.pools, p, t.at[p].kids, Slot(k), h.arena.tags[k])
    ensures WF(h, Graft(t, p, Slot(k)))
  {
    GraftValid(t, p, Slot(k));
    GraftAllOk(g, h, t, p, k);
    GraftNoLeak(g, h, t, p, k);
  }

  lemma {:induction false} CreateFacts(g: Heap, t: Tree, p: Ptr, k: nat)
    requires WF(g, t) && p in t.at && !g.arena.InUse(k)
    ensures p in g.pools && g.pools[p].firstChild == PtrAt(t.at[p].kids, 0) && Slot(k) !in t.at
    ensures var ks := t.at[p].kids;
            ks != [] ==> ks[0] in g.pools && ks[0] != p && ks[0] != Null && ks[0] != Slot(k)
  {
    forall q | q in t.at ensures q != Slot(k) {
      assert PoolOk(g, t, q);
    }
    assert PoolOk(g, t, p);
    if t.at[p].kids != [] { ListsApart(t, p, p, 0); }
  }

  /** elr_mpl_avail */
  predicate Avail(a: Arena, hd: Handle) {
    hd.pool.Slot? && hd.pool.k < |a.tags| && a.tags[hd.pool.k] == hd.tag
  }

  /** Handles are issued with the tag of a slot in use, which is even. */
  predicate Issued(hd: Handle) { hd.tag % 2 == 0 }

  /** A handle that can have been issued by now: its slot's tag has reached the handle's. */
  predicate Past(a: Arena, hd: Handle) {
    hd.pool.Slot? && hd.pool.k < |a.tags| && hd.tag <= a.tags[hd.pool.k]
  }

  lemma {:induction false} LaterLater(a: Arena, b: Arena, c: Arena)
    requires Later(a, b) && Later(b, c)
    ensures Later(a, c)
  {
    forall j | 0 <= j < |a.tags| ensures a.tags[j] <= c.tags[j] {
      assert a.tags[j] <= b.tags[j] <= c.tags[j];
    }
  }

  lemma {:induction false} StaleLater(a: Arena, b: Arena, hd: Handle)
    requires Later(a, b) && Past(a, hd)
    ensures Past(b, hd) && (!Avail(a, hd) ==> !Avail(b, hd))
  {
    assert a.tags[hd.pool.k] <= b.tags[hd.pool.k];
  }

  /** The slot handed out has a new tag: a handle to it equals no handle issued before. */
  lemma {:induction false} NewHandle(a: Arena, b: Arena, k: nat, hd: Handle)
    requires a.Valid() && b.Valid() && Taken(a, b, k) && hd == Handle(Slot(k), b.tags[k])
    ensures Issued(hd) && Avail(b, hd) && !Past(a, hd)
  {
    if k < |a.tags| { assert a.tags[k] <= b.tags[k] && a.tags[k] % 2 == 1; }
  }

  lemma {:induction false} TakenKeeps(a: Arena, b: Arena, k: nat, hd: Handle)
    requires a.Valid() && Taken(a, b, k) && Avail(a, hd) && Issued(hd)
    ensures Avail(b, hd)
  {
    assert a.InUse(hd.pool.k);
    assert b.InUse(hd.pool.k) && b.tags[hd.pool.k] == a.tags[hd.pool.k];
  }

  lemma {:induction false} PushDistinct(bs: seq<int>, block: int)
    requires NoDup(bs) && NULL !in bs && block !in bs && block != NULL
    ensures NoDup([block] + bs) && NULL !in [block] + bs
  {
  }

  /** The nodes after `block` was linked in front of the list that starts at `first`. */
  function WithNode(nodes: map<int, MemNode>, p: Ptr, first: int, block: int): map<int, MemNode> {
    var ns := nodes[block := MemNode(p, NULL, first)];
    if first != NULL && first in nodes then ns[first := nodes[first].(prev := block)] else ns
  }

  lemma {:induction false} PushNext(nodes: map<int, MemNode>, p: Ptr, first: int, bs: seq<int>, block: int, i: nat,
      j: nat)
    requires Nodes(nodes, p, first, bs) && block !in nodes && i < j <= |bs| && j - i == 1
    ensures var ls, after := [block] + bs, WithNode(nodes, p, first, block);
            ls[i] in after && ls[j] in after && after[ls[i]].next == ls[j] && after[ls[j]].prev == ls[i]
  {
    if i > 0 { assert nodes[bs[i - 1]].next == bs[j - 1] && bs[0] != bs[j - 1]; }
  }

  lemma {:induction false} PushNode(nodes: map<int, MemNode>, p: Ptr, first: int, bs: seq<int>, block: int)
    requires Nodes(nodes, p, first, bs) && block !in nodes && block != NULL
    ensures Nodes(WithNode(nodes, p, first, block), p, block, [block] + bs)
  {
    var ls, after := [block] + bs, WithNode(nodes, p, first, block);
    PushDistinct(bs, block);
    forall i | 0 <= i < |ls| ensures ls[i] in after && after[ls[i]].owner == p {
      if i > 0 { assert ls[i] == bs[i - 1]; }
    }
    assert bs != [] ==> ls[|ls| - 1] == bs[|bs| - 1];
    forall i, j | 0 <= i < j < |ls| && j - i == 1 ensures after[ls[i]].next == ls[j] && after[ls[j]].prev == ls[i] {
      PushNext(nodes, p, first, bs, block, i, j);
    }
  }

  lemma {:induction false} OtherNodes(nodes: map<int, MemNode>, q: Ptr, head: int, bs: seq<int>, p: Ptr, first: int,
      block: int)
    requires Nodes(nodes, q, head, bs) && block !in nodes && p != q
             && (first != NULL && first in nodes ==> nodes[first].owner == p)
    ensures Nodes(WithNode(nodes, p, first, block), q, head, bs)
  {
    assert first !in bs && block !in bs;
  }

  function Own(t: Tree, p: Ptr, block: int): Tree
    requires p in t.at
  {
    t.(at := t.at[p := t.at[p].(nodes := [block] + t.at[p].nodes)])
  }

  lemma {:induction false} AddNodePoolOk(g: Heap, h: Heap, t: Tree, p: Ptr, block: int, q: Ptr)
    requires PoolOk(g, t, q) && PoolOk(g, t, p) && block !in g.nodes && block != NULL
    requires h.pools == g.pools[p := g.pools[p].(firstNode := block, newNode := block)] && h.arena == g.arena
    requires h.nodes == WithNode(g.nodes, p, g.pools[p].firstNode, block)
    ensures PoolOk(h, Own(t, p, block), q)
  {
    if q == p {
      PushNode(g.nodes, p, g.pools[p].firstNode, t.at[p].nodes, block);
    } else {
      OtherNodes(g.nodes, q, g.pools[q].firstNode, t.at[q].nodes, p, g.pools[p].firstNode, block);
    }
  }

  lemma {:induction false} OwnValid(t: Tree, p: Ptr, block: int)
    requires t.Valid() && p in t.at
    ensures Own(t, p, block).Valid()
  {
    var u := Own(t, p, block);
    assert forall q | q in u.at :: q in t.at && u.at[q] == t.at[q].(nodes := u.at[q].nodes);
  }

  lemma {:induction false} AddNodeFacts(g: Heap, t: Tree, p: Ptr)
    requires WF(g, t) && p in t.at
    ensures p in g.pools && (g.pools[p].firstNode != NULL ==> g.pools[p].firstNode in g.nodes)
  {
    assert PoolOk(g, t, p);
  }

  lemma {:induction false} AddNodeNoLeak(g: Heap, h: Heap, t: Tree, p: Ptr, block: int, first: int)
    requires NoLeak(g, t) && p in t.at && h.arena == g.arena && h.nodes == WithNode(g.nodes, p, first, block)
    ensures NoLeak(h, Own(t, p, block))
  {
    forall n | n in h.nodes ensures h.nodes[n].owner in t.at {
      if n != block { assert g.nodes[n].owner in t.at; }
    }
  }

  lemma {:induction false} AddNodeAllOk(g: Heap, h: Heap, t: Tree, p: Ptr, block: int)
    requires AllOk(g, t) && p in t.at && p in g.pools && block !in g.nodes && block != NULL
    requires h.pools == g.pools[p := g.pools[p].(firstNode := block, newNode := block)] && h.arena == g.arena
    requires h.nodes == WithNode(g.nodes, p, g.pools[p].firstNode, block)
    ensures AllOk(h, Own(t, p, block))
  {
    var u := Own(t, p, block);
    forall q | q in u.at ensures PoolOk(h, u, q) {
      AddNodePoolOk(g, h, t, p, block, q);
    }
  }

  lemma {:induction false} AddNodeWF(g: Heap, h: Heap, t: Tree, p: Ptr, block: int)
    requires WF(g, t) && p in t.at && p in g.pools && block !in g.nodes && block != NULL
    requires h.pools == g.pools[p := g.pools[p].(firstNode := block, newNode := block)] && h.arena == g.arena
    requires h.nodes == WithNode(g.nodes, p, g.pools[p].firstNode, block)
    ensures WF(h, Own(t, p, block))
  {
    OwnValid(t, p, block);
    AddNodeAllOk(g, h, t, p, block);
    AddNodeNoLeak(g, h, t, p, block, g.pools[p].firstNode);
  }

  /** _elr_slice_from_pool on the root pool. */
  method TakeSlot(arena: Arena) returns (a: Arena, k: nat)
    requires arena.Valid() && arena.HasRoom()
    ensures a.Valid() && Taken(arena, a, k)
  {
    var (a', k') := arena.Take();
    a, k := a', k';
  }

  /** The part of elr_mpl_create that fills in the new pool at c and links it to its parent. */
  method Hook(pools0: map<Ptr, Pool>, c: Ptr, parent: Ptr, tag: int, ghost ks: seq<Ptr>) returns (pools: map<Ptr, Pool>)
    requires parent in pools0 && parent != c && pools0[parent].firstChild == PtrAt(ks, 0)
    requires ks != [] ==> ks[0] in pools0 && ks[0] != c && ks[0] != parent && ks[0] != Null
    ensures Pushed(pools0, pools, parent, ks, c, tag)
  {
    var first := pools0[parent].firstChild;
    pools := pools0[c := Pool(parent, Null, Null, first, NULL, NULL, tag)];
    if first != Null { pools := pools[first := pools[first].(prev := c)]; }
    pools := pools[parent := pools[parent].(firstChild := c)];
    assert pools.Keys == pools0.Keys + {c};
  }

  /** The body of _elr_alloc_mem_node. */
  method LinkNode(g: Heap, p: Ptr, block: int) returns (h: Heap)
    requires p in g.pools && block !in g.nodes && (g.pools[p].firstNode != NULL ==> g.pools[p].firstNode in g.nodes)
    ensures h.pools == g.pools[p := g.pools[p].(firstNode := block, newNode := block)] && h.arena == g.arena
    ensures h.nodes == WithNode(g.nodes, p, g.pools[p].firstNode, block) && h.nodes.Keys == g.nodes.Keys + {block}
  {
    var first, nodes := g.pools[p].firstNode, g.nodes[block := MemNode(p, NULL, NULL)];
    if first != NULL {
      nodes := nodes[block := nodes[block].(next := first)];
      nodes := nodes[first := nodes[first].(prev := block)];
    }
    h := g.SetPool(p, g.pools[p].(firstNode := block, newNode := block)).(nodes := nodes);
  }

  // ---------- destroying a subtree ----------

  function Drop(ks: seq<Ptr>, i: nat): seq<Ptr>
    requires i < |ks|
  {
    ks[..i] + ks[i + 1..]
  }

  /** The tree without p, the i-th child of its parent, and without everything below p. */
  ghost function Prune(t: Tree, p: Ptr, i: nat): Tree
    requires t.Valid() && p in t.at && p != Root && i < |t.at[t.at[p].par].kids|
  {
    Tree(map q | q in t.at && q !in t.Subtree(p) ::
           if q == t.at[p].par then t.at[q].(kids := Drop(t.at[q].kids, i)) else t.at[q], t.clock)
  }

  /** A child of a pool outside the subtree is itself outside, unless it is p. */
  lemma {:induction false} OutsideKid(t: Tree, p: Ptr, q: Ptr, j: nat)
    requires t.Valid() && p in t.at && q in t.at && q !in t.Subtree(p) && j < |t.at[q].kids|
    ensures t.at[q].kids[j] in t.at && t.at[q].kids[j] != Root && t.at[t.at[q].kids[j]].par == q
    ensures t.at[q].kids[j] != p ==> t.at[q].kids[j] !in t.Subtree(p)
  {
  }

  lemma {:induction false} ParentOutside(t: Tree, p: Ptr)
    requires t.Valid() && p in t.at && p != Root
    ensures t.at[p].par in t.at && t.at[p].par !in t.Subtree(p) && Root !in t.Subtree(p)
  {
    if t.at[p].par in t.Subtree(p) { UnderAge(t, t.at[p].par, p); }
  }

  lemma {:induction false} DropMember(ks: seq<Ptr>, i: nat, c: Ptr)
    requires i < |ks| && NoDup(ks)
    ensures NoDup(Drop(ks, i)) && (c in Drop(ks, i) <==> c in ks && c != ks[i])
  {
    if c in ks && c != ks[i] {
      var j :| 0 <= j < |ks| && ks[j] == c;
      assert Drop(ks, i)[if j < i then j else j - 1] == c;
    }
  }

  lemma {:induction false} PruneKid(t: Tree, p: Ptr, i: nat, q: Ptr, ls: seq<Ptr>, j: nat)
    requires t.Valid() && p in t.at && q in t.at && q !in t.Subtree(p) && j < |ls|
    requires if p in t.at[q].kids then i < |t.at[q].kids| && t.at[q].kids[i] == p && ls == Drop(t.at[q].kids, i)
             else ls == t.at[q].kids
    ensures ls[j] in t.at && ls[j] !in t.Subtree(p) && ls[j] != Root && t.at[ls[j]].par == q
  {
    var j' := if p in t.at[q].kids && j >= i then j + 1 else j;
    assert ls[j] == t.at[q].kids[j'];
    assert t.at[q].kids[j'] != p;
    OutsideKid(t, p, q, j');
  }

  lemma {:induction false} PruneValid(t: Tree, p: Ptr, i: nat)
    requires t.Valid() && p in t.at && p != Root && i < |t.at[t.at[p].par].kids| && t.at[t.at[p].par].kids[i] == p
    ensures Prune(t, p, i).Valid()
  {
    var u := Prune(t, p, i);
    ParentOutside(t, p);
    forall q, j | q in u.at && 0 <= j < |u.at[q].kids|
      ensures u.at[q].kids[j] in u.at && u.at[q].kids[j] != Root && u.at[u.at[q].kids[j]].par == q
    {
      assert q == t.at[p].par <==> p in t.at[q].kids;
      PruneKid(t, p, i, q, u.at[q].kids, j);
    }
    forall c | c in u.at && c != Root
      ensures u.at[c].par in u.at && c in u.at[u.at[c].par].kids && u.at[u.at[c].par].birth < u.at[c].birth
    {
      assert u.at[c].par == t.at[c].par && t.at[c].par !in t.Subtree(p);
      DropMember(t.at[t.at[p].par].kids, i, c);
    }
    forall q | q in u.at ensures u.at[q].birth < u.clock && NoDup(u.at[q].kids) {
      assert q in t.at;
      if q == t.at[p].par { DropMember(t.at[q].kids, i, p); }
    }
  }

  /** The links after elr_mpl_destroy cut the i-th of the children ks out of their list. */
  ghost predicate Cut(g: map<Ptr, Pool>, h: map<Ptr, Pool>, parent: Ptr, ks: seq<Ptr>, i: nat) {
    && h.Keys == g.Keys
    && (forall q {:trigger h[q]} | q in g ::
          && h[q].parent == g[q].parent && h[q].firstNode == g[q].firstNode && h[q].sliceTag == g[q].sliceTag
          && h[q].firstChild == (if i == 0 && q == parent then PtrAt(ks, 1) else g[q].firstChild)
          && h[q].next == (if 0 < i < |ks| && q == ks[i - 1] then PtrAt(ks, i + 1) else g[q].next)
          && h[q].prev == (if i + 1 < |ks| && q == ks[i + 1] then PtrAt(ks, i - 1) else g[q].prev))
  }

  method Unlink(pools0: map<Ptr, Pool>, p: Ptr, ghost parent: Ptr, ghost ks: seq<Ptr>, ghost i: nat)
    returns (pools: map<Ptr, Pool>)
    requires Forward(pools0, parent, ks) && Backward(pools0, parent, ks) && i < |ks| && ks[i] == p
    requires NoDup(ks) && parent !in ks && Null !in ks
    ensures Cut(pools0, pools, parent, ks, i)
  {
    LinksAt(pools0, parent, ks, i);
    if i > 0 { LinksAt(pools0, parent, ks, i - 1); }
    var r := pools0[p];
    var half := UnlinkNext(pools0, p, parent, ks, i);
    if r.prev == Null {
      pools := half[r.parent := half[r.parent].(firstChild := r.next)];
    } else {
      pools := half[r.prev := half[r.prev].(next := r.next)];
    }
  }

  /** The first assignment of elr_mpl_destroy: the next sibling points past the pool. */
  method UnlinkNext(pools0: map<Ptr, Pool>, p: Ptr, ghost parent: Ptr, ghost ks: seq<Ptr>, ghost i: nat)
    returns (half: map<Ptr, Pool>)
    requires Forward(pools0, parent, ks) && Backward(pools0, parent, ks) && i < |ks| && ks[i] == p && Null !in ks
    ensures half.Keys == pools0.Keys && forall q {:trigger half[q]} | q in pools0 ::
              half[q] == if i + 1 < |ks| && q == ks[i + 1] then pools0[q].(prev := pools0[p].prev) else pools0[q]
  {
    LinksAt(pools0, parent, ks, i);
    if i + 1 < |ks| { LinksAt(pools0, parent, ks, i + 1); }
    var r := pools0[p];
    half := pools0;
    if r.next != Null { half := half[r.next := half[r.next].(prev := r.prev)]; }
  }

  lemma {:induction false} CutList(g: map<Ptr, Pool>, h: map<Ptr, Pool>, parent: Ptr, ks: seq<Ptr>, i: nat)
    requires Forward(g, parent, ks) && Backward(g, parent, ks) && i < |ks| && NoDup(ks) && parent !in ks
    requires Cut(g, h, parent, ks, i)
    ensures Forward(h, parent, Drop(ks, i)) && Backward(h, parent, Drop(ks, i))
  {
    var ls := Drop(ks, i);
    forall j | 0 <= j < |ls|
      ensures ls[j] in h && h[ls[j]].next == PtrAt(ls, j + 1)
              && h[ls[j]].prev == PtrAt(ls, j - 1) && h[ls[j]].parent == parent
    {
      CutSide(g, h, parent, ks, i, j);
    }
    if i > 0 {
      assert ls[0] == ks[0];
    } else if ls != [] {
      assert ls[0] == ks[1];
    }
  }

  /** The links of the j-th pool of a list. */
  lemma {:induction false} LinksAt(g: map<Ptr, Pool>, p: Ptr, ks: seq<Ptr>, j: nat)
    requires Forward(g, p, ks) && Backward(g, p, ks) && j < |ks|
    ensures ks[j] in g && g[ks[j]].next == PtrAt(ks, j + 1) && g[ks[j]].prev == PtrAt(ks, j - 1) && g[ks[j]].parent == p
  {
  }

  lemma {:induction false} CutSide(g: map<Ptr, Pool>, h: map<Ptr, Pool>, parent: Ptr, ks: seq<Ptr>, i: nat, j: nat)
    requires Forward(g, parent, ks) && Backward(g, parent, ks) && i < |ks| && NoDup(ks)
    requires Cut(g, h, parent, ks, i) && j < |ks| - 1
    ensures var ls := Drop(ks, i);
            && ls[j] in h && h[ls[j]].next == PtrAt(ls, j + 1)
            && h[ls[j]].prev == PtrAt(ls, j - 1) && h[ls[j]].parent == parent
  {
    var k := if j < i then j else j + 1;
    LinksAt(g, parent, ks, k);
    CutAt(g, h, parent, ks, i, ks[k]);
    DropSide(ks, i, j, k, h[ks[k]].next, h[ks[k]].prev);
  }

  /** The pool at place j of the list without its i-th pool has the neighbours that Cut gives it. */
  lemma {:induction false} DropSide(ks: seq<Ptr>, i: nat, j: nat, k: nat, next: Ptr, prev: Ptr)
    requires NoDup(ks) && i < |ks| && j < |ks| - 1 && k == if j < i then j else j + 1
    requires next == if 0 < i && ks[k] == ks[i - 1] then PtrAt(ks, i + 1) else PtrAt(ks, k + 1)
    requires prev == if i + 1 < |ks| && ks[k] == ks[i + 1] then PtrAt(ks, i - 1) else PtrAt(ks, k - 1)
    ensures var ls := Drop(ks, i); ls[j] == ks[k] && next == PtrAt(ls, j + 1) && prev == PtrAt(ls, j - 1)
  {
    assert i > 0 && k != i - 1 ==> ks[k] != ks[i - 1];
    assert i + 1 < |ks| && k != i + 1 ==> ks[k] != ks[i + 1];
  }

  lemma {:induction false} CutAt(g: map<Ptr, Pool>, h: map<Ptr, Pool>, parent: Ptr, ks: seq<Ptr>, i: nat, q: Ptr)
    requires Cut(g, h, parent, ks, i) && q in g
    ensures q in h && h[q].parent == g[q].parent
    ensures h[q].next == (if 0 < i < |ks| && q == ks[i - 1] then PtrAt(ks, i + 1) else g[q].next)
    ensures h[q].prev == (if i + 1 < |ks| && q == ks[i + 1] then PtrAt(ks, i - 1) else g[q].prev)
  {
  }

  lemma {:induction false} UncutList(g: map<Ptr, Pool>, h: map<Ptr, Pool>, parent: Ptr, ks: seq<Ptr>, i: nat, q: Ptr,
      kq: seq<Ptr>)
    requires Forward(g, q, kq) && Backward(g, q, kq) && Cut(g, h, parent, ks, i) && q != parent
    requires forall j | 0 <= j < |kq| :: kq[j] !in ks
    ensures Forward(h, q, kq) && Backward(h, q, kq)
  {
    forall j | 0 <= j < |kq|
      ensures kq[j] in h && h[kq[j]].next == g[kq[j]].next && h[kq[j]].prev == g[kq[j]].prev
              && h[kq[j]].parent == g[kq[j]].parent
    {
      CutAt(g, h, parent, ks, i, kq[j]);
    }
    assert h[q].firstChild == g[q].firstChild;
    SameLinks(g, h, q, kq);
  }

  /** Cutting p out of its list leaves the lists of every pool but its parent alone. */
  lemma {:induction false} CutElsewhere(g: Heap, h: Heap, t: Tree, p: Ptr, i: nat, q: Ptr)
    requires t.Valid() && p in t.at && p != Root && PoolOk(g, t, q) && q != t.at[p].par
    requires Cut(g.pools, h.pools, t.at[p].par, t.at[t.at[p].par].kids, i)
    ensures Forward(h.pools, q, t.at[q].kids) && Backward(h.pools, q, t.at[q].kids)
  {
    var parent := t.at[p].par;
    forall j | 0 <= j < |t.at[q].kids| ensures t.at[q].kids[j] !in t.at[parent].kids {
      ListsApart(t, parent, q, j);
    }
    UncutList(g.pools, h.pools, parent, t.at[parent].kids, i, q, t.at[q].kids);
  }

  lemma {:induction false} CutAtParent(g: Heap, h: Heap, t: Tree, p: Ptr, i: nat)
    requires t.Valid() && p in t.at && p != Root && PoolOk(g, t, t.at[p].par) && i < |t.at[t.at[p].par].kids|
    requires Cut(g.pools, h.pools, t.at[p].par, t.at[t.at[p].par].kids, i)
    ensures var ls := Drop(t.at[t.at[p].par].kids, i);
            Forward(h.pools, t.at[p].par, ls) && Backward(h.pools, t.at[p].par, ls)
  {
    var parent := t.at[p].par;
    forall j | 0 <= j < |t.at[parent].kids| ensures t.at[parent].kids[j] != parent {
      ListsApart(t, parent, parent, j);
    }
    CutList(g.pools, h.pools, parent, t.at[parent].kids, i);
  }

  lemma {:induction false} CutStanding(g: Heap, h: Heap, t: Tree, p: Ptr, i: nat, q: Ptr)
    requires t.Valid() && p in t.at && p != Root && PoolOk(g, t, q) && q in t.Subtree(p)
    requires Cut(g.pools, h.pools, t.at[p].par, t.at[t.at[p].par].kids, i) && h.nodes == g.nodes && h.arena == g.arena
    ensures Standing(h, t, q)
  {
    ParentOutside(t, p);
    CutElsewhere(g, h, t, p, i, q);
  }

  lemma {:induction false} CutReady(g: Heap, h: Heap, t: Tree, p: Ptr, i: nat)
    requires t.Valid() && AllOk(g, t) && p in t.at && p != Root && h.arena.Valid()
    requires Cut(g.pools, h.pools, t.at[p].par, t.at[t.at[p].par].kids, i) && h.nodes == g.nodes && h.arena == g.arena
    ensures Ready(h, t, p)
  {
    forall q | q in t.Subtree(p) ensures Standing(h, t, q) {
      CutStanding(g, h, t, p, i, q);
    }
  }

  /** A list of pools none of which is gone. */
  lemma {:induction false} SameList(h: Heap, f: Heap, gone: set<Ptr>, order: seq<nat>, q: Ptr, ls: seq<Ptr>)
    requires Gone(h, f, gone, order) && q !in gone && (forall j | 0 <= j < |ls| :: ls[j] !in gone)
    requires Forward(h.pools, q, ls) && Backward(h.pools, q, ls)
    ensures Forward(f.pools, q, ls) && Backward(f.pools, q, ls)
  {
  }

  lemma {:induction false} SurvivorLinks(g: Heap, h: Heap, f: Heap, t: Tree, p: Ptr, i: nat, order: seq<nat>, q: Ptr,
      ls: seq<Ptr>)
    requires t.Valid() && p in t.at && p != Root && PoolOk(g, t, q) && q !in t.Subtree(p)
    requires i < |t.at[t.at[p].par].kids| && t.at[t.at[p].par].kids[i] == p
    requires ls == if q == t.at[p].par then Drop(t.at[q].kids, i) else t.at[q].kids
    requires Cut(g.pools, h.pools, t.at[p].par, t.at[t.at[p].par].kids, i) && Gone(h, f, t.Subtree(p), order)
    ensures Forward(f.pools, q, ls) && Backward(f.pools, q, ls)
  {
    if q == t.at[p].par { CutAtParent(g, h, t, p, i); } else { CutElsewhere(g, h, t, p, i, q); }
    assert q == t.at[p].par <==> p in t.at[q].kids;
    forall j | 0 <= j < |ls| ensures ls[j] !in t.Subtree(p) {
      PruneKid(t, p, i, q, ls, j);
    }
    SameList(h, f, t.Subtree(p), order, q, ls);
  }

  /** A pool outside the destroyed subtree keeps its children (but p), its nodes and its tag. */
  lemma {:induction false} SurvivorOk(g: Heap, h: Heap, f: Heap, t: Tree, p: Ptr, i: nat, order: seq<nat>, q: Ptr)
    requires t.Valid() && p in t.at && p != Root && PoolOk(g, t, q) && q !in t.Subtree(p)
    requires i < |t.at[t.at[p].par].kids| && t.at[t.at[p].par].kids[i] == p
    requires Cut(g.pools, h.pools, t.at[p].par, t.at[t.at[p].par].kids, i) && h.nodes == g.nodes && h.arena == g.arena
    requires Gone(h, f, t.Subtree(p), order)
    ensures PoolOk(f, Prune(t, p, i), q)
  {
    var u := Prune(t, p, i);
    SurvivorLinks(g, h, f, t, p, i, order, q, u.at[q].kids);
    KeepNodes(g.nodes, q, g.pools[q].firstNode, t.at[q].nodes, t.Subtree(p));
    SurvivorFields(g, h, f, t.at[p].par, t.at[t.at[p].par].kids, i, t.Subtree(p), order, q);
    assert u.at[q].nodes == t.at[q].nodes;
  }

  lemma {:induction false} SurvivorFields(g: Heap, h: Heap, f: Heap, parent: Ptr, ks: seq<Ptr>, i: nat,
                                          gone: set<Ptr>, order: seq<nat>, q: Ptr)
    requires Cut(g.pools, h.pools, parent, ks, i) && h.arena == g.arena && Gone(h, f, gone, order) && q in g.pools
             && q !in gone
    ensures q in f.pools && f.pools[q].firstNode == g.pools[q].firstNode && f.pools[q].sliceTag == g.pools[q].sliceTag
    ensures q.Slot? && g.arena.InUse(q.k) ==> f.arena.InUse(q.k) && f.arena.tags[q.k] == g.arena.tags[q.k]
  {
    if q.Slot? { assert q.k !in order; }
  }

  lemma {:induction false} PruneNoLeak(g: Heap, h: Heap, f: Heap, t: Tree, p: Ptr, i: nat, order: seq<nat>)
    requires t.Valid() && p in t.at && p != Root && NoLeak(g, t) && i < |t.at[t.at[p].par].kids|
    requires h.nodes == g.nodes && h.arena == g.arena && Gone(h, f, t.Subtree(p), order)
    ensures NoLeak(f, Prune(t, p, i))
  {
    forall k: nat | f.arena.InUse(k) ensures Slot(k) in Prune(t, p, i).at {
      assert g.arena.InUse(k) && k !in order;
    }
  }

  /** What destroying the pools in `gone` does to every handle in the program. */
  ghost predicate HandlesAfter(a: Arena, b: Arena, gone: set<Ptr>) {
    && Later(a, b)
    && (forall hd: Handle :: Avail(a, hd) ==> (Avail(b, hd) <==> hd.pool !in gone))
  }

  lemma {:induction false} GoneHandles(h: Heap, f: Heap, gone: set<Ptr>, order: seq<nat>)
    requires Gone(h, f, gone, order)
    ensures HandlesAfter(h.arena, f.arena, gone)
  {
    forall hd: Handle | Avail(h.arena, hd) ensures Avail(f.arena, hd) <==> hd.pool !in gone {
      assert hd.pool.k in order <==> Slot(hd.pool.k) in gone;
    }
  }

  lemma {:induction false} DestroyWF(g: Heap, h: Heap, f: Heap, t: Tree, p: Ptr, i: nat, order: seq<nat>)
    requires WF(g, t) && p in t.at && p != Root && i < |t.at[t.at[p].par].kids| && t.at[t.at[p].par].kids[i] == p
    requires Cut(g.pools, h.pools, t.at[p].par, t.at[t.at[p].par].kids, i) && h.nodes == g.nodes && h.arena == g.arena
    requires Gone(h, f, t.Subtree(p), order)
    ensures WF(f, Prune(t, p, i))
  {
    PruneValid(t, p, i);
    PruneNoLeak(g, h, f, t, p, i, order);
    forall q | q in Prune(t, p, i).at ensures PoolOk(f, Prune(t, p, i), q) {
      SurvivorOk(g, h, f, t, p, i, order, q);
    }
  }

  lemma {:induction false} DestroyDone(g: Heap, h: Heap, f: Heap, t: Tree, p: Ptr, i: nat, order: seq<nat>)
    requires WF(g, t) && p in t.at && p != Root && i < |t.at[t.at[p].par].kids| && t.at[t.at[p].par].kids[i] == p
    requires Cut(g.pools, h.pools, t.at[p].par, t.at[t.at[p].par].kids, i) && h.nodes == g.nodes && h.arena == g.arena
    requires Gone(h, f, t.Subtree(p), order)
    ensures f.arena.Valid() && WF(f, Prune(t, p, i)) && HandlesAfter(g.arena, f.arena, t.Subtree(p))
  {
    GoneHandles(h, f, t.Subtree(p), order);
    DestroyWF(g, h, f, t, p, i, order);
  }

  lemma {:induction false} DestroyFacts(g: Heap, t: Tree, hd: Handle) returns (i: nat)
    requires WF(g, t) && g.arena.Valid() && Avail(g.arena, hd) && Issued(hd)
    ensures hd.pool in t.at && hd.pool != Root && hd.pool in g.pools && g.pools[hd.pool].parent == t.at[hd.pool].par
    ensures g.pools[hd.pool].sliceTag == hd.tag
    ensures t.at[hd.pool].par in t.at && i < |t.at[t.at[hd.pool].par].kids|
            && t.at[t.at[hd.pool].par].kids[i] == hd.pool
    ensures var parent := t.at[hd.pool].par; var ks := t.at[parent].kids;
            Forward(g.pools, parent, ks) && Backward(g.pools, parent, ks) && NoDup(ks) && parent !in ks && Null !in ks
  {
    var p := hd.pool;
    assert g.arena.InUse(p.k);
    assert PoolOk(g, t, p) && PoolOk(g, t, t.at[p].par);
    i :| 0 <= i < |t.at[t.at[p].par].kids| && t.at[t.at[p].par].kids[i] == p;
    forall j | 0 <= j < |t.at[t.at[p].par].kids|
      ensures t.at[t.at[p].par].kids[j] != t.at[p].par && t.at[t.at[p].par].kids[j] != Null
    {
      ListsApart(t, p, t.at[p].par, j);
    }
  }

  /** Frees the nodes of a list one by one; `first` is the pool's first_node. */
  method FreeList(nodes0: map<int, MemNode>, first0: int, ghost p: Ptr, ghost bs: seq<int>)
    returns (nodes: map<int, MemNode>, first: int)
    requires Nodes(nodes0, p, first0, bs)
    ensures nodes == Keep(nodes0, {p}) && first == NULL
  {
    nodes, first := nodes0, first0;
    var temp := first;
    ghost var i := 0;
    assert bs[..0] == [] && Without(nodes0, []) == nodes0;
    while temp != NULL
      invariant 0 <= i <= |bs| && temp == first == At(bs, i) && nodes == Without(nodes0, bs[..i])
      decreases |bs| - i
    {
      WithoutNext(nodes0, bs, i);
      NextNode(nodes0, p, first0, bs, i);
      first := nodes[temp].next;
      nodes := nodes - {temp};
      temp := first;
      i := i + 1;
    }
    assert bs[..i] == bs;
    WithoutAll(nodes0, p, first0, bs);
  }

  lemma {:induction false} NextNode(nodes: map<int, MemNode>, p: Ptr, first: int, bs: seq<int>, i: nat)
    requires Nodes(nodes, p, first, bs) && i < |bs|
    ensures bs[i] in nodes && bs[i] != NULL && nodes[bs[i]].next == At(bs, i + 1)
  {
    if i + 1 < |bs| { assert nodes[bs[i]].next == bs[i + 1]; }
  }

  // ---------- calls ----------

  /** The calls of a program; a pool is named by its handle. */
  datatype Call =
    | CreateTop                         // elr_mpl_create under the root
    | CreateUnder(hd: Handle)           // elr_mpl_create
    | DestroyPool(hd: Handle)           // elr_mpl_destroy
    | Grow(hd: Handle, block: int)      // an allocation for which malloc gave the pool a new node

  /** What the source asserts of the handle, room for the new pool, and a block that is not in use. */
  predicate Accepts(h: Heap, call: Call) {
    match call
    case CreateTop => h.arena.HasRoom()
    case CreateUnder(hd) => Avail(h.arena, hd) && Issued(hd) && h.arena.HasRoom()
    case DestroyPool(hd) => Avail(h.arena, hd) && Issued(hd)
    case Grow(hd, block) => Avail(h.arena, hd) && Issued(hd) && block !in h.nodes && block != NULL
  }

  lemma {:induction false} NamesAPool(g: Heap, t: Tree, hd: Handle)
    requires WF(g, t) && g.arena.Valid() && Avail(g.arena, hd) && Issued(hd)
    ensures hd.pool in t.at
  {
    assert g.arena.InUse(hd.pool.k);
  }

  /** What a call does to the handles of the program: tags only grow, a destroy makes its handle
      unavailable, and no other call makes any. */
  ghost predicate Kept(a: Arena, b: Arena, call: Call) {
    && Later(a, b)
    && (call.DestroyPool? ==> !Avail(b, call.hd))
    && (!call.DestroyPool? ==> forall hd | Avail(a, hd) && Issued(hd) :: Avail(b, hd))
  }

  lemma {:induction false} DestroyKept(t: Tree, a: Arena, b: Arena, hd: Handle)
    requires t.Valid() && hd.pool in t.at && Avail(a, hd) && HandlesAfter(a, b, t.Subtree(hd.pool))
    ensures Kept(a, b, DestroyPool(hd))
  {
    assert hd.pool in t.Subtree(hd.pool);
  }

  lemma {:induction false} TakenKept(a: Arena, b: Arena, k: nat, call: Call)
    requires a.Valid() && Taken(a, b, k) && !call.DestroyPool?
    ensures Kept(a, b, call)
  {
    forall hd | Avail(a, hd) && Issued(hd) ensures Avail(b, hd) { TakenKeeps(a, b, k, hd); }
  }

  /** The heap and the tree before or after a call. */
  datatype Snapshot = Snapshot(heap: Heap, tree: Tree)

  /** c stands under p in u, in front of p's other children; every other pool stands where it did in t. */
  ghost predicate Grafted(t: Tree, p: Ptr, c: Ptr, u: Tree) {
    && p in t.at && c !in t.at && u.at.Keys == t.at.Keys + {c}
    && u.at[c].par == p && u.at[c].kids == [] && u.at[p].kids == [c] + t.at[p].kids && SameParents(t, u, t.at.Keys)
  }

  ghost predicate SameParents(t: Tree, u: Tree, ps: set<Ptr>) {
    forall q {:trigger SameParent(t, u, q)} | q in ps :: SameParent(t, u, q)
  }

  ghost predicate SameParent(t: Tree, u: Tree, q: Ptr) { q in t.at && q in u.at && u.at[q].par == t.at[q].par }

  /** Exactly the pools of the subtree of p are missing from u, and the others stand where they did. */
  ghost predicate Pruned(t: Tree, p: Ptr, u: Tree) {
    t.Valid() && u.at.Keys == t.at.Keys - t.Subtree(p) && SameParents(t, u, u.at.Keys)
  }

  /** What a call does to the tree of pools: a new pool stands under the parent that was named, destroying
      takes exactly the subtree and its handles, and a new node changes nothing in the tree. */
  ghost predicate Shaped(x: Snapshot, y: Snapshot, call: Call, made: Option<Handle>) {
    && x.tree.Valid() && y.tree.Valid()
    && (made.Some? ==> Issued(made.value) && Avail(y.heap.arena, made.value))
    && match call
       case CreateTop => made.Some? && Grafted(x.tree, Root, made.value.pool, y.tree)
       case CreateUnder(hd) => made.Some? && Grafted(x.tree, hd.pool, made.value.pool, y.tree)
       case DestroyPool(hd) =>
         && made == None && hd.pool in x.tree.at && Pruned(x.tree, hd.pool, y.tree)
         && HandlesAfter(x.heap.arena, y.heap.arena, x.tree.Subtree(hd.pool))
       case Grow(_, _) =>
         && made == None && y.tree.at.Keys == x.tree.at.Keys
         && SameParents(x.tree, y.tree, x.tree.at.Keys)
  }

  /** A call whose demands are met is made; any other changes nothing. */
  ghost predicate CallMade(x: Snapshot, y: Snapshot, call: Call, made: Option<Handle>) {
    if Accepts(x.heap, call) then Kept(x.heap.arena, y.heap.arena, call) && Shaped(x, y, call, made)
    else y == x && made == None
  }

  lemma {:induction false} GraftShape(t: Tree, p: Ptr, c: Ptr)
    requires t.Valid() && p in t.at && c !in t.at
    ensures Grafted(t, p, c, Graft(t, p, c))
  {
    forall q | q in t.at ensures SameParent(t, Graft(t, p, c), q) {}
  }

  lemma {:induction false} PruneShape(t: Tree, p: Ptr, i: nat)
    requires t.Valid() && p in t.at && p != Root && i < |t.at[t.at[p].par].kids|
    ensures Pruned(t, p, Prune(t, p, i))
  {
    var u := Prune(t, p, i);
    forall q | q in u.at ensures SameParent(t, u, q) {}
  }

  /** A trace of snapshots, one before and one after every call, in which tags only grow. */
  ghost predicate Grows(trace: seq<Snapshot>) {
    forall i, j {:trigger Later(trace[i].heap.arena, trace[j].heap.arena)} | 0 <= i <= j < |trace| ::
      Later(trace[i].heap.arena, trace[j].heap.arena)
  }

  lemma {:induction false} GrowsOn(trace: seq<Snapshot>, b: Snapshot)
    requires Grows(trace) && trace != [] && Later(trace[|trace| - 1].heap.arena, b.heap.arena)
    ensures Grows(trace + [b])
  {
    var longer := trace + [b];
    forall i, j | 0 <= i <= j < |longer| ensures Later(longer[i].heap.arena, longer[j].heap.arena) {
      if i < |trace| == j { LaterLater(trace[i].heap.arena, trace[|trace| - 1].heap.arena, b.heap.arena); }
    }
  }

  /** The calls were made one after the other between the snapshots, with these handles as results. */
  ghost predicate Made(trace: seq<Snapshot>, calls: seq<Call>, made: seq<Option<Handle>>) {
    && |trace| == |made| + 1 && |made| <= |calls|
    && forall i {:trigger calls[i]} | 0 <= i < |made| :: CallMade(trace[i], trace[i + 1], calls[i], made[i])
  }

  lemma {:induction false} MadeMore(trace: seq<Snapshot>, calls: seq<Call>, made: seq<Option<Handle>>, y: Snapshot,
      hd: Option<Handle>)
    requires Made(trace, calls, made) && |made| < |calls| && CallMade(trace[|made|], y, calls[|made|], hd)
    ensures Made(trace + [y], calls, made + [hd])
  {
  }

  // ---------- a child ends with its parent ----------

  lemma {:induction false} UnderKept(t: Tree, u: Tree, q: Ptr, p: Ptr, ps: set<Ptr>)
    requires t.Valid() && u.Valid() && q in t.at && t.Under(q, p) && q in ps && SameParents(t, u, ps)
    requires ps <= t.at.Keys && forall r | r in ps && r != Root && r != p :: t.at[r].par in ps
    ensures q in u.at && u.Under(q, p)
    decreases t.at[q].birth
  {
    assert SameParent(t, u, q);
    if q != p { UnderKept(t, u, t.at[q].par, p, ps); }
  }

  lemma {:induction false} ParentSurvives(t: Tree, d: Ptr, q: Ptr)
    requires t.Valid() && d in t.at && q in t.at && q != Root && q !in t.Subtree(d)
    ensures t.at[q].par in t.at && t.at[q].par !in t.Subtree(d)
  {
  }

  /** As long as the handle to a pool lasts, the pool stays under what it was under. */
  lemma {:induction false} StaysUnder(x: Snapshot, y: Snapshot, call: Call, made: Option<Handle>, c: Handle, p: Ptr)
    requires CallMade(x, y, call, made) && x.tree.Valid() && c.pool in x.tree.at && x.tree.Under(c.pool, p)
    requires Avail(x.heap.arena, c) && Avail(y.heap.arena, c)
    ensures y.tree.Valid() && c.pool in y.tree.at && y.tree.Under(c.pool, p)
  {
    if Accepts(x.heap, call) {
      if call.DestroyPool? {
        var t, d := x.tree, call.hd.pool;
        forall r | r in y.tree.at && r != Root && r != p ensures t.at[r].par in y.tree.at { ParentSurvives(t, d, r); }
        UnderKept(t, y.tree, c.pool, p, y.tree.at.Keys);
      } else {
        UnderKept(x.tree, y.tree, c.pool, p, x.tree.at.Keys);
      }
    }
  }

  lemma {:induction false} StaysUnderUntil(trace: seq<Snapshot>, calls: seq<Call>, made: seq<Option<Handle>>, i: nat,
      j: nat, c: Handle, p: Ptr)
    requires Made(trace, calls, made) && Grows(trace) && i <= j < |trace|
    requires trace[i].tree.Valid() && c.pool in trace[i].tree.at && trace[i].tree.Under(c.pool, p)
    requires Avail(trace[i].heap.arena, c) && Avail(trace[j].heap.arena, c)
    ensures trace[j].tree.Valid() && c.pool in trace[j].tree.at && trace[j].tree.Under(c.pool, p)
  {
    if i < j {
      assert Later(trace[i].heap.arena, trace[j - 1].heap.arena) && Later(trace[j - 1].heap.arena, trace[j].heap.arena);
      LastsBetween(trace[i].heap.arena, trace[j - 1].heap.arena, trace[j].heap.arena, c);
      StaysUnderUntil(trace, calls, made, i, j - 1, c, p);
      assert CallMade(trace[j - 1], trace[j], calls[j - 1], made[j - 1]);
      StaysUnder(trace[j - 1], trace[j], calls[j - 1], made[j - 1], c, p);
    }
  }

  lemma {:induction false} LastsBetween(a: Arena, b: Arena, c: Arena, hd: Handle)
    requires Later(a, b) && Later(b, c) && Avail(a, hd) && Avail(c, hd)
    ensures Avail(b, hd)
  {
    assert a.tags[hd.pool.k] <= b.tags[hd.pool.k] <= c.tags[hd.pool.k];
  }

  lemma {:induction false} EndsNow(x: Snapshot, y: Snapshot, p: Handle, made: Option<Handle>, c: Handle)
    requires CallMade(x, y, DestroyPool(p), made) && Accepts(x.heap, DestroyPool(p))
    requires x.tree.Valid() && c.pool in x.tree.at && x.tree.Under(c.pool, p.pool) && Avail(x.heap.arena, c)
    ensures !Avail(y.heap.arena, c)
  {
    assert c.pool in x.tree.Subtree(p.pool);
  }

  lemma {:induction false} EndsAt(trace: seq<Snapshot>, calls: seq<Call>, made: seq<Option<Handle>>, j: nat, p: Handle,
      c: Handle)
    requires Made(trace, calls, made) && j < |made| && calls[j] == DestroyPool(p) && Accepts(trace[j].heap, calls[j])
    requires trace[j].tree.Valid() && c.pool in trace[j].tree.at && trace[j].tree.Under(c.pool, p.pool)
    requires Avail(trace[j].heap.arena, c)
    ensures !Avail(trace[j + 1].heap.arena, c)
  {
    assert CallMade(trace[j], trace[j + 1], calls[j], made[j]);
    EndsNow(trace[j], trace[j + 1], p, made[j], c);
  }

  /** In every run: a pool created under p, however deep and whatever happens in between, ends no later than
      p: when p is destroyed, the child's handle is unavailable from then on. */
  lemma {:induction false} ChildEndsWithParent(trace: seq<Snapshot>, calls: seq<Call>, made: seq<Option<Handle>>,
      i: nat, j: nat, k: nat, p: Handle, c: Handle)
    requires Made(trace, calls, made) && Grows(trace) && i < j < k < |trace|
    requires trace[i + 1].tree.Valid() && c.pool in trace[i + 1].tree.at && trace[i + 1].tree.Under(c.pool, p.pool)
    requires Avail(trace[i + 1].heap.arena, c)
    requires calls[j] == DestroyPool(p) && Accepts(trace[j].heap, calls[j])
    ensures !Avail(trace[k].heap.arena, c)
  {
    var a, b, d, e := trace[i + 1].heap.arena, trace[j].heap.arena, trace[j + 1].heap.arena, trace[k].heap.arena;
    assert Later(a, b) && Later(b, d) && Later(d, e);
    if Avail(b, c) {
      StaysUnderUntil(trace, calls, made, i + 1, j, c, p.pool);
      EndsAt(trace, calls, made, j, p, c);
    }
    GoneFrom(a, b, d, e, c);
  }

  lemma {:induction false} GoneFrom(a: Arena, b: Arena, d: Arena, e: Arena, c: Handle)
    requires Later(a, b) && Later(b, d) && Later(d, e) && Avail(a, c) && (Avail(b, c) ==> !Avail(d, c))
    ensures !Avail(e, c)
  {
    StaleLater(a, b, c);
    StaleLater(b, d, c);
    StaleLater(d, e, c);
  }

  lemma {:induction false} CreatedUnder(x: Snapshot, y: Snapshot, p: Handle, c: Handle)
    requires CallMade(x, y, CreateUnder(p), Some(c))
    ensures y.tree.Valid() && c.pool in y.tree.at && y.tree.Under(c.pool, p.pool) && Avail(y.heap.arena, c)
  {
    assert p.pool in x.tree.at.Keys;
    assert y.tree.at[c.pool].par == p.pool && c.pool != Root;
    assert y.tree.Under(p.pool, p.pool);
  }

  /** For instance the child that elr_mpl_create made under p itself. */
  lemma {:induction false} CreatedChildEnds(trace: seq<Snapshot>, calls: seq<Call>, made: seq<Option<Handle>>, i: nat,
      j: nat, k: nat, p: Handle, c: Handle)
    requires Made(trace, calls, made) && Grows(trace) && i < j < k < |trace|
    requires calls[i] == CreateUnder(p) && made[i] == Some(c)
    requires calls[j] == DestroyPool(p) && Accepts(trace[j].heap, calls[j])
    ensures !Avail(trace[k].heap.arena, c)
  {
    assert CallMade(trace[i], trace[i + 1], calls[i], made[i]);
    CreatedUnder(trace[i], trace[i + 1], p, c);
    ChildEndsWithParent(trace, calls, made, i, j, k, p, c);
  }

  /** The handles issued between the arenas a and b: all different, and none of them issued before a. */
  ghost predicate IssuedIn(issued: seq<Handle>, a: Arena, b: Arena) {
    && NoDup(issued) && Later(a, b)
    && forall hd | hd in issued :: Issued(hd) && Past(b, hd) && !Past(a, hd)
  }

  lemma {:induction false} IssuedStill(issued: seq<Handle>, a: Arena, b: Arena, c: Arena)
    requires IssuedIn(issued, a, b) && Later(b, c)
    ensures IssuedIn(issued, a, c)
  {
    LaterLater(a, b, c);
    forall hd | hd in issued ensures Past(c, hd) { StaleLater(b, c, hd); }
  }

  lemma {:induction false} IssuedMore(issued: seq<Handle>, a: Arena, b: Arena, c: Arena, hd: Handle)
    requires IssuedIn(issued, a, b) && Later(b, c) && Issued(hd) && Avail(c, hd) && !Past(b, hd)
    ensures IssuedIn(issued + [hd], a, c)
  {
    IssuedStill(issued, a, b, c);
    assert hd !in issued;
    if Past(a, hd) { StaleLater(a, b, hd); }
  }

  class Allocator {
    var heap: Heap
    ghost var tree: Tree

    ghost predicate Valid() reads this { heap.arena.Valid() && WF(heap, tree) }

    /** The `while` loop of _elr_inter_mpl_destory that frees the pool's nodes. */
    method FreeNodes(p: Ptr, ghost bs: seq<int>)
      requires p in heap.pools && Nodes(heap.nodes, p, heap.pools[p].firstNode, bs)
      modifies this`heap
      ensures heap == Heap(old(heap).pools[p := old(heap).pools[p].(firstNode := NULL)],
                           Keep(old(heap).nodes, {p}), old(heap).arena)
    {
      var nodes, first := FreeList(heap.nodes, heap.pools[p].firstNode, p, bs);
      heap := heap.SetPool(p, heap.pools[p].(firstNode := first)).(nodes := nodes);
    }

    /** One turn of the loop over the children of p: unhooks and destroys the i-th child c. */
    method DestroyChild(p: Ptr, c: Ptr, ghost g: Heap, ghost t: Tree, ghost i: nat, ghost before: seq<nat>)
      returns (ghost order: seq<nat>)
      requires Ready(g, t, p) && i < |t.at[p].kids| && c == t.at[p].kids[i] && p in g.pools
      requires Gone(g.SetFirst(p, c), heap, t.Below(p, i), before) && p !in t.Below(p, i)
      modifies this`heap
      ensures Gone(g.SetFirst(p, PtrAt(t.at[p].kids, i + 1)), heap, t.Below(p, i + 1), order) && p !in t.Below(p, i + 1)
      decreases t.clock - t.at[p].birth, 0
    {
      NextChild(g, t, p, i);
      ghost var h, d := heap, PtrAt(t.at[p].kids, i + 1);
      ghost var r := h.pools[c].(parent := Null, sliceTag := -1);
      Unhook(g, h, p, c, d, t.Below(p, i), before);
      heap := heap.SetFirst(p, heap.pools[c].next);
      heap := heap.SetPool(c, heap.pools[c].(parent := Null, sliceTag := -1));
      ReadyChild(g, heap, t, p, i, before);
      ghost var sub := InterDestroy(c, t);
      GoneChild(g, h, heap, p, c, d, r, t.Below(p, i), before, t.Subtree(c), sub);
      order := before + sub;
    }

    /** The `while` loop of _elr_inter_mpl_destory over the children of p. */
    method DestroyChildren(p: Ptr, ghost t: Tree) returns (ghost order: seq<nat>)
      requires Ready(heap, t, p)
      modifies this`heap
      ensures p in old(heap).pools && Gone(old(heap).SetFirst(p, Null), heap, t.Below(p, |t.at[p].kids|), order)
      decreases t.clock - t.at[p].birth, 1
    {
      ghost var ks, g, i := t.at[p].kids, heap, 0;
      order := [];
      assert p in t.Subtree(p) && Standing(g, t, p);
      var temp := heap.pools[p].firstChild;
      assert g.SetFirst(p, temp) == g && Gone(g, g, {}, []);
      while temp != Null
        invariant 0 <= i <= |ks| && temp == PtrAt(ks, i)
        invariant Gone(g.SetFirst(p, temp), heap, t.Below(p, i), order) && p !in t.Below(p, i)
        decreases |ks| - i
      {
        order := DestroyChild(p, temp, g, t, i, order);
        i := i + 1;
        temp := heap.pools[p].firstChild;
      }
    }

    /** _elr_inter_mpl_destory: the pools under p are destroyed, children first, and p last. */
    method InterDestroy(p: Ptr, ghost t: Tree) returns (ghost order: seq<nat>)
      requires Ready(heap, t, p)
      modifies this`heap
      ensures Gone(old(heap), heap, t.Subtree(p), order)
      decreases t.clock - t.at[p].birth, 2
    {
      WholeSubtree(t, p);
      ghost var g, below := heap, t.Below(p, |t.at[p].kids|);
      assert Standing(g, t, p);
      KeepNodes(g.nodes, p, g.pools[p].firstNode, t.at[p].nodes, below);
      order := DestroyChildren(p, t);
      ghost var h := heap;
      FreeNodes(p, t.at[p].nodes);
      heap := heap.(arena := heap.arena.Give(p.k));
      GoneSelf(g, h, p, p.k, heap.pools[p], below, order);
      order := order + [p.k];
    }

    /** elr_mpl_init: only the root pool, without children or nodes. */
    constructor (cap: nat)
      ensures Valid() && heap.arena == Arena(cap, [], []) && tree.at.Keys == {Root} && tree.at[Root].kids == []
    {
      heap := Heap(map[Root := Pool(Null, Null, Null, Null, NULL, NULL, 0)], map[], Arena(cap, [], []));
      tree := Tree(map[Root := Info([], Null, [], 0)], 1);
    }

    /** _elr_alloc_mem_node: the block malloc returned becomes the first node of pool p, and the node to
        carve from. */
    method AddNode(p: Ptr, block: int)
      requires Valid() && p in tree.at && block !in heap.nodes && block != NULL
      modifies this
      ensures Valid() && heap.arena == old(heap).arena && tree == Own(old(tree), p, block)
      ensures heap.nodes.Keys == old(heap).nodes.Keys + {block}
      ensures p in heap.pools && heap.pools[p].firstNode == block && heap.pools[p].newNode == block
    {
      AddNodeFacts(heap, tree, p);
      var h := LinkNode(heap, p, block);
      AddNodeWF(heap, h, tree, p, block);
      heap, tree := h, Own(tree, p, block);
    }

    /** elr_mpl_create: a new pool becomes the first child of `parent`, and its handle is available. */
    method Create(parent: Ptr) returns (hd: Handle)
      requires Valid() && parent in tree.at && heap.arena.HasRoom()
      modifies this
      ensures Valid() && hd.pool.Slot? && Taken(old(heap).arena, heap.arena, hd.pool.k)
      ensures hd.pool !in old(tree).at && tree == Graft(old(tree), parent, hd.pool) && Avail(heap.arena, hd)
    {
      ghost var g, t := heap, tree;
      var a, k := TakeSlot(heap.arena);
      CreateFacts(g, t, parent, k);
      var ps := Hook(heap.pools, Slot(k), parent, a.tags[k], t.at[parent].kids);
      heap := Heap(ps, heap.nodes, a);
      GraftWF(g, heap, t, parent, k);
      tree := Graft(t, parent, Slot(k));
      hd := Handle(Slot(k), a.tags[k]);
    }

    /** The part of elr_mpl_destroy for a pool whose tag matches: p, the i-th child of its parent, is
        cut out of its list and its subtree destroyed. */
    method DestroyAt(p: Ptr, ghost t: Tree, ghost i: nat)
      requires heap.arena.Valid() && WF(heap, t) && p in t.at && p != Root && p in heap.pools
      requires i < |t.at[t.at[p].par].kids| && t.at[t.at[p].par].kids[i] == p
      requires var parent := t.at[p].par; var ks := t.at[parent].kids;
               Forward(heap.pools, parent, ks) && Backward(heap.pools, parent, ks) && NoDup(ks) && parent !in ks
                   && Null !in ks
      modifies this`heap
      ensures heap.arena.Valid() && WF(heap, Prune(t, p, i))
      ensures HandlesAfter(old(heap).arena, heap.arena, t.Subtree(p))
    {
      ghost var g := heap;
      var ps := Unlink(heap.pools, p, t.at[p].par, t.at[t.at[p].par].kids, i);
      heap := heap.(pools := ps);
      ghost var h := heap;
      CutReady(g, h, t, p, i);
      ghost var order := InterDestroy(p, t);
      DestroyDone(g, h, heap, t, p, i, order);
    }

    /** elr_mpl_destroy: the pools of the subtree leave the tree, every handle to one of them becomes
        unavailable and no other handle is affected, and the caller's own handle is cleared. */
    method Destroy(hd: Handle) returns (cleared: Handle)
      requires Valid() && Avail(heap.arena, hd) && Issued(hd)
      modifies this
      ensures Valid() && HandlesAfter(old(heap).arena, heap.arena, old(tree).Subtree(hd.pool))
      ensures hd.pool in old(tree).at && hd.pool != Root && old(tree).at[hd.pool].par in old(tree).at
      ensures exists i: nat | i < |old(tree).at[old(tree).at[hd.pool].par].kids| ::
                old(tree).at[old(tree).at[hd.pool].par].kids[i] == hd.pool && tree == Prune(old(tree), hd.pool, i)
      ensures !Avail(heap.arena, cleared)
    {
      ghost var i := DestroyFacts(heap, tree, hd);
      if hd.tag == heap.pools[hd.pool].sliceTag {
        DestroyAt(hd.pool, tree, i);
        tree := Prune(tree, hd.pool, i);
      }
      cleared := Handle(Null, 0);
    }

    ghost function Now(): Snapshot reads this { Snapshot(heap, tree) }

    method CreateAt(parent: Ptr, ghost call: Call) returns (hd: Handle)
      requires Valid() && parent in tree.at && heap.arena.HasRoom()
      requires call.CreateTop? || call.CreateUnder?
      requires parent == if call.CreateTop? then Root else call.hd.pool
      requires Accepts(heap, call)
      modifies this
      ensures Valid() && Kept(old(heap).arena, heap.arena, call) && Shaped(old(Now()), Now(), call, Some(hd))
      ensures Issued(hd) && Avail(heap.arena, hd) && !Past(old(heap).arena, hd)
    {
      ghost var a, t := heap.arena, tree;
      hd := Create(parent);
      TakenKept(a, heap.arena, hd.pool.k, call);
      NewHandle(a, heap.arena, hd.pool.k, hd);
      GraftShape(t, parent, hd.pool);
    }

    /** One call of the program, with the handle it returns if it creates a pool. */
    method Perform(call: Call) returns (hd: Option<Handle>)
      requires Valid() && Accepts(heap, call)
      modifies this
      ensures Valid() && CallMade(old(Now()), Now(), call, hd)
      ensures hd.Some? ==> Issued(hd.value) && Avail(heap.arena, hd.value) && !Past(old(heap).arena, hd.value)
    {
      hd := None;
      match call
      case CreateTop =>
        var made := CreateAt(Root, call);
        hd := Some(made);
      case CreateUnder(parent) =>
        NamesAPool(heap, tree, parent);
        var made := CreateAt(parent.pool, call);
        hd := Some(made);
      case DestroyPool(pool) =>
        ghost var a, t := heap.arena, tree;
        var _ := Destroy(pool);
        DestroyKept(t, a, heap.arena, pool);
        ghost var i: nat :| i < |t.at[t.at[pool.pool].par].kids| &&
                            t.at[t.at[pool.pool].par].kids[i] == pool.pool && tree == Prune(t, pool.pool, i);
        PruneShape(t, pool.pool, i);
      case Grow(pool, block) =>
        NamesAPool(heap, tree, pool);
        AddNode(pool.pool, block);
    }

    /** Any sequence of calls; one whose demands are not met at its turn is not made. Whatever is created
        and destroyed in between, a handle that has become unavailable stays unavailable, and no handle
        is issued twice. Every call leaves the tree as `CallMade` says. */
    method Replay(calls: seq<Call>) returns (issued: seq<Handle>, ghost trace: seq<Snapshot>,
        ghost made: seq<Option<Handle>>)
      requires Valid()
      modifies this
      ensures Valid() && |made| == |calls| && |trace| == |calls| + 1
      ensures trace[0] == old(Now()) && trace[|calls|] == Now()
      ensures Made(trace, calls, made) && Grows(trace) && IssuedIn(issued, old(heap).arena, heap.arena)
      ensures forall hd :: hd in issued <==> Some(hd) in made
      ensures forall hd, i, j | 0 <= i <= j < |trace| && Past(trace[i].heap.arena, hd)
                                && !Avail(trace[i].heap.arena, hd) :: !Avail(trace[j].heap.arena, hd)
    {
      issued, trace, made := [], [Now()], [];
      for i := 0 to |calls|
        invariant Valid() && |made| == i && |trace| == i + 1 && trace[0] == old(Now()) && trace[i] == Now()
        invariant Grows(trace) && Made(trace, calls, made) && IssuedIn(issued, old(heap).arena, heap.arena)
        invariant forall hd :: hd in issued <==> Some(hd) in made
      {
        ghost var hd;
        issued, hd := Try(calls[i], issued, old(heap).arena);
        GrowsOn(trace, Now());
        MadeMore(trace, calls, made, Now(), hd);
        trace, made := trace + [Now()], made + [hd];
      }
      forall hd, i, j | 0 <= i <= j < |trace| && Past(trace[i].heap.arena, hd) && !Avail(trace[i].heap.arena, hd)
        ensures !Avail(trace[j].heap.arena, hd)
      {
        StaleLater(trace[i].heap.arena, trace[j].heap.arena, hd);
      }
    }

    /** Makes the call if its demands are met, and notes the handle it returns. */
    method Try(call: Call, before: seq<Handle>, ghost start: Arena) returns (issued: seq<Handle>,
        ghost made: Option<Handle>)
      requires Valid() && IssuedIn(before, start, heap.arena)
      modifies this
      ensures Valid() && IssuedIn(issued, start, heap.arena) && Later(old(heap).arena, heap.arena)
      ensures CallMade(old(Now()), Now(), call, made)
      ensures issued == if made.Some? then before + [made.value] else before
    {
      ghost var a := heap.arena;
      issued, made := before, None;
      if Accepts(heap, call) {
        var hd := Perform(call);
        IssuedStill(before, start, a, heap.arena);
        if hd.Some? {
          IssuedMore(before, start, a, heap.arena, hd.value);
          issued := issued + [hd.value];
        }
        made := hd;
      }
    }
  }
}
