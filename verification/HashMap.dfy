/**
  The chained hash map of Src/utility/dm_map.c. Inserting never looks for the key, so a key may be bound
  several times in its chain. The meaning of a map is a stack of values per key, newest on top.
*/
module HashMap {
  import opened Lists
  import opened Wrappers

  datatype Binding = Binding(key: string, value: string)

  type Buckets = seq<seq<Binding>>

  function Empty(size: nat): Buckets { seq(size, _ => []) }

  function Slot(hash: string -> nat, bs: Buckets, key: string): (i: nat)
    requires bs != []
    ensures i < |bs|
  {
    hash(key) % |bs|
  }

  /** The values bound to a key in a chain, newest first. */
  function Values(chain: seq<Binding>, key: string): seq<string> {
    if chain == [] then [] else (if chain[0].key == key then [chain[0].value] else []) + Values(chain[1..], key)
  }

  /** The meaning of the map. */
  function Stack(hash: string -> nat, bs: Buckets, key: string): seq<string>
    requires bs != []
  {
    Values(bs[Slot(hash, bs, key)], key)
  }

  function Top(s: seq<string>): Option<string> { if s == [] then None else Some(s[0]) }

  /** hashmap_insert */
  function Put(hash: string -> nat, bs: Buckets, key: string, value: string): Buckets
    requires bs != []
  {
    var i := Slot(hash, bs, key);
    bs[i := [Binding(key, value)] + bs[i]]
  }

  /** Inserting pushes on the key's own stack and on no other, under any hash function. */
  lemma {:induction false} PutPushes(hash: string -> nat, bs: Buckets, key: string, value: string, k: string)
    requires bs != []
    ensures Stack(hash, Put(hash, bs, key, value), k)
            == if k == key then [value] + Stack(hash, bs, k) else Stack(hash, bs, k)
  {
    var chain := bs[Slot(hash, bs, key)];
    assert ([Binding(key, value)] + chain)[1..] == chain;
  }

  /** hashmap_insert of each pair in turn. */
  function PutAll(hash: string -> nat, bs: Buckets, pairs: seq<Binding>): (r: Buckets)
    requires bs != []
    ensures r != []
  {
    if pairs == [] then bs
    else
      var n := |pairs| - 1;
      Put(hash, PutAll(hash, bs, pairs[..n]), pairs[n].key, pairs[n].value)
  }

  /** The value of the last pair with this key. */
  function Last(pairs: seq<Binding>, key: string): Option<string> {
    if pairs == [] then None
    else
      var n := |pairs| - 1;
      if pairs[n].key == key then Some(pairs[n].value) else Last(pairs[..n], key)
  }

  /** A pair that no later pair with its key follows gives the last value of the key. */
  lemma {:induction false} LastAt(pairs: seq<Binding>, key: string, i: nat)
    requires i < |pairs| && pairs[i].key == key
    requires forall j | i < j < |pairs| :: pairs[j].key != key
    ensures Last(pairs, key) == Some(pairs[i].value)
  {
    var n := |pairs| - 1;
    if i < n { LastAt(pairs[..n], key, i); }
  }

  lemma {:induction false} NoLast(pairs: seq<Binding>, key: string)
    requires forall j | 0 <= j < |pairs| :: pairs[j].key != key
    ensures Last(pairs, key) == None
  {
    if pairs != [] { NoLast(pairs[..|pairs| - 1], key); }
  }

  /** hashmap_get as a function: the top of the stack. */
  function Lookup(hash: string -> nat, bs: Buckets, key: string): Option<string>
    requires bs != []
  {
    Top(Stack(hash, bs, key))
  }

  /** After inserting pairs one by one, a lookup finds the last one with the key. */
  lemma {:induction false} LookupLast(hash: string -> nat, size: nat, pairs: seq<Binding>, key: string)
    requires 0 < size
    ensures Lookup(hash, PutAll(hash, Empty(size), pairs), key) == Last(pairs, key)
  {
    if pairs != [] {
      var n := |pairs| - 1;
      LookupLast(hash, size, pairs[..n], key);
      PutPushes(hash, PutAll(hash, Empty(size), pairs[..n]), pairs[n].key, pairs[n].value, key);
    }
  }

  lemma {:induction false} ValuesConcat(c: seq<Binding>, d: seq<Binding>, key: string)
    ensures Values(c + d, key) == Values(c, key) + Values(d, key)
  {
    if c == [] {
      assert c + d == d;
    } else {
      var first := if c[0].key == key then [c[0].value] else [];
      assert (c + d)[1..] == c[1..] + d && (c + d)[0] == c[0];
      ValuesConcat(c[1..], d, key);
      assert first + (Values(c[1..], key) + Values(d, key)) == first + Values(c[1..], key) + Values(d, key);
    }
  }

  /** Unlinking the first node for its key pops that key's values and leaves the others. */
  lemma {:induction false} Unlinked(chain: seq<Binding>, j: nat, k: string)
    requires j < |chain| && Values(chain[..j], chain[j].key) == []
    ensures Values(chain, chain[j].key) != []
    ensures Values(chain[..j] + chain[j + 1..], k)
            == if k == chain[j].key then Values(chain, k)[1..] else Values(chain, k)
  {
    assert chain == chain[..j] + ([chain[j]] + chain[j + 1..]);
    ValuesConcat(chain[..j], [chain[j]] + chain[j + 1..], k);
    ValuesConcat(chain[..j], [chain[j]] + chain[j + 1..], chain[j].key);
    ValuesConcat(chain[..j], chain[j + 1..], k);
    assert ([chain[j]] + chain[j + 1..])[1..] == chain[j + 1..];
  }

  // ---------- the chains in memory ----------

  datatype Node = Node(key: string, value: string, next: int)

  /** The nodes at the addresses `at`, linked from `head`, hold the bindings of the chain. */
  ghost predicate Linked(nodes: map<int, Node>, head: int, at: seq<int>, chain: seq<Binding>) {
    && NoDup(at) && NULL !in at && |at| == |chain| && head == At(at, 0)
    && (forall i | 0 <= i < |at| :: at[i] in nodes)
    && (forall i {:trigger nodes[at[i]]} | 0 <= i < |at| ::
          nodes[at[i]] == Node(chain[i].key, chain[i].value, At(at, i + 1)))
  }

  /** All keys of the chain hash to bucket b of n. */
  ghost predicate AllIn(hash: string -> nat, chain: seq<Binding>, b: nat, n: nat) {
    0 < n && forall i | 0 <= i < |chain| :: hash(chain[i].key) % n == b
  }

  lemma {:induction false} LinkedAt(nodes: map<int, Node>, head: int, at: seq<int>, chain: seq<Binding>, i: nat)
    requires Linked(nodes, head, at, chain) && i < |at|
    ensures at[i] in nodes && at[i] != NULL && nodes[at[i]] == Node(chain[i].key, chain[i].value, At(at, i + 1))
  {
  }

  lemma {:induction false} PushLinked(nodes: map<int, Node>, head: int, at: seq<int>, chain: seq<Binding>, a: int,
      b: Binding)
    requires Linked(nodes, head, at, chain) && a !in nodes && a != NULL
    ensures Linked(nodes[a := Node(b.key, b.value, head)], a, [a] + at, [b] + chain)
  {
    var after, places, c := nodes[a := Node(b.key, b.value, head)], [a] + at, [b] + chain;
    forall i | 0 <= i < |places| ensures places[i] in after
        && after[places[i]] == Node(c[i].key, c[i].value, At(places, i + 1)) {
      if i > 0 { LinkedAt(nodes, head, at, chain, i - 1); }
    }
  }

  /** The nodes after the one at place j of a chain was unlinked and freed. */
  function Unlink(nodes: map<int, Node>, at: seq<int>, j: nat): map<int, Node>
    requires j < |at| && forall i | 0 <= i < |at| :: at[i] in nodes
  {
    var next := nodes[at[j]].next;
    (if j == 0 then nodes else nodes[at[j - 1] := nodes[at[j - 1]].(next := next)]) - {at[j]}
  }

  function Without<T>(s: seq<T>, j: nat): seq<T>
    requires j < |s|
  {
    s[..j] + s[j + 1..]
  }

  lemma {:induction false} UnlinkedAt(nodes: map<int, Node>, head: int, at: seq<int>, chain: seq<Binding>, j: nat,
      i: nat)
    requires Linked(nodes, head, at, chain) && j < |at| && i < |at| - 1
    ensures var after, places, c := Unlink(nodes, at, j), Without(at, j), Without(chain, j);
            places[i] in after && after[places[i]] == Node(c[i].key, c[i].value, At(places, i + 1))
  {
    var k := if i < j then i else i + 1;
    LinkedAt(nodes, head, at, chain, j);
    LinkedAt(nodes, head, at, chain, k);
    assert at[k] != at[j];
    assert j > 0 && k != j - 1 ==> at[k] != at[j - 1];
  }

  lemma {:induction false} WithoutNoDup(at: seq<int>, j: nat)
    requires NoDup(at) && j < |at|
    ensures NoDup(Without(at, j))
  {
  }

  /** Unlinking a node keeps the rest of its chain linked, in order. */
  lemma {:induction false} UnlinkLinked(nodes: map<int, Node>, head: int, at: seq<int>, chain: seq<Binding>, j: nat)
    requires Linked(nodes, head, at, chain) && j < |at|
    ensures Linked(Unlink(nodes, at, j), if j == 0 then nodes[at[0]].next else head, Without(at, j), Without(chain, j))
  {
    var after, places, c := Unlink(nodes, at, j), Without(at, j), Without(chain, j);
    forall i | 0 <= i < |places| ensures places[i] in after
        && after[places[i]] == Node(c[i].key, c[i].value, At(places, i + 1)) {
      UnlinkedAt(nodes, head, at, chain, j, i);
    }
    WithoutNoDup(at, j);
    LinkedAt(nodes, head, at, chain, 0);
  }

  /** A chain whose nodes are not touched. */
  lemma {:induction false} LinkedSame(nodes: map<int, Node>, after: map<int, Node>, head: int, at: seq<int>,
      chain: seq<Binding>)
    requires Linked(nodes, head, at, chain)
    requires forall i | 0 <= i < |at| :: at[i] in after && after[at[i]] == nodes[at[i]]
    ensures Linked(after, head, at, chain)
  {
  }

  /** The memory of a map: the heads of the chains and the nodes. */
  datatype Memory = Memory(heads: seq<int>, nodes: map<int, Node>)

  ghost predicate BucketOk(hash: string -> nat, m: Memory, at: seq<seq<int>>, bs: Buckets, b: nat)
    requires b < |m.heads| == |at| == |bs|
  {
    Linked(m.nodes, m.heads[b], at[b], bs[b]) && AllIn(hash, bs[b], b, |bs|)
  }

  /** The chains in memory spell the buckets. */
  ghost predicate Spells(hash: string -> nat, m: Memory, at: seq<seq<int>>, bs: Buckets) {
    && 0 < |m.heads| == |at| == |bs|
    && forall b {:trigger BucketOk(hash, m, at, bs, b)} | 0 <= b < |bs| :: BucketOk(hash, m, at, bs, b)
  }

  /** Chains of different buckets share no node, since a node's key says which bucket it is in. */
  lemma {:induction false} ChainsApart(hash: string -> nat, m: Memory, at: seq<seq<int>>, bs: Buckets, b: nat,
      c: nat, i: nat, j: nat)
    requires Spells(hash, m, at, bs) && b < |bs| && c < |bs| && b != c && i < |at[b]| && j < |at[c]|
    ensures at[b][i] != at[c][j]
  {
    assert BucketOk(hash, m, at, bs, b) && BucketOk(hash, m, at, bs, c);
    LinkedAt(m.nodes, m.heads[b], at[b], bs[b], i);
    LinkedAt(m.nodes, m.heads[c], at[c], bs[c], j);
    assert hash(bs[b][i].key) % |bs| == b && hash(bs[c][j].key) % |bs| == c;
  }

  /** Changing one chain, and only its own nodes, leaves the others. */
  lemma {:induction false} OneChain(hash: string -> nat, m: Memory, at: seq<seq<int>>, bs: Buckets, b: nat,
                                    head: int, nodes: map<int, Node>, places: seq<int>, chain: seq<Binding>)
    requires Spells(hash, m, at, bs) && b < |bs| && Linked(nodes, head, places, chain) && AllIn(hash, chain, b, |bs|)
    requires forall n | n in m.nodes && n !in at[b] :: n in nodes && nodes[n] == m.nodes[n]
    ensures Spells(hash, Memory(m.heads[b := head], nodes), at[b := places], bs[b := chain])
  {
    var m2, at2, bs2 := Memory(m.heads[b := head], nodes), at[b := places], bs[b := chain];
    forall c | 0 <= c < |bs2| ensures BucketOk(hash, m2, at2, bs2, c) {
      if c != b {
        assert BucketOk(hash, m, at, bs, c);
        forall i | 0 <= i < |at[c]| ensures at[c][i] in nodes && nodes[at[c][i]] == m.nodes[at[c][i]] {
          LinkedAt(m.nodes, m.heads[c], at[c], bs[c], i);
          forall j | 0 <= j < |at[b]| ensures at[b][j] != at[c][i] { ChainsApart(hash, m, at, bs, b, c, j, i); }
        }
        LinkedSame(m.nodes, nodes, m.heads[c], at[c], bs[c]);
      }
    }
  }

  /** The walk along a chain that get and remove share: stops at the first node for the key, which is at
      place j of the chain, with the node before it. */
  method Walk(nodes: map<int, Node>, head: int, ghost places: seq<int>, ghost chain: seq<Binding>, key: string)
    returns (prev: int, curr: int, ghost j: nat)
    requires Linked(nodes, head, places, chain)
    ensures j <= |chain| && Values(chain[..j], key) == [] && curr == At(places, j) && prev == At(places, j - 1)
    ensures curr == NULL <==> j == |chain|
    ensures curr != NULL ==> curr in nodes && nodes[curr].key == key
    ensures prev != NULL ==> prev in nodes && nodes[prev].next == curr
    ensures Top(Values(chain, key)) == if curr == NULL then None else Some(nodes[curr].value)
    ensures j < |chain| ==> chain[j].key == key && curr in nodes && nodes[curr].value == chain[j].value
  {
    prev, curr, j := NULL, head, 0;
    while curr != NULL && nodes[curr].key != key
      invariant 0 <= j <= |chain| && Values(chain[..j], key) == []
      invariant curr == At(places, j) && prev == At(places, j - 1)
      decreases |chain| - j
    {
      LinkedAt(nodes, head, places, chain, j);
      assert chain[..j + 1] == chain[..j] + [chain[j]];
      ValuesConcat(chain[..j], [chain[j]], key);
      prev, curr, j := curr, nodes[curr].next, j + 1;
    }
    if j < |chain| { LinkedAt(nodes, head, places, chain, j); }
    if j > 0 { LinkedAt(nodes, head, places, chain, j - 1); }
    FoundTop(chain, j, key);
  }

  /** The first binding of the key, found at place j, is the top of its values. */
  lemma {:induction false} FoundTop(chain: seq<Binding>, j: nat, key: string)
    requires j <= |chain| && Values(chain[..j], key) == [] && (j < |chain| ==> chain[j].key == key)
    ensures Top(Values(chain, key)) == if j < |chain| then Some(chain[j].value) else None
  {
    assert chain == chain[..j] + chain[j..];
    ValuesConcat(chain[..j], chain[j..], key);
  }

  /** Taking that binding out pops the key's stack and leaves every other stack. */
  lemma {:induction false} RemovePops(hash: string -> nat, bs: Buckets, key: string, j: nat)
    requires bs != []
    requires var chain := bs[Slot(hash, bs, key)];
             j < |chain| && chain[j].key == key && Values(chain[..j], key) == []
    ensures Stack(hash, bs, key) != []
    ensures var b := Slot(hash, bs, key);
            forall k :: Stack(hash, bs[b := Without(bs[b], j)], k)
                        == if k == key then Stack(hash, bs, k)[1..] else Stack(hash, bs, k)
  {
    var b := Slot(hash, bs, key);
    Unlinked(bs[b], j, key);
    forall k ensures Stack(hash, bs[b := Without(bs[b], j)], k)
                     == if k == key then Stack(hash, bs, k)[1..] else Stack(hash, bs, k) {
      if Slot(hash, bs, k) == b { Unlinked(bs[b], j, k); }
    }
  }

  class Map {
    const hash: string -> nat
    var memory: Memory
    ghost var buckets: Buckets
    ghost var at: seq<seq<int>>

    ghost predicate Valid() reads this { Spells(hash, memory, at, buckets) }

    ghost function Bound(key: string): seq<string>
      requires Valid()
      reads this
    {
      Stack(hash, buckets, key)
    }

    /** hashmap_create; a size of zero leaves a map that cannot be used. */
    constructor (hash: string -> nat, size: nat)
      requires 0 < size
      ensures Valid() && this.hash == hash && buckets == Empty(size) && forall key :: Bound(key) == []
    {
      this.hash := hash;
      memory := Memory(seq(size, _ => NULL), map[]);
      buckets, at := Empty(size), seq(size, _ => []);
      new;
      forall b | 0 <= b < size ensures BucketOk(this.hash, memory, at, buckets, b) {}
    }

    /** hashmap_insert of the node that the caller has allocated at `node`. */
    method Insert(node: int, key: string, value: string)
      requires Valid() && node !in memory.nodes && node != NULL
      modifies this
      ensures Valid() && buckets == Put(hash, old(buckets), key, value)
      ensures forall k :: Bound(k) == if k == key then [value] + old(Bound(k)) else old(Bound(k))
    {
      var index := hash(key) % |memory.heads|;
      ghost var bs := buckets;
      assert BucketOk(hash, memory, at, buckets, index);
      PushLinked(memory.nodes, memory.heads[index], at[index], buckets[index], node, Binding(key, value));
      var nodes := memory.nodes[node := Node(key, value, memory.heads[index])];
      OneChain(hash, memory, at, buckets, index, node, nodes, [node] + at[index],
          [Binding(key, value)] + buckets[index]);
      memory := Memory(memory.heads[index := node], nodes);
      at := at[index := [node] + at[index]];
      buckets := buckets[index := [Binding(key, value)] + buckets[index]];
      forall k ensures Bound(k) == if k == key then [value] + old(Bound(k)) else old(Bound(k)) {
        PutPushes(hash, bs, key, value, k);
      }
    }

    /** hashmap_get: the newest binding, None for NULL. */
    method Get(key: string) returns (r: Option<string>)
      requires Valid()
      ensures r == if Bound(key) == [] then None else Some(Bound(key)[0])
    {
      var index := hash(key) % |memory.heads|;
      assert BucketOk(hash, memory, at, buckets, index);
      var prev, curr, j := Walk(memory.nodes, memory.heads[index], at[index], buckets[index], key);
      r := if curr == NULL then None else Some(memory.nodes[curr].value);
    }

    /** hashmap_remove: pops one binding and uncovers the one before; -1 if there is none. */
    method Remove(key: string) returns (r: int)
      requires Valid()
      modifies this
      ensures Valid() && r == if old(Bound(key)) == [] then -1 else 0
      ensures forall k :: Bound(k) == if k == key && r == 0 then old(Bound(k))[1..] else old(Bound(k))
    {
      var index := hash(key) % |memory.heads|;
      assert BucketOk(hash, memory, at, buckets, index);
      var prev, curr, j := Walk(memory.nodes, memory.heads[index], at[index], buckets[index], key);
      r := -1;
      if curr != NULL {
        RemovePops(hash, buckets, key, j);
        UnlinkAt(index, prev, curr, j);
        r := 0;
      }
    }

    /** The branch of hashmap_remove that found the node: it is unlinked and freed. */
    method UnlinkAt(index: nat, prev: int, curr: int, ghost j: nat)
      requires Valid() && index < |buckets| && j < |at[index]| == |buckets[index]|
      requires curr == at[index][j] && prev == At(at[index], j - 1)
      modifies this
      ensures Valid() && buckets == old(buckets)[index := Without(old(buckets)[index], j)]
    {
      ghost var places, chain := at[index], buckets[index];
      assert BucketOk(hash, memory, at, buckets, index);
      LinkedAt(memory.nodes, memory.heads[index], places, chain, j);
      if j > 0 { LinkedAt(memory.nodes, memory.heads[index], places, chain, j - 1); }
      UnlinkLinked(memory.nodes, memory.heads[index], places, chain, j);
      var next, heads, nodes := memory.nodes[curr].next, memory.heads, memory.nodes;
      if prev == NULL {
        heads := heads[index := next];
      } else {
        nodes := nodes[prev := nodes[prev].(next := next)];
      }
      nodes := nodes - {curr};
      assert nodes == Unlink(memory.nodes, places, j);
      OneChain(hash, memory, at, buckets, index, heads[index], nodes, Without(places, j), Without(chain, j));
      assert heads == memory.heads[index := heads[index]];
      memory := Memory(heads, nodes);
      at, buckets := at[index := Without(places, j)], buckets[index := Without(chain, j)];
    }
  }
}
