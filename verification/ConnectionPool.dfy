/**
  The MySQL connection pool of Src/cpool.c: the doubly linked list of free connections in place, and
  the blocking protocol around it as a transition system whose steps are the critical sections.
*/
module ConnectionPool {
  import opened Holdings
  import opened Lists
  import opened Waiting

  // ---------- the list of free connections ----------

  datatype Links = Links(prev: int, next: int)

  /** The links of all connections, the head of the list and the counter free_connections. */
  datatype Chain = Chain(conns: map<int, Links>, head: int, free: int)

  /** The pointers from `head` spell the list l, and prev undoes next. */
  ghost predicate Linked(ch: Chain, l: seq<int>) {
    && NoDup(l) && NULL !in l && ch.head == At(l, 0) && ch.free == |l|
    && (forall i | 0 <= i < |l| :: l[i] in ch.conns)
    && (forall i {:trigger ch.conns[l[i]]} | 0 <= i < |l| :: ch.conns[l[i]] == Links(At(l, i - 1), At(l, i + 1)))
  }

  /** conn_push once the tail of the list is known. */
  function PushBehind(ch: Chain, tail: int, c: int): Chain
    requires c in ch.conns && (tail == NULL || tail in ch.conns)
  {
    if tail == NULL then ch.(head := c, free := ch.free + 1)
    else
      var conns := ch.conns[tail := ch.conns[tail].(next := c)];
      ch.(conns := conns[c := conns[c].(prev := tail)], free := ch.free + 1)
  }

  /** conn_pop on the pointers. */
  function PopFirst(ch: Chain): Chain
    requires ch.head != NULL ==>
               ch.head in ch.conns && (ch.conns[ch.head].next == NULL || ch.conns[ch.head].next in ch.conns)
  {
    if ch.head == NULL then ch
    else
      var next := ch.conns[ch.head].next;
      var conns := if next == NULL then ch.conns else ch.conns[next := ch.conns[next].(prev := NULL)];
      Chain(conns, next, ch.free - 1)
  }

  function Cleared(ch: Chain, c: int): Chain { ch.(conns := ch.conns[c := Links(NULL, NULL)]) }

  lemma {:induction false} PushLinked(ch: Chain, l: seq<int>, c: int)
    requires Linked(ch, l) && c !in l && c != NULL && c in ch.conns && ch.conns[c] == Links(NULL, NULL)
    ensures Linked(PushBehind(ch, At(l, |l| - 1), c), l + [c])
  {
    var d, ls := PushBehind(ch, At(l, |l| - 1), c), l + [c];
    forall i | 0 <= i < |ls| ensures ls[i] in d.conns && d.conns[ls[i]] == Links(At(ls, i - 1), At(ls, i + 1)) {
      if i < |l| { assert ls[i] == l[i] && ch.conns[l[i]] == Links(At(l, i - 1), At(l, i + 1)); }
    }
  }

  lemma {:induction false} PopLinked(ch: Chain, l: seq<int>)
    requires Linked(ch, l) && l != []
    ensures ch.head == l[0] && l[0] in ch.conns && ch.conns[l[0]].next == At(l, 1) && (|l| > 1 ==> l[1] in ch.conns)
    ensures Linked(PopFirst(ch), l[1..])
  {
    assert ch.conns[l[0]] == Links(At(l, -1), At(l, 1));
    var d, ls := PopFirst(ch), l[1..];
    forall i | 0 <= i < |ls| ensures ls[i] in d.conns && d.conns[ls[i]] == Links(At(ls, i - 1), At(ls, i + 1)) {
      assert ls[i] == l[i + 1] && ch.conns[l[i + 1]] == Links(At(l, i), At(l, i + 2));
    }
  }

  lemma {:induction false} ClearedLinked(ch: Chain, l: seq<int>, c: int)
    requires Linked(ch, l) && c !in l
    ensures Linked(Cleared(ch, c), l)
  {
  }

  class FreeList {
    var chain: Chain
    ghost var list: seq<int>

    ghost predicate Valid() reads this { Linked(chain, list) }

    /** mysql_pool_init before its loop. */
    constructor ()
      ensures Valid() && list == []
    {
      chain, list := Chain(map[], NULL, 0), [];
    }

    /** The walk of conn_push to the last connection. */
    method Tail() returns (lc: int)
      requires Valid() && list != []
      ensures lc == list[|list| - 1]
    {
      lc := chain.head;
      ghost var i := 0;
      assert chain.conns[list[i]].next == At(list, i + 1);
      while chain.conns[lc].next != NULL
        invariant 0 <= i < |list| && lc == list[i] && chain.conns[lc].next == At(list, i + 1)
        decreases |list| - i
      {
        lc := chain.conns[lc].next;
        i := i + 1;
        assert chain.conns[list[i]].next == At(list, i + 1);
      }
    }

    /** conn_push: walks to the tail and links an unlinked connection behind it. */
    method Push(c: int)
      requires Valid() && c !in list && c != NULL && c in chain.conns && chain.conns[c] == Links(NULL, NULL)
      modifies this
      ensures Valid() && list == old(list) + [c]
      ensures chain == PushBehind(old(chain), At(old(list), |old(list)| - 1), c)
    {
      PushLinked(chain, list, c);
      if chain.head == NULL {
        chain := chain.(head := c);
      } else {
        var lc := Tail();
        chain := chain.(conns := chain.conns[lc := chain.conns[lc].(next := c)]);
        chain := chain.(conns := chain.conns[c := chain.conns[c].(prev := lc)]);
      }
      chain := chain.(free := chain.free + 1);
      list := list + [c];
    }

    /** conn_pop: the first free connection, or NULL. */
    method Pop() returns (c: int)
      requires Valid()
      modifies this
      ensures Valid() && c == At(old(list), 0)
      ensures list == (if old(list) == [] then [] else old(list)[1..])
      ensures old(list) != [] ==> chain == PopFirst(old(chain))
      ensures old(list) == [] ==> chain == old(chain)
    {
      c := chain.head;
      if c != NULL {
        PopLinked(chain, list);
        chain := chain.(head := chain.conns[c].next);
        if chain.head != NULL {
          chain := chain.(conns := chain.conns[chain.head := chain.conns[chain.head].(prev := NULL)]);
        }
        chain := chain.(free := chain.free - 1);
        list := list[1..];
      }
    }

    /** The list part of release_mysql_connection: the connection's stale links are cleared first. */
    method Release(c: int)
      requires Valid() && c !in list && c != NULL
      modifies this
      ensures Valid() && list == old(list) + [c]
      ensures chain == PushBehind(Cleared(old(chain), c), At(old(list), |old(list)| - 1), c)
    {
      ClearedLinked(chain, list, c);
      chain := Cleared(chain, c);
      Push(c);
    }
  }

  // ---------- the blocking protocol ----------

  /** `free` and `idle` are the counters free_connections and is_idle_block. */
  datatype State = State(list: seq<int>, free: int, idle: int, modes: seq<Mode>, held: seq<multiset<int>>)

  datatype Step =
    | TryGet(i: nat)                        // get_mysql_connection
    | GetBlock(i: nat)                      // get_mysql_connection_block, up to the wait or the return
    | Resume(i: nat)                        // a woken waiter gets the lock back and returns
    | Release(i: nat, c: int, wake: nat)    // release_mysql_connection of a connection that thread i holds
    | Spurious(i: nat)                      // a waiter wakes without a signal

  predicate Enabled(s: State, step: Step) {
    && |s.held| == |s.modes|
    && match step
       case TryGet(i) => i < |s.modes| && s.modes[i] == Idle
       case GetBlock(i) => i < |s.modes| && s.modes[i] == Idle
       case Resume(i) => i < |s.modes| && s.modes[i] == Woken
       case Release(i, c, w) => i < |s.modes| && s.modes[i] == Idle && c in s.held[i] && CanWake(s.modes, w)
       case Spurious(i) => i < |s.modes| && s.modes[i] == Asleep
  }

  /** conn_pop on behalf of thread i; without a free connection the caller gets NULL. */
  function PopFor(s: State, i: nat): State
    requires i < |s.held|
  {
    if s.list == [] then s
    else s.(list := s.list[1..], free := s.free - 1, held := s.held[i := s.held[i] + multiset{s.list[0]}])
  }

  function Apply(s: State, step: Step): State
    requires Enabled(s, step)
  {
    match step
    case TryGet(i) => PopFor(s, i)
    case GetBlock(i) =>
      if s.list != [] then PopFor(s, i) else s.(idle := s.idle + 1, modes := s.modes[i := Asleep])
    case Resume(i) =>
      var t := PopFor(s, i);
      t.(idle := t.idle - 1, modes := t.modes[i := Idle])
    case Release(i, c, w) =>
      s.(held := s.held[i := s.held[i] - multiset{c}], list := s.list + [c], free := s.free + 1,
         modes := if s.idle != 0 then Wake(s.modes, w) else s.modes)
    case Spurious(i) => s.(modes := s.modes[i := Woken])
  }

  ghost predicate Runs(s: State, steps: seq<Step>, t: State)
    decreases |steps|
  {
    if steps == [] then s == t
    else Enabled(s, steps[0]) && Runs(Apply(s, steps[0]), steps[1..], t)
  }

  function Initial(list: seq<int>, threads: nat): State {
    State(list, |list|, 0, seq(threads, _ => Idle), seq(threads, _ => multiset{}))
  }

  /** The counters count what their names say. */
  ghost predicate Counters(s: State) {
    s.free == |s.list| && s.idle == Waiters(s.modes) && |s.held| == |s.modes|
  }

  /** No lost wake-up: while a waiter sleeps, every free connection has a woken waiter coming for it. */
  ghost predicate NoLostWakeup(s: State) {
    Asleep in s.modes ==> |s.list| <= multiset(s.modes)[Woken]
  }

  function Copies(s: State, c: int): nat { multiset(s.list)[c] + Total(s.held)[c] }

  function Waiters(modes: seq<Mode>): nat { multiset(modes)[Asleep] + multiset(modes)[Woken] }

  lemma {:induction false} WaitersUpdate(modes: seq<Mode>, i: nat, m: Mode)
    requires i < |modes|
    ensures Waiters(modes[i := m]) + (if modes[i] == Idle then 0 else 1)
            == Waiters(modes) + (if m == Idle then 0 else 1)
  {
  }

  lemma {:induction false} StepCounters(s: State, step: Step)
    requires Counters(s) && Enabled(s, step)
    ensures Counters(Apply(s, step))
  {
    match step
    case TryGet(i) =>
    case GetBlock(i) => WaitersUpdate(s.modes, i, Asleep);
    case Resume(i) => ResumeCounters(s, i);
    case Release(i, c, w) => ReleaseCounters(s, i, c, w);
    case Spurious(i) => WaitersUpdate(s.modes, i, Woken);
  }

  lemma {:induction false} ResumeCounters(s: State, i: nat)
    requires Counters(s) && Enabled(s, Resume(i))
    ensures Counters(Apply(s, Resume(i)))
  {
    WaitersUpdate(s.modes, i, Idle);
  }

  lemma {:induction false} ReleaseCounters(s: State, i: nat, c: int, w: nat)
    requires Counters(s) && Enabled(s, Release(i, c, w))
    ensures Counters(Apply(s, Release(i, c, w)))
  {
    if Asleep in s.modes { WaitersUpdate(s.modes, w, Woken); }
  }

  lemma {:induction false} StepNoLostWakeup(s: State, step: Step)
    requires Counters(s) && NoLostWakeup(s) && Enabled(s, step)
    ensures NoLostWakeup(Apply(s, step))
  {
    assert Asleep in s.modes ==> multiset(s.modes)[Asleep] > 0;
  }

  lemma {:induction false} PopCopies(s: State, i: nat, c: int)
    requires i < |s.held|
    ensures Copies(PopFor(s, i), c) == Copies(s, c)
  {
    if s.list != [] {
      TotalUpdate(s.held, i, s.held[i] + multiset{s.list[0]}, c);
      assert s.list == [s.list[0]] + s.list[1..];
    }
  }

  /** Every step moves connections between the list and the threads without losing or copying one. */
  lemma {:induction false} StepCopies(s: State, step: Step, c: int)
    requires Enabled(s, step)
    ensures Copies(Apply(s, step), c) == Copies(s, c)
  {
    match step
    case TryGet(i) => PopCopies(s, i, c);
    case GetBlock(i) => PopCopies(s, i, c);
    case Resume(i) => PopCopies(s, i, c);
    case Release(i, d, w) => TotalUpdate(s.held, i, s.held[i] - multiset{d}, c);
    case Spurious(i) =>
  }

  lemma {:induction false} RunInv(s: State, steps: seq<Step>, t: State)
    requires Counters(s) && NoLostWakeup(s) && Runs(s, steps, t)
    ensures Counters(t) && NoLostWakeup(t) && forall c :: Copies(t, c) == Copies(s, c)
    decreases |steps|
  {
    if steps != [] {
      var u := Apply(s, steps[0]);
      StepCounters(s, steps[0]);
      StepNoLostWakeup(s, steps[0]);
      forall c ensures Copies(u, c) == Copies(s, c) { StepCopies(s, steps[0], c); }
      RunInv(u, steps[1..], t);
    }
  }

  lemma {:induction false} CountDistinct(l: seq<int>, c: int)
    requires NoDup(l)
    ensures multiset(l)[c] == if c in l then 1 else 0
  {
    if l != [] {
      assert l == [l[0]] + l[1..];
      CountDistinct(l[1..], c);
    }
  }

  lemma {:induction false} InitialInv(list: seq<int>, threads: nat)
    requires NoDup(list)
    ensures Counters(Initial(list, threads)) && NoLostWakeup(Initial(list, threads))
    ensures forall c :: Copies(Initial(list, threads), c) == if c in list then 1 else 0
  {
    var s := Initial(list, threads);
    assert Asleep !in s.modes && Woken !in s.modes;
    assert Asleep !in multiset(s.modes) && Woken !in multiset(s.modes);
    NothingHeld(s.held);
    forall c ensures Copies(s, c) == if c in list then 1 else 0 { CountDistinct(list, c); }
  }

  /** What holds in every reachable state, from any list of distinct connections and any number of
      threads: the counters are right, no wake-up is lost, and each connection is free exactly once or
      held by exactly one thread. */
  lemma {:induction false} Reachable(list: seq<int>, threads: nat, steps: seq<Step>, s: State, c: int)
    requires NoDup(list) && Runs(Initial(list, threads), steps, s)
    ensures s.free == |s.list| && s.idle == Waiters(s.modes)
    ensures Asleep in s.modes ==> s.free <= multiset(s.modes)[Woken]
    ensures multiset(s.list)[c] + Total(s.held)[c] == if c in list then 1 else 0
  {
    InitialInv(list, threads);
    RunInv(Initial(list, threads), steps, s);
    assert Copies(s, c) == Copies(Initial(list, threads), c);
  }

  /** A connection that thread i holds is held once, by no other thread, and is not free. */
  lemma {:induction false} OneOwner(list: seq<int>, threads: nat, steps: seq<Step>, s: State, i: nat, c: int)
    requires NoDup(list) && Runs(Initial(list, threads), steps, s) && i < |s.held| && c in s.held[i]
    ensures s.held[i][c] == 1 && c !in s.list && c in list
    ensures forall j | 0 <= j < |s.held| && j != i :: c !in s.held[j]
  {
    Reachable(list, threads, steps, s, c);
    TotalUpdate(s.held, i, s.held[i], c);
    assert c in s.list ==> c in multiset(s.list);
    forall j | 0 <= j < |s.held| && j != i ensures c !in s.held[j] {
      if i < j { TwoHolders(s.held, i, j, c); } else { TwoHolders(s.held, j, i, c); }
    }
  }

  /** With nobody on the way back from the wait, a sleeping thread means that no connection is free. */
  lemma {:induction false} SleepersMeanEmpty(list: seq<int>, threads: nat, steps: seq<Step>, s: State)
    requires NoDup(list) && Runs(Initial(list, threads), steps, s) && Asleep in s.modes && Woken !in s.modes
    ensures s.list == []
  {
    Reachable(list, threads, steps, s, 0);
    assert Woken !in multiset(s.modes);
  }

  // ---------- what the calls do ----------

  /** With a free connection, get_mysql_connection, its blocking form and a woken waiter alike hand out the
      first one; without any, the caller gets nothing, and the blocking form goes to sleep. */
  lemma {:induction false} GetHandsOut(s: State, step: Step, i: nat)
    requires Counters(s) && Enabled(s, step) && (step == TryGet(i) || step == GetBlock(i) || step == Resume(i))
    ensures var t := Apply(s, step);
            if s.list != [] then
              && t.list == s.list[1..] && t.held == s.held[i := s.held[i] + multiset{s.list[0]}]
              && t.modes == s.modes[i := Idle]
            else
              && t.list == [] && t.held == s.held
              && t.modes == s.modes[i := if step.GetBlock? then Asleep else Idle]
  {
  }

  /** A released connection leaves its holder and goes to the end of the list, and one sleeping waiter, if
      there is any, is woken. */
  lemma {:induction false} ReleaseGivesBack(s: State, i: nat, c: int, w: nat)
    requires Counters(s) && Enabled(s, Release(i, c, w))
    ensures var t := Apply(s, Release(i, c, w));
            && t.list == s.list + [c] && t.held == s.held[i := s.held[i] - multiset{c}]
            && t.modes == if Asleep in s.modes then s.modes[w := Woken] else s.modes
  {
    if Asleep in s.modes { assert multiset(s.modes)[Asleep] > 0; }
  }

  /** The connections handed out in a run, in order, and those released. */
  function HandedOut(s: State, steps: seq<Step>, t: State): seq<int>
    requires Runs(s, steps, t)
    decreases |steps|
  {
    if steps == [] then []
    else
      var st := steps[0];
      (if (st.TryGet? || st.GetBlock? || st.Resume?) && s.list != [] then [s.list[0]] else [])
      + HandedOut(Apply(s, st), steps[1..], t)
  }

  function Released(steps: seq<Step>): seq<int>
    decreases |steps|
  {
    if steps == [] then [] else (if steps[0].Release? then [steps[0].c] else []) + Released(steps[1..])
  }

  /** Connections are handed out in the order in which they became free, over every run: those handed out,
      followed by those still free, are those free at first, followed by those released. */
  lemma {:induction false} FirstReleasedFirst(s: State, steps: seq<Step>, t: State)
    requires Runs(s, steps, t)
    ensures HandedOut(s, steps, t) + t.list == s.list + Released(steps)
    decreases |steps|
  {
    if steps == [] {
      assert HandedOut(s, steps, t) == [] && s.list + [] == [] + s.list;
    } else {
      var u, out := Apply(s, steps[0]), HandedOut(Apply(s, steps[0]), steps[1..], t);
      FirstReleasedFirst(u, steps[1..], t);
      OneStepOrder(s, steps[0], out, t.list, Released(steps[1..]));
    }
  }

  lemma {:induction false} OneStepOrder(s: State, step: Step, out: seq<int>, free: seq<int>, back: seq<int>)
    requires Enabled(s, step) && out + free == Apply(s, step).list + back
    ensures (if (step.TryGet? || step.GetBlock? || step.Resume?) && s.list != [] then [s.list[0]] else []) + out + free
            == s.list + ((if step.Release? then [step.c] else []) + back)
  {
    if (step.TryGet? || step.GetBlock? || step.Resume?) && s.list != [] {
      assert [s.list[0]] + out + free == [s.list[0]] + (out + free);
      assert s.list == [s.list[0]] + s.list[1..] && s.list + ([] + back) == [s.list[0]] + (s.list[1..] + back);
    } else {
      assert [] + out + free == out + free && s.list + ([] + back) == s.list + back;
      if step.Release? { assert s.list + [step.c] + back == s.list + ([step.c] + back); }
    }
  }

  // ---------- the pointers under the protocol ----------

  /** The links while the protocol runs: what each critical section does to them. */
  function Relink(s: State, ch: Chain, step: Step): Chain
    requires Linked(ch, s.list) && Enabled(s, step)
  {
    match step
    case TryGet(_) => PopChain(s, ch)
    case GetBlock(_) => PopChain(s, ch)
    case Resume(_) => PopChain(s, ch)
    case Release(_, c, _) => PushBehind(Cleared(ch, c), At(s.list, |s.list| - 1), c)
    case Spurious(_) => ch
  }

  function PopChain(s: State, ch: Chain): Chain
    requires Linked(ch, s.list)
  {
    if s.list == [] then ch else
      PopLinked(ch, s.list);
      PopFirst(ch)
  }

  /** Nobody can release what is already free, so every step finds the list as the list code needs it and
      leaves it so. */
  lemma {:induction false} StepLinked(s: State, ch: Chain, step: Step)
    requires Linked(ch, s.list) && Enabled(s, step) && (forall c :: Copies(s, c) <= 1) && Copies(s, NULL) == 0
    ensures Linked(Relink(s, ch, step), Apply(s, step).list)
    ensures step.Release? ==> step.c !in s.list && step.c != NULL
  {
    match step
    case TryGet(_) => if s.list != [] { PopLinked(ch, s.list); }
    case GetBlock(_) => if s.list != [] { PopLinked(ch, s.list); }
    case Resume(_) => if s.list != [] { PopLinked(ch, s.list); }
    case Release(i, c, _) =>
      NotFree(s, i, c);
      ClearedLinked(ch, s.list, c);
      PushLinked(Cleared(ch, c), s.list, c);
    case Spurious(_) =>
  }

  lemma {:induction false} NotFree(s: State, i: nat, c: int)
    requires i < |s.held| && c in s.held[i] && Copies(s, c) <= 1 && Copies(s, NULL) == 0
    ensures c !in s.list && c != NULL
  {
    TotalUpdate(s.held, i, s.held[i], c);
    assert c in s.list ==> c in multiset(s.list);
  }

  /** A run of the protocol together with the links. */
  ghost predicate LinkedRuns(s: State, ch: Chain, steps: seq<Step>, t: State, dh: Chain)
    decreases |steps|
  {
    if steps == [] then s == t && ch == dh
    else Linked(ch, s.list) && Enabled(s, steps[0])
         && LinkedRuns(Apply(s, steps[0]), Relink(s, ch, steps[0]), steps[1..], t, dh)
  }

  /** In every interleaving the links spell the list of free connections, in both directions, with
      free_connections its length; no run of the protocol is stopped by the list code's demands. */
  lemma {:induction false} LinksHold(s: State, ch: Chain, steps: seq<Step>, t: State) returns (dh: Chain)
    requires Linked(ch, s.list) && (forall c :: Copies(s, c) <= 1) && Copies(s, NULL) == 0 && Runs(s, steps, t)
    ensures LinkedRuns(s, ch, steps, t, dh) && Linked(dh, t.list)
    decreases |steps|
  {
    if steps == [] {
      dh := ch;
    } else {
      StepLinked(s, ch, steps[0]);
      var u := Apply(s, steps[0]);
      forall c ensures Copies(u, c) == Copies(s, c) { StepCopies(s, steps[0], c); }
      dh := LinksHold(u, Relink(s, ch, steps[0]), steps[1..], t);
    }
  }

  /** The same from the pool that mysql_pool_init made. */
  lemma {:induction false} LinksHoldFromStart(ch: Chain, list: seq<int>, threads: nat, steps: seq<Step>, s: State)
    returns (dh: Chain)
    requires Linked(ch, list) && Runs(Initial(list, threads), steps, s)
    ensures LinkedRuns(Initial(list, threads), ch, steps, s, dh) && Linked(dh, s.list)
  {
    InitialInv(list, threads);
    dh := LinksHold(Initial(list, threads), ch, steps, s);
  }

  // ---------- what the blocking call returns ----------

  function Holds(s: State, i: nat): multiset<int> { if i < |s.held| then s.held[i] else multiset{} }

  /** From s, where thread i is in the wait, the steps lead to t, where it has just come back. */
  ghost predicate ComesBack(s: State, i: nat, steps: seq<Step>, t: State)
    decreases |steps|
  {
    && steps != [] && Enabled(s, steps[0])
    && var u := Apply(s, steps[0]);
       if steps[0] == Resume(i) then |steps| == 1 && t == u else ComesBack(u, i, steps[1..], t)
  }

  /** A schedule under which the blocking call that thread i makes in s returns in t. */
  ghost predicate Returns(s: State, i: nat, steps: seq<Step>, t: State) {
    && steps != [] && steps[0] == GetBlock(i) && Enabled(s, steps[0])
    && var u := Apply(s, steps[0]);
       if u.modes[i] == Idle then |steps| == 1 && t == u else ComesBack(u, i, steps[1..], t)
  }

  /** With a free connection the call returns the first one at once. */
  lemma {:induction false} BlockingGetAtOnce(s: State, i: nat, steps: seq<Step>, t: State)
    requires Enabled(s, GetBlock(i)) && s.list != [] && Returns(s, i, steps, t)
    ensures steps == [GetBlock(i)] && Holds(t, i) == Holds(s, i) + multiset{s.list[0]}
  {
    assert steps == [GetBlock(i)] + steps[1..];
  }

  /** Without one, some schedule makes it return NULL: it waits once, not in a loop. */
  lemma {:induction false} BlockingGetNull(s: State, i: nat)
    requires Enabled(s, GetBlock(i)) && s.list == []
    ensures var steps := [GetBlock(i), Spurious(i), Resume(i)];
            exists t :: Returns(s, i, steps, t) && t.held == s.held
  {
    var steps := [GetBlock(i), Spurious(i), Resume(i)];
    var u := Apply(s, GetBlock(i));
    var v := Apply(u, Spurious(i));
    var t := Apply(v, Resume(i));
    assert steps[1..] == [Spurious(i), Resume(i)] && steps[1..][1..] == [Resume(i)];
    assert ComesBack(v, i, [Resume(i)], t);
    assert ComesBack(u, i, [Spurious(i), Resume(i)], t);
    assert Returns(s, i, steps, t);
  }

  /** The blocking call hands out a connection under every schedule exactly when one is free at the call. */
  lemma {:induction false} BlockingGetSafeIff(s: State, i: nat)
    requires Enabled(s, GetBlock(i))
    ensures (forall steps, t | Returns(s, i, steps, t) :: |Holds(t, i)| == |Holds(s, i)| + 1) <==> s.list != []
  {
    if s.list == [] {
      BlockingGetNull(s, i);
    } else {
      forall steps, t | Returns(s, i, steps, t) ensures |Holds(t, i)| == |Holds(s, i)| + 1 {
        BlockingGetAtOnce(s, i, steps, t);
      }
    }
  }

  // ---------- a signalled waiter that gets nothing ----------

  ghost predicate NoSpurious(steps: seq<Step>) { forall i | 0 <= i < |steps| :: !steps[i].Spurious? }

  lemma {:induction false} RunsAppend(s: State, xs: seq<Step>, u: State, ys: seq<Step>, t: State)
    requires Runs(s, xs, u) && Runs(u, ys, t)
    ensures Runs(s, xs + ys, t)
    decreases |xs|
  {
    if xs == [] {
      assert xs + ys == ys;
    } else {
      assert (xs + ys)[1..] == xs[1..] + ys;
      RunsAppend(Apply(s, xs[0]), xs[1..], u, ys, t);
    }
  }

  /** Thread k takes every free connection. */
  lemma {:induction false} Drain(s: State, k: nat) returns (steps: seq<Step>, t: State)
    requires |s.held| == |s.modes| && k < |s.modes| && s.modes[k] == Idle
    ensures Runs(s, steps, t) && NoSpurious(steps)
    ensures t.list == [] && t.modes == s.modes && t.idle == s.idle && |t.held| == |s.held|
    ensures s.list != [] ==> s.list[0] in t.held[k]
    ensures s.held[k] <= t.held[k]
    decreases |s.list|
  {
    if s.list == [] {
      steps, t := [], s;
    } else {
      var u := Apply(s, TryGet(k));
      var rest, v := Drain(u, k);
      steps, t := [TryGet(k)] + rest, v;
      assert steps[1..] == rest;
      assert u.held[k][s.list[0]] > 0 && u.held[k][s.list[0]] <= t.held[k][s.list[0]];
    }
  }

  /** Thread 2 takes all connections, thread 0 waits, thread 2 releases one to it and thread 1 takes it
      first: without any spurious wake-up the signalled waiter returns NULL. */
  lemma {:induction false} Barging(s: State, c: int) returns (steps: seq<Step>, t: State)
    requires |s.held| == |s.modes| >= 3 && s.idle == 0 && s.list == [] && c in s.held[2]
    requires forall i | 0 <= i < |s.modes| :: s.modes[i] == Idle
    ensures Runs(s, steps, t) && NoSpurious(steps) && Returns(s, 0, steps, t) && Holds(t, 0) == Holds(s, 0)
  {
    var a := Apply(s, GetBlock(0));
    var b := Apply(a, Release(2, c, 0));
    var d := Apply(b, TryGet(1));
    t := Apply(d, Resume(0));
    steps := [GetBlock(0), Release(2, c, 0), TryGet(1), Resume(0)];
    assert a.modes[0] == Asleep && b.modes[0] == Woken && b.list == [c] && d.list == [];
    assert steps[1..] == [Release(2, c, 0), TryGet(1), Resume(0)];
    assert steps[1..][1..] == [TryGet(1), Resume(0)] && steps[1..][1..][1..] == [Resume(0)];
    assert Runs(d, [Resume(0)], t) && Runs(b, [TryGet(1), Resume(0)], t);
    assert ComesBack(d, 0, [Resume(0)], t) && ComesBack(b, 0, [TryGet(1), Resume(0)], t);
    assert Runs(a, steps[1..], t) && ComesBack(a, 0, steps[1..], t);
  }

  /** So in a pool of any size, used by three threads or more, a blocking call can return NULL. */
  lemma {:induction false} BlockingGetCanFail(list: seq<int>, threads: nat)
    requires list != [] && threads >= 3
    ensures exists before, s, steps, t :: Runs(Initial(list, threads), before, s) && NoSpurious(before + steps)
              && Returns(s, 0, steps, t) && Holds(t, 0) == Holds(s, 0)
  {
    var before, s := Drain(Initial(list, threads), 2);
    var steps, t := Barging(s, list[0]);
    assert NoSpurious(before + steps);
  }
}
