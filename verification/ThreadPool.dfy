/**
  The worker pool of Src/utility/dm_thread_pool.c: its linked list of tasks in place, and the protocol
  around it as a transition system. Each critical section is one step; `pthread_cond_wait` puts a worker to
  sleep, a signal or a spurious wake-up makes it `Woken`, and a woken worker still has to win the lock, like
  any other. Tasks are numbered in submission order.
*/
module ThreadPool {
  import opened Holdings
  import opened Lists

  // ---------- the linked list of tasks ----------

  /** The `next` pointers of all tasks and pool->task_list. A task's address is the number of its
      submission. */
  datatype Links = Links(next: map<int, int>, head: int)

  /** The `next` pointers from `head` spell the list l of distinct tasks. */
  ghost predicate Linked(ls: Links, l: seq<int>) {
    && NoDup(l) && NULL !in l && ls.head == At(l, 0)
    && (forall i | 0 <= i < |l| :: l[i] in ls.next)
    && (forall i {:trigger ls.next[l[i]]} | 0 <= i < |l| :: ls.next[l[i]] == At(l, i + 1))
  }

  /** The list part of thread_pool_add_task once the tail of the list is known. */
  function AddBehind(ls: Links, tail: int, task: int): Links {
    var next := ls.next[task := NULL];
    if tail == NULL then Links(next, task) else Links(next[tail := task], ls.head)
  }

  lemma {:induction false} AddLinked(ls: Links, l: seq<int>, task: int)
    requires Linked(ls, l) && task !in l && task != NULL
    ensures Linked(AddBehind(ls, At(l, |l| - 1), task), l + [task])
  {
    var ms, k := AddBehind(ls, At(l, |l| - 1), task), l + [task];
    forall i | 0 <= i < |k| ensures k[i] in ms.next && ms.next[k[i]] == At(k, i + 1) {
      if i < |l| { assert k[i] == l[i] && ls.next[l[i]] == At(l, i + 1); }
    }
  }

  lemma {:induction false} TakeLinked(ls: Links, l: seq<int>)
    requires Linked(ls, l) && l != []
    ensures ls.head == l[0] && l[0] in ls.next && Linked(ls.(head := ls.next[l[0]]), l[1..])
  {
    assert ls.next[l[0]] == At(l, 1);
    forall i | 0 <= i < |l[1..]| ensures l[1..][i] in ls.next && ls.next[l[1..][i]] == At(l[1..], i + 1) {
      assert l[1..][i] == l[i + 1] && ls.next[l[i + 1]] == At(l, i + 2);
    }
  }

  class TaskList {
    var links: Links
    ghost var list: seq<int>

    ghost predicate Valid() reads this { Linked(links, list) }

    constructor ()
      ensures Valid() && list == []
    {
      links, list := Links(map[], NULL), [];
    }

    /** The walk of thread_pool_add_task to the last task. */
    method Tail() returns (tmp: int)
      requires Valid() && list != []
      ensures tmp == list[|list| - 1]
    {
      tmp := links.head;
      ghost var i := 0;
      assert links.next[list[i]] == At(list, i + 1);
      while links.next[tmp] != NULL
        invariant 0 <= i < |list| && tmp == list[i] && links.next[tmp] == At(list, i + 1)
        decreases |list| - i
      {
        tmp := links.next[tmp];
        i := i + 1;
        assert links.next[list[i]] == At(list, i + 1);
      }
    }

    /** The list part of thread_pool_add_task: links the new task behind the last one. */
    method Add(task: int)
      requires Valid() && task !in list && task != NULL
      modifies this
      ensures Valid() && list == old(list) + [task]
      ensures links == AddBehind(old(links), At(old(list), |old(list)| - 1), task)
    {
      AddLinked(links, list, task);
      if links.head == NULL {
        links := Links(links.next[task := NULL], task);
      } else {
        var tmp := Tail();
        links := links.(next := links.next[task := NULL]);
        links := links.(next := links.next[tmp := task]);
      }
      list := list + [task];
    }

    /** The list part of thread_func: the first task is taken off. */
    method Take() returns (task: int)
      requires Valid() && list != []
      modifies this
      ensures Valid() && task == old(list)[0] && list == old(list)[1..]
      ensures task in old(links).next && links == old(links).(head := old(links).next[task])
    {
      TakeLinked(links, list);
      task := links.head;
      links := links.(head := links.next[task]);
      list := list[1..];
    }

    /** The last loop of thread_pool_destroy: every task left is freed once, first to last. */
    method Discard() returns (freed: seq<int>)
      requires Valid()
      modifies this
      ensures Valid() && list == [] && freed == old(list)
    {
      freed := [];
      ghost var all, i := list, 0;
      while links.head != NULL
        invariant Valid() && 0 <= i <= |all| && freed == all[..i] && list == all[i..]
        decreases |all| - i
      {
        assert all[i..][1..] == all[i + 1..] && all[..i + 1] == all[..i] + [all[i]];
        var tmp := Take();
        freed := freed + [tmp];
        i := i + 1;
      }
    }
  }

  // ---------- the protocol ----------

  datatype Worker = Ready | Asleep | Woken | Running(task: nat) | Exited

  /** `dispatched` and `finished` record the order in which tasks were taken and completed; `discarded`
      is what thread_pool_destroy freed unrun. */
  datatype State = State(workers: seq<Worker>, queue: seq<nat>, shutdown: bool, submitted: nat,
                         dispatched: seq<nat>, finished: seq<nat>, discarded: seq<nat>, destroyed: bool)

  datatype Step =
    | Submit(wake: nat)   // thread_pool_add_task; the signal reaches worker `wake` if any is asleep
    | Lock(i: nat)        // worker i gets the lock, at the top of its loop or back from the wait
    | Finish(i: nat)      // worker i's task returns
    | Spurious(i: nat)    // worker i wakes without a signal
    | Shutdown            // the critical section of thread_pool_destroy
    | Reap                // thread_pool_destroy after the last join

  predicate Enabled(s: State, step: Step) {
    && !s.destroyed
    && match step
       case Submit(w) => Asleep in s.workers ==> w < |s.workers| && s.workers[w] == Asleep
       case Lock(i) => i < |s.workers| && (s.workers[i] == Ready || s.workers[i] == Woken)
       case Finish(i) => i < |s.workers| && s.workers[i].Running?
       case Spurious(i) => i < |s.workers| && s.workers[i] == Asleep
       case Shutdown => true
       case Reap => s.shutdown && forall i | 0 <= i < |s.workers| :: s.workers[i] == Exited
  }

  function WakeAll(ws: seq<Worker>): (r: seq<Worker>)
    ensures |r| == |ws| && forall i | 0 <= i < |ws| :: r[i] == if ws[i] == Asleep then Woken else ws[i]
  {
    seq(|ws|, i requires 0 <= i < |ws| => if ws[i] == Asleep then Woken else ws[i])
  }

  function Apply(s: State, step: Step): State
    requires Enabled(s, step)
  {
    match step
    case Submit(w) =>
      s.(queue := s.queue + [s.submitted], submitted := s.submitted + 1,
         workers := if Asleep in s.workers then s.workers[w := Woken] else s.workers)
    case Lock(i) =>
      if s.queue == [] && !s.shutdown then s.(workers := s.workers[i := Asleep])
      else if s.shutdown then s.(workers := s.workers[i := Exited])
      else s.(workers := s.workers[i := Running(s.queue[0])], queue := s.queue[1..],
              dispatched := s.dispatched + [s.queue[0]])
    case Finish(i) =>
      s.(workers := s.workers[i := Ready], finished := s.finished + [s.workers[i].task])
    case Spurious(i) => s.(workers := s.workers[i := Woken])
    case Shutdown => s.(shutdown := true, workers := WakeAll(s.workers))
    case Reap => s.(discarded := s.queue, queue := [], destroyed := true)
  }

  ghost predicate Runs(s: State, steps: seq<Step>, t: State)
    decreases |steps|
  {
    if steps == [] then s == t
    else Enabled(s, steps[0]) && Runs(Apply(s, steps[0]), steps[1..], t)
  }

  function Initial(n: nat): State { State(seq(n, _ => Ready), [], false, 0, [], [], [], false) }

  // ---------- what every step keeps ----------

  function Ids(n: nat): (r: seq<nat>)
    ensures |r| == n && forall i | 0 <= i < n :: r[i] == i
  {
    seq(n, i => i)
  }

  function Held(w: Worker): multiset<nat> { if w.Running? then multiset{w.task} else multiset{} }

  function HeldBy(ws: seq<Worker>): (r: seq<multiset<nat>>)
    ensures |r| == |ws| && forall i | 0 <= i < |ws| :: r[i] == Held(ws[i])
  {
    seq(|ws|, i requires 0 <= i < |ws| => Held(ws[i]))
  }

  function RunningTasks(s: State): multiset<nat> { Total(HeldBy(s.workers)) }

  /** Tasks are taken strictly in submission order. */
  ghost predicate InOrder(s: State) {
    s.dispatched + s.queue + s.discarded == Ids(s.submitted)
    && (if s.destroyed then s.queue == [] else s.discarded == [])
  }

  ghost predicate OnceTaken(s: State, k: nat) {
    multiset(s.dispatched)[k] == RunningTasks(s)[k] + multiset(s.finished)[k]
  }

  /** What was taken is running or finished, and only once. */
  ghost predicate Conserved(s: State) {
    forall k :: OnceTaken(s, k)
  }

  /** No lost wake-up: with a worker asleep there are at least as many woken workers as queued tasks. */
  ghost predicate NoLostWakeup(s: State) {
    !s.shutdown && Asleep in s.workers ==> |s.queue| <= multiset(s.workers)[Woken]
  }

  ghost predicate CleanShutdown(s: State) {
    && (s.shutdown ==> Asleep !in s.workers)
    && (Exited in s.workers || s.destroyed ==> s.shutdown)
    && (s.destroyed ==> forall i | 0 <= i < |s.workers| :: s.workers[i] == Exited)
  }

  ghost predicate Inv(s: State) { InOrder(s) && Conserved(s) && NoLostWakeup(s) && CleanShutdown(s) }

  lemma {:induction false} NoneRunning(ws: seq<Worker>)
    requires forall i | 0 <= i < |ws| :: !ws[i].Running?
    ensures Total(HeldBy(ws)) == multiset{}
  {
    if ws != [] {
      assert HeldBy(ws)[1..] == HeldBy(ws[1..]);
      NoneRunning(ws[1..]);
    }
  }

  lemma {:induction false} InitialInv(n: nat)
    ensures Inv(Initial(n))
  {
    NoneRunning(Initial(n).workers);
  }

  lemma {:induction false} OneWorkerChanges(ws: seq<Worker>, i: nat, w: Worker, k: nat)
    requires i < |ws|
    ensures Total(HeldBy(ws[i := w]))[k] + Held(ws[i])[k] == Total(HeldBy(ws))[k] + Held(w)[k]
  {
    assert HeldBy(ws[i := w]) == HeldBy(ws)[i := Held(w)];
    TotalUpdate(HeldBy(ws), i, Held(w), k);
  }

  lemma {:induction false} StepInOrder(s: State, step: Step)
    requires InOrder(s) && Enabled(s, step)
    ensures InOrder(Apply(s, step))
  {
    var t := Apply(s, step);
    assert s.dispatched + s.queue == s.dispatched + s.queue + s.discarded;
    if step.Submit? {
      assert t.dispatched + t.queue + t.discarded == s.dispatched + s.queue + [s.submitted];
    } else if step.Lock? && s.queue != [] && !s.shutdown {
      assert t.dispatched + t.queue + t.discarded == s.dispatched + s.queue;
    } else if step.Reap? {
      assert t.dispatched + t.queue + t.discarded == s.dispatched + s.queue;
    }
  }

  lemma {:induction false} AppendCount(q: seq<nat>, x: nat, k: nat)
    ensures multiset(q + [x])[k] == multiset(q)[k] + multiset{x}[k]
  {
  }

  lemma {:induction false} LockOnceTaken(s: State, i: nat, k: nat)
    requires OnceTaken(s, k) && Enabled(s, Lock(i))
    ensures OnceTaken(Apply(s, Lock(i)), k)
  {
    var t := Apply(s, Lock(i));
    OneWorkerChanges(s.workers, i, t.workers[i], k);
    if t.workers[i].Running? { AppendCount(s.dispatched, s.queue[0], k); }
  }

  lemma {:induction false} FinishOnceTaken(s: State, i: nat, k: nat)
    requires OnceTaken(s, k) && Enabled(s, Finish(i))
    ensures OnceTaken(Apply(s, Finish(i)), k)
  {
    OneWorkerChanges(s.workers, i, Ready, k);
    AppendCount(s.finished, s.workers[i].task, k);
  }

  lemma {:induction false} WakingHoldsNothing(ws: seq<Worker>, i: nat)
    requires i < |ws| && ws[i] == Asleep
    ensures HeldBy(ws[i := Woken]) == HeldBy(ws)
  {
  }

  lemma {:induction false} WakingAllHoldsNothing(ws: seq<Worker>)
    ensures HeldBy(WakeAll(ws)) == HeldBy(ws)
  {
  }

  lemma {:induction false} StepOnceTaken(s: State, step: Step, k: nat)
    requires OnceTaken(s, k) && Enabled(s, step)
    ensures OnceTaken(Apply(s, step), k)
  {
    match step
    case Submit(w) => if Asleep in s.workers { WakingHoldsNothing(s.workers, w); }
    case Lock(i) => LockOnceTaken(s, i, k);
    case Finish(i) => FinishOnceTaken(s, i, k);
    case Spurious(i) => WakingHoldsNothing(s.workers, i);
    case Shutdown => WakingAllHoldsNothing(s.workers);
    case Reap =>
  }

  lemma {:induction false} StepConserved(s: State, step: Step)
    requires Conserved(s) && Enabled(s, step)
    ensures Conserved(Apply(s, step))
  {
    forall k: nat ensures OnceTaken(Apply(s, step), k) {
      StepOnceTaken(s, step, k);
    }
  }

  lemma {:induction false} StepNoLostWakeup(s: State, step: Step)
    requires NoLostWakeup(s) && Enabled(s, step)
    ensures NoLostWakeup(Apply(s, step))
  {
  }

  lemma {:induction false} StepCleanShutdown(s: State, step: Step)
    requires CleanShutdown(s) && Enabled(s, step)
    ensures CleanShutdown(Apply(s, step))
  {
  }

  /** Every step of every interleaving keeps the invariant. */
  lemma {:induction false} StepInv(s: State, step: Step)
    requires Inv(s) && Enabled(s, step)
    ensures Inv(Apply(s, step))
  {
    StepInOrder(s, step);
    StepConserved(s, step);
    StepNoLostWakeup(s, step);
    StepCleanShutdown(s, step);
  }

  lemma {:induction false} RunInv(s: State, steps: seq<Step>, t: State)
    requires Inv(s) && Runs(s, steps, t)
    ensures Inv(t)
    decreases |steps|
  {
    if steps != [] {
      StepInv(s, steps[0]);
      RunInv(Apply(s, steps[0]), steps[1..], t);
    }
  }

  // ---------- what holds in every reachable state ----------

  lemma {:induction false} IdCount(n: nat, k: nat)
    ensures multiset(Ids(n))[k] == if k < n then 1 else 0
  {
    if n > 0 {
      assert Ids(n) == Ids(n - 1) + [n - 1];
      IdCount(n - 1, k);
    }
  }

  /** Exactly once: every submitted task is, with multiplicity one, in exactly one of the queue, a
      worker's hands, the finished tasks and the discarded ones; no other task is anywhere. */
  lemma {:induction false} ExactlyOnePlace(n: nat, steps: seq<Step>, s: State, k: nat)
    requires Runs(Initial(n), steps, s)
    ensures multiset(s.queue)[k] + RunningTasks(s)[k] + multiset(s.finished)[k] + multiset(s.discarded)[k]
            == if k < s.submitted then 1 else 0
  {
    InitialInv(n);
    RunInv(Initial(n), steps, s);
    assert OnceTaken(s, k);
    IdCount(s.submitted, k);
    assert multiset(Ids(s.submitted)) == multiset(s.dispatched) + multiset(s.queue) + multiset(s.discarded);
  }

  /** No two workers run the same task. */
  lemma {:induction false} NotTwice(n: nat, steps: seq<Step>, s: State, i: nat, j: nat)
    requires Runs(Initial(n), steps, s) && i < j < |s.workers| && s.workers[i].Running? && s.workers[j].Running?
    ensures s.workers[i].task != s.workers[j].task
  {
    var k := s.workers[i].task;
    ExactlyOnePlace(n, steps, s, k);
    TwoHolders(HeldBy(s.workers), i, j, k);
    assert HeldBy(s.workers)[i][k] == 1;
  }

  /** First in, first out: the tasks taken so far are the first ones submitted, in that order. */
  lemma {:induction false} DispatchedIsPrefix(n: nat, steps: seq<Step>, s: State)
    requires Runs(Initial(n), steps, s)
    ensures s.dispatched <= Ids(s.submitted) && s.dispatched == Ids(|s.dispatched|)
  {
    InitialInv(n);
    RunInv(Initial(n), steps, s);
    assert s.dispatched == (s.dispatched + s.queue + s.discarded)[..|s.dispatched|];
  }

  /** A queued task never waits on sleeping workers alone: before shutdown, if one sleeps, another has
      been woken for every queued task. After shutdown nobody sleeps. */
  lemma {:induction false} NobodySleepsOnWork(n: nat, steps: seq<Step>, s: State)
    requires Runs(Initial(n), steps, s) && Asleep in s.workers
    ensures !s.shutdown && |s.queue| <= multiset(s.workers)[Woken]
    ensures s.queue != [] ==> exists i | 0 <= i < |s.workers| :: s.workers[i] == Woken && Enabled(s, Lock(i))
  {
    InitialInv(n);
    RunInv(Initial(n), steps, s);
    if s.queue != [] {
      assert Woken in multiset(s.workers);
      var i :| 0 <= i < |s.workers| && s.workers[i] == Woken;
      assert Enabled(s, Lock(i));
    }
  }

  /** When thread_pool_destroy returns, every task ever submitted was either run to completion or
      discarded unrun, never both, and no worker is left. */
  lemma {:induction false} AfterDestroy(n: nat, steps: seq<Step>, s: State)
    requires Runs(Initial(n), steps, s) && s.destroyed
    ensures forall k: nat | k < s.submitted ::
              multiset(s.finished)[k] + multiset(s.discarded)[k] == 1 && (k in s.finished <==> k !in s.discarded)
    ensures s.queue == [] && forall i | 0 <= i < |s.workers| :: s.workers[i] == Exited
  {
    InitialInv(n);
    RunInv(Initial(n), steps, s);
    forall k: nat | k < s.submitted
      ensures multiset(s.finished)[k] + multiset(s.discarded)[k] == 1 && (k in s.finished <==> k !in s.discarded)
    {
      FinishedOrDiscarded(n, steps, s, k);
    }
  }

  lemma {:induction false} FinishedOrDiscarded(n: nat, steps: seq<Step>, s: State, k: nat)
    requires Runs(Initial(n), steps, s) && Inv(s) && s.destroyed && k < s.submitted
    ensures multiset(s.finished)[k] + multiset(s.discarded)[k] == 1 && (k in s.finished <==> k !in s.discarded)
  {
    ExactlyOnePlace(n, steps, s, k);
    NoneRunning(s.workers);
    assert k in s.finished <==> k in multiset(s.finished);
    assert k in s.discarded <==> k in multiset(s.discarded);
  }

  // ---------- what a run did ----------

  function Count(steps: seq<Step>, what: Step -> bool): nat {
    if steps == [] then 0 else (if what(steps[0]) then 1 else 0) + Count(steps[1..], what)
  }

  /** The state records its run: one task was submitted per thread_pool_add_task, one finished per returning
      task, shutdown is set exactly once thread_pool_destroy has begun, and the pool is gone exactly once it
      has returned. */
  lemma {:induction false} RunRecorded(s: State, steps: seq<Step>, t: State)
    requires Runs(s, steps, t)
    ensures t.submitted == s.submitted + Count(steps, (x: Step) => x.Submit?)
    ensures |t.finished| == |s.finished| + Count(steps, (x: Step) => x.Finish?)
    ensures t.shutdown <==> s.shutdown || Shutdown in steps
    ensures t.destroyed <==> s.destroyed || Reap in steps
    decreases |steps|
  {
    if steps != [] { RunRecorded(Apply(s, steps[0]), steps[1..], t); }
  }

  // ---------- tasks get done ----------

  /** A worker that gets the lock while tasks are queued runs the first one not yet dispatched. */
  lemma {:induction false} LockTakes(n: nat, steps: seq<Step>, s: State, i: nat)
    requires Runs(Initial(n), steps, s) && Enabled(s, Lock(i)) && !s.shutdown && s.queue != []
    ensures var t := Apply(s, Lock(i));
            && t.workers == s.workers[i := Running(|s.dispatched|)] && t.dispatched == s.dispatched + [|s.dispatched|]
            && |t.queue| == |s.queue| - 1 && t.submitted == s.submitted && t.finished == s.finished
  {
    InitialInv(n);
    RunInv(Initial(n), steps, s);
    assert s.queue[0] == (s.dispatched + s.queue + s.discarded)[|s.dispatched|];
  }

  /** The steps of workers. */
  ghost predicate OnlyWorkers(steps: seq<Step>) { forall i | 0 <= i < |steps| :: steps[i].Lock? || steps[i].Finish? }

  function Effort(w: Worker): nat {
    match w case Running(_) => 2 case Ready => 1 case Woken => 1 case _ => 0
  }

  function Efforts(ws: seq<Worker>): nat { if ws == [] then 0 else Effort(ws[0]) + Efforts(ws[1..]) }

  lemma {:induction false} EffortsUpdate(ws: seq<Worker>, i: nat, w: Worker)
    requires i < |ws|
    ensures Efforts(ws[i := w]) + Effort(ws[i]) == Efforts(ws) + Effort(w)
  {
    if i == 0 {
      assert ws[0 := w][1..] == ws[1..];
    } else {
      assert ws[i := w][1..] == ws[1..][i - 1 := w];
      EffortsUpdate(ws[1..], i - 1, w);
    }
  }

  /** What the workers still have to do: two steps per queued task, and the steps they are in. */
  function Load(s: State): nat { 2 * |s.queue| + Efforts(s.workers) }

  /** Left to themselves before shutdown, the workers take exactly Load(s) - Load(t) steps from s to t: the
      queue is worked off in at most Load(s) steps, in whatever order they get the lock. */
  lemma {:induction false} WorkIsBounded(s: State, steps: seq<Step>, t: State)
    requires !s.shutdown && Runs(s, steps, t) && OnlyWorkers(steps)
    ensures |steps| + Load(t) == Load(s) && !t.shutdown
    decreases |steps|
  {
    if steps != [] {
      var u := Apply(s, steps[0]);
      match steps[0] {
        case Lock(i) => EffortsUpdate(s.workers, i, u.workers[i]);
        case Finish(i) => EffortsUpdate(s.workers, i, u.workers[i]);
      }
      WorkIsBounded(u, steps[1..], t);
    }
  }

  ghost predicate CanMove(s: State) { exists i :: Enabled(s, Lock(i)) || Enabled(s, Finish(i)) }

  /** And when none of them can move any more, every task ever submitted has been run to its end. */
  lemma {:induction false} StillMeansDone(n: nat, steps: seq<Step>, s: State)
    requires 0 < n && Runs(Initial(n), steps, s) && !s.shutdown && !CanMove(s)
    ensures s.queue == [] && forall k: nat | k < Count(steps, (x: Step) => x.Submit?) :: k in s.finished
  {
    InitialInv(n);
    RunInv(Initial(n), steps, s);
    SameWorkers(Initial(n), steps, s);
    forall i | 0 <= i < |s.workers| ensures s.workers[i] == Asleep {
      assert !Enabled(s, Lock(i)) && !Enabled(s, Finish(i));
      assert s.workers[i] == Exited ==> Exited in s.workers;
    }
    assert s.workers[0] == Asleep && Woken !in s.workers;
    assert Woken !in multiset(s.workers);
    NoneRunning(s.workers);
    RunRecorded(Initial(n), steps, s);
    forall k: nat | k < s.submitted ensures k in s.finished {
      ExactlyOnePlace(n, steps, s, k);
      assert k in multiset(s.finished);
    }
  }

  lemma {:induction false} SameWorkers(s: State, steps: seq<Step>, t: State)
    requires Runs(s, steps, t)
    ensures |t.workers| == |s.workers|
    decreases |steps|
  {
    if steps != [] { SameWorkers(Apply(s, steps[0]), steps[1..], t); }
  }

  // ---------- shutdown ends ----------

  function Weight(w: Worker): nat {
    match w case Exited => 0 case Running(_) => 2 case _ => 1
  }

  function Work(ws: seq<Worker>): nat { if ws == [] then 0 else Weight(ws[0]) + Work(ws[1..]) }

  lemma {:induction false} WorkUpdate(ws: seq<Worker>, i: nat, w: Worker)
    requires i < |ws|
    ensures Work(ws[i := w]) + Weight(ws[i]) == Work(ws) + Weight(w)
  {
    if i == 0 {
      assert ws[0 := w][1..] == ws[1..];
    } else {
      assert ws[i := w][1..] == ws[1..][i - 1 := w];
      WorkUpdate(ws[1..], i - 1, w);
    }
  }

  function WorkerSteps(steps: seq<Step>): nat {
    if steps == [] then 0
    else (if steps[0].Lock? || steps[0].Finish? then 1 else 0) + WorkerSteps(steps[1..])
  }

  lemma {:induction false} WorkStep(s: State, step: Step)
    requires Inv(s) && s.shutdown && Enabled(s, step)
    ensures Apply(s, step).shutdown
    ensures Work(Apply(s, step).workers) + (if step.Lock? || step.Finish? then 1 else 0) == Work(s.workers)
  {
    match step
    case Lock(i) => WorkUpdate(s.workers, i, Exited);
    case Finish(i) => WorkUpdate(s.workers, i, Ready);
    case Shutdown => assert WakeAll(s.workers) == s.workers;
    case _ =>
  }

  /** After shutdown the workers together take at most Work more steps, whatever else is submitted
      meanwhile, so the joins of thread_pool_destroy end if the running tasks do. */
  lemma {:induction false} ShutdownEnds(s: State, steps: seq<Step>, t: State)
    requires Inv(s) && s.shutdown && Runs(s, steps, t)
    ensures WorkerSteps(steps) + Work(t.workers) == Work(s.workers)
    decreases |steps|
  {
    if steps != [] {
      WorkStep(s, steps[0]);
      StepInv(s, steps[0]);
      ShutdownEnds(Apply(s, steps[0]), steps[1..], t);
    }
  }

  /** And they never get stuck: until every worker has exited, one of them can move. */
  lemma {:induction false} ShutdownMoves(s: State)
    requires Inv(s) && s.shutdown && !s.destroyed
    ensures Enabled(s, Reap) || exists i :: Enabled(s, Lock(i)) || Enabled(s, Finish(i))
  {
    if i :| 0 <= i < |s.workers| && s.workers[i] != Exited {
      assert s.workers[i] != Asleep;
      assert Enabled(s, Lock(i)) || Enabled(s, Finish(i));
    }
  }

  // ---------- the pointers under the protocol ----------

  /** What each critical section does to the links. */
  function Relink(s: State, ls: Links, step: Step): Links
    requires Linked(ls, s.queue) && Enabled(s, step)
  {
    match step
    case Submit(_) => AddBehind(ls, At(s.queue, |s.queue| - 1), s.submitted)
    case Lock(_) =>
      if s.queue == [] || s.shutdown then ls else
        TakeLinked(ls, s.queue);
        ls.(head := ls.next[ls.head])
    case Reap => ls.(head := NULL)
    case _ => ls
  }

  /** The new task is not in the list yet, so every step finds the list as the list code needs it and
      leaves it so. */
  lemma {:induction false} StepLinked(s: State, ls: Links, step: Step)
    requires Linked(ls, s.queue) && InOrder(s) && Enabled(s, step)
    ensures Linked(Relink(s, ls, step), Apply(s, step).queue)
    ensures step.Submit? ==> s.submitted !in s.queue
  {
    match step
    case Submit(_) =>
      NotQueuedYet(s);
      AddLinked(ls, s.queue, s.submitted);
    case Lock(_) => if s.queue != [] { TakeLinked(ls, s.queue); }
    case _ =>
  }

  lemma {:induction false} NotQueuedYet(s: State)
    requires InOrder(s)
    ensures s.submitted !in s.queue
  {
    var all := s.dispatched + s.queue + s.discarded;
    forall i | 0 <= i < |s.queue| ensures s.queue[i] < s.submitted {
      assert all[|s.dispatched| + i] == s.queue[i];
    }
  }

  /** In every interleaving the links spell the queue. */
  lemma {:induction false} LinksHold(s: State, ls: Links, steps: seq<Step>, t: State) returns (ms: Links)
    requires Linked(ls, s.queue) && InOrder(s) && Runs(s, steps, t)
    ensures Linked(ms, t.queue) && LinkedRuns(s, ls, steps, t, ms)
    decreases |steps|
  {
    if steps == [] {
      ms := ls;
    } else {
      StepLinked(s, ls, steps[0]);
      StepInOrder(s, steps[0]);
      ms := LinksHold(Apply(s, steps[0]), Relink(s, ls, steps[0]), steps[1..], t);
    }
  }

  /** A run of the protocol together with the links. */
  ghost predicate LinkedRuns(s: State, ls: Links, steps: seq<Step>, t: State, ms: Links)
    decreases |steps|
  {
    if steps == [] then s == t && ls == ms
    else Linked(ls, s.queue) && Enabled(s, steps[0])
         && LinkedRuns(Apply(s, steps[0]), Relink(s, ls, steps[0]), steps[1..], t, ms)
  }
}
