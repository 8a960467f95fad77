/**
  The per-slot request limiter `ip_check_valid` of Src/mdb/mdb_operate.c: a window of 60 seconds in which
  1000 calls pass. The statements are about whole runs of calls on one slot, in figures: a call that passes
  gives 0, a rejected one 2, one from a banned address 3.
*/
module RateLimiter {

  const WINDOW: int := 60
  const LIMIT: int := 1000

  const PASS: int := 0
  const REJECT: int := 2
  const BANNED: int := 3

  datatype Slot = Slot(timeStart: int, requestNum: int, invalidNum: int, abBan: int)

  /** mdb_operate_init */
  const Fresh: Slot := Slot(0, 0, 0, 0)

  /** One call at time `now`: the slot afterwards and the result. */
  function Check(s: Slot, now: int): (Slot, int) {
    if s.abBan != 0 then (s, BANNED)
    else if now - s.timeStart >= WINDOW then (s.(timeStart := now, requestNum := 1), PASS)
    else if s.requestNum >= LIMIT then
      (Slot(now, 1, s.invalidNum + 1, if s.invalidNum + 1 >= 5 then 0 else s.abBan), REJECT)
    else (s.(requestNum := s.requestNum + 1), PASS)
  }

  class IpLimit {
    var timeStart: int
    var requestNum: int
    var invalidNum: int
    var abBan: int

    ghost function State(): Slot reads this { Slot(timeStart, requestNum, invalidNum, abBan) }

    constructor ()
      ensures State() == Fresh
    {
      timeStart, requestNum, invalidNum, abBan := 0, 0, 0, 0;
    }

    /** The critical section of ip_check_valid. */
    method Call(now: int) returns (flag: int)
      modifies this
      ensures (State(), flag) == Check(old(State()), now)
    {
      flag := PASS;
      if abBan != 0 { return BANNED; }
      if now - timeStart >= WINDOW {
        timeStart := now;
        requestNum := 1;
      } else if requestNum >= LIMIT {
        timeStart := now;
        requestNum := 1;
        invalidNum := invalidNum + 1;
        if invalidNum >= 5 { abBan := 0; }
        flag := REJECT;
      } else {
        requestNum := requestNum + 1;
      }
    }
  }

  // ---------- runs ----------

  function Results(s: Slot, times: seq<int>): (r: seq<int>)
    ensures |r| == |times|
    decreases |times|
  {
    if times == [] then [] else [Check(s, times[0]).1] + Results(Check(s, times[0]).0, times[1..])
  }

  function After(s: Slot, times: seq<int>): Slot
    decreases |times|
  {
    if times == [] then s else After(Check(s, times[0]).0, times[1..])
  }

  ghost predicate NonDecreasing(times: seq<int>) {
    forall i, j | 0 <= i < j < |times| :: times[i] <= times[j]
  }

  /** What every call keeps. */
  ghost predicate Inv(s: Slot) { s.abBan == 0 && 0 <= s.requestNum <= 1000 }

  lemma {:induction false} CheckInv(s: Slot, now: int)
    requires Inv(s)
    ensures Inv(Check(s, now).0) && Check(s, now).1 != 3 && Check(s, now).0.requestNum <= s.requestNum + 1
  {
  }

  /** The ban result is never returned, however many calls were rejected. */
  lemma {:induction false} NeverBanned(s: Slot, times: seq<int>)
    requires Inv(s)
    ensures 3 !in Results(s, times) && Inv(After(s, times))
    decreases |times|
  {
    if times != [] {
      CheckInv(s, times[0]);
      NeverBanned(Check(s, times[0]).0, times[1..]);
    }
  }

  lemma {:induction false} ResultsSplit(s: Slot, xs: seq<int>, ys: seq<int>)
    ensures Results(s, xs + ys) == Results(s, xs) + Results(After(s, xs), ys)
    ensures After(s, xs + ys) == After(After(s, xs), ys)
    decreases |xs|
  {
    if xs == [] {
      assert xs + ys == ys;
    } else {
      assert (xs + ys)[1..] == xs[1..] + ys;
      ResultsSplit(Check(s, xs[0]).0, xs[1..], ys);
    }
  }

  // ---------- how long a burst can go unrejected ----------

  lemma {:induction false} TailOf(times: seq<int>)
    requires NonDecreasing(times) && times != []
    ensures NonDecreasing(times[1..])
    ensures times[1..] != [] ==> times[1..][|times| - 2] == times[|times| - 1] && times[0] <= times[1..][0]
  {
  }

  /** Inside one window at most 1000 calls pass. */
  lemma {:induction false} QuietInWindow(s: Slot, times: seq<int>)
    requires Inv(s) && NonDecreasing(times) && 2 !in Results(s, times)
    requires times != [] ==> times[|times| - 1] - s.timeStart < 60
    ensures s.requestNum + |times| <= 1000
    decreases |times|
  {
    if times != [] {
      assert times[0] <= times[|times| - 1];
      assert Results(s, times)[0] == Check(s, times[0]).1;
      TailOf(times);
      CheckInv(s, times[0]);
      QuietInWindow(Check(s, times[0]).0, times[1..]);
    }
  }

  /** Calls that span less than a window and are all passed: at most 2000 minus what the slot has already
      counted. So any 2001 consecutive calls within less than 60 seconds include a rejection. */
  lemma {:induction false} BurstIsRejected(s: Slot, times: seq<int>)
    requires Inv(s) && NonDecreasing(times) && (times != [] ==> times[|times| - 1] - times[0] < 60)
    requires 2 !in Results(s, times)
    ensures |times| <= 2000 - s.requestNum
    decreases |times|
  {
    if times != [] {
      assert Results(s, times)[0] == Check(s, times[0]).1;
      TailOf(times);
      CheckInv(s, times[0]);
      if times[0] - s.timeStart >= WINDOW {
        QuietInWindow(Check(s, times[0]).0, times[1..]);
      } else {
        BurstIsRejected(Check(s, times[0]).0, times[1..]);
      }
    }
  }

  lemma {:induction false} BurstIsRejectedInRun(past: seq<int>, burst: seq<int>)
    requires NonDecreasing(past + burst) && |burst| >= 2001 && burst[|burst| - 1] - burst[0] < 60
    ensures 2 in Results(Fresh, past + burst)[|past|..]
  {
    ResultsSplit(Fresh, past, burst);
    NeverBanned(Fresh, past);
    assert Results(Fresh, past + burst)[|past|..] == Results(After(Fresh, past), burst);
    assert NonDecreasing(burst) by {
      forall i, j | 0 <= i < j < |burst| ensures burst[i] <= burst[j] {
        assert (past + burst)[|past| + i] == burst[i] && (past + burst)[|past| + j] == burst[j];
      }
    }
    if REJECT !in Results(After(Fresh, past), burst) {
      BurstIsRejected(After(Fresh, past), burst);
    }
  }

  /** n calls at the same moment inside the window, with room for them, all pass. */
  lemma {:induction false} Steady(s: Slot, t: int, n: nat)
    requires Inv(s) && 0 <= t - s.timeStart < 60 && s.requestNum + n <= 1000
    ensures Results(s, seq(n, _ => t)) == seq(n, _ => 0)
    ensures After(s, seq(n, _ => t)) == s.(requestNum := s.requestNum + n)
    decreases n
  {
    if n > 0 {
      assert seq(n, _ => t)[1..] == seq(n - 1, _ => t);
      Steady(s.(requestNum := s.requestNum + 1), t, n - 1);
    }
  }

  /** The bound is exact from every slot: that many calls can pass within two seconds of each other,
      the first ones just before the window ends and the rest just after. */
  lemma {:induction false} BurstBoundIsTight(s: Slot)
    requires Inv(s)
    ensures var n := 1000 - s.requestNum;
            var times := seq(n, _ => s.timeStart + 59) + seq(1000, _ => s.timeStart + 60);
            |times| == 2000 - s.requestNum && NonDecreasing(times) && 2 !in Results(s, times)
  {
    var n, t := LIMIT - s.requestNum, s.timeStart + 60;
    var xs, ys := seq(n, _ => s.timeStart + 59), seq(LIMIT, _ => t);
    ResultsSplit(s, xs, ys);
    Steady(s, s.timeStart + 59, n);
    var u := s.(requestNum := LIMIT);
    assert ys[1..] == seq(LIMIT - 1, _ => t);
    Steady(u.(timeStart := t, requestNum := 1), t, LIMIT - 1);
    assert Results(u, ys) == [PASS] + seq(LIMIT - 1, _ => PASS);
  }

  lemma {:induction false} AroundThousand(r: nat, i: nat)
    requires 1 <= r <= 1000
    ensures r % 1000 == 0 <==> r == 1000
    ensures (1000 + i) % 1000 == i % 1000
  {
  }

  lemma {:induction false} Flood(s: Slot, t: int, n: nat, i: nat)
    requires Inv(s) && s.requestNum > 0 && 0 <= t - s.timeStart < 60 && i < n
    ensures Results(s, seq(n, _ => t))[i] == if (s.requestNum + i) % 1000 == 0 then 2 else 0
    decreases n
  {
    var ts := seq(n, _ => t);
    assert ts[1..] == seq(n - 1, _ => t);
    AroundThousand(s.requestNum, i);
    if i > 0 {
      var u := Check(s, t).0;
      Flood(u, t, n - 1, i - 1);
      assert u.requestNum + (i - 1) == if s.requestNum == 1000 then i else s.requestNum + i;
      assert Results(s, ts)[i] == Results(u, ts[1..])[i - 1];
    }
  }

  /** Calls that all come at one moment: exactly every thousandth after the first is rejected. */
  lemma {:induction false} EveryThousandth(t: int, n: nat, i: nat)
    requires 60 <= t && i < n
    ensures Results(Fresh, seq(n, _ => t))[i] == if i > 0 && i % 1000 == 0 then 2 else 0
  {
    var ts := seq(n, _ => t);
    assert ts[1..] == seq(n - 1, _ => t);
    if i > 0 { Flood(Slot(t, 1, 0, 0), t, n - 1, i - 1); }
  }

  /** A rejection opens a new window of its own, in which it counts: 999 calls 59 seconds later pass, and the
      next one is rejected. */
  lemma {:induction false} RejectionOpensWindow(s: Slot, t: int)
    requires Inv(s) && s.requestNum == 1000 && 0 <= t - s.timeStart < 60
    ensures Results(s, [t] + (seq(999, _ => t + 59) + [t + 59])) == [2] + (seq(999, _ => 0) + [2])
  {
    var u, xs, ys := Check(s, t).0, seq(999, _ => t + 59), [t + 59];
    Steady(u, t + 59, 999);
    ResultsSplit(u, xs, ys);
    ResultsSplit(s, [t], xs + ys);
    assert ys[1..] == [] && [t][1..] == [];
  }

  // ---------- what a rejection takes ----------

  lemma {:induction false} RejectionNeeds(s: Slot, times: seq<int>, j: nat)
    requires Inv(s) && j < |times| && Results(s, times)[j] == 2
    ensures s.requestNum + j >= 1000
    decreases |times|
  {
    CheckInv(s, times[0]);
    if j > 0 { RejectionNeeds(Check(s, times[0]).0, times[1..], j - 1); }
  }

  /** Two rejections on one slot are at least 1000 calls apart. */
  lemma {:induction false} RejectionsApart(s: Slot, times: seq<int>, i: nat, j: nat)
    requires Inv(s) && i < j < |times| && Results(s, times)[i] == 2 && Results(s, times)[j] == 2
    ensures j - i >= 1000
    decreases |times|
  {
    CheckInv(s, times[0]);
    if i > 0 {
      RejectionsApart(Check(s, times[0]).0, times[1..], i - 1, j - 1);
    } else {
      RejectionNeeds(Check(s, times[0]).0, times[1..], j - 1);
    }
  }

  /** The slot's counter counts the latest of the past calls, none earlier than the window's start. */
  ghost predicate Counted(past: seq<int>, s: Slot) {
    && Inv(s) && s.requestNum <= |past|
    && (s.requestNum == 0 ==> past == [])
    && (0 < s.requestNum ==> s.timeStart <= past[|past| - s.requestNum])
  }

  /** Only a full counter rejects, so the call 1000 calls ago lies in the window. */
  lemma {:induction false} JustifiedNow(past: seq<int>, s: Slot, now: int)
    requires Counted(past, s) && Check(s, now).1 == 2
    ensures |past| >= 1000 && now - past[|past| - 1000] < 60
  {
  }

  lemma {:induction false} CountedStep(past: seq<int>, s: Slot, now: int)
    requires Counted(past, s) && (past == [] ==> s.timeStart <= now)
    ensures Counted(past + [now], Check(s, now).0)
  {
    var n := Check(s, now).0.requestNum;
    if n > 1 && s.requestNum > 0 { assert (past + [now])[|past| + 1 - n] == past[|past| - s.requestNum]; }
  }

  lemma {:induction false} Justified(past: seq<int>, s: Slot, times: seq<int>, i: nat)
    requires Counted(past, s) && i < |times| && Results(s, times)[i] == 2
    requires past == [] ==> s.timeStart <= times[0]
    ensures var all, k := past + times, |past| + i; k >= 1000 && all[k] - all[k - 1000] < 60
    decreases |times|
  {
    var now := times[0];
    if i == 0 {
      JustifiedNow(past, s, now);
    } else {
      CountedStep(past, s, now);
      assert past + [now] + times[1..] == past + times;
      Justified(past + [now], Check(s, now).0, times[1..], i - 1);
    }
  }

  /** No call is rejected without cause: a rejected call is at least the 1001st, and the call 1000
      before it was less than 60 seconds earlier. */
  lemma {:induction false} RejectionIsJustified(times: seq<int>, i: nat)
    requires i < |times| && 0 <= times[0] && Results(Fresh, times)[i] == 2
    ensures i >= 1000 && times[i] - times[i - 1000] < 60
  {
    Justified([], Fresh, times, i);
    assert [] + times == times;
  }
}
