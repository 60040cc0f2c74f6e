/**
 The schedule_waiting pass, which rolls past an unexamined thread after each removal: nothing is
 lost, only removable threads leave, at least one leaves when any can, and repeated passes drain.
 */
module SchedWait {
  import opened Sched
  import opened SchedInv
  import opened SchedRuns

  predicate Gone(s: Sys, id: Tid, now: nat) {
    Removable(Get(s, id), now)
  }

  ghost predicate Distinct(q: seq<Tid>) {
    forall i, j :: 0 <= i < j < |q| ==> q[i] != q[j]
  }

  lemma {:induction false} OccDistinct(q: seq<Tid>)
    requires forall id :: Occ(q, id) <= 1
    ensures Distinct(q)
  {
    if q != [] {
      forall id ensures Occ(q[1..], id) <= 1 { assert Occ(q, id) <= 1; }
      OccDistinct(q[1..]);
      OccIn(q[1..], q[0]);
      assert Occ(q, q[0]) <= 1;
      forall i, j | 0 <= i < j < |q| ensures q[i] != q[j] {
        assert q[j] == q[1..][j - 1];
        if i > 0 { assert q[i] == q[1..][i - 1]; }
      }
    }
  }

  /** Waiters are queued once each, which is all the proofs below need of the invariant. */
  lemma WaitersDistinct(s: Sys, apart: set<Tid>)
    requires Placed(s, apart)
    ensures Distinct(s.waiting)
  {
    forall id ensures Occ(s.waiting, id) <= 1 { assert Places(s, apart, id) <= 1; }
    OccDistinct(s.waiting);
  }

  /** The queue did not grow, only threads removable at the start left, and those that stayed are unchanged. */
  ghost predicate Trimmed(s: Sys, u: Sys, now: nat) {
    && |u.waiting| <= |s.waiting|
    && (forall id :: id in s.waiting && id !in u.waiting ==> Gone(s, id, now))
    && (forall id :: id in u.waiting ==> id in s.waiting && Record(u.threads, id) == Record(s.threads, id))
  }

  lemma TrimmedTransitive(s: Sys, v: Sys, u: Sys, now: nat)
    requires Trimmed(s, v, now) && Trimmed(v, u, now)
    ensures Trimmed(s, u, now)
  {
  }

  /** What one turn does: the head leaves exactly when it is removable, and nobody else changes. */
  lemma WaitTurnEffect(s: Sys, now: nat)
    requires s.waiting != []
    ensures var u := WaitTurn(s, now);
            && u.waiting == Roll(if Gone(s, s.waiting[0], now) then s.waiting[1..] else s.waiting)
            && (forall id :: id != s.waiting[0] || !Gone(s, id, now) ==> Record(u.threads, id) == Record(s.threads, id))
  {
  }

  lemma RollDistinct(q: seq<Tid>)
    requires Distinct(q)
    ensures Distinct(Roll(q)) && |Roll(q)| == |q|
  {
    if |q| > 1 {
      forall i | 0 <= i < |q| ensures Roll(q)[i] == q[if i + 1 < |q| then i + 1 else 0] {}
    }
  }

  /** Everything the proofs below need to know about a turn. */
  lemma TakeTurn(s: Sys, now: nat, turns: nat) returns (v: Sys)
    requires Distinct(s.waiting) && s.waiting != [] && turns > 0
    ensures WaitTurns(s, now, turns) == WaitTurns(v, now, turns - 1)
    ensures Distinct(v.waiting) && Trimmed(s, v, now)
    ensures Gone(s, s.waiting[0], now) ==> |v.waiting| < |s.waiting|
    ensures !Gone(s, s.waiting[0], now) ==> v.waiting == s.waiting[1..] + [s.waiting[0]]
    ensures !Gone(s, s.waiting[0], now) ==> forall id :: Gone(v, id, now) == Gone(s, id, now)
  {
    v := WaitTurn(s, now);
    WaitTurnEffect(s, now);
    var head, rest := s.waiting[0], s.waiting[1..];
    assert s.waiting == [head] + rest;
    RollDistinct(rest);
    RollDistinct(s.waiting);
    RollMembers(rest);
    RollMembers(s.waiting);
  }

  lemma {:induction false} OnlyRemovableLeave(s: Sys, now: nat, turns: nat)
    requires Distinct(s.waiting)
    ensures Trimmed(s, WaitTurns(s, now, turns), now)
    ensures Distinct(WaitTurns(s, now, turns).waiting)
    decreases turns
  {
    hide WaitTurn;
    if turns > 0 && s.waiting != [] {
      var v := TakeTurn(s, now, turns);
      OnlyRemovableLeave(v, now, turns - 1);
      TrimmedTransitive(s, v, WaitTurns(s, now, turns), now);
    }
  }

  /** A pass takes only removable threads off the queue and leaves the others as they were. */
  lemma PassTrims(s: Sys, now: nat)
    requires Distinct(s.waiting)
    ensures Trimmed(s, WaitPass(s, now), now) && Distinct(WaitPass(s, now).waiting)
  {
    OnlyRemovableLeave(s.(wakeWait := DELAY_MAX), now, |s.waiting|);
  }

  /** Turns up to the first removable thread only rotate the queue; the next turn removes it. */
  lemma {:induction false} FirstRemovableLeaves(s: Sys, now: nat, k: nat, turns: nat)
    requires Distinct(s.waiting) && k < |s.waiting| && k < turns
    requires Gone(s, s.waiting[k], now) && forall i :: 0 <= i < k ==> !Gone(s, s.waiting[i], now)
    ensures |WaitTurns(s, now, turns).waiting| < |s.waiting|
    decreases k
  {
    hide WaitTurn;
    var v := TakeTurn(s, now, turns);
    if k == 0 {
      OnlyRemovableLeave(v, now, turns - 1);
    } else {
      forall i | 0 <= i < k ensures v.waiting[i] == s.waiting[i + 1] {}
      FirstRemovableLeaves(v, now, k - 1, turns - 1);
    }
  }

  ghost predicate NoneRemovable(s: Sys, now: nat) {
    forall i :: 0 <= i < |s.waiting| ==> !Gone(s, s.waiting[i], now)
  }

  /** A pass removes at least one thread whenever any thread in the queue is removable. */
  lemma PassRemovesOne(s: Sys, now: nat)
    requires Distinct(s.waiting) && !NoneRemovable(s, now)
    ensures |WaitPass(s, now).waiting| < |s.waiting|
  {
    var k := 0;
    while !Gone(s, s.waiting[k], now)
      invariant 0 <= k < |s.waiting| && forall i :: 0 <= i < k ==> !Gone(s, s.waiting[i], now)
      decreases |s.waiting| - k
    {
      k := k + 1;
    }
    FirstRemovableLeaves(s.(wakeWait := DELAY_MAX), now, k, |s.waiting|);
  }

  /** Repeated passes with the clock standing still. */
  function Passes(s: Sys, now: nat, n: nat): Sys
    decreases n
  {
    if n == 0 then s else Passes(WaitPass(s, now), now, n - 1)
  }

  lemma {:induction false} PassesKeepNone(s: Sys, now: nat, n: nat)
    requires Distinct(s.waiting) && NoneRemovable(s, now)
    ensures NoneRemovable(Passes(s, now, n), now)
    decreases n
  {
    if n > 0 {
      var u := WaitPass(s, now);
      PassTrims(s, now);
      forall i | 0 <= i < |u.waiting| ensures !Gone(u, u.waiting[i], now) {
        assert u.waiting[i] in s.waiting;
      }
      PassesKeepNone(u, now, n - 1);
    }
  }

  /** As many passes as there are waiters leave nobody who could have been taken out. */
  lemma {:induction false} PassesDrain(s: Sys, now: nat, n: nat)
    requires Distinct(s.waiting) && |s.waiting| <= n
    ensures NoneRemovable(Passes(s, now, n), now)
    decreases n
  {
    if NoneRemovable(s, now) {
      PassesKeepNone(s, now, n);
    } else {
      PassRemovesOne(s, now);
      PassTrims(s, now);
      PassesDrain(WaitPass(s, now), now, n - 1);
    }
  }

  // ---------------------------------------------------------------- one pass

  /** Waiting for an event with a deadline. */
  predicate Timed(t: Thread) {
    t.state == Waiting && Timeout in t.flags
  }

  /**
   No removable thread has a removable one directly behind it, nor, when the clock matters, a timed waiter:
   the thread behind a removed one is rolled past without being looked at.
   */
  ghost predicate Clear(s: Sys, q: seq<Tid>, now: nat, clock: bool) {
    forall i :: 0 <= i < |q| - 1 && Gone(s, q[i], now) ==>
      !Gone(s, q[i + 1], now) && (clock ==> !Timed(Get(s, q[i + 1])))
  }

  /** Nothing more to do for these: not removable, and their deadlines are known to the wake-up time. */
  ghost predicate Settled(s: Sys, q: seq<Tid>, now: nat, clock: bool) {
    forall i :: 0 <= i < |q| ==> SettledOne(s, q[i], now, clock)
  }

  ghost predicate SettledOne(s: Sys, id: Tid, now: nat, clock: bool) {
    !Gone(s, id, now) && (clock && Timed(Get(s, id)) ==> s.wakeWait <= Get(s, id).delay - now)
  }

  /** A turn never puts the wake-up time off, and takes in the deadline of a head that stays. */
  lemma TurnClock(s: Sys, now: nat)
    requires s.waiting != []
    ensures WaitTurn(s, now).wakeWait <= s.wakeWait
    ensures !Gone(s, s.waiting[0], now) ==> SettledOne(WaitTurn(s, now), s.waiting[0], now, true)
  {
    WaitTurnEffect(s, now);
  }

  /** A turn leaves the other threads settled that were, and clear those that were. */
  lemma TurnKeeps(s: Sys, now: nat, clock: bool, front: seq<Tid>, done: seq<Tid>)
    requires s.waiting != [] && s.waiting[0] !in front && s.waiting[0] !in done
    requires Clear(s, front, now, clock) && Settled(s, done, now, clock)
    ensures Clear(WaitTurn(s, now), front, now, clock) && Settled(WaitTurn(s, now), done, now, clock)
  {
    WaitTurnEffect(s, now);
    TurnClock(s, now);
    var v := WaitTurn(s, now);
    assert forall id :: id in front || id in done ==> Get(v, id) == Get(s, id);
    hide WaitTurn;
  }

  lemma ClearTail(s: Sys, q: seq<Tid>, k: nat, now: nat, clock: bool)
    requires Clear(s, q, now, clock) && k <= |q|
    ensures Clear(s, q[k..], now, clock)
  {
  }

  lemma SettledMore(s: Sys, q: seq<Tid>, id: Tid, now: nat, clock: bool)
    requires Settled(s, q, now, clock) && SettledOne(s, id, now, clock)
    ensures Settled(s, q + [id], now, clock)
  {
  }

  lemma NotAmong(q: seq<Tid>, i: nat)
    requires Distinct(q) && i < |q|
    ensures q[i] !in q[..i] && q[i] !in q[i + 1..]
  {
  }

  lemma SettledRoll(s: Sys, q: seq<Tid>, now: nat, clock: bool)
    requires Settled(s, q, now, clock)
    ensures Settled(s, Roll(q), now, clock)
  {
    hide SettledOne;
    forall i | 0 <= i < |Roll(q)| ensures SettledOne(s, Roll(q)[i], now, clock) {
      assert Roll(q)[i] in q;
    }
  }

  /** One turn with nothing left to look at, or with a head that stays. */
  lemma StayStep(s: Sys, now: nat, clock: bool, front: seq<Tid>, done: seq<Tid>) returns (f: seq<Tid>, d: seq<Tid>)
    requires Distinct(s.waiting) && s.waiting == front + done != [] && !Gone(s, s.waiting[0], now)
    requires Clear(s, front, now, clock) && Settled(s, done, now, clock)
    ensures WaitTurn(s, now).waiting == f + d && |f| <= |front| && (front != [] ==> |f| < |front|)
    ensures Clear(WaitTurn(s, now), f, now, clock) && Settled(WaitTurn(s, now), d, now, clock)
  {
    WaitTurnEffect(s, now);
    TurnClock(s, now);
    NotAmong(s.waiting, 0);
    RollHead(s.waiting);
    hide WaitTurn, Clear, Settled, SettledOne, Gone, Distinct, Roll;
    var head, v := s.waiting[0], WaitTurn(s, now);
    f := if front == [] then [] else front[1..];
    var rest := if front == [] then done[1..] else done;
    assert s.waiting[1..] == f + rest;
    ClearSuffix(s, front, f, now, clock);
    SettledSuffix(s, done, rest, now, clock);
    NotInEither(f, rest, head);
    TurnKeeps(s, now, clock, f, rest);
    SettledEither(v, head, now, clock);
    SettledMore(v, rest, head, now, clock);
    d := rest + [head];
    assert f + rest + [head] == f + d;
  }

  lemma RollHead(q: seq<Tid>)
    requires q != []
    ensures Roll(q) == q[1..] + [q[0]]
  {
  }

  lemma NotInEither(a: seq<Tid>, b: seq<Tid>, id: Tid)
    requires id !in a + b
    ensures id !in a && id !in b
  {
  }

  lemma SettledEither(s: Sys, id: Tid, now: nat, clock: bool)
    requires SettledOne(s, id, now, true)
    ensures SettledOne(s, id, now, clock)
  {
  }

  lemma ClearSuffix(s: Sys, q: seq<Tid>, f: seq<Tid>, now: nat, clock: bool)
    requires Clear(s, q, now, clock) && f == if q == [] then [] else q[1..]
    ensures Clear(s, f, now, clock)
  {
    if q != [] { ClearTail(s, q, 1, now, clock); }
  }

  lemma SettledSuffix(s: Sys, q: seq<Tid>, r: seq<Tid>, now: nat, clock: bool)
    requires Settled(s, q, now, clock) && (r == q || (q != [] && r == q[1..]))
    ensures Settled(s, r, now, clock)
  {
  }

  /** One turn that removes the head and rolls past the thread behind it. */
  lemma LeaveStep(s: Sys, now: nat, clock: bool, front: seq<Tid>, done: seq<Tid>) returns (f: seq<Tid>, d: seq<Tid>)
    requires Distinct(s.waiting) && s.waiting == front + done != [] && Gone(s, s.waiting[0], now)
    requires Clear(s, front, now, clock) && Settled(s, done, now, clock)
    ensures WaitTurn(s, now).waiting == f + d && |f| < |front|
    ensures Clear(WaitTurn(s, now), f, now, clock) && Settled(WaitTurn(s, now), d, now, clock)
  {
    WaitTurnEffect(s, now);
    assert front != [];
    if |front| > 1 { assert SettledOne(s, front[1], now, clock); }
    hide WaitTurn, Clear, Settled, SettledOne, Gone, Distinct, Roll;
    if |front| == 1 {
      f, d := [], Roll(done);
      SkipInto(s.waiting, front, done);
      SettledRoll(s, done, now, clock);
      ClearNone(s, now, clock);
    } else {
      f, d := front[2..], done + [front[1]];
      SkipSecond(s.waiting, front, done);
      SettledMore(s, done, front[1], now, clock);
      ClearTail(s, front, 2, now, clock);
    }
    TurnKeeps(s, now, clock, f, d);
  }

  lemma SkipInto(q: seq<Tid>, front: seq<Tid>, done: seq<Tid>)
    requires Distinct(q) && q == front + done && |front| == 1
    ensures Roll(q[1..]) == [] + Roll(done) && q[0] !in Roll(done)
  {
    assert q[1..] == done;
    NotAmong(q, 0);
    RollMembers(done);
  }

  lemma SkipSecond(q: seq<Tid>, front: seq<Tid>, done: seq<Tid>)
    requires Distinct(q) && q == front + done && |front| > 1
    ensures Roll(q[1..]) == front[2..] + (done + [front[1]])
    ensures q[0] !in front[2..] && q[0] !in done + [front[1]]
  {
    assert q[1..] == [front[1]] + (front[2..] + done);
    RollHead(q[1..]);
    NotAmong(q, 0);
    assert q[1..][0] == front[1] && front[1] in q[1..];
    assert forall id :: id in front[2..] || id in done ==> id in q[1..];
  }

  lemma ClearNone(s: Sys, now: nat, clock: bool)
    ensures Clear(s, [], now, clock)
  {
  }

  /** Turns enough for the part not looked at yet settle the whole queue, when that part is clear. */
  lemma {:induction false} ClearTurns(s: Sys, now: nat, turns: nat, clock: bool, front: seq<Tid>, done: seq<Tid>)
    requires Distinct(s.waiting) && s.waiting == front + done && |front| <= turns
    requires Clear(s, front, now, clock) && Settled(s, done, now, clock)
    ensures Settled(WaitTurns(s, now, turns), WaitTurns(s, now, turns).waiting, now, clock)
    decreases turns
  {
    hide WaitTurn, Clear, Settled, Gone;
    if turns > 0 && s.waiting != [] {
      var t := TakeTurn(s, now, turns);
      var f, d;
      if Gone(s, s.waiting[0], now) {
        f, d := LeaveStep(s, now, clock, front, done);
      } else {
        f, d := StayStep(s, now, clock, front, done);
      }
      TurnDistinct(s, now);
      ClearTurns(WaitTurn(s, now), now, turns - 1, clock, f, d);
    } else {
      assert front == [] && done == s.waiting;
    }
  }

  lemma TurnDistinct(s: Sys, now: nat)
    requires Distinct(s.waiting) && s.waiting != []
    ensures Distinct(WaitTurn(s, now).waiting)
  {
    WaitTurnEffect(s, now);
    RollDistinct(s.waiting[1..]);
    RollDistinct(s.waiting);
  }

  /** A pass takes off every removable thread when no two of them stand directly behind each other. */
  lemma PassTakesAll(s: Sys, now: nat)
    requires Distinct(s.waiting) && Clear(s, s.waiting, now, false)
    ensures NoneRemovable(WaitPass(s, now), now)
  {
    var a := s.(wakeWait := DELAY_MAX);
    assert s.waiting + [] == s.waiting;
    ClearTurns(a, now, |s.waiting|, false, s.waiting, []);
  }

  /** The wake-up time is the cap or the remaining delay of a timed thread that stays. */
  ghost predicate Known(s: Sys, now: nat) {
    s.wakeWait == DELAY_MAX ||
    exists id :: id in s.waiting && Timed(Get(s, id)) && !Gone(s, id, now) && s.wakeWait == Get(s, id).delay - now
  }

  lemma {:induction false} TurnsKnow(s: Sys, now: nat, turns: nat)
    requires Known(s, now)
    ensures Known(WaitTurns(s, now, turns), now)
    decreases turns
  {
    if turns > 0 && s.waiting != [] {
      TurnKnows(s, now);
      TurnsKnow(WaitTurn(s, now), now, turns - 1);
    }
  }

  lemma TurnKnows(s: Sys, now: nat)
    requires Known(s, now) && s.waiting != []
    ensures Known(WaitTurn(s, now), now)
  {
    WaitTurnEffect(s, now);
    RollMembers(s.waiting);
    RollMembers(s.waiting[1..]);
    var head, v := s.waiting[0], WaitTurn(s, now);
    assert s.waiting == [head] + s.waiting[1..];
    if v.wakeWait != s.wakeWait {
      assert Get(v, head) == Get(s, head);
    } else if s.wakeWait != DELAY_MAX {
      var id :| id in s.waiting && Timed(Get(s, id)) && !Gone(s, id, now) && s.wakeWait == Get(s, id).delay - now;
      assert Get(v, id) == Get(s, id);
    }
  }

  /** No pass names a time that is nobody's: the wake-up time is never too early. */
  lemma PassWakeIsKnown(s: Sys, now: nat)
    ensures Known(WaitPass(s, now), now)
  {
    TurnsKnow(s.(wakeWait := DELAY_MAX), now, |s.waiting|);
  }

  /**
   A pass leaves the right wake-up time when no removable thread has a removable or a timed one directly
   behind it: the least remaining delay of all timed threads that stay, capped.
   */
  lemma PassTellsNextWake(s: Sys, now: nat)
    requires Distinct(s.waiting) && Clear(s, s.waiting, now, true)
    ensures var u := WaitPass(s, now);
      && NoneRemovable(u, now) && Known(u, now)
      && (forall id :: id in u.waiting && Timed(Get(u, id)) ==> u.wakeWait <= Get(u, id).delay - now)
  {
    hide Known;
    PassWakeIsKnown(s, now);
    var a := s.(wakeWait := DELAY_MAX);
    assert s.waiting + [] == s.waiting;
    ClearTurns(a, now, |s.waiting|, true, s.waiting, []);
    var u := WaitPass(s, now);
    forall id | id in u.waiting ensures SettledOne(u, id, now, true) {
      var i :| 0 <= i < |u.waiting| && u.waiting[i] == id;
    }
  }

  /** One pass is not enough: with a blocked thread ahead of two resumed ones, the second stays. */
  lemma OnePassCanMiss(s: Sys, a: Tid, b: Tid, c: Tid, now: nat)
    requires s.waiting == [a, b, c] && a != b && b != c && a != c && |s.ready| == PRIORITIES
    requires {a, b, c} <= s.threads.Keys && Get(s, b).prio < PRIORITIES
    requires Get(s, a).state == Waiting && Terminate !in Get(s, a).flags && Timeout !in Get(s, a).flags
    requires Get(s, b).state == Ready && Get(s, c).state == Ready
    ensures var u := WaitPass(s, now); u.waiting == [c, a] && Gone(u, c, now)
  {
    var s0 := s.(wakeWait := DELAY_MAX);
    var s1 := WaitTurn(s0, now);
    assert s1.waiting == [b, c, a];
    var s2 := WaitTurn(s1, now);
    assert s1.waiting[1..] == [c, a];
    assert s2.waiting == [a, c];
    var s3 := WaitTurn(s2, now);
    assert s3.waiting == [c, a];
    assert WaitTurns(s3, now, 0) == s3;
    assert WaitTurns(s2, now, 1) == s3;
    assert WaitTurns(s1, now, 2) == s3;
  }

  /**
   The wake-up time can be too late: a resumed thread is removed, the timed waiter behind it is rolled past,
   and the pass ends as if nobody had a deadline.
   */
  lemma WakeCanBeLate(s: Sys, a: Tid, b: Tid, c: Tid, now: nat)
    requires s.waiting == [a, b, c] && a != b && b != c && a != c && |s.ready| == PRIORITIES
    requires {a, b, c} <= s.threads.Keys && Get(s, b).prio < PRIORITIES && Get(s, b).state == Ready
    requires Get(s, a).state == Waiting && Terminate !in Get(s, a).flags && Timeout !in Get(s, a).flags
    requires Timed(Get(s, c)) && Terminate !in Get(s, c).flags && Get(s, c).delay == now + 5
    ensures var u := WaitPass(s, now);
        u.waiting == [c, a] && Timed(Get(u, c)) && Get(u, c).delay == now + 5 && u.wakeWait == DELAY_MAX
  {
    var s0 := s.(wakeWait := DELAY_MAX);
    var s1 := WaitTurn(s0, now);
    assert s1.waiting == [b, c, a];
    var s2 := WaitTurn(s1, now);
    assert s1.waiting[1..] == [c, a];
    assert s2.waiting == [a, c];
    var s3 := WaitTurn(s2, now);
    assert s3.waiting == [c, a];
    assert WaitTurns(s3, now, 0) == s3;
    assert WaitTurns(s2, now, 1) == s3;
    assert WaitTurns(s1, now, 2) == s3;
  }
}
