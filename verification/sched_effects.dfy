/**
 What each kernel call does, told in the threads' records and queues before and after it: who is woken and
 where it queues, where the caller goes, whom a kill marks, and what becomes of a marked thread.
 */
module SchedEffects {
  import opened Sched
  import opened SchedInv
  import opened SchedRuns
  import opened SchedSteps
  import opened SchedWait

  // ---------------------------------------------------------------- wake-ups

  /** The record of a thread that was woken: ready, with nothing left to wait for. */
  function Awakened(t: Thread): Thread {
    Thread(t.name, t.prio, Ready, t.flags - {Mutex, Event, Barrier, Completion, Timeout}, 0)
  }

  /** Some wake-up names the thread with an event it waits for. */
  predicate Named(t: Thread, id: Tid, wakes: seq<Wake>) {
    exists i :: 0 <= i < |wakes| && wakes[i].id == id &&
        wakes[i].flags * {Mutex, Event, Barrier, Completion} * t.flags != {}
  }

  /** The record after the wake-ups have come in. */
  function Notified(m: map<Tid, Thread>, id: Tid, wakes: seq<Wake>): Thread {
    var t := Record(m, id);
    if id in m && t.state == Waiting && Named(t, id, wakes) then Awakened(t) else t
  }

  lemma ResumeIs(s: Sys, wake: Wake, id: Tid)
    ensures var u := Resume(s, wake.flags * MASK_EVENTS, wake.id);
      Record(u.threads, id) == Notified(s.threads, id, [wake]) && u.threads.Keys == s.threads.Keys
      && u == s.(threads := u.threads)
  {
    var t := Record(s.threads, id);
    assert wake.flags * MASK_EVENTS * (t.flags * MASK_WAIT) == wake.flags * {Mutex, Event, Barrier,
        Completion} * t.flags;
    assert [wake][0] == wake;
    assert MASK_WAIT == {Mutex, Event, Barrier, Completion, Timeout};
    if wake.id == id && wake.flags * {Mutex, Event, Barrier, Completion} * t.flags != {} {
      assert Named(t, id, [wake]);
    }
  }

  /** All wake-ups together: each named waiter is ready, nobody moves, nothing else changes. */
  lemma {:induction false} ResumeAllIs(s: Sys, wakes: seq<Wake>)
    ensures var u := ResumeAll(s, wakes);
      && u.threads.Keys == s.threads.Keys && u == s.(threads := u.threads)
      && forall id :: Record(u.threads, id) == Notified(s.threads, id, wakes)
    decreases |wakes|
  {
    if wakes != [] {
      var v := Resume(s, wakes[0].flags * MASK_EVENTS, wakes[0].id);
      ResumeIs(s, wakes[0], 0);
      ResumeAllIs(v, wakes[1..]);
      forall id ensures Notified(v.threads, id, wakes[1..]) == Notified(s.threads, id, wakes) {
        ResumeIs(s, wakes[0], id);
        NotifiedStep(s.threads, v.threads, id, wakes);
      }
    }
  }

  lemma NotifiedStep(m: map<Tid, Thread>, n: map<Tid, Thread>, id: Tid, wakes: seq<Wake>)
    requires wakes != [] && n.Keys == m.Keys && Record(n, id) == Notified(m, id, [wakes[0]])
    ensures Notified(n, id, wakes[1..]) == Notified(m, id, wakes)
  {
    var t := Record(m, id);
    NamedStep(t, id, wakes);
  }

  lemma NamedStep(t: Thread, id: Tid, wakes: seq<Wake>)
    requires wakes != []
    ensures Named(t, id, wakes) <==> Named(t, id, [wakes[0]]) || Named(t, id, wakes[1..])
  {
    if Named(t, id, [wakes[0]]) { assert [wakes[0]][0] == wakes[0]; }
    if Named(t, id, wakes[1..]) {
      var i :| 0 <= i < |wakes| - 1 && wakes[1..][i].id == id
               && wakes[1..][i].flags * {Mutex, Event, Barrier, Completion} * t.flags != {};
      assert wakes[i + 1] == wakes[1..][i];
    }
    if Named(t, id, wakes) {
      var i :| 0 <= i < |wakes| && wakes[i].id == id &&
          wakes[i].flags * {Mutex, Event, Barrier, Completion} * t.flags != {};
      if i > 0 { assert wakes[1..][i - 1] == wakes[i]; } else { assert [wakes[0]][0] == wakes[i]; }
    }
  }

  // ---------------------------------------------------------------- an update

  /** The waiters an update may take off the queue: resumed, marked to die, past the deadline, or woken. */
  predicate Leaving(m: map<Tid, Thread>, id: Tid, env: Env) {
    var t := Record(m, id);
    t.state == Ready ||
    (t.state == Waiting && (Terminate in t.flags || (Timeout in t.flags &&
        t.delay <= env.waitClock) || Named(t, id, env.wakes)))
  }

  lemma LeavingIsGone(s: Sys, a: Sys, id: Tid, env: Env)
    requires Record(a.threads, id) == Notified(s.threads, id, env.wakes)
    ensures Gone(a, id, env.waitClock) <==> Leaving(s.threads, id, env)
  {
  }

  /** Nobody is overdue, and the due sleepers of each priority stand behind what stood in its queue, in order. */
  ghost predicate SleepersWoken(s: Sys, u: Sys, clock: nat) {
    && |u.ready| == |s.ready| && s.delayed == Due(s.threads, s.delayed, clock) + u.delayed
    && (forall id :: id in u.delayed ==> Record(u.threads, id).delay > clock)
    && forall p :: 0 <= p < |s.ready| ==>
        QueuedBehind(s.ready[p], u.ready[p], OfPriority(s.threads, Due(s.threads, s.delayed, clock), p))
  }

  /** A queue kept what it held, and `last` stands at its end. */
  ghost predicate QueuedBehind(before: seq<Tid>, after: seq<Tid>, last: seq<Tid>) {
    |before| + |last| <= |after| && after[..|before|] == before && after[|after| - |last|..] == last
  }

  /** Only leaving waiters left, at least one when any could, all of them when no two stood together. */
  ghost predicate WaitersSeen(s: Sys, u: Sys, env: Env) {
    && (forall id :: id in u.waiting ==> id in s.waiting)
    && (forall id :: id in s.waiting && id !in u.waiting ==> Leaving(s.threads, id, env))
    && ((exists id :: id in s.waiting && Leaving(s.threads, id, env)) ==> |u.waiting| < |s.waiting|)
    && ((forall i :: 0 <= i < |s.waiting| - 1 && Leaving(s.threads, s.waiting[i], env) ==>
        !Leaving(s.threads, s.waiting[i + 1], env)) ==>
          forall id :: id in u.waiting ==> !Leaving(s.threads, id, env))
  }

  /** The record of a waiter that was taken off the queue. */
  function TakenOff(t: Thread): Thread {
    if t.state != Waiting then t else if Terminate in t.flags then t.(state := Dead) else Awakened(t)
  }

  /** Every record afterwards: exactly the woken, the sleepers that were due and the leaving waiters changed. */
  ghost predicate RecordsMoved(s: Sys, u: Sys, env: Env) {
    forall id :: Record(u.threads, id) ==
      var n := Notified(s.threads, id, env.wakes);
      if id in s.delayed && id !in u.delayed then Awakened(n)
      else if id in s.waiting && id !in u.waiting then TakenOff(n)
      else n
  }

  /** A waiter that left is in the ready queue of its priority or, when it is to die, in the dead queue. */
  ghost predicate LeaversQueued(s: Sys, u: Sys) {
    forall id :: id in s.waiting && id !in u.waiting ==>
      var t := Record(u.threads, id);
      if t.state == Dead then id in u.dead else t.prio < |u.ready| && id in u.ready[t.prio]
  }

  /** Nobody a wake-up named still waits. */
  ghost predicate WakesDelivered(s: Sys, u: Sys, env: Env) {
    forall id :: id in s.threads && s.threads[id].state == Waiting && Named(s.threads[id], id, env.wakes) ==>
      Record(u.threads, id).state != Waiting
  }

  /** The time to the next deadline of a sleeper, capped. */
  ghost predicate SleepTimeTold(s: Sys, u: Sys, clock: nat) {
    s.delayed != [] ==>
      && u.wakeDelay <= 10000
      && (forall id :: id in u.delayed ==> clock + u.wakeDelay <= Record(u.threads, id).delay)
      && (u.wakeDelay < 10000 ==>
            exists id :: id in u.delayed && clock + u.wakeDelay == Record(u.threads, id).delay)
  }

  /**
   The time to the next deadline of a waiter: never too early, and right when no leaving waiter has a leaving or
   a timed one directly behind it.
   */
  ghost predicate WaitTimeTold(s: Sys, u: Sys, env: Env) {
    s.waiting != [] ==>
      && u.wakeWait <= 10000
      && (u.wakeWait < 10000 ==>
            exists id :: id in u.waiting && Timed(Record(u.threads, id)) &&
              env.waitClock + u.wakeWait == Record(u.threads, id).delay)
      && ((forall i :: 0 <= i < |s.waiting| - 1 && Leaving(s.threads, s.waiting[i], env) ==>
             !Leaving(s.threads, s.waiting[i + 1], env) &&
             !Timed(Notified(s.threads, s.waiting[i + 1], env.wakes))) ==>
          forall id :: id in u.waiting && Timed(Record(u.threads, id)) ==>
            env.waitClock + u.wakeWait <= Record(u.threads, id).delay)
  }

  /** All that an update does. */
  ghost predicate Updated(s: Sys, u: Sys, env: Env) {
    && SleepersWoken(s, u, env.delayClock) && WaitersSeen(s, u, env) && WakesDelivered(s, u, env)
    && SleepTimeTold(s, u, env.delayClock) && WaitTimeTold(s, u, env)
    && RecordsMoved(s, u, env) && LeaversQueued(s, u) && u.threads.Keys == s.threads.Keys && u.running == s.running
  }

  // ready queues only grow at the end during the pass over the waiters

  lemma WaitTurnAppends(s: Sys, now: nat, p: nat)
    requires s.waiting != [] && p < |s.ready|
    ensures var u := WaitTurn(s, now); |u.ready| == |s.ready| && s.ready[p] <= u.ready[p] && u.delayed == s.delayed
  {
  }

  lemma {:induction false} WaitTurnsAppend(s: Sys, now: nat, turns: nat, p: nat)
    requires p < |s.ready|
    ensures var u := WaitTurns(s, now, turns);
        |u.ready| == |s.ready| && s.ready[p] <= u.ready[p] && u.delayed == s.delayed
    decreases turns
  {
    hide WaitTurn;
    if turns > 0 && s.waiting != [] {
      WaitTurnAppends(s, now, p);
      WaitTurnsAppend(WaitTurn(s, now), now, turns - 1, p);
    }
  }

  /** Records of threads that do not wait keep their state in a pass over the waiters, and nobody starts to wait. */
  lemma WaitTurnAwake(s: Sys, now: nat, id: Tid)
    requires s.waiting != [] && Record(s.threads, id).state != Waiting
    ensures Record(WaitTurn(s, now).threads, id).state != Waiting
  {
  }

  lemma {:induction false} WaitTurnsAwake(s: Sys, now: nat, turns: nat, id: Tid)
    requires Record(s.threads, id).state != Waiting
    ensures Record(WaitTurns(s, now, turns).threads, id).state != Waiting
    decreases turns
  {
    hide WaitTurn;
    if turns > 0 && s.waiting != [] {
      WaitTurnAwake(s, now, id);
      WaitTurnsAwake(WaitTurn(s, now), now, turns - 1, id);
    }
  }

  lemma {:induction false} DelayTurnsAwake(s: Sys, now: nat, id: Tid)
    requires Record(s.threads, id).state != Waiting
    ensures Record(DelayTurns(s, now).threads, id).state != Waiting && DelayTurns(s, now).waiting == s.waiting
    decreases |s.delayed|
  {
    if s.delayed != [] && Get(s, s.delayed[0]).delay <= now { DelayTurnsAwake(DelayHead(s), now, id); }
  }

  /** The update up to and including the pass over the waiters. */
  function Attended(s: Sys, env: Env): Sys {
    var a := ResumeAll(s, env.wakes);
    if a.waiting == [] then a else WaitPass(a, env.waitClock)
  }

  lemma AttendedKeeps(s: Sys, apart: set<Tid>, env: Env)
    requires Placed(s, apart)
    ensures Placed(Attended(s, env), apart) && Keeps(s, Attended(s, env))
  {
    hide Keeps, Placed;
    var a := ResumeAll(s, env.wakes);
    ResumeAllKeepsPlaces(s, apart, env.wakes);
    ResumeAllKeeps(s, apart, env.wakes);
    WaitPassKeeps(a, apart, env.waitClock);
    KeepsTransitive(s, a, WaitPass(a, env.waitClock));
  }

  lemma AttendedQueues(s: Sys, env: Env)
    ensures var b := Attended(s, env);
      b.delayed == s.delayed && |b.ready| == |s.ready| && forall p :: 0 <= p < |s.ready| ==> s.ready[p] <= b.ready[p]
  {
    ResumeAllIs(s, env.wakes);
    var a := ResumeAll(s, env.wakes);
    forall p | 0 <= p < |s.ready| ensures |Attended(s, env).ready| == |s.ready| &&
        s.ready[p] <= Attended(s, env).ready[p] {
      WaitTurnsAppend(a.(wakeWait := DELAY_MAX), env.waitClock, |a.waiting|, p);
    }
    if a.waiting != [] && s.ready == [] { NoQueues(a.(wakeWait := DELAY_MAX), env.waitClock, |a.waiting|); }
    if s.ready != [] { WaitTurnsAppend(a.(wakeWait := DELAY_MAX), env.waitClock, |a.waiting|, 0); }
  }

  lemma {:induction false} NoQueues(s: Sys, now: nat, turns: nat)
    requires s.ready == []
    ensures WaitTurns(s, now, turns).ready == [] && WaitTurns(s, now, turns).delayed == s.delayed
    decreases turns
  {
    if turns > 0 && s.waiting != [] { NoQueues(WaitTurn(s, now), now, turns - 1); }
  }

  /** What the wake-ups and the pass mean for the waiters. */
  lemma AttendedWaiters(s: Sys, apart: set<Tid>, env: Env)
    requires Placed(s, apart)
    ensures WaitersSeen(s, Attended(s, env), env)
  {
    var a, b := ResumeAll(s, env.wakes), Attended(s, env);
    ResumeAllIs(s, env.wakes);
    WaitersDistinct(s, apart);
    forall id ensures Gone(a, id, env.waitClock) <==> Leaving(s.threads, id, env) { LeavingIsGone(s, a, id, env); }
    hide Gone, Leaving, Placed, ResumeAll;
    if a.waiting != [] {
      PassTrims(a, env.waitClock);
      SeenOne(s, a, b, env);
      SeenAll(s, a, b, env);
    }
  }

  lemma SeenOne(s: Sys, a: Sys, b: Sys, env: Env)
    requires a.waiting == s.waiting && Distinct(a.waiting) && b == WaitPass(a, env.waitClock)
    requires forall id :: Gone(a, id, env.waitClock) <==> Leaving(s.threads, id, env)
    ensures (exists id :: id in s.waiting && Leaving(s.threads, id, env)) ==> |b.waiting| < |s.waiting|
  {
    hide Gone, Leaving, WaitPass;
    if exists id :: id in s.waiting && Leaving(s.threads, id, env) {
      var id :| id in s.waiting && Leaving(s.threads, id, env);
      var i :| 0 <= i < |a.waiting| && a.waiting[i] == id;
      assert Gone(a, a.waiting[i], env.waitClock);
      PassRemovesOne(a, env.waitClock);
    }
  }

  lemma SeenAll(s: Sys, a: Sys, b: Sys, env: Env)
    requires a.waiting == s.waiting && Distinct(a.waiting) && b == WaitPass(a, env.waitClock)
    requires forall id :: Gone(a, id, env.waitClock) <==> Leaving(s.threads, id, env)
    ensures (forall i :: 0 <= i < |s.waiting| - 1 && Leaving(s.threads, s.waiting[i], env) ==>
               !Leaving(s.threads, s.waiting[i + 1], env)) ==>
            forall id :: id in b.waiting ==> !Leaving(s.threads, id, env)
  {
    hide Leaving, WaitPass;
    if forall i :: 0 <= i < |s.waiting| - 1 && Leaving(s.threads, s.waiting[i], env) ==>
         !Leaving(s.threads, s.waiting[i + 1], env)
    {
      PassTakesAll(a, env.waitClock);
      PassTrims(a, env.waitClock);
      forall id | id in b.waiting ensures !Leaving(s.threads, id, env) {
        var i :| 0 <= i < |b.waiting| && b.waiting[i] == id;
        assert !Gone(b, b.waiting[i], env.waitClock);
      }
    }
  }

  lemma AttendedWakes(s: Sys, env: Env)
    ensures WakesDelivered(s, Attended(s, env), env)
  {
    ResumeAllIs(s, env.wakes);
    var a := ResumeAll(s, env.wakes);
    forall id | id in s.threads && s.threads[id].state == Waiting && Named(s.threads[id], id, env.wakes)
      ensures Record(Attended(s, env).threads, id).state != Waiting
    {
      assert Record(a.threads, id).state == Ready;
      WaitTurnsAwake(a.(wakeWait := DELAY_MAX), env.waitClock, |a.waiting|, id);
    }
  }

  /** The pass over the sleepers, if there are any. */
  function Slept(b: Sys, clock: nat): Sys {
    if b.delayed == [] then b else DelayPass(b, clock)
  }

  lemma SleepersWake(b: Sys, apart: set<Tid>, clock: nat, p: nat)
    requires Placed(b, apart) && p < PRIORITIES
    ensures Woke(b, Slept(b, clock), clock, p)
  {
    assert |b.ready| == PRIORITIES;
    if b.delayed != [] {
      var c := b.(wakeDelay := DELAY_MAX);
      WakeFieldsDoNotMatter(b, c, apart);
      DelayWakesExactlyTheDue(c, apart, clock, p);
    }
  }

  lemma SleptRest(b: Sys, apart: set<Tid>, clock: nat)
    requires Placed(b, apart)
    ensures |Slept(b, clock).ready| == PRIORITIES
  {
    DelayPassKeeps(b, apart, clock);
    assert FitsAllReady(Slept(b, clock).threads, Slept(b, clock).ready);
  }

  lemma QueueBehind(s: Sys, b: Sys, u: Sys, clock: nat, p: nat)
    requires Woke(b, u, clock, p) && b.delayed == s.delayed && |b.ready| == |s.ready|
    requires p < |s.ready| && s.ready[p] <= b.ready[p]
    requires forall id :: id in s.delayed ==> Record(s.threads, id) == Record(b.threads, id)
    ensures s.delayed == Due(s.threads, s.delayed, clock) + u.delayed
    ensures QueuedBehind(s.ready[p], u.ready[p], OfPriority(s.threads, Due(s.threads, s.delayed, clock), p))
  {
    DueSame(s.threads, b.threads, s.delayed, clock, p);
    assert u.ready[p][..|s.ready[p]|] == b.ready[p][..|s.ready[p]|];
  }

  lemma SleepersDo(s: Sys, b: Sys, apart: set<Tid>, env: Env)
    requires Placed(b, apart) && Keeps(s, b) && b.delayed == s.delayed && |b.ready| == |s.ready|
    requires forall p :: 0 <= p < |s.ready| ==> s.ready[p] <= b.ready[p]
    requires SleepSorted(s.threads, s.delayed)
    ensures SleepersWoken(s, Slept(b, env.delayClock), env.delayClock)
  {
    var clock := env.delayClock;
    assert |b.ready| == PRIORITIES && forall id :: id in s.delayed ==> Record(s.threads, id) == Record(b.threads, id);
    NobodyOverdue(s, b, apart, clock);
    SleptRest(b, apart, clock);
    forall p | 0 <= p < PRIORITIES
      ensures s.delayed == Due(s.threads, s.delayed, clock) + Slept(b, clock).delayed
      ensures QueuedBehind(s.ready[p], Slept(b, clock).ready[p],
                           OfPriority(s.threads, Due(s.threads, s.delayed, clock), p))
    {
      SleepersWake(b, apart, clock, p);
      hide Keeps, Placed, Woke, QueuedBehind, Slept;
      QueueBehind(s, b, Slept(b, clock), clock, p);
    }
    hide Keeps, Placed, QueuedBehind, Slept, SleepSorted;
    assert 0 < PRIORITIES;
  }

  // ---------------------------------------------------------------- the records

  function AsWaiter(s: Sys, u: Sys, id: Tid): Thread {
    var t := Record(s.threads, id);
    if id in s.waiting && id !in u.waiting then TakenOff(t) else t
  }

  function AsSleeper(s: Sys, u: Sys, id: Tid): Thread {
    var t := Record(s.threads, id);
    if id in s.delayed && id !in u.delayed then Awakened(t) else t
  }

  lemma TurnRecord(s: Sys, apart: set<Tid>, now: nat, id: Tid)
    requires Placed(s, apart) && s.waiting != []
    ensures Record(WaitTurn(s, now).threads, id) == AsWaiter(s, WaitTurn(s, now), id)
  {
    var head, t := s.waiting[0], Get(s, s.waiting[0]);
    WaitTurnEffect(s, now);
    WaitersDistinct(s, apart);
    assert s.waiting == [head] + s.waiting[1..];
    RollMembers(s.waiting[1..]);
    RollMembers(s.waiting);
    assert FitsWait(t) by { assert head in s.waiting; }
    if id == head && Gone(s, id, now) { HeadRecord(s, apart, now); }
  }

  lemma HeadRecord(s: Sys, apart: set<Tid>, now: nat)
    requires Placed(s, apart) && s.waiting != [] && Gone(s, s.waiting[0], now)
    ensures Record(WaitTurn(s, now).threads, s.waiting[0]) == TakenOff(Record(s.threads, s.waiting[0]))
  {
    var t := Get(s, s.waiting[0]);
    assert FitsWait(t) by { assert s.waiting[0] in s.waiting; }
    if t.state == Waiting && Terminate !in t.flags { WaiterResumes(t); }
  }

  lemma {:induction false} TurnsRecords(s: Sys, apart: set<Tid>, now: nat, turns: nat, id: Tid)
    requires Placed(s, apart)
    ensures Record(WaitTurns(s, now, turns).threads, id) == AsWaiter(s, WaitTurns(s, now, turns), id)
    decreases turns
  {
    hide WaitTurn, Placed;
    if turns > 0 && s.waiting != [] {
      var v := WaitTurn(s, now);
      TurnRecord(s, apart, now, id);
      WaitTurnKeeps(s, apart, now);
      TurnsRecords(v, apart, now, turns - 1, id);
      WaitTurnsKeeps(v, apart, now, turns - 1);
    }
  }

  lemma {:induction false} DelayRecords(s: Sys, apart: set<Tid>, now: nat, id: Tid)
    requires Placed(s, apart)
    ensures Record(DelayTurns(s, now).threads, id) == AsSleeper(s, DelayTurns(s, now), id)
    decreases |s.delayed|
  {
    hide Placed, DelayHead;
    if s.delayed != [] && Get(s, s.delayed[0]).delay <= now {
      var v := DelayHead(s);
      DelayHeadRecord(s, apart, id);
      DelayHeadKeepsPlaces(s, apart);
      DelayRecords(v, apart, now, id);
      DelayTurnsKeeps(v, apart, now);
      assert s.delayed == [s.delayed[0]] + s.delayed[1..];
    }
  }

  lemma DelayHeadRecord(s: Sys, apart: set<Tid>, id: Tid)
    requires Placed(s, apart) && s.delayed != []
    ensures s.delayed[0] !in s.delayed[1..] && Record(DelayHead(s).threads, id) ==
      if id == s.delayed[0] then Awakened(Record(s.threads, id)) else Record(s.threads, id)
  {
    var head := s.delayed[0];
    LooseFromDelay(s, apart);
    NotLinked(s.(delayed := s.delayed[1..]), apart, s.threads.Keys - {head}, head);
    assert FitsDelay(Get(s, head)) by { assert head in s.delayed; }
    assert Timeout in {Timeout} * (Get(s, head).flags * MASK_WAIT);
  }

  lemma NotInBoth(s: Sys, apart: set<Tid>, id: Tid)
    requires Placed(s, apart) && id in s.delayed
    ensures id !in s.waiting
  {
    OccIn(s.delayed, id);
    OccIn(s.waiting, id);
    assert Places(s, apart, id) <= 1;
  }

  lemma AttendedRecords(s: Sys, apart: set<Tid>, env: Env, id: Tid)
    requires Placed(s, apart)
    ensures var b := Attended(s, env); var n := Notified(s.threads, id, env.wakes);
      Record(b.threads, id) == if id in s.waiting && id !in b.waiting then TakenOff(n) else n
  {
    var a := ResumeAll(s, env.wakes);
    ResumeAllIs(s, env.wakes);
    ResumeAllKeepsPlaces(s, apart, env.wakes);
    var c := a.(wakeWait := DELAY_MAX);
    WakeFieldsDoNotMatter(a, c, apart);
    hide Placed;
    TurnsRecords(c, apart, env.waitClock, |a.waiting|, id);
  }

  lemma SleptRecords(b: Sys, apart: set<Tid>, clock: nat, id: Tid)
    requires Placed(b, apart)
    ensures Record(Slept(b, clock).threads, id) == AsSleeper(b, Slept(b, clock), id)
  {
    var c := b.(wakeDelay := DELAY_MAX);
    WakeFieldsDoNotMatter(b, c, apart);
    hide Placed;
    DelayRecords(c, apart, clock, id);
  }

  lemma RecordsDo(s: Sys, apart: set<Tid>, env: Env)
    requires Placed(s, apart)
    ensures RecordsMoved(s, Slept(Attended(s, env), env.delayClock), env)
  {
    var b := Attended(s, env);
    var u := Slept(b, env.delayClock);
    AttendedKeeps(s, apart, env);
    AttendedQueues(s, env);
    hide Attended, Slept, Placed, Keeps, Notified, TakenOff, Awakened;
    forall id ensures Record(u.threads, id) ==
        (var n := Notified(s.threads, id, env.wakes);
         if id in s.delayed && id !in u.delayed then Awakened(n)
         else if id in s.waiting && id !in u.waiting then TakenOff(n)
         else n) {
      AttendedRecords(s, apart, env, id);
      SleptRecords(b, apart, env.delayClock, id);
      SleepersLeaveWaiters(b, env.delayClock, id);
      if id in s.delayed { NotInBoth(s, apart, id); }
    }
  }

  lemma UpdateIs(s: Sys, env: Env)
    ensures Update(s, env) == Slept(Attended(s, env), env.delayClock)
  {
  }

  lemma UpdateFrame(s: Sys, apart: set<Tid>, env: Env)
    requires Placed(s, apart)
    ensures var u := Update(s, env);
      Placed(u, apart) && u.threads.Keys == s.threads.Keys && u.running == s.running
  {
    hide Placed;
    UpdateKeeps(s, apart, env);
    hide Update;
  }

  /** What an update does, for any state with everybody in place. */
  lemma UpdateDoes(s: Sys, apart: set<Tid>, env: Env)
    requires Placed(s, apart) && SleepSorted(s.threads, s.delayed)
    ensures Updated(s, Update(s, env), env)
  {
    hide *;
    var b, u := Attended(s, env), Update(s, env);
    UpdateIs(s, env);
    UpdateFrame(s, apart, env);
    AttendedKeeps(s, apart, env);
    AttendedQueues(s, env);
    AttendedWaiters(s, apart, env);
    AttendedWakes(s, env);
    SleepersDo(s, b, apart, env);
    RecordsDo(s, apart, env);
    SleepersLeaveWaiters(b, env.delayClock, 0);
    forall id | Record(b.threads, id).state != Waiting ensures Record(u.threads, id).state != Waiting {
      SleepersLeaveWaiters(b, env.delayClock, id);
    }
    SeenLater(s, b, u, env);
    LeaversDo(s, u, apart, env);
    SleepTimeDoes(s, b, apart, env.delayClock);
    WaitTimeDoes(s, b, apart, env);
    StillAwake(s, b, u, env);
    UpdatedIs(s, u, env);
  }

  /** A thread that is ready, dead or running and not in the wait queue has its place told by its record. */
  lemma PlaceByState(s: Sys, apart: set<Tid>, id: Tid)
    requires Placed(s, apart) && id in s.threads && id !in s.waiting
    ensures s.threads[id].state == Dead ==> id in s.dead
    ensures s.threads[id].state == Ready ==> s.threads[id].prio < |s.ready| && id in s.ready[s.threads[id].prio]
  {
    assert Places(s, apart, id) == 1;
    OccIn(s.delayed, id);
    OccIn(s.waiting, id);
    OccIn(s.dead, id);
    if id in s.delayed { assert FitsDelay(Record(s.threads, id)); }
    if ReadyOcc(s.ready, id) > 0 {
      var r := ReadyOccIn(s.ready, id);
      assert FitsReady(s.threads, s.ready[r], r);
    }
  }

  lemma LeaversDo(s: Sys, u: Sys, apart: set<Tid>, env: Env)
    requires Placed(s, apart) && Placed(u, apart) && RecordsMoved(s, u, env) && WaitersSeen(s, u, env)
    requires u.threads.Keys == s.threads.Keys
    ensures LeaversQueued(s, u)
  {
    forall id | id in s.waiting && id !in u.waiting
      ensures var t := Record(u.threads, id);
              if t.state == Dead then id in u.dead else t.prio < |u.ready| && id in u.ready[t.prio]
    {
      OccIn(s.waiting, id);
      Live(s, apart, id);
      LeaverAwake(s, u, env, id);
      hide *;
      PlaceByState(u, apart, id);
    }
  }

  lemma LeaverAwake(s: Sys, u: Sys, env: Env, id: Tid)
    requires RecordsMoved(s, u, env) && WaitersSeen(s, u, env) && id in s.waiting && id !in u.waiting
    requires id in s.threads
    ensures Record(u.threads, id).state == Ready || Record(u.threads, id).state == Dead
  {
    hide WakesDelivered, Named;
  }

  lemma SleepTimeDoes(s: Sys, b: Sys, apart: set<Tid>, clock: nat)
    requires Placed(b, apart) && Keeps(s, b) && b.delayed == s.delayed && SleepSorted(s.threads, s.delayed)
    ensures SleepTimeTold(s, Slept(b, clock), clock)
  {
    if b.delayed != [] {
      SuffixSorted(s, b);
      DelayHeadGivesMinimum(b, apart, clock);
    }
  }

  lemma {:induction false} DelayTurnsWaiters(s: Sys, apart: set<Tid>, now: nat, id: Tid)
    requires Placed(s, apart) && id in s.waiting
    ensures DelayTurns(s, now).wakeWait == s.wakeWait
    ensures Record(DelayTurns(s, now).threads, id) == Record(s.threads, id)
  {
    DelayTurnsQueue(s, now);
    DelayRecords(s, apart, now, id);
    if id in s.delayed { NotInBoth(s, apart, id); }
  }

  lemma {:induction false} TurnsCap(s: Sys, now: nat, turns: nat)
    ensures WaitTurns(s, now, turns).wakeWait <= s.wakeWait
    decreases turns
  {
    if turns > 0 && s.waiting != [] {
      TurnClock(s, now);
      TurnsCap(WaitTurn(s, now), now, turns - 1);
    }
  }

  lemma WaitTimeDoes(s: Sys, b: Sys, apart: set<Tid>, env: Env)
    requires Placed(s, apart) && b == Attended(s, env) && Placed(b, apart)
    ensures WaitTimeTold(s, Slept(b, env.delayClock), env)
  {
    if s.waiting != [] {
      var a, u := ResumeAll(s, env.wakes), Slept(b, env.delayClock);
      ResumeAllIs(s, env.wakes);
      WaitersDistinct(s, apart);
      PassWakeIsKnown(a, env.waitClock);
      TurnsCap(a.(wakeWait := DELAY_MAX), env.waitClock, |a.waiting|);
      hide Placed, WaitPass, ResumeAll, Leaving, Notified, MASK_EVENTS;
      WaitersStay(b, apart, env.delayClock);
      if forall i :: 0 <= i < |s.waiting| - 1 && Leaving(s.threads, s.waiting[i], env) ==>
           !Leaving(s.threads, s.waiting[i + 1], env) && !Timed(Notified(s.threads, s.waiting[i + 1], env.wakes)) {
        TimeTold(s, a, env);
      }
    }
  }

  lemma TimeTold(s: Sys, a: Sys, env: Env)
    requires a.waiting == s.waiting && Distinct(a.waiting)
    requires forall id :: Record(a.threads, id) == Notified(s.threads, id, env.wakes)
    requires forall i :: 0 <= i < |s.waiting| - 1 && Leaving(s.threads, s.waiting[i], env) ==>
      !Leaving(s.threads, s.waiting[i + 1], env) && !Timed(Notified(s.threads, s.waiting[i + 1], env.wakes))
    ensures var u := WaitPass(a, env.waitClock);
      forall id :: id in u.waiting && Timed(Get(u, id)) ==> u.wakeWait <= Get(u, id).delay - env.waitClock
  {
    forall id ensures Gone(a, id, env.waitClock) <==> Leaving(s.threads, id, env) { LeavingIsGone(s, a, id, env); }
    hide Leaving, Notified, Gone, WaitPass;
    PassTellsNextWake(a, env.waitClock);
  }

  lemma WaitersStay(b: Sys, apart: set<Tid>, clock: nat)
    requires Placed(b, apart)
    ensures var u := Slept(b, clock); u.waiting == b.waiting && u.wakeWait == b.wakeWait
    ensures forall id :: id in b.waiting ==> Record(Slept(b, clock).threads, id) == Record(b.threads, id)
  {
    var c := b.(wakeDelay := DELAY_MAX);
    WakeFieldsDoNotMatter(b, c, apart);
    DelayTurnsQueue(c, clock);
    hide Placed;
    forall id | id in b.waiting ensures Record(Slept(b, clock).threads, id) == Record(b.threads, id) {
      DelayTurnsWaiters(c, apart, clock, id);
    }
  }

  lemma StillAwake(s: Sys, b: Sys, u: Sys, env: Env)
    requires WakesDelivered(s, b, env)
    requires forall id :: Record(b.threads, id).state != Waiting ==> Record(u.threads, id).state != Waiting
    ensures WakesDelivered(s, u, env)
  {
  }

  lemma UpdatedIs(s: Sys, u: Sys, env: Env)
    requires SleepersWoken(s, u, env.delayClock) && WaitersSeen(s, u, env) && WakesDelivered(s, u, env)
    requires SleepTimeTold(s, u, env.delayClock) && WaitTimeTold(s, u, env)
    requires RecordsMoved(s, u, env) && LeaversQueued(s, u)
    requires u.threads.Keys == s.threads.Keys && u.running == s.running
    ensures Updated(s, u, env)
  {
  }

  lemma SleepersLeaveWaiters(b: Sys, clock: nat, id: Tid)
    ensures var u := Slept(b, clock);
      u.waiting == b.waiting && (Record(b.threads, id).state != Waiting ==> Record(u.threads, id).state != Waiting)
  {
    var c := b.(wakeDelay := DELAY_MAX);
    DelayTurnsQueue(c, clock);
    if Record(b.threads, id).state != Waiting { DelayTurnsAwake(c, clock, id); }
  }

  lemma {:induction false} DelayTurnsQueue(s: Sys, now: nat)
    ensures DelayTurns(s, now).waiting == s.waiting && DelayTurns(s, now).wakeWait == s.wakeWait
    decreases |s.delayed|
  {
    if s.delayed != [] && Get(s, s.delayed[0]).delay <= now { DelayTurnsQueue(DelayHead(s), now); }
  }

  lemma NobodyOverdue(s: Sys, b: Sys, apart: set<Tid>, clock: nat)
    requires Placed(b, apart) && Keeps(s, b) && b.delayed == s.delayed && SleepSorted(s.threads, s.delayed)
    ensures var u := Slept(b, clock); forall id :: id in u.delayed ==> Record(u.threads, id).delay > clock
  {
    if b.delayed != [] {
      SuffixSorted(s, b);
      DelayHeadGivesMinimum(b, apart, clock);
    }
  }

  lemma SeenLater(s: Sys, b: Sys, u: Sys, env: Env)
    requires WaitersSeen(s, b, env) && u.waiting == b.waiting
    ensures WaitersSeen(s, u, env)
  {
  }
}
