/**
 Kernel calls told in records and queues: who may run next, where the caller goes, whom a kill marks. From
 these follow that giving up the processor lets others run and that a marked thread never runs again.
 */
module SchedCalls {
  import opened Sched
  import opened SchedInv
  import opened SchedRuns
  import opened SchedSteps
  import opened SchedWait
  import opened SchedEffects

  // ---------------------------------------------------------------- the records after a choice

  /** What a choice makes of a record: dead for those passed over, running for the chosen one. */
  function Chose(t: Thread, gone: bool, chosen: bool): Thread {
    if gone then t.(state := Dead) else if chosen then t.(state := Running) else t
  }

  lemma {:induction false} NewRunnerRecords(s: Sys, q: nat, id: Tid)
    requires q < |s.ready| && forall x :: x in s.ready[q] ==> x in s.threads
    ensures var (u, found) := NewRunner(s, q);
      && Record(u.threads, id) == Chose(Record(s.threads, id), id in MarkedPrefix(s, s.ready[q]),
                                        found && u.running == Some(id))
      && u.wakeWait == s.wakeWait && u.wakeDelay == s.wakeDelay
    decreases |s.ready[q]|
  {
    var Q := s.ready[q];
    if Q != [] && Doomed(s, Q[0]) {
      var v := PushDead(ReadyRest(s, q), Q[0]);
      MarkedPrefixSame(s, v, Q[1..]);
      NewRunnerRecords(v, q, id);
      NewRunnerChooses(v, q);
      MarkedPrefixMeaning(v, Q[1..]);
    }
  }

  lemma {:induction false} PickRecords(s: Sys, q: nat, p: nat, id: Tid)
    requires |s.ready| == PRIORITIES && ReadyLive(s) && q < PRIORITIES && Picked(s, Pick(s, q), q, p)
    ensures var u := Pick(s, q);
      && Record(u.threads, id) == Chose(Record(s.threads, id), id in PassedOver(s, q, p), u.running == Some(id))
      && u.wakeWait == s.wakeWait && u.wakeDelay == s.wakeDelay
    decreases PRIORITIES - q
  {
    NewRunnerRecords(s, q, id);
    NewRunnerChooses(s, q);
    MarkedPrefixMeaning(s, s.ready[q]);
    var (v, found) := NewRunner(s, q);
    hide NewRunner, Picked, Buried, ReadyLive;
    if found {
      FoundHere(s, q, p);
    } else {
      FoundLater(s, v, q, p);
      PickRecords(v, q + 1, p, id);
      RunnerUnmarked(s, v, Pick(v, q + 1), q, p);
    }
  }

  lemma FoundHere(s: Sys, q: nat, p: nat)
    requires Picked(s, Pick(s, q), q, p) && |MarkedPrefix(s, s.ready[q])| < |s.ready[q]|
    ensures p == q
  {
    MarkedPrefixMeaning(s, s.ready[q]);
    var n := |MarkedPrefix(s, s.ready[q])|;
    assert !Doomed(s, s.ready[q][n]) && s.ready[q][n] in s.ready[q];
  }

  lemma FoundLater(s: Sys, v: Sys, q: nat, p: nat)
    requires Picked(s, Pick(s, q), q, p) && |MarkedPrefix(s, s.ready[q])| >= |s.ready[q]| && q < PRIORITIES
    requires v == NewRunner(s, q).0 && !NewRunner(s, q).1 && |s.ready| == PRIORITIES && ReadyLive(s)
    requires v.ready == s.ready[q := []] && Buried(s, v, MarkedPrefix(s, s.ready[q]))
    ensures q < p < PRIORITIES && |v.ready| == PRIORITIES && ReadyLive(v) && Picked(v, Pick(v, q + 1), q + 1, p)
    ensures PassedOver(s, q, p) == MarkedPrefix(s, s.ready[q]) + PassedOver(v, q + 1, p)
  {
    MarkedPrefixMeaning(s, s.ready[q]);
    assert s.ready[q] == MarkedPrefix(s, s.ready[q]);
    assert Pick(s, q) == Pick(v, q + 1);
    forall id ensures Doomed(s, id) == Doomed(v, id) {}
    MarkedPrefixSame(s, v, s.ready[p]);
    PassedOverSame(s, v, q + 1, p);
  }

  lemma RunnerUnmarked(s: Sys, v: Sys, u: Sys, q: nat, p: nat)
    requires q < |s.ready| && Picked(v, u, q + 1, p) && Buried(s, v, MarkedPrefix(s, s.ready[q]))
    ensures u.running.Some? && u.running.value !in MarkedPrefix(s, s.ready[q])
  {
    MarkedPrefixMeaning(v, v.ready[p]);
    MarkedPrefixMeaning(s, s.ready[q]);
    assert !Doomed(v, u.running.value);
    assert !Doomed(s, u.running.value);
  }

  // ---------------------------------------------------------------- schedule_thread

  /**
   The choice after an update: the first unmarked thread of the best queue that has one runs, those passed over
   and the dead are released, and nobody else changes.
   */
  ghost predicate Chosen(u: Sys, w: Sys, p: nat) {
    && Picked(u, w, 0, p) && w.dead == [] && w.delayed == u.delayed && w.waiting == u.waiting
    && w.wakeWait == u.wakeWait && w.wakeDelay == u.wakeDelay
    && w.threads.Keys == u.threads.Keys - Members(u.dead + PassedOver(u, 0, p))
    && forall id :: id in w.threads ==>
        w.threads[id] == if w.running == Some(id) then Record(u.threads, id).(state := Running)
                         else Record(u.threads, id)
  }

  /** An update, then a choice. */
  ghost predicate Scheduled(s: Sys, w: Sys, env: Env) {
    exists u, p :: Updated(s, u, env) && Placed(u, {}) && Chosen(u, w, p)
  }

  lemma ScheduleDoes(s: Sys, env: Env) returns (u: Sys, p: nat)
    requires Choosing(s)
    ensures Updated(s, u, env) && Placed(u, {}) && Keeps(s, u) && Chosen(u, Schedule(s, env), p)
    ensures Scheduled(s, Schedule(s, env), env)
  {
    u := Update(s, env);
    UpdateKeeps(s, {}, env);
    KeepsSafety(s, u);
    UpdateDoes(s, {}, env);
    IdleCanBePicked(u);
    ReadyAllLive(u, {});
    var gone;
    p, gone := PickChooses(u, 0);
    PickKeepsPlaces(u, 0);
    assert |u.ready| == PRIORITIES;
    hide Placed, Updated, Keeps, Choosing, Update, Pick, CanPick;
    ChosenIs(u, Pick(u, 0), p, gone);
  }

  lemma ChosenIs(u: Sys, v: Sys, p: nat, gone: seq<Tid>)
    requires |u.ready| == PRIORITIES && ReadyLive(u) && v == Pick(u, 0) && Picked(u, v, 0, p)
    requires gone == PassedOver(u, 0, p) && Buried(u, v, gone)
    requires v.running.Some? && Placed(v, {v.running.value})
    ensures Chosen(u, HouseKeep(v), p)
  {
    var w := HouseKeep(v);
    HouseKeepReleases(v);
    forall id | id in w.threads
      ensures w.threads[id] == if w.running == Some(id) then Record(u.threads, id).(state := Running)
                               else Record(u.threads, id) {
      hide Placed, Pick, Picked, HouseKeep, ReadyLive, PassedOver;
      PickRecords(u, 0, p, id);
    }
    hide Placed, Pick, HouseKeep, ReadyLive, PassedOver;
    PickRecords(u, 0, p, 0);
  }

  /** What that means at once: nobody left asleep is overdue, and nobody a wake-up named still waits. */
  lemma ScheduleDelivers(s: Sys, w: Sys, env: Env)
    requires Scheduled(s, w, env) && Inv(w)
    ensures forall id :: id in w.delayed ==> Record(w.threads, id).delay > env.delayClock
    ensures forall id :: id in s.threads && s.threads[id].state == Waiting && Named(s.threads[id], id, env.wakes) ==>
      Record(w.threads, id).state != Waiting
  {
    var u, p :| Updated(s, u, env) && Placed(u, {}) && Chosen(u, w, p);
    assert SleepersWoken(s, u, env.delayClock) && WakesDelivered(s, u, env);
    hide Updated, SleepersWoken, WakesDelivered, Named;
    forall id | id in w.delayed ensures Record(w.threads, id).delay > env.delayClock {
      OccIn(w.delayed, id);
      Live(w, {w.running.value}, id);
      assert id in u.delayed by { hide *; assert w.delayed == u.delayed by { ChosenQueues(u, w, p); } }
      ChosenDelay(u, w, p, id);
      assert Record(u.threads, id).delay > env.delayClock by { StillAsleep(s, u, env.delayClock, id); }
    }
    hide Inv, Placed;
    forall id | id in s.threads && s.threads[id].state == Waiting && Named(s.threads[id], id, env.wakes)
      ensures Record(w.threads, id).state != Waiting {
      assert Record(u.threads, id).state != Waiting by { NamedWoke(s, u, env, id); }
      ChosenDelay(u, w, p, id);
    }
  }

  lemma ChosenQueues(u: Sys, w: Sys, p: nat)
    requires Chosen(u, w, p)
    ensures w.delayed == u.delayed && w.waiting == u.waiting
  {
  }

  lemma ChosenDelay(u: Sys, w: Sys, p: nat, id: Tid)
    requires Chosen(u, w, p)
    ensures id in w.threads ==> Record(w.threads, id).delay == Record(u.threads, id).delay
    ensures Record(w.threads, id).state == Waiting ==> Record(u.threads, id).state == Waiting
  {
  }

  lemma StillAsleep(s: Sys, u: Sys, clock: nat, id: Tid)
    requires SleepersWoken(s, u, clock) && id in u.delayed
    ensures Record(u.threads, id).delay > clock
  {
  }

  lemma NamedWoke(s: Sys, u: Sys, env: Env, id: Tid)
    requires WakesDelivered(s, u, env)
    requires id in s.threads && s.threads[id].state == Waiting && Named(s.threads[id], id, env.wakes)
    ensures Record(u.threads, id).state != Waiting
  {
  }

  // ---------------------------------------------------------------- where a call puts threads

  /** The caller is ready and last in the queue of its priority; nothing else changed. */
  ghost predicate QueuedLast(s: Sys, y: Sys, me: Tid) {
    var t := Record(s.threads, me);
    && t.prio < |s.ready|
    && y == s.(threads := s.threads[me := Thread(t.name, t.prio, Ready, t.flags, t.delay)],
               ready := s.ready[t.prio := s.ready[t.prio] + [me]])
  }

  lemma YieldQueues(s: Sys, me: Tid)
    requires Placed(s, {me})
    ensures QueuedLast(s, Yield(s, me), me)
  {
    LooseFromRunning(s, me);
  }

  /** The caller waits for a deadline only, behind every sleeper not later and ahead of all later ones. */
  ghost predicate LaidDown(s: Sys, y: Sys, me: Tid, at: nat) {
    var t := Record(s.threads, me);
    && y == s.(threads := y.threads, delayed := y.delayed)
    && y.threads == s.threads[me := Thread(t.name, t.prio, Waiting,
                                           t.flags - {Mutex, Event, Barrier, Completion} + {Timeout}, at)]
    && exists k :: 0 <= k <= |s.delayed| && y.delayed == s.delayed[..k] + [me] + s.delayed[k..]
        && (forall i :: 0 <= i < k ==> Record(s.threads, s.delayed[i]).delay <= at)
        && (forall i :: k <= i < |s.delayed| ==> at < Record(s.threads, s.delayed[i]).delay)
  }

  lemma SleepLaysDown(s: Sys, me: Tid, at: nat)
    requires Inv(s) && me == s.running.value
    ensures LaidDown(s, Sleep(s, me, at), me, at)
  {
    var k := DelayInsertAt(s, s.delayed, me, at);
    var t := Record(s.threads, me);
    assert t.flags - MASK_WAIT + {Timeout} == t.flags - {Mutex, Event, Barrier, Completion} + {Timeout};
  }

  /** The caller waits for these events at the end of the wait queue, with a deadline when `msecs` is not 0. */
  ghost predicate Blocked(s: Sys, y: Sys, me: Tid, flags: set<Flag>, msecs: nat, clock: nat) {
    var t := Record(s.threads, me);
    var kept := t.flags - {Mutex, Event, Barrier, Completion, Timeout};
    var events := flags * {Mutex, Event, Barrier, Completion};
    y == s.(threads := s.threads[me := if msecs == 0 then Thread(t.name, t.prio, Waiting, kept + events, 0)
                                       else Thread(t.name, t.prio, Waiting, kept + events + {Timeout}, clock + msecs)],
            waiting := s.waiting + [me])
  }

  lemma BlockBlocks(s: Sys, me: Tid, flags: set<Flag>, msecs: nat, clock: nat)
    ensures Blocked(s, Block(s, me, flags, msecs, clock), me, flags, msecs, clock)
  {
    assert MASK_EVENTS == {Mutex, Event, Barrier, Completion};
    assert MASK_WAIT == {Mutex, Event, Barrier, Completion, Timeout};
  }

  /** The thread is dead and last in the dead queue. */
  ghost predicate LaidToRest(s: Sys, y: Sys, id: Tid) {
    var t := Record(s.threads, id);
    y == s.(threads := s.threads[id := Thread(t.name, t.prio, Dead, t.flags, t.delay)], dead := s.dead + [id])
  }

  /** The thread is marked to die; only an untimed mutex waiter is also queued as dead. */
  ghost predicate Condemned(s: Sys, w: Sys, id: Tid) {
    var t := Record(s.threads, id);
    var waits := t.flags * {Mutex, Event, Barrier, Completion, Timeout};
    if t.state == Ready then
      w == s.(threads := s.threads[id := Thread(t.name, t.prio, Ready, t.flags + {Terminate}, t.delay)])
    else
      var u := Thread(t.name, t.prio, if waits == {Mutex} then Dead else Waiting, t.flags - waits + {Terminate},
                      t.delay);
      w == s.(threads := s.threads[id := u], dead := if waits == {Mutex} then s.dead + [id] else s.dead)
  }

  /** A kill panics exactly for the two system threads, for a free slot, for a dead thread, or when not cancelled. */
  predicate KillPanics(s: Sys, id: Tid, cancelled: bool) {
    id !in s.threads || id == 0 || id == 1 || s.threads[id].state == Dead ||
    (s.threads[id].state == Waiting && !cancelled &&
     exists f :: s.threads[id].flags * {Mutex, Event, Barrier, Completion, Timeout} == {f} && f != Timeout)
  }

  lemma KillMarks(s: Sys, id: Tid, cancelled: bool)
    requires Inv(s) && id != s.running.value
    ensures Remove(s, id, cancelled).Panic? <==> KillPanics(s, id, cancelled)
    ensures Remove(s, id, cancelled).Continue? ==> Condemned(s, Remove(s, id, cancelled).s, id)
  {
    if id in s.threads {
      var t := s.threads[id];
      var kinds := t.flags * MASK_WAIT;
      assert kinds == t.flags * {Mutex, Event, Barrier, Completion, Timeout};
      assert t.flags - MASK_WAIT == t.flags - kinds;
      if t.state == Running { RunningIsApart(s, {s.running.value}, id); }
      SingleKind(kinds);
    }
  }

  lemma SingleKind(kinds: set<Flag>)
    requires kinds <= MASK_WAIT
    ensures kinds in {{Event}, {Barrier}, {Completion}, {Mutex}} <==> exists f :: kinds == {f} && f != Timeout
  {
    if f :| kinds == {f} && f != Timeout { assert f in kinds; }
  }

  /** A new thread takes the first free slot and queues last, unless the table, the name or the priority forbids it. */
  ghost predicate Created(s: Sys, w: Sys, name: string, prio: nat, ownStack: bool, made: Option<Tid>) {
    var short := if |name| <= 15 then name else name[..15];
    match made
    case None =>
      && w == s
      && (|| prio >= 4 || (forall j :: 0 <= j < 20 ==> j in s.threads)
          || exists id, j :: LeastFree(s, id) && 0 <= j < 20 && j != id && NameAt(s, j) == short)
    case Some(id) =>
      && prio < 4 && LeastFree(s, id) && prio < |s.ready|
      && (forall j :: 0 <= j < 20 && j != id ==> NameAt(s, j) != short)
      && w == s.(threads := s.threads[id := Thread(short, prio, Ready, if ownStack then {} else {ReleaseStack}, 0)],
                 ready := s.ready[prio := s.ready[prio] + [id]])
  }

  /** The least slot that is free. */
  predicate LeastFree(s: Sys, id: Tid) {
    id < 20 && id !in s.threads && forall j :: 0 <= j < id ==> j in s.threads
  }

  /** A free slot counts as one with the empty name. */
  function NameAt(s: Sys, j: Tid): string {
    if j in s.threads then s.threads[j].name else ""
  }

  lemma CreateMakes(s: Sys, name: string, prio: nat, ownStack: bool)
    requires |s.ready| == PRIORITIES
    ensures var (w, made) := Create(s, name, prio, ownStack); Created(s, w, name, prio, ownStack, made)
  {
    FirstFreeMeaning(s.threads, 0);
    var id := FirstFree(s.threads, 0);
    forall j ensures SlotName(s.threads, j) == NameAt(s, j) {}
    if id < MAX_THREADS {
      assert LeastFree(s, id);
      if NameTaken(s.threads, name, id) {
        var j :| 0 <= j < MAX_THREADS && j != id && SlotName(s.threads, j) == Trunc(name);
        assert NameAt(s, j) == Trunc(name);
      }
    }
  }

  // ---------------------------------------------------------------- one call

  /** Everybody of a better priority than the caller's is away from the ready queues. */
  predicate NobodyBetter(u: Sys, me: Tid) {
    forall q :: 0 <= q < |u.ready| && q < Record(u.threads, me).prio ==> u.ready[q] == []
  }

  /** What each kernel call leaves, for all its cases. */
  ghost predicate Done(s: Sys, op: Op, w: Sys)
    requires s.running.Some?
  {
    var me := s.running.value;
    match op
    case Suspend(env) => exists y :: QueuedLast(s, y, me) && Scheduled(y, w, env)
    case MaySuspend(first, env) =>
      exists u :: Updated(s, u, first) &&
        if NobodyBetter(u, me) then w == u else exists y :: QueuedLast(u, y, me) && Scheduled(y, w, env)
    case DelayFor(msecs, clock, env) =>
      if msecs == 0 then w == s else exists y :: LaidDown(s, y, me, clock + msecs) && Scheduled(y, w, env)
    case WaitFor(flags, msecs, clock, env) =>
      if me == 0 || flags * {Mutex, Event, Barrier, Completion} == {} then w == s
      else exists y :: Blocked(s, y, me, flags, msecs, clock) && Scheduled(y, w, env)
    case ResumeOne(wake) =>
      w == s.(threads := w.threads) && w.threads.Keys == s.threads.Keys
      && forall id :: Record(w.threads, id) == Notified(s.threads, id, [wake])
    case CreateThread(name, prio, ownStack) => exists made :: Created(s, w, name, prio, ownStack, made)
    case TerminateSelf(env) => exists y :: LaidToRest(s, y, me) && Scheduled(y, w, env)
    case Kill(id, cancelled) => if id == me then w == s else Condemned(s, w, id)
  }

  /** The calls that end in a panic. */
  predicate Panics(s: Sys, op: Op)
    requires s.running.Some?
  {
    var me := s.running.value;
    match op
    case DelayFor(msecs, _, _) => msecs > 0 && (me == 0 || me == 1)
    case TerminateSelf(_) => me == 0 || me == 1
    case Kill(id, cancelled) => id != me && KillPanics(s, id, cancelled)
    case _ => false
  }

  lemma RunningIsLive(s: Sys)
    requires Inv(s)
    ensures s.running.value in s.threads && s.threads[s.running.value].state == Running
  {
    var me := s.running.value;
    assert Places(s, {me}, me) > 0;
    assert Record(s.threads, me).state == Running;
  }

  lemma PanicsIff(s: Sys, op: Op)
    requires Inv(s)
    ensures Step(s, op).Panic? <==> Panics(s, op)
  {
    RunningIsLive(s);
    if op.Kill? && op.id != s.running.value { KillMarks(s, op.id, op.cancelled); }
  }

  lemma SuspendDone(s: Sys, me: Tid, env: Env)
    requires Placed(s, {me}) && IdleSafe(s) && SleepSorted(s.threads, s.delayed)
    ensures exists y :: QueuedLast(s, y, me) && Scheduled(y, Schedule(Yield(s, me), env), env)
  {
    YieldQueues(s, me);
    YieldChooses(s, me);
    var u, p := ScheduleDoes(Yield(s, me), env);
  }

  lemma MaySuspendDone(s: Sys, first: Env, env: Env)
    requires Inv(s)
    ensures Done(s, MaySuspend(first, env), Step(s, MaySuspend(first, env)).s)
  {
    var me, u, w := s.running.value, Update(s, first), Step(s, MaySuspend(first, env)).s;
    assert w == if NobodyBetter(u, me) then u else Schedule(Yield(u, me), env);
    hide Step, Done, Schedule, Yield, Update;
    UpdateKeeps(s, {me}, first);
    KeepsSafety(s, u);
    UpdateDoes(s, {me}, first);
    SuspendDone(u, me, env);
    hide *;
    MaySuspendIs(s, u, first, env, w);
  }

  lemma MaySuspendIs(s: Sys, u: Sys, first: Env, env: Env, w: Sys)
    requires s.running.Some? && Updated(s, u, first)
    requires if NobodyBetter(u, s.running.value) then w == u
             else exists y :: QueuedLast(u, y, s.running.value) && Scheduled(y, w, env)
    ensures Done(s, MaySuspend(first, env), w)
  {
    hide Updated, NobodyBetter, QueuedLast, Scheduled;
  }

  lemma DelayDone(s: Sys, msecs: nat, clock: nat, env: Env)
    requires Inv(s) && msecs > 0 && s.running.value != IDLE
    ensures Done(s, DelayFor(msecs, clock, env), Schedule(Sleep(s, s.running.value, clock + msecs), env))
  {
    hide *;
    assert s.running.Some? by { SomeRuns(s); }
    SleepSchedules(s, s.running.value, clock + msecs, env);
    DelayIs(s, Sleep(s, s.running.value, clock + msecs), msecs, clock, env,
            Schedule(Sleep(s, s.running.value, clock + msecs), env));
  }

  lemma SleepSchedules(s: Sys, me: Tid, at: nat, env: Env)
    requires Inv(s) && me == s.running.value && me != IDLE
    ensures LaidDown(s, Sleep(s, me, at), me, at) && Scheduled(Sleep(s, me, at), Schedule(Sleep(s, me, at), env), env)
  {
    hide *;
    SleepLaysDown(s, me, at);
    SleepChooses(s, at);
    var u, p := ScheduleDoes(Sleep(s, me, at), env);
  }

  lemma DelayCallDone(s: Sys, msecs: nat, clock: nat, env: Env)
    requires Inv(s) && Step(s, DelayFor(msecs, clock, env)).Continue?
    ensures Done(s, DelayFor(msecs, clock, env), Step(s, DelayFor(msecs, clock, env)).s)
  {
    hide Inv, Schedule, Sleep, LaidDown, Scheduled;
    assert s.running.Some? by { SomeRuns(s); }
    if msecs > 0 {
      hide Done;
      DelayDone(s, msecs, clock, env);
    }
  }

  lemma WaitCallDone(s: Sys, flags: set<Flag>, msecs: nat, clock: nat, env: Env)
    requires Inv(s)
    ensures Done(s, WaitFor(flags, msecs, clock, env), Step(s, WaitFor(flags, msecs, clock, env)).s)
  {
    hide Inv, Schedule, Block, Blocked, Scheduled;
    assert s.running.Some? by { SomeRuns(s); }
    assert MASK_EVENTS == {Mutex, Event, Barrier, Completion};
    if s.running.value != IDLE && flags * MASK_EVENTS != {} {
      hide Done;
      WaitDone(s, flags, msecs, clock, env);
    }
  }

  lemma SomeRuns(s: Sys)
    requires Inv(s)
    ensures s.running.Some?
  {
  }

  lemma OthersDone(s: Sys, op: Op)
    requires Inv(s) && Step(s, op).Continue? && (op.ResumeOne? || op.CreateThread? || op.Kill?)
    ensures Done(s, op, Step(s, op).s)
  {
    hide Condemned, Created, Remove, Create, Resume, Notified;
    match op
    case ResumeOne(wake) => ResumeDone(s, wake);
    case CreateThread(name, prio, ownStack) => CreateMakes(s, name, prio, ownStack);
    case Kill(id, cancelled) => if id != s.running.value { KillMarks(s, id, cancelled); }
  }

  lemma DelayIs(s: Sys, y: Sys, msecs: nat, clock: nat, env: Env, w: Sys)
    requires s.running.Some? && msecs > 0
    requires LaidDown(s, y, s.running.value, clock + msecs) && Scheduled(y, w, env)
    ensures Done(s, DelayFor(msecs, clock, env), w)
  {
    hide LaidDown, Scheduled;
  }

  lemma WaitDone(s: Sys, flags: set<Flag>, msecs: nat, clock: nat, env: Env)
    requires Inv(s) && s.running.value != IDLE && flags * MASK_EVENTS != {}
    ensures Done(s, WaitFor(flags, msecs, clock, env), Schedule(Block(s, s.running.value, flags, msecs, clock), env))
  {
    hide *;
    assert s.running.Some? by { SomeRuns(s); }
    var me := s.running.value;
    var y := Block(s, me, flags, msecs, clock);
    BlockBlocks(s, me, flags, msecs, clock);
    BlockChooses(s, flags, msecs, clock);
    var u, p := ScheduleDoes(y, env);
    WaitIs(s, y, flags, msecs, clock, env, Schedule(y, env));
  }

  lemma WaitIs(s: Sys, y: Sys, flags: set<Flag>, msecs: nat, clock: nat, env: Env, w: Sys)
    requires s.running.Some? && s.running.value != IDLE && flags * MASK_EVENTS != {}
    requires Blocked(s, y, s.running.value, flags, msecs, clock) && Scheduled(y, w, env)
    ensures Done(s, WaitFor(flags, msecs, clock, env), w)
  {
    hide Blocked, Scheduled;
  }

  lemma TerminateDone(s: Sys, env: Env)
    requires Inv(s) && Step(s, TerminateSelf(env)).Continue?
    ensures Done(s, TerminateSelf(env), Step(s, TerminateSelf(env)).s)
  {
    hide Schedule, Scheduled;
    var me := s.running.value;
    RunningIsLive(s);
    TerminateChooses(s);
    var u, p := ScheduleDoes(PushDead(s, me), env);
    assert LaidToRest(s, PushDead(s, me), me);
  }

  lemma ResumeDone(s: Sys, wake: Wake)
    ensures var w := Resume(s, wake.flags * MASK_EVENTS, wake.id);
      && w == s.(threads := w.threads) && w.threads.Keys == s.threads.Keys
      && forall id :: Record(w.threads, id) == Notified(s.threads, id, [wake])
  {
    hide Notified;
    forall id ensures var w := Resume(s, wake.flags * MASK_EVENTS, wake.id);
        Record(w.threads, id) == Notified(s.threads, id, [wake]) && w.threads.Keys == s.threads.Keys
        && w == s.(threads := w.threads)
    {
      ResumeIs(s, wake, id);
    }
  }

  /** Every kernel call that does not panic does what `Done` says. */
  lemma StepDoes(s: Sys, op: Op)
    requires Inv(s) && Step(s, op).Continue?
    ensures Done(s, op, Step(s, op).s)
  {
    if op.Suspend? { SuspendDone(s, s.running.value, op.env); }
    hide Inv, Yield, Schedule, QueuedLast, Scheduled, Remove;
    match op
    case Suspend(env) =>
    case MaySuspend(first, env) => hide Done, Step; MaySuspendDone(s, first, env);
    case DelayFor(msecs, clock, env) => hide Done, Step; DelayCallDone(s, msecs, clock, env);
    case WaitFor(flags, msecs, clock, env) => hide Done, Step; WaitCallDone(s, flags, msecs, clock, env);
    case TerminateSelf(env) => hide Done, Step; TerminateDone(s, env);
    case _ => hide Done, Step; OthersDone(s, op);
  }

  // ---------------------------------------------------------------- giving up the processor

  /** Whoever stood unmarked in a queue as good as the caller's comes before the caller. */
  lemma SuspendLetsOthersRun(s: Sys, env: Env, r: nat, x: Tid)
    requires Inv(s) && r <= Record(s.threads, s.running.value).prio && r < |s.ready|
    requires x in s.ready[r] && Terminate !in Record(s.threads, x).flags
    ensures Step(s, Suspend(env)).s.running != s.running
  {
    var me, y := s.running.value, Yield(s, s.running.value);
    LooseFromRunning(s, me);
    NotLinked(s, {}, s.threads.Keys - {me}, me);
    YieldQueues(s, me);
    YieldChooses(s, me);
    assert me !in s.ready[r] && x != me;
    assert s.running == Some(me) && |s.ready| == PRIORITIES;
    var u, p := ScheduleDoes(y, env);
    hide Inv, Choosing, Schedule, Yield, Keeps, Placed, Updated, Chosen;
    LaterThanOthers(s, y, u, Schedule(y, env), me, env, p, r, x);
  }

  lemma LaterThanOthers(s: Sys, y: Sys, u: Sys, w: Sys, me: Tid, env: Env, p: nat, r: nat, x: Tid)
    requires QueuedLast(s, y, me) && Updated(y, u, env) && Placed(u, {}) && Keeps(y, u) && Chosen(u, w, p)
    requires r <= Record(s.threads, me).prio && r < |s.ready| == PRIORITIES
    requires x in s.ready[r] && !Doomed(s, x) && me !in s.ready[r]
    ensures w.running != Some(me)
  {
    var i :| 0 <= i < |s.ready[r]| && s.ready[r][i] == x;
    KeptInFront(s, y, u, me, env, r);
    assert !Doomed(u, x);
    MarkedPrefixMeaning(u, u.ready[r]);
    assert u.ready[r][i] == x;
    assert |MarkedPrefix(u, u.ready[r])| <= i;
    assert Picked(u, w, 0, p);
    assert p <= r;
    var n := |MarkedPrefix(u, u.ready[p])|;
    var runner := u.ready[p][n];
    if p == r {
      assert runner == s.ready[r][n] && runner in s.ready[r];
    } else {
      assert FitsReady(u.threads, u.ready[p], p) && runner in u.ready[p];
      assert Record(u.threads, runner).prio == p < r;
    }
  }

  lemma KeptInFront(s: Sys, y: Sys, u: Sys, me: Tid, env: Env, r: nat)
    requires QueuedLast(s, y, me) && Updated(y, u, env) && r < |s.ready| && Keeps(y, u)
    ensures |u.ready| == |s.ready| && |s.ready[r]| <= |u.ready[r]| && u.ready[r][..|s.ready[r]|] == s.ready[r]
    ensures Record(u.threads, me).prio == Record(s.threads, me).prio
    ensures forall id :: Doomed(u, id) == Doomed(s, id)
  {
    assert SleepersWoken(y, u, env.delayClock);
    hide Updated, SleepersWoken;
    QueuePrefix(y, u, env.delayClock, r);
    assert s.ready[r] <= y.ready[r];
  }

  lemma QueuePrefix(y: Sys, u: Sys, clock: nat, r: nat)
    requires SleepersWoken(y, u, clock) && r < |y.ready|
    ensures |u.ready| == |y.ready| && |y.ready[r]| <= |u.ready[r]| && u.ready[r][..|y.ready[r]|] == y.ready[r]
  {
    assert QueuedBehind(y.ready[r], u.ready[r], OfPriority(y.threads, Due(y.threads, y.delayed, clock), r));
  }

  // ---------------------------------------------------------------- marked threads

  /** As long as it holds its slot, the thread is not the running one in any state of the run. */
  predicate NeverRuns(s: Sys, ops: seq<Op>, id: Tid)
    requires s.running.Some?
    decreases |ops|
  {
    id in s.threads ==>
      && s.running.value != id
      && (ops != [] ==>
            var r := Step(s, ops[0]);
            r.Continue? && r.s.running.Some? ==> NeverRuns(r.s, ops[1..], id))
  }

  /** A choice keeps the marks of all that keep their slots. */
  lemma ScheduleKeepsMark(y: Sys, env: Env, id: Tid)
    requires Choosing(y) && Terminate in Record(y.threads, id).flags && id in Schedule(y, env).threads
    ensures Terminate in Record(Schedule(y, env).threads, id).flags
  {
    var u, p := ScheduleDoes(y, env);
    hide Choosing, Placed, Updated, Schedule, Picked, PassedOver;
  }

  lemma MaySuspendKeepsMark(s: Sys, first: Env, env: Env, id: Tid)
    requires Inv(s) && Terminate in Record(s.threads, id).flags && id in Step(s, MaySuspend(first, env)).s.threads
    ensures Terminate in Record(Step(s, MaySuspend(first, env)).s.threads, id).flags
  {
    var me, u := s.running.value, Update(s, first);
    assert Step(s, MaySuspend(first, env)).s == if NobodyBetter(u, me) then u else Schedule(Yield(u, me), env);
    UpdateKeeps(s, {me}, first);
    KeepsSafety(s, u);
    YieldChooses(u, me);
    hide Placed, Choosing, Schedule, Update, Step, NobodyBetter, SleepSorted, IdleSafe;
    if !NobodyBetter(u, me) { ScheduleKeepsMark(Yield(u, me), env, id); }
  }

  lemma DelayKeepsMark(s: Sys, at: nat, env: Env, id: Tid)
    requires Inv(s) && s.running.value != IDLE && Terminate in Record(s.threads, id).flags
    requires id in Schedule(Sleep(s, s.running.value, at), env).threads
    ensures Terminate in Record(Schedule(Sleep(s, s.running.value, at), env).threads, id).flags
  {
    SleepChooses(s, at);
    hide Schedule, Choosing, Placed, SleepSorted, IdleSafe, DelayInsert;
    ScheduleKeepsMark(Sleep(s, s.running.value, at), env, id);
  }

  lemma WaitKeepsMark(s: Sys, flags: set<Flag>, msecs: nat, clock: nat, env: Env, id: Tid)
    requires Inv(s) && s.running.value != IDLE && flags * MASK_EVENTS != {}
    requires Terminate in Record(s.threads, id).flags
    requires id in Schedule(Block(s, s.running.value, flags, msecs, clock), env).threads
    ensures Terminate in Record(Schedule(Block(s, s.running.value, flags, msecs, clock), env).threads, id).flags
  {
    BlockChooses(s, flags, msecs, clock);
    hide Schedule, Choosing, Placed, SleepSorted, IdleSafe;
    ScheduleKeepsMark(Block(s, s.running.value, flags, msecs, clock), env, id);
  }

  lemma LeavingKeepsMark(s: Sys, op: Op, id: Tid)
    requires Inv(s) && Step(s, op).Continue? && Terminate in Record(s.threads, id).flags
    requires id in Step(s, op).s.threads && (op.Suspend? || op.TerminateSelf?)
    ensures Terminate in Record(Step(s, op).s.threads, id).flags
  {
    var me := s.running.value;
    RunningIsLive(s);
    if op.Suspend? {
      YieldChooses(s, me);
      hide Schedule, Choosing, Inv;
      ScheduleKeepsMark(Yield(s, me), op.env, id);
    } else {
      TerminateChooses(s);
      hide Schedule, Choosing, Inv;
      ScheduleKeepsMark(PushDead(s, me), op.env, id);
    }
  }

  lemma StayingKeepsMark(s: Sys, op: Op, id: Tid)
    requires Inv(s) && Step(s, op).Continue? && Terminate in Record(s.threads, id).flags
    requires id in Step(s, op).s.threads && (op.ResumeOne? || op.CreateThread? || op.Kill?)
    ensures Terminate in Record(Step(s, op).s.threads, id).flags
  {
    SomeRuns(s);
    CallerPlaced(s);
    hide Inv, Placed, Resume, Remove, Create;
    match op
    case ResumeOne(wake) => ResumeKeepsMark(s, {s.running.value}, wake, id);
    case CreateThread(name, prio, ownStack) => CreateKeepsMark(s, name, prio, ownStack, id);
    case Kill(target, cancelled) => if target != s.running.value { KillKeepsMark(s, target, cancelled, id); }
  }

  lemma CallerPlaced(s: Sys)
    requires Inv(s)
    ensures Placed(s, {s.running.value})
  {
  }

  lemma ResumeKeepsMark(s: Sys, apart: set<Tid>, wake: Wake, id: Tid)
    requires Placed(s, apart) && Terminate in Record(s.threads, id).flags
    ensures Terminate in Record(Resume(s, wake.flags * MASK_EVENTS, wake.id).threads, id).flags
  {
    hide Placed;
    ResumeKeeps(s, apart, wake.flags * MASK_EVENTS, wake.id);
    hide Resume;
  }

  lemma CreateKeepsMark(s: Sys, name: string, prio: nat, ownStack: bool, id: Tid)
    requires Terminate in Record(s.threads, id).flags
    ensures Terminate in Record(Create(s, name, prio, ownStack).0.threads, id).flags
  {
    FirstFreeMeaning(s.threads, 0);
    hide FirstFree, NameTaken, Trunc;
  }

  lemma KillKeepsMark(s: Sys, target: Tid, cancelled: bool, id: Tid)
    requires Terminate in Record(s.threads, id).flags && Remove(s, target, cancelled).Continue?
    ensures Terminate in Record(Remove(s, target, cancelled).s.threads, id).flags
  {
  }

  /** No call takes a mark away. */
  lemma MarkStays(s: Sys, op: Op, id: Tid)
    requires Inv(s) && Step(s, op).Continue? && Terminate in Record(s.threads, id).flags
    requires id in Step(s, op).s.threads
    ensures Terminate in Record(Step(s, op).s.threads, id).flags
  {
    SomeRuns(s);
    hide Inv, Schedule, Sleep, Block, Yield, Remove, Record;
    match op
    case MaySuspend(first, env) => MaySuspendKeepsMark(s, first, env, id);
    case DelayFor(msecs, clock, env) => if msecs > 0 { DelayKeepsMark(s, clock + msecs, env, id); }
    case WaitFor(flags, msecs, clock, env) =>
      if s.running.value != IDLE && flags * MASK_EVENTS != {} { WaitKeepsMark(s, flags, msecs, clock, env, id); }
    case Suspend(_) => LeavingKeepsMark(s, op, id);
    case TerminateSelf(_) => LeavingKeepsMark(s, op, id);
    case _ => StayingKeepsMark(s, op, id);
  }

  lemma {:induction false} MarkedNeverRuns(s: Sys, ops: seq<Op>, id: Tid)
    requires Inv(s) && AllAllowed(s, ops) && Terminate in Record(s.threads, id).flags
    ensures NeverRuns(s, ops, id)
    decreases |ops|
  {
    if ops != [] {
      var r := Step(s, ops[0]);
      if r.Continue? {
        StepKeepsInv(s, ops[0]);
        if id in r.s.threads {
          MarkStays(s, ops[0], id);
          MarkedNeverRuns(r.s, ops[1..], id);
        }
      }
    }
  }

  /** A kill that does not panic: from then on, over every run, the thread never runs again. */
  lemma KilledNeverRuns(s: Sys, id: Tid, cancelled: bool, ops: seq<Op>)
    requires Inv(s) && id != s.running.value && !KillPanics(s, id, cancelled) && !Unkillable(s, id)
    requires AllAllowed(Step(s, Kill(id, cancelled)).s, ops)
    ensures NeverRuns(Step(s, Kill(id, cancelled)).s, ops, id)
  {
    KillMarks(s, id, cancelled);
    KillKeepsInv(s, id, cancelled);
    var w := Step(s, Kill(id, cancelled)).s;
    assert Condemned(s, w, id);
    hide Inv, AllAllowed, Step, Unkillable, KillPanics;
    MarkedNeverRuns(w, ops, id);
  }

  /** A thread that ends itself has given its slot back when the next one runs. */
  lemma TerminateReleases(s: Sys, env: Env)
    requires Inv(s) && Step(s, TerminateSelf(env)).Continue?
    ensures s.running.value !in Step(s, TerminateSelf(env)).s.threads
  {
    var me, y := s.running.value, PushDead(s, s.running.value);
    RunningIsLive(s);
    TerminateChooses(s);
    LooseFromRunning(s, me);
    NotLinked(s, {}, s.threads.Keys - {me}, me);
    var u, p := ScheduleDoes(y, env);
    assert Record(u.threads, me).state == Dead by { StaysDead(y, u, env, me); }
    assert me !in u.waiting && me in u.threads;
    PlaceByState(u, {}, me);
    hide Placed, Updated, Schedule, Picked, Inv, Choosing;
  }

  lemma StaysDead(y: Sys, u: Sys, env: Env, id: Tid)
    requires Updated(y, u, env) && Record(y.threads, id).state == Dead && id !in y.delayed && id !in y.waiting
    ensures Record(u.threads, id).state == Dead
  {
    assert RecordsMoved(y, u, env);
    hide Updated, Named;
  }
}
