/**
 The scheduler as the source runs it: fields overwritten step by step, loops over the queues. Each
 method is proved equal to its function in `Sched`, so all that `SchedSteps`, `SchedWait` and
 `SchedRuns` prove holds of it. Every access to a thread's record is proved safe, and a thread is linked
 only when no queue holds it, with one exception: killing an untimed mutex waiter (`LinkKilledWaiter`).
 */
module SchedMachine {
  import opened Sched
  import opened SchedInv
  import opened SchedRuns
  import opened SchedSteps
  import opened SchedEffects
  import opened SchedCalls

  ghost predicate Unlinked(s: Sys, id: Tid) {
    Places(s, {}, id) == 0
  }

  class Scheduler {
    var threads: map<Tid, Thread>
    var running: Option<Tid>
    var ready: seq<seq<Tid>>
    var delayed: seq<Tid>
    var waiting: seq<Tid>
    var dead: seq<Tid>
    var wakeWait: nat
    var wakeDelay: nat

    function State(): Sys
      reads this
    {
      Sys(threads, running, ready, delayed, waiting, dead, wakeWait, wakeDelay)
    }

    constructor ()
      ensures State() == Sys(map[], None, [[], [], [], []], [], [], [], DELAY_MAX, DELAY_MAX)
    {
      threads, running, ready := map[], None, [[], [], [], []];
      delayed, waiting, dead, wakeWait, wakeDelay := [], [], [], DELAY_MAX, DELAY_MAX;
    }

    method EnqueueReady(p: nat, id: Tid)
      requires p < |ready| && Unlinked(State(), id)
      modifies this`ready
      ensures State() == PushReady(old(State()), p, id)
    {
      ready := ready[p := ready[p] + [id]];
    }

    method EnqueueDead(id: Tid)
      requires id in threads && Unlinked(State(), id)
      modifies this`dead, this`threads
      ensures State() == PushDead(old(State()), id)
    {
      dead := dead + [id];
      threads := threads[id := threads[id].(state := Dead)];
    }

    method EnqueueWaiting(id: Tid)
      requires id in threads && Unlinked(State(), id)
      modifies this`waiting
      ensures State() == old(State()).(waiting := old(waiting) + [id])
    {
      waiting := waiting + [id];
    }

    method InsertDelayed(k: nat, id: Tid)
      requires k <= |delayed| && id in threads && Unlinked(State(), id)
      modifies this`delayed
      ensures State() == old(State()).(delayed := old(delayed)[..k] + [id] + old(delayed)[k..])
    {
      delayed := delayed[..k] + [id] + delayed[k..];
    }

    /**
     The one link of a thread some queue still holds. Here both queues then list it; with nodes, the
     link also cuts the wait queue behind it, as `LinkedQueue.EnqueueCuts` shows.
     */
    method LinkKilledWaiter(id: Tid)
      requires id in threads
      modifies this`dead, this`threads
      ensures State() == PushDead(old(State()), id)
    {
      dead := dead + [id];
      threads := threads[id := threads[id].(state := Dead)];
    }

    method ResumeThread(flags: set<Flag>, id: Tid) returns (ok: bool)
      modifies this`threads
      ensures State() == Resume(old(State()), flags, id)
      ensures ok <==> (id in old(threads) && old(threads)[id].state == Waiting
          && old(threads)[id].flags * flags * {Mutex, Event, Barrier, Completion, Timeout} != {})
      ensures threads == if ok then old(threads)[id := Awakened(old(threads)[id])] else old(threads)
    {
      if id !in threads { return false; }
      var t := threads[id];
      assert MASK_WAIT == {Mutex, Event, Barrier, Completion, Timeout};
      assert flags * (t.flags * MASK_WAIT) == t.flags * flags * {Mutex, Event, Barrier, Completion, Timeout};
      if t.state != Waiting { return false; }
      if flags * (t.flags * MASK_WAIT) == {} { return false; }
      threads := threads[id := t.(flags := t.flags - MASK_WAIT, state := Ready, delay := 0)];
      ok := true;
    }

    // -------------------------------------------------------------- the wait queue

    /** The switch on the head's state. */
    method HandleWaiter(now: nat, ghost apart: set<Tid>)
      requires Placed(State(), apart) && waiting != []
      modifies this
      ensures State() == WaitHead(old(State()), now)
    {
      ghost var s := State();
      var id := waiting[0];
      LooseFromWait(s, apart);
      LooseIsUnlinked(s.(waiting := s.waiting[1..]), apart, id);
      assert id in waiting;
      var t := threads[id];
      match t.state {
        case Waiting =>
          if Terminate in t.flags {
            waiting := waiting[1..];
            EnqueueDead(id);
          } else if Timeout in t.flags {
            if t.delay <= now {
              waiting := waiting[1..];
              var ok := ResumeThread(t.flags * MASK_EVENTS, id);
              if ok { EnqueueReady(t.prio, id); }
            } else if t.delay - now < wakeWait {
              wakeWait := t.delay - now;
            }
          }
        case Ready =>
          waiting := waiting[1..];
          EnqueueReady(t.prio, id);
        case _ =>
      }
    }

    /** The loop never looks at an empty queue: each turn takes at most one thread away. */
    method ScheduleWaiting(now: nat, ghost apart: set<Tid>)
      requires Placed(State(), apart)
      modifies this
      ensures State() == WaitPass(old(State()), now) && Placed(State(), apart)
    {
      hide WaitHead;
      ghost var s := State().(wakeWait := DELAY_MAX);
      WakeFieldsDoNotMatter(State(), s, apart);
      wakeWait := DELAY_MAX;
      var i := |waiting|;
      while i > 0
        invariant Placed(State(), apart) && 0 <= i <= |waiting|
        invariant WaitTurns(State(), now, i) == WaitTurns(s, now, |s.waiting|)
      {
        ghost var u := State();
        WaitHeadKeepsPlaces(u, apart, now);
        HandleWaiter(now, apart);
        WaitHeadShrinks(u, now);
        RollKeepsPlaces(State(), apart);
        if |waiting| > 1 { waiting := waiting[1..] + [waiting[0]]; }
        assert State() == WaitTurn(u, now);
        i := i - 1;
      }
    }

    // -------------------------------------------------------------- the delay queue

    method ScheduleDelayed(now: nat, ghost apart: set<Tid>)
      requires Placed(State(), apart)
      modifies this
      ensures State() == DelayPass(old(State()), now) && Placed(State(), apart)
    {
      assert |ready| == PRIORITIES;
      hide Placed, Loose;
      ghost var s := State().(wakeDelay := DELAY_MAX);
      WakeFieldsDoNotMatter(State(), s, apart);
      wakeDelay := DELAY_MAX;
      SleeperLive(State(), apart);
      while delayed != [] && threads[delayed[0]].delay <= now
        invariant Placed(State(), apart) && (delayed != [] ==> delayed[0] in threads) && |ready| == PRIORITIES
        invariant DelayTurns(State(), now) == DelayTurns(s, now)
        decreases |delayed|
      {
        ghost var u := State();
        var id := delayed[0];
        DelayHeadKeepsPlaces(u, apart);
        LooseFromDelay(u, apart);
        LooseIsUnlinked(u.(delayed := u.delayed[1..]), apart, id);
        delayed := delayed[1..];
        var ok := ResumeThread({Timeout}, id);
        if ok { EnqueueReady(threads[id].prio, id); }
        assert State() == DelayHead(u);
        SleeperLive(State(), apart);
      }
      DelayTurnsKeepsPlaces(s, apart, now);
      if delayed != [] {
        var t := threads[delayed[0]];
        if t.delay > now && t.delay - now < wakeDelay { wakeDelay := t.delay - now; }
      }
    }

    // -------------------------------------------------------------- choosing a thread

    method NextRunner(q: nat) returns (found: bool)
      requires Placed(State(), {}) && q < PRIORITIES
      modifies this
      ensures (State(), found) == NewRunner(old(State()), q)
    {
      ghost var s := State();
      while ready[q] != []
        invariant Placed(State(), {}) && NewRunner(State(), q) == NewRunner(s, q)
        decreases |ready[q]|
      {
        ghost var u := State();
        var id := ready[q][0];
        LooseFromReady(u, {}, q);
        LooseIsUnlinked(ReadyRest(u, q), {}, id);
        ready := ready[q := ready[q][1..]];
        if Terminate in threads[id].flags {
          LooseToDead(State(), {}, id);
          EnqueueDead(id);
        } else {
          running := Some(id);
          threads := threads[id := threads[id].(state := Running)];
          return true;
        }
      }
      found := false;
    }

    method UpdateSchedule(env: Env, ghost apart: set<Tid>)
      requires Placed(State(), apart) && SleepSorted(threads, delayed)
      modifies this
      ensures State() == Update(old(State()), env) && Placed(State(), apart)
      ensures Updated(old(State()), State(), env)
    {
      hide Updated, SleepSorted, Placed, WaitPass, DelayPass, Resume;
      ghost var s := State();
      UpdateDoes(s, apart, env);
      var i := 0;
      while i < |env.wakes|
        invariant i <= |env.wakes| && Placed(State(), apart)
        invariant ResumeAll(State(), env.wakes[i..]) == ResumeAll(s, env.wakes)
      {
        ResumeKeepsPlaces(State(), apart, env.wakes[i].flags * MASK_EVENTS, env.wakes[i].id);
        var _ := ResumeThread(env.wakes[i].flags * MASK_EVENTS, env.wakes[i].id);
        i := i + 1;
      }
      if waiting != [] { ScheduleWaiting(env.waitClock, apart); }
      if delayed != [] { ScheduleDelayed(env.delayClock, apart); }
    }

    /** The green mile: every dead thread but the running one gives its slot back. */
    method HouseKeeping()
      requires running.Some? && Placed(State(), {running.value})
      modifies this
      ensures State() == HouseKeep(old(State()))
      ensures dead == [] && threads == old(threads) - Members(old(dead))
    {
      HouseKeepReleases(State());
      if dead == [] || (|dead| == 1 && running == Some(dead[0])) { return; }
      ghost var s := State();
      var i := |dead|;
      while i > 0 && dead != []
        invariant 0 <= i && running == s.running && running.Some?
        invariant Reap(State(), i) == Reap(s, |s.dead|)
      {
        var id := dead[0];
        dead := dead[1..];
        if id != running.value { threads := threads - {id}; } else { dead := dead + [id]; }
        i := i - 1;
      }
    }

    /** The loop over the priorities, best first. */
    method PickThread()
      requires Placed(State(), {}) && CanPick(State(), 0)
      modifies this
      ensures State() == Pick(old(State()), 0)
      ensures running.Some? && Placed(State(), {running.value})
    {
      assert |ready| == PRIORITIES;
      hide Placed, CanPick;
      ghost var s := State();
      PickKeepsPlaces(s, 0);
      var i, found := 0, false;
      while i < |ready| && !found
        invariant |ready| == PRIORITIES && i <= PRIORITIES
        invariant !found ==> Placed(State(), {}) && Pick(State(), i) == Pick(s, 0)
        invariant found ==> State() == Pick(s, 0)
        decreases PRIORITIES - i, !found
      {
        NewRunnerKeepsPlaces(State(), i);
        if ready[i] != [] { found := NextRunner(i); }
        if !found { i := i + 1; }
      }
    }

    /**
     Afterwards an unmarked thread of the best possible priority runs, nobody dead is left, nobody left asleep
     is overdue, and nobody a wake-up named still waits.
     */
    method ScheduleThread(env: Env)
      requires Choosing(State())
      modifies this
      ensures State() == Schedule(old(State()), env) && Scheduled(old(State()), State(), env)
      ensures Inv(State()) && dead == []
      ensures forall id :: id in delayed ==> Record(threads, id).delay > env.delayClock
      ensures forall id :: (id in old(threads) && old(threads)[id].state == Waiting
          && Named(old(threads)[id], id, env.wakes)) ==> Record(threads, id).state != Waiting
    {
      ghost var s := State();
      ScheduleIsDone(s, env);
      hide Update, Pick, HouseKeep, Updated, Scheduled, Named;
      ghost var p, gone := ScheduleSettles(s, env);
      UpdateKeeps(s, {}, env);
      KeepsSafety(s, Update(s, env));
      IdleCanBePicked(Update(s, env));
      UpdateSchedule(env, {});
      PickThread();
      HouseKeeping();
    }

    // -------------------------------------------------------------- the calls of the running thread

    method SuspendThread(ghost me: Tid)
      requires running == Some(me) && Placed(State(), {me})
      modifies this
      ensures State() == Yield(old(State()), me) && QueuedLast(old(State()), State(), me)
    {
      YieldQueues(State(), me);
      LooseFromRunning(State(), me);
      LooseIsUnlinked(State(), {}, me);
      var id := running.value;
      EnqueueReady(threads[id].prio, id);
      threads := threads[id := threads[id].(state := Ready)];
    }

    /** The walk along the sleepers to the last one that is not later. */
    method FindSleeper(at: nat) returns (k: nat)
      requires forall i :: 0 <= i < |delayed| ==> delayed[i] in threads
      ensures k <= |delayed| && forall i :: 0 <= i < k ==> threads[delayed[i]].delay <= at
      ensures k < |delayed| ==> at < threads[delayed[k]].delay
    {
      k := 0;
      if delayed != [] && at >= threads[delayed[0]].delay {
        k := 1;
        while k < |delayed| && threads[delayed[k]].delay <= at
          invariant 1 <= k <= |delayed| && forall i :: 0 <= i < k ==> threads[delayed[i]].delay <= at
        {
          k := k + 1;
        }
      }
    }

    method DelayThread(msecs: nat, clock: nat) returns (ok: bool)
      requires Inv(State())
      modifies this
      ensures ok <==> old(running).value != IDLE && old(running).value != TIMERS
      ensures State() == if ok then Sleep(old(State()), old(running).value, clock + msecs) else old(State())
      ensures ok ==> LaidDown(old(State()), State(), old(running).value, clock + msecs)
    {
      hide LaidDown, Placed, Inv, Loose, Unlinked;
      ghost var s := State();
      assert running.Some? && Placed(s, {running.value}) by { SomeRuns(s); CallerPlaced(s); }
      var id := running.value;
      if id == IDLE || id == TIMERS { return false; }
      SleepLaysDown(s, id, clock + msecs);
      LooseFromRunning(s, id);
      LooseIsUnlinked(s, {}, id);
      var at := msecs + clock;
      AllSleepersLive(s, {id});
      var k := FindSleeper(at);
      DelayInsertIs(s, delayed, id, at, k);
      InsertDelayed(k, id);
      var t := threads[id];
      threads := threads[id := t.(flags := t.flags - MASK_WAIT + {Timeout}, state := Waiting, delay := at)];
      ok := true;
    }

    method WaitThread(flags: set<Flag>, msecs: nat, clock: nat) returns (ok: bool)
      requires Inv(State())
      modifies this
      ensures ok <==> old(running).value != IDLE && flags * MASK_EVENTS != {}
      ensures State() == if ok then Block(old(State()), old(running).value, flags, msecs, clock) else old(State())
      ensures ok ==> Blocked(old(State()), State(), old(running).value, flags, msecs, clock)
    {
      BlockBlocks(State(), running.value, flags, msecs, clock);
      hide Blocked;
      var id := running.value;
      if id == IDLE || flags * MASK_EVENTS == {} { return false; }
      LooseFromRunning(State(), id);
      LooseIsUnlinked(State(), {}, id);
      EnqueueWaiting(id);
      var t := threads[id];
      t := t.(flags := t.flags - MASK_WAIT + flags * MASK_EVENTS, state := Waiting);
      if msecs > 0 {
        t := t.(delay := clock + msecs, flags := t.flags + {Timeout});
      } else {
        t := t.(delay := 0);
      }
      threads := threads[id := t];
      ok := true;
    }

    method RemoveThread(id: Tid, cancelled: bool) returns (ok: bool)
      requires Inv(State())
      modifies this
      ensures ok <==> Remove(old(State()), id, cancelled).Continue?
      ensures State() == if ok then Remove(old(State()), id, cancelled).s else old(State())
      ensures id != old(running).value ==> (ok <==> !KillPanics(old(State()), id, cancelled))
      ensures ok && id != old(running).value ==> Condemned(old(State()), State(), id)
      ensures ok && id == old(running).value ==> LaidToRest(old(State()), State(), id)
    {
      RemoveDoes(State(), id, cancelled);
      hide Condemned, LaidToRest, KillPanics;
      if id !in threads || id == IDLE || id == TIMERS { return false; }
      var t := threads[id];
      match t.state {
        case Running =>
          RunningIsUnlinked(State(), id);
          EnqueueDead(id);
        case Waiting =>
          var kinds := t.flags * MASK_WAIT;
          if kinds in {{Event}, {Barrier}, {Completion}, {Mutex}} {
            if !cancelled { return false; }
            if kinds == {Mutex} {
              LinkKilledWaiter(id);
            }
          }
          threads := threads[id := threads[id].(flags := t.flags - MASK_WAIT + {Terminate})];
        case Ready =>
          threads := threads[id := t.(flags := t.flags + {Terminate})];
        case Dead =>
          return false;
      }
      ok := true;
    }

    /** One scan finds the first free slot and compares the name with every other slot. */
    method FindSlot(name: string) returns (found: Option<Tid>)
      ensures var id := FirstFree(threads, 0);
              found == if id >= MAX_THREADS || NameTaken(threads, name, id) then None else Some(id)
    {
      FirstFreeMeaning(threads, 0);
      var id: nat, i := MAX_THREADS, 0;
      while i < MAX_THREADS
        invariant 0 <= i <= MAX_THREADS
        invariant id < MAX_THREADS ==> id < i && id !in threads && forall j :: 0 <= j < id ==> j in threads
        invariant id >= MAX_THREADS ==> id == MAX_THREADS && forall j :: 0 <= j < i ==> j in threads
        invariant forall j :: 0 <= j < i && j != id ==> SlotName(threads, j) != Trunc(name)
      {
        if id == MAX_THREADS && i !in threads {
          id := i;
        } else if SlotName(threads, i) == Trunc(name) {
          if id < MAX_THREADS { FirstFreeUnique(threads, id); }
          assert FirstFree(threads, 0) != i;
          return None;
        }
        i := i + 1;
      }
      FirstFreeUnique(threads, id);
      found := if id == MAX_THREADS then None else Some(id);
    }

    method CreateThread(name: string, prio: nat, ownStack: bool) returns (made: Option<Tid>)
      requires Inv(State())
      modifies this
      ensures (State(), made) == Create(old(State()), name, prio, ownStack) && Inv(State())
      ensures Created(old(State()), State(), name, prio, ownStack, made)
    {
      CreateMakes(State(), name, prio, ownStack);
      hide Created;
      CreateKeepsInv(State(), name, prio, ownStack);
      if prio >= PRIORITIES { return None; }
      made := FindSlot(name);
      if made.Some? {
        var id := made.value;
        FirstFreeMeaning(threads, 0);
        NotLinked(State(), {running.value}, threads.Keys, id);
        assert Places(State(), {running.value}, id) == 0;
        threads := threads[id := Thread(Trunc(name), prio, Ready, if ownStack then {} else {ReleaseStack}, 0)];
        assert Unlinked(State(), id);
        EnqueueReady(prio, id);
      }
    }

    // -------------------------------------------------------------- kernel calls

    method ThreadSuspend(env: Env)
      requires Inv(State())
      modifies this
      ensures Inv(State()) && Continue(State()) == Step(old(State()), Suspend(env))
      ensures Done(old(State()), Suspend(env), State())
    {
      StepDoes(State(), Suspend(env));
      hide Schedule, Done, Scheduled, Named;
      YieldChooses(State(), running.value);
      SuspendThread(running.value);
      ScheduleThread(env);
    }

    method ReadyThreads(prio: nat) returns (total: nat)
      requires prio <= |ready|
      ensures total == 0 <==> forall q :: 0 <= q < prio ==> ready[q] == []
    {
      total := 0;
      var i := 0;
      while i < prio
        invariant 0 <= i <= prio && (total == 0 <==> forall q :: 0 <= q < i ==> ready[q] == [])
      {
        total := total + |ready[i]|;
        i := i + 1;
      }
    }

    /** The caller goes on unless the update leaves a thread of a better priority ready. */
    method ThreadMaySuspend(first: Env, env: Env)
      requires Inv(State())
      modifies this
      ensures Inv(State()) && Continue(State()) == Step(old(State()), MaySuspend(first, env))
      ensures Done(old(State()), MaySuspend(first, env), State())
    {
      hide Inv, Placed, SleepSorted, Schedule, Done, Updated, Update, Yield, Scheduled, QueuedLast, Choosing;
      SomeRuns(State());
      ghost var s, me := State(), running.value;
      MaySuspendTells(s, first, env);
      UpdateSchedule(first, {me});
      var total := ReadyThreads(threads[running.value].prio);
      if total > 0 { ThreadSuspend(env); }
    }

    method ThreadDelay(msecs: nat, clock: nat, env: Env) returns (panic: bool)
      requires Inv(State())
      modifies this
      ensures Step(old(State()), DelayFor(msecs, clock, env)) == if panic then Panic else Continue(State())
      ensures Inv(State()) && (panic <==> Panics(old(State()), DelayFor(msecs, clock, env)))
      ensures !panic ==> Done(old(State()), DelayFor(msecs, clock, env), State())
    {
      hide Done, Scheduled, Named, LaidDown, Panics, Inv, Schedule, Sleep, Choosing;
      ghost var s := State();
      SomeRuns(s);
      panic := false;
      StepTells(s, DelayFor(msecs, clock, env));
      if msecs > 0 {
        if running.value != IDLE { SleepChooses(s, clock + msecs); }
        var ok := DelayThread(msecs, clock);
        if !ok { return true; }
        ScheduleThread(env);
      }
    }

    /** Waiting for an event, a barrier, completed I/O or a mutex; false means nothing happened. */
    method ThreadWait(flags: set<Flag>, msecs: nat, clock: nat, env: Env) returns (ok: bool)
      requires Inv(State())
      modifies this
      ensures Inv(State()) && Continue(State()) == Step(old(State()), WaitFor(flags, msecs, clock, env))
      ensures ok <==> old(running).value != IDLE && flags * MASK_EVENTS != {}
      ensures !ok ==> State() == old(State())
      ensures Done(old(State()), WaitFor(flags, msecs, clock, env), State())
    {
      hide Done, Scheduled, Named, Blocked, Inv, Schedule, Placed, Block, Choosing, SleepSorted, IdleSafe;
      SomeRuns(State());
      StepDoes(State(), WaitFor(flags, msecs, clock, env));
      if running.value != IDLE && flags * MASK_EVENTS != {} { BlockChooses(State(), flags, msecs, clock); }
      ok := WaitThread(flags, msecs, clock);
      if ok { ScheduleThread(env); }
    }

    method ThreadTerminate(env: Env) returns (panic: bool)
      requires Inv(State())
      modifies this
      ensures Step(old(State()), TerminateSelf(env)) == if panic then Panic else Continue(State())
      ensures Inv(State()) && (panic <==> Panics(old(State()), TerminateSelf(env)))
      ensures !panic ==> Done(old(State()), TerminateSelf(env), State()) && old(running).value !in threads
    {
      ghost var s := State();
      StepTells(s, TerminateSelf(env));
      SomeRuns(s);
      hide Schedule, Done, Scheduled, Named, LaidToRest, Condemned, KillPanics, Panics, Inv, Choosing, PushDead;
      RunningIsLive(s);
      if running.value != IDLE { TerminateChooses(s); }
      var ok := RemoveThread(running.value, true);
      if !ok { return true; }
      ScheduleThread(env);
      panic := false;
    }

    /** The kill of another thread; `cancelled` is what the library it waits in answered. */
    method ThreadKill(id: Tid, cancelled: bool) returns (panic: bool)
      requires Inv(State())
      modifies this
      ensures Step(old(State()), Kill(id, cancelled)) == if panic then Panic else Continue(State())
      ensures panic || id == old(running).value || (Inv(State()) <==> !Unkillable(old(State()), id))
      ensures panic <==> Panics(old(State()), Kill(id, cancelled))
      ensures !panic ==> Done(old(State()), Kill(id, cancelled), State())
    {
      ghost var s := State();
      StepTells(s, Kill(id, cancelled));
      hide Done, Panics, Condemned, LaidToRest, KillPanics;
      if id == running.value { return false; }
      var ok := RemoveThread(id, cancelled);
      if ok { KillKeepsInvIff(s, id, cancelled); }
      panic := !ok;
    }
  }

  lemma ScheduleIsDone(s: Sys, env: Env)
    requires Choosing(s)
    ensures var w := Schedule(s, env);
      && Scheduled(s, w, env)
      && (forall id :: id in w.delayed ==> Record(w.threads, id).delay > env.delayClock)
      && forall id :: id in s.threads && s.threads[id].state == Waiting && Named(s.threads[id], id, env.wakes) ==>
        Record(w.threads, id).state != Waiting
  {
    hide *;
    var u, p := ScheduleDoes(s, env);
    ScheduleKeepsInv(s, env);
    ScheduleDelivers(s, Schedule(s, env), env);
  }

  /** All that is needed to follow thread_may_suspend. */
  lemma MaySuspendTells(s: Sys, first: Env, env: Env)
    requires Inv(s)
    ensures s.running.Some? && Placed(s, {s.running.value}) && SleepSorted(s.threads, s.delayed)
    ensures var u, me := Update(s, first), s.running.value;
      u.running == Some(me) && me in u.threads && u.threads[me].prio < |u.ready| == PRIORITIES && Inv(u)
    ensures var op := MaySuspend(first, env);
      Done(s, op, Step(s, op).s) && Inv(Step(s, op).s)
  {
    var me, u := s.running.value, Update(s, first);
    UpdateKeeps(s, {me}, first);
    LooseFromRunning(u, me);
    KeepsSafety(s, u);
    hide *;
    StepDoes(s, MaySuspend(first, env));
    MaySuspendKeepsInv(s, first, env);
  }

  lemma RemoveDoes(s: Sys, id: Tid, cancelled: bool)
    requires Inv(s)
    ensures var r := Remove(s, id, cancelled);
      && (id != s.running.value ==> (r.Continue? <==> !KillPanics(s, id, cancelled)))
      && (r.Continue? && id != s.running.value ==> Condemned(s, r.s, id))
      && (r.Continue? && id == s.running.value ==> LaidToRest(s, r.s, id))
  {
    RunningIsLive(s);
    if id != s.running.value { KillMarks(s, id, cancelled); }
  }

  /** All that is proved of one call, for the methods that make it. */
  lemma StepTells(s: Sys, op: Op)
    requires Inv(s)
    ensures Step(s, op).Panic? <==> Panics(s, op)
    ensures Step(s, op).Continue? ==> Done(s, op, Step(s, op).s)
    ensures op.TerminateSelf? && Step(s, op).Continue? ==> s.running.value !in Step(s, op).s.threads
  {
    hide *;
    SomeRuns(s);
    PanicsIff(s, op);
    if Step(s, op).Continue? {
      StepDoes(s, op);
      if op.TerminateSelf? { TerminateReleases(s, op.env); }
    }
  }

  lemma WaitHeadShrinks(s: Sys, now: nat)
    requires s.waiting != []
    ensures |s.waiting| - 1 <= |WaitHead(s, now).waiting|
  {
  }

  lemma AllSleepersLive(s: Sys, apart: set<Tid>)
    requires Placed(s, apart)
    ensures forall i :: 0 <= i < |s.delayed| ==> s.delayed[i] in s.threads
  {
    forall i | 0 <= i < |s.delayed| ensures s.delayed[i] in s.threads {
      OccIn(s.delayed, s.delayed[i]);
      assert Places(s, apart, s.delayed[i]) > 0;
    }
  }

  /** The walk stops where `DelayInsert` links. */
  lemma {:induction false} DelayInsertIs(s: Sys, q: seq<Tid>, id: Tid, at: nat, k: nat)
    requires k <= |q| && (forall i :: 0 <= i < k ==> Record(s.threads, q[i]).delay <= at)
    requires k < |q| ==> at < Record(s.threads, q[k]).delay
    ensures DelayInsert(s, q, id, at) == q[..k] + [id] + q[k..]
  {
    if k == 0 {
      assert q[..0] + [id] + q[0..] == [id] + q;
    } else {
      DelayInsertIs(s, q[1..], id, at, k - 1);
      assert [q[0]] + (q[1..][..k - 1] + [id] + q[1..][k - 1..]) == q[..k] + [id] + q[k..];
    }
  }

  lemma FirstFreeUnique(threads: map<Tid, Thread>, id: nat)
    requires id <= MAX_THREADS && (forall j :: 0 <= j < id ==> j in threads) && (id < MAX_THREADS ==> id !in threads)
    ensures FirstFree(threads, 0) == id
  {
    FirstFreeMeaning(threads, 0);
    FirstFreeBound(threads, 0);
  }

  lemma {:induction false} FirstFreeBound(threads: map<Tid, Thread>, i: nat)
    requires i <= MAX_THREADS
    ensures FirstFree(threads, i) <= MAX_THREADS
    decreases MAX_THREADS - i
  {
    if i < MAX_THREADS && i in threads { FirstFreeBound(threads, i + 1); }
  }

  lemma RunningIsUnlinked(s: Sys, id: Tid)
    requires Inv(s) && id in s.threads && s.threads[id].state == Running
    ensures Unlinked(s, id)
  {
    RunningIsApart(s, {s.running.value}, id);
    LooseFromRunning(s, id);
    LooseIsUnlinked(s, {}, id);
  }

  lemma LooseIsUnlinked(s: Sys, apart: set<Tid>, id: Tid)
    requires Loose(s, apart, id)
    ensures Unlinked(s, id) && id in s.threads && s.threads[id].prio < PRIORITIES
  {
    NotLinked(s, apart, s.threads.Keys - {id}, id);
    assert Places(s, apart, id) == 0;
  }

  lemma SleeperLive(s: Sys, apart: set<Tid>)
    requires Placed(s, apart)
    ensures s.delayed != [] ==> s.delayed[0] in s.threads
  {
    if s.delayed != [] { LooseFromDelay(s, apart); }
  }
}
