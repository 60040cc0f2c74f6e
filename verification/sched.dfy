/**
 The scheduler of kernel/scheduler.c as functions on its state: a running thread, four ready
 queues, and the delay, wait and dead queues. A kernel call is one step on this state.

 Queues hold thread identifiers. What a linked queue of libs/queue.c does to its nodes is in
 `LinkedQueue`; the class in `SchedMachine` runs the loops of the source against these functions.
 */
module Sched {
  type Tid = nat

  const IDLE: Tid := 0
  const TIMERS: Tid := 1
  const PRIORITIES := 4
  const MAX_THREADS := 20
  const NAME_MAX := 15
  const DELAY_MAX := 10000

  datatype State = Running | Waiting | Ready | Dead

  datatype Flag = Terminate | ReleaseStack | Timeout | Mutex | Event | Barrier | Completion

  const MASK_EVENTS: set<Flag> := {Mutex, Event, Barrier, Completion}
  const MASK_WAIT: set<Flag> := MASK_EVENTS + {Timeout}

  datatype Thread = Thread(name: string, prio: nat, state: State, flags: set<Flag>, delay: nat)

  datatype Option<+T> = None | Some(value: T)

  /** `wakeWait` and `wakeDelay` are the two pending clock periods, in milliseconds. */
  datatype Sys = Sys(
    threads: map<Tid, Thread>, running: Option<Tid>,
    ready: seq<seq<Tid>>, delayed: seq<Tid>, waiting: seq<Tid>, dead: seq<Tid>,
    wakeWait: nat, wakeDelay: nat)

  /** The record of a thread; the fallback is never reached in a state that keeps the invariant. */
  function Record(m: map<Tid, Thread>, id: Tid): Thread {
    if id in m then m[id] else Thread("", 0, Dead, {}, 0)
  }

  function Get(s: Sys, id: Tid): Thread {
    Record(s.threads, id)
  }

  function Put(s: Sys, id: Tid, t: Thread): Sys {
    s.(threads := s.threads[id := t])
  }

  function PushReady(s: Sys, p: nat, id: Tid): Sys {
    if p < |s.ready| then s.(ready := s.ready[p := s.ready[p] + [id]]) else s
  }

  function PushDead(s: Sys, id: Tid): Sys {
    Put(s, id, Get(s, id).(state := Dead)).(dead := s.dead + [id])
  }

  // ---------------------------------------------------------------- resuming

  predicate CanResume(t: Thread, flags: set<Flag>) {
    t.state == Waiting && flags * (t.flags * MASK_WAIT) != {}
  }

  function Resumed(t: Thread): Thread {
    t.(flags := t.flags - MASK_WAIT, state := Ready, delay := 0)
  }

  /** scheduler_resume_thread: the thread changes state but not place. */
  function Resume(s: Sys, flags: set<Flag>, id: Tid): Sys {
    if id in s.threads && CanResume(s.threads[id], flags) then Put(s, id, Resumed(s.threads[id])) else s
  }

  /** A wake-up delivered by an event queue, a barrier, completed I/O or a poll. */
  datatype Wake = Wake(flags: set<Flag>, id: Tid)

  function ResumeAll(s: Sys, wakes: seq<Wake>): Sys
    decreases |wakes|
  {
    if wakes == [] then s
    else ResumeAll(Resume(s, wakes[0].flags * MASK_EVENTS, wakes[0].id), wakes[1..])
  }

  // ---------------------------------------------------------------- the wait queue

  function Roll(q: seq<Tid>): seq<Tid> {
    if |q| > 1 then q[1..] + [q[0]] else q
  }

  function Sooner(nd: nat, t: Thread, now: nat): nat {
    if t.delay > now && t.delay - now < nd then t.delay - now else nd
  }

  predicate Expired(t: Thread, now: nat) {
    Timeout in t.flags && t.delay <= now
  }

  /** The threads a pass may take off the wait queue. */
  predicate Removable(t: Thread, now: nat) {
    t.state == Ready || (t.state == Waiting && (Terminate in t.flags || Expired(t, now)))
  }

  /** What one turn of the pass does to the head. */
  function WaitHead(s: Sys, now: nat): Sys
    requires s.waiting != []
  {
    var id := s.waiting[0];
    var t := Get(s, id);
    var rest := s.(waiting := s.waiting[1..]);
    match t.state
    case Waiting =>
      if Terminate in t.flags then PushDead(rest, id)
      else if Timeout !in t.flags then s
      else if t.delay <= now then
        if CanResume(t, t.flags * MASK_EVENTS) then PushReady(Put(rest, id, Resumed(t)), t.prio, id) else rest
      else s.(wakeWait := Sooner(s.wakeWait, t, now))
    case Ready => PushReady(rest, t.prio, id)
    case _ => s
  }

  /** One turn: handle the head, then roll the queue. */
  function WaitTurn(s: Sys, now: nat): Sys
    requires s.waiting != []
  {
    var u := WaitHead(s, now);
    u.(waiting := Roll(u.waiting))
  }

  function WaitTurns(s: Sys, now: nat, turns: nat): Sys
    decreases turns
  {
    if turns == 0 || s.waiting == [] then s
    else WaitTurns(WaitTurn(s, now), now, turns - 1)
  }

  /** One schedule_waiting pass. */
  function WaitPass(s: Sys, now: nat): Sys {
    WaitTurns(s.(wakeWait := DELAY_MAX), now, |s.waiting|)
  }

  // ---------------------------------------------------------------- the delay queue

  function DelayHead(s: Sys): (r: Sys)
    requires s.delayed != []
    ensures r.delayed == s.delayed[1..]
  {
    var id := s.delayed[0];
    var t := Get(s, id);
    var rest := s.(delayed := s.delayed[1..]);
    if CanResume(t, {Timeout}) then PushReady(Put(rest, id, Resumed(t)), t.prio, id) else rest
  }

  function DelayTurns(s: Sys, now: nat): Sys
    decreases |s.delayed|
  {
    if s.delayed == [] then s
    else if Get(s, s.delayed[0]).delay <= now then DelayTurns(DelayHead(s), now)
    else s.(wakeDelay := Sooner(s.wakeDelay, Get(s, s.delayed[0]), now))
  }

  /** One schedule_delayed pass. */
  function DelayPass(s: Sys, now: nat): Sys {
    DelayTurns(s.(wakeDelay := DELAY_MAX), now)
  }

  /** Where a thread sleeping until `at` is linked: after every deadline not later than its own. */
  function DelayInsert(s: Sys, q: seq<Tid>, id: Tid, at: nat): seq<Tid> {
    if q == [] || at < Get(s, q[0]).delay then [id] + q
    else [q[0]] + DelayInsert(s, q[1..], id, at)
  }

  // ---------------------------------------------------------------- choosing a thread

  /** What the outside supplies to one call of the scheduler: wake-ups and two clock readings. */
  datatype Env = Env(wakes: seq<Wake>, waitClock: nat, delayClock: nat)

  function Update(s: Sys, env: Env): Sys {
    var a := ResumeAll(s, env.wakes);
    var b := if a.waiting == [] then a else WaitPass(a, env.waitClock);
    if b.delayed == [] then b else DelayPass(b, env.delayClock)
  }

  function ReadyRest(s: Sys, q: nat): Sys
    requires q < |s.ready| && s.ready[q] != []
  {
    s.(ready := s.ready[q := s.ready[q][1..]])
  }

  /** new_runner: terminated threads go to the dead queue until a live one is found. */
  function NewRunner(s: Sys, q: nat): (r: (Sys, bool))
    requires q < |s.ready|
    ensures |r.0.ready| == |s.ready|
    decreases |s.ready[q]|
  {
    if s.ready[q] == [] then (s, false)
    else
      var id := s.ready[q][0];
      var t := Get(s, id);
      if Terminate in t.flags then NewRunner(PushDead(ReadyRest(s, q), id), q)
      else (Put(ReadyRest(s, q), id, t.(state := Running)).(running := Some(id)), true)
  }

  function Pick(s: Sys, q: nat): Sys
    decreases |s.ready| - q
  {
    if q >= |s.ready| then s
    else
      var (u, found) := NewRunner(s, q);
      if found then u else Pick(u, q + 1)
  }

  /** One round of house keeping over the first `n` dead threads. */
  function Reap(s: Sys, n: nat): Sys
    decreases n
  {
    if n == 0 || s.dead == [] then s
    else
      var id := s.dead[0];
      if s.running == Some(id) then Reap(s.(dead := s.dead[1..] + [id]), n - 1)
      else Reap(s.(dead := s.dead[1..], threads := s.threads - {id}), n - 1)
  }

  function HouseKeep(s: Sys): Sys {
    if s.dead == [] || (|s.dead| == 1 && s.running == Some(s.dead[0])) then s else Reap(s, |s.dead|)
  }

  /** schedule_thread. */
  function Schedule(s: Sys, env: Env): Sys {
    HouseKeep(Pick(Update(s, env), 0))
  }

  // ---------------------------------------------------------------- thread slots

  /** strncpy and strncmp look at the first fifteen characters only. */
  function Trunc(name: string): string {
    if |name| <= NAME_MAX then name else name[..NAME_MAX]
  }

  function FirstFree(threads: map<Tid, Thread>, i: nat): nat
    decreases MAX_THREADS - i
  {
    if i >= MAX_THREADS || i !in threads then i else FirstFree(threads, i + 1)
  }

  /** The name stored in a slot; a free slot holds the empty name. */
  function SlotName(threads: map<Tid, Thread>, i: nat): string {
    if i in threads then threads[i].name else ""
  }

  predicate NameTaken(threads: map<Tid, Thread>, name: string, free: nat) {
    exists i :: 0 <= i < MAX_THREADS && i != free && SlotName(threads, i) == Trunc(name)
  }

  /** thread_create: the first free slot, unless the priority, the table or the name forbids it. */
  function Create(s: Sys, name: string, prio: nat, ownStack: bool): (Sys, Option<Tid>) {
    var id := FirstFree(s.threads, 0);
    if prio >= PRIORITIES || id >= MAX_THREADS || NameTaken(s.threads, name, id) then (s, None)
    else
      var t := Thread(Trunc(name), prio, Ready, if ownStack then {} else {ReleaseStack}, 0);
      (PushReady(Put(s, id, t), prio, id), Some(id))
  }

  // ---------------------------------------------------------------- kernel calls

  datatype Op =
    | Suspend(env: Env)
    | MaySuspend(first: Env, env: Env)
    | DelayFor(msecs: nat, clock: nat, env: Env)
    | WaitFor(flags: set<Flag>, msecs: nat, clock: nat, env: Env)
    | ResumeOne(wake: Wake)
    | CreateThread(name: string, prio: nat, ownStack: bool)
    | TerminateSelf(env: Env)
    | Kill(id: Tid, cancelled: bool)

  datatype Outcome = Continue(s: Sys) | Panic

  /** The running thread gives up the processor and queues behind its own priority. */
  function Yield(s: Sys, me: Tid): Sys {
    PushReady(Put(s, me, Get(s, me).(state := Ready)), Get(s, me).prio, me)
  }

  function Sleep(s: Sys, me: Tid, at: nat): Sys {
    var t := Get(s, me);
    Put(s, me, t.(flags := t.flags - MASK_WAIT + {Timeout}, state := Waiting, delay := at))
    .(delayed := DelayInsert(s, s.delayed, me, at))
  }

  function Block(s: Sys, me: Tid, flags: set<Flag>, msecs: nat, clock: nat): Sys {
    var t := Get(s, me);
    var wait := t.flags - MASK_WAIT + flags * MASK_EVENTS;
    Put(s, me, t.(flags := if msecs > 0 then wait + {Timeout} else wait, state := Waiting,
                  delay := if msecs > 0 then clock + msecs else 0))
    .(waiting := s.waiting + [me])
  }

  /** scheduler_remove_thread applied to another thread; `cancelled` is the outcome of the cancel call. */
  function Remove(s: Sys, id: Tid, cancelled: bool): Outcome {
    if id !in s.threads || id == IDLE || id == TIMERS then Panic
    else
      var t := s.threads[id];
      var kinds := t.flags * MASK_WAIT;
      match t.state
      case Running => Continue(PushDead(s, id))
      case Waiting =>
        if kinds in {{Event}, {Barrier}, {Completion}, {Mutex}} && !cancelled then Panic
        else
          var u := if kinds == {Mutex} then PushDead(s, id) else s;
          Continue(Put(u, id, Get(u, id).(flags := t.flags - MASK_WAIT + {Terminate})))
      case Ready => Continue(Put(s, id, t.(flags := t.flags + {Terminate})))
      case Dead => Panic
  }

  function Step(s: Sys, op: Op): Outcome
    requires s.running.Some?
  {
    var me := s.running.value;
    match op
    case Suspend(env) => Continue(Schedule(Yield(s, me), env))
    case MaySuspend(first, env) =>
      var u := Update(s, first);
      if (forall q :: 0 <= q < Get(u, me).prio && q < |u.ready| ==> u.ready[q] == []) then Continue(u)
      else Continue(Schedule(Yield(u, me), env))
    case DelayFor(msecs, clock, env) =>
      if msecs == 0 then Continue(s)
      else if me == IDLE || me == TIMERS then Panic
      else Continue(Schedule(Sleep(s, me, clock + msecs), env))
    case WaitFor(flags, msecs, clock, env) =>
      if me == IDLE || flags * MASK_EVENTS == {} then Continue(s)
      else Continue(Schedule(Block(s, me, flags, msecs, clock), env))
    case ResumeOne(wake) => Continue(Resume(s, wake.flags * MASK_EVENTS, wake.id))
    case CreateThread(name, prio, ownStack) => Continue(Create(s, name, prio, ownStack).0)
    case TerminateSelf(env) =>
      var r := Remove(s, me, true);
      if r.Panic? then Panic else Continue(Schedule(r.s, env))
    case Kill(id, cancelled) => if id == me then Continue(s) else Remove(s, id, cancelled)
  }
}
