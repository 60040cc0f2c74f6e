/**
 Every thread is in exactly one place, in a state that matches the place: what every step of the
 scheduler keeps. `SchedRuns` lifts this to whole runs of kernel calls.
 */
module SchedInv {
  import opened Sched

  // ---------------------------------------------------------------- counting occurrences

  ghost function Occ(q: seq<Tid>, id: Tid): nat {
    if q == [] then 0 else (if q[0] == id then 1 else 0) + Occ(q[1..], id)
  }

  ghost function ReadyOcc(qs: seq<seq<Tid>>, id: Tid): nat {
    if qs == [] then 0 else Occ(qs[0], id) + ReadyOcc(qs[1..], id)
  }

  /** How often a thread is queued, plus one if it is set apart from the queues. */
  ghost function Places(s: Sys, apart: set<Tid>, id: Tid): nat {
    ReadyOcc(s.ready, id) + Occ(s.delayed, id) + Occ(s.waiting, id) + Occ(s.dead, id) + if id in apart then 1 else 0
  }

  lemma {:induction false} OccConcat(a: seq<Tid>, b: seq<Tid>, id: Tid)
    ensures Occ(a + b, id) == Occ(a, id) + Occ(b, id)
  {
    if a == [] {
      assert a + b == b;
    } else {
      assert (a + b)[1..] == a[1..] + b;
      OccConcat(a[1..], b, id);
    }
  }

  lemma {:induction false} OccIn(q: seq<Tid>, id: Tid)
    ensures Occ(q, id) > 0 <==> id in q
  {
    if q != [] { OccIn(q[1..], id); }
  }

  lemma {:induction false} ReadyOccUpdate(qs: seq<seq<Tid>>, p: nat, q: seq<Tid>, id: Tid)
    requires p < |qs|
    ensures ReadyOcc(qs[p := q], id) == ReadyOcc(qs, id) - Occ(qs[p], id) + Occ(q, id)
    ensures Occ(qs[p], id) <= ReadyOcc(qs, id)
  {
    if p > 0 {
      assert qs[p := q][1..] == qs[1..][p - 1 := q];
      ReadyOccUpdate(qs[1..], p - 1, q, id);
    }
  }

  // ---------------------------------------------------------------- the invariant

  /** Sleeping threads wait for their deadline only, so no event can resume them. */
  predicate FitsDelay(t: Thread) {
    t.state == Waiting && t.flags * MASK_WAIT == {Timeout}
  }

  /** In the wait queue a thread is already resumed, about to die, or waiting for some event. */
  predicate FitsWait(t: Thread) {
    t.state == Ready || (t.state == Waiting && (Terminate in t.flags || t.flags * MASK_EVENTS != {}))
  }

  ghost predicate FitsReady(m: map<Tid, Thread>, q: seq<Tid>, p: nat) {
    forall id :: id in q ==> Record(m, id).state == Ready && Record(m, id).prio == p
  }

  ghost predicate FitsAllReady(m: map<Tid, Thread>, qs: seq<seq<Tid>>) {
    |qs| == PRIORITIES && forall p :: 0 <= p < PRIORITIES ==> FitsReady(m, qs[p], p)
  }

  ghost predicate AllDelayed(m: map<Tid, Thread>, q: seq<Tid>) {
    forall id :: id in q ==> FitsDelay(Record(m, id))
  }

  ghost predicate AllWaiting(m: map<Tid, Thread>, q: seq<Tid>) {
    forall id :: id in q ==> FitsWait(Record(m, id))
  }

  ghost predicate AllDead(m: map<Tid, Thread>, q: seq<Tid>) {
    forall id :: id in q ==> Record(m, id).state == Dead
  }

  ghost predicate AllRunning(m: map<Tid, Thread>, apart: set<Tid>) {
    forall id :: id in apart ==> Record(m, id).state == Running
  }

  ghost predicate Priorities(m: map<Tid, Thread>) {
    forall id :: id in m ==> m[id].prio < PRIORITIES
  }

  /** Every thread's state matches the queue it is in. */
  ghost predicate Fits(s: Sys, apart: set<Tid>) {
    && FitsAllReady(s.threads, s.ready) && AllDelayed(s.threads, s.delayed)
    && AllWaiting(s.threads, s.waiting) && AllDead(s.threads, s.dead)
    && AllRunning(s.threads, apart) && Priorities(s.threads)
  }

  /** The threads in `who`, and no others, have exactly one place. */
  ghost predicate Once(s: Sys, apart: set<Tid>, who: set<Tid>) {
    forall id :: Places(s, apart, id) == if id in who then 1 else 0
  }

  /** Each live thread has exactly one place, which its state matches. */
  ghost predicate Placed(s: Sys, apart: set<Tid>) {
    Once(s, apart, s.threads.Keys) && Fits(s, apart)
  }

  /** The same, but for one thread that has been unlinked and not linked again yet. */
  ghost predicate Loose(s: Sys, apart: set<Tid>, id: Tid) {
    Once(s, apart, s.threads.Keys - {id}) && id in s.threads && Fits(s, apart)
  }

  // ---------------------------------------------------------------- unlinking

  lemma NotLinked(s: Sys, apart: set<Tid>, who: set<Tid>, id: Tid)
    requires Once(s, apart, who) && id !in who && |s.ready| == PRIORITIES
    ensures id !in s.delayed && id !in s.waiting && id !in s.dead && id !in apart
    ensures forall p :: 0 <= p < PRIORITIES ==> id !in s.ready[p]
  {
    assert Places(s, apart, id) == 0;
    OccIn(s.delayed, id);
    OccIn(s.waiting, id);
    OccIn(s.dead, id);
    forall p | 0 <= p < PRIORITIES ensures id !in s.ready[p] {
      ReadyOccUpdate(s.ready, p, [], id);
      OccIn(s.ready[p], id);
    }
  }

  /** A queued thread is a live one. */
  lemma Live(s: Sys, apart: set<Tid>, id: Tid)
    requires Placed(s, apart) && Places(s, apart, id) > 0
    ensures id in s.threads
  {
  }

  lemma LooseFromWait(s: Sys, apart: set<Tid>)
    requires Placed(s, apart) && s.waiting != []
    ensures Loose(s.(waiting := s.waiting[1..]), apart, s.waiting[0])
  {
    var id, u := s.waiting[0], s.(waiting := s.waiting[1..]);
    forall x ensures Places(u, apart, x) == Places(s, apart, x) - if x == id then 1 else 0 {}
    assert Places(s, apart, id) > 0;
  }

  lemma LooseFromDelay(s: Sys, apart: set<Tid>)
    requires Placed(s, apart) && s.delayed != []
    ensures Loose(s.(delayed := s.delayed[1..]), apart, s.delayed[0])
  {
    var id, u := s.delayed[0], s.(delayed := s.delayed[1..]);
    forall x ensures Places(u, apart, x) == Places(s, apart, x) - if x == id then 1 else 0 {}
    assert Places(s, apart, id) > 0;
  }

  lemma LooseFromReady(s: Sys, apart: set<Tid>, q: nat)
    requires Placed(s, apart) && q < PRIORITIES && s.ready[q] != []
    ensures Loose(ReadyRest(s, q), apart, s.ready[q][0])
  {
    var id, u := s.ready[q][0], ReadyRest(s, q);
    forall x ensures Places(u, apart, x) == Places(s, apart, x) - if x == id then 1 else 0 {
      ReadyOccUpdate(s.ready, q, s.ready[q][1..], x);
    }
    ReadyOccUpdate(s.ready, q, [], id);
    assert Places(s, apart, id) > 0;
  }

  /** The running thread, about to be linked somewhere. */
  lemma LooseFromRunning(s: Sys, me: Tid)
    requires Placed(s, {me})
    ensures Loose(s, {}, me)
  {
    forall x ensures Places(s, {}, x) == Places(s, {me}, x) - if x == me then 1 else 0 {}
    assert Places(s, {me}, me) > 0;
  }

  // ---------------------------------------------------------------- linking

  lemma LooseToReady(s: Sys, apart: set<Tid>, id: Tid, t: Thread)
    requires Loose(s, apart, id) && t.state == Ready && t.prio < PRIORITIES
    ensures Placed(PushReady(Put(s, id, t), t.prio, id), apart)
  {
    NotLinked(s, apart, s.threads.Keys - {id}, id);
    var u := PushReady(Put(s, id, t), t.prio, id);
    assert u.threads.Keys == s.threads.Keys;
    forall x ensures Places(u, apart, x) == Places(s, apart, x) + if x == id then 1 else 0 {
      ReadyOccUpdate(s.ready, t.prio, s.ready[t.prio] + [id], x);
      OccConcat(s.ready[t.prio], [id], x);
    }
  }

  lemma LooseToDead(s: Sys, apart: set<Tid>, id: Tid)
    requires Loose(s, apart, id)
    ensures Placed(PushDead(s, id), apart)
  {
    NotLinked(s, apart, s.threads.Keys - {id}, id);
    var u := PushDead(s, id);
    assert u.threads.Keys == s.threads.Keys;
    forall x ensures Places(u, apart, x) == Places(s, apart, x) + if x == id then 1 else 0 {
      OccConcat(s.dead, [id], x);
    }
  }

  lemma LooseToWait(s: Sys, apart: set<Tid>, id: Tid, t: Thread)
    requires Loose(s, apart, id) && FitsWait(t) && t.prio < PRIORITIES
    ensures Placed(Put(s, id, t).(waiting := s.waiting + [id]), apart)
  {
    NotLinked(s, apart, s.threads.Keys - {id}, id);
    var u := Put(s, id, t).(waiting := s.waiting + [id]);
    assert u.threads.Keys == s.threads.Keys;
    forall x ensures Places(u, apart, x) == Places(s, apart, x) + if x == id then 1 else 0 {
      OccConcat(s.waiting, [id], x);
    }
  }

  lemma LooseToRunning(s: Sys, id: Tid)
    requires Loose(s, {}, id)
    ensures Placed(Put(s, id, Get(s, id).(state := Running)).(running := Some(id)), {id})
  {
    NotLinked(s, {}, s.threads.Keys - {id}, id);
    var u := Put(s, id, Get(s, id).(state := Running)).(running := Some(id));
    assert u.threads.Keys == s.threads.Keys;
    forall x ensures Places(u, {id}, x) == Places(s, {}, x) + if x == id then 1 else 0 {}
  }

  // ---------------------------------------------------------------- resuming

  lemma SleeperIsDeaf(t: Thread, flags: set<Flag>)
    requires FitsDelay(t) && flags <= MASK_EVENTS
    ensures !CanResume(t, flags)
  {
    assert flags * (t.flags * MASK_WAIT) == flags * {Timeout} == {};
  }

  /** A waiting thread changes state in its own place: events cannot reach a sleeper. */
  lemma ResumeKeepsPlaces(s: Sys, apart: set<Tid>, flags: set<Flag>, id: Tid)
    requires Placed(s, apart) && flags <= MASK_EVENTS
    ensures Placed(Resume(s, flags, id), apart)
    ensures Resume(s, flags, id).threads.Keys == s.threads.Keys
  {
    if id in s.threads && CanResume(s.threads[id], flags) {
      var u := Resume(s, flags, id);
      assert u.threads.Keys == s.threads.Keys;
      forall x ensures Places(u, apart, x) == Places(s, apart, x) {}
      assert id !in s.delayed by {
        if FitsDelay(Record(s.threads, id)) { SleeperIsDeaf(s.threads[id], flags); }
      }
    }
  }

  lemma {:induction false} ResumeAllKeepsPlaces(s: Sys, apart: set<Tid>, wakes: seq<Wake>)
    requires Placed(s, apart)
    ensures Placed(ResumeAll(s, wakes), apart)
    ensures ResumeAll(s, wakes).threads.Keys == s.threads.Keys
    decreases |wakes|
  {
    if wakes != [] {
      ResumeKeepsPlaces(s, apart, wakes[0].flags * MASK_EVENTS, wakes[0].id);
      ResumeAllKeepsPlaces(Resume(s, wakes[0].flags * MASK_EVENTS, wakes[0].id), apart, wakes[1..]);
    }
  }

  // ---------------------------------------------------------------- the wait queue

  /** A timed-out waiter that is not being killed can always be resumed. */
  lemma WaiterResumes(t: Thread)
    requires FitsWait(t) && t.state == Waiting && Terminate !in t.flags
    ensures CanResume(t, t.flags * MASK_EVENTS)
  {
    var f :| f in t.flags * MASK_EVENTS;
    assert f in t.flags * MASK_EVENTS * (t.flags * MASK_WAIT);
  }

  lemma WaitHeadKeepsPlaces(s: Sys, apart: set<Tid>, now: nat)
    requires Placed(s, apart) && s.waiting != []
    ensures Placed(WaitHead(s, now), apart)
    ensures WaitHead(s, now).threads.Keys == s.threads.Keys
  {
    var id := s.waiting[0];
    var t := Get(s, id);
    var rest := s.(waiting := s.waiting[1..]);
    LooseFromWait(s, apart);
    assert id in s.waiting;
    if t.state == Waiting {
      if Terminate in t.flags {
        LooseToDead(rest, apart, id);
      } else if Expired(t, now) {
        WaiterResumes(t);
        LooseToReady(rest, apart, id, Resumed(t));
      } else {
        WakeFieldsDoNotMatter(s, WaitHead(s, now), apart);
      }
    } else {
      assert Put(rest, id, t) == rest;
      LooseToReady(rest, apart, id, t);
    }
  }

  lemma WakeFieldsDoNotMatter(s: Sys, u: Sys, apart: set<Tid>)
    requires Placed(s, apart) && u.(wakeWait := s.wakeWait, wakeDelay := s.wakeDelay) == s
    ensures Placed(u, apart)
  {
    forall x ensures Places(u, apart, x) == Places(s, apart, x) {}
  }

  lemma RollKeepsPlaces(s: Sys, apart: set<Tid>)
    requires Placed(s, apart)
    ensures Placed(s.(waiting := Roll(s.waiting)), apart)
  {
    var u := s.(waiting := Roll(s.waiting));
    if |s.waiting| > 1 {
      forall x ensures Places(u, apart, x) == Places(s, apart, x) {
        OccConcat(s.waiting[1..], [s.waiting[0]], x);
      }
    }
  }

  lemma {:induction false} WaitTurnsKeepsPlaces(s: Sys, apart: set<Tid>, now: nat, turns: nat)
    requires Placed(s, apart)
    ensures Placed(WaitTurns(s, now, turns), apart)
    ensures WaitTurns(s, now, turns).threads.Keys == s.threads.Keys
    decreases turns
  {
    if turns > 0 && s.waiting != [] {
      WaitHeadKeepsPlaces(s, apart, now);
      RollKeepsPlaces(WaitHead(s, now), apart);
      WaitTurnsKeepsPlaces(WaitTurn(s, now), apart, now, turns - 1);
    }
  }

  // ---------------------------------------------------------------- the delay queue

  lemma DelayHeadKeepsPlaces(s: Sys, apart: set<Tid>)
    requires Placed(s, apart) && s.delayed != []
    ensures Placed(DelayHead(s), apart)
    ensures DelayHead(s).threads.Keys == s.threads.Keys
  {
    var id := s.delayed[0];
    var t := Get(s, id);
    assert id in s.delayed;
    LooseFromDelay(s, apart);
    assert Timeout in t.flags * MASK_WAIT;
    assert Timeout in {Timeout} * (t.flags * MASK_WAIT);
    LooseToReady(s.(delayed := s.delayed[1..]), apart, id, Resumed(t));
  }

  lemma {:induction false} DelayTurnsKeepsPlaces(s: Sys, apart: set<Tid>, now: nat)
    requires Placed(s, apart)
    ensures Placed(DelayTurns(s, now), apart)
    ensures DelayTurns(s, now).threads.Keys == s.threads.Keys
    decreases |s.delayed|
  {
    if s.delayed != [] {
      if Get(s, s.delayed[0]).delay <= now {
        DelayHeadKeepsPlaces(s, apart);
        DelayTurnsKeepsPlaces(DelayHead(s), apart, now);
      } else {
        WakeFieldsDoNotMatter(s, DelayTurns(s, now), apart);
      }
    }
  }
}
