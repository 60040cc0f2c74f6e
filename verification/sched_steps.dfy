/**
 One lemma per kernel call, whole runs, and the two kills that break the invariant.
 */
module SchedSteps {
  import opened Sched
  import opened SchedInv
  import opened SchedRuns

  // ---------------------------------------------------------------- the sleeping order

  /** The place of a new sleeper: after all deadlines up to its own, before all later ones. */
  lemma {:induction false} DelayInsertAt(s: Sys, q: seq<Tid>, id: Tid, at: nat) returns (k: nat)
    requires SleepSorted(s.threads, q)
    ensures k <= |q| && DelayInsert(s, q, id, at) == q[..k] + [id] + q[k..]
    ensures forall i :: 0 <= i < k ==> Record(s.threads, q[i]).delay <= at
    ensures forall i :: k <= i < |q| ==> at < Record(s.threads, q[i]).delay
  {
    if q == [] || at < Get(s, q[0]).delay {
      k := 0;
    } else {
      k := DelayInsertAt(s, q[1..], id, at);
      assert q[1..][..k] == q[1..k + 1];
      assert [q[0]] + (q[1..][..k] + [id] + q[1..][k..]) == q[..k + 1] + [id] + q[k + 1..];
      k := k + 1;
    }
  }

  lemma {:induction false} DelayInsertOcc(s: Sys, q: seq<Tid>, id: Tid, at: nat, x: Tid)
    ensures Occ(DelayInsert(s, q, id, at), x) == Occ(q, x) + if x == id then 1 else 0
    ensures x in DelayInsert(s, q, id, at) <==> x == id || x in q
  {
    if q == [] || at < Get(s, q[0]).delay {
      assert ([id] + q)[1..] == q;
    } else {
      DelayInsertOcc(s, q[1..], id, at, x);
      assert ([q[0]] + DelayInsert(s, q[1..], id, at))[1..] == DelayInsert(s, q[1..], id, at);
    }
  }

  lemma SleepKeepsPlaces(s: Sys, me: Tid, at: nat)
    requires Loose(s, {}, me)
    ensures Placed(Sleep(s, me, at), {})
  {
    NotLinked(s, {}, s.threads.Keys - {me}, me);
    var u := Sleep(s, me, at);
    assert u.threads.Keys == s.threads.Keys;
    forall x ensures Places(u, {}, x) == Places(s, {}, x) + if x == me then 1 else 0 {
      DelayInsertOcc(s, s.delayed, me, at, x);
    }
    assert (Get(s, me).flags - MASK_WAIT + {Timeout}) * MASK_WAIT == {Timeout};
    forall x | x in u.delayed ensures FitsDelay(Record(u.threads, x)) {
      DelayInsertOcc(s, s.delayed, me, at, x);
    }
  }

  lemma SleepInsertSorted(s: Sys, u: Sys, me: Tid, at: nat, k: nat)
    requires SleepSorted(s.threads, s.delayed) && me !in s.delayed && k <= |s.delayed|
    requires u.threads == s.threads[me := Record(u.threads, me)] && Record(u.threads, me).delay == at
    requires u.delayed == s.delayed[..k] + [me] + s.delayed[k..]
    requires forall i :: 0 <= i < k ==> Record(s.threads, s.delayed[i]).delay <= at
    requires forall i :: k <= i < |s.delayed| ==> at < Record(s.threads, s.delayed[i]).delay
    ensures SleepSorted(u.threads, u.delayed)
  {
    var q, r := s.delayed, u.delayed;
    forall i | 0 <= i < |r| && i != k
      ensures Record(u.threads, r[i]).delay == Record(s.threads, q[if i < k then i else i - 1]).delay
    {
      assert r[i] == q[if i < k then i else i - 1];
      assert r[i] in q;
    }
    forall i, j | 0 <= i < j < |r| ensures Record(u.threads, r[i]).delay <= Record(u.threads, r[j]).delay {
      if i != k && j != k {
        var ii, jj := if i < k then i else i - 1, if j < k then j else j - 1;
        assert Record(s.threads, q[ii]).delay <= Record(s.threads, q[jj]).delay;
      }
    }
  }

  /**
   schedule_delayed wakes exactly the sleepers whose deadline has come. `Due` is that front part of
   the queue; each ready queue receives its own priority's share of it, in the same order.
   */
  ghost function Due(m: map<Tid, Thread>, q: seq<Tid>, now: nat): seq<Tid> {
    if q == [] || Record(m, q[0]).delay > now then [] else [q[0]] + Due(m, q[1..], now)
  }

  ghost function OfPriority(m: map<Tid, Thread>, q: seq<Tid>, p: nat): seq<Tid> {
    if q == [] then []
    else (if Record(m, q[0]).prio == p then [q[0]] else []) + OfPriority(m, q[1..], p)
  }

  lemma {:induction false} DueMeaning(m: map<Tid, Thread>, q: seq<Tid>, now: nat)
    requires SleepSorted(m, q)
    ensures |Due(m, q, now)| <= |q| && Due(m, q, now) == q[..|Due(m, q, now)|]
    ensures forall i :: 0 <= i < |q| ==> (i < |Due(m, q, now)| <==> Record(m, q[i]).delay <= now)
  {
    if q != [] && Record(m, q[0]).delay <= now {
      DueMeaning(m, q[1..], now);
      forall i | 0 < i < |q| ensures i < |Due(m, q, now)| <==> Record(m, q[i]).delay <= now {
        assert q[i] == q[1..][i - 1];
      }
    }
  }

  lemma {:induction false} DueSame(m: map<Tid, Thread>, n: map<Tid, Thread>, q: seq<Tid>, now: nat, p: nat)
    requires forall id :: id in q ==> Record(m, id) == Record(n, id)
    ensures Due(m, q, now) == Due(n, q, now)
    ensures OfPriority(m, Due(m, q, now), p) == OfPriority(n, Due(n, q, now), p)
  {
    if q != [] {
      assert q[0] in q;
      DueSame(m, n, q[1..], now, p);
    }
  }

  lemma DelayHeadEffect(s: Sys, apart: set<Tid>, p: nat)
    requires Placed(s, apart) && s.delayed != [] && p < PRIORITIES
    ensures |DelayHead(s).ready| == PRIORITIES
    ensures DelayHead(s).ready[p] == s.ready[p] + OfPriority(s.threads, [s.delayed[0]], p)
  {
    var id := s.delayed[0];
    assert id in s.delayed;
    assert FitsDelay(Record(s.threads, id));
    assert Timeout in Get(s, id).flags * MASK_WAIT;
    assert Timeout in {Timeout} * (Get(s, id).flags * MASK_WAIT);
    LooseFromDelay(s, apart);
    assert OfPriority(s.threads, [id], p) == if Get(s, id).prio == p then [id] else [];
  }

  lemma DueAfterHead(s: Sys, apart: set<Tid>, now: nat, p: nat)
    requires Placed(s, apart) && s.delayed != []
    ensures var m, n, rest := s.threads, DelayHead(s).threads, s.delayed[1..];
            Due(m, rest, now) == Due(n, rest, now) &&
            OfPriority(m, Due(m, rest, now), p) == OfPriority(n, Due(n, rest, now), p)
  {
    DelayHeadKeeps(s, apart);
    DueSame(s.threads, DelayHead(s).threads, s.delayed[1..], now, p);
  }

  /** Exactly the due sleepers left the delay queue, and those of priority `p` queued up in order. */
  ghost predicate Woke(s: Sys, u: Sys, now: nat, p: nat) {
    && p < |s.ready| && p < |u.ready|
    && s.delayed == Due(s.threads, s.delayed, now) + u.delayed
    && u.ready[p] == s.ready[p] + OfPriority(s.threads, Due(s.threads, s.delayed, now), p)
  }

  lemma {:induction false} DelayWakesExactlyTheDue(s: Sys, apart: set<Tid>, now: nat, p: nat)
    requires Placed(s, apart) && p < PRIORITIES
    ensures Woke(s, DelayTurns(s, now), now, p)
    decreases |s.delayed|
  {
    if s.delayed != [] && Get(s, s.delayed[0]).delay <= now {
      DelayHeadKeepsPlaces(s, apart);
      DelayHeadEffect(s, apart, p);
      DueAfterHead(s, apart, now, p);
      DelayWakesExactlyTheDue(DelayHead(s), apart, now, p);
      WokeOneMore(s, DelayHead(s), DelayTurns(s, now), now, p);
    }
  }

  lemma WokeOneMore(s: Sys, h: Sys, u: Sys, now: nat, p: nat)
    requires s.delayed != [] && Get(s, s.delayed[0]).delay <= now && h.delayed == s.delayed[1..]
    requires Due(s.threads, h.delayed, now) == Due(h.threads, h.delayed, now)
    requires OfPriority(s.threads, Due(s.threads, h.delayed, now), p) == OfPriority(h.threads,
        Due(h.threads, h.delayed, now), p)
    requires p < |s.ready| && p < |h.ready| && h.ready[p] == s.ready[p] + OfPriority(s.threads, [s.delayed[0]], p)
    requires Woke(h, u, now, p)
    ensures Woke(s, u, now, p)
  {
    var id, due := s.delayed[0], Due(s.threads, h.delayed, now);
    assert Due(s.threads, s.delayed, now) == [id] + due;
    assert s.delayed == [id] + h.delayed;
    Assoc([id], due, u.delayed);
    WokenInOrder(s.threads, id, due, p);
    Assoc(s.ready[p], OfPriority(s.threads, [id], p), OfPriority(s.threads, due, p));
  }

  lemma Assoc(a: seq<Tid>, b: seq<Tid>, c: seq<Tid>)
    ensures a + b + c == a + (b + c)
  {
  }

  lemma WokenInOrder(m: map<Tid, Thread>, id: Tid, due: seq<Tid>, p: nat)
    ensures OfPriority(m, [id] + due, p) == OfPriority(m, [id], p) + OfPriority(m, due, p)
  {
    assert ([id] + due)[1..] == due && [id][1..] == [];
  }

  /** The head alone gives the time to the next wake-up: the least remaining delay, capped. */
  lemma DelayHeadGivesMinimum(s: Sys, apart: set<Tid>, now: nat)
    requires Placed(s, apart) && SleepSorted(s.threads, s.delayed)
    ensures var u := DelayPass(s, now);
            && u.wakeDelay <= DELAY_MAX
            && (forall id :: id in u.delayed ==>
                  Record(u.threads, id).delay > now && u.wakeDelay <= Record(u.threads, id).delay - now)
            && (u.wakeDelay < DELAY_MAX ==>
                  exists id :: id in u.delayed && u.wakeDelay == Record(u.threads, id).delay - now)
  {
    hide Keeps, Placed, DelayTurns;
    DelayPassSorted(s, apart, now);
    DelayStops(s.(wakeDelay := DELAY_MAX), now);
    HeadGivesMinimum(DelayPass(s, now), now);
  }

  lemma DelayPassSorted(s: Sys, apart: set<Tid>, now: nat)
    requires Placed(s, apart) && SleepSorted(s.threads, s.delayed)
    ensures SleepSorted(DelayPass(s, now).threads, DelayPass(s, now).delayed)
  {
    hide Placed;
    DelayPassKeeps(s, apart, now);
    SuffixSorted(s, DelayPass(s, now));
  }

  /** In a sorted queue the head alone tells the least remaining delay. */
  lemma HeadGivesMinimum(u: Sys, now: nat)
    requires SleepSorted(u.threads, u.delayed)
    requires if u.delayed == [] then u.wakeDelay == DELAY_MAX
             else Record(u.threads, u.delayed[0]).delay > now
                  && u.wakeDelay == Sooner(DELAY_MAX, Record(u.threads, u.delayed[0]), now)
    ensures u.wakeDelay <= DELAY_MAX
    ensures forall id :: id in u.delayed ==>
        Record(u.threads, id).delay > now && u.wakeDelay <= Record(u.threads, id).delay - now
    ensures u.wakeDelay < DELAY_MAX ==> exists id :: id in u.delayed && u.wakeDelay == Record(u.threads, id).delay - now
  {
    hide Record;
    forall id | id in u.delayed ensures Record(u.threads, u.delayed[0]).delay <= Record(u.threads, id).delay {
      var i :| 0 <= i < |u.delayed| && u.delayed[i] == id;
    }
    if u.delayed != [] { assert u.delayed[0] in u.delayed; }
  }

  lemma SuffixSorted(s: Sys, u: Sys)
    requires Keeps(s, u) && SleepSorted(s.threads, s.delayed)
    ensures SleepSorted(u.threads, u.delayed)
  {
    var k := |s.delayed| - |u.delayed|;
    forall i, j | 0 <= i < j < |u.delayed|
      ensures Record(u.threads, u.delayed[i]).delay <= Record(u.threads, u.delayed[j]).delay
    {
      assert u.delayed[i] == s.delayed[k + i] && u.delayed[j] == s.delayed[k + j];
      assert u.delayed[i] in u.delayed && u.delayed[j] in u.delayed;
    }
  }

  lemma {:induction false} DelayStops(s: Sys, now: nat)
    ensures var u := DelayTurns(s, now);
            if u.delayed == [] then u.wakeDelay == s.wakeDelay
            else Record(u.threads, u.delayed[0]).delay > now &&
                 u.wakeDelay == Sooner(s.wakeDelay, Record(u.threads, u.delayed[0]), now)
    decreases |s.delayed|
  {
    if s.delayed != [] && Get(s, s.delayed[0]).delay <= now { DelayStops(DelayHead(s), now); }
  }

  // ---------------------------------------------------------------- the calls

  lemma YieldChooses(s: Sys, me: Tid)
    requires Placed(s, {me}) && IdleSafe(s) && SleepSorted(s.threads, s.delayed)
    ensures Choosing(Yield(s, me))
  {
    LooseFromRunning(s, me);
    NotLinked(s, {}, s.threads.Keys - {me}, me);
    var t := Get(s, me).(state := Ready);
    LooseToReady(s, {}, me, t);
    SortedElsewhere(s, Yield(s, me), me);
  }

  /** The sleepers do not notice another thread's record changing. */
  lemma SortedElsewhere(s: Sys, u: Sys, me: Tid)
    requires SleepSorted(s.threads, s.delayed) && me !in s.delayed && u.delayed == s.delayed
    requires forall id :: id != me ==> Record(u.threads, id) == Record(s.threads, id)
    ensures SleepSorted(u.threads, u.delayed)
  {
    forall i | 0 <= i < |s.delayed| ensures Record(u.threads, u.delayed[i]) == Record(s.threads, s.delayed[i]) {
      assert s.delayed[i] in s.delayed;
    }
  }

  lemma SleepChooses(s: Sys, at: nat)
    requires Inv(s) && s.running.value != IDLE
    ensures Choosing(Sleep(s, s.running.value, at))
  {
    var me := s.running.value;
    LooseFromRunning(s, me);
    NotLinked(s, {}, s.threads.Keys - {me}, me);
    SleepKeepsPlaces(s, me, at);
    var k := DelayInsertAt(s, s.delayed, me, at);
    SleepInsertSorted(s, Sleep(s, me, at), me, at, k);
  }

  lemma BlockChooses(s: Sys, flags: set<Flag>, msecs: nat, clock: nat)
    requires Inv(s) && s.running.value != IDLE && flags * MASK_EVENTS != {}
    ensures Choosing(Block(s, s.running.value, flags, msecs, clock))
  {
    var me := s.running.value;
    LooseFromRunning(s, me);
    NotLinked(s, {}, s.threads.Keys - {me}, me);
    var u := Block(s, me, flags, msecs, clock);
    var t := Get(u, me);
    assert t.flags * MASK_EVENTS >= flags * MASK_EVENTS;
    LooseToWait(s, {}, me, t);
    SortedElsewhere(s, u, me);
  }

  lemma {:induction false} FirstFreeMeaning(threads: map<Tid, Thread>, i: nat)
    ensures var f := FirstFree(threads, i);
            && i <= f && (f < MAX_THREADS ==> f !in threads)
            && (forall j :: i <= j < f ==> j in threads)
    decreases MAX_THREADS - i
  {
    if i < MAX_THREADS && i in threads { FirstFreeMeaning(threads, i + 1); }
  }

  lemma CreateKeepsInv(s: Sys, name: string, prio: nat, ownStack: bool)
    requires Inv(s)
    ensures Inv(Create(s, name, prio, ownStack).0)
  {
    var (u, made) := Create(s, name, prio, ownStack);
    if made.Some? {
      var id, me := made.value, s.running.value;
      FirstFreeMeaning(s.threads, 0);
      NotLinked(s, {me}, s.threads.Keys, id);
      var t := Thread(Trunc(name), prio, Ready, if ownStack then {} else {ReleaseStack}, 0);
      var v := Put(s, id, t);
      NewSlotIsLoose(s, id, t);
      LooseToReady(v, {me}, id, t);
      assert Put(v, id, t) == v;
      SortedElsewhere(s, u, id);
    }
  }

  lemma NewSlotIsLoose(s: Sys, id: Tid, t: Thread)
    requires s.running.Some? && Placed(s, {s.running.value}) && id !in s.threads && t.prio < PRIORITIES
    ensures Loose(Put(s, id, t), {s.running.value}, id)
  {
    var me, v := s.running.value, Put(s, id, t);
    NotLinked(s, {me}, s.threads.Keys, id);
    assert v.threads.Keys - {id} == s.threads.Keys;
    forall x ensures Places(v, {me}, x) == Places(s, {me}, x) {}
    forall p | 0 <= p < PRIORITIES ensures FitsReady(v.threads, v.ready[p], p) {
      assert FitsReady(s.threads, s.ready[p], p);
    }
  }

  lemma TerminateChooses(s: Sys)
    requires Inv(s) && s.running.value != IDLE
    ensures Choosing(PushDead(s, s.running.value))
  {
    var me := s.running.value;
    LooseFromRunning(s, me);
    NotLinked(s, {}, s.threads.Keys - {me}, me);
    LooseToDead(s, {}, me);
    SortedElsewhere(s, PushDead(s, me), me);
  }

  // ---------------------------------------------------------------- killing another thread

  /** The two waiters whose kill the code gets wrong: a sleeper, and an untimed mutex waiter. */
  predicate Unkillable(s: Sys, id: Tid) {
    id in s.threads && s.threads[id].state == Waiting &&
    (id in s.delayed || s.threads[id].flags * MASK_WAIT == {Mutex})
  }

  lemma KillKeepsInv(s: Sys, id: Tid, cancelled: bool)
    requires Inv(s) && id != s.running.value && Remove(s, id, cancelled).Continue? && !Unkillable(s, id)
    ensures Inv(Remove(s, id, cancelled).s)
  {
    var me, u := s.running.value, Remove(s, id, cancelled).s;
    var t := s.threads[id];
    assert Places(s, {me}, id) == 1;
    assert t.state != Running by { if t.state == Running { RunningIsApart(s, {me}, id); } }
    assert id in s.delayed ==> FitsDelay(Record(s.threads, id));
    assert u.threads.Keys == s.threads.Keys;
    forall x ensures Places(u, {me}, x) == Places(s, {me}, x) {}
    assert Get(u, id).state == t.state && Get(u, id).prio == t.prio && Terminate in Get(u, id).flags;
    forall p | 0 <= p < PRIORITIES ensures FitsReady(u.threads, u.ready[p], p) {
      assert FitsReady(s.threads, s.ready[p], p);
    }
    assert Record(s.threads, me).state == Running;
    SortedElsewhere(s, u, id);
  }

  lemma RunningIsApart(s: Sys, apart: set<Tid>, id: Tid)
    requires Placed(s, apart) && id in s.threads && s.threads[id].state == Running
    ensures id in apart
  {
    assert Places(s, apart, id) == 1;
    if id !in apart {
      OccIn(s.delayed, id);
      OccIn(s.waiting, id);
      OccIn(s.dead, id);
      if ReadyOcc(s.ready, id) > 0 {
        var r := ReadyOccIn(s.ready, id);
        assert false;
      }
    }
  }

  /** Killing a sleeper or an untimed mutex waiter always breaks the invariant. */
  lemma KillBreaksInv(s: Sys, id: Tid, cancelled: bool)
    requires Inv(s) && id != s.running.value && Remove(s, id, cancelled).Continue? && Unkillable(s, id)
    ensures !Inv(Remove(s, id, cancelled).s)
  {
    var me, u := s.running.value, Remove(s, id, cancelled).s;
    var kinds := s.threads[id].flags * MASK_WAIT;
    if id in s.delayed {
      assert FitsDelay(Record(s.threads, id));
      assert Timeout in kinds && Timeout !in {Mutex};
      assert id in u.delayed && Timeout !in Get(u, id).flags;
      assert Timeout !in Get(u, id).flags * MASK_WAIT;
    } else {
      assert Places(s, {me}, id) == 1;
      OccConcat(s.dead, [id], id);
      assert Places(u, {me}, id) == 2;
    }
  }

  /** A kill keeps the invariant if and only if its target is neither of those two. */
  lemma KillKeepsInvIff(s: Sys, id: Tid, cancelled: bool)
    requires Inv(s) && id != s.running.value && Remove(s, id, cancelled).Continue?
    ensures Inv(Remove(s, id, cancelled).s) <==> !Unkillable(s, id)
  {
    if Unkillable(s, id) { KillBreaksInv(s, id, cancelled); } else { KillKeepsInv(s, id, cancelled); }
  }

  /** A waiting thread that is in no place at all. */
  ghost predicate Lost(s: Sys, apart: set<Tid>, id: Tid) {
    id in s.threads && s.threads[id].state == Waiting && Places(s, apart, id) == 0
  }

  /** A sleeper whose wait flags are gone, at position `i` of the due part of the delay queue. */
  ghost predicate Stuck(s: Sys, apart: set<Tid>, id: Tid, now: nat, i: nat) {
    && id in s.threads && s.threads[id].state == Waiting && s.threads[id].flags * MASK_WAIT == {}
    && Places(s, apart, id) == 1 && i < |s.delayed| && s.delayed[i] == id
    && forall j :: 0 <= j <= i ==> Record(s.threads, s.delayed[j]).delay <= now
  }

  /** Waking another sleeper does not touch the thread. */
  lemma DelayHeadOther(s: Sys, apart: set<Tid>, id: Tid)
    requires s.delayed != [] && s.delayed[0] != id
    ensures Places(DelayHead(s), apart, id) == Places(s, apart, id)
    ensures Record(DelayHead(s).threads, id) == Record(s.threads, id) &&
        (id in s.threads ==> id in DelayHead(s).threads)
    ensures forall x :: Record(DelayHead(s).threads, x).delay <= Record(s.threads, x).delay
  {
    var h := s.delayed[0];
    var t := Get(s, h);
    if t.prio < |s.ready| {
      ReadyOccUpdate(s.ready, t.prio, s.ready[t.prio] + [h], id);
      OccConcat(s.ready[t.prio], [h], id);
      assert Occ([h], id) == 0;
    }
  }

  lemma {:induction false} LostStays(s: Sys, apart: set<Tid>, id: Tid, now: nat)
    requires Lost(s, apart, id)
    ensures Lost(DelayTurns(s, now), apart, id)
    decreases |s.delayed|
  {
    if s.delayed != [] && Get(s, s.delayed[0]).delay <= now {
      assert Occ(s.delayed, s.delayed[0]) > 0;
      DelayHeadOther(s, apart, id);
      LostStays(DelayHead(s), apart, id, now);
    }
  }

  lemma {:induction false} StuckIsLost(s: Sys, apart: set<Tid>, id: Tid, now: nat, i: nat)
    requires Stuck(s, apart, id, now, i)
    ensures Lost(DelayTurns(s, now), apart, id)
    decreases i
  {
    var h, v := s.delayed[0], DelayHead(s);
    if i == 0 {
      assert {Timeout} * (Get(s, id).flags * MASK_WAIT) == {};
      LostStays(v, apart, id, now);
    } else {
      OccIn(s.delayed[1..], id);
      assert s.delayed[1..][i - 1] == id;
      assert h != id;
      DelayHeadOther(s, apart, id);
      forall j | 0 <= j <= i - 1 ensures Record(v.threads, v.delayed[j]).delay <= now {
        assert v.delayed[j] == s.delayed[j + 1];
      }
      StuckIsLost(v, apart, id, now, i - 1);
    }
  }

  /** What then goes wrong: the pass that finds the killed sleeper due unlinks it and queues it nowhere. */
  lemma KilledSleeperIsLost(s: Sys, id: Tid, cancelled: bool, now: nat)
    requires Inv(s) && id in s.delayed && Remove(s, id, cancelled).Continue? && Record(s.threads, id).delay <= now
    ensures Lost(DelayPass(Remove(s, id, cancelled).s, now), {s.running.value}, id)
  {
    var me, k := s.running.value, Remove(s, id, cancelled).s;
    var i :| 0 <= i < |s.delayed| && s.delayed[i] == id;
    SleeperKilled(s, id, cancelled);
    var a := k.(wakeDelay := DELAY_MAX);
    forall j | 0 <= j <= i ensures Record(a.threads, a.delayed[j]).delay <= now {
      assert Record(a.threads, a.delayed[j]).delay == Record(s.threads, s.delayed[j]).delay;
    }
    StuckIsLost(a, {me}, id, now, i);
  }

  /** The kill of a sleeper clears its wait flags and leaves it where it is. */
  lemma SleeperKilled(s: Sys, id: Tid, cancelled: bool)
    requires Inv(s) && id in s.delayed && Remove(s, id, cancelled).Continue?
    ensures var k := Remove(s, id, cancelled).s;
      && k.delayed == s.delayed && id in k.threads && k.threads[id].state == Waiting &&
          k.threads[id].flags * MASK_WAIT == {}
      && Places(k, {s.running.value}, id) == 1 && forall x :: Record(k.threads, x).delay == Record(s.threads, x).delay
  {
    assert FitsDelay(Record(s.threads, id));
    OccIn(s.delayed, id);
    Live(s, {s.running.value}, id);
    var kinds := s.threads[id].flags * MASK_WAIT;
    assert Timeout in kinds && Timeout !in {Mutex} && Timeout !in {Event} && Timeout !in {Barrier} &&
        Timeout !in {Completion};
    assert Places(s, {s.running.value}, id) == 1;
  }

  // ---------------------------------------------------------------- runs

  predicate Allowed(s: Sys, op: Op) {
    match op
    case Kill(id, _) => !Unkillable(s, id)
    case _ => true
  }

  lemma ScheduleKeepsInv(s: Sys, env: Env)
    requires Choosing(s)
    ensures Inv(Schedule(s, env))
  {
    var p, gone := ScheduleSettles(s, env);
  }

  lemma MaySuspendKeepsInv(s: Sys, first: Env, env: Env)
    requires Inv(s)
    ensures Inv(Step(s, MaySuspend(first, env)).s)
  {
    var me, u := s.running.value, Update(s, first);
    UpdateKeeps(s, {me}, first);
    KeepsSafety(s, u);
    YieldChooses(u, me);
    ScheduleKeepsInv(Yield(u, me), env);
  }

  lemma TerminateKeepsInv(s: Sys, env: Env)
    requires Inv(s) && Step(s, TerminateSelf(env)).Continue?
    ensures Inv(Step(s, TerminateSelf(env)).s)
  {
    var me := s.running.value;
    assert Record(s.threads, me).state == Running;
    assert Places(s, {me}, me) == 1;
    TerminateChooses(s);
    ScheduleKeepsInv(PushDead(s, me), env);
  }

  lemma SuspendKeepsInv(s: Sys, env: Env)
    requires Inv(s)
    ensures Inv(Step(s, Suspend(env)).s)
  {
    YieldChooses(s, s.running.value);
    ScheduleKeepsInv(Yield(s, s.running.value), env);
  }

  lemma DelayKeepsInv(s: Sys, msecs: nat, clock: nat, env: Env)
    requires Inv(s) && Step(s, DelayFor(msecs, clock, env)).Continue?
    ensures Inv(Step(s, DelayFor(msecs, clock, env)).s)
  {
    hide Sleep, Schedule, Choosing, Placed, SleepSorted, IdleSafe;
    if msecs > 0 {
      SleepChooses(s, clock + msecs);
      ScheduleKeepsInv(Sleep(s, s.running.value, clock + msecs), env);
    }
  }

  lemma WaitKeepsInv(s: Sys, flags: set<Flag>, msecs: nat, clock: nat, env: Env)
    requires Inv(s)
    ensures Inv(Step(s, WaitFor(flags, msecs, clock, env)).s)
  {
    if s.running.value != IDLE && flags * MASK_EVENTS != {} {
      BlockChooses(s, flags, msecs, clock);
      ScheduleKeepsInv(Block(s, s.running.value, flags, msecs, clock), env);
    }
  }

  lemma ResumeOneKeepsInv(s: Sys, wake: Wake)
    requires Inv(s)
    ensures Inv(Step(s, ResumeOne(wake)).s)
  {
    ResumeKeepsPlaces(s, {s.running.value}, wake.flags * MASK_EVENTS, wake.id);
    ResumeKeeps(s, {s.running.value}, wake.flags * MASK_EVENTS, wake.id);
    KeepsSafety(s, Resume(s, wake.flags * MASK_EVENTS, wake.id));
  }

  /** Every kernel call that does not panic keeps the invariant. */
  lemma StepKeepsInv(s: Sys, op: Op)
    requires Inv(s) && Allowed(s, op) && Step(s, op).Continue?
    ensures Inv(Step(s, op).s)
  {
    match op
    case Suspend(env) => SuspendKeepsInv(s, env);
    case MaySuspend(first, env) => MaySuspendKeepsInv(s, first, env);
    case DelayFor(msecs, clock, env) => DelayKeepsInv(s, msecs, clock, env);
    case WaitFor(flags, msecs, clock, env) => WaitKeepsInv(s, flags, msecs, clock, env);
    case ResumeOne(wake) => ResumeOneKeepsInv(s, wake);
    case CreateThread(name, prio, ownStack) => CreateKeepsInv(s, name, prio, ownStack);
    case TerminateSelf(env) => TerminateKeepsInv(s, env);
    case Kill(id, cancelled) => if id != s.running.value { KillKeepsInv(s, id, cancelled); }
  }

  function Run(s: Sys, ops: seq<Op>): Outcome
    requires s.running.Some?
    decreases |ops|
  {
    if ops == [] then Continue(s)
    else
      var r := Step(s, ops[0]);
      if r.Panic? || r.s.running.None? then Panic else Run(r.s, ops[1..])
  }

  predicate AllAllowed(s: Sys, ops: seq<Op>)
    requires s.running.Some?
    decreases |ops|
  {
    ops == [] ||
    (Allowed(s, ops[0]) &&
     var r := Step(s, ops[0]);
     (r.Continue? && r.s.running.Some? ==> AllAllowed(r.s, ops[1..])))
  }

  /** The partition, the matching states, the sleeping order and the safety of idle over every run. */
  lemma {:induction false} RunKeepsInv(s: Sys, ops: seq<Op>)
    requires Inv(s) && AllAllowed(s, ops) && Run(s, ops).Continue?
    ensures Inv(Run(s, ops).s)
    decreases |ops|
  {
    if ops != [] {
      StepKeepsInv(s, ops[0]);
      RunKeepsInv(Step(s, ops[0]).s, ops[1..]);
    }
  }

  // ---------------------------------------------------------------- start-up

  /** The state kernel_threads_init leaves: idle and timers ready, nothing running. */
  function Boot(): Sys {
    var empty := Sys(map[], None, [[], [], [], []], [], [], [], DELAY_MAX, DELAY_MAX);
    var a := Create(empty, "Idle", PRIORITIES - 1, false).0;
    Create(a, "Timers", 0, false).0
  }

  lemma BootState() returns (b: Sys)
    ensures b == Boot()
    ensures b.threads == map[0 := Thread("Idle", 3, Ready, {ReleaseStack}, 0),
        1 := Thread("Timers", 0, Ready, {ReleaseStack}, 0)]
    ensures b.ready == [[1], [], [], [0]] && b.delayed == [] && b.waiting == [] && b.dead == []
  {
    b := Boot();
    var empty := Sys(map[], None, [[], [], [], []], [], [], [], DELAY_MAX, DELAY_MAX);
    assert FirstFree(empty.threads, 0) == 0;
    assert !NameTaken(empty.threads, "Idle", 0);
    assert Trunc("Idle") == "Idle" && Trunc("Timers") == "Timers";
    var a := Create(empty, "Idle", 3, false).0;
    assert a.ready[3] == [0] && a.ready[0] == [] && a.ready[1] == [] && a.ready[2] == [];
    assert FirstFree(a.threads, 1) == 1;
    assert FirstFree(a.threads, 0) == 1;
    assert SlotName(a.threads, 0) == "Idle";
    assert "Idle"[0] != "Timers"[0];
    assert !NameTaken(a.threads, "Timers", 1);
    assert b.ready[0] == [1] && b.ready[1] == [] && b.ready[2] == [] && b.ready[3] == [0];
  }

  lemma TwoReadyThreadsChoose(b: Sys)
    requires b.threads == map[0 := Thread("Idle", 3, Ready, {ReleaseStack}, 0),
        1 := Thread("Timers", 0, Ready, {ReleaseStack}, 0)]
    requires b.ready == [[1], [], [], [0]] && b.delayed == [] && b.waiting == [] && b.dead == []
    ensures Choosing(b)
  {
    forall x ensures Places(b, {}, x) == if x in b.threads then 1 else 0 { BootPlaces(b.ready, x); }
  }

  lemma BootChooses()
    ensures Choosing(Boot())
  {
    var b := BootState();
    TwoReadyThreadsChoose(b);
  }

  lemma BootPlaces(qs: seq<seq<Tid>>, x: Tid)
    requires qs == [[1], [], [], [0]]
    ensures ReadyOcc(qs, x) == (if x == 0 || x == 1 then 1 else 0)
  {
    var e: seq<Tid> := [];
    assert Occ(e, x) == 0;
    assert Occ([0], x) == (if x == 0 then 1 else 0) && Occ([1], x) == (if x == 1 then 1 else 0);
    assert qs[1..] == [e, e, [0]] && qs[1..][1..] == [e, [0]] && qs[1..][1..][1..] == [[0]];
    var none: seq<seq<Tid>> := [];
    assert [[0]][1..] == none;
    assert ReadyOcc([[0]], x) == Occ([0], x);
    assert ReadyOcc([e, [0]], x) == Occ([0], x);
    assert ReadyOcc([e, e, [0]], x) == Occ([0], x);
  }

  lemma BootRuns(env: Env)
    ensures Inv(Schedule(Boot(), env))
  {
    BootChooses();
    var p, gone := ScheduleSettles(Boot(), env);
  }

  /** The state after the first choice of a thread. */
  ghost function Started(env: Env): (s: Sys)
    ensures Inv(s)
  {
    BootRuns(env);
    Schedule(Boot(), env)
  }

  /** Every run from start-up, over any number of calls. */
  lemma EveryRunFromBoot(env: Env, ops: seq<Op>)
    requires AllAllowed(Started(env), ops) && Run(Started(env), ops).Continue?
    ensures Inv(Run(Started(env), ops).s)
  {
    RunKeepsInv(Started(env), ops);
  }
}
