/**
 Runs of kernel calls. Every run keeps each live thread in exactly one place; after every call of
 the scheduler a live thread of the best priority runs and no dead thread is left.
 */
module SchedRuns {
  import opened Sched
  import opened SchedInv

  // ---------------------------------------------------------------- what an update leaves alone

  /** Priorities, kill marks and the running thread stay; the delay queue only loses a front part. */
  ghost predicate Keeps(s: Sys, u: Sys) {
    && u.threads.Keys == s.threads.Keys && u.running == s.running
    && (forall id :: Record(u.threads, id).prio == Record(s.threads, id).prio)
    && (forall id :: Terminate in Record(u.threads, id).flags <==> Terminate in Record(s.threads, id).flags)
    && (forall id :: id in u.waiting ==> id in s.waiting)
    && (forall id :: id in u.delayed ==> Record(u.threads, id) == Record(s.threads, id))
    && (forall id :: id in u.dead ==> id in s.dead || Terminate in Record(s.threads, id).flags)
    && |u.delayed| <= |s.delayed| && u.delayed == s.delayed[|s.delayed| - |u.delayed|..]
  }

  lemma KeepsTransitive(a: Sys, b: Sys, c: Sys)
    requires Keeps(a, b) && Keeps(b, c)
    ensures Keeps(a, c)
  {
    forall id | id in c.delayed ensures Record(c.threads, id) == Record(a.threads, id) {
      assert id in b.delayed;
    }
  }

  lemma ResumeKeeps(s: Sys, apart: set<Tid>, flags: set<Flag>, id: Tid)
    requires Placed(s, apart) && flags <= MASK_EVENTS
    ensures Keeps(s, Resume(s, flags, id))
  {
    ResumeKeepsPlaces(s, apart, flags, id);
    if id in s.delayed { SleeperIsDeaf(Record(s.threads, id), flags); }
  }

  lemma {:induction false} ResumeAllKeeps(s: Sys, apart: set<Tid>, wakes: seq<Wake>)
    requires Placed(s, apart)
    ensures Keeps(s, ResumeAll(s, wakes))
    decreases |wakes|
  {
    if wakes != [] {
      var u := Resume(s, wakes[0].flags * MASK_EVENTS, wakes[0].id);
      ResumeKeepsPlaces(s, apart, wakes[0].flags * MASK_EVENTS, wakes[0].id);
      ResumeKeeps(s, apart, wakes[0].flags * MASK_EVENTS, wakes[0].id);
      ResumeAllKeeps(u, apart, wakes[1..]);
      KeepsTransitive(s, u, ResumeAll(u, wakes[1..]));
    }
  }

  /** Changing one record to another of the same priority and kill mark, away from the sleepers. */
  predicate Alike(t: Thread, u: Thread) {
    u.prio == t.prio && (Terminate in u.flags <==> Terminate in t.flags)
  }

  lemma WaitHeadKeeps(s: Sys, apart: set<Tid>, now: nat)
    requires Placed(s, apart) && s.waiting != []
    ensures Keeps(s, WaitHead(s, now))
  {
    var id := s.waiting[0];
    LooseFromWait(s, apart);
    NotLinked(s.(waiting := s.waiting[1..]), apart, s.threads.Keys - {id}, id);
    var u := WaitHead(s, now);
    assert u.threads.Keys == s.threads.Keys;
    assert Alike(Record(s.threads, id), Record(u.threads, id));
    assert u.delayed == s.delayed[0..];
  }

  lemma WaitTurnKeeps(s: Sys, apart: set<Tid>, now: nat)
    requires Placed(s, apart) && s.waiting != []
    ensures Keeps(s, WaitTurn(s, now)) && Placed(WaitTurn(s, now), apart)
  {
    WaitHeadKeepsPlaces(s, apart, now);
    WaitHeadKeeps(s, apart, now);
    RollKeepsPlaces(WaitHead(s, now), apart);
    RollMembers(WaitHead(s, now).waiting);
  }

  lemma RollMembers(q: seq<Tid>)
    ensures forall id :: id in Roll(q) <==> id in q
  {
    if |q| > 1 { assert q == [q[0]] + q[1..]; }
  }

  lemma {:induction false} WaitTurnsKeeps(s: Sys, apart: set<Tid>, now: nat, turns: nat)
    requires Placed(s, apart)
    ensures Keeps(s, WaitTurns(s, now, turns))
    decreases turns
  {
    if turns > 0 && s.waiting != [] {
      WaitTurnKeeps(s, apart, now);
      WaitTurnsKeeps(WaitTurn(s, now), apart, now, turns - 1);
      KeepsTransitive(s, WaitTurn(s, now), WaitTurns(s, now, turns));
    }
  }

  lemma DelayHeadKeeps(s: Sys, apart: set<Tid>)
    requires Placed(s, apart) && s.delayed != []
    ensures Keeps(s, DelayHead(s))
  {
    var id := s.delayed[0];
    LooseFromDelay(s, apart);
    NotLinked(s.(delayed := s.delayed[1..]), apart, s.threads.Keys - {id}, id);
    DelayHeadKeepsPlaces(s, apart);
  }

  lemma {:induction false} DelayTurnsKeeps(s: Sys, apart: set<Tid>, now: nat)
    requires Placed(s, apart)
    ensures Keeps(s, DelayTurns(s, now))
    decreases |s.delayed|
  {
    if s.delayed != [] && Get(s, s.delayed[0]).delay <= now {
      DelayHeadKeepsPlaces(s, apart);
      DelayHeadKeeps(s, apart);
      DelayTurnsKeeps(DelayHead(s), apart, now);
      KeepsTransitive(s, DelayHead(s), DelayTurns(DelayHead(s), now));
    }
  }

  lemma WaitPassKeeps(s: Sys, apart: set<Tid>, now: nat)
    requires Placed(s, apart)
    ensures Placed(WaitPass(s, now), apart) && Keeps(s, WaitPass(s, now))
  {
    var u := s.(wakeWait := DELAY_MAX);
    WakeFieldsDoNotMatter(s, u, apart);
    WaitTurnsKeepsPlaces(u, apart, now, |s.waiting|);
    WaitTurnsKeeps(u, apart, now, |s.waiting|);
  }

  lemma DelayPassKeeps(s: Sys, apart: set<Tid>, now: nat)
    requires Placed(s, apart)
    ensures Placed(DelayPass(s, now), apart) && Keeps(s, DelayPass(s, now))
  {
    var u := s.(wakeDelay := DELAY_MAX);
    WakeFieldsDoNotMatter(s, u, apart);
    DelayTurnsKeepsPlaces(u, apart, now);
    DelayTurnsKeeps(u, apart, now);
  }

  lemma KeepsReflexive(s: Sys)
    ensures Keeps(s, s)
  {
  }

  lemma UpdateKeeps(s: Sys, apart: set<Tid>, env: Env)
    requires Placed(s, apart)
    ensures Placed(Update(s, env), apart) && Keeps(s, Update(s, env))
  {
    var a := ResumeAll(s, env.wakes);
    ResumeAllKeepsPlaces(s, apart, env.wakes);
    ResumeAllKeeps(s, apart, env.wakes);
    WaitPassKeeps(a, apart, env.waitClock);
    KeepsReflexive(a);
    var b := if a.waiting == [] then a else WaitPass(a, env.waitClock);
    KeepsTransitive(s, a, b);
    DelayPassKeeps(b, apart, env.delayClock);
    KeepsReflexive(b);
    KeepsTransitive(s, b, Update(s, env));
  }

  // ---------------------------------------------------------------- choosing the next thread

  predicate Doomed(s: Sys, id: Tid) {
    Terminate in Get(s, id).flags
  }

  ghost predicate AllDoomed(s: Sys, q: seq<Tid>) {
    forall id :: id in q ==> Doomed(s, id)
  }

  /** The threads of `q` moved to the dead queue, in order. */
  ghost predicate Buried(s: Sys, u: Sys, q: seq<Tid>) {
    && u.dead == s.dead + q && u.threads.Keys == s.threads.Keys
    && (forall id :: Record(u.threads, id).flags == Record(s.threads, id).flags)
    && (forall id :: Record(u.threads, id).prio == Record(s.threads, id).prio)
    && u.delayed == s.delayed && u.waiting == s.waiting
  }

  /** The threads before the chosen one: all of them when every thread is marked. */
  function MarkedPrefix(s: Sys, q: seq<Tid>): seq<Tid> {
    if q == [] || !Doomed(s, q[0]) then [] else [q[0]] + MarkedPrefix(s, q[1..])
  }

  lemma {:induction false} MarkedPrefixMeaning(s: Sys, q: seq<Tid>)
    ensures AllDoomed(s, MarkedPrefix(s, q)) && |MarkedPrefix(s, q)| <= |q|
    ensures q[..|MarkedPrefix(s, q)|] == MarkedPrefix(s, q)
    ensures |MarkedPrefix(s, q)| < |q| ==> !Doomed(s, q[|MarkedPrefix(s, q)|])
  {
    if q != [] && Doomed(s, q[0]) { MarkedPrefixMeaning(s, q[1..]); }
  }

  lemma {:induction false} MarkedPrefixSame(s: Sys, v: Sys, q: seq<Tid>)
    requires forall id :: Doomed(s, id) == Doomed(v, id)
    ensures MarkedPrefix(s, q) == MarkedPrefix(v, q)
  {
    if q != [] { MarkedPrefixSame(s, v, q[1..]); }
  }

  /** new_runner: the first thread without a kill mark runs, and those queued before it die. */
  lemma {:induction false} NewRunnerChooses(s: Sys, q: nat)
    requires q < |s.ready| && forall id :: id in s.ready[q] ==> id in s.threads
    ensures var (u, found) := NewRunner(s, q);
            var gone := MarkedPrefix(s, s.ready[q]);
            && Buried(s, u, gone)
            && (found <==> |gone| < |s.ready[q]|)
            && u.ready == s.ready[q := if found then s.ready[q][|gone| + 1..] else []]
            && u.running == (if found then Some(s.ready[q][|gone|]) else s.running)
    decreases |s.ready[q]|
  {
    var Q := s.ready[q];
    MarkedPrefixMeaning(s, Q);
    if Q == [] {
      assert s.ready[q := []] == s.ready;
    } else {
      var r := ReadyRest(s, q);
      if Doomed(s, Q[0]) {
        var v := PushDead(r, Q[0]);
        assert v.threads.Keys == s.threads.Keys;
        NewRunnerChooses(v, q);
        MarkedPrefixSame(s, v, Q[1..]);
        var more := MarkedPrefix(s, Q[1..]);
        assert s.dead + [Q[0]] + more == s.dead + MarkedPrefix(s, Q);
      } else {
        assert NewRunner(s, q).0.threads.Keys == s.threads.Keys;
      }
    }
  }

  lemma {:induction false} NewRunnerKeepsPlaces(s: Sys, q: nat)
    requires Placed(s, {}) && q < PRIORITIES
    ensures var (u, found) := NewRunner(s, q);
            if found then u.running.Some? && Placed(u, {u.running.value}) else Placed(u, {})
    decreases |s.ready[q]|
  {
    if s.ready[q] != [] {
      var id := s.ready[q][0];
      LooseFromReady(s, {}, q);
      if Doomed(s, id) {
        LooseToDead(ReadyRest(s, q), {}, id);
        NewRunnerKeepsPlaces(PushDead(ReadyRest(s, q), id), q);
      } else {
        LooseToRunning(ReadyRest(s, q), id);
      }
    }
  }

  lemma ReadyIsLive(s: Sys, apart: set<Tid>, q: nat)
    requires Placed(s, apart) && q < PRIORITIES
    ensures forall id :: id in s.ready[q] ==> id in s.threads
  {
    forall id | id in s.ready[q] ensures id in s.threads {
      OccIn(s.ready[q], id);
      ReadyOccUpdate(s.ready, q, [], id);
      assert Places(s, apart, id) > 0;
    }
  }

  /** Some ready thread of priority `q` or worse is not marked to die. */
  ghost predicate CanPick(s: Sys, q: nat) {
    exists r :: q <= r < |s.ready| && |MarkedPrefix(s, s.ready[r])| < |s.ready[r]|
  }

  /** What a pick from priority `q` on does: `p` is the best priority with an unmarked thread. */
  ghost predicate Picked(s: Sys, u: Sys, q: nat, p: nat) {
    && q <= p < |s.ready| == |u.ready|
    && (forall r :: q <= r < p ==> AllDoomed(s, s.ready[r]) && u.ready[r] == [])
    && (forall r :: p < r < |s.ready| ==> u.ready[r] == s.ready[r])
    && var n := |MarkedPrefix(s, s.ready[p])|;
       n < |s.ready[p]| && u.running == Some(s.ready[p][n]) && u.ready[p] == s.ready[p][n + 1..]
  }

  /** The threads a pick passes over: the better queues in order, then those ahead of the chosen one. */
  function PassedOver(s: Sys, q: nat, p: nat): seq<Tid>
    requires q <= p < |s.ready|
    decreases p - q
  {
    if q < p then s.ready[q] + PassedOver(s, q + 1, p) else MarkedPrefix(s, s.ready[p])
  }

  lemma {:induction false} PassedOverSame(s: Sys, v: Sys, q: nat, p: nat)
    requires q <= p < |s.ready| == |v.ready| && (forall r :: q <= r <= p ==> s.ready[r] == v.ready[r])
    requires forall id :: Doomed(s, id) == Doomed(v, id)
    ensures PassedOver(s, q, p) == PassedOver(v, q, p)
    decreases p - q
  {
    if q < p { PassedOverSame(s, v, q + 1, p); } else { MarkedPrefixSame(s, v, s.ready[p]); }
  }

  ghost predicate ReadyLive(s: Sys) {
    forall r, id :: 0 <= r < |s.ready| && id in s.ready[r] ==> id in s.threads
  }

  lemma {:induction false} PickChooses(s: Sys, q: nat) returns (p: nat, gone: seq<Tid>)
    requires |s.ready| == PRIORITIES && ReadyLive(s) && q < PRIORITIES && CanPick(s, q)
    ensures Picked(s, Pick(s, q), q, p) && gone == PassedOver(s, q, p)
    ensures AllDoomed(s, gone) && Buried(s, Pick(s, q), gone)
    decreases PRIORITIES - q
  {
    NewRunnerChooses(s, q);
    MarkedPrefixMeaning(s, s.ready[q]);
    var (v, found) := NewRunner(s, q);
    gone := MarkedPrefix(s, s.ready[q]);
    p := q;
    if !found {
      var more;
      PickLater(s, v, q);
      p, more := PickChooses(v, q + 1);
      PickFrame(v, q + 1, q);
      PickedLater(s, v, Pick(v, q + 1), q, p, more);
      gone := gone + more;
    }
  }

  lemma BuriedTransitive(s: Sys, v: Sys, u: Sys, a: seq<Tid>, b: seq<Tid>)
    requires Buried(s, v, a) && Buried(v, u, b)
    ensures Buried(s, u, a + b)
  {
    assert s.dead + a + b == s.dead + (a + b);
  }

  lemma PickedLater(s: Sys, v: Sys, u: Sys, q: nat, p: nat, more: seq<Tid>)
    requires q < |s.ready| == PRIORITIES && |MarkedPrefix(s, s.ready[q])| >= |s.ready[q]|
    requires v.ready == s.ready[q := []] && Buried(s, v, MarkedPrefix(s, s.ready[q]))
    requires Picked(v, u, q + 1, p) && AllDoomed(v, more) && Buried(v, u, more) && more == PassedOver(v, q + 1, p)
    ensures var gone := MarkedPrefix(s, s.ready[q]) + more;
            u.ready[q] == [] ==>
                Picked(s, u, q, p) && AllDoomed(s, gone) && Buried(s, u, gone) && gone == PassedOver(s, q, p)
  {
    forall id ensures Doomed(s, id) == Doomed(v, id) {}
    PassedOverSame(s, v, q + 1, p);
    MarkedPrefixMeaning(s, s.ready[q]);
    assert s.ready[q][..|s.ready[q]|] == s.ready[q];
    MarkedPrefixSame(s, v, s.ready[p]);
    BuriedTransitive(s, v, u, MarkedPrefix(s, s.ready[q]), more);
    hide Buried;
    forall r | q < r < PRIORITIES ensures v.ready[r] == s.ready[r] {}
  }

  /** A pick from `q` on does not touch the better queues. */
  lemma {:induction false} PickFrame(s: Sys, q: nat, r: nat)
    requires r < q && r < |s.ready|
    ensures |Pick(s, q).ready| == |s.ready| && Pick(s, q).ready[r] == s.ready[r]
    decreases |s.ready| - q
  {
    if q < |s.ready| {
      NewRunnerFrame(s, q, r);
      if !NewRunner(s, q).1 { PickFrame(NewRunner(s, q).0, q + 1, r); }
    }
  }

  lemma {:induction false} NewRunnerFrame(s: Sys, q: nat, r: nat)
    requires r < q < |s.ready|
    ensures NewRunner(s, q).0.ready[r] == s.ready[r]
    decreases |s.ready[q]|
  {
    if s.ready[q] != [] && Doomed(s, s.ready[q][0]) {
      NewRunnerFrame(PushDead(ReadyRest(s, q), s.ready[q][0]), q, r);
    }
  }

  lemma {:induction false} PickKeepsPlaces(s: Sys, q: nat)
    requires Placed(s, {}) && q < PRIORITIES && CanPick(s, q)
    ensures Pick(s, q).running.Some? && Placed(Pick(s, q), {Pick(s, q).running.value})
    decreases PRIORITIES - q
  {
    ReadyIsLive(s, {}, q);
    NewRunnerChooses(s, q);
    NewRunnerKeepsPlaces(s, q);
    var (v, found) := NewRunner(s, q);
    if !found {
      PickLater(s, v, q);
      PickKeepsPlaces(v, q + 1);
    }
  }

  /** A queue of marked threads only is passed over. */
  lemma PickLater(s: Sys, v: Sys, q: nat)
    requires q < |s.ready| == PRIORITIES && CanPick(s, q) && |MarkedPrefix(s, s.ready[q])| >= |s.ready[q]|
    requires v.ready == s.ready[q := []] && Buried(s, v, MarkedPrefix(s, s.ready[q]))
    ensures q + 1 < PRIORITIES && CanPick(v, q + 1)
  {
    var r :| q <= r < |s.ready| && |MarkedPrefix(s, s.ready[r])| < |s.ready[r]|;
    forall id ensures Doomed(s, id) == Doomed(v, id) {}
    MarkedPrefixSame(s, v, s.ready[r]);
    assert v.ready[r] == s.ready[r];
  }

  // ---------------------------------------------------------------- house keeping

  ghost function Members(q: seq<Tid>): set<Tid> {
    set id | id in q
  }

  lemma {:induction false} ReapAll(s: Sys)
    requires s.running.Some? && s.running.value !in s.dead
    ensures Reap(s, |s.dead|) == s.(dead := [], threads := s.threads - Members(s.dead))
    decreases |s.dead|
  {
    if s.dead == [] {
      assert s.threads - Members([]) == s.threads;
    } else {
      var id := s.dead[0];
      var u := s.(dead := s.dead[1..], threads := s.threads - {id});
      assert s.dead == [id] + s.dead[1..];
      ReapAll(u);
      assert Members(s.dead) == {id} + Members(s.dead[1..]);
      assert s.threads - {id} - Members(s.dead[1..]) == s.threads - Members(s.dead);
    }
  }

  lemma HouseKeepReleases(s: Sys)
    requires s.running.Some? && Placed(s, {s.running.value})
    ensures HouseKeep(s) == s.(dead := [], threads := s.threads - Members(s.dead))
    ensures Placed(HouseKeep(s), {s.running.value})
  {
    var me := s.running.value;
    assert Record(s.threads, me).state == Running;
    ReapAll(s);
    if s.dead == [] { assert s.threads - Members([]) == s.threads; }
    var u := HouseKeep(s);
    forall id ensures Places(u, {me}, id) == if id in u.threads then 1 else 0 {
      OccIn(s.dead, id);
      assert Places(s, {me}, id) == if id in s.threads then 1 else 0;
    }
    SurvivorsUnchanged(s, u);
  }

  /** Threads outside the dead queue keep their records and so still fit their places. */
  lemma SurvivorsUnchanged(s: Sys, u: Sys)
    requires s.running.Some? && Placed(s, {s.running.value})
    requires u == s.(dead := [], threads := s.threads - Members(s.dead))
    ensures Fits(u, {s.running.value})
  {
    var me := s.running.value;
    forall id | id !in s.dead ensures Record(u.threads, id) == Record(s.threads, id) {}
    forall id | id in s.dead ensures id !in s.delayed && id !in s.waiting && id != me {
      assert Record(s.threads, id).state == Dead;
    }
    forall p | 0 <= p < PRIORITIES ensures FitsReady(u.threads, s.ready[p], p) {
      forall id | id in s.dead ensures id !in s.ready[p] { assert Record(s.threads, id).state == Dead; }
    }
  }

  // ---------------------------------------------------------------- what every run keeps

  /** The idle thread is always running or ready, and never marked to die. */
  ghost predicate IdleSafe(s: Sys) {
    && IDLE in s.threads && !Doomed(s, IDLE)
    && IDLE !in s.delayed && IDLE !in s.waiting && IDLE !in s.dead
  }

  ghost predicate SleepSorted(m: map<Tid, Thread>, q: seq<Tid>) {
    forall i, j :: 0 <= i < j < |q| ==> Record(m, q[i]).delay <= Record(m, q[j]).delay
  }

  /** Between kernel calls. */
  ghost predicate Inv(s: Sys) {
    && s.running.Some? && Placed(s, {s.running.value}) && !Doomed(s, s.running.value)
    && IdleSafe(s) && SleepSorted(s.threads, s.delayed)
  }

  /** Inside a kernel call, once the caller is linked in some queue and the next thread is to be chosen. */
  ghost predicate Choosing(s: Sys) {
    Placed(s, {}) && IdleSafe(s) && SleepSorted(s.threads, s.delayed)
  }

  lemma KeepsSafety(s: Sys, u: Sys)
    requires Keeps(s, u) && IdleSafe(s) && SleepSorted(s.threads, s.delayed)
    ensures IdleSafe(u) && SleepSorted(u.threads, u.delayed)
  {
    var k := |s.delayed| - |u.delayed|;
    forall i, j | 0 <= i < j < |u.delayed|
      ensures Record(u.threads, u.delayed[i]).delay <= Record(u.threads, u.delayed[j]).delay
    {
      assert u.delayed[i] == s.delayed[k + i] && u.delayed[j] == s.delayed[k + j];
      assert u.delayed[i] in u.delayed && u.delayed[j] in u.delayed;
    }
  }

  lemma {:induction false} ReadyOccIn(qs: seq<seq<Tid>>, id: Tid) returns (r: nat)
    requires ReadyOcc(qs, id) > 0
    ensures r < |qs| && id in qs[r]
  {
    OccIn(qs[0], id);
    if id in qs[0] { r := 0; }
    else { r := ReadyOccIn(qs[1..], id); r := r + 1; }
  }

  lemma UnmarkedInQueue(s: Sys, q: seq<Tid>, id: Tid)
    requires id in q && !Doomed(s, id)
    ensures |MarkedPrefix(s, q)| < |q|
  {
    MarkedPrefixMeaning(s, q);
    assert q[..|q|] == q;
  }

  lemma IdleCanBePicked(s: Sys)
    requires Choosing(s)
    ensures CanPick(s, 0)
  {
    assert Places(s, {}, IDLE) == 1;
    OccIn(s.delayed, IDLE);
    OccIn(s.waiting, IDLE);
    OccIn(s.dead, IDLE);
    var r := ReadyOccIn(s.ready, IDLE);
    UnmarkedInQueue(s, s.ready[r], IDLE);
  }

  lemma ReadyAllLive(s: Sys, apart: set<Tid>)
    requires Placed(s, apart)
    ensures ReadyLive(s)
  {
    forall r | 0 <= r < |s.ready| ensures forall id :: id in s.ready[r] ==> id in s.threads {
      ReadyIsLive(s, apart, r);
    }
  }

  /** What a buried thread leaves behind: nothing in the other queues moves. */
  lemma BuriedSafety(s: Sys, u: Sys, gone: seq<Tid>)
    requires Choosing(s) && AllDoomed(s, gone) && Buried(s, u, gone) && u.running.Some?
    requires Placed(u, {u.running.value}) && forall id :: id in s.delayed ==>
        Record(u.threads, id) == Record(s.threads, id)
    ensures IdleSafe(u) && SleepSorted(u.threads, u.delayed)
  {
    forall i, j | 0 <= i < j < |u.delayed|
      ensures Record(u.threads, u.delayed[i]).delay <= Record(u.threads, u.delayed[j]).delay
    {
      assert u.delayed[i] in s.delayed && u.delayed[j] in s.delayed;
    }
  }

  /** Choosing a thread does not change the sleepers' records. */
  lemma {:induction false} NewRunnerSleepers(s: Sys, q: nat, id: Tid)
    requires q < |s.ready| && id !in s.ready[q]
    ensures Record(NewRunner(s, q).0.threads, id) == Record(s.threads, id)
    decreases |s.ready[q]|
  {
    if s.ready[q] != [] && Doomed(s, s.ready[q][0]) {
      NewRunnerSleepers(PushDead(ReadyRest(s, q), s.ready[q][0]), q, id);
    }
  }

  lemma {:induction false} PickSleepers(s: Sys, q: nat, id: Tid)
    requires |s.ready| == PRIORITIES && ReadyLive(s) && forall r :: 0 <= r < PRIORITIES ==> id !in s.ready[r]
    ensures Record(Pick(s, q).threads, id) == Record(s.threads, id)
    decreases PRIORITIES - q
  {
    if q < PRIORITIES {
      NewRunnerSleepers(s, q, id);
      NewRunnerChooses(s, q);
      var (v, found) := NewRunner(s, q);
      if !found { PickSleepers(v, q + 1, id); }
    }
  }

  lemma SleeperNotReady(s: Sys, apart: set<Tid>, id: Tid)
    requires Placed(s, apart) && id in s.delayed
    ensures forall r :: 0 <= r < PRIORITIES ==> id !in s.ready[r]
  {
    assert FitsDelay(Record(s.threads, id));
    forall r | 0 <= r < PRIORITIES ensures id !in s.ready[r] { assert FitsReady(s.threads, s.ready[r], r); }
  }

  /**
   schedule_thread: afterwards an unmarked thread runs, taken from the front of the best ready queue
   that has one; every better queue is empty; the dead queue is empty; and exactly its threads and those
   passed over are released.
   */
  lemma ScheduleSettles(s: Sys, env: Env) returns (p: nat, gone: seq<Tid>)
    requires Choosing(s)
    ensures var u, w := Update(s, env), Schedule(s, env);
            && Inv(w) && Picked(u, w, 0, p) && w.dead == []
            && gone == PassedOver(u, 0, p) && AllDoomed(u, gone) &&
                w.threads.Keys == s.threads.Keys - Members(u.dead + gone)
            && w.threads[w.running.value].state == Running
  {
    var u := Update(s, env);
    UpdateKeeps(s, {}, env);
    KeepsSafety(s, u);
    IdleCanBePicked(u);
    ReadyAllLive(u, {});
    p, gone := PickChooses(u, 0);
    PickKeepsPlaces(u, 0);
    var v := Pick(u, 0);
    forall id | id in u.delayed ensures Record(v.threads, id) == Record(u.threads, id) {
      SleeperNotReady(u, {}, id);
      PickSleepers(u, 0, id);
    }
    BuriedSafety(u, v, gone);
    HouseKeepReleases(v);
    SettledSafety(u, v, p);
  }

  lemma SettledSafety(u: Sys, v: Sys, p: nat)
    requires v.running.Some? && Placed(v, {v.running.value}) && IdleSafe(v) && SleepSorted(v.threads, v.delayed)
    requires Picked(u, v, 0, p) && (forall id :: Record(v.threads, id).flags == Record(u.threads, id).flags)
    requires Placed(HouseKeep(v), {v.running.value})
    requires HouseKeep(v) == v.(dead := [], threads := v.threads - Members(v.dead))
    ensures Inv(HouseKeep(v)) && Picked(u, HouseKeep(v), 0, p)
    ensures v.running.value in HouseKeep(v).threads
  {
    var w, me := HouseKeep(v), v.running.value;
    MarkedPrefixMeaning(u, u.ready[p]);
    assert !Doomed(u, me);
    assert Places(w, {me}, me) > 0;
    forall id | id in v.delayed ensures Record(w.threads, id) == Record(v.threads, id) {
      assert FitsDelay(Record(v.threads, id));
    }
    forall i, j | 0 <= i < j < |w.delayed|
      ensures Record(w.threads, w.delayed[i]).delay <= Record(w.threads, w.delayed[j]).delay
    {
      assert w.delayed[i] in v.delayed && w.delayed[j] in v.delayed;
    }
  }
}
