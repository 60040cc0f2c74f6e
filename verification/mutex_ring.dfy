/**
 The mutex of kernel/mutex.c: an owner and a ring of waiting thread identifiers in which cancelled
 waiters leave holes. The ring with holes behaves as a first-in first-out queue without them.
 */
module MutexRing {
  type Tid = nat

  const MAX_THREADS := 20
  const INVALID: Tid := 255

  // ---------------------------------------------------------------- ring and queue as values

  /** The ring from head to tail; a hole is an invalid identifier. */
  datatype Ring = Ring(owner: Tid, slots: seq<Tid>)

  /** The queue it stands for. */
  datatype Fifo = Fifo(owner: Tid, waiters: seq<Tid>)

  function Waiters(slots: seq<Tid>): seq<Tid> {
    if slots == [] then []
    else if slots[0] == INVALID then Waiters(slots[1..])
    else [slots[0]] + Waiters(slots[1..])
  }

  function AsFifo(r: Ring): Fifo {
    Fifo(r.owner, Waiters(r.slots))
  }

  function Full(r: Ring): bool {
    |r.slots| >= MAX_THREADS - 1
  }

  function Lock(r: Ring, tid: Tid, live: set<Tid>): (Ring, bool) {
    if tid !in live || tid == r.owner then (r, false)
    else if r.owner == INVALID then (r.(owner := tid), true)
    else if Full(r) then (r, false)
    else (r.(slots := r.slots + [tid]), true)
  }

  /** Holes in front are dropped, then the first waiter takes over. */
  function HandOver(slots: seq<Tid>): Ring {
    if slots == [] then Ring(INVALID, [])
    else if slots[0] == INVALID then HandOver(slots[1..])
    else Ring(slots[0], slots[1..])
  }

  function Unlock(r: Ring, tid: Tid): (Ring, bool) {
    if r.owner == INVALID || tid != r.owner then (r, false) else (HandOver(r.slots), true)
  }

  /** The first slot holding `tid` becomes a hole. */
  function Punch(slots: seq<Tid>, tid: Tid): seq<Tid> {
    if slots == [] then []
    else if slots[0] == tid then [INVALID] + slots[1..]
    else [slots[0]] + Punch(slots[1..], tid)
  }

  function Cancel(r: Ring, tid: Tid): (Ring, bool) {
    if r.owner == tid then Unlock(r, tid)
    else (r.(slots := Punch(r.slots, tid)), tid in r.slots)
  }

  // The same operations on the plain queue; `room` says whether a further waiter is accepted.

  function FifoLock(f: Fifo, tid: Tid, live: set<Tid>, room: bool): (Fifo, bool) {
    if tid !in live || tid == f.owner then (f, false)
    else if f.owner == INVALID then (f.(owner := tid), true)
    else if !room then (f, false)
    else (f.(waiters := f.waiters + [tid]), true)
  }

  function FifoUnlock(f: Fifo, tid: Tid): (Fifo, bool) {
    if f.owner == INVALID || tid != f.owner then (f, false)
    else if f.waiters == [] then (Fifo(INVALID, []), true)
    else (Fifo(f.waiters[0], f.waiters[1..]), true)
  }

  function Without(q: seq<Tid>, tid: Tid): seq<Tid> {
    if q == [] then [] else if q[0] == tid then q[1..] else [q[0]] + Without(q[1..], tid)
  }

  function FifoCancel(f: Fifo, tid: Tid): (Fifo, bool) {
    if f.owner == tid then FifoUnlock(f, tid)
    else (f.(waiters := Without(f.waiters, tid)), tid in f.waiters)
  }

  // ---------------------------------------------------------------- refinement

  /** An unowned mutex has an empty ring, every waiter is a live thread, and the ring never overflows. */
  ghost predicate Sound(r: Ring, live: set<Tid>) {
    && INVALID !in live
    && (r.owner == INVALID ==> r.slots == [])
    && |r.slots| <= MAX_THREADS - 1
    && (forall i :: 0 <= i < |r.slots| ==> r.slots[i] == INVALID || r.slots[i] in live)
  }

  lemma {:induction false} WaitersAppend(slots: seq<Tid>, tid: Tid)
    requires tid != INVALID
    ensures Waiters(slots + [tid]) == Waiters(slots) + [tid]
  {
    if slots == [] {
      assert Waiters([tid]) == [tid] + Waiters([]);
    } else {
      assert (slots + [tid])[1..] == slots[1..] + [tid];
      WaitersAppend(slots[1..], tid);
    }
  }

  lemma {:induction false} HandOverIsFirst(slots: seq<Tid>)
    ensures AsFifo(HandOver(slots)) ==
            if Waiters(slots) == [] then Fifo(INVALID, []) else Fifo(Waiters(slots)[0], Waiters(slots)[1..])
    ensures HandOver(slots).owner == INVALID ==> HandOver(slots).slots == []
    ensures |HandOver(slots).slots| <= |slots|
    ensures forall i :: 0 <= i < |HandOver(slots).slots| ==> HandOver(slots).slots[i] in slots
  {
    if slots != [] && slots[0] == INVALID { HandOverIsFirst(slots[1..]); }
  }

  lemma {:induction false} PunchIsRemoval(slots: seq<Tid>, tid: Tid)
    requires tid != INVALID
    ensures Waiters(Punch(slots, tid)) == Without(Waiters(slots), tid)
    ensures tid in slots <==> tid in Waiters(slots)
    ensures |Punch(slots, tid)| == |slots|
    ensures forall i :: 0 <= i < |slots| ==> Punch(slots, tid)[i] == INVALID || Punch(slots, tid)[i] == slots[i]
  {
    if slots != [] {
      PunchIsRemoval(slots[1..], tid);
      if slots[0] == tid {
        assert ([INVALID] + slots[1..])[1..] == slots[1..];
        assert ([tid] + Waiters(slots[1..]))[1..] == Waiters(slots[1..]);
      } else {
        assert ([slots[0]] + Punch(slots[1..], tid))[1..] == Punch(slots[1..], tid);
        assert ([slots[0]] + Waiters(slots[1..]))[1..] == Waiters(slots[1..]);
      }
    }
  }

  // ---------------------------------------------------------------- one call, told in the slots

  /** A live thread other than the owner gets a free mutex, or queues last while fewer than 19 slots are in use. */
  ghost predicate Locked(r: Ring, tid: Tid, live: set<Tid>, u: Ring, ok: bool) {
    && (ok <==> tid in live && tid != r.owner && (r.owner == 255 || |r.slots| < 19))
    && u == if !ok then r
            else if r.owner == 255 then Ring(tid, r.slots)
            else Ring(r.owner, r.slots + [tid])
  }

  /** The owner's release: the first slot that is no hole takes over, and nothing up to it stays. */
  ghost predicate Unlocked(r: Ring, tid: Tid, u: Ring, ok: bool) {
    && (ok <==> r.owner != 255 && tid == r.owner)
    && if !ok then u == r
       else if exists k :: 0 <= k < |r.slots| && r.slots[k] != 255 then
         exists k :: 0 <= k < |r.slots| && (forall j :: 0 <= j < k ==> r.slots[j] == 255) && r.slots[k] != 255 &&
           u == Ring(r.slots[k], r.slots[k + 1..])
       else u == Ring(255, [])
  }

  /** The owner's cancelling is a release; a waiter's first slot becomes a hole. */
  ghost predicate Cancelled(r: Ring, tid: Tid, u: Ring, ok: bool) {
    if tid == r.owner then Unlocked(r, tid, u, ok)
    else if exists k :: 0 <= k < |r.slots| && r.slots[k] == tid then
      && ok
      && exists k :: 0 <= k < |r.slots| && r.slots[k] == tid && (forall j :: 0 <= j < k ==> r.slots[j] != tid) &&
           u == Ring(r.owner, r.slots[k := 255])
    else !ok && u == r
  }

  lemma LockDoes(r: Ring, tid: Tid, live: set<Tid>)
    ensures Locked(r, tid, live, Lock(r, tid, live).0, Lock(r, tid, live).1)
  {
  }

  lemma {:induction false} HandOverAt(slots: seq<Tid>) returns (k: nat)
    ensures k <= |slots| && forall j :: 0 <= j < k ==> slots[j] == 255
    ensures k == |slots| ==> HandOver(slots) == Ring(255, [])
    ensures k < |slots| ==> slots[k] != 255 && HandOver(slots) == Ring(slots[k], slots[k + 1..])
  {
    k := 0;
    if slots != [] && slots[0] == INVALID {
      k := HandOverAt(slots[1..]);
      assert k < |slots| - 1 ==> slots[1..][k + 1..] == slots[k + 2..];
      k := k + 1;
    }
  }

  lemma UnlockDoes(r: Ring, tid: Tid)
    ensures Unlocked(r, tid, Unlock(r, tid).0, Unlock(r, tid).1)
  {
    var k := HandOverAt(r.slots);
  }

  lemma CancelDoes(r: Ring, tid: Tid)
    ensures Cancelled(r, tid, Cancel(r, tid).0, Cancel(r, tid).1)
  {
    UnlockDoes(r, tid);
    assert r.slots[..|r.slots|] == r.slots;
    if tid in r.slots {
      var k := FirstAt(r.slots, tid);
      PunchAt(r.slots, k, tid);
    } else {
      PunchAbsent(r.slots, tid);
    }
  }

  lemma {:induction false} FirstAt(slots: seq<Tid>, tid: Tid) returns (k: nat)
    requires tid in slots
    ensures k < |slots| && slots[k] == tid && tid !in slots[..k]
  {
    k := 0;
    if slots[0] != tid {
      k := FirstAt(slots[1..], tid);
      assert slots[..k + 1] == [slots[0]] + slots[1..][..k];
      k := k + 1;
    }
  }

  datatype Op = DoLock(tid: Tid) | DoUnlock(tid: Tid) | DoCancel(tid: Tid)

  function Step(r: Ring, op: Op, live: set<Tid>): (Ring, bool) {
    match op
    case DoLock(tid) => Lock(r, tid, live)
    case DoUnlock(tid) => Unlock(r, tid)
    case DoCancel(tid) => Cancel(r, tid)
  }

  function FifoStep(f: Fifo, op: Op, live: set<Tid>, room: bool): (Fifo, bool) {
    match op
    case DoLock(tid) => FifoLock(f, tid, live, room)
    case DoUnlock(tid) => FifoUnlock(f, tid)
    case DoCancel(tid) => FifoCancel(f, tid)
  }

  /** One call on the ring is the same call on the queue, with the same answer. */
  lemma StepRefines(r: Ring, op: Op, live: set<Tid>)
    requires Sound(r, live) && (op.DoCancel? ==> op.tid != INVALID)
    ensures var (u, ok) := Step(r, op, live);
            Sound(u, live) && FifoStep(AsFifo(r), op, live, !Full(r)) == (AsFifo(u), ok)
  {
    match op
    case DoLock(tid) => WaitersAppend(r.slots, if tid == INVALID then 0 else tid);
    case DoUnlock(tid) => HandOverFacts(r, live);
    case DoCancel(tid) =>
      HandOverFacts(r, live);
      PunchIsRemoval(r.slots, tid);
  }

  lemma HandOverFacts(r: Ring, live: set<Tid>)
    requires Sound(r, live)
    ensures Sound(HandOver(r.slots), live)
    ensures AsFifo(HandOver(r.slots)) ==
            if Waiters(r.slots) == [] then Fifo(INVALID, []) else Fifo(Waiters(r.slots)[0], Waiters(r.slots)[1..])
  {
    HandOverIsFirst(r.slots);
  }

  function Run(r: Ring, ops: seq<Op>, live: set<Tid>): Ring
    decreases |ops|
  {
    if ops == [] then r else Run(Step(r, ops[0], live).0, ops[1..], live)
  }

  /** The queue driven by the same calls; a lock is turned away only when the ring has no slot left. */
  function FifoRun(f: Fifo, r: Ring, ops: seq<Op>, live: set<Tid>): Fifo
    decreases |ops|
  {
    if ops == [] then f
    else FifoRun(FifoStep(f, ops[0], live, !Full(r)).0, Step(r, ops[0], live).0, ops[1..], live)
  }

  /** Over every run ownership passes as in the plain queue, and an unowned mutex has an empty ring. */
  lemma {:induction false} RunRefines(r: Ring, ops: seq<Op>, live: set<Tid>)
    requires Sound(r, live) && forall i :: 0 <= i < |ops| && ops[i].DoCancel? ==> ops[i].tid != INVALID
    ensures Sound(Run(r, ops, live), live) && AsFifo(Run(r, ops, live)) == FifoRun(AsFifo(r), r, ops, live)
    decreases |ops|
  {
    if ops != [] {
      StepRefines(r, ops[0], live);
      forall i | 0 <= i < |ops[1..]| && ops[1..][i].DoCancel? ensures ops[1..][i].tid != INVALID {
        assert ops[1..][i] == ops[i + 1];
      }
      RunRefines(Step(r, ops[0], live).0, ops[1..], live);
    }
  }

  /** Holes still take room: a lock can be turned away although the queue itself is short. */
  lemma HolesTakeRoom(owner: Tid, tid: Tid, live: set<Tid>)
    requires INVALID !in live && tid in live && tid != owner && owner != INVALID
    ensures var r := Ring(owner, seq(MAX_THREADS - 1, _ => INVALID));
            Sound(r, live) && AsFifo(r) == Fifo(owner, []) && !Lock(r, tid, live).1
  {
    AllHoles(MAX_THREADS - 1);
  }

  lemma {:induction false} AllHoles(n: nat)
    ensures Waiters(seq(n, _ => INVALID)) == []
  {
    if n > 0 {
      assert seq(n, _ => INVALID)[1..] == seq(n - 1, _ => INVALID);
      AllHoles(n - 1);
    }
  }

  // ---------------------------------------------------------------- the ring in its buffer

  /** What a buffer holds between two wrapping indices. */
  function Window(ids: seq<Tid>, head: nat, tail: nat): seq<Tid>
    requires head < |ids| && tail < |ids|
  {
    if head <= tail then ids[head..tail] else ids[head..] + ids[..tail]
  }

  /** Buffer index of the k-th slot from the head. */
  function IndexOf(head: nat, k: nat, size: nat): int {
    if head + k < size then head + k else head + k - size
  }

  lemma WindowAt(ids: seq<Tid>, head: nat, tail: nat, k: nat)
    requires head < |ids| && tail < |ids| && k <= |Window(ids, head, tail)|
    ensures |Window(ids, head, tail)| < |ids|
    ensures var i := IndexOf(head, k, |ids|);
            && 0 <= i < |ids| && (i == tail <==> k == |Window(ids, head, tail)|)
            && (k < |Window(ids, head, tail)| ==>
                  Window(ids, head, tail)[k] == ids[i] &&
                  Window(ids[i := INVALID], head, tail) == Window(ids, head, tail)[k := INVALID])
  {
  }

  lemma NextIndex(head: nat, k: nat, size: nat)
    requires head < size && k < size
    ensures (IndexOf(head, k, size) + 1) % size == IndexOf(head, k + 1, size) && IndexOf(head, 0, size) == head
  {
  }

  class Mutex {
    const ids: array<Tid>
    var head: nat
    var tail: nat
    var locker: Tid

    ghost predicate Valid()
      reads this, ids
    {
      ids.Length == MAX_THREADS && head < MAX_THREADS && tail < MAX_THREADS
    }

    ghost function State(): Ring
      requires Valid()
      reads this, ids
    {
      Ring(locker, Window(ids[..], head, tail))
    }

    constructor ()
      ensures Valid() && State() == Ring(INVALID, [])
    {
      ids := new Tid[MAX_THREADS](_ => INVALID);
      head, tail, locker := 0, 0, INVALID;
    }

    /** cbuffer_free_space; one slot always stays unused. */
    function FreeSpace(): (n: int)
      requires Valid()
      reads this, ids
      ensures n == MAX_THREADS - 1 - |State().slots|
    {
      if head <= tail then MAX_THREADS - tail + head - 1 else head - tail - 1
    }

    method AddSlot(tid: Tid)
      requires Valid() && FreeSpace() > 0
      modifies this`tail, ids
      ensures Valid() && State() == old(State()).(slots := old(State()).slots + [tid])
    {
      ghost var w := Window(ids[..], head, tail);
      ids[tail] := tid;
      tail := tail + 1;
      if tail == MAX_THREADS { tail := 0; }
      assert Window(ids[..], head, tail) == w + [tid];
    }

    method RemoveSlot()
      requires Valid() && head != tail
      modifies this`head
      ensures Valid() && State() == old(State()).(slots := old(State()).slots[1..])
    {
      head := head + 1;
      if head == MAX_THREADS { head := 0; }
    }

    method LockMutex(tid: Tid, live: set<Tid>) returns (ok: bool)
      requires Valid()
      modifies this`tail, this`locker, ids
      ensures Valid() && (State(), ok) == Lock(old(State()), tid, live)
      ensures Locked(old(State()), tid, live, State(), ok)
    {
      LockDoes(State(), tid, live);
      if tid !in live { return false; }
      if tid == locker { return false; }
      if locker == INVALID {
        locker := tid;
        return true;
      }
      if FreeSpace() == 0 { return false; }
      AddSlot(tid);
      ok := true;
    }

    method UnlockMutex(tid: Tid) returns (ok: bool)
      requires Valid()
      modifies this`head, this`locker
      ensures Valid() && (State(), ok) == Unlock(old(State()), tid)
      ensures Unlocked(old(State()), tid, State(), ok)
    {
      UnlockDoes(State(), tid);
      hide Unlocked;
      if locker == INVALID || tid != locker { return false; }
      ghost var slots := State().slots;
      while head != tail && ids[head] == INVALID
        invariant Valid() && HandOver(State().slots) == HandOver(slots)
        decreases |State().slots|
      {
        RemoveSlot();
      }
      if head != tail {
        locker := ids[head];
        RemoveSlot();
      } else {
        locker := INVALID;
      }
      ok := true;
    }

    /** The scan over the ring, from head to tail, for the first slot that holds `tid`. */
    method FindSlot(tid: Tid) returns (i: nat, ghost k: nat)
      requires Valid()
      ensures i < MAX_THREADS && k <= |State().slots| && tid !in State().slots[..k]
      ensures i == IndexOf(head, k, MAX_THREADS) && (i == tail <==> k == |State().slots|)
      ensures k < |State().slots| ==> State().slots[k] == tid
    {
      hide Window, IndexOf;
      ghost var slots := State().slots;
      k := 0;
      i := head;
      WindowAt(ids[..], head, tail, 0);
      NextIndex(head, 0, MAX_THREADS);
      while i != tail
        invariant k <= |slots| && i == IndexOf(head, k, MAX_THREADS) && tid !in slots[..k]
        invariant 0 <= i < MAX_THREADS && (i == tail <==> k == |slots|)
        decreases |slots| - k
      {
        WindowAt(ids[..], head, tail, k);
        if ids[i] == tid { return; }
        WindowAt(ids[..], head, tail, k + 1);
        NextIndex(head, k, MAX_THREADS);
        i := (i + 1) % MAX_THREADS;
        assert slots[..k + 1] == slots[..k] + [slots[k]];
        k := k + 1;
      }
    }

    method CancelWait(tid: Tid) returns (ok: bool)
      requires Valid()
      modifies this`head, this`locker, ids
      ensures Valid() && (State(), ok) == Cancel(old(State()), tid)
      ensures Cancelled(old(State()), tid, State(), ok)
    {
      CancelDoes(State(), tid);
      hide Cancelled, Unlocked;
      if locker == tid {
        ok := UnlockMutex(tid);
        return;
      }
      hide Window, Punch, IndexOf;
      ghost var slots, buffer := State().slots, ids[..];
      var i, k := FindSlot(tid);
      ok := i != tail;
      if ok {
        WindowAt(buffer, head, tail, k);
        PunchAt(slots, k, tid);
        ids[i] := INVALID;
        assert ids[..] == buffer[i := INVALID];
      } else {
        PunchAbsent(slots, tid);
      }
    }
  }

  lemma {:induction false} PunchAt(slots: seq<Tid>, k: nat, tid: Tid)
    requires k < |slots| && slots[k] == tid && tid !in slots[..k]
    ensures Punch(slots, tid) == slots[k := INVALID] && tid in slots
  {
    if k > 0 {
      assert slots[0] == slots[..k][0];
      assert slots[1..][..k - 1] == slots[..k][1..];
      PunchAt(slots[1..], k - 1, tid);
    }
  }

  lemma {:induction false} PunchAbsent(slots: seq<Tid>, tid: Tid)
    requires tid !in slots[..|slots|]
    ensures Punch(slots, tid) == slots && tid !in slots
  {
    assert slots[..|slots|] == slots;
    if slots != [] {
      assert slots[1..][..|slots| - 1] == slots[1..];
      PunchAbsent(slots[1..], tid);
    }
  }
}
