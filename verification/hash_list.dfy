/**
 The chained hash table of libs/hash_list.c on values, against a plain association list. A row
 always has its head slot; an empty row is a lone head with no data and hash 0.
 */
module HashValues {
  const USHRT_MAX := 65535
  const MIN_SIZE := 16

  newtype Hash = h: int | 0 <= h <= USHRT_MAX

  /** Data 0 is the null pointer. */
  datatype Slot = Slot(data: nat, hash: Hash)

  datatype Code = EOK | EINVAL | EGENERIC | ENOMEM

  type Row = seq<Slot>
  type Table = seq<Row>

  function RowOf(h: Hash, size: nat): (r: nat)
    requires size > 0
    ensures r < size
  {
    h as nat % size
  }

  function Empty(): Row {
    [Slot(0, 0)]
  }

  /** `hash_list_init`; `room` tells whether memory is there. */
  function Init(size: nat, room: bool): (Code, Table) {
    if size > USHRT_MAX then (EINVAL, [])
    else if !room then (ENOMEM, [])
    else (EOK, seq(if size < MIN_SIZE then MIN_SIZE else size, (i: nat) => Empty()))
  }

  function AddRow(row: Row, s: Slot): Row
    requires |row| > 0
  {
    if row[0].data == 0 then row[0 := s] else row + [s]
  }

  /** The first slot of a row with that hash, or the row's length. */
  function Find(row: Row, h: Hash): (k: nat)
    ensures k <= |row|
    ensures k < |row| ==> row[k].hash == h
    ensures forall i :: 0 <= i < k ==> row[i].hash != h
  {
    if row == [] || row[0].hash == h then 0 else 1 + Find(row[1..], h)
  }

  /** Copying every slot over its predecessor and dropping the last. */
  function CopyUp(row: Row): Row
    requires |row| > 0
  {
    if |row| > 1 then [row[1]] + CopyUp(row[1..]) else []
  }

  lemma {:induction false} CopyUpDrops(row: Row)
    requires |row| > 0
    ensures CopyUp(row) == row[1..]
  {
    if |row| > 1 { CopyUpDrops(row[1..]); }
  }

  function DelRow(row: Row, h: Hash): (Code, Row)
    requires |row| > 0
  {
    var k := Find(row, h);
    if k == 0 && |row| == 1 then (EOK, Empty())
    else if k == |row| then (EGENERIC, row)
    else (EOK, row[..k] + CopyUp(row[k..]))
  }

  ghost predicate Rows(t: Table) {
    |t| > 0 && forall r :: 0 <= r < |t| ==> |t[r]| > 0
  }

  function Add(t: Table, item: nat, h: Hash, room: bool): (Code, Table)
    requires Rows(t)
  {
    var r := RowOf(h, |t|);
    if item == 0 then (EINVAL, t)
    else if t[r][0].data != 0 && !room then (EGENERIC, t)
    else (EOK, t[r := AddRow(t[r], Slot(item, h))])
  }

  function Get(t: Table, h: Hash): Slot
    requires Rows(t)
  {
    var row := t[RowOf(h, |t|)];
    if Find(row, h) < |row| then row[Find(row, h)] else Slot(0, h)
  }

  function Del(t: Table, h: Hash): (Code, Table)
    requires Rows(t)
  {
    var r := RowOf(h, |t|);
    (DelRow(t[r], h).0, t[r := DelRow(t[r], h).1])
  }

  // ---------------------------------------------------------------- the association list

  /** Items in the order they were added. */
  type Assoc = seq<Slot>

  function Removed(a: Assoc, h: Hash): Assoc {
    var k := Find(a, h);
    if k < |a| then a[..k] + a[k + 1..] else a
  }

  /** The items of the list that hash to row `r`. */
  function Part(a: Assoc, r: nat, size: nat): Row
    requires size > 0
  {
    if a == [] then [] else (if RowOf(a[0].hash, size) == r then [a[0]] else []) + Part(a[1..], r, size)
  }

  /** A row holds what the list sends to it, in list order. */
  ghost predicate Holds(row: Row, part: Row) {
    row == if part == [] then Empty() else part
  }

  ghost predicate Agrees(t: Table, a: Assoc) {
    && |t| > 0 && (forall k :: 0 <= k < |a| ==> a[k].data != 0)
    && forall r :: 0 <= r < |t| ==> Holds(t[r], Part(a, r, |t|))
  }

  lemma {:induction false} PartSlots(a: Assoc, r: nat, size: nat)
    requires size > 0 && forall k :: 0 <= k < |a| ==> a[k].data != 0
    ensures forall k :: 0 <= k < |Part(a, r, size)| ==>
        Part(a, r, size)[k].data != 0 && RowOf(Part(a, r, size)[k].hash, size) == r
  {
    if a != [] { PartSlots(a[1..], r, size); }
  }

  /** Some item's hash leaves the remainder `r`. */
  predicate Occupied(a: Assoc, r: nat, size: nat)
    requires size > 0
  {
    exists k :: 0 <= k < |a| && a[k].hash as nat % size == r
  }

  predicate Stored(a: Assoc, h: Hash) {
    exists k :: 0 <= k < |a| && a[k].hash == h
  }

  lemma FindStored(a: Assoc, h: Hash)
    ensures Find(a, h) < |a| <==> Stored(a, h)
  {
  }

  lemma {:induction false} PartEmptyIff(a: Assoc, r: nat, size: nat)
    requires size > 0
    ensures Part(a, r, size) != [] <==> Occupied(a, r, size)
  {
    if a != [] {
      PartEmptyIff(a[1..], r, size);
      if k :| 0 <= k < |a| && a[k].hash as nat % size == r {
        if k > 0 { assert a[1..][k - 1] == a[k]; }
      }
      if k :| 0 <= k < |a| - 1 && a[1..][k].hash as nat % size == r { assert a[k + 1] == a[1..][k]; }
    }
  }

  lemma DelCode(t: Table, h: Hash)
    requires Rows(t)
    ensures Del(t, h).0 == EOK || Del(t, h).0 == EGENERIC
  {
  }

  lemma {:induction false} PartAppend(a: Assoc, s: Slot, r: nat, size: nat)
    requires size > 0
    ensures Part(a + [s], r, size) == Part(a, r, size) + if RowOf(s.hash, size) == r then [s] else []
  {
    if a != [] {
      assert (a + [s])[1..] == a[1..] + [s];
      PartAppend(a[1..], s, r, size);
    }
  }

  /** Searching a hash in the list or in its part finds the same slot. */
  lemma {:induction false} FindInPart(a: Assoc, h: Hash, size: nat)
    requires size > 0
    ensures var p := Part(a, RowOf(h, size), size);
      && (Find(a, h) < |a| <==> Find(p, h) < |p|)
      && (Find(a, h) < |a| ==> a[Find(a, h)] == p[Find(p, h)])
  {
    hide RowOf;
    if a != [] && a[0].hash != h {
      FindInPart(a[1..], h, size);
      var p, q := Part(a, RowOf(h, size), size), Part(a[1..], RowOf(h, size), size);
      assert p == q || p == [a[0]] + q;
      if p == [a[0]] + q {
        assert p[1..] == q;
      }
    }
  }

  /** Removing from the list removes from the part of that row and from no other. */
  lemma {:induction false} RemovedPart(a: Assoc, h: Hash, r: nat, size: nat)
    requires size > 0
    ensures Part(Removed(a, h), r, size) == if r == RowOf(h, size) then
        Removed(Part(a, r, size), h) else Part(a, r, size)
  {
    hide RowOf, Removed, Find;
    var p := Part(a, r, size);
    if a == [] {
      RemovedNone(h);
    } else {
      assert Part(a, r, size) == (if RowOf(a[0].hash, size) == r then [a[0]] else []) + Part(a[1..], r, size);
      assert p != Part(a[1..], r, size) ==> p[1..] == Part(a[1..], r, size);
      if a[0].hash == h {
        RemovedNow(a, h);
        if r == RowOf(h, size) { RemovedNow(p, h); }
      } else {
        RemovedPart(a[1..], h, r, size);
        RemovedLater(a, h);
        assert Removed(a, h)[1..] == Removed(a[1..], h);
        if r == RowOf(a[0].hash, size) { RemovedLater(p, h); }
      }
    }
  }

  lemma RemovedNone(h: Hash)
    ensures Removed([], h) == []
  {
  }

  lemma RemovedNow(a: Assoc, h: Hash)
    requires a != [] && a[0].hash == h
    ensures Removed(a, h) == a[1..]
  {
  }

  lemma RemovedLater(a: Assoc, h: Hash)
    requires a != [] && a[0].hash != h
    ensures Removed(a, h) == [a[0]] + Removed(a[1..], h)
  {
    var k := Find(a[1..], h);
    assert Find(a, h) == 1 + k;
    hide Find;
    if k < |a| - 1 {
      assert a[..1 + k] == [a[0]] + a[1..][..k];
      assert a[k + 2..] == a[1..][k + 1..];
    }
  }

  lemma AgreesRows(t: Table, a: Assoc)
    requires Agrees(t, a)
    ensures Rows(t)
  {
  }

  lemma InitAgrees(size: nat, room: bool)
    requires Init(size, room).0 == EOK
    ensures Agrees(Init(size, room).1, [])
  {
  }

  /** An item goes behind every earlier one; it is refused only when null or when there is no memory for a second
   slot. */
  lemma AddAgrees(t: Table, a: Assoc, item: nat, h: Hash, room: bool)
    requires Agrees(t, a)
    ensures Rows(t)
    ensures Add(t, item, h, room).0 == EOK <==> item != 0 && (room || Part(a, RowOf(h, |t|), |t|) == [])
    ensures Add(t, item, h, room).0 ==
      if item == 0 then EINVAL else if !room && Occupied(a, h as nat % |t|, |t|) then EGENERIC else EOK
    ensures Agrees(Add(t, item, h, room).1, if Add(t, item, h, room).0 == EOK then a + [Slot(item, h)] else a)
  {
    AgreesRows(t, a);
    AddCode(t, a, item, h, room);
    PartEmptyIff(a, RowOf(h, |t|), |t|);
    hide Part, Occupied, Add;
    if Add(t, item, h, room).0 == EOK { AddState(t, a, item, h, room); }
  }

  lemma AddCode(t: Table, a: Assoc, item: nat, h: Hash, room: bool)
    requires Agrees(t, a)
    ensures Rows(t) && Add(t, item, h, room).0 ==
      if item == 0 then EINVAL else if !room && Occupied(a, h as nat % |t|, |t|) then EGENERIC else EOK
  {
    AgreesRows(t, a);
    PartSlots(a, RowOf(h, |t|), |t|);
    PartEmptyIff(a, RowOf(h, |t|), |t|);
    hide Part, Occupied;
  }

  lemma AddState(t: Table, a: Assoc, item: nat, h: Hash, room: bool)
    requires Agrees(t, a) && Rows(t) && Add(t, item, h, room).0 == EOK
    ensures Agrees(Add(t, item, h, room).1, a + [Slot(item, h)])
  {
    PartSlots(a, RowOf(h, |t|), |t|);
    var u, b := Add(t, item, h, room).1, a + [Slot(item, h)];
    forall r | 0 <= r < |u| ensures Holds(u[r], Part(b, r, |u|)) {
      PartAppend(a, Slot(item, h), r, |t|);
      PartSlots(a, r, |t|);
    }
  }

  /** Looking up gives the oldest item of that hash; when there is none the slot has no data. */
  lemma GetAgrees(t: Table, a: Assoc, h: Hash)
    requires Agrees(t, a)
    ensures Rows(t) && (Get(t, h).data != 0 <==> Find(a, h) < |a|)
    ensures Find(a, h) < |a| ==> Get(t, h) == a[Find(a, h)]
  {
    AgreesRows(t, a);
    FindInPart(a, h, |t|);
    PartSlots(a, RowOf(h, |t|), |t|);
  }

  /** Deleting takes out the oldest item of that hash and keeps the order of the rest. */
  lemma DelAgrees(t: Table, a: Assoc, h: Hash)
    requires Agrees(t, a)
    ensures Rows(t) && Agrees(Del(t, h).1, Removed(a, h))
    ensures Del(t, h).0 == EOK <==> Find(a, h) < |a| || (h == 0 && Part(a, 0, |t|) == [])
    ensures Del(t, h).0 == if Stored(a, h) || (h == 0 && !Occupied(a, 0, |t|)) then EOK else EGENERIC
  {
    AgreesRows(t, a);
    DelCode(t, h);
    hide *;
    DelSucceeds(t, a, h);
    PartEmptyIff(a, 0, |t|);
    FindStored(a, h);
    DelState(t, a, h);
  }

  lemma DelSucceeds(t: Table, a: Assoc, h: Hash)
    requires Agrees(t, a)
    ensures Rows(t) && (Del(t, h).0 == EOK <==> Find(a, h) < |a| || (h == 0 && Part(a, 0, |t|) == []))
  {
    hide RowOf, DelRow, Holds, Removed, Part, Find;
    AgreesRows(t, a);
    var r := RowOf(h, |t|);
    FindInPart(a, h, |t|);
    DelRowIs(t[r], Part(a, r, |t|), h);
    ZeroRow(|t|);
  }

  lemma DelState(t: Table, a: Assoc, h: Hash)
    requires Agrees(t, a)
    ensures Rows(t) && Agrees(Del(t, h).1, Removed(a, h))
  {
    hide RowOf, DelRow, Holds, Part, Find;
    AgreesRows(t, a);
    var r := RowOf(h, |t|);
    DelRowIs(t[r], Part(a, r, |t|), h);
    forall s | 0 <= s < |t| ensures Holds(Del(t, h).1[s], Part(Removed(a, h), s, |t|)) {
      RemovedPart(a, h, s, |t|);
    }
    forall k | 0 <= k < |Removed(a, h)| ensures Removed(a, h)[k].data != 0 {
      assert Removed(a, h)[k] in a;
    }
  }

  lemma ZeroRow(size: nat)
    requires size > 0
    ensures RowOf(0, size) == 0
  {
  }

  lemma DelRowIs(row: Row, p: Row, h: Hash)
    requires Holds(row, p)
    ensures Holds(DelRow(row, h).1, Removed(p, h))
    ensures DelRow(row, h).0 == EOK <==> Find(p, h) < |p| || (h == 0 && p == [])
  {
    var k := Find(row, h);
    if p != [] && k < |p| {
      CopyUpDrops(row[k..]);
      assert row[k..][1..] == row[k + 1..];
    }
  }

  // ---------------------------------------------------------------- runs

  datatype Op = DoAdd(item: nat, hash: Hash, room: bool) | DoDel(hash: Hash)

  function Step(t: Table, op: Op): (Code, Table)
    requires Rows(t)
  {
    match op
    case DoAdd(item, h, room) => Add(t, item, h, room)
    case DoDel(h) => Del(t, h)
  }

  /** The same step on the list, given the answer of the table. */
  function ListStep(a: Assoc, op: Op, code: Code): Assoc {
    match op
    case DoAdd(item, h, _) => if code == EOK then a + [Slot(item, h)] else a
    case DoDel(h) => Removed(a, h)
  }

  lemma StepRows(t: Table, op: Op)
    requires Rows(t)
    ensures Rows(Step(t, op).1) && |Step(t, op).1| == |t|
  {
    if op.DoDel? {
      var row := t[RowOf(op.hash, |t|)];
      var k := Find(row, op.hash);
      if k < |row| { CopyUpDrops(row[k..]); }
    }
  }

  function Run(t: Table, ops: seq<Op>): Table
    requires Rows(t)
    decreases |ops|
  {
    if ops == [] then t else StepRows(t, ops[0]); Run(Step(t, ops[0]).1, ops[1..])
  }

  function ListRun(a: Assoc, t: Table, ops: seq<Op>): Assoc
    requires Rows(t)
    decreases |ops|
  {
    if ops == [] then a
    else StepRows(t, ops[0]); ListRun(ListStep(a, ops[0], Step(t, ops[0]).0), Step(t, ops[0]).1, ops[1..])
  }

  /** Over every run the table answers every look-up as the list does. */
  lemma {:induction false} RunAgrees(t: Table, a: Assoc, ops: seq<Op>)
    requires Agrees(t, a)
    ensures Rows(t) && Agrees(Run(t, ops), ListRun(a, t, ops))
    decreases |ops|
  {
    AgreesRows(t, a);
    if ops != [] {
      match ops[0] {
        case DoAdd(item, h, room) => AddAgrees(t, a, item, h, room);
        case DoDel(h) => DelAgrees(t, a, h);
      }
      StepRows(t, ops[0]);
      RunAgrees(Step(t, ops[0]).1, ListStep(a, ops[0], Step(t, ops[0]).0), ops[1..]);
    }
  }

  /** Each stored item is in the row its hash leaves as remainder, in a table of the size asked for, at least 16. */
  lemma EveryRowByHash(size: nat, ops: seq<Op>)
    requires size <= 65535
    ensures Init(size, true).0 == EOK && Rows(Init(size, true).1)
    ensures var t := Run(Init(size, true).1, ops);
      && |t| == (if size < 16 then 16 else size)
      && forall r, k :: 0 <= r < |t| && 0 <= k < |t[r]| && t[r][k].data != 0 ==> t[r][k].hash as nat % |t| == r
  {
    var n := Init(size, true).1;
    InitAgrees(size, true);
    RunAgrees(n, [], ops);
    RunSize(n, ops);
    var t: Table, a: Assoc := Run(n, ops), ListRun([], n, ops);
    hide Run, ListRun;
    forall r, k | 0 <= r < |t| && 0 <= k < |t[r]| && t[r][k].data != 0 ensures t[r][k].hash as nat % |t| == r {
      PartSlots(a, r, |t|);
    }
  }

  lemma {:induction false} RunSize(t: Table, ops: seq<Op>)
    requires Rows(t)
    ensures |Run(t, ops)| == |t|
    decreases |ops|
  {
    if ops != [] {
      StepRows(t, ops[0]);
      RunSize(Step(t, ops[0]).1, ops[1..]);
    }
  }

  /** From a new table and the empty list on, every look-up gives the oldest item the list holds of that hash. */
  lemma EveryRunFromInit(size: nat, ops: seq<Op>, h: Hash)
    requires Init(size, true).0 == EOK
    ensures var t := Init(size, true).1;
      && Rows(t) && Agrees(Run(t, ops), ListRun([], t, ops)) && Rows(Run(t, ops))
      && var a, slot := ListRun([], t, ops), Get(Run(t, ops), h);
        if Find(a, h) < |a| then slot == a[Find(a, h)] && slot.data != 0 else slot.data == 0
  {
    InitAgrees(size, true);
    RunAgrees(Init(size, true).1, [], ops);
    GetAgrees(Run(Init(size, true).1, ops), ListRun([], Init(size, true).1, ops), h);
  }

  /** Get and delete can disagree about hash 0: a row that was never filled answers both as if it held hash 0. */
  lemma EmptyRowZero(t: Table)
    requires Rows(t) && t[0] == Empty()
    ensures Find(t[0], 0) == 0 && Get(t, 0).data == 0 && Del(t, 0) == (EOK, t)
  {
    assert t[0 := Empty()] == t;
  }
}
