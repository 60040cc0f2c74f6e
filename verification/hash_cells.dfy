/**
 The hash table of libs/hash_list.c in place: head slots stored in the table, further slots linked
 behind them. Deleting always unlinks the last cell of a row, so a cell keeps its row and position.
 */
module HashCells {
  import opened HashValues

  class Cell {
    var data: nat
    var hash: Hash
    var next: Cell?
    ghost const row: nat
    ghost const pos: nat

    constructor (item: nat, h: Hash, ghost row: nat, ghost pos: nat)
      ensures data == item && hash == h && next == null && this.row == row && this.pos == pos
    {
      data, hash, next := item, h, null;
      this.row, this.pos := row, pos;
    }
  }

  /** The cells of row `r` in link order, the last one ending it. */
  ghost predicate Chained(cells: seq<Cell>, r: nat)
    reads cells
  {
    && |cells| > 0
    && (forall k :: 0 <= k < |cells| ==> cells[k].row == r && cells[k].pos == k)
    && forall k :: 0 <= k < |cells| ==> cells[k].next == if k + 1 < |cells| then cells[k + 1] else null
  }

  /** The slots the cells hold. */
  ghost predicate Shows(cells: seq<Cell>, row: Row)
    reads cells
  {
    |row| == |cells| && forall k :: 0 <= k < |cells| ==> row[k] == Slot(cells[k].data, cells[k].hash)
  }

  /** What links say about positions. */
  lemma NextCell(cells: seq<Cell>, r: nat, k: nat)
    requires Chained(cells, r) && k < |cells|
    ensures cells[k].next == if k + 1 < |cells| then cells[k + 1] else null
    ensures forall j :: 0 <= j < |cells| && j != k ==> cells[j] != cells[k]
  {
    assert cells[k].pos == k;
  }

  /** The copy-up of `hash_list_shrink_row`; the answer tells the caller to unlink the cell just freed. */
  method ShrinkRow(item: Cell, ghost cells: seq<Cell>, ghost before: Row, ghost k: nat,
      ghost r: nat) returns (freed: bool)
    requires Chained(cells, r) && Shows(cells, before) && k < |cells| && cells[k] == item
    modifies cells[k..]
    ensures freed <==> k == |cells| - 1
    ensures freed ==> Chained(cells, r) && Shows(cells, before)
    ensures !freed ==> Chained(cells[..|cells| - 1], r)
    ensures !freed ==> Shows(cells[..|cells| - 1], before[..k] + CopyUp(before[k..]))
    decreases |cells| - k
  {
    NextCell(cells, r, k);
    if item.next != null {
      item.data := item.next.data;
      item.hash := item.next.hash;
      ghost var half := before[k := before[k + 1]];
      var last := ShrinkRow(item.next, cells, half, k + 1, r);
      if last {
        item.next := null;
      }
      CopyUpStep(before, half, k);
      freed := false;
    } else {
      freed := true;
    }
  }

  lemma CopyUpStep(before: Row, half: Row, k: nat)
    requires k + 1 < |before| && half == before[k := before[k + 1]]
    ensures before[..k] + CopyUp(before[k..]) == half[..k + 1] + CopyUp(half[k + 1..])
    ensures k + 1 == |before| - 1 ==> before[..k] + CopyUp(before[k..]) == half[..|half| - 1]
  {
    assert before[k..][1..] == before[k + 1..] == half[k + 1..];
    assert CopyUp(before[k..]) == [before[k + 1]] + CopyUp(before[k + 1..]);
  }

  method LinkCell(cursor: Cell, item: nat, h: Hash, ghost cells: seq<Cell>, ghost row: Row,
      ghost r: nat) returns (cell: Cell)
    requires Chained(cells, r) && Shows(cells, row) && cursor == cells[|cells| - 1]
    modifies cursor
    ensures fresh(cell) && Chained(cells + [cell], r) && Shows(cells + [cell], row + [Slot(item, h)])
  {
    NextCell(cells, r, |cells| - 1);
    cell := new Cell(item, h, r, |cells|);
    cursor.next := cell;
  }

  method FillCell(head: Cell, item: nat, h: Hash, ghost cells: seq<Cell>, ghost row: Row, ghost r: nat)
    requires Chained(cells, r) && Shows(cells, row) && head == cells[0]
    modifies head
    ensures Chained(cells, r) && Shows(cells, row[0 := Slot(item, h)])
  {
    NextCell(cells, r, 0);
    head.data := item;
    head.hash := h;
  }

  /** Takes slot `k` out of a row: by copying up, or by unlinking when it is the last. */
  method UnlinkCell(cursor: Cell, prev: Cell, ghost cells: seq<Cell>, ghost row: Row, ghost k: nat, ghost r: nat)
    requires Chained(cells, r) && Shows(cells, row) && |cells| > 1 && k < |cells| && cursor == cells[k]
    requires k > 0 ==> prev == cells[k - 1]
    modifies cells
    ensures Chained(cells[..|cells| - 1], r)
    ensures Shows(cells[..|cells| - 1], row[..k] + CopyUp(row[k..]))
  {
    hide CopyUp;
    NextCell(cells, r, k);
    if cursor.next != null {
      var _ := ShrinkRow(cursor, cells, row, k, r);
    } else {
      NextCell(cells, r, k - 1);
      LastCopiedUp(row);
      prev.next := null;
    }
  }

  ghost predicate Owned(cells: seq<Cell>, repr: set<Cell>) {
    forall c :: c in cells ==> c in repr
  }

  lemma OwnedPrefix(cells: seq<Cell>, repr: set<Cell>, n: nat)
    requires Owned(cells, repr) && n <= |cells|
    ensures Owned(cells[..n], repr)
  {
  }

  lemma OwnedMore(rows: seq<seq<Cell>>, repr: set<Cell>, cell: Cell)
    ensures forall r :: 0 <= r < |rows| && Owned(rows[r], repr) ==> Owned(rows[r], repr + {cell})
    ensures Owned([cell], repr + {cell})
  {
  }

  /** A row's head slot without data. */
  method NewRow(r: nat) returns (cell: Cell)
    ensures fresh(cell) && Chained([cell], r) && Shows([cell], Empty())
  {
    cell := new Cell(0, 0, r, 0);
  }

  class HashList {
    const heads: array<Cell>
    ghost var rows: seq<seq<Cell>>
    ghost var state: Table
    ghost var Repr: set<Cell>

    ghost predicate Valid()
      reads this, heads, Repr
    {
      && |rows| == |state| == heads.Length > 0
      && (forall r :: 0 <= r < |rows| ==> Owned(rows[r], Repr))
      && forall r :: 0 <= r < |rows| ==> Chained(rows[r], r) && Shows(rows[r], state[r]) && heads[r] == rows[r][0]
    }

    /** The first `n` rows are made and empty. */
    ghost predicate Filled(n: nat)
      reads this, heads, Repr
    {
      && |rows| == n <= heads.Length
      && (forall r :: 0 <= r < n ==> |rows[r]| == 1 && Owned(rows[r], Repr) && heads[r] == rows[r][0])
      && forall r :: 0 <= r < n ==> Chained(rows[r], r) && Shows(rows[r], Empty())
    }

    method AddRow(i: nat)
      requires Filled(i) && i < heads.Length
      modifies this`rows, this`Repr, heads
      ensures Filled(i + 1) && fresh(Repr - old(Repr))
    {
      hide Chained, Shows, Owned;
      var cell := NewRow(i);
      heads[i] := cell;
      OwnedMore(rows, Repr, cell);
      rows := rows + [[cell]];
      Repr := Repr + {cell};
    }

    /** Every head starts with no data, as the zeroed block does. */
    constructor (size: nat)
      requires size > 0
      ensures Valid() && fresh(Repr) && state == seq(size, (i: nat) => Empty())
    {
      var first := new Cell(0, 0, 0, 0);
      heads := new Cell[size](_ => first);
      rows := [];
      Repr := {};
      new;
      hide Chained, Shows, Owned;
      var i := 0;
      while i < size
        invariant 0 <= i <= size == heads.Length && Filled(i) && fresh(Repr) && fresh(heads)
      {
        AddRow(i);
        i := i + 1;
      }
      state := seq(size, (i: nat) => Empty());
    }

    lemma Sizes()
      requires Valid()
      ensures |rows| == |state| == heads.Length > 0 && Rows(state)
    {
    }

    lemma RowFacts(r: nat)
      requires Valid() && r < |rows|
      ensures |state[r]| == |rows[r]| > 0 && heads[r] == rows[r][0] && Rows(state) && Chained(rows[r], r)
      ensures Owned(rows[r], Repr) && forall c :: c in rows[r] ==> c in Repr
      ensures forall k :: 0 <= k < |rows[r]| ==> state[r][k] == Slot(rows[r][k].data, rows[r][k].hash)
    {
    }

    /** The cells of other rows are not those of row `r`. */
    lemma RowsApart(r: nat)
      requires Valid() && r < |rows|
      ensures forall s :: 0 <= s < |rows| && s != r ==> forall c :: c in rows[s] ==> c !in rows[r]
    {
    }

    /** The last cell of a row. */
    method LastCell(r: nat) returns (cursor: Cell)
      requires Valid() && r < |rows|
      ensures cursor == rows[r][|rows[r]| - 1]
      ensures cursor in Repr
    {
      ghost var cells, k: nat := rows[r], 0;
      cursor := heads[r];
      NextCell(cells, r, 0);
      while cursor.next != null
        invariant k < |cells| && cursor == cells[k] && (cursor.next == null <==> k == |cells| - 1)
        decreases |cells| - k
      {
        NextCell(cells, r, k);
        cursor := cursor.next;
        k := k + 1;
        NextCell(cells, r, k);
      }
    }

    method LinkBehind(r: nat, cursor: Cell, item: nat, h: Hash)
      requires Valid() && r < |rows| && cursor == rows[r][|rows[r]| - 1]
      modifies this, cursor
      ensures Valid() && fresh(Repr - old(Repr))
      ensures state == old(state)[r := old(state[r]) + [Slot(item, h)]]
    {
      RowFacts(r);
      RowsApart(r);
      hide Chained, Shows;
      var cell := LinkCell(cursor, item, h, rows[r], state[r], r);
      rows := rows[r := rows[r] + [cell]];
      Repr := Repr + {cell};
      state := state[r := state[r] + [Slot(item, h)]];
    }

    method FillHead(r: nat, item: nat, h: Hash)
      requires Valid() && r < |rows|
      modifies this`state, heads[r]
      ensures Valid()
      ensures state == old(state)[r := old(state[r])[0 := Slot(item, h)]]
    {
      RowFacts(r);
      RowsApart(r);
      hide Chained, Shows;
      FillCell(heads[r], item, h, rows[r], state[r], r);
      state := state[r := state[r][0 := Slot(item, h)]];
    }

    method Add(item: nat, h: Hash, room: bool) returns (code: Code)
      requires Valid()
      modifies this, Repr
      ensures Valid() && fresh(Repr - old(Repr)) && Rows(old(state))
      ensures (code, state) == HashValues.Add(old(state), item, h, room)
    {
      hide RowOf, Chained, HashList.Valid;
      Sizes();
      var r := RowOf(h, heads.Length);
      RowFacts(r);
      if item == 0 { return EINVAL; }
      if heads[r].data == 0 {
        FillHead(r, item, h);
        return EOK;
      }
      var cursor := LastCell(r);
      if !room { return EGENERIC; }
      LinkBehind(r, cursor, item, h);
      code := EOK;
    }

    method Get(h: Hash) returns (slot: Cell?)
      requires Valid()
      ensures Rows(state)
      ensures slot == null ==> HashValues.Get(state, h).data == 0
      ensures slot != null ==> Slot(slot.data, slot.hash) == HashValues.Get(state, h)
    {
      hide RowOf;
      var r := RowOf(h, heads.Length);
      ghost var cells, k: nat := rows[r], 0;
      slot := heads[r];
      while slot != null
        invariant k <= |cells| && slot == if k < |cells| then cells[k] else null
        invariant k <= Find(state[r], h)
        decreases |cells| - k
      {
        if slot.hash == h { return; }
        NextCell(cells, r, k);
        slot := slot.next;
        k := k + 1;
      }
    }

    method Unlink(cursor: Cell, prev: Cell, ghost r: nat, ghost k: nat)
      requires Valid() && r < |rows| && |rows[r]| > 1 && k < |rows[r]| && cursor == rows[r][k]
      requires k > 0 ==> prev == rows[r][k - 1]
      modifies this, rows[r]
      ensures Valid() && Repr == old(Repr)
      ensures state == old(state)[r := old(state[r])[..k] + CopyUp(old(state[r])[k..])]
    {
      RowFacts(r);
      RowsApart(r);
      ghost var cells := rows[r];
      ghost var rest := cells[..|cells| - 1];
      OwnedPrefix(cells, Repr, |cells| - 1);
      hide CopyUp, Chained, Shows, Owned, Rows;
      assert rest[0] == cells[0];
      assert Others(r);
      ghost var row := state[r][..k] + CopyUp(state[r][k..]);
      UnlinkCell(cursor, prev, cells, state[r], k, r);
      SetRow(r, rest, row);
    }

    /** Every row but `r` is in order. */
    ghost predicate Others(r: nat)
      reads this, heads, Repr
    {
      && |rows| == |state| == heads.Length
      && forall s :: 0 <= s < |rows| && s != r ==>
           Owned(rows[s], Repr) && Chained(rows[s], s) && Shows(rows[s], state[s]) && heads[s] == rows[s][0]
    }

    ghost method SetRow(r: nat, cells: seq<Cell>, row: Row)
      requires Others(r) && r < |rows| && Owned(cells, Repr) && Chained(cells, r) && Shows(cells, row) &&
          heads[r] == cells[0]
      modifies this`rows, this`state
      ensures Valid() && state == old(state)[r := row]
    {
      hide Owned, Shows;
      rows := rows[r := cells];
      state := state[r := row];
    }

    method Del(h: Hash) returns (code: Code)
      requires Valid()
      modifies this, Repr
      ensures Valid() && Repr == old(Repr) && Rows(old(state))
      ensures (code, state) == HashValues.Del(old(state), h)
    {
      hide RowOf, Chained, CopyUp, DelRow, HashList.Valid;
      Sizes();
      var r := RowOf(h, heads.Length);
      RowFacts(r);
      ghost var cells := rows[r];
      var cursor := heads[r];
      NextCell(cells, r, 0);
      if cursor.hash == h && cursor.next == null {
        DelHere(state[r], h, 0);
        FillHead(r, 0, 0);
        return EOK;
      }
      var prev := cursor;
      ghost var k: nat := 0;
      while cursor != null
        invariant Valid() && rows == old(rows) && state == old(state) && Repr == old(Repr)
        invariant k <= |cells| && cursor == if k < |cells| then cells[k] else null
        invariant prev != null && (k > 0 ==> prev == cells[k - 1])
        invariant k <= Find(state[r], h)
        decreases |cells| - k
      {
        RowFacts(r);
        Sizes();
        NextCell(cells, r, k);
        if cursor.hash == h {
          DelHere(state[r], h, k);
          Unlink(cursor, prev, r, k);
          return EOK;
        }
        prev := cursor;
        cursor := cursor.next;
        k := k + 1;
      }
      RowFacts(r);
      DelNowhere(state[r], h);
      assert state == state[r := state[r]];
      code := EGENERIC;
    }
  }

  lemma DelNowhere(row: Row, h: Hash)
    requires Find(row, h) == |row| > 0
    ensures DelRow(row, h) == (EGENERIC, row)
  {
  }

  /** What deleting does once the search stopped at slot `k`. */
  lemma DelHere(row: Row, h: Hash, k: nat)
    requires k <= Find(row, h) && k < |row| && row[k].hash == h
    ensures DelRow(row, h) == (EOK, if k == 0 && |row| == 1 then row[0 := Slot(0, 0)] else row[..k] + CopyUp(row[k..]))
  {
    assert k == 0 && |row| == 1 ==> row[0 := Slot(0, 0)] == Empty();
  }

  lemma LastCopiedUp(row: Row)
    requires |row| > 0
    ensures CopyUp(row[|row| - 1..]) == []
  {
  }

  method HashListInit(size: nat, room: bool) returns (code: Code, table: HashList?)
    ensures code == Init(size, room).0 && (code == EOK <==> table != null)
    ensures table != null ==> fresh(table) && table.Valid() && table.state == Init(size, room).1
    ensures code == if size > 65535 then EINVAL else if !room then ENOMEM else EOK
    ensures table != null ==> |table.state| == (if size < 16 then 16 else size)
    ensures table != null ==> forall r :: 0 <= r < |table.state| ==> table.state[r] == [Slot(0, 0)]
  {
    if size > USHRT_MAX { return EINVAL, null; }
    if !room { return ENOMEM, null; }
    code := EOK;
    table := new HashList(if size < MIN_SIZE then MIN_SIZE else size);
  }
}
