/**
 The chunk allocator of libs/chunks.c in place: pool records with a free counter and a bitmap of
 words, in a list the allocator grows at its head. Its abstract state is a `Chunks`.
 */
module ChunkPool {
  import opened Bitmaps
  import opened ChunkValues

  class PoolArray {
    const buffer: nat
    const bufstart: nat
    const numitems: nat
    const bitmap: array<bv32>
    var free: nat

    ghost predicate Valid()
      reads this, bitmap
    {
      && numitems > 0 && bitmap.Length == Words(numitems) && numitems <= |Flags(bitmap[..])|
      && forall p :: numitems <= p < |Flags(bitmap[..])| ==> !Flags(bitmap[..])[p]
    }

    ghost function View(): Pool
      requires Valid()
      reads this, bitmap
    {
      Pool(buffer, free, Flags(bitmap[..])[..numitems])
    }

    constructor (g: Cut, buffer: nat, numitems: nat)
      requires numitems > 0
      ensures Valid() && View() == NewPool(buffer, numitems) && bufstart == Start(g, View()) && fresh(bitmap)
    {
      this.buffer := buffer;
      this.bufstart := Mult(buffer, g.aln);
      this.numitems := numitems;
      this.free := numitems;
      WordsCover(numitems);
      var bits := new bv32[Words(numitems)](i => 0);
      this.bitmap := bits;
      new;
      NoFlags(bitmap[..]);
      assert Flags(bitmap[..])[..numitems] == NewPool(buffer, numitems).used;
    }

    /** The bitmap search finds the first clear chunk, if there is one. */
    method FirstIsClear() returns (pos: nat)
      requires Valid()
      ensures pos < numitems <==> FirstClear(View().used) < numitems
      ensures pos < numitems ==> pos == FirstClear(View().used)
      ensures |View().used| == numitems
    {
      hide Flags, FirstClear;
      pos := BitmapFirstIsClear(bitmap);
      FirstClearIs(View().used, if pos < numitems then pos else numitems);
    }

    method IsUsed(pos: nat) returns (used: bool)
      requires Valid() && pos < numitems
      ensures used == View().used[pos]
    {
      FlagAt(bitmap[..], 0, 0);
      hide Flags;
      used := BitmapIsSet(bitmap, pos);
    }

    method TakeAt(pos: nat)
      requires Valid() && pos < numitems && free > 0
      modifies this`free, bitmap
      ensures Valid() && View() == Take(old(View()), pos)
    {
      hide Flags;
      free := free - 1;
      BitmapSet(bitmap, pos);
      assert View().used == old(View()).used[pos := true];
    }

    method GiveAt(pos: nat)
      requires Valid() && pos < numitems
      modifies this`free, bitmap
      ensures Valid() && View() == Give(old(View()), pos)
    {
      hide Flags;
      BitmapClear(bitmap, pos);
      free := free + 1;
      assert View().used == old(View()).used[pos := false];
    }
  }

  lemma NoFlags(bits: seq<bv32>)
    requires forall i :: 0 <= i < |bits| ==> bits[i] == 0
    ensures |Flags(bits)| == |bits| * BINL && forall p :: 0 <= p < |Flags(bits)| ==> !Flags(bits)[p]
  {
    hide Mask, Common;
    forall p: nat | p < |bits| * BINL ensures !Flags(bits)[p] {
      NoBits(Mask(p % BINL));
    }
  }

  lemma FirstClearIs(used: seq<bool>, i: nat)
    requires i <= |used| && (forall j :: 0 <= j < i ==> used[j]) && (i < |used| ==> !used[i])
    ensures FirstClear(used) == i
  {
  }

  class ChunksPool {
    const cut: Cut
    var pools: seq<PoolArray>
    ghost var state: Chunks

    ghost predicate Valid()
      reads this, pools, set p | p in pools :: p.bitmap
    {
      && state.cut == cut && |state.pools| == |pools|
      && (forall k :: 0 <= k < |pools| ==> pools[k].Valid() && state.pools[k] == pools[k].View())
      && (forall k :: 0 <= k < |pools| ==> pools[k].bufstart == Start(cut, state.pools[k]))
      && (forall k, l :: 0 <= k < l < |pools| ==> pools[k] != pools[l] && pools[k].bitmap != pools[l].bitmap)
    }

    constructor (aln: nat, size: nat, numitems: nat, delta: nat, buffer: nat)
      requires Create(aln, size, numitems, delta, buffer).Some?
      ensures Valid() && Create(aln, size, numitems, delta, buffer) == Some(state)
      ensures Made(state, aln, size, numitems, delta, buffer) && Sound(state)
      ensures forall p :: p in pools ==> fresh(p) && fresh(p.bitmap)
    {
      var a := if aln == 0 then LONG else aln;
      var g := Geometry(a, Mult(size, a), delta);
      var main := new PoolArray(g, buffer, numitems);
      cut := g;
      pools := [main];
      state := Chunks(g, [NewPool(buffer, numitems)]);
      CreateSound(aln, size, numitems, delta, buffer);
    }

    method TakeFrom(k: nat, pos: nat)
      requires Valid() && k < |pools| && pos < pools[k].numitems && pools[k].free > 0
      modifies this`state, pools[k], pools[k].bitmap
      ensures Valid() && state == Chunks(cut, old(state.pools)[k := Take(old(state.pools[k]), pos)])
    {
      hide Flags, Mult, Bitmaps.Words, Take;
      pools[k].TakeAt(pos);
      state := Chunks(cut, state.pools[k := Take(state.pools[k], pos)]);
      assert state.pools[k] == pools[k].View();
    }

    method GiveTo(k: nat, pos: nat)
      requires Valid() && k < |pools| && pos < pools[k].numitems
      modifies this`state, pools[k], pools[k].bitmap
      ensures Valid() && state == Chunks(cut, old(state.pools)[k := Give(old(state.pools[k]), pos)])
    {
      hide Flags, Mult, Bitmaps.Words, Give;
      pools[k].GiveAt(pos);
      state := Chunks(cut, state.pools[k := Give(state.pools[k], pos)]);
      assert state.pools[k] == pools[k].View();
    }

    /** `create_pool`: a pool of `numitems` chunks at the head of the list. */
    method AddPool(buffer: nat, numitems: nat)
      requires Valid() && numitems > 0
      modifies this
      ensures Valid() && state == Chunks(cut, [NewPool(buffer, numitems)] + old(state.pools))
      ensures |pools| > 0 && fresh(pools[0]) && fresh(pools[0].bitmap) && pools == [pools[0]] + old(pools)
    {
      hide Flags, Mult, Bitmaps.Words;
      var p := new PoolArray(cut, buffer, numitems);
      pools := [p] + pools;
      state := Chunks(cut, [NewPool(buffer, numitems)] + state.pools);
      assert forall k :: 0 < k < |pools| ==> pools[k] == old(pools)[k - 1];
    }

    /** Every pool is full: a new one, if the geometry and the system allocator allow it, gives its first chunk. */
    method Grow(supplied: nat) returns (r: nat)
      requires Valid() && Pick(state.pools) == |pools|
      modifies this
      ensures Valid() && (state, r) == ChunkValues.Malloc(old(state), supplied)
      ensures forall p :: p in pools && p !in old(pools) ==> fresh(p) && fresh(p.bitmap)
    {
      hide Flags, FirstClear, Mult, Bitmaps.Words, ChunkValues.Malloc, Start;
      MallocGrows(state, supplied);
      if cut.delta > 0 && supplied > 0 {
        AddPool(supplied, cut.delta);
        r := pools[0].bufstart;
        ghost var more := state.pools;
        assert more[0] == NewPool(supplied, cut.delta);
        TakeFrom(0, 0);
        assert state.pools == [Take(more[0], 0)] + old(state.pools);
      } else {
        r := 0;
      }
    }

    /** The first pool with a free chunk, or a new one at the head of the list. */
    method Malloc(supplied: nat) returns (r: nat)
      requires Valid()
      modifies this, pools, set p | p in pools :: p.bitmap
      ensures Valid() && (state, r) == ChunkValues.Malloc(old(state), supplied)
      ensures Sound(old(state)) ==> Allocated(old(state), supplied, state, r)
      ensures forall p :: p in pools && p !in old(pools) ==> fresh(p) && fresh(p.bitmap)
    {
      hide Sound, Allocated, PoolArray.Valid, Flags, FirstClear, Mult, Bitmaps.Words, ChunkValues.Malloc;
      hide Start, Take, Pick;
      MallocTells(state, supplied);
      var i := 0;
      while i < |pools|
        invariant 0 <= i <= |pools|
        invariant Valid() && state == old(state) && pools == old(pools)
        invariant i <= Pick(state.pools)
      {
        assert state.pools[i] == pools[i].View();
        var cur, pos := pools[i], pools[i].numitems;
        if cur.free > 0 { pos := cur.FirstIsClear(); }
        if cur.free > 0 && pos < cur.numitems {
          MallocFrom(state, supplied, i);
          r := cur.bufstart + pos * cut.size;
          TakeFrom(i, pos);
          return;
        }
        PickPast(state.pools, i);
        i := i + 1;
      }
      r := Grow(supplied);
    }

    method Free(a: nat)
      requires Valid()
      modifies this, pools, set p | p in pools :: p.bitmap
      ensures Valid() && state == ChunkValues.Free(old(state), a)
      ensures forall p :: p in pools ==> p in old(pools)
    {
      hide Flags, Mult, Bitmaps.Words, ChunkValues.Free, ChunkValues.DeletePool, Start, Within, Index, Hit;
      FreeNothing(state, a);
      if a == 0 { return; }
      var i := 0;
      while i < |pools|
        invariant 0 <= i <= |pools|
        invariant Valid() && state == old(state) && pools == old(pools)
        invariant i <= Hit(cut, state.pools, a)
      {
        var cur := pools[i];
        assert state.pools[i] == cur.View();
        if cur.bufstart <= a <= cur.bufstart + cut.size * (cur.numitems - 1) {
          FreeFrom(state, a, i);
          var val := (a - cur.bufstart) / cut.size;
          var used := cur.IsUsed(val);
          if used {
            GiveTo(i, val);
            if cur.free == cur.numitems { DeletePool(i); }
          }
          return;
        }
        HitPast(cut, state.pools, a, i);
        i := i + 1;
      }
    }

    method DeletePool(k: nat)
      requires Valid() && k < |pools|
      modifies this
      ensures Valid() && state == Chunks(cut, ChunkValues.DeletePool(old(state.pools), k))
      ensures forall p :: p in pools ==> p in old(pools)
    {
      hide Flags, Mult, Bitmaps.Words;
      if pools[|pools| - 1] == pools[k] { return; }
      pools := pools[..k] + pools[k + 1..];
      state := Chunks(cut, state.pools[..k] + state.pools[k + 1..]);
    }
  }

  lemma MallocTells(c: Chunks, supplied: nat)
    ensures Sound(c) ==> Allocated(c, supplied, Malloc(c, supplied).0, Malloc(c, supplied).1)
  {
    if Sound(c) { MallocDoes(c, supplied); }
  }

  /** Allocation from the pool the search stopped at. */
  lemma MallocFrom(c: Chunks, supplied: nat, k: nat)
    requires k <= Pick(c.pools) && k < |c.pools|
    requires c.pools[k].free > 0 && FirstClear(c.pools[k].used) < |c.pools[k].used|
    ensures var i := FirstClear(c.pools[k].used);
      Malloc(c, supplied) == (Chunks(c.cut, c.pools[k := Take(c.pools[k], i)]),
          Start(c.cut, c.pools[k]) + i * c.cut.size)
  {
  }

  lemma MallocGrows(c: Chunks, supplied: nat)
    requires Pick(c.pools) == |c.pools|
    ensures Malloc(c, supplied) ==
      if c.cut.delta > 0 && supplied > 0 then
        (Chunks(c.cut, [Take(NewPool(supplied, c.cut.delta), 0)] + c.pools),
            Start(c.cut, NewPool(supplied, c.cut.delta)))
      else
        (c, 0)
  {
  }

  lemma PickPast(pools: seq<Pool>, k: nat)
    requires k <= Pick(pools) && k < |pools|
    requires pools[k].free == 0 || FirstClear(pools[k].used) >= |pools[k].used|
    ensures k < Pick(pools)
  {
  }

  /** Release into the pool the search stopped at. */
  lemma FreeFrom(c: Chunks, a: nat, k: nat)
    requires a > 0 && k <= Hit(c.cut, c.pools, a) && k < |c.pools| && |c.pools[k].used| > 0
    requires Start(c.cut, c.pools[k]) <= a <= Start(c.cut, c.pools[k]) + c.cut.size * (|c.pools[k].used| - 1)
    ensures var i := (a - Start(c.cut, c.pools[k])) / c.cut.size;
      && 0 <= i < |c.pools[k].used|
      && Free(c, a) ==
          if !c.pools[k].used[i] then c
          else if c.pools[k].free + 1 == |c.pools[k].used| then
              Chunks(c.cut, DeletePool(c.pools[k := Give(c.pools[k], i)], k))
          else Chunks(c.cut, c.pools[k := Give(c.pools[k], i)])
  {
    assert Within(c.cut, c.pools[k], a);
    assert Index(c.cut, c.pools[k], a) == (a - Start(c.cut, c.pools[k])) / c.cut.size;
  }

  lemma FreeNothing(c: Chunks, a: nat)
    ensures a == 0 || Hit(c.cut, c.pools, a) == |c.pools| ==> Free(c, a) == c
  {
  }

  lemma HitPast(g: Cut, pools: seq<Pool>, a: nat, k: nat)
    requires k <= Hit(g, pools, a) && k < |pools| && |pools[k].used| > 0
    requires !(Start(g, pools[k]) <= a <= Start(g, pools[k]) + g.size * (|pools[k].used| - 1))
    ensures k < Hit(g, pools, a)
  {
  }

  /** `chunks_pool_create`. */
  method PoolCreate(aln: nat, size: nat, numitems: nat, delta: nat, buffer: nat) returns (pool: ChunksPool?)
    ensures pool == null <==> size == 0 || numitems == 0 || buffer == 0
    ensures pool != null ==>
        fresh(pool) && pool.Valid() && Create(aln, size, numitems, delta, buffer) == Some(pool.state)
    ensures pool != null ==> Made(pool.state, aln, size, numitems, delta, buffer) && Sound(pool.state)
  {
    if size == 0 || numitems == 0 || buffer == 0 {
      pool := null;
    } else {
      pool := new ChunksPool(aln, size, numitems, delta, buffer);
    }
  }
}
