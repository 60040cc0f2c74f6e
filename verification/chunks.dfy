/**
 The growing chunk allocator of libs/chunks.c on values: pools of equal chunks cut from buffers the
 system allocator supplies. The list is in source order, the pool created first being last.
 */
module ChunkValues {
  /** One buffer: its address, the count of free chunks kept beside it, and which chunks are used. */
  datatype Pool = Pool(buffer: nat, free: nat, used: seq<bool>)

  /** Alignment, chunk size and number of chunks added when a pool runs out. */
  datatype Geometry = Geometry(aln: nat, size: nat, delta: nat)

  type Cut = g: Geometry | g.aln > 0 && g.size > 0 && g.size % g.aln == 0 witness Geometry(1, 1, 0)

  datatype Chunks = Chunks(cut: Cut, pools: seq<Pool>)

  datatype Option<T> = None | Some(value: T)

  const LONG := 4

  /** The first multiple of `y` not below `x`. */
  function Mult(x: nat, y: nat): (m: nat)
    requires y > 0
    ensures x <= m < x + y && m % y == 0
  {
    MultBounds(x, y);
    ((x + y - 1) / y) * y
  }

  lemma MultBounds(x: nat, y: nat)
    requires y > 0
    ensures x <= ((x + y - 1) / y) * y < x + y && ((x + y - 1) / y) * y % y == 0
  {
    var q := (x + y - 1) / y;
    assert x + y - 1 == q * y + (x + y - 1) % y;
    MultipleMod(q, y);
  }

  lemma MultipleMod(q: nat, y: nat)
    requires y > 0
    ensures q * y % y == 0
  {
    var e := q * y / y;
    assert q * y == e * y + q * y % y;
    if e < q { TimesMonotone(e + 1, q, y); }
    if e > q { TimesMonotone(q + 1, e, y); }
  }

  lemma TimesMonotone(a: nat, b: nat, d: nat)
    requires a <= b
    ensures a * d <= b * d
  {
    assert b * d == a * d + (b - a) * d;
  }

  // ---------------------------------------------------------------- bit counts

  function ClearBits(used: seq<bool>): nat {
    if used == [] then 0 else (if used[0] then 0 else 1) + ClearBits(used[1..])
  }

  function FirstClear(used: seq<bool>): (i: nat)
    ensures i <= |used|
    ensures forall j :: 0 <= j < i ==> used[j]
    ensures i < |used| ==> !used[i]
  {
    if used == [] || !used[0] then 0 else 1 + FirstClear(used[1..])
  }

  lemma {:induction false} ClearBitsUpdate(used: seq<bool>, i: nat, v: bool)
    requires i < |used|
    ensures ClearBits(used[i := v]) == ClearBits(used) + (if used[i] then 1 else 0) - (if v then 1 else 0)
  {
    if i > 0 {
      assert used[i := v][1..] == used[1..][i - 1 := v];
      ClearBitsUpdate(used[1..], i - 1, v);
    } else {
      assert used[i := v][1..] == used[1..];
    }
  }

  lemma {:induction false} ClearBitsExtremes(used: seq<bool>)
    ensures ClearBits(used) <= |used|
    ensures ClearBits(used) == 0 <==> FirstClear(used) == |used|
    ensures ClearBits(used) == |used| <==> forall i :: 0 <= i < |used| ==> !used[i]
  {
    if used != [] {
      ClearBitsExtremes(used[1..]);
      if !used[0] && forall i :: 0 <= i < |used| - 1 ==> !used[1..][i] {
        assert forall i :: 0 <= i < |used| ==> i == 0 || used[i] == used[1..][i - 1];
      }
      if forall i :: 0 <= i < |used| ==> !used[i] {
        assert forall i :: 0 <= i < |used| - 1 ==> used[1..][i] == used[i + 1];
      }
    }
  }

  lemma {:induction false} AllClear(n: nat)
    ensures ClearBits(seq(n, (i: nat) => false)) == n
  {
    var used := seq(n, (i: nat) => false);
    if n > 0 {
      assert used[1..] == seq(n - 1, (i: nat) => false);
      AllClear(n - 1);
    }
  }

  // ---------------------------------------------------------------- operations

  function Start(g: Cut, p: Pool): nat {
    Mult(p.buffer, g.aln)
  }

  function Addr(g: Cut, p: Pool, i: nat): nat {
    Start(g, p) + i * g.size
  }

  /** Bytes asked from the system allocator for `n` chunks. */
  function Total(g: Cut, n: nat): nat {
    g.size * n + g.aln
  }

  function NewPool(buffer: nat, n: nat): Pool {
    Pool(buffer, n, seq(n, (i: nat) => false))
  }

  /** `chunks_pool_create`; a `buffer` of 0 stands for a refusal of the system allocator. */
  function Create(aln: nat, size: nat, numitems: nat, delta: nat, buffer: nat): Option<Chunks> {
    if size == 0 || numitems == 0 || buffer == 0 then None
    else
      var a := if aln == 0 then LONG else aln;
      Some(Chunks(Geometry(a, Mult(size, a), delta), [NewPool(buffer, numitems)]))
  }

  /** The first pool whose counter and bitmap both show a free chunk. */
  function Pick(pools: seq<Pool>): (k: nat)
    ensures k <= |pools|
    ensures k < |pools| ==> pools[k].free > 0 && FirstClear(pools[k].used) < |pools[k].used|
    ensures forall l :: 0 <= l < k ==> pools[l].free == 0 || FirstClear(pools[l].used) == |pools[l].used|
  {
    if pools == [] || (pools[0].free > 0 && FirstClear(pools[0].used) < |pools[0].used|) then
        0 else 1 + Pick(pools[1..])
  }

  function Take(p: Pool, i: nat): Pool
    requires i < |p.used| && p.free > 0
  {
    Pool(p.buffer, p.free - 1, p.used[i := true])
  }

  function Give(p: Pool, i: nat): Pool
    requires i < |p.used|
  {
    Pool(p.buffer, p.free + 1, p.used[i := false])
  }

  /** `chunks_pool_malloc`; `supplied` is what the system allocator would answer, 0 for a refusal. */
  function Malloc(c: Chunks, supplied: nat): (Chunks, nat) {
    var k := Pick(c.pools);
    if k < |c.pools| then
      var p := c.pools[k];
      var i := FirstClear(p.used);
      (Chunks(c.cut, c.pools[k := Take(p, i)]), Addr(c.cut, p, i))
    else if c.cut.delta > 0 && supplied > 0 then
      var p := Take(NewPool(supplied, c.cut.delta), 0);
      (Chunks(c.cut, [p] + c.pools), Start(c.cut, p))
    else
      (c, 0)
  }

  predicate Within(g: Cut, p: Pool, a: nat) {
    |p.used| > 0 && Start(g, p) <= a <= Start(g, p) + g.size * (|p.used| - 1)
  }

  function Hit(g: Cut, pools: seq<Pool>, a: nat): (k: nat)
    ensures k <= |pools|
    ensures k < |pools| ==> Within(g, pools[k], a)
    ensures forall l :: 0 <= l < k ==> !Within(g, pools[l], a)
  {
    if pools == [] || Within(g, pools[0], a) then 0 else 1 + Hit(g, pools[1..], a)
  }

  /** The chunk of pool `p` that address `a` falls in. */
  function Index(g: Cut, p: Pool, a: nat): (i: nat)
    requires Within(g, p, a)
    ensures i < |p.used|
    ensures Addr(g, p, i) <= a < Addr(g, p, i) + g.size
  {
    DivBelow(a - Start(g, p), g.size, |p.used| - 1);
    (a - Start(g, p)) / g.size
  }

  lemma DivBelow(d: nat, size: nat, n: nat)
    requires size > 0 && d <= size * n
    ensures d / size <= n && d / size * size <= d < d / size * size + size
  {
    if d / size > n {
      TimesMonotone(n + 1, d / size, size);
    }
  }

  /** `delete_pool`: the pool created first stays. */
  function DeletePool(pools: seq<Pool>, k: nat): seq<Pool>
    requires k < |pools|
  {
    if k == |pools| - 1 then pools else pools[..k] + pools[k + 1..]
  }

  function Free(c: Chunks, a: nat): Chunks {
    var k := Hit(c.cut, c.pools, a);
    if a == 0 || k == |c.pools| || !c.pools[k].used[Index(c.cut, c.pools[k], a)] then c
    else
      var p := Give(c.pools[k], Index(c.cut, c.pools[k], a));
      var pools := c.pools[k := p];
      Chunks(c.cut, if p.free == |p.used| then DeletePool(pools, k) else pools)
  }

  // ---------------------------------------------------------------- what is live

  ghost predicate LivePool(g: Cut, p: Pool, a: nat) {
    exists i :: 0 <= i < |p.used| && p.used[i] && a == Addr(g, p, i)
  }

  ghost predicate LiveIn(g: Cut, pools: seq<Pool>, a: nat) {
    exists k :: 0 <= k < |pools| && LivePool(g, pools[k], a)
  }

  ghost predicate Live(c: Chunks, a: nat) {
    LiveIn(c.cut, c.pools, a)
  }

  ghost predicate Disjoint(g: Cut, p: Pool, q: Pool) {
    p.buffer + Total(g, |p.used|) <= q.buffer || q.buffer + Total(g, |q.used|) <= p.buffer
  }

  ghost predicate Kept(p: Pool) {
    p.buffer > 0 && |p.used| > 0 && p.free == ClearBits(p.used)
  }

  ghost predicate Apart(g: Cut, pools: seq<Pool>) {
    forall k, l :: 0 <= k < l < |pools| ==> Disjoint(g, pools[k], pools[l])
  }

  /** What every run keeps: right counters, separate buffers, no wholly free pool except the one created first. */
  ghost predicate Sound(c: Chunks) {
    && |c.pools| > 0 && Apart(c.cut, c.pools)
    && (forall k :: 0 <= k < |c.pools| ==> Kept(c.pools[k]))
    && (forall k :: 0 <= k < |c.pools| - 1 ==> c.pools[k].free < |c.pools[k].used|)
  }

  /** What the system allocator promises: a new buffer overlaps none that is in use. */
  ghost predicate FreshBuffer(c: Chunks, supplied: nat) {
    supplied > 0 ==> forall k :: 0 <= k < |c.pools| ==> Disjoint(c.cut, NewPool(supplied, c.cut.delta), c.pools[k])
  }

  /** A chunk is aligned, lies inside its pool's buffer and is found again from its address. */
  lemma ChunkInside(g: Cut, p: Pool, i: nat)
    requires i < |p.used|
    ensures Addr(g, p, i) % g.aln == 0
    ensures p.buffer <= Addr(g, p, i) && Addr(g, p, i) + g.size <= p.buffer + Total(g, |p.used|)
    ensures Within(g, p, Addr(g, p, i)) && Index(g, p, Addr(g, p, i)) == i
  {
    Aligned(Start(g, p), g.size, i, g.aln);
    TimesMonotone(i + 1, |p.used|, g.size);
    TimesMonotone(i, |p.used| - 1, g.size);
    assert (i + 1) * g.size == i * g.size + g.size;
    assert Within(g, p, Addr(g, p, i));
    SameIndex(g, p, i, Index(g, p, Addr(g, p, i)));
  }

  lemma Aligned(a: nat, b: nat, i: nat, aln: nat)
    requires aln > 0 && a % aln == 0 && b % aln == 0
    ensures (a + i * b) % aln == 0
  {
    var q, s := b / aln, a / aln;
    assert b == q * aln && a == s * aln;
    assert i * b == (i * q) * aln;
    assert a + i * b == (s + i * q) * aln;
    assert i * q >= 0;
    MultipleMod(s + i * q, aln);
  }

  lemma SameIndex(g: Cut, p: Pool, i: nat, j: nat)
    requires Addr(g, p, i) < Addr(g, p, j) + g.size && Addr(g, p, j) < Addr(g, p, i) + g.size
    ensures i == j
  {
    if i < j {
      TimesMonotone(i + 1, j, g.size);
    }
    if j < i {
      TimesMonotone(j + 1, i, g.size);
    }
  }

  /** Different live chunks do not overlap, and every live chunk is aligned and inside a buffer. */
  lemma LiveApart(c: Chunks, a: nat, b: nat)
    requires Sound(c) && Live(c, a) && Live(c, b)
    ensures a == b || a + c.cut.size <= b || b + c.cut.size <= a
    ensures a > 0 && a % c.cut.aln == 0
    ensures exists p :: p in c.pools && p.buffer <= a && a + c.cut.size <= p.buffer + Total(c.cut, |p.used|)
  {
    hide Addr, Total, ClearBits;
    var g := c.cut;
    var k :| 0 <= k < |c.pools| && LivePool(g, c.pools[k], a);
    var l :| 0 <= l < |c.pools| && LivePool(g, c.pools[l], b);
    var p, q := c.pools[k], c.pools[l];
    var i :| 0 <= i < |p.used| && p.used[i] && a == Addr(g, p, i);
    var j :| 0 <= j < |q.used| && q.used[j] && b == Addr(g, q, j);
    ChunkInside(g, p, i);
    ChunkInside(g, q, j);
    assert p in c.pools && Kept(p);
    if k == l && a < b + g.size && b < a + g.size {
      SameIndex(g, p, i, j);
    }
    assert k < l ==> Disjoint(g, p, q);
    assert l < k ==> Disjoint(g, q, p);
  }

  /** Setting one position of a pool changes the liveness of that chunk alone. */
  lemma LiveAfterSet(g: Cut, p: Pool, q: Pool, i: nat, v: bool, a: nat)
    requires i < |p.used| && q.buffer == p.buffer && q.used == p.used[i := v]
    ensures LivePool(g, q, a) <==> if a == Addr(g, p, i) then v else LivePool(g, p, a)
  {
    assert forall j: nat :: Addr(g, q, j) == Addr(g, p, j);
    hide Addr;
    if LivePool(g, q, a) {
      var j :| 0 <= j < |q.used| && q.used[j] && a == Addr(g, q, j);
      if a == Addr(g, p, i) { SameIndex(g, p, i, j); } else { assert p.used[j]; }
    }
    if a == Addr(g, p, i) && v { assert q.used[i]; }
    if a != Addr(g, p, i) && LivePool(g, p, a) {
      var j :| 0 <= j < |p.used| && p.used[j] && a == Addr(g, p, j);
      assert q.used[j];
    }
  }

  /** A chunk's address belongs to no other pool. */
  lemma OwnedOnce(c: Chunks, k: nat, i: nat, l: nat)
    requires Sound(c) && k < |c.pools| && i < |c.pools[k].used| && l < |c.pools| && l != k
    ensures !Within(c.cut, c.pools[l], Addr(c.cut, c.pools[k], i))
    ensures !LivePool(c.cut, c.pools[l], Addr(c.cut, c.pools[k], i))
  {
    hide Addr, Total, ClearBits, Within;
    var p, q, a := c.pools[k], c.pools[l], Addr(c.cut, c.pools[k], i);
    ChunkInside(c.cut, p, i);
    assert k < l ==> Disjoint(c.cut, p, q);
    assert l < k ==> Disjoint(c.cut, q, p);
    if Within(c.cut, q, a) {
      ChunkInside(c.cut, q, Index(c.cut, q, a));
    }
    if LivePool(c.cut, q, a) {
      var j :| 0 <= j < |q.used| && q.used[j] && a == Addr(c.cut, q, j);
      ChunkInside(c.cut, q, j);
    }
  }

  lemma LiveAfterReplace(c: Chunks, k: nat, q: Pool, i: nat, v: bool, a: nat)
    requires Sound(c) && k < |c.pools| && i < |c.pools[k].used|
    requires q.buffer == c.pools[k].buffer && q.used == c.pools[k].used[i := v]
    ensures LiveIn(c.cut, c.pools[k := q], a) <==> if a == Addr(c.cut, c.pools[k], i) then v else Live(c, a)
  {
    hide Addr, LivePool, Sound;
    var p, pools := c.pools[k], c.pools[k := q];
    LiveAfterSet(c.cut, p, q, i, v, a);
    forall l | 0 <= l < |c.pools| && l != k
      ensures pools[l] == c.pools[l]
      ensures a == Addr(c.cut, p, i) ==> !LivePool(c.cut, c.pools[l], a)
    {
      if a == Addr(c.cut, p, i) { OwnedOnce(c, k, i, l); }
    }
    assert pools[k] == q;
  }

  /** Taking out a pool takes out its live chunks, here none. */
  lemma LiveAfterDelete(g: Cut, pools: seq<Pool>, k: nat, a: nat)
    requires k < |pools| && !LivePool(g, pools[k], a)
    ensures LiveIn(g, pools[..k] + pools[k + 1..], a) <==> LiveIn(g, pools, a)
  {
    hide LivePool;
    var rest := pools[..k] + pools[k + 1..];
    if LiveIn(g, rest, a) {
      var l :| 0 <= l < |rest| && LivePool(g, rest[l], a);
      assert rest[l] == pools[if l < k then l else l + 1];
    }
    if LiveIn(g, pools, a) {
      var l :| 0 <= l < |pools| && LivePool(g, pools[l], a);
      assert rest[if l < k then l else l - 1] == pools[l];
    }
  }

  lemma LiveAfterPrepend(g: Cut, p: Pool, pools: seq<Pool>, a: nat)
    ensures LiveIn(g, [p] + pools, a) <==> LivePool(g, p, a) || LiveIn(g, pools, a)
  {
    hide LivePool;
    var more := [p] + pools;
    assert more[0] == p;
    if LiveIn(g, pools, a) {
      var l :| 0 <= l < |pools| && LivePool(g, pools[l], a);
      assert more[l + 1] == pools[l];
    }
  }

  lemma NoneLive(g: Cut, p: Pool, a: nat)
    requires ClearBits(p.used) == |p.used|
    ensures !LivePool(g, p, a)
  {
    ClearBitsExtremes(p.used);
  }

  // ---------------------------------------------------------------- the two operations

  /** Allocation fails only when every chunk is live and no pool can be added; otherwise it adds one chunk that was
   not live. */
  lemma MallocAddsOne(c: Chunks, supplied: nat)
    requires Sound(c) && FreshBuffer(c, supplied)
    ensures var (d, r) := Malloc(c, supplied);
      && (r == 0 ==> d == c && (c.cut.delta == 0 || supplied == 0))
      && (r == 0 ==> forall p :: p in c.pools ==> ClearBits(p.used) == 0)
      && (r != 0 ==> !Live(c, r) && r % c.cut.aln == 0 && forall a :: Live(d, a) <==> Live(c, a) || a == r)
  {
    hide Addr, LiveIn, LivePool, Disjoint, ClearBits, Total;
    var k := Pick(c.pools);
    var (d, r) := Malloc(c, supplied);
    if k < |c.pools| {
      var p, i := c.pools[k], FirstClear(c.pools[k].used);
      assert Kept(p);
      ChunkInside(c.cut, p, i);
      forall a ensures Live(d, a) <==> Live(c, a) || a == r {
        LiveAfterReplace(c, k, Take(p, i), i, true, a);
      }
      LiveAfterReplace(c, k, p, i, false, r);
      assert c.pools[k := p] == c.pools;
      assert p.used[i := false] == p.used;
    } else {
      forall p | p in c.pools ensures ClearBits(p.used) == 0 {
        assert Kept(p);
        ClearBitsExtremes(p.used);
      }
      if c.cut.delta > 0 && supplied > 0 {
        NewPoolLive(c, supplied);
      }
    }
  }

  lemma NewPoolLive(c: Chunks, supplied: nat)
    requires Sound(c) && FreshBuffer(c, supplied) && c.cut.delta > 0 && supplied > 0
    ensures var p := Take(NewPool(supplied, c.cut.delta), 0);
      && Start(c.cut, p) > 0 && Start(c.cut, p) % c.cut.aln == 0 && !Live(c, Start(c.cut, p))
      && forall a :: LiveIn(c.cut, [p] + c.pools, a) <==> Live(c, a) || a == Start(c.cut, p)
  {
    hide ClearBits, Total, Mult;
    var new_ := NewPool(supplied, c.cut.delta);
    var p := Take(new_, 0);
    var r := Start(c.cut, p);
    assert Addr(c.cut, new_, 0) == r;
    ChunkInside(c.cut, new_, 0);
    forall a ensures LiveIn(c.cut, [p] + c.pools, a) <==> Live(c, a) || a == r {
      LiveAfterPrepend(c.cut, p, c.pools, a);
      LiveAfterSet(c.cut, new_, p, 0, true, a);
    }
    forall k | 0 <= k < |c.pools| ensures !LivePool(c.cut, c.pools[k], r) {
      var q := c.pools[k];
      assert Disjoint(c.cut, new_, q);
      if LivePool(c.cut, q, r) {
        var j :| 0 <= j < |q.used| && q.used[j] && r == Addr(c.cut, q, j);
        ChunkInside(c.cut, q, j);
      }
    }
  }

  /** Freeing the address of a live chunk removes it and nothing else. */
  lemma FreeRemovesOne(c: Chunks, r: nat)
    requires Sound(c) && Live(c, r)
    ensures forall a :: Live(Free(c, r), a) <==> Live(c, a) && a != r
  {
    hide Addr, LivePool, Disjoint, ClearBits, Total;
    var k, i := LiveWhere(c, r);
    var p := Give(c.pools[k], i);
    var pools := c.pools[k := p];
    GiveKeeps(c.pools[k], i);
    forall a ensures Live(Free(c, r), a) <==> Live(c, a) && a != r {
      LiveAfterReplace(c, k, p, i, false, a);
      if p.free == |p.used| {
        NoneLive(c.cut, p, a);
        LiveAfterDelete(c.cut, pools, k, a);
      }
    }
  }

  /** Any other address either changes nothing or falls inside a live chunk, which it then frees. */
  lemma FreeElsewhere(c: Chunks, a: nat)
    requires Sound(c) && Free(c, a) != c
    ensures exists r: nat :: Live(c, r) && r <= a < r + c.cut.size && Free(c, a) == Free(c, r)
  {
    hide Addr, Within, ClearBits;
    var k := Hit(c.cut, c.pools, a);
    var i := Index(c.cut, c.pools[k], a);
    var r := Addr(c.cut, c.pools[k], i);
    assert LivePool(c.cut, c.pools[k], r);
    var h, j := LiveWhere(c, r);
    ChunkInside(c.cut, c.pools[k], i);
    if h != k { OwnedOnce(c, k, i, h); }
  }

  /** The address falls in used chunk `i` of pool `k`; of the last chunk of a pool only its own address counts. */
  ghost predicate Strikes(c: Chunks, a: nat, k: nat, i: nat) {
    && k < |c.pools| && i < |c.pools[k].used| && c.pools[k].used[i]
    && Addr(c.cut, c.pools[k], i) <= a < Addr(c.cut, c.pools[k], i) + c.cut.size
    && (i == |c.pools[k].used| - 1 ==> a == Addr(c.cut, c.pools[k], i))
  }

  /** Exactly when a release does something, for every address. */
  lemma FreeActsIff(c: Chunks, a: nat)
    requires Sound(c)
    ensures Free(c, a) != c <==> exists k: nat, i: nat :: Strikes(c, a, k, i)
  {
    hide ClearBits, Total, Start;
    if Free(c, a) != c {
      var k := Hit(c.cut, c.pools, a);
      var i := Index(c.cut, c.pools[k], a);
      LastOnly(c.cut, c.pools[k], a, i);
      assert Strikes(c, a, k, i);
    }
    if k: nat, i: nat :| Strikes(c, a, k, i) {
      StruckWithin(c, a, k, i);
      hide Addr, Within, Apart;
      var p := c.pools[k];
      assert Kept(p);
      assert Free(c, a).pools != c.pools by { GiveChanges(c.pools, k, i); }
    }
  }

  lemma LastOnly(g: Cut, p: Pool, a: nat, i: nat)
    requires Within(g, p, a) && i == Index(g, p, a)
    ensures i == |p.used| - 1 ==> a == Addr(g, p, i)
  {
    hide Start;
  }

  lemma GiveChanges(pools: seq<Pool>, k: nat, i: nat)
    requires k < |pools| && i < |pools[k].used| && pools[k].used[i]
    ensures pools[k := Give(pools[k], i)] != pools
    ensures k < |pools| - 1 ==> DeletePool(pools[k := Give(pools[k], i)], k) != pools
  {
    var q := Give(pools[k], i);
    assert pools[k := q][k] == q && q.free != pools[k].free;
    if k < |pools| - 1 { assert |DeletePool(pools[k := q], k)| == |pools| - 1; }
  }

  lemma StruckWithin(c: Chunks, a: nat, k: nat, i: nat)
    requires Sound(c) && Strikes(c, a, k, i)
    ensures a > 0 && Hit(c.cut, c.pools, a) == k && Within(c.cut, c.pools[k], a) && Index(c.cut, c.pools[k], a) == i
  {
    hide ClearBits, Total, Start, Index;
    var p := c.pools[k];
    assert Kept(p);
    ChunkInside(c.cut, p, i);
    if i < |p.used| - 1 { TimesMonotone(i + 1, |p.used| - 1, c.cut.size); }
    assert (i + 1) * c.cut.size == i * c.cut.size + c.cut.size;
    assert Within(c.cut, p, a);
    SameIndex(c.cut, p, i, Index(c.cut, p, a));
    var h := Hit(c.cut, c.pools, a);
    assert forall l :: 0 <= l < k ==> Disjoint(c.cut, c.pools[l], p);
    if h < k { ChunkInside(c.cut, c.pools[h], Index(c.cut, c.pools[h], a)); }
  }

  /** Where a live address is found. */
  lemma LiveWhere(c: Chunks, r: nat) returns (k: nat, i: nat)
    requires Sound(c) && Live(c, r)
    ensures k == Hit(c.cut, c.pools, r) < |c.pools| && i < |c.pools[k].used| && c.pools[k].used[i]
    ensures i == Index(c.cut, c.pools[k], r) && r == Addr(c.cut, c.pools[k], i) > 0
  {
    hide Addr, Within, ClearBits;
    k :| 0 <= k < |c.pools| && LivePool(c.cut, c.pools[k], r);
    i :| 0 <= i < |c.pools[k].used| && c.pools[k].used[i] && r == Addr(c.cut, c.pools[k], i);
    ChunkInside(c.cut, c.pools[k], i);
    assert Kept(c.pools[k]);
    var h := Hit(c.cut, c.pools, r);
    if h < k { OwnedOnce(c, k, i, h); }
  }

  lemma GiveKeeps(p: Pool, i: nat)
    requires Kept(p) && i < |p.used| && p.used[i]
    ensures Kept(Give(p, i))
  {
    ClearBitsUpdate(p.used, i, false);
  }

  lemma TakeKeeps(p: Pool, i: nat)
    requires Kept(p) && i < |p.used| && !p.used[i] && p.free > 0
    ensures Kept(Take(p, i)) && Take(p, i).free < |p.used|
  {
    ClearBitsUpdate(p.used, i, true);
    ClearBitsExtremes(p.used);
  }

  /** An extension pool goes exactly when its last live chunk is freed; the pool created first never goes. */
  lemma FreeDropsEmptied(c: Chunks, r: nat)
    requires Sound(c) && Live(c, r)
    ensures var k := Hit(c.cut, c.pools, r);
      && k < |c.pools|
      && |Free(c, r).pools| == (if k < |c.pools| - 1 &&
          ClearBits(c.pools[k].used) + 1 == |c.pools[k].used| then |c.pools| - 1 else |c.pools|)
      && c.pools[|c.pools| - 1].buffer == Free(c, r).pools[|Free(c, r).pools| - 1].buffer
      && forall p :: p in c.pools && p != c.pools[k] ==> p in Free(c, r).pools
  {
    hide Addr, Within, ClearBits, Index, Hit, Apart;
    var k, i := LiveWhere(c, r);
    var p := Give(c.pools[k], i);
    assert Kept(c.pools[k]);
    var pools, after := c.pools[k := p], Free(c, r).pools;
    forall q | q in c.pools && q != c.pools[k] ensures q in after {
      var l :| 0 <= l < |c.pools| && c.pools[l] == q;
      assert pools[l] == q;
      assert after == pools || after[if l < k then l else l - 1] == q;
    }
  }

  // ---------------------------------------------------------------- runs

  lemma ReplaceKeepsSound(c: Chunks, k: nat, q: Pool)
    requires Sound(c) && k < |c.pools| && Kept(q)
    requires q.buffer == c.pools[k].buffer && |q.used| == |c.pools[k].used|
    requires k < |c.pools| - 1 ==> q.free < |q.used|
    ensures Sound(Chunks(c.cut, c.pools[k := q]))
  {
    hide ClearBits, Total, Kept;
  }

  lemma MallocKeepsSound(c: Chunks, supplied: nat)
    requires Sound(c) && FreshBuffer(c, supplied)
    ensures Sound(Malloc(c, supplied).0)
  {
    hide ClearBits, Total, Addr, Start;
    var k := Pick(c.pools);
    if k < |c.pools| {
      var p := c.pools[k];
      assert Kept(p);
      TakeKeeps(p, FirstClear(p.used));
      ReplaceKeepsSound(c, k, Take(p, FirstClear(p.used)));
    } else if c.cut.delta > 0 && supplied > 0 {
      var new_ := NewPool(supplied, c.cut.delta);
      AllClear(c.cut.delta);
      TakeKeeps(new_, 0);
      var pools := [Take(new_, 0)] + c.pools;
      forall l | 0 < l < |pools| ensures pools[l] == c.pools[l - 1] && Disjoint(c.cut, pools[0], pools[l]) {
        assert Disjoint(c.cut, new_, c.pools[l - 1]);
      }
    }
  }

  /** Even a wild address cannot upset the pools. */
  lemma FreeKeepsSound(c: Chunks, a: nat)
    requires Sound(c)
    ensures Sound(Free(c, a))
  {
    hide ClearBits, Total, Addr, Start;
    var k := Hit(c.cut, c.pools, a);
    if !(a == 0 || k == |c.pools| || !c.pools[k].used[Index(c.cut, c.pools[k], a)]) {
      var i := Index(c.cut, c.pools[k], a);
      var p := Give(c.pools[k], i);
      assert Kept(c.pools[k]);
      GiveKeeps(c.pools[k], i);
      ClearBitsExtremes(p.used);
      if p.free == |p.used| && k < |c.pools| - 1 {
        DeleteKeepsSound(c, k, p);
      } else {
        ReplaceKeepsSound(c, k, p);
      }
    }
  }

  lemma DeleteKeepsSound(c: Chunks, k: nat, p: Pool)
    requires Sound(c) && k < |c.pools| - 1
    ensures Sound(Chunks(c.cut, DeletePool(c.pools[k := p], k)))
  {
    hide ClearBits, Total, Kept, Disjoint;
    var rest := DeletePool(c.pools[k := p], k);
    assert forall l :: 0 <= l < |rest| ==> rest[l] == c.pools[if l < k then l else l + 1];
  }

  /** The least multiple of `y` that is not below `x`. */
  ghost predicate LeastMultiple(m: nat, x: nat, y: nat)
    requires y > 0
  {
    x <= m && m % y == 0 && forall n: nat :: x <= n && n % y == 0 ==> m <= n
  }

  lemma MultIsLeast(x: nat, y: nat)
    requires y > 0
    ensures LeastMultiple(Mult(x, y), x, y)
  {
    var m := Mult(x, y);
    forall n: nat | x <= n && n % y == 0 ensures m <= n {
      if n < m {
        MultiplesApart(n, m, y);
      }
    }
  }

  lemma MultiplesApart(n: nat, m: nat, y: nat)
    requires y > 0 && n < m && n % y == 0 && m % y == 0
    ensures n + y <= m
  {
    var i, j := n / y, m / y;
    assert n == i * y && m == j * y;
    if j <= i { TimesMonotone(j, i, y); }
    TimesMonotone(i + 1, j, y);
    assert (i + 1) * y == i * y + y;
  }

  /** The alignment asked for; 0 asks for that of a long. */
  function Wanted(aln: nat): nat {
    if aln == 0 then 4 else aln
  }

  /** One pool of `numitems` free chunks in the buffer, cut in the least aligned size that holds a request. */
  ghost predicate Made(c: Chunks, aln: nat, size: nat, numitems: nat, delta: nat, buffer: nat) {
    && c.cut.aln == Wanted(aln) && LeastMultiple(c.cut.size, size, Wanted(aln)) && c.cut.delta == delta
    && |c.pools| == 1 && c.pools[0].buffer == buffer && c.pools[0].free == numitems == |c.pools[0].used|
    && forall i :: 0 <= i < numitems ==> !c.pools[0].used[i]
  }

  lemma CreateSound(aln: nat, size: nat, numitems: nat, delta: nat, buffer: nat)
    ensures var c := Create(aln, size, numitems, delta, buffer);
      && (c == None <==> size == 0 || numitems == 0 || buffer == 0)
      && (c.Some? ==> Made(c.value, aln, size, numitems, delta, buffer))
      && (c.Some? ==> Sound(c.value) && forall a :: !Live(c.value, a))
  {
    AllClear(numitems);
    MultIsLeast(size, Wanted(aln));
  }

  /** The chunk taken is the first free one of the first pool that has one. */
  ghost predicate TookFirst(c: Chunks, d: Chunks, r: nat, k: nat, i: nat) {
    && k < |c.pools| && i < |c.pools[k].used|
    && (forall l, j :: 0 <= l < k && 0 <= j < |c.pools[l].used| ==> c.pools[l].used[j])
    && !c.pools[k].used[i] && (forall j :: 0 <= j < i ==> c.pools[k].used[j])
    && c.pools[k].free > 0
    && d == c.(pools := c.pools[k := Pool(c.pools[k].buffer, c.pools[k].free - 1, c.pools[k].used[i := true])])
    && exists start: nat :: LeastMultiple(start, c.pools[k].buffer, c.cut.aln) && r == start + i * c.cut.size
  }

  /** A pool of `delta` chunks, only the first one used, is put in front. */
  ghost predicate GrewByOne(c: Chunks, d: Chunks, r: nat, supplied: nat) {
    && |d.pools| == |c.pools| + 1 && d == c.(pools := [d.pools[0]] + c.pools)
    && var p := d.pools[0];
       && p.buffer == supplied && |p.used| == c.cut.delta > 0 && p.free == c.cut.delta - 1 && p.used[0]
       && (forall j :: 1 <= j < c.cut.delta ==> !p.used[j])
       && LeastMultiple(r, supplied, c.cut.aln)
  }

  ghost predicate Full(p: Pool) {
    forall j :: 0 <= j < |p.used| ==> p.used[j]
  }

  /** The three outcomes of an allocation and exactly when each comes about. */
  ghost predicate Allocated(c: Chunks, supplied: nat, d: Chunks, r: nat) {
    if exists k :: 0 <= k < |c.pools| && !Full(c.pools[k]) then exists k, i :: TookFirst(c, d, r, k, i)
    else if c.cut.delta > 0 && supplied > 0 then GrewByOne(c, d, r, supplied)
    else d == c && r == 0
  }

  lemma MallocDoes(c: Chunks, supplied: nat)
    requires Sound(c)
    ensures var (d, r) := Malloc(c, supplied); Allocated(c, supplied, d, r)
  {
    hide Disjoint, ClearBits, LeastMultiple, Mult;
    var k := Pick(c.pools);
    var (d, r) := Malloc(c, supplied);
    forall l | 0 <= l < |c.pools| ensures Full(c.pools[l]) <==> c.pools[l].free == 0
      ensures Full(c.pools[l]) <==> FirstClear(c.pools[l].used) == |c.pools[l].used| {
      assert Kept(c.pools[l]);
      ClearBitsExtremes(c.pools[l].used);
    }
    if k < |c.pools| {
      MultIsLeast(c.pools[k].buffer, c.cut.aln);
      assert TookFirst(c, d, r, k, FirstClear(c.pools[k].used));
      assert !Full(c.pools[k]);
    } else if c.cut.delta > 0 && supplied > 0 {
      MultIsLeast(supplied, c.cut.aln);
    }
  }

  /** A call: an allocation with the system allocator's answer, or the release of an address. */
  datatype Op = Alloc(supplied: nat) | Release(addr: nat)

  function Step(c: Chunks, op: Op): Chunks {
    match op
    case Alloc(supplied) => Malloc(c, supplied).0
    case Release(a) => Free(c, a)
  }

  function Run(c: Chunks, ops: seq<Op>): Chunks
    decreases |ops|
  {
    if ops == [] then c else Run(Step(c, ops[0]), ops[1..])
  }

  /** The system allocator keeps its promise at every step. */
  ghost predicate Supplied(c: Chunks, ops: seq<Op>)
    decreases |ops|
  {
    ops == [] || ((ops[0].Alloc? ==> FreshBuffer(c, ops[0].supplied)) && Supplied(Step(c, ops[0]), ops[1..]))
  }

  lemma {:induction false} RunKeepsSound(c: Chunks, ops: seq<Op>)
    requires Sound(c) && Supplied(c, ops)
    ensures Sound(Run(c, ops))
    decreases |ops|
  {
    if ops != [] {
      match ops[0]
      case Alloc(supplied) => MallocKeepsSound(c, supplied); RunKeepsSound(Step(c, ops[0]), ops[1..]);
      case Release(a) => FreeKeepsSound(c, a); RunKeepsSound(Step(c, ops[0]), ops[1..]);
    }
  }

  /** What a client holds: what it was given and has not returned. */
  ghost function Held(c: Chunks, held: set<nat>, ops: seq<Op>): set<nat>
    decreases |ops|
  {
    if ops == [] then held
    else match ops[0]
      case Alloc(supplied) => Held(Step(c, ops[0]),
          held + (if Malloc(c, supplied).1 == 0 then {} else {Malloc(c, supplied).1}), ops[1..])
      case Release(a) => Held(Step(c, ops[0]), held - {a}, ops[1..])
  }

  /** The client returns only what it holds. */
  ghost predicate Fair(c: Chunks, held: set<nat>, ops: seq<Op>)
    decreases |ops|
  {
    ops == [] ||
      match ops[0]
      case Alloc(supplied) => Fair(Step(c, ops[0]),
          held + (if Malloc(c, supplied).1 == 0 then {} else {Malloc(c, supplied).1}), ops[1..])
      case Release(a) => a in held && Fair(Step(c, ops[0]), held - {a}, ops[1..])
  }

  /** Over every fair run the live chunks are exactly those the client holds. */
  lemma {:induction false} LiveIsHeld(c: Chunks, held: set<nat>, ops: seq<Op>)
    requires Sound(c) && Supplied(c, ops) && Fair(c, held, ops)
    requires forall a :: Live(c, a) <==> a in held
    ensures forall a :: Live(Run(c, ops), a) <==> a in Held(c, held, ops)
    decreases |ops|
  {
    hide Sound, Malloc, Free, Live;
    if ops != [] {
      match ops[0]
      case Alloc(supplied) =>
        MallocKeepsSound(c, supplied);
        MallocAddsOne(c, supplied);
        LiveIsHeld(Step(c, ops[0]), held + (if Malloc(c, supplied).1 == 0 then {} else {Malloc(c, supplied).1}),
            ops[1..]);
      case Release(a) =>
        FreeKeepsSound(c, a);
        FreeRemovesOne(c, a);
        LiveIsHeld(Step(c, ops[0]), held - {a}, ops[1..]);
    }
  }

  /** The addresses a run hands out. */
  function Answers(c: Chunks, ops: seq<Op>): set<nat>
    decreases |ops|
  {
    if ops == [] then {}
    else
      (if ops[0].Alloc? && Malloc(c, ops[0].supplied).1 != 0 then {Malloc(c, ops[0].supplied).1} else {})
      + Answers(Step(c, ops[0]), ops[1..])
  }

  lemma {:induction false} RunAligns(c: Chunks, ops: seq<Op>)
    requires Sound(c) && Supplied(c, ops)
    ensures Run(c, ops).cut == c.cut && forall a :: a in Answers(c, ops) ==> a % c.cut.aln == 0
    decreases |ops|
  {
    hide Sound, Live, FreshBuffer;
    if ops != [] {
      match ops[0]
      case Alloc(supplied) =>
        MallocKeepsSound(c, supplied);
        MallocAddsOne(c, supplied);
        RunAligns(Step(c, ops[0]), ops[1..]);
      case Release(a) =>
        FreeKeepsSound(c, a);
        RunAligns(Step(c, ops[0]), ops[1..]);
    }
  }

  /** No two live chunks share any of the `size` bytes asked for. */
  ghost predicate RoomFor(c: Chunks, size: nat) {
    forall a: nat, b: nat :: Live(c, a) && Live(c, b) ==> a == b || a + size <= b || b + size <= a
  }

  lemma SoundHasRoom(c: Chunks, size: nat)
    requires Sound(c) && size <= c.cut.size
    ensures RoomFor(c, size)
  {
    hide Sound, Live;
    forall a: nat, b: nat | Live(c, a) && Live(c, b) ensures a == b || a + size <= b || b + size <= a {
      LiveApart(c, a, b);
    }
  }

  /** Over every run, told in what was asked for: every address is aligned, and live chunks have room for a request. */
  lemma EveryRunFromCreate(aln: nat, size: nat, numitems: nat, delta: nat, buffer: nat, c: Chunks, ops: seq<Op>)
    requires Create(aln, size, numitems, delta, buffer) == Some(c) && Supplied(c, ops)
    ensures forall a :: a in Answers(c, ops) ==> a % (if aln == 0 then 4 else aln) == 0
    ensures RoomFor(Run(c, ops), size)
  {
    CreateSound(aln, size, numitems, delta, buffer);
    assert c.cut.aln == Wanted(aln) && c.cut.size >= size;
    hide Create, Sound, Live, Made, Supplied, Run;
    RunAligns(c, ops);
    RunKeepsSound(c, ops);
    SoundHasRoom(Run(c, ops), size);
  }
}
