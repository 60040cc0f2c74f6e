/**
 Formatting a FAT16.1 volume and the geometry derived from it at mount: sectors per cluster, size of
 the table, the order in which sectors are written and where each cluster lies.
 */
module FatFormat {
  import opened FatChain
  import FatNames

  const MAX_CLUSTERS := 65524
  const MAX_CLUS_SIZE := 32768
  const RES_SECTORS := 1
  const NUM_FATS := 2
  const ROOT := 2
  const U32 := 0x1_0000_0000
  const U16 := 0x1_0000

  // ---------------------------------------------------------------- sectors per cluster

  /** The powers of two that fit in the eight bits of the field. */
  predicate IsPower(p: nat) {
    p in {1, 2, 4, 8, 16, 32, 64, 128}
  }

  /** `p` sectors per cluster address `n` sectors; a single-sector cluster is never checked for size. */
  predicate Fits(p: nat, bps: nat, n: nat) {
    n <= 65524 * p && (p == 1 || p * bps <= 32768)
  }

  /** Doubling in eight bits. */
  function Twice(p: nat): nat {
    (p + p) % 256
  }

  lemma PowerOrder(p: nat, q: nat)
    requires IsPower(p) && IsPower(q) && p < q
    ensures Twice(p) == 2 * p <= q && IsPower(2 * p)
  {
  }

  lemma TimesOrder(p: nat, q: nat, d: nat)
    requires p <= q
    ensures p * d <= q * d
  {
    assert q * d == p * d + (q - p) * d;
  }

  /** The least power of two that covers the volume within the cluster limit, or 0 when none does. */
  method ComputeSecPerClus(bps: nat, sectors: nat) returns (r: nat)
    requires sectors >= RES_SECTORS
    ensures r != 0 ==> IsPower(r) && Fits(r, bps, sectors - RES_SECTORS)
    ensures forall p :: IsPower(p) && Fits(p, bps, sectors - RES_SECTORS) ==> 0 < r <= p
  {
    r := 1;
    var n := sectors - RES_SECTORS;
    while r != 0 && MAX_CLUSTERS * r < n
      invariant r != 0 ==> IsPower(r) && (r == 1 || r * bps <= MAX_CLUS_SIZE)
      invariant forall p :: IsPower(p) && Fits(p, bps, n) ==> 0 < r <= p
      decreases if r == 0 then 0 else 256 - r
    {
      ghost var before := r;
      r := Twice(r);
      forall p | IsPower(p) && Fits(p, bps, n) ensures 0 < r <= p && r * bps <= MAX_CLUS_SIZE {
        PowerOrder(before, p);
        TimesOrder(r, p, bps);
      }
      if r * bps > MAX_CLUS_SIZE {
        r := 0;
        break;
      }
    }
  }

  /** The test of a given number of sectors per cluster. */
  method CheckSecPerClus(spc: nat) returns (ok: bool)
    ensures ok <==> IsPower(spc)
  {
    var check := 1;
    while check != 0
      invariant check == 0 || IsPower(check)
      invariant IsPower(spc) ==> 0 < check <= spc
      decreases if check == 0 then 0 else 256 - check
    {
      if spc == check { return true; }
      if IsPower(spc) { PowerOrder(check, spc); }
      check := Twice(check);
    }
    ok := false;
  }

  // ---------------------------------------------------------------- the size of the table

  function Step(spc: nat): nat {
    256 * spc + NUM_FATS
  }

  /** Sectors of one table, in 32 bits and then cut to the 16 bits of the field. */
  function FatSz(sectors: nat, spc: nat): nat
    requires sectors >= RES_SECTORS
  {
    ((sectors - RES_SECTORS + (Step(spc) - 1)) % U32) / Step(spc) % U16
  }

  /** With a computed cluster size nothing wraps: the table is the rounded-up quotient. */
  lemma FatSzExact(sectors: nat, spc: nat, bps: nat)
    requires sectors >= RES_SECTORS && IsPower(spc) && Fits(spc, bps, sectors - RES_SECTORS)
    ensures var f, n := FatSz(sectors, spc), sectors - RES_SECTORS;
      && (f - 1) * Step(spc) < n <= f * Step(spc) && f <= 256
  {
    var n, d := sectors - RES_SECTORS, Step(spc);
    var q := (n + (d - 1)) / d;
    RoundUp(n, d, q);
    if q > 256 { TimesOrder(257, q, d); }
    NoWrap(n + (d - 1), d, q);
  }

  lemma ModAtMost(a: nat, m: nat)
    requires m > 0
    ensures 0 <= a % m <= a
  {
  }

  lemma DivTimes(a: nat, d: nat)
    requires d > 0
    ensures 0 <= a / d * d <= a
  {
    assert a == a / d * d + a % d;
  }

  lemma WrappedAtMost(x: nat, d: nat, f: nat)
    requires d > 0 && f == (x % U32) / d % U16
    ensures f * d <= x
  {
    ModAtMost(x, U32);
    var y := x % U32;
    DivTimes(y, d);
    var q := y / d;
    ModAtMost(q, U16);
    TimesOrder(f, q, d);
  }

  /** Whatever wraps, the table is never larger than that quotient. */
  lemma FatSzAtMost(sectors: nat, spc: nat)
    requires sectors >= RES_SECTORS
    ensures FatSz(sectors, spc) == 0 || (FatSz(sectors, spc) - 1) * Step(spc) < sectors - RES_SECTORS
  {
    var d: int, f: int := Step(spc), FatSz(sectors, spc);
    WrappedAtMost(sectors - RES_SECTORS + (d - 1), d, f);
    hide FatSz, Step;
    assert (f - 1) * d == f * d - d;
  }

  lemma RoundUp(n: nat, d: nat, q: nat)
    requires d > 0 && q == (n + (d - 1)) / d
    ensures (q - 1) * d < n <= q * d && q * d <= n + (d - 1)
  {
    var x := n + (d - 1);
    assert x == q * d + x % d;
    assert (q - 1) * d == q * d - d;
  }

  lemma NoWrap(x: nat, d: nat, q: nat)
    requires d > 0 && x < U32 && q == x / d < U16
    ensures (x % U32) / d % U16 == q
  {
    assert x % U32 == x;
    assert q % U16 == q;
  }

  datatype ParameterBlock = ParameterBlock(bps: nat, spc: nat, resvd: nat, numFats: nat, totSec: nat, fatSz: nat,
      rootClus: nat, volLab: seq<Byte>)

  /** What a sector holds: the parameter block, plain bytes, or the label entry of the root directory by its name. */
  datatype Block = Boot(pb: ParameterBlock) | Raw(bytes: seq<Byte>) | VolumeLabel(name: seq<Byte>)

  const LABEL_LEN := 16

  /** The name of the label entry: the label filled up with spaces. */
  function LabelName(volLab: seq<Byte>): seq<Byte> {
    seq(FatNames.DIR_NAMELEN, i requires 0 <= i => if i < |volLab| then volLab[i] else FatNames.SPACE)
  }

  function NewBlock(bps: nat, sectors: nat, spc: nat, volLab: seq<Byte>): ParameterBlock
    requires sectors >= RES_SECTORS
  {
    ParameterBlock(bps, spc, RES_SECTORS, NUM_FATS, sectors, FatSz(sectors, spc), ROOT, volLab)
  }

  function Range(a: nat, b: nat): seq<nat> {
    if a < b then seq(b - a, (i: nat) => a + i) else []
  }

  lemma RangeLength(a: nat, b: nat)
    requires a <= b
    ensures |Range(a, b)| == b - a
  {
  }

  lemma RangeJoin(a: nat, b: nat, c: nat)
    requires a <= b <= c
    ensures Range(a, b) + Range(b, c) == Range(a, c)
  {
  }

  /** The sectors written, in order: reserved sector, both tables, volume label, the rest up to `end`. */
  function Log(start: nat, end: nat, f: nat): seq<nat> {
    var fat0 := start + RES_SECTORS;
    var fat1 := fat0 + f;
    var data := fat0 + NUM_FATS * f;
    [start] + Range(fat0, fat0 + Max(1, f)) + Range(fat1, fat1 + Max(1, f)) + [data] + Range(data + 1, end + 1)
  }

  /** The layout is exact when the table has a sector and leaves one for data. */
  predicate Roomy(start: nat, end: nat, f: nat) {
    f > 0 && start + RES_SECTORS + NUM_FATS * f <= end
  }

  /** Every sector of the partition is written exactly once, in order, if and only if the layout has room. */
  lemma LogExact(start: nat, end: nat, f: nat)
    requires start <= end
    ensures Log(start, end, f) == Range(start, end + 1) <==> Roomy(start, end, f)
  {
    hide Log, Range;
    if f == 0 {
      LogNoTable(start, end);
    } else {
      LogWithTable(start, end, f);
      var data := start + RES_SECTORS + NUM_FATS * f;
      if data <= end {
        RangeJoin(start, data + 1, end + 1);
      } else {
        RangeLength(start, data + 1);
        RangeLength(start, end + 1);
      }
    }
  }

  /** Without a table sector the second sector is written more than once. */
  lemma LogNoTable(start: nat, end: nat)
    requires start <= end
    ensures Log(start, end, 0) != Range(start, end + 1)
  {
    var log := Log(start, end, 0);
    assert log[1] == start + 1 && log[2] == start + 1;
  }

  lemma LogWithTable(start: nat, end: nat, f: nat)
    requires start <= end && f > 0
    ensures var data := start + RES_SECTORS + NUM_FATS * f;
      Log(start, end, f) == Range(start, data + 1) + Range(data + 1, end + 1)
  {
    var fat0 := start + RES_SECTORS;
    var fat1, data := fat0 + f, fat0 + NUM_FATS * f;
    hide Range;
    RangeOne(start);
    RangeOne(data);
    assert fat0 + Max(1, f) == fat1 && fat1 + Max(1, f) == data;
    RangesJoin(start, fat0, fat1, data, data + 1);
  }

  lemma RangeOne(a: nat)
    ensures Range(a, a + 1) == [a]
  {
  }

  lemma RangesJoin(a: nat, b: nat, c: nat, d: nat, e: nat)
    requires a <= b <= c <= d <= e
    ensures Range(a, b) + Range(b, c) + Range(c, d) + Range(d, e) == Range(a, e)
  {
    hide Range;
    RangeJoin(a, b, c);
    RangeJoin(a, c, d);
    RangeJoin(a, d, e);
  }

  /** The layout has room exactly from four sectors on, unless the table's size wraps to nothing. */
  lemma RoomyIff(start: nat, end: nat, spc: nat)
    requires start <= end && spc > 0
    ensures Roomy(start, end, FatSz(end - start + 1, spc)) <==> end - start + 1 >= 4 && FatSz(end - start + 1, spc) > 0
  {
    hide FatSz;
    var n, d := end - start, Step(spc);
    var f := FatSz(n + 1, spc);
    FatSzAtMost(n + 1, spc);
    if f > 1 { TimesOrder(258, d, f - 1); }
  }

  /** With a computed cluster size it never does. */
  lemma RoomyComputed(start: nat, end: nat, spc: nat, bps: nat)
    requires start <= end && IsPower(spc) && Fits(spc, bps, end - start)
    ensures Roomy(start, end, FatSz(end - start + 1, spc)) <==> end - start + 1 >= 4
  {
    RoomyIff(start, end, spc);
    FatSzExact(end - start + 1, spc, bps);
  }

  // ---------------------------------------------------------------- the writes

  datatype Write = Write(sector: nat, block: Block)

  function Zeros(n: nat): seq<Byte> {
    seq(n, (i: nat) => 0)
  }

  /** First sector of a table: the media entry, then end marks for entry 1 and for the root directory. */
  function Head(bps: nat): seq<Byte>
    requires bps > 2 * ROOT + 1
  {
    Zeros(bps)[1 := 0xFF][2 := 0xFF][3 := 0xFF][2 * ROOT := 0xFF][2 * ROOT + 1 := 0xFF]
  }

  function Blanks(bps: nat, a: nat, b: nat): seq<Write> {
    if a < b then seq(b - a, (i: nat) => Write(a + i, Raw(Zeros(bps)))) else []
  }

  function TableWrites(bps: nat, k: nat, f: nat): seq<Write>
    requires bps > 2 * ROOT + 1
  {
    [Write(k, Raw(Head(bps)))] + Blanks(bps, k + 1, k + f)
  }

  function Writes(pb: ParameterBlock, start: nat, end: nat): seq<Write>
    requires pb.bps > 2 * ROOT + 1
  {
    var fat0 := start + RES_SECTORS;
    var data := fat0 + NUM_FATS * pb.fatSz;
    [Write(start, Boot(pb))] + TableWrites(pb.bps, fat0, pb.fatSz) + TableWrites(pb.bps, fat0 + pb.fatSz, pb.fatSz)
    + [Write(data, VolumeLabel(LabelName(pb.volLab)))] + Blanks(pb.bps, data + 1, end + 1)
  }

  function Sectors(w: seq<Write>): seq<nat> {
    seq(|w|, i requires 0 <= i < |w| => w[i].sector)
  }

  lemma SectorsConcat(a: seq<Write>, b: seq<Write>)
    ensures Sectors(a + b) == Sectors(a) + Sectors(b)
  {
  }

  lemma TableSectors(bps: nat, k: nat, f: nat)
    requires bps > 2 * ROOT + 1
    ensures Sectors(TableWrites(bps, k, f)) == Range(k, k + Max(1, f))
  {
  }

  lemma BlankSectors(bps: nat, a: nat, b: nat)
    ensures Sectors(Blanks(bps, a, b)) == Range(a, b)
  {
  }

  lemma OneSector(k: nat, block: Block)
    ensures Sectors([Write(k, block)]) == [k]
  {
  }

  /** The writes touch the sectors of the log, in that order. */
  lemma WritesAreLog(pb: ParameterBlock, start: nat, end: nat)
    requires pb.bps > 2 * ROOT + 1
    ensures Sectors(Writes(pb, start, end)) == Log(start, end, pb.fatSz)
  {
    hide Sectors, Range, Blanks, TableWrites;
    var fat0 := start + RES_SECTORS;
    var data := fat0 + NUM_FATS * pb.fatSz;
    var a, b, c, d, e := [Write(start, Boot(pb))], TableWrites(pb.bps, fat0, pb.fatSz),
        TableWrites(pb.bps, fat0 + pb.fatSz, pb.fatSz),
      [Write(data, VolumeLabel(LabelName(pb.volLab)))], Blanks(pb.bps, data + 1, end + 1);
    OneSector(start, Boot(pb));
    OneSector(data, VolumeLabel(LabelName(pb.volLab)));
    TableSectors(pb.bps, fat0, pb.fatSz);
    TableSectors(pb.bps, fat0 + pb.fatSz, pb.fatSz);
    BlankSectors(pb.bps, data + 1, end + 1);
    SectorsConcat(a, b);
    SectorsConcat(a + b, c);
    SectorsConcat(a + b + c, d);
    SectorsConcat(a + b + c + d, e);
  }

  function Applied(d: seq<Block>, w: seq<Write>): seq<Block>
    decreases |w|
  {
    if w == [] then d
    else Applied(if w[0].sector < |d| then d[w[0].sector := w[0].block] else d, w[1..])
  }

  lemma {:induction false} AppliedConcat(d: seq<Block>, a: seq<Write>, b: seq<Write>)
    ensures Applied(d, a + b) == Applied(Applied(d, a), b)
    decreases |a|
  {
    if a == [] {
      assert a + b == b;
    } else {
      assert (a + b)[1..] == a[1..] + b;
      AppliedConcat(if a[0].sector < |d| then d[a[0].sector := a[0].block] else d, a[1..], b);
    }
  }

  lemma {:induction false} AppliedLength(d: seq<Block>, w: seq<Write>)
    ensures |Applied(d, w)| == |d|
    decreases |w|
  {
    if w != [] { AppliedLength(if w[0].sector < |d| then d[w[0].sector := w[0].block] else d, w[1..]); }
  }

  function BlocksOf(w: seq<Write>): seq<Block> {
    seq(|w|, i requires 0 <= i < |w| => w[i].block)
  }

  /** Writing consecutive sectors once each replaces that stretch and leaves the rest. */
  lemma {:induction false} AppliedRange(d: seq<Block>, w: seq<Write>, start: nat)
    requires start + |w| <= |d| && Sectors(w) == Range(start, start + |w|)
    ensures Applied(d, w) == d[..start] + BlocksOf(w) + d[start + |w|..]
    decreases |w|
  {
    if w == [] {
      assert d == d[..start] + d[start..];
    } else {
      assert Sectors(w)[0] == start == w[0].sector;
      var next := d[start := w[0].block];
      forall i | 0 <= i < |w| - 1 ensures w[1..][i].sector == start + 1 + i {
        assert Sectors(w)[i + 1] == start + (i + 1);
      }
      assert Sectors(w[1..]) == Range(start + 1, start + 1 + |w[1..]|);
      AppliedRange(next, w[1..], start + 1);
      assert next[..start + 1] == d[..start] + [w[0].block];
      assert BlocksOf(w) == [w[0].block] + BlocksOf(w[1..]);
      assert next[start + |w|..] == d[start + |w|..];
    }
  }
}
