/**
 Formatting a disk in place, and the table and geometry a mount reads back from it.
 */
module FatMount {
  import opened FatChain
  import FatNames
  import opened FatFormat
  import opened FatVolume

  class Disk {
    const sectors: array<Block>
    ghost var log: seq<Write>

    constructor (contents: seq<Block>)
      ensures fresh(sectors) && sectors[..] == contents && log == []
    {
      sectors := new Block[|contents|](i requires 0 <= i < |contents| => contents[i]);
      log := [];
    }

    /** The disk has had exactly the writes `w` since it held `d`. */
    ghost predicate Since(log0: seq<Write>, d: seq<Block>, w: seq<Write>)
      reads this, sectors
    {
      |d| == sectors.Length && log == log0 + w && sectors[..] == Applied(d, w)
    }

    /** One sector; a sector beyond the disk is an error. */
    method Put(k: nat, block: Block, ghost log0: seq<Write>, ghost d: seq<Block>,
        ghost w: seq<Write>) returns (ok: bool)
      requires Since(log0, d, w)
      modifies this, sectors
      ensures ok <==> k < sectors.Length
      ensures ok ==> Since(log0, d, w + [Write(k, block)])
    {
      ok := k < sectors.Length;
      if ok {
        AppliedConcat(d, w, [Write(k, block)]);
        AppliedOne(sectors[..], k, block);
        sectors[k] := block;
        log := log + [Write(k, block)];
      }
    }

    method PutBlanks(bps: nat, a: nat, b: nat, ghost log0: seq<Write>, ghost d: seq<Block>,
        ghost w: seq<Write>) returns (ok: bool)
      requires Since(log0, d, w)
      modifies this, sectors
      ensures ok <==> b <= a || b <= sectors.Length
      ensures ok ==> Since(log0, d, w + Blanks(bps, a, b))
    {
      hide Disk.Since;
      var k := a;
      BlanksNone(bps, a, b);
      assert w + [] == w;
      while k < b
        invariant a <= k && (if a < b then k <= b else k == a) && k <= Max(a, sectors.Length)
        invariant Since(log0, d, w + Blanks(bps, a, k))
      {
        ok := Put(k, Raw(Zeros(bps)), log0, d, w + Blanks(bps, a, k));
        if !ok { return; }
        BlanksMore(bps, a, k);
        assert w + Blanks(bps, a, k) + [Write(k, Raw(Zeros(bps)))] == w + Blanks(bps, a, k + 1);
        k := k + 1;
      }
      assert Blanks(bps, a, k) == Blanks(bps, a, b);
      ok := true;
    }

    method PutTable(bps: nat, k: nat, f: nat, ghost log0: seq<Write>, ghost d: seq<Block>,
        ghost w: seq<Write>) returns (ok: bool)
      requires Since(log0, d, w) && bps > 2 * ROOT + 1
      modifies this, sectors
      ensures ok <==> k + Max(1, f) <= sectors.Length
      ensures ok ==> Since(log0, d, w + TableWrites(bps, k, f))
    {
      hide Disk.Since, Blanks, Head;
      ok := Put(k, Raw(Head(bps)), log0, d, w);
      if !ok { return; }
      ok := PutBlanks(bps, k + 1, k + f, log0, d, w + [Write(k, Raw(Head(bps)))]);
      assert w + [Write(k, Raw(Head(bps)))] + Blanks(bps, k + 1, k + f) == w + TableWrites(bps, k, f);
    }

    method PutTables(pb: ParameterBlock, start: nat, ghost log0: seq<Write>, ghost d: seq<Block>,
        ghost w: seq<Write>) returns (ok: bool)
      requires Since(log0, d, w) && pb.bps > 2 * ROOT + 1
      modifies this, sectors
      ensures ok <==> start + pb.fatSz + Max(1, pb.fatSz) <= sectors.Length
      ensures ok ==> Since(log0, d, w + TableWrites(pb.bps, start, pb.fatSz) +
          TableWrites(pb.bps, start + pb.fatSz, pb.fatSz))
    {
      hide Disk.Since, TableWrites;
      ok := PutTable(pb.bps, start, pb.fatSz, log0, d, w);
      if !ok { return; }
      ok := PutTable(pb.bps, start + pb.fatSz, pb.fatSz, log0, d, w + TableWrites(pb.bps, start, pb.fatSz));
    }

    method PutData(bps: nat, k: nat, end: nat, volLab: seq<Byte>, ghost log0: seq<Write>, ghost d: seq<Block>,
        ghost w: seq<Write>) returns (ok: bool)
      requires Since(log0, d, w)
      modifies this, sectors
      ensures ok <==> Max(end, k) < sectors.Length
      ensures ok ==> Since(log0, d, w + [Write(k, VolumeLabel(LabelName(volLab)))] + Blanks(bps, k + 1, end + 1))
    {
      hide Disk.Since, Blanks;
      ok := Put(k, VolumeLabel(LabelName(volLab)), log0, d, w);
      if !ok { return; }
      ok := PutBlanks(bps, k + 1, end + 1, log0, d, w + [Write(k, VolumeLabel(LabelName(volLab)))]);
    }

    /** The writes of a format, given its parameter block. */
    method PutVolume(pb: ParameterBlock, start: nat, end: nat) returns (ok: bool)
      requires pb.bps > 2 * ROOT + 1 && start <= end && pb.resvd == RES_SECTORS && pb.numFats == NUM_FATS
      modifies this, sectors
      ensures ok <==> Max(end, start + RES_SECTORS + NUM_FATS * pb.fatSz) < sectors.Length
      ensures ok ==> Since(old(log), old(sectors[..]), Writes(pb, start, end))
    {
      ghost var log0, d := log, sectors[..];
      assert Since(log0, d, []);
      WritesAre(pb, start, end);
      hide Disk.Since, Blanks, TableWrites, Writes;
      ghost var a := [Write(start, Boot(pb))];
      ok := Put(start, Boot(pb), log0, d, []);
      if !ok { return; }
      assert [] + a == a;
      ok := PutTables(pb, start + pb.resvd, log0, d, a);
      if !ok { return; }
      ghost var w := a + TableWrites(pb.bps, start + pb.resvd, pb.fatSz) +
          TableWrites(pb.bps, start + pb.resvd + pb.fatSz, pb.fatSz);
      ok := PutData(pb.bps, start + pb.resvd + pb.numFats * pb.fatSz, end, pb.volLab, log0, d, w);
    }
  }

  lemma WritesAre(pb: ParameterBlock, start: nat, end: nat)
    requires pb.bps > 2 * ROOT + 1 && pb.resvd == RES_SECTORS && pb.numFats == NUM_FATS
    ensures var k := start + pb.resvd + pb.numFats * pb.fatSz;
      Writes(pb, start, end) ==
        [Write(start, Boot(pb))] + TableWrites(pb.bps, start + pb.resvd, pb.fatSz) +
            TableWrites(pb.bps, start + pb.resvd + pb.fatSz, pb.fatSz)
        + [Write(k, VolumeLabel(LabelName(pb.volLab)))] + Blanks(pb.bps, k + 1, end + 1)
  {
  }

  lemma AppliedOne(d: seq<Block>, k: nat, block: Block)
    requires k < |d|
    ensures Applied(d, [Write(k, block)]) == d[k := block]
  {
    assert [Write(k, block)][1..] == [];
  }

  lemma BlanksNone(bps: nat, a: nat, b: nat)
    ensures Blanks(bps, a, a) == [] && (b <= a ==> Blanks(bps, a, b) == [])
  {
  }

  lemma BlanksMore(bps: nat, a: nat, k: nat)
    requires a <= k
    ensures Blanks(bps, a, k + 1) == Blanks(bps, a, k) + [Write(k, Raw(Zeros(bps)))]
  {
  }

  /** Sectors per cluster a format settles on: the given power of two within the limit, or the least that fits. */
  ghost predicate Chosen(spc: nat, given: nat, bps: nat, n: nat) {
    && IsPower(spc)
    && if given != 0 then spc == given && spc * bps <= 32768
       else Fits(spc, bps, n) && forall p :: IsPower(p) && Fits(p, bps, n) ==> spc <= p
  }

  /** No cluster size will do. */
  ghost predicate NoneChosen(given: nat, bps: nat, n: nat) {
    forall p :: !Chosen(p, given, bps, n)
  }

  method ChooseSecPerClus(given: nat, bps: nat, sectors: nat) returns (spc: nat)
    requires sectors >= RES_SECTORS
    ensures spc != 0 ==> Chosen(spc, given, bps, sectors - RES_SECTORS)
    ensures spc == 0 ==> NoneChosen(given, bps, sectors - RES_SECTORS)
  {
    if given == 0 {
      spc := ComputeSecPerClus(bps, sectors);
    } else {
      var ok := CheckSecPerClus(given);
      spc := if ok && given * bps <= MAX_CLUS_SIZE then given else 0;
    }
  }

  /** Every character of the label is one a name may hold. */
  predicate GoodLabel(volLab: seq<Byte>) {
    forall i :: 0 <= i < |volLab| ==> FatNames.Permitted(volLab[i])
  }

  method CheckLabel(volLab: seq<Byte>) returns (ok: bool)
    ensures ok <==> GoodLabel(volLab)
  {
    for i := 0 to |volLab|
      invariant forall j :: 0 <= j < i ==> FatNames.Permitted(volLab[j])
    {
      FatNames.ForbiddenIff(volLab[i]);
      if FatNames.Forbidden(volLab[i]) { return false; }
    }
    ok := true;
  }

  /**
   `FAT_format`: refuses a bad label or when there is no cluster size, leaving the disk alone; fails when
   the layout runs off the disk; and otherwise does exactly the writes of `Writes`.
   */
  method Format(disk: Disk, bps: nat, start: nat, end: nat, given: nat, volLab: seq<Byte>) returns (ok: bool, spc: nat)
    requires start <= end && bps >= 64 && |volLab| == LABEL_LEN
    modifies disk, disk.sectors
    ensures spc == 0 <==> !GoodLabel(volLab) || NoneChosen(given, bps, end - start)
    ensures spc == 0 ==> !ok && disk.log == old(disk.log) && disk.sectors[..] == old(disk.sectors[..])
    ensures spc != 0 ==> Chosen(spc, given, bps, end - start)
    ensures spc != 0 ==>
        (ok <==> Max(end, start + RES_SECTORS + NUM_FATS * FatSz(end - start + 1, spc)) < disk.sectors.Length)
    ensures ok ==> disk.Since(old(disk.log), old(disk.sectors[..]),
        Writes(NewBlock(bps, end - start + 1, spc, volLab), start, end))
    ensures var f := FatSz(end - start + 1, spc);
            ok && f > 0 && end - start + 1 >= 4 ==>
              LaidOut(old(disk.sectors[..]), disk.sectors[..], bps, spc, f, volLab, start, end)
  {
    hide LaidOut, FatSz, Writes;
    ghost var before := disk.sectors[..];
    var good := CheckLabel(volLab);
    if !good { return false, 0; }
    var sectors := end - start + 1;
    spc := ChooseSecPerClus(given, bps, sectors);
    if spc == 0 { return false, 0; }
    ok := disk.PutVolume(NewBlock(bps, sectors, spc, volLab), start, end);
    FormatLays(before, bps, spc, volLab, start, end);
  }

  /** What a successful format leaves: the partition holds the volume's blocks, the rest of the disk is as it was. */
  lemma FormattedDisk(d: seq<Block>, pb: ParameterBlock, start: nat, end: nat)
    requires start <= end < |d| && pb.bps > 2 * ROOT + 1 && Roomy(start, end, pb.fatSz)
    ensures var w := Writes(pb, start, end);
      && Sectors(w) == Range(start, end + 1) && |w| == end + 1 - start
      && Applied(d, w) == d[..start] + BlocksOf(w) + d[end + 1..]
  {
    hide Writes, Log;
    var w := Writes(pb, start, end);
    WritesAreLog(pb, start, end);
    LogExact(start, end, pb.fatSz);
    assert |Sectors(w)| == |w|;
    AppliedRange(d, w, start);
  }

  /** A sector of zeros. */
  predicate Blank(b: Block, bps: nat) {
    b.Raw? && |b.bytes| == bps && forall i :: 0 <= i < bps ==> b.bytes[i] == 0
  }

  /** The first sector of a table: 0xFF in bytes 1 to 5. */
  predicate Opening(b: Block, bps: nat) {
    b.Raw? && |b.bytes| == bps && forall i :: 0 <= i < bps ==> b.bytes[i] == if 1 <= i <= 5 then 0xFF else 0
  }

  /**
   A formatted partition, sector by sector: the parameter block, two tables of `f` sectors, the label entry, and
   nothing but blanks behind it; the rest of the disk is as it was.
   */
  ghost predicate LaidOut(before: seq<Block>, after: seq<Block>, bps: nat, spc: nat, f: nat, volLab: seq<Byte>,
                          start: nat, end: nat) {
    && f > 0 && start + 1 + 2 * f <= end < |before| == |after| && |volLab| <= 39
    && after[start] == Boot(ParameterBlock(bps, spc, 1, 2, end - start + 1, f, 2, volLab))
    && Opening(after[start + 1], bps) && Opening(after[start + 1 + f], bps)
    && (forall j :: start + 1 < j < start + 1 + f ==> Blank(after[j], bps))
    && (forall j :: start + 1 + f < j < start + 1 + 2 * f ==> Blank(after[j], bps))
    && after[start + 1 + 2 * f] == VolumeLabel(volLab + seq(39 - |volLab|, (i: nat) => 0x20))
    && (forall j :: start + 1 + 2 * f < j <= end ==> Blank(after[j], bps))
    && forall j :: 0 <= j < |after| && !(start <= j <= end) ==> after[j] == before[j]
  }

  /** The writes of a format lay the partition out that way whenever the layout has room. */
  lemma FormatLays(d: seq<Block>, bps: nat, spc: nat, volLab: seq<Byte>, start: nat, end: nat)
    requires start <= end && bps >= 64 && |volLab| == LABEL_LEN
    ensures var f, pb := FatSz(end - start + 1, spc), NewBlock(bps, end - start + 1, spc, volLab);
      f > 0 && end - start + 1 >= 4 && end < |d| && spc > 0 ==>
        LaidOut(d, Applied(d, Writes(pb, start, end)), bps, spc, f, volLab, start, end)
  {
    var f, pb := FatSz(end - start + 1, spc), NewBlock(bps, end - start + 1, spc, volLab);
    if f > 0 && end - start + 1 >= 4 && end < |d| && spc > 0 {
      hide FatSz, Applied;
      RoomyIff(start, end, spc);
      FormattedDisk(d, pb, start, end);
      LabelIs(volLab);
      var w := Writes(pb, start, end);
      hide Writes;
      WrittenBlocks(pb, start, end);
      BlocksSit(d, w, start, end);
      LaysOut(d, Applied(d, w), w, pb, start, end);
    }
  }

  lemma LabelIs(volLab: seq<Byte>)
    requires |volLab| <= 39
    ensures LabelName(volLab) == volLab + seq(39 - |volLab|, (i: nat) => 0x20)
  {
  }

  lemma BlocksSit(d: seq<Block>, w: seq<Write>, start: nat, end: nat)
    requires start <= end < |d| && |w| == end + 1 - start && Applied(d, w) == d[..start] + BlocksOf(w) + d[end + 1..]
    ensures var after := Applied(d, w);
      && |after| == |d| && (forall j :: start <= j <= end ==> after[j] == w[j - start].block)
      && forall j :: 0 <= j < |after| && !(start <= j <= end) ==> after[j] == d[j]
  {
    hide Applied;
  }

  /** The blocks among the writes, by position. */
  ghost predicate InPlace(w: seq<Write>, pb: ParameterBlock, start: nat, end: nat) {
    var f := pb.fatSz;
    && f > 0 && 1 + 2 * f <= end - start && |w| == end + 1 - start
    && w[0].block == Boot(pb) && Opening(w[1].block, pb.bps) && Opening(w[1 + f].block, pb.bps)
    && (forall j :: 1 < j < 1 + f ==> Blank(w[j].block, pb.bps))
    && (forall j :: 1 + f < j < 1 + 2 * f ==> Blank(w[j].block, pb.bps))
    && w[1 + 2 * f].block == VolumeLabel(LabelName(pb.volLab))
    && forall j :: 1 + 2 * f < j <= end - start ==> Blank(w[j].block, pb.bps)
  }

  lemma WrittenBlocks(pb: ParameterBlock, start: nat, end: nat)
    requires pb.bps >= 64 && Roomy(start, end, pb.fatSz)
    ensures InPlace(Writes(pb, start, end), pb, start, end)
  {
    var f, bps := pb.fatSz, pb.bps;
    var k := start + 1 + 2 * f;
    var t0, t1, rest := TableWrites(bps, start + 1, f), TableWrites(bps, start + 1 + f, f), Blanks(bps, k + 1, end + 1);
    var boot, volId := Write(start, Boot(pb)), Write(k, VolumeLabel(LabelName(pb.volLab)));
    var w := Writes(pb, start, end);
    assert w == [boot] + t0 + t1 + [volId] + rest;
    hide *;
    TableBlocks(bps, start + 1, f);
    TableBlocks(bps, start + 1 + f, f);
    BlankBlocks(bps, k + 1, end + 1);
    Joined(w, boot, t0, t1, volId, rest, f);
    Shifted(w, t0, t1, rest, f, bps);
    PutInPlace(w, pb, start, end);
  }

  lemma Joined(w: seq<Write>, x: Write, t0: seq<Write>, t1: seq<Write>, y: Write, rest: seq<Write>, f: nat)
    requires |t0| == |t1| == f > 0 && w == [x] + t0 + t1 + [y] + rest
    ensures |w| == 2 + 2 * f + |rest| && w[0] == x && w[1] == t0[0] && w[1 + f] == t1[0] && w[1 + 2 * f] == y
    ensures w[1..1 + f] == t0 && w[1 + f..1 + 2 * f] == t1 && w[2 + 2 * f..] == rest
  {
  }

  lemma PutInPlace(w: seq<Write>, pb: ParameterBlock, start: nat, end: nat)
    requires var f := pb.fatSz;
      && f > 0 && 1 + 2 * f <= end - start && |w| == end + 1 - start
      && w[0].block == Boot(pb) && Opening(w[1].block, pb.bps) && Opening(w[1 + f].block, pb.bps)
      && (forall j :: 1 < j < 1 + f ==> Blank(w[j].block, pb.bps))
      && (forall j :: 1 + f < j < 1 + 2 * f ==> Blank(w[j].block, pb.bps))
      && w[1 + 2 * f].block == VolumeLabel(LabelName(pb.volLab))
      && forall j :: 1 + 2 * f < j < |w| ==> Blank(w[j].block, pb.bps)
    ensures InPlace(w, pb, start, end)
  {
    hide Blank, Opening, LabelName;
  }

  /** What is blank in a part is blank at its place in the whole. */
  lemma Shifted(w: seq<Write>, t0: seq<Write>, t1: seq<Write>, rest: seq<Write>, f: nat, bps: nat)
    requires |t0| == |t1| == f > 0 && |w| == 2 + 2 * f + |rest|
    requires w[1..1 + f] == t0 && w[1 + f..1 + 2 * f] == t1 && w[2 + 2 * f..] == rest
    requires forall j :: 1 <= j < f ==> Blank(t0[j].block, bps) && Blank(t1[j].block, bps)
    requires forall j :: 0 <= j < |rest| ==> Blank(rest[j].block, bps)
    ensures forall j :: 1 < j < 1 + f ==> Blank(w[j].block, bps)
    ensures forall j :: 1 + f < j < 1 + 2 * f ==> Blank(w[j].block, bps)
    ensures forall j :: 1 + 2 * f < j < |w| ==> Blank(w[j].block, bps)
  {
    hide Blank;
    forall j | 1 < j < 1 + f ensures Blank(w[j].block, bps) { assert w[j] == t0[j - 1]; }
    forall j | 1 + f < j < 1 + 2 * f ensures Blank(w[j].block, bps) { assert w[j] == t1[j - 1 - f]; }
    forall j | 1 + 2 * f < j < |w| ensures Blank(w[j].block, bps) {
      assert w[j] == rest[j - 2 - 2 * f];
    }
  }

  lemma TableBlocks(bps: nat, k: nat, f: nat)
    requires bps >= 64 && f > 0
    ensures var t := TableWrites(bps, k, f);
      |t| == f && Opening(t[0].block, bps) && forall j :: 1 <= j < f ==> Blank(t[j].block, bps)
  {
    BlankBlocks(bps, k + 1, k + f);
  }

  lemma BlankBlocks(bps: nat, a: nat, b: nat)
    ensures var w := Blanks(bps, a, b);
      |w| == (if a < b then b - a else 0) && forall j :: 0 <= j < |w| ==> Blank(w[j].block, bps)
  {
  }

  lemma LaysOut(d: seq<Block>, after: seq<Block>, w: seq<Write>, pb: ParameterBlock, start: nat, end: nat)
    requires start <= end < |d| == |after| && InPlace(w, pb, start, end) && |pb.volLab| <= 39
    requires pb == ParameterBlock(pb.bps, pb.spc, 1, 2, end - start + 1, pb.fatSz, 2, pb.volLab)
    requires LabelName(pb.volLab) == pb.volLab + seq(39 - |pb.volLab|, (i: nat) => 0x20)
    requires forall j :: start <= j <= end ==> after[j] == w[j - start].block
    requires forall j :: 0 <= j < |after| && !(start <= j <= end) ==> after[j] == d[j]
    ensures LaidOut(d, after, pb.bps, pb.spc, pb.fatSz, pb.volLab, start, end)
  {
    hide Blank, Opening, LabelName;
  }

  // ---------------------------------------------------------------- mounting

  /** What a mount computes from the parameter block, in the widths of its fields. */
  datatype Geometry = Geometry(firstData: nat, dataSectors: nat, clusters: nat, fatSize: nat)

  function Mounted(pb: ParameterBlock): Geometry
    requires pb.spc > 0
  {
    var firstData := pb.resvd + pb.numFats * pb.fatSz;
    var dataSectors := (pb.totSec - firstData) % U32;
    var clusters := dataSectors / pb.spc % U16;
    Geometry(firstData, dataSectors, clusters, (clusters + 2) % U16)
  }

  /** First sector of a cluster, counted from the volume's first. */
  function FSoC(g: Geometry, spc: nat, n: nat): nat
    requires n >= 2
  {
    (n - 2) * spc + g.firstData
  }

  lemma DivOrder(a: nat, d: nat, q: nat)
    requires d > 0
    ensures a / d <= q <==> a < (q + 1) * d
    ensures a / d * d <= a
  {
    assert a == a / d * d + a % d;
    if a / d <= q { TimesOrder(a / d, q, d); }
    if a / d > q { TimesOrder(q + 1, a / d, d); }
  }

  /** A parameter block as format writes it, with room for its layout. */
  predicate Formatted(pb: ParameterBlock) {
    && pb.spc > 0 && RES_SECTORS <= pb.totSec < U32
    && pb == NewBlock(pb.bps, pb.totSec, pb.spc, pb.volLab) && Roomy(0, pb.totSec - 1, pb.fatSz)
  }

  /** Sectors behind the tables. */
  function DataSectors(pb: ParameterBlock): int {
    pb.totSec - (RES_SECTORS + NUM_FATS * pb.fatSz)
  }

  /** The fields of a mount count what there is, and no cluster number is a bad or an end mark. */
  predicate Right(pb: ParameterBlock)
    requires pb.spc > 0
  {
    var g := Mounted(pb);
    g.clusters == g.dataSectors / pb.spc && g.fatSize == g.clusters + 2 <= BAD
  }

  /** For every cluster size: a mount is right if and only if the data region has fewer than BAD - 1 clusters' worth
   of sectors. */
  lemma GeometryIff(pb: ParameterBlock)
    requires Formatted(pb)
    ensures Mounted(pb).firstData == RES_SECTORS + NUM_FATS * pb.fatSz && Mounted(pb).dataSectors == DataSectors(pb) > 0
    ensures Right(pb) <==> DataSectors(pb) < (BAD - 1) * pb.spc
    ensures Right(pb) ==> (Mounted(pb).clusters >= 1 <==> pb.spc <= DataSectors(pb))
  {
    hide FatSz;
    ClusterCount(DataSectors(pb), pb.spc);
  }

  lemma ClusterCount(data: nat, spc: nat)
    requires spc > 0 && data < U32
    ensures data % U32 == data
    ensures var c := data / spc % U16;
      && (c == data / spc && (c + 2) % U16 == c + 2 <= BAD <==> data < (BAD - 1) * spc)
      && (c == data / spc ==> (c >= 1 <==> spc <= data))
  {
    SmallMod(data);
    DivOrder(data, spc, BAD - 2);
    DivOrder(data, spc, 0);
    CutCount(data / spc, data < (BAD - 1) * spc, spc <= data);
  }

  lemma SmallMod(data: nat)
    requires data < U32
    ensures data % U32 == data
  {
  }

  /** Sixteen bits hold a count and two more below the marks, or the count is cut. */
  lemma CutCount(q: nat, fits: bool, some: bool)
    requires (q <= BAD - 2 <==> fits) && (q >= 1 <==> some)
    ensures var c := q % U16;
      && (c == q && (c + 2) % U16 == c + 2 <= BAD <==> fits)
      && (c == q ==> (c >= 1 <==> some))
  {
  }

  /** With a computed cluster size it is right from four sectors on, and there is a cluster. */
  lemma GeometryExact(pb: ParameterBlock)
    requires 4 <= pb.totSec < U32 && pb.spc > 0 && pb == NewBlock(pb.bps, pb.totSec, pb.spc, pb.volLab)
    requires Chosen(pb.spc, 0, pb.bps, pb.totSec - RES_SECTORS)
    ensures Formatted(pb) && Right(pb) && Mounted(pb).clusters >= 1
  {
    hide FatSz, Mounted;
    var n := pb.totSec - RES_SECTORS;
    FatSzExact(pb.totSec, pb.spc, pb.bps);
    RoomyComputed(0, n, pb.spc, pb.bps);
    CoversCluster(n, pb.fatSz, pb.spc, pb.bps);
    GeometryIff(pb);
  }

  /** The data region has room for a whole cluster. */
  lemma CoversCluster(n: nat, f: nat, spc: nat, bps: nat)
    requires n >= 3 && Chosen(spc, 0, bps, n)
    requires (f - 1) * Step(spc) < n && f <= 256 && NUM_FATS * f + RES_SECTORS <= n
    ensures spc <= n - NUM_FATS * f
  {
    if spc > 1 {
      var half := spc / 2;
      assert IsPower(half) && spc == 2 * half;
      TimesOrder(half, spc, bps);
      assert !Fits(half, bps, n);
    }
  }

  /** A cluster size given by the caller can be too small: 66043 sectors take cluster numbers past the marks. */
  lemma GivenCanReachMarks(volLab: seq<Byte>)
    ensures Chosen(1, 1, 512, 66042)
    ensures var pb := NewBlock(512, 66043, 1, volLab); Formatted(pb) && Mounted(pb).fatSize == 65532 > BAD
  {
    assert FatSz(66043, 1) == 256;
  }

  /** With 70000 sectors the 16-bit count of clusters wraps. */
  lemma GivenCanWrap(volLab: seq<Byte>)
    ensures Chosen(1, 1, 512, 69999)
    ensures var pb := NewBlock(512, 70000, 1, volLab);
        Formatted(pb) && DataSectors(pb) == 69455 && Mounted(pb).fatSize == 3921
  {
    assert FatSz(70000, 1) == 272;
  }

  /** With 16908289 sectors the 16-bit size of the table wraps to nothing, and sectors are written more than once. */
  lemma GivenCanLoseTable(start: nat)
    ensures Chosen(1, 1, 512, 16908288) && FatSz(16908289, 1) == 0
    ensures Log(start, start + 16908288, FatSz(16908289, 1)) != Range(start, start + 16908289)
  {
    hide FatSz, Log, Range;
    LostTable();
    LogExact(start, start + 16908288, 0);
  }

  lemma LostTable()
    ensures FatSz(16908289, 1) == 0
  {
  }

  /**
   One sector of a table has 256 entries. The tables have one for every cluster and the two reserved ones,
   and for every entry a right mount counts, if and only if rounding up left more than one cluster to spare.
   */
  lemma TableHoldsIff(pb: ParameterBlock)
    requires Formatted(pb)
    ensures DataSectors(pb) / pb.spc + 2 <= 256 * pb.fatSz <==>
        pb.fatSz * Step(pb.spc) - (pb.totSec - RES_SECTORS) > pb.spc
    ensures Right(pb) ==>
        (Mounted(pb).fatSize <= 256 * pb.fatSz <==> pb.fatSz * Step(pb.spc) - (pb.totSec - RES_SECTORS) > pb.spc)
  {
    hide NewBlock;
    GeometryIff(pb);
    HoldsArithmetic(pb.totSec - RES_SECTORS, pb.fatSz, pb.spc);
  }

  lemma HoldsArithmetic(n: nat, f: nat, spc: nat)
    requires f >= 1 && spc > 0 && NUM_FATS * f <= n
    ensures (n - NUM_FATS * f) / spc + 2 <= 256 * f <==> f * Step(spc) - n > spc
  {
    DivOrder(n - NUM_FATS * f, spc, 256 * f - 2);
    assert (256 * f - 1) * spc == 256 * (f * spc) - spc;
    assert f * Step(spc) == 256 * (f * spc) + f * NUM_FATS;
  }

  /** The condition is not always met: 259 sectors give 256 clusters and a table of one sector. */
  lemma TableCanBeShort(volLab: seq<Byte>)
    ensures Chosen(1, 0, 512, 258)
    ensures var pb := NewBlock(512, 259, 1, volLab); Mounted(pb).fatSize == 258 > 256 * pb.fatSz
  {
    SmallTable();
    SmallVolume();
    hide FatSz, Fits;
  }

  lemma SmallTable()
    ensures FatSz(259, 1) == 1
  {
  }

  lemma SmallVolume()
    ensures Fits(1, 512, 258)
  {
  }

  /** Whatever wraps, cluster extents lie in the data region and do not overlap. */
  lemma ClusterExtents(pb: ParameterBlock, m: nat, n: nat)
    requires Formatted(pb) && 2 <= m < n < Mounted(pb).fatSize
    ensures var g := Mounted(pb);
      && g.firstData <= FSoC(g, pb.spc, m) && FSoC(g, pb.spc, m) + pb.spc <= FSoC(g, pb.spc, n)
      && FSoC(g, pb.spc, n) + pb.spc <= pb.totSec
  {
    MountedAtMost(pb);
    assert pb.spc > 0;
    hide NewBlock, Formatted, Mounted, DataSectors;
    ExtentsApart(DataSectors(pb), pb.spc, m - 2, n - 2);
  }

  lemma NextExtent(g: Geometry, spc: nat, m: nat)
    requires m >= 2
    ensures FSoC(g, spc, 2) == g.firstData && FSoC(g, spc, m + 1) == FSoC(g, spc, m) + spc
  {
    assert (m + 1 - 2) * spc == (m - 2) * spc + spc;
  }

  /** The first cluster stands right behind the two tables, and each next one right behind the last. */
  lemma ExtentsFollow(pb: ParameterBlock, m: nat)
    requires Formatted(pb) && m >= 2
    ensures FSoC(Mounted(pb), pb.spc, 2) == 1 + 2 * pb.fatSz
    ensures FSoC(Mounted(pb), pb.spc, m + 1) == FSoC(Mounted(pb), pb.spc, m) + pb.spc
  {
    NextExtent(Mounted(pb), pb.spc, m);
  }

  /** A wrapped count is a smaller one. */
  lemma MountedAtMost(pb: ParameterBlock)
    requires Formatted(pb)
    ensures Mounted(pb).fatSize <= DataSectors(pb) / pb.spc + 2
    ensures Mounted(pb).firstData + DataSectors(pb) == pb.totSec && DataSectors(pb) > 0
  {
    hide FatSz;
    GeometryIff(pb);
    var q := DataSectors(pb) / pb.spc;
    ModAtMost(q, U16);
    ModAtMost(q % U16 + 2, U16);
  }

  lemma ExtentsApart(data: nat, spc: nat, i: nat, j: nat)
    requires spc > 0 && i < j < data / spc
    ensures i * spc + spc <= j * spc && j * spc + spc <= data
  {
    DivTimes(data, spc);
    TimesOrder(i + 1, j, spc);
    TimesOrder(j + 1, data / spc, spc);
  }

  // ---------------------------------------------------------------- the table read back

  function BytesOf(b: Block): seq<Byte> {
    if b.Raw? then b.bytes else []
  }

  function ReadSectors(d: seq<Block>, k: nat, f: nat): seq<Byte>
    requires k + f <= |d|
  {
    if f == 0 then [] else ReadSectors(d, k, f - 1) + BytesOf(d[k + f - 1])
  }

  /** Little-endian 16-bit entries. */
  function TableEntries(bytes: seq<Byte>): seq<nat> {
    seq(|bytes| / 2, i requires 0 <= i < |bytes| / 2 => bytes[2 * i] as int + 256 * bytes[2 * i + 1] as int)
  }

  /** The media entry, then the end marks of entry 1 and of the root directory, then free entries. */
  function FreshEntry(i: nat): nat {
    if i == 0 then 0xFF00 else if i <= ROOT then EOC_MARK else UNUSED
  }

  lemma {:induction false} ReadFresh(d: seq<Block>, k: nat, f: nat)
    requires f > 0 && k + f <= |d| && d[k] == Raw(Head(512))
    requires forall j :: k < j < k + f ==> d[j] == Raw(Zeros(512))
    ensures var bytes := ReadSectors(d, k, f);
      |bytes| == 512 * f && forall j :: 0 <= j < 512 * f ==> bytes[j] == if 1 <= j <= 5 then 0xFF else 0
  {
    var before, last := ReadSectors(d, k, f - 1), BytesOf(d[k + f - 1]);
    assert ReadSectors(d, k, f) == before + last;
    if f == 1 {
      assert before == [] && last == Head(512);
      HeadBytes();
    } else {
      ReadFresh(d, k, f - 1);
      assert last == Zeros(512);
    }
  }

  lemma HeadBytes()
    ensures |Head(512)| == 512 && forall j :: 0 <= j < 512 ==> Head(512)[j] == if 1 <= j <= 5 then 0xFF else 0
  {
  }

  /** Mounting a freshly formatted volume reads a table with the root directory's chain and nothing else. */
  lemma FormattedTable(d: seq<Block>, pb: ParameterBlock, start: nat, end: nat)
    requires start <= end < |d| && pb.bps == 512 && Roomy(start, end, pb.fatSz)
    ensures var after := Applied(d, Writes(pb, start, end));
      && |after| == |d| && after[start] == Boot(pb)
      && TableEntries(ReadSectors(after, start + RES_SECTORS, pb.fatSz)) == seq(256 * pb.fatSz,
          (i: nat) => FreshEntry(i))
    ensures var entries := TableEntries(ReadSectors(Applied(d, Writes(pb, start, end)), start + RES_SECTORS, pb.fatSz));
      |entries| == 256 * pb.fatSz && forall i :: 0 <= i < |entries| ==>
        entries[i] == if i == 0 then 0xFF00 else if i <= 2 then 0xFFFF else 0
  {
    hide Writes, Applied, Head, Zeros;
    var w := Writes(pb, start, end);
    var after := Applied(d, w);
    FormattedBlocks(d, pb, start, end);
    FirstTable(pb, start, end);
    assert w[RES_SECTORS].block == after[start + RES_SECTORS];
    forall j | start + RES_SECTORS < j < start + RES_SECTORS + pb.fatSz ensures after[j] == Raw(Zeros(512)) {
      assert w[j - start].block == Raw(Zeros(512));
    }
    ReadFresh(after, start + RES_SECTORS, pb.fatSz);
  }

  lemma FormattedBlocks(d: seq<Block>, pb: ParameterBlock, start: nat, end: nat)
    requires start <= end < |d| && pb.bps > 2 * ROOT + 1 && Roomy(start, end, pb.fatSz)
    ensures var w, after := Writes(pb, start, end), Applied(d, Writes(pb, start, end));
      |w| == end + 1 - start && |after| == |d| && forall j :: start <= j <= end ==> after[j] == w[j - start].block
  {
    hide Writes, Applied;
    FormattedDisk(d, pb, start, end);
    AppliedLength(d, Writes(pb, start, end));
  }

  /** Where the first table stands among the writes. */
  lemma FirstTable(pb: ParameterBlock, start: nat, end: nat)
    requires pb.bps > 2 * ROOT + 1 && pb.fatSz > 0
    ensures var w := Writes(pb, start, end);
      && |w| >= RES_SECTORS + pb.fatSz && w[0].block == Boot(pb) && w[RES_SECTORS].block == Raw(Head(pb.bps))
      && forall j :: RES_SECTORS < j < RES_SECTORS + pb.fatSz ==> w[j].block == Raw(Zeros(pb.bps))
  {
  }

  lemma FreshChains(size: nat, volId: Name)
    requires size > ROOT && volId != []
    ensures AllLinked(seq(size, (i: nat) => FreshEntry(i)), map[[] := [ROOT], volId := []])
  {
  }

  lemma {:induction false} FreshFree(size: nat, i: nat)
    requires ROOT < i <= size
    ensures FreeFrom(seq(size, (j: nat) => FreshEntry(j)), i) == size - i
    decreases size - i
  {
    if i < size { FreshFree(size, i + 1); }
  }

  /** A disk as a format of 512-byte sectors left it, on which mounting goes right; `data` is the data region by
   clusters. */
  ghost predicate Mountable(disk: seq<Block>, start: nat, end: nat, data: seq<seq<Byte>>, before: seq<Block>) {
    && start <= end < |before| == |disk| && disk[start].Boot?
    && var pb := disk[start].pb;
      && pb.bps == 512 && pb.totSec == end - start + 1 && Formatted(pb) &&
          disk == Applied(before, Writes(pb, start, end))
      && pb.spc <= DataSectors(pb) < (BAD - 1) * pb.spc && Mounted(pb).fatSize <= 256 * pb.fatSz
      && |data| == Mounted(pb).fatSize && FatChain.Blocks(data, 512 * pb.spc)
  }

  /**
   Mounting what a format wrote, when the geometry is right, there is a cluster and the table holds its
   entries: the volume is sound, its root directory holds the label entry alone, and every cluster but
   the root directory's is free.
   */
  method MountFresh(disk: seq<Block>, start: nat, end: nat, data: seq<seq<Byte>>, ghost before: seq<Block>)
    returns (vol: Volume)
    requires Mountable(disk, start, end, data, before)
    ensures fresh(vol) && fresh(vol.fat) && fresh(vol.data) && vol.Valid() &&
        vol.size == Mounted(disk[start].pb).fatSize
    ensures vol.bpc == 512 * disk[start].pb.spc
    ensures var volId := LabelName(disk[start].pb.volLab);
            vol.chains == map[[] := [ROOT], volId := []] && vol.entries == map[volId := Entry(0, 0, {VolumeId})]
    ensures Free(vol.fat[..]) == Mounted(disk[start].pb).clusters - 1
  {
    var pb := disk[start].pb;
    assert Roomy(start, end, pb.fatSz) && pb.resvd == RES_SECTORS;
    hide Applied, Writes, FatSz, Mounted, NewBlock;
    var g := Mounted(pb);
    GeometryIff(pb);
    FormattedTable(before, pb, start, end);
    var table := TableEntries(ReadSectors(disk, start + pb.resvd, pb.fatSz))[..g.fatSize];
    assert table == seq(g.fatSize, (i: nat) => FreshEntry(i));
    var volId := LabelName(pb.volLab);
    FreshChains(g.fatSize, volId);
    FreshFree(g.fatSize, ROOT + 1);
    EmptyBytes(data, 512 * pb.spc);
    vol := new Volume.Mount(table, 512 * pb.spc, data, map[volId := Entry(0, 0, {VolumeId})],
        map[[] := [ROOT], volId := []]);
  }
}
