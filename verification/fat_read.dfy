/**
 Reading a file. An unaligned read that reaches a second cluster advances the caller's buffer by an
 amount computed from the already reduced length, so it is right exactly when enough is left to read.
 */
module FatRead {
  import opened FatChain
  import opened FatVolume

  predicate Readable(e: Entry) {
    e.attrs * {Directory, VolumeId} == {}
  }

  /** `piece` copied over `s` at `at`. */
  function Put(s: seq<Byte>, at: nat, piece: seq<Byte>): seq<Byte>
    requires at + |piece| <= |s|
  {
    s[..at] + piece + s[at + |piece|..]
  }

  function Min(a: nat, b: nat): nat {
    if a < b then a else b
  }

  /** Bytes of the first cluster from the offset on. */
  function Head(offset: nat, bpc: nat): nat
    requires bpc > 0
  {
    bpc - offset % bpc
  }

  /** The buffer after a read of `m` bytes whose first cluster gives `head`: the second copy goes where the reduced
   length says. */
  function Laid(into: seq<Byte>, content: seq<Byte>, offset: nat, m: nat, head: nat): seq<Byte>
    requires offset + m <= |content| && m <= |into|
  {
    if m <= head then Put(into, 0, content[offset..offset + m])
    else Put(Put(into, 0, content[offset..offset + head]), Min(m - head, head), content[offset + head..offset + m])
  }

  /** The caller's buffer after a read of `m` bytes. */
  function ReadInto(into: seq<Byte>, content: seq<Byte>, offset: nat, m: nat, bpc: nat): seq<Byte>
    requires bpc > 0 && offset + m <= |content| && m <= |into|
  {
    if offset % bpc == 0 then Put(into, 0, content[offset..offset + m])
    else Laid(into, content, offset, m, Head(offset, bpc))
  }

  /** The guard a caller can check: aligned, within one cluster, or at least as much again to come. */
  predicate Faithful(offset: nat, m: nat, bpc: nat)
    requires bpc > 0
  {
    offset % bpc == 0 || m <= Head(offset, bpc) || m >= 2 * Head(offset, bpc)
  }

  lemma FaithfulReads(into: seq<Byte>, content: seq<Byte>, offset: nat, m: nat, bpc: nat)
    requires bpc > 0 && offset + m <= |content| && m <= |into| && Faithful(offset, m, bpc)
    ensures ReadInto(into, content, offset, m, bpc) == content[offset..offset + m] + into[m..]
  {
    hide Put;
    var head := Head(offset, bpc);
    if offset % bpc != 0 && head < m { TwoPieces(into, content, offset, head, m); }
    PutFront(into, content[offset..offset + m]);
  }

  lemma TwoPieces(into: seq<Byte>, content: seq<Byte>, offset: nat, head: nat, m: nat)
    requires head <= m <= |into| && offset + m <= |content|
    ensures Put(Put(into, 0, content[offset..offset + head]), head, content[offset + head..offset + m]) ==
            Put(into, 0, content[offset..offset + m])
  {
    hide Put;
    var a, b := content[offset..offset + head], content[offset + head..offset + m];
    PutTwice(into, 0, a, b);
    assert a + b == content[offset..offset + m];
  }

  lemma SliceOfSlice(s: seq<Byte>, a: nat, b: nat, c: nat, d: nat)
    requires a <= b <= |s| && c <= d <= b - a
    ensures s[a..b][c..d] == s[a + c..a + d]
  {
    forall i | 0 <= i < d - c ensures s[a..b][c..d][i] == s[a + c..a + d][i] {}
    assert |s[a..b][c..d]| == |s[a + c..a + d]|;
  }

  lemma PutFront(s: seq<Byte>, piece: seq<Byte>)
    requires |piece| <= |s|
    ensures Put(s, 0, piece) == piece + s[|piece|..]
  {
  }

  /** Otherwise the last byte the caller should get is never written. */
  lemma UnfaithfulReads(into: seq<Byte>, content: seq<Byte>, offset: nat, m: nat, bpc: nat)
    requires bpc > 0 && offset + m <= |content| && m <= |into| && !Faithful(offset, m, bpc)
    ensures ReadInto(into, content, offset, m, bpc)[m - 1] == into[m - 1]
  {
  }

  /** A read is right for every content and every buffer if and only if the guard holds. */
  lemma ReadsRightIff(size: nat, room: nat, offset: nat, m: nat, bpc: nat)
    requires bpc > 0 && offset + m <= size && m <= room
    ensures Faithful(offset, m, bpc) <==>
            forall into: seq<Byte>, content: seq<Byte> :: |into| == room && |content| == size ==>
              ReadInto(into, content, offset, m, bpc)[..m] == content[offset..offset + m]
  {
    if Faithful(offset, m, bpc) {
      forall into: seq<Byte>, content: seq<Byte> | |into| == room && |content| == size
        ensures ReadInto(into, content, offset, m, bpc)[..m] == content[offset..offset + m]
      {
        FaithfulReads(into, content, offset, m, bpc);
      }
    } else {
      var into: seq<Byte>, content: seq<Byte> := seq(room, _ => 1), seq(size, _ => 0);
      UnfaithfulReads(into, content, offset, m, bpc);
      assert ReadInto(into, content, offset, m, bpc)[..m][m - 1] == 1;
      assert content[offset..offset + m][m - 1] == 0;
    }
  }

  /** memcpy into the caller's buffer. */
  method CopyInto(out: array<Byte>, at: nat, piece: seq<Byte>)
    requires at + |piece| <= out.Length
    modifies out
    ensures out[..] == Put(old(out[..]), at, piece)
  {
    ghost var before := out[..];
    forall i | 0 <= i < |piece| { out[at + i] := piece[i]; }
    assert out[..at] == before[..at];
    assert out[at..at + |piece|] == piece;
    assert out[at + |piece|..] == before[at + |piece|..];
    assert out[..] == out[..at] + out[at..at + |piece|] + out[at + |piece|..];
  }

  lemma PutTwice(s: seq<Byte>, at: nat, a: seq<Byte>, b: seq<Byte>)
    requires at + |a| + |b| <= |s|
    ensures Put(Put(s, at, a), at + |a|, b) == Put(s, at, a + b)
  {
  }

  /** A cluster of a chain is one block of its bytes. */
  lemma BlockOf(data: seq<seq<Byte>>, ch: seq<nat>, k: nat, bpc: nat)
    requires Inside(data, ch) && Blocks(data, bpc) && Distinct(ch) && k < |ch|
    ensures k * bpc + bpc <= |Bytes(data, ch)| && Bytes(data, ch)[k * bpc..k * bpc + bpc] == data[ch[k]]
  {
    WriteBlock(data, ch, k, data[ch[k]], bpc);
  }

  /** Whole clusters, then the rest of one, from a cluster boundary on. */
  method ReadClusters(vol: Volume, start: nat, ghost k0: nat, m: nat, out: array<Byte>, at: nat, ghost name: Name)
    requires vol.Tables() && name in vol.chains && out.Length >= at + m
    requires m > 0 ==> k0 < |vol.chains[name]| && start == vol.chains[name][k0]
    requires k0 * vol.bpc + m <= |vol.View(name)|
    modifies out
    ensures out[..] == Put(old(out[..]), at, vol.View(name)[k0 * vol.bpc..k0 * vol.bpc + m])
  {
    hide AllLinked, Bytes, Put, Volume.Tables, Blocks;
    ghost var view, ch, data := vol.View(name), vol.chains[name], vol.data[..];
    ViewFacts(vol, name);
    var cluster, done := start, 0;
    ghost var k: nat := k0;
    ghost var base, before := k0 * vol.bpc, out[..];
    PutNothing(before, at);
    assert view[base..base + done] == [];
    while m - done >= vol.bpc
      invariant 0 <= done <= m && base + done == k * vol.bpc
      invariant done < m ==> k < |ch| && cluster == ch[k]
      invariant out[..] == Put(before, at, view[base..base + done])
      invariant vol.data[..] == data && vol.View(name) == view
      decreases m - done
    {
      BlockOf(data, ch, k, vol.bpc);
      CopyInto(out, at + done, vol.data[cluster]);
      PutMore(before, at, view, base, done, data[cluster]);
      cluster := NextCluster(vol, cluster, k, name);
      done := done + vol.bpc;
      k := k + 1;
      assert (k - 1) * vol.bpc + vol.bpc == k * vol.bpc;
      StillInside(k, |ch|, vol.bpc, base + done, m - done);
    }
    if done < m {
      BlockOf(data, ch, k, vol.bpc);
      var piece := vol.data[cluster][..m - done];
      CopyInto(out, at + done, piece);
      SliceOfSlice(view, k * vol.bpc, k * vol.bpc + vol.bpc, 0, m - done);
      PutMore(before, at, view, base, done, piece);
    }
  }

  method NextCluster(vol: Volume, cluster: nat, ghost k: nat, ghost name: Name) returns (next: nat)
    requires vol.Tables() && name in vol.chains && k < |vol.chains[name]| && cluster == vol.chains[name][k]
    ensures k + 1 < |vol.chains[name]| ==> next == vol.chains[name][k + 1]
  {
    vol.ChainLinked(name);
    NextInChain(vol.fat[..], vol.chains[name], k);
    next := vol.GetCluster(cluster);
  }

  lemma ViewFacts(vol: Volume, name: Name)
    requires vol.Tables() && name in vol.chains
    ensures var ch := vol.chains[name];
            && vol.bpc > 0 && Inside(vol.data[..], ch) && Blocks(vol.data[..], vol.bpc) && Distinct(ch)
            && vol.View(name) == Bytes(vol.data[..], ch) && |vol.View(name)| == |ch| * vol.bpc
            && vol.data.Length == vol.size && vol.fat.Length == vol.size && 2 < vol.size <= BAD
            && (forall c :: 0 <= c < vol.data.Length ==> |vol.data[c]| == vol.bpc)
  {
    vol.ChainInside(name);
    BytesLength(vol.data[..], vol.chains[name], vol.bpc);
  }

  lemma PutNothing(s: seq<Byte>, at: nat)
    requires at <= |s|
    ensures Put(s, at, []) == s
  {
  }

  lemma PutMore(s: seq<Byte>, at: nat, view: seq<Byte>, base: nat, done: nat, piece: seq<Byte>)
    requires at + done + |piece| <= |s| && base + done + |piece| <= |view|
    requires piece == view[base + done..base + done + |piece|]
    ensures Put(Put(s, at, view[base..base + done]), at + done, piece) == Put(s, at, view[base..base + done + |piece|])
  {
    PutTwice(s, at, view[base..base + done], piece);
    assert view[base..base + done] + piece == view[base..base + done + |piece|];
  }

  /** While bytes are left the chain is not at its end. */
  lemma StillInside(k: nat, n: nat, bpc: nat, pos: nat, left: int)
    requires pos == k * bpc && pos + left <= n * bpc
    ensures left > 0 ==> k < n
  {
    if n <= k { TimesMonotone(n, k, bpc); }
  }

  /** The checks and the trimming at the top of FAT_read; the read itself is `ReadEntry`. */
  method Read(vol: Volume, name: Name, offset: nat, out: array<Byte>) returns (ok: bool, readlen: nat)
    requires vol.Valid()
    modifies out
    ensures vol.Valid()
    ensures ok <==> out.Length > 0 && name in vol.entries
                    && Directory !in vol.entries[name].attrs && VolumeId !in vol.entries[name].attrs
    ensures !ok ==> readlen == 0 && out[..] == old(out[..])
    ensures ok ==>
              var content := vol.Content(name);
              && |content| == vol.entries[name].size
              && readlen == (if |content| <= offset then 0 else Min(out.Length, |content| - offset))
              && vol.bpc > 0 && out[..] == (if readlen == 0 then
                  old(out[..]) else ReadInto(old(out[..]), content, offset, readlen, vol.bpc))
  {
    hide AllLinked, Bytes, Put, Blocks, Clusters, OthersMatch, Matches, Written, ReadInto;
    ok, readlen := false, 0;
    if out.Length == 0 || name !in vol.entries { return; }
    ReadableIff(vol.entries[name]);
    if !Readable(vol.entries[name]) { return; }
    ok := true;
    ReadableIsPlain(vol.entries[name]);
    vol.WriteStarts(name, 0, []);
    if vol.entries[name].size <= offset { return; }
    readlen := Min(out.Length, vol.entries[name].size - offset);
    ReadEntry(vol, name, offset, readlen, out);
  }

  lemma ReadableIff(e: Entry)
    ensures Readable(e) <==> Directory !in e.attrs && VolumeId !in e.attrs
  {
    forall a: Attr | a in {Directory, VolumeId} ensures a in e.attrs ==> a in e.attrs * {Directory, VolumeId} {}
  }

  lemma ReadableIsPlain(e: Entry)
    requires Readable(e)
    ensures Plain(e)
  {
    assert Directory in e.attrs ==> Directory in e.attrs * {Directory, VolumeId};
  }

  lemma ReadIntoIs(into: seq<Byte>, content: seq<Byte>, offset: nat, m: nat, bpc: nat, o: nat)
    requires bpc > 0 && offset + m <= |content| && m <= |into| && o == offset % bpc
    ensures 0 <= o < bpc
    ensures ReadInto(into, content, offset, m, bpc) ==
            if o == 0 then Put(into, 0, content[offset..offset + m]) else Laid(into, content, offset, m, bpc - o)
  {
    hide Laid, Put;
  }

  method ReadEntry(vol: Volume, name: Name, offset: nat, m: nat, out: array<Byte>)
    requires vol.Valid() && name in vol.entries && Plain(vol.entries[name])
    requires 0 < m <= out.Length && offset + m <= vol.entries[name].size
    modifies out
    ensures vol.Valid() && |vol.Content(name)| == vol.entries[name].size && vol.bpc > 0
    ensures out[..] == ReadInto(old(out[..]), vol.Content(name), offset, m, vol.bpc)
  {
    hide AllLinked, Bytes, Put, Volume.Tables, Blocks, Volume.Valid, Clusters, Matches, ReadInto, Laid, Linked,
        Volume.View, Volume.Content, First;
    BpcPositive(vol);
    var o := offset % vol.bpc;
    ghost var k := EntrySetup(vol, name, offset, o, m, out[..]);
    vol.ChainLinked(name);
    ViewFacts(vol, name);
    var cluster := FirstOf(vol, name, offset, k);
    if o == 0 {
      ReadClusters(vol, cluster, k, m, out, 0, name);
    } else {
      ReadUnaligned(vol, name, cluster, k, offset, o, m, out);
    }
  }

  lemma BpcPositive(vol: Volume)
    requires vol.Valid()
    ensures vol.bpc > 0
  {
  }

  /** The cluster a read starts in. */
  method FirstOf(vol: Volume, name: Name, offset: nat, ghost k: nat) returns (cluster: nat)
    requires vol.Tables() && name in vol.entries && name in vol.chains && vol.bpc > 0
    requires vol.entries[name].first == First(vol.chains[name]) && k == offset / vol.bpc < |vol.chains[name]|
    ensures cluster == vol.chains[name][k]
  {
    vol.ChainLinked(name);
    cluster := vol.Lookup(vol.entries[name].first, offset, vol.chains[name]);
  }

  /** Where a read starts, and what it has to leave in the buffer. */
  lemma EntrySetup(vol: Volume, name: Name, offset: nat, o: nat, m: nat, into: seq<Byte>) returns (k: nat)
    requires vol.Valid() && name in vol.entries && Plain(vol.entries[name]) && vol.bpc > 0 && o == offset % vol.bpc
    requires 0 < m <= |into| && offset + m <= vol.entries[name].size
    ensures vol.Tables() && name in vol.chains && vol.bpc > 0 && |vol.Content(name)| == vol.entries[name].size
    ensures vol.entries[name].first == First(vol.chains[name]) && offset + m <= |vol.View(name)|
    ensures k == offset / vol.bpc
    ensures var view := vol.View(name);
      && k < |vol.chains[name]| && offset == k * vol.bpc + o && 0 <= o < vol.bpc && (o == 0 ==> k * vol.bpc == offset)
      && ReadInto(into, vol.Content(name), offset, m, vol.bpc) ==
          if o == 0 then Put(into, 0, view[offset..offset + m]) else Laid(into, view, offset, m, vol.bpc - o)
  {
    hide AllLinked, Bytes, Put, Volume.Tables, Blocks, Volume.Valid, Clusters, OthersMatch, Matches, Volume.Since,
        Written, ReadInto, Laid, Linked, Volume.View, Volume.Content;
    vol.WriteStarts(name, offset, []);
    ViewFacts(vol, name);
    k := offset / vol.bpc;
    var view, content, ch := vol.View(name), vol.Content(name), vol.chains[name];
    StillInside(k, |ch|, vol.bpc, k * vol.bpc, o + m);
    ContentIsPrefix(vol, name);
    ReadIntoPrefix(into, view, content, offset, m, vol.bpc);
    ReadIntoIs(into, view, offset, m, vol.bpc, o);
  }

  lemma ContentIsPrefix(vol: Volume, name: Name)
    requires vol.Tables() && name in vol.entries
    ensures vol.Content(name) <= vol.View(name)
  {
    hide Volume.Tables, Volume.View, AllLinked, Bytes, Blocks;
  }

  /** The copy out of the first cluster, and the misjudged advance of the buffer. */
  method ReadUnaligned(vol: Volume, name: Name, start: nat, ghost k: nat, ghost offset: nat, o: nat, m: nat,
      out: array<Byte>)
    requires vol.Tables() && name in vol.chains && vol.bpc > 0 && 0 < o < vol.bpc
    requires offset == k * vol.bpc + o && k < |vol.chains[name]| && start == vol.chains[name][k]
    requires 0 < m <= out.Length && offset + m <= |vol.View(name)|
    modifies out
    ensures out[..] == Laid(old(out[..]), vol.View(name), offset, m, vol.bpc - o)
  {
    hide AllLinked, Bytes, Put, Volume.Tables, Blocks, Volume.View, Inside, Distinct;
    ViewFacts(vol, name);
    ghost var view, ch := vol.View(name), vol.chains[name];
    ghost var base := k * vol.bpc;
    var head := Min(m, vol.bpc - o);
    BlockOf(vol.data[..], ch, k, vol.bpc);
    NextBase(k, vol.bpc);
    var piece := vol.data[start][o..o + head];
    SliceOfSlice(view, base, base + vol.bpc, o, o + head);
    assert piece == view[offset..offset + head];
    var next := NextCluster(vol, start, k, name);
    CopyInto(out, 0, piece);
    if head < m {
      StillInside(k + 1, |ch|, vol.bpc, base + vol.bpc, m - head);
      ReadClusters(vol, next, k + 1, m - head, out, Min(m - head, head), name);
    }
  }

  lemma NextBase(k: nat, bpc: nat)
    ensures (k + 1) * bpc == k * bpc + bpc
  {
  }

  lemma SlicePrefix(view: seq<Byte>, content: seq<Byte>, a: nat, b: nat)
    requires content <= view && a <= b <= |content|
    ensures view[a..b] == content[a..b]
  {
  }

  /** Reading depends on the bytes below the size only. */
  lemma ReadIntoPrefix(into: seq<Byte>, view: seq<Byte>, content: seq<Byte>, offset: nat, m: nat, bpc: nat)
    requires bpc > 0 && content <= view && offset + m <= |content| && m <= |into|
    ensures ReadInto(into, view, offset, m, bpc) == ReadInto(into, content, offset, m, bpc)
  {
    hide Put, Laid, Head;
    SlicePrefix(view, content, offset, offset + m);
    LaidPrefix(into, view, content, offset, m, Head(offset, bpc));
  }

  lemma LaidPrefix(into: seq<Byte>, view: seq<Byte>, content: seq<Byte>, offset: nat, m: nat, head: nat)
    requires content <= view && offset + m <= |content| && m <= |into|
    ensures Laid(into, view, offset, m, head) == Laid(into, content, offset, m, head)
  {
    hide Put;
    SlicePrefix(view, content, offset, offset + m);
    if head < m {
      SlicePrefix(view, content, offset, offset + head);
      SlicePrefix(view, content, offset + head, offset + m);
    }
  }
}
