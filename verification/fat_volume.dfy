/**
 The mounted FAT16.1 volume: table, clusters and directory entries changed in place by appending,
 writing and reading. Chains and bytes are those of `FatChain`; disk transfers always succeed.
 */
module FatVolume {
  import opened FatChain

  datatype Attr = ReadOnly | Hidden | System | VolumeId | Directory | Link

  /** First cluster (0 for an empty file), size in bytes, attributes. */
  datatype Entry = Entry(first: nat, size: nat, attrs: set<Attr>)

  predicate Writable(e: Entry) {
    e.attrs * {Directory, ReadOnly, Link, VolumeId} == {}
  }

  predicate Plain(e: Entry) {
    Directory !in e.attrs
  }

  /** An entry's first cluster is that of its chain, and a file's chain is as long as its size asks for. */
  ghost predicate Matches(entries: map<Name, Entry>, chains: map<Name, seq<nat>>, bpc: nat, n: Name) {
    && n in entries && n in chains && bpc > 0
    && entries[n].first == First(chains[n])
    && (Plain(entries[n]) ==> |chains[n]| == Clusters(entries[n].size, bpc))
  }

  ghost predicate OthersMatch(entries: map<Name, Entry>, chains: map<Name, seq<nat>>, bpc: nat, name: Name) {
    forall n :: n in entries && n != name ==> Matches(entries, chains, bpc, n)
  }

  /** `v` holds `content` with the first `pos - offset` bytes of the buffer written at `offset`. */
  ghost predicate Written(v: seq<Byte>, content: seq<Byte>, offset: nat, buf: seq<Byte>, pos: nat) {
    && offset <= |content| && offset <= pos <= |v| && pos - offset <= |buf| && |content| <= |v|
    && v[..Max(|content|, pos)] == Splice(content, offset, buf[..pos - offset])
  }

  /**
   The outcome of asking for cluster `k` of a chain: 0 and the cluster when it is there, 1 and a
   new last cluster when it is the next one and there is room, -1 when there is none.
   */
  ghost predicate Landed(code: int, cluster: nat, k: nat, before: seq<nat>, after: seq<nat>, room: nat) {
    && -1 <= code <= 1
    && (code == 0 <==> k < |before|)
    && (code == 1 <==> k == |before| < room)
    && (code == -1 <==> k == |before| == room)
    && (code >= 0 ==> k < |after| == Max(|before|, k + 1) && cluster == after[k] && before <= after)
    && (code <= 0 ==> after == before)
  }

  class Volume {
    const size: nat
    const bpc: nat
    const fat: array<nat>
    const data: array<seq<Byte>>
    var lastFree: nat
    var buffer: seq<Byte>
    var entries: map<Name, Entry>
    var diskFat: seq<nat>
    ghost var chains: map<Name, seq<nat>>

    /** The table and its chains; the owners that are not entries are directories. */
    ghost predicate Tables()
      reads this, fat, data
    {
      && 2 < size <= BAD && bpc > 0 && fat.Length == size && data.Length == size
      && 2 <= lastFree < size
      && Blocks(data[..], bpc) && AllLinked(fat[..], chains) && entries.Keys <= chains.Keys
    }

    ghost predicate Valid()
      reads this, fat, data
    {
      Tables() && forall n :: n in entries ==> Matches(entries, chains, bpc, n)
    }

    ghost function View(n: Name): seq<Byte>
      requires Tables() && n in chains
      reads this, fat, data
    {
      Bytes(data[..], chains[n])
    }

    ghost function Content(n: Name): seq<Byte>
      requires Tables() && n in entries
      reads this, fat, data
    {
      if entries[n].size <= |View(n)| then View(n)[..entries[n].size] else View(n)
    }

    /** A mounted volume: table, data and directory entries as read from disk, the free hint at the first cluster. */
    constructor Mount(table: seq<nat>, bpc: nat, clusters: seq<seq<Byte>>, entries: map<Name, Entry>,
        ghost chains: map<Name, seq<nat>>)
      requires 2 < |table| <= BAD && bpc > 0 && |clusters| == |table|
      requires Blocks(clusters, bpc) && AllLinked(table, chains)
      requires entries.Keys <= chains.Keys && forall n :: n in entries ==> Matches(entries, chains, bpc, n)
      ensures Valid() && size == |table| && fat[..] == table && data[..] == clusters
      ensures this.chains == chains && this.entries == entries && this.bpc == bpc
      ensures fresh(fat) && fresh(data)
    {
      size := |table|;
      this.bpc := bpc;
      fat := new nat[|table|](i requires 0 <= i < |table| => table[i]);
      data := new seq<Byte>[|clusters|](i requires 0 <= i < |clusters| => clusters[i]);
      lastFree := 2;
      buffer := [];
      this.entries := entries;
      diskFat := table;
      this.chains := chains;
      new;
      assert fat[..] == table && data[..] == clusters;
    }

    // -------------------------------------------------------------- table access

    method GetCluster(n: nat) returns (v: nat)
      requires fat.Length == size
      ensures v == if n < size then fat[n] else EOC_MARK
    {
      v := if n < size then fat[n] else EOC_MARK;
    }

    method SetCluster(n: nat, v: nat) returns (ok: bool)
      requires fat.Length == size
      modifies fat
      ensures ok <==> 2 <= n < size
      ensures fat[..] == if ok then old(fat[..])[n := v] else old(fat[..])
    {
      ok := 2 <= n < size;
      if ok { fat[n] := v; }
    }

    /** The search for a free cluster: from the hint to the end, then from 2 up to the hint. */
    method GetFreeCluster() returns (n: nat)
      requires 2 < size == fat.Length && 2 <= lastFree < size
      modifies this`lastFree
      ensures n == 0 <==> Free(fat[..]) == 0
      ensures n != 0 ==> 2 <= n < size && fat[n] == UNUSED
      ensures 2 <= lastFree < size
    {
      NoneFree(fat[..], 2);
      n := lastFree;
      while n < size
        invariant lastFree <= n <= size && forall c :: lastFree <= c < n ==> fat[c] != UNUSED
      {
        if fat[n] == UNUSED {
          lastFree := n;
          return;
        }
        n := n + 1;
      }
      n := 2;
      while n < lastFree + 1
        invariant 2 <= n <= lastFree + 1 && forall c :: 2 <= c < n ==> fat[c] != UNUSED
      {
        if fat[n] == UNUSED {
          lastFree := n;
          return;
        }
        n := n + 1;
      }
      n := UNUSED;
    }

    method Available() returns (clusters: nat)
      requires 2 < size == fat.Length
      ensures clusters == Free(fat[..])
    {
      clusters := 0;
      ghost var f := fat[..];
      var i := 2;
      while i < size
        invariant 2 <= i <= size && clusters + FreeFrom(f, i) == Free(f)
      {
        if fat[i] == UNUSED { clusters := clusters + 1; }
        i := i + 1;
      }
    }

    // -------------------------------------------------------------- chains

    /** The cluster holding byte `offset` of a chain; past its last cluster, the mark that ends it. */
    method Lookup(first: nat, offset: nat, ghost ch: seq<nat>) returns (cluster: nat)
      requires size == fat.Length && 2 < size <= BAD && bpc > 0 && Linked(fat[..], ch) && first == First(ch)
      requires offset / bpc <= |ch|
      ensures var k := offset / bpc;
              if k < |ch| then cluster == ch[k] else if ch == [] then cluster == 0 else IsEoc(cluster)
    {
      cluster := first;
      var k := offset / bpc;
      ghost var i := 0;
      while k > 0
        invariant 0 <= k && i + k == offset / bpc && i <= |ch|
        invariant if i < |ch| then cluster == ch[i] else if ch == [] then cluster == 0 else IsEoc(cluster)
        decreases k
      {
        NextInChain(fat[..], ch, i);
        k := k - 1;
        cluster := GetCluster(cluster);
        i := i + 1;
        if !IsReadable(cluster) { break; }
      }
    }

    /** The walk to the end of the chain that holds `cluster`. */
    method LastCluster(cluster: nat, ghost ch: seq<nat>) returns (last: nat)
      requires size == fat.Length && 2 < size <= BAD && Linked(fat[..], ch) && cluster in ch
      ensures last == ch[|ch| - 1]
    {
      ghost var i :| 0 <= i < |ch| && ch[i] == cluster;
      last := cluster;
      var next := GetCluster(last);
      NextInChain(fat[..], ch, i);
      while !IsEoc(next)
        invariant 0 <= i < |ch| && last == ch[i] && (if i + 1 < |ch| then next == ch[i + 1] else IsEoc(next))
        decreases |ch| - i
      {
        last := next;
        i := i + 1;
        next := GetCluster(last);
        NextInChain(fat[..], ch, i);
      }
    }

    /** Hanging a free cluster behind the chain and closing it with an end mark. */
    method LinkBehind(cluster: nat, c: nat, ghost ch: seq<nat>)
      requires size == fat.Length && 2 < size <= BAD && Linked(fat[..], ch) && 2 <= c < size
      requires if cluster == 0 then ch == [] else cluster in ch
      modifies fat
      ensures fat[..] == Extended(old(fat[..]), ch, c)
    {
      var ok;
      if cluster != 0 {
        var last := LastCluster(cluster, ch);
        ok := SetCluster(last, c);
      }
      ok := SetCluster(c, EOC_MARK);
    }

    /** Appending to the chain `cluster` belongs to; fails exactly when the table has no free entry. */
    method Append(cluster: nat, ghost who: Name) returns (ok: bool, c: nat)
      requires Tables() && who in chains
      requires if cluster == 0 then chains[who] == [] else cluster in chains[who]
      modifies this`lastFree, this`chains, fat
      ensures Tables() && ok == (old(Free(fat[..])) > 0)
      ensures ok ==> 2 <= c < size && old(fat[..])[c] == UNUSED
      ensures ok ==> chains == old(chains)[who := old(chains[who]) + [c]]
      ensures ok ==> fat[..] == Extended(old(fat[..]), old(chains[who]), c)
      ensures ok ==> Free(fat[..]) == old(Free(fat[..])) - 1
      ensures !ok ==> chains == old(chains) && fat[..] == old(fat[..])
    {
      hide Linked, Apart, Extended, Free;
      ghost var f, ch := fat[..], chains[who];
      c := GetFreeCluster();
      if c == 0 { return false, 0; }
      assert f[c] == UNUSED;
      ExtendedFree(f, ch, c);
      ExtendedAllLinked(f, chains, who, c);
      LinkBehind(cluster, c, ch);
      chains := chains[who := ch + [c]];
      ok := true;
    }

    // -------------------------------------------------------------- creating

    /** A new owner with an empty chain. */
    lemma NewOwner(name: Name)
      requires Tables() && name !in chains
      ensures AllLinked(fat[..], chains[name := []])
    {
      ReplacedAllLinked(fat[..], fat[..], chains, name, []);
    }

    /** A void file: an entry without clusters. */
    method CreateFile(name: Name, attrs: set<Attr>)
      requires Valid() && name !in chains && Directory !in attrs
      modifies this`entries, this`chains
      ensures Valid() && chains == old(chains)[name := []] && entries == old(entries)[name := Entry(0, 0, attrs)]
      ensures View(name) == [] && forall n :: n in old(chains) ==> View(n) == old(View(n))
    {
      hide AllLinked, Bytes;
      NewOwner(name);
      EmptyBytes(data[..], bpc);
      entries := entries[name := Entry(0, 0, attrs)];
      chains := chains[name := []];
    }

    /** A directory: an entry with one cluster, holding `dots`, closed by an end mark. */
    method CreateDirectory(name: Name, attrs: set<Attr>, dots: seq<Byte>) returns (ok: bool)
      requires Valid() && name !in chains && Directory in attrs && |dots| == bpc
      modifies this, fat, data
      ensures Valid() && ok == (old(Free(fat[..])) > 0)
      ensures !ok ==> entries == old(entries) && chains == old(chains)
      ensures !ok ==> fat[..] == old(fat[..]) && data[..] == old(data[..])
      ensures ok ==> name in entries && 2 <= entries[name].first < size && old(fat[..])[entries[name].first] == UNUSED
      ensures ok ==> entries == old(entries)[name := Entry(entries[name].first, 0, attrs)]
      ensures ok ==> chains == old(chains)[name := [entries[name].first]] && View(name) == dots
      ensures ok ==> Free(fat[..]) == old(Free(fat[..])) - 1 && diskFat == fat[..]
      ensures forall n :: n in old(chains) ==> n in chains && View(n) == old(View(n))
    {
      hide AllLinked, Linked, Bytes, Free, Extended;
      var c := GetFreeCluster();
      if c == 0 { return false; }
      ghost var f: seq<nat> := fat[..];
      ghost var d, ch0 := data[..], chains;
      NewOwner(name);
      OwnedClusterFacts(f, ch0, c);
      FirstOwned(f, ch0[name := []], name, c);
      assert fat[..] == f;
      data[c] := dots;
      fat[c] := EOC_MARK;
      diskFat := fat[..];
      entries := entries[name := Entry(c, 0, attrs)];
      chains := chains[name := [c]];
      assert fat[..] == f[c := EOC_MARK as nat] && data[..] == d[c := dots];
      assert ch0[name := []][name := [c]] == ch0[name := [c]];
      assert Tables();
      OneBlock(data[..], c);
      forall n | n in ch0 ensures forall i :: 0 <= i < |ch0[n]| ==> ch0[n][i] < |d| { OwnerInside(f, ch0, n); }
      forall n | n in ch0 ensures View(n) == Bytes(d, ch0[n]) {
        OwnerInside(f, ch0, n);
        BytesSame(d, data[..], ch0[n]);
      }
      ok := true;
    }

    // -------------------------------------------------------------- writing

    /** Nothing but `who`'s chain, its clusters and free table entries has changed since the start. */
    ghost predicate Since(who: Name, chains0: map<Name, seq<nat>>, data0: seq<seq<Byte>>, free0: nat)
      requires who in chains0
      reads this, fat, data
    {
      && Tables() && who in chains && chains == chains0[who := chains[who]] && chains0[who] <= chains[who]
      && |data0| == size && (forall c :: 0 <= c < size && c !in chains[who] ==> data[c] == data0[c])
      && Free(fat[..]) + |chains[who]| == free0 + |chains0[who]|
    }

    /** An append seen from inside a write: one cluster more, the bytes already there unchanged. */
    method Grow(cluster: nat, ghost who: Name, ghost chains0: map<Name, seq<nat>>, ghost data0: seq<seq<Byte>>,
        ghost free0: nat)
      returns (ok: bool, c: nat)
      requires who in chains0 && Since(who, chains0, data0, free0)
      requires if cluster == 0 then chains[who] == [] else cluster in chains[who]
      modifies this`lastFree, this`chains, fat
      ensures Since(who, chains0, data0, free0)
      ensures ok == (|old(chains[who])| < |chains0[who]| + free0)
      ensures ok ==> chains[who] == old(chains[who]) + [c]
      ensures ok ==> old(View(who)) <= View(who)
      ensures !ok ==> chains == old(chains) && fat[..] == old(fat[..])
    {
      hide AllLinked, Extended, Free;
      ghost var ch := chains[who];
      ChainInside(who);
      ok, c := Append(cluster, who);
      if ok {
        assert Inside(data[..], [c]);
        BytesConcat(data[..], ch, [c]);
      }
    }

    lemma ChainInside(who: Name)
      requires Tables() && who in chains
      ensures Inside(data[..], chains[who]) && Distinct(chains[who])
    {
      assert Linked(fat[..], chains[who]);
    }

    /** The cluster for the first byte: found in the chain, or appended when the file ends right there. */
    method GetFirst(offset: nat, first: nat, ghost k: nat, ghost who: Name, ghost chains0: map<Name, seq<nat>>,
                    ghost data0: seq<seq<Byte>>, ghost free0: nat)
      returns (code: int, cluster: nat)
      requires who in chains0 && Since(who, chains0, data0, free0)
      requires first == First(chains[who]) && k == offset / bpc && k <= |chains[who]|
      modifies this`lastFree, this`chains, fat
      ensures who in chains && Since(who, chains0, data0, free0)
      ensures Landed(code, cluster, k, old(chains[who]), chains[who], |chains0[who]| + free0)
      ensures code <= 0 ==> fat[..] == old(fat[..])
      ensures old(View(who)) <= View(who)
    {
      hide AllLinked;
      ChainLinked(who);
      cluster := Lookup(first, offset, chains[who]);
      code := 0;
      if !IsReadable(cluster) {
        var ok;
        ok, cluster := Grow(first, who, chains0, data0, free0);
        code := if ok then 1 else -1;
      }
    }

    /** The cluster after `cluster`: the next of the chain, or a new one behind the last. */
    method GetNext(cluster: nat, ghost k: nat, ghost who: Name, ghost chains0: map<Name, seq<nat>>,
                   ghost data0: seq<seq<Byte>>, ghost free0: nat)
      returns (code: int, next: nat)
      requires who in chains0 && Since(who, chains0, data0, free0)
      requires k < |chains[who]| && cluster == chains[who][k]
      modifies this`lastFree, this`chains, fat
      ensures Since(who, chains0, data0, free0)
      ensures Landed(code, next, k + 1, old(chains[who]), chains[who], |chains0[who]| + free0)
      ensures code <= 0 ==> fat[..] == old(fat[..])
      ensures old(View(who)) <= View(who)
    {
      hide AllLinked;
      ChainLinked(who);
      NextInChain(fat[..], chains[who], k);
      next := GetCluster(cluster);
      code := 0;
      if IsEoc(next) {
        var ok;
        ok, next := Grow(cluster, who, chains0, data0, free0);
        code := if ok then 1 else -1;
      }
    }

    lemma ChainLinked(who: Name)
      requires Tables() && who in chains
      ensures Linked(fat[..], chains[who])
      ensures forall i :: 0 <= i < |chains[who]| ==> IsReadable(chains[who][i]) && chains[who][i] > 0
    {
    }

    /**
     One cluster transfer: the cluster is read, the chunk copied over it at `o` (what follows is
     cleared in a new last cluster) and written back. A chunk of a whole cluster replaces it.
     */
    method StoreChunk(cluster: nat, o: nat, chunk: seq<Byte>, clear: bool, ghost k: nat, ghost pos: nat,
                      ghost content: seq<Byte>, ghost offset: nat, ghost buf: seq<Byte>,
                      ghost who: Name, ghost chains0: map<Name, seq<nat>>, ghost data0: seq<seq<Byte>>,
                          ghost free0: nat)
      requires who in chains0 && Since(who, chains0, data0, free0)
      requires k < |chains[who]| && cluster == chains[who][k] && o + |chunk| <= bpc && pos == k * bpc + o
      requires Written(View(who), content, offset, buf, pos) && (clear ==> |content| <= pos)
      requires pos - offset + |chunk| <= |buf| && chunk == buf[pos - offset..pos - offset + |chunk|]
      modifies this`buffer, data
      ensures Since(who, chains0, data0, free0)
      ensures Written(View(who), content, offset, buf, pos + |chunk|)
    {
      hide AllLinked, Free, Written;
      ghost var v, d := View(who), data[..];
      ChainInside(who);
      var n := o + |chunk|;
      buffer := data[cluster];
      var rest := if clear then seq(bpc - n, _ => 0) else buffer[n..];
      buffer := buffer[..o] + chunk + rest;
      data[cluster] := buffer;
      WriteBlock(d, chains[who], k, buffer, bpc);
      assert data[..] == d[cluster := buffer];
      ChunkPlaced(v, View(who), content, offset, buf, pos, o, k * bpc, d[cluster], chunk, rest, bpc, clear);
    }

    /** Files other than the one written keep chain and bytes. */
    lemma OthersUntouched(who: Name, chains0: map<Name, seq<nat>>, data0: seq<seq<Byte>>, free0: nat, n: Name)
      requires who in chains0 && Since(who, chains0, data0, free0) && n in chains0 && n != who
      requires Blocks(data0, bpc)
      ensures n in chains && chains[n] == chains0[n] && Inside(data0, chains0[n])
      ensures View(n) == Bytes(data0, chains0[n])
    {
      ChainInside(n);
      assert Apart(chains[who], chains[n]);
      BytesSame(data0, data[..], chains[n]);
    }

    /** Size, first cluster, and, after an append, the table on disk are brought up to date. */
    method UpdateOnDisk(appended: int, filepos: nat, entry: Entry, name: Name, ghost k: nat,
                        ghost content: seq<Byte>, ghost offset: nat, ghost buf: seq<Byte>,
                        ghost chains0: map<Name, seq<nat>>, ghost data0: seq<seq<Byte>>, ghost free0: nat)
      requires name in chains0 && Since(name, chains0, data0, free0) && name in entries
      requires OthersMatch(entries, chains0, bpc, name)
      requires Written(View(name), content, offset, buf, filepos) && |content| == entry.size
      requires entry.first == First(chains[name]) && |chains0[name]| == Clusters(entry.size, bpc)
      requires |chains[name]| == Max(|chains0[name]|, k + 1) && k * bpc < filepos <= k * bpc + bpc
      modifies this`entries, this`diskFat
      ensures Since(name, chains0, data0, free0) && Valid()
      ensures entries == old(entries)[name := entry.(size := Max(entry.size, filepos))]
      ensures Content(name) == Splice(content, offset, buf[..filepos - offset])
      ensures diskFat == if appended != 0 then fat[..] else old(diskFat)
    {
      hide AllLinked, Free, Splice, Blocks, Clusters;
      var e := entry;
      if filepos > e.size { e := e.(size := filepos); }
      if appended != 0 { diskFat := fat[..]; }
      entries := entries[name := e];
      ClustersAfter(entry.size, filepos, bpc, k);
    }

    /** Where a write stands: cluster `k` is at hand and the bytes before `pos` are in place. */
    ghost predicate Ready(entry: Entry, name: Name, k: nat, cluster: nat, pos: nat, code: int,
                          content: seq<Byte>, offset: nat, buf: seq<Byte>,
                          chains0: map<Name, seq<nat>>, data0: seq<seq<Byte>>, fat0: seq<nat>)
      requires name in chains0
      reads this, fat, data
    {
      && Since(name, chains0, data0, Free(fat0)) && Written(View(name), content, offset, buf, pos)
      && k < |chains[name]| == Max(|chains0[name]|, k + 1) && cluster == chains[name][k]
      && (code == 0 ==> chains[name] == chains0[name] && fat[..] == fat0)
      && (code == 1 ==> |chains0[name]| <= k)
      && (code == 0 || code == 1)
      && |content| <= |chains0[name]| * bpc
      && |content| == entry.size && entry.first == First(chains[name]) && |chains0[name]| == Clusters(entry.size, bpc)
    }

    /** From a filled cluster to the next one. */
    method Advance(cluster: nat, code: int, ghost k: nat, ghost pos: nat, ghost entry: Entry, ghost name: Name,
                   ghost content: seq<Byte>, ghost offset: nat, ghost buf: seq<Byte>,
                   ghost chains0: map<Name, seq<nat>>, ghost data0: seq<seq<Byte>>, ghost fat0: seq<nat>)
      returns (code': int, cluster': nat)
      requires name in chains0 && Ready(entry, name, k, cluster, pos, code, content, offset, buf, chains0, data0, fat0)
      modifies this`lastFree, this`chains, fat
      ensures code' >= 0 ==> Ready(entry, name, k + 1, cluster', pos, code', content, offset, buf, chains0, data0, fat0)
      ensures code' < 0 ==>
                code' == -1 && Ready(entry, name, k, cluster, pos, code, content, offset, buf, chains0, data0, fat0)
                && |chains[name]| == k + 1 == |chains0[name]| + Free(fat0)
    {
      hide Written, AllLinked, Free;
      ghost var v := View(name);
      code', cluster' := GetNext(cluster, k, name, chains0, data0, Free(fat0));
      WrittenGrows(v, View(name), content, offset, buf, pos);
    }

    /** Storing the next chunk of the buffer in the cluster at hand. */
    method Store(cluster: nat, o: nat, chunk: seq<Byte>, code: int, clear: bool, ghost k: nat, ghost pos: nat,
                 ghost entry: Entry, ghost name: Name, ghost content: seq<Byte>, ghost offset: nat,
                     ghost buf: seq<Byte>,
                 ghost chains0: map<Name, seq<nat>>, ghost data0: seq<seq<Byte>>, ghost fat0: seq<nat>)
      requires name in chains0 && Ready(entry, name, k, cluster, pos, code, content, offset, buf, chains0, data0, fat0)
      requires o + |chunk| <= bpc && pos == k * bpc + o && (clear ==> code == 1)
      requires pos - offset + |chunk| <= |buf| && chunk == buf[pos - offset..pos - offset + |chunk|]
      modifies this`buffer, data
      ensures Ready(entry, name, k, cluster, pos + |chunk|, code, content, offset, buf, chains0, data0, fat0)
    {
      hide Written, AllLinked, Free;
      if clear { TimesMonotone(|chains0[name]|, k, bpc); }
      assert Written(View(name), content, offset, buf, pos);
      StoreChunk(cluster, o, chunk, clear, k, pos, content, offset, buf, name, chains0, data0, Free(fat0));
    }

    /** The closing update of a write that stopped at `pos`, inside or at the end of cluster `k`. */
    method Close(appended: int, pos: nat, entry: Entry, name: Name, ghost k: nat, ghost cluster: nat, ghost code: int,
                 ghost content: seq<Byte>, ghost offset: nat, ghost buf: seq<Byte>,
                 ghost chains0: map<Name, seq<nat>>, ghost data0: seq<seq<Byte>>, ghost fat0: seq<nat>)
      requires name in chains0 && Ready(entry, name, k, cluster, pos, code, content, offset, buf, chains0, data0, fat0)
      requires k * bpc < pos <= k * bpc + bpc && name in entries
      requires OthersMatch(entries, chains0, bpc, name)
      requires appended == 0 ==> code == 0
      modifies this`entries, this`diskFat
      ensures Since(name, chains0, data0, Free(fat0)) && Valid()
      ensures entries == old(entries)[name := entry.(size := Max(entry.size, pos))]
      ensures Content(name) == Splice(content, offset, buf[..pos - offset])
      ensures old(diskFat) == fat0 ==> diskFat == fat[..]
      ensures pos <= (|chains0[name]| + Free(fat0)) * bpc
    {
      hide AllLinked, Free, Splice, Blocks, Clusters;
      TimesMonotone(k + 1, |chains0[name]| + Free(fat0), bpc);
      assert (k + 1) * bpc == k * bpc + bpc;
      UpdateOnDisk(appended, pos, entry, name, k, content, offset, buf, chains0, data0, Free(fat0));
    }

    /** One whole cluster of the buffer, then the step to the next cluster if anything is left. */
    method FillCluster(cluster: nat, code: int, done: nat, buf: seq<Byte>, ghost k: nat, ghost offset: nat,
                       ghost entry: Entry, ghost name: Name, ghost content: seq<Byte>,
                       ghost chains0: map<Name, seq<nat>>, ghost data0: seq<seq<Byte>>, ghost fat0: seq<nat>)
      returns (code': int, cluster': nat)
      requires name in chains0 && Ready(entry, name, k, cluster, offset + done, code, content, offset, buf, chains0,
          data0, fat0)
      requires offset + done == k * bpc && done + bpc <= |buf|
      modifies this`lastFree, this`chains, this`buffer, fat, data
      ensures var pos := offset + done + bpc;
              if code' >= 0 && done + bpc < |buf|
              then pos == (k + 1) * bpc && Ready(entry, name, k + 1, cluster', pos, code', content, offset, buf,
                  chains0, data0, fat0)
              else pos == k * bpc + bpc && Ready(entry, name, k, cluster, pos, code, content, offset, buf, chains0,
                  data0, fat0)
      ensures done + bpc == |buf| ==> code' == code
      ensures done + bpc < |buf| && code' < 0 ==> offset + done + bpc == (|chains0[name]| + Free(fat0)) * bpc
    {
      hide Ready, Since, Written, AllLinked, Free;
      assert (k + 1) * bpc == k * bpc + bpc;
      Store(cluster, 0, buf[done..done + bpc], code, false, k, offset + done, entry, name, content, offset, buf,
          chains0, data0, fat0);
      code', cluster' := code, cluster;
      if done + bpc < |buf| {
        code', cluster' := Advance(cluster, code, k, offset + done + bpc, entry, name, content, offset, buf, chains0,
            data0, fat0);
      }
    }

    /** Whole clusters while the buffer lasts, then one last partial cluster. */
    method WriteRest(first: int, start: nat, done0: nat, entry: Entry, name: Name, buf: seq<Byte>, offset: nat,
        ghost k0: nat,
                     ghost content: seq<Byte>, ghost chains0: map<Name, seq<nat>>, ghost data0: seq<seq<Byte>>,
                         ghost fat0: seq<nat>)
      returns (ok: bool, done: nat)
      requires name in chains0 && Ready(entry, name, k0, start, offset + done0, first, content, offset, buf, chains0,
          data0, fat0)
      requires offset + done0 == k0 * bpc && done0 < |buf| && name in entries
      requires OthersMatch(entries, chains0, bpc, name)
      modifies this, fat, data
      ensures Since(name, chains0, data0, Free(fat0)) && Valid() && done <= |buf|
      ensures entries == old(entries)[name := entry.(size := Max(entry.size, offset + done))]
      ensures Content(name) == Splice(content, offset, buf[..done])
      ensures old(diskFat) == fat0 ==> diskFat == fat[..]
      ensures var room := (|chains0[name]| + Free(fat0)) * bpc;
              offset + done <= room && (if ok then done == |buf| else done < |buf| && offset + done == room)
    {
      hide Ready, Since, Written, AllLinked, Free, Splice, Clusters, OthersMatch, Content, Valid;
      var cluster: nat, code: int := start, first;
      ghost var k: nat := k0;
      done := done0;
      ReadyFacts(entry, name, k, cluster, offset + done, code, content, offset, buf, chains0, data0, fat0);
      while |buf| - done >= bpc
        invariant 0 <= done < |buf| && Ready(entry, name, k, cluster, offset + done, code, content, offset, buf,
            chains0, data0, fat0)
        invariant offset + done == k * bpc && entries == old(entries) && diskFat == old(diskFat)
        decreases |buf| - done
      {
        var c, d := FillCluster(cluster, code, done, buf, k, offset, entry, name, content, chains0, data0, fat0);
        done := done + bpc;
        if done == |buf| || c < 0 {
          Close(c, offset + done, entry, name, k, cluster, code, content, offset, buf, chains0, data0, fat0);
          return done == |buf|, done;
        }
        code, cluster, k := c, d, k + 1;
      }
      ReadyFacts(entry, name, k, cluster, offset + done, code, content, offset, buf, chains0, data0, fat0);
      Store(cluster, 0, buf[done..], code, code != 0, k, offset + done, entry, name, content, offset, buf, chains0,
          data0, fat0);
      done := |buf|;
      Close(code, offset + done, entry, name, k, cluster, code, content, offset, buf, chains0, data0, fat0);
      ok := true;
    }

    lemma ReadyFacts(entry: Entry, name: Name, k: nat, cluster: nat, pos: nat, code: int, content: seq<Byte>,
        offset: nat,
                     buf: seq<Byte>, chains0: map<Name, seq<nat>>, data0: seq<seq<Byte>>, fat0: seq<nat>)
      requires name in chains0 && Ready(entry, name, k, cluster, pos, code, content, offset, buf, chains0, data0, fat0)
      ensures bpc > 0 && (code == 0 || code == 1) && offset <= |content| == entry.size
    {
    }

    /** What a completed or cut-short write leaves. */
    ghost predicate Spliced(name: Name, offset: nat, buf: seq<Byte>, done: nat, content: seq<Byte>,
                            chains0: map<Name, seq<nat>>, data0: seq<seq<Byte>>, fat0: seq<nat>, entries0: map<Name,
                                Entry>)
      requires name in chains0 && name in entries0
      reads this, fat, data
    {
      && Since(name, chains0, data0, Free(fat0)) && Valid() && done <= |buf| && offset <= |content|
      && entries == entries0[name := Entry(First(chains[name]), Max(|content|, offset + done), entries0[name].attrs)]
      && Content(name) == Splice(content, offset, buf[..done])
    }

    /** The first, possibly unaligned, cluster and everything after it. */
    method WriteFrom(first: int, start: nat, entry: Entry, name: Name, buf: seq<Byte>, offset: nat, ghost k: nat,
                     ghost content: seq<Byte>, ghost chains0: map<Name, seq<nat>>, ghost data0: seq<seq<Byte>>,
                         ghost fat0: seq<nat>)
      returns (ok: bool, done: nat)
      requires name in chains0 && Ready(entry, name, k, start, offset, first, content, offset, buf, chains0, data0,
          fat0)
      requires bpc > 0 && offset == k * bpc + offset % bpc && buf != [] && name in entries &&
          entry.attrs == entries[name].attrs
      requires offset % bpc > 0 ==> first == 0
      requires OthersMatch(entries, chains0, bpc, name)
      modifies this, fat, data
      ensures Spliced(name, offset, buf, done, content, chains0, data0, fat0, old(entries))
      ensures old(diskFat) == fat0 ==> diskFat == fat[..]
      ensures var room := (|chains0[name]| + Free(fat0)) * bpc;
              offset + done <= room && (if ok then done == |buf| else done < |buf| && offset + done == room)
    {
      hide Ready, Since, Written, AllLinked, Free, Splice, Clusters, OthersMatch, Content, Valid;
      ReadyFacts(entry, name, k, start, offset, first, content, offset, buf, chains0, data0, fat0);
      var o := offset % bpc;
      if o == 0 {
        ok, done := WriteRest(first, start, 0, entry, name, buf, offset, k, content, chains0, data0, fat0);
      } else {
        done := if |buf| < bpc - o then |buf| else bpc - o;
        Store(start, o, buf[..done], first, false, k, offset, entry, name, content, offset, buf, chains0, data0, fat0);
        if done == |buf| {
          Close(first, offset + done, entry, name, k, start, first, content, offset, buf, chains0, data0, fat0);
          ok := true;
        } else {
          var c, d := Advance(start, first, k, offset + done, entry, name, content, offset, buf, chains0, data0, fat0);
          assert (k + 1) * bpc == k * bpc + bpc;
          if c < 0 {
            Close(c, offset + done, entry, name, k, start, first, content, offset, buf, chains0, data0, fat0);
            ok := false;
          } else {
            ok, done := WriteRest(c, d, done, entry, name, buf, offset, k + 1, content, chains0, data0, fat0);
          }
        }
      }
      FirstIsEntrys(name);
    }

    lemma FirstIsEntrys(name: Name)
      requires Valid() && name in entries
      ensures name in chains && First(chains[name]) == entries[name].first
    {
      assert Matches(entries, chains, bpc, name);
    }

    /** The start of a write: the chain as it is, no byte written yet. */
    lemma WriteStarts(name: Name, offset: nat, buf: seq<Byte>)
      requires Valid() && name in entries && Plain(entries[name]) && offset <= entries[name].size
      ensures Tables() && name in chains && Since(name, chains, data[..], Free(fat[..]))
      ensures |Content(name)| == entries[name].size <= |chains[name]| * bpc
      ensures Inside(data[..], chains[name]) && entries[name].size <= |Bytes(data[..], chains[name])|
      ensures Content(name) == Bytes(data[..], chains[name])[..entries[name].size]
      ensures Written(View(name), Content(name), offset, buf, offset) && offset / bpc <= |chains[name]|
      ensures offset == offset / bpc * bpc + offset % bpc
      ensures entries[name].first == First(chains[name]) && |chains[name]| == Clusters(entries[name].size, bpc)
      ensures OthersMatch(entries, chains, bpc, name) && Matches(entries, chains, bpc, name) && Blocks(data[..], bpc)
    {
      hide AllLinked, Free, Blocks, Clusters;
      assert Matches(entries, chains, bpc, name);
      var e, v := entries[name], View(name);
      ChainInside(name);
      BytesLength(data[..], chains[name], bpc);
      StartArithmetic(offset, e.size, bpc);
      assert Content(name) == v[..e.size];
      assert v[..Max(e.size, offset)] == Splice(Content(name), offset, buf[..0]);
      assert chains == chains[name := chains[name]];
    }

    /** Bytes that fit in a chain and all the clusters still free. */
    ghost function Room(ch: seq<nat>, f: seq<nat>): nat {
      (|ch| + Free(f)) * bpc
    }

    /** All that a write is promised to do, told against the state before it. */
    ghost predicate Wrote(name: Name, offset: nat, buf: seq<Byte>, ok: bool, writelen: nat, content: seq<Byte>,
                          entries0: map<Name, Entry>, chains0: map<Name, seq<nat>>, data0: seq<seq<Byte>>,
                              fat0: seq<nat>)
      reads this, fat, data
    {
      && Valid() && name in entries0 && name in chains0 && name in entries && name in chains
      // as much as there is room for, and success exactly when that is everything
      && offset <= |content| && writelen <= |buf|
      && offset + writelen <= Room(chains0[name], fat0)
      && (if ok then writelen == |buf| else writelen < |buf| && offset + writelen == Room(chains0[name], fat0))
      // the content is spliced, size and chain follow
      && Content(name) == Splice(content, offset, buf[..writelen])
      && entries == entries0[name := Entry(First(chains[name]), Max(|content|, offset + writelen),
          entries0[name].attrs)]
      && chains == chains0[name := chains[name]] && chains0[name] <= chains[name]
      && Free(fat[..]) + |chains[name]| == Free(fat0) + |chains0[name]|
      // nobody else's bytes move
      && (forall n :: n in chains0 && n != name ==>
          n in chains && Inside(data0, chains0[n]) && View(n) == Bytes(data0, chains0[n]))
    }

    lemma SplicedIsWrote(name: Name, offset: nat, buf: seq<Byte>, ok: bool, done: nat, content: seq<Byte>,
                         entries0: map<Name, Entry>, chains0: map<Name, seq<nat>>, data0: seq<seq<Byte>>,
                             fat0: seq<nat>)
      requires name in entries0 && name in chains0 && Blocks(data0, bpc) && |content| == entries0[name].size
      requires Spliced(name, offset, buf, done, content, chains0, data0, fat0, entries0)
      requires var room := (|chains0[name]| + Free(fat0)) * bpc;
               offset + done <= room && (if ok then done == |buf| else done < |buf| && offset + done == room)
      ensures Wrote(name, offset, buf, ok, done, content, entries0, chains0, data0, fat0)
    {
      hide AllLinked, Free, Splice, Content;
      forall n | n in chains0 && n != name
        ensures n in chains && Inside(data0, chains0[n]) && View(n) == Bytes(data0, chains0[n])
      {
        OthersUntouched(name, chains0, data0, Free(fat0), n);
      }
    }

    /** The write proper, once the entry has been found fit for writing. */
    method WriteEntry(name: Name, offset: nat, buf: seq<Byte>) returns (ok: bool, writelen: nat)
      requires Valid() && buf != [] && name in entries && Writable(entries[name]) && offset <= entries[name].size
      modifies this, fat, data
      ensures Wrote(name, offset, buf, ok, writelen, old(Content(name)), old(entries), old(chains), old(data[..]),
          old(fat[..]))
      ensures old(diskFat) == old(fat[..]) ==> diskFat == fat[..]
    {
      hide Since, Written, AllLinked, Free, Splice, Clusters, OthersMatch, Matches, Content, Wrote, Ready, Valid,
          Spliced, Blocks, View, Landed, Room, Linked, Bytes;
      WritableIsPlain(entries[name]);
      WriteStarts(name, offset, buf);
      ghost var content, chains0, data0, fat0, entries0 := Content(name), chains, data[..], fat[..], entries;
      ghost var v, k := View(name), offset / bpc;
      var entry := entries[name];
      AlignedAtEnd(offset, k, |chains0[name]|, entry.size, bpc);
      var code, cluster := GetFirst(offset, entry.first, k, name, chains0, data0, Free(fat0));
      LandedPast(code, cluster, k, chains0[name], chains[name], |chains0[name]| + Free(fat0));
      if code < 0 {
        NothingWritten(name, k, code, cluster, offset, buf, content, entries0, chains0, data0, fat0);
        return false, 0;
      }
      if code > 0 && offset < bpc { entry := entry.(first := cluster); }
      BecomesReady(entry, entries0[name].first, name, k, cluster, offset, code, content, buf, v, chains0, data0, fat0);
      ok, writelen := WriteFrom(code, cluster, entry, name, buf, offset, k, content, chains0, data0, fat0);
      SplicedIsWrote(name, offset, buf, ok, writelen, content, entries0, chains0, data0, fat0);
    }

    lemma BecomesReady(entry: Entry, first: nat, name: Name, k: nat, cluster: nat, offset: nat, code: int,
        content: seq<Byte>,
                       buf: seq<Byte>, v: seq<Byte>, chains0: map<Name, seq<nat>>, data0: seq<seq<Byte>>,
                           fat0: seq<nat>)
      requires name in chains0 && Since(name, chains0, data0, Free(fat0)) && code >= 0 && bpc > 0
      requires Landed(code, cluster, k, chains0[name], chains[name], |chains0[name]| + Free(fat0))
      requires Written(v, content, offset, buf, offset) && v <= View(name) && (code <= 0 ==> fat[..] == fat0)
      requires k == offset / bpc && offset == k * bpc + offset % bpc && |content| == entry.size <= |chains0[name]| * bpc
      requires first == First(chains0[name]) && entry.first == (if code > 0 && offset < bpc then cluster else first)
      requires |chains0[name]| == Clusters(entry.size, bpc)
      ensures Ready(entry, name, k, cluster, offset, code, content, offset, buf, chains0, data0, fat0)
    {
      hide Written, AllLinked, Free;
      WrittenGrows(v, View(name), content, offset, buf, offset);
      FirstAfter(chains0[name], chains[name], code, cluster, k, offset, bpc);
    }

    /** A volume without a free cluster for the first byte is left exactly as it was. */
    lemma NothingWritten(name: Name, k: nat, code: int, cluster: nat, offset: nat, buf: seq<Byte>, content: seq<Byte>,
                         entries0: map<Name, Entry>, chains0: map<Name, seq<nat>>, data0: seq<seq<Byte>>,
                             fat0: seq<nat>)
      requires name in chains0 && Since(name, chains0, data0, Free(fat0)) && Blocks(data0, bpc)
      requires code < 0 && Landed(code, cluster, k, chains0[name], chains[name], |chains0[name]| + Free(fat0))
      requires entries == entries0 && fat[..] == fat0 && data[..] == data0 && name in entries && buf != []
      requires OthersMatch(entries, chains0, bpc, name) && Matches(entries, chains0, bpc, name)
      requires Inside(data0, chains0[name]) && entries[name].size <= |Bytes(data0, chains0[name])|
      requires content == Bytes(data0, chains0[name])[..entries[name].size] && offset <= |content| &&
          offset == |chains0[name]| * bpc
      ensures Wrote(name, offset, buf, false, 0, content, entries0, chains0, data0, fat0)
    {
      hide AllLinked, Free, Bytes;
      assert chains == chains0;
      assert Splice(content, offset, buf[..0]) == content;
      forall n | n in chains ensures Inside(data[..], chains[n]) { ChainInside(n); }
    }

    /**
     FAT_write. The content becomes the splice of as much of the buffer as the free clusters take,
     which is all of it exactly when the call succeeds; no other file changes.
     */
    method Write(name: Name, offset: nat, buf: seq<Byte>) returns (ok: bool, writelen: nat)
      requires Valid()
      modifies this, fat, data
      ensures Valid()
      ensures if CanWrite(old(entries), name, offset, buf)
              then Wrote(name, offset, buf, ok, writelen, old(Content(name)), old(entries), old(chains),
                  old(data[..]), old(fat[..]))
              else !ok && writelen == 0 && entries == old(entries) && chains == old(chains)
                   && fat[..] == old(fat[..]) && data[..] == old(data[..])
      ensures Refused(old(entries), name, offset, buf) ==> !ok && writelen == 0
      ensures Refused(old(entries), name, offset, buf) ==> entries == old(entries) && chains == old(chains)
      ensures Refused(old(entries), name, offset, buf) ==> fat[..] == old(fat[..]) && data[..] == old(data[..])
      ensures !Refused(old(entries), name, offset, buf) ==> name in entries && writelen <= |buf|
      ensures !Refused(old(entries), name, offset, buf) ==>
          Overwrote(old(Content(name)), Content(name), offset, buf[..writelen])
      ensures old(diskFat) == old(fat[..]) ==> diskFat == fat[..]
    {
      RefusedIff(entries, name, offset, buf);
      hide Refused, Overwrote;
      ok, writelen := false, 0;
      if buf == [] || name !in entries { return; }
      if !Writable(entries[name]) || entries[name].size < offset { return; }
      ghost var content := Content(name);
      ok, writelen := WriteEntry(name, offset, buf);
      SpliceOverwrites(content, offset, buf[..writelen]);
    }
  }

  lemma EmptyBytes(data: seq<seq<Byte>>, bpc: nat)
    requires bpc > 0
    ensures Bytes(data, []) == [] && Clusters(0, bpc) == 0
  {
  }

  lemma OneBlock(data: seq<seq<Byte>>, c: nat)
    requires c < |data|
    ensures Bytes(data, [c]) == data[c]
  {
    assert [c][1..] == [];
  }

  /** A free cluster belongs to no chain. */
  lemma OwnedClusterFacts(f: seq<nat>, chains: map<Name, seq<nat>>, c: nat)
    requires AllLinked(f, chains) && 2 <= c < |f| && f[c] == UNUSED
    ensures forall n :: n in chains ==> c !in chains[n]
  {
    forall n | n in chains ensures c !in chains[n] { FreeNotInChain(f, chains[n], c); }
  }

  lemma OwnerInside(f: seq<nat>, chains: map<Name, seq<nat>>, n: Name)
    requires AllLinked(f, chains) && n in chains
    ensures forall i :: 0 <= i < |chains[n]| ==> chains[n][i] < |f|
  {
  }

  /** The first cluster of an owner that had none. */
  lemma FirstOwned(f: seq<nat>, chains: map<Name, seq<nat>>, name: Name, c: nat)
    requires AllLinked(f, chains) && name in chains && chains[name] == [] && 2 <= c < |f| && f[c] == UNUSED
    ensures AllLinked(f[c := EOC_MARK], chains[name := [c]]) && Free(f[c := EOC_MARK]) == Free(f) - 1
  {
    ExtendedAllLinked(f, chains, name, c);
    ExtendedFree(f, [], c);
    assert [] + [c] == [c];
  }

  /** The checks at the top of FAT_write. */
  predicate CanWrite(entries: map<Name, Entry>, name: Name, offset: nat, buf: seq<Byte>) {
    buf != [] && name in entries && Writable(entries[name]) && offset <= entries[name].size
  }

  /** Nothing to write, no such entry, an entry that is not a file to be written, or a start beyond the end. */
  predicate Refused(entries: map<Name, Entry>, name: Name, offset: nat, buf: seq<Byte>) {
    || |buf| == 0 || name !in entries || offset > entries[name].size
    || ReadOnly in entries[name].attrs || Link in entries[name].attrs
    || Directory in entries[name].attrs || VolumeId in entries[name].attrs
  }

  lemma RefusedIff(entries: map<Name, Entry>, name: Name, offset: nat, buf: seq<Byte>)
    ensures Refused(entries, name, offset, buf) <==> !CanWrite(entries, name, offset, buf)
  {
    if name in entries {
      var bad := {Directory, ReadOnly, Link, VolumeId};
      forall a: Attr | a in bad ensures a in entries[name].attrs ==> a in entries[name].attrs * bad {}
    }
  }

  lemma StartArithmetic(offset: nat, size: nat, bpc: nat)
    requires bpc > 0 && offset <= size
    ensures size <= Clusters(size, bpc) * bpc && offset / bpc <= Clusters(size, bpc)
    ensures offset == offset / bpc * bpc + offset % bpc
  {
    var n, k := Clusters(size, bpc), offset / bpc;
    ClustersBounds(size, bpc);
    if n < k {
      TimesMonotone(n + 1, n + 1, bpc);
      TimesMonotone(n + 1, k, bpc);
    }
  }

  lemma WritableIsPlain(e: Entry)
    requires Writable(e)
    ensures Plain(e)
  {
    assert Directory in e.attrs ==> Directory in e.attrs * {Directory, ReadOnly, Link, VolumeId};
  }

  lemma FirstAfter(before: seq<nat>, after: seq<nat>, code: int, cluster: nat, k: nat, offset: nat, bpc: nat)
    requires bpc > 0 && k == offset / bpc && offset == k * bpc + offset % bpc && before <= after && 0 <= code <= 1 &&
        k < |after| == Max(|before|, k + 1)
    requires cluster == after[k] && (code == 0 <==> k < |before|) && (code == 1 <==> k == |before|)
    ensures First(after) == if code > 0 && offset < bpc then cluster else First(before)
  {
    assert k == 0 ==> k * bpc == 0;
    if offset < bpc { DivIs(offset, bpc, 0); }
  }

  lemma LandedPast(code: int, cluster: nat, k: nat, before: seq<nat>, after: seq<nat>, room: nat)
    requires Landed(code, cluster, k, before, after, room)
    ensures code != 0 ==> k >= |before|
  {
  }

  /** A write that starts with an append starts on a cluster boundary. */
  lemma AlignedAtEnd(offset: nat, k: nat, n: nat, size: nat, bpc: nat)
    requires bpc > 0 && k == offset / bpc && offset <= size <= n * bpc && offset == k * bpc + offset % bpc
    ensures k >= n ==> offset % bpc == 0 && offset == n * bpc
  {
    if k >= n { TimesMonotone(n, k, bpc); }
  }

  /** The block around the chunk, seen from the whole file. */
  lemma ChunkPlaced(v: seq<Byte>, w: seq<Byte>, content: seq<Byte>, offset: nat, buf: seq<Byte>, pos: nat,
                    o: nat, base: nat, block: seq<Byte>, chunk: seq<Byte>, rest: seq<Byte>, bpc: nat, clear: bool)
    requires Written(v, content, offset, buf, pos) && pos == base + o && base + bpc <= |v|
    requires |block| == bpc && v[base..base + bpc] == block && |rest| == bpc - o - |chunk| && o + |chunk| <= bpc
    requires w == v[..base] + (block[..o] + chunk + rest) + v[base + bpc..]
    requires if clear then |content| <= pos else rest == block[o + |chunk|..]
    requires pos - offset + |chunk| <= |buf| && chunk == buf[pos - offset..pos - offset + |chunk|]
    ensures Written(w, content, offset, buf, pos + |chunk|)
  {
    var n := |chunk|;
    forall i | 0 <= i < pos ensures w[i] == v[i] {
      if i >= base { assert v[i] == block[i - base]; }
    }
    forall i | pos <= i < pos + n ensures w[i] == chunk[i - pos] {}
    forall i | pos + n <= i < |content| ensures w[i] == v[i] {
      if i < base + bpc { assert v[i] == block[i - base] && w[i] == rest[i - pos - n]; }
    }
    assert w[..pos] == v[..pos];
    assert w[pos..pos + n] == chunk;
    SpliceStep(content, offset, buf, v, w, pos, n);
  }

  /** The chain is as long as the new size asks for. */
  lemma ClustersAfter(size: nat, pos: nat, bpc: nat, k: nat)
    requires bpc > 0 && k * bpc < pos <= k * bpc + bpc
    ensures Clusters(Max(size, pos), bpc) == Max(Clusters(size, bpc), k + 1)
  {
    var n := Clusters(size, bpc);
    ClustersBounds(size, bpc);
    TimesMonotone(k + 1, k + 1, bpc);
    assert (k + 1) * bpc == k * bpc + bpc;
    if n <= k {
      TimesMonotone(n, k, bpc);
      ClustersExact(pos, bpc, k + 1);
    } else {
      TimesMonotone(k + 1, n, bpc);
      if size < pos {
        if n > k + 1 {
          TimesMonotone(k + 1, n - 1, bpc);
        }
        ClustersExact(pos, bpc, n);
      }
    }
  }

  lemma WrittenGrows(v: seq<Byte>, w: seq<Byte>, content: seq<Byte>, offset: nat, buf: seq<Byte>, pos: nat)
    requires Written(v, content, offset, buf, pos) && v <= w
    ensures Written(w, content, offset, buf, pos)
  {
    assert w[..Max(|content|, pos)] == v[..Max(|content|, pos)];
  }
}
