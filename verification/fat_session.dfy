/** Sequences of writes to one file and the read that follows, from a freshly formatted volume on. */
module FatSession {
  import opened FatChain
  import opened FatVolume
  import opened FatRead
  import opened FatFormat
  import opened FatMount
  import opened FatNames
  import opened FatCreate

  datatype Request = Request(offset: nat, buf: seq<Byte>)

  /** Bytes a request gets stored: none past the end, all that fits in `room` otherwise. */
  function Taken(size: nat, r: Request, room: nat): nat {
    if r.offset > size || r.offset > room then 0 else Min(|r.buf|, room - r.offset)
  }

  /** The content after one request. */
  function Next(content: seq<Byte>, r: Request, room: nat): seq<Byte> {
    if r.offset > |content| then content else Splice(content, r.offset, r.buf[..Taken(|content|, r, room)])
  }

  /** The content after all requests, on a volume with room for `room` bytes in this file. */
  function After(content: seq<Byte>, reqs: seq<Request>, room: nat): seq<Byte>
    decreases |reqs|
  {
    if reqs == [] then content else After(Next(content, reqs[0], room), reqs[1..], room)
  }

  /** What each request got stored. */
  ghost predicate Stored(content: seq<Byte>, reqs: seq<Request>, lens: seq<nat>, room: nat) {
    |lens| == |reqs| && forall i :: 0 <= i < |reqs| ==>
        lens[i] == Taken(|After(content, reqs[..i], room)|, reqs[i], room)
  }

  /** What a read returned: as much as there is, and right whenever the guard of `FatRead.ReadsRightIff` holds. */
  ghost predicate Got(content: seq<Byte>, offset: nat, out: seq<Byte>, readlen: nat, bpc: nat) {
    && bpc > 0 && readlen == (if |content| <= offset then 0 else Min(|out|, |content| - offset))
    && (Faithful(offset, readlen, bpc) && readlen > 0 ==> out[..readlen] == content[offset..offset + readlen])
  }

  lemma {:induction false} AfterOneMore(content: seq<Byte>, reqs: seq<Request>, r: Request, room: nat)
    ensures After(content, reqs + [r], room) == Next(After(content, reqs, room), r, room)
    decreases |reqs|
  {
    if reqs == [] {
      assert (reqs + [r])[1..] == [];
    } else {
      assert (reqs + [r])[1..] == reqs[1..] + [r];
      AfterOneMore(Next(content, reqs[0], room), reqs[1..], r, room);
    }
  }

  lemma Opens(vol: Volume, name: Name)
    requires vol.Valid() && name in vol.entries && Writable(vol.entries[name])
    ensures vol.Tables() && |vol.Content(name)| == vol.entries[name].size && Readable(vol.entries[name])
  {
    WritableIsPlain(vol.entries[name]);
    vol.WriteStarts(name, 0, []);
    var a := vol.entries[name].attrs;
    assert Directory in a * {Directory, ReadOnly, Link, VolumeId} <==> Directory in a;
    assert VolumeId in a * {Directory, ReadOnly, Link, VolumeId} <==> VolumeId in a;
  }

  /** Bytes one file can grow to: its own clusters and all the free ones. */
  ghost function RoomFor(vol: Volume, name: Name): nat
    requires name in vol.chains
    reads vol, vol.fat
  {
    vol.Room(vol.chains[name], vol.fat[..])
  }

  /** A write stores what there is room for, and the room for the file stays the same. */
  method WriteOne(vol: Volume, name: Name, r: Request) returns (n: nat)
    requires vol.Valid() && name in vol.entries && Writable(vol.entries[name])
    modifies vol, vol.fat, vol.data
    ensures vol.Valid() && name in vol.entries && Writable(vol.entries[name])
    ensures RoomFor(vol, name) == old(RoomFor(vol, name))
    ensures n == Taken(|old(vol.Content(name))|, r, old(RoomFor(vol, name)))
    ensures vol.Content(name) == Next(old(vol.Content(name)), r, old(RoomFor(vol, name)))
  {
    hide AllLinked, Volume.Tables, Volume.Valid, Volume.Wrote, Splice, Bytes, Free;
    Opens(vol, name);
    ghost var content, chains, data, fat, entries := vol.Content(name), vol.chains, vol.data[..], vol.fat[..],
        vol.entries;
    var ok;
    ok, n := vol.Write(name, r.offset, r.buf);
    if CanWrite(entries, name, r.offset, r.buf) {
      WroteFacts(vol, name, r, ok, n, content, entries, chains, data, fat);
    } else {
      Opens(vol, name);
      if r.offset <= |content| { SpliceNothing(content, r); }
    }
  }

  lemma SpliceNothing(content: seq<Byte>, r: Request)
    requires r.offset <= |content|
    ensures Splice(content, r.offset, r.buf[..0]) == content
  {
  }

  lemma WroteFacts(vol: Volume, name: Name, r: Request, ok: bool, n: nat, content: seq<Byte>,
                   entries: map<Name, Entry>, chains: map<Name, seq<nat>>, data: seq<seq<Byte>>, fat: seq<nat>)
    requires vol.Wrote(name, r.offset, r.buf, ok, n, content, entries, chains, data, fat)
    requires name in entries && Writable(entries[name])
    ensures vol.Tables() && vol.Valid() && name in vol.entries && Writable(vol.entries[name]) && name in vol.chains &&
        name in chains
    ensures RoomFor(vol, name) == vol.Room(chains[name], fat)
    ensures r.offset <= |content| && n == Taken(|content|, r, vol.Room(chains[name], fat))
    ensures vol.Content(name) == Splice(content, r.offset, r.buf[..n])
  {
    hide AllLinked, Free, Splice, Bytes, Volume.Content, Volume.View;
  }

  /** A read of any part of the file. */
  method ReadPart(vol: Volume, name: Name, offset: nat, out: array<Byte>) returns (readlen: nat)
    requires vol.Valid() && name in vol.entries && Writable(vol.entries[name]) && out.Length > 0
    modifies out
    ensures vol.Valid() && Got(vol.Content(name), offset, out[..], readlen, vol.bpc)
  {
    hide Volume.Valid, Volume.Tables, Volume.Content, Volume.View, ReadInto, Faithful;
    Opens(vol, name);
    ReadableIff(vol.entries[name]);
    ghost var before := out[..];
    var ok;
    ok, readlen := Read(vol, name, offset, out);
    if readlen > 0 && Faithful(offset, readlen, vol.bpc) {
      FaithfulReads(before, vol.Content(name), offset, readlen, vol.bpc);
    }
    assert out[..][..readlen] == out[..readlen];
  }

  /** Any number of writes, refused and partial ones included: what each stored and what the file then holds. */
  method WriteAll(vol: Volume, name: Name, reqs: seq<Request>) returns (lens: seq<nat>)
    requires vol.Valid() && name in vol.entries && Writable(vol.entries[name])
    modifies vol, vol.fat, vol.data
    ensures vol.Valid() && name in vol.entries && Writable(vol.entries[name])
    ensures RoomFor(vol, name) == old(RoomFor(vol, name))
    ensures vol.Content(name) == After(old(vol.Content(name)), reqs, old(RoomFor(vol, name)))
    ensures Stored(old(vol.Content(name)), reqs, lens, old(RoomFor(vol, name)))
  {
    hide Volume.Valid, Volume.Tables, Volume.Content, Volume.View, Splice, After, Next, Taken, RoomFor;
    lens := [];
    var i := 0;
    Opens(vol, name);
    ghost var start, room := vol.Content(name), RoomFor(vol, name);
    AfterNone(start, room);
    while i < |reqs|
      invariant 0 <= i <= |reqs| && |lens| == i && vol.Valid() && vol.Tables()
      invariant name in vol.entries && Writable(vol.entries[name]) && name in vol.chains
      invariant RoomFor(vol, name) == room && vol.Content(name) == After(start, reqs[..i], room)
      invariant forall j :: 0 <= j < i ==> lens[j] == Taken(|After(start, reqs[..j], room)|, reqs[j], room)
    {
      var n := WriteOne(vol, name, reqs[i]);
      Opens(vol, name);
      AfterOneMore(start, reqs[..i], reqs[i], room);
      assert reqs[..i] + [reqs[i]] == reqs[..i + 1];
      lens := lens + [n];
      i := i + 1;
    }
    assert reqs[..i] == reqs;
  }

  lemma AfterNone(content: seq<Byte>, room: nat)
    ensures After(content, [], room) == content
  {
  }

  /** A new file is empty and has the room of all free clusters. */
  method CreateVoid(vol: Volume, path: Text)
    requires vol.Valid() && Rooted(vol.entries, vol.chains) && Ordinary(vol.entries, path) &&
        CanCreate(vol.entries, path, {})
    requires DirKey(path) in vol.chains && HasSlot(vol, DirKey(path))
    modifies vol, vol.fat, vol.data
    ensures vol.Valid() && vol.Tables() && Key(path) in vol.entries && Writable(vol.entries[Key(path)])
    ensures vol.Content(Key(path)) == [] && Key(path) in vol.chains
    ensures RoomFor(vol, Key(path)) == BytesBut(old(Free(vol.fat[..])) + 1, vol.bpc)
  {
    MountedBpc(vol);
    hide Volume.Valid, Volume.Tables, Volume.View, Volume.Content, Free, AllLinked, RoomFor, BytesBut, Rooted,
        Ordinary, Located, HasSlot, Padded, Flat, Pieces;
    var ok := Create(vol, path, {}, Blank(vol.bpc));
    VoidFile(vol, Key(path));
  }

  /** A path in the root directory whose name can be stored and is not taken by the volume's label. */
  predicate InRoot(path: Text, volLab: seq<Byte>) {
    |path| >= 2 && path[0] == SEPARATOR && LastPart(path) == 1 && Good(LastName(path)) &&
        Padded(LastName(path)) != LabelName(volLab)
  }

  lemma InRootIsGood(path: Text, volLab: seq<Byte>)
    requires InRoot(path, volLab)
    ensures Good(LastName(path))
  {
  }

  /** The stored path of a name in the root directory. */
  function RootKey(path: Text): Name
    requires Good(LastName(path))
  {
    Padded(LastName(path))
  }

  /** Such a path is created on a volume that holds the label entry alone. */
  lemma FreshCanCreate(vol: Volume, path: Text, volLab: seq<Byte>)
    requires InRoot(path, volLab) && vol.bpc >= 512
    requires vol.chains == map[[] := [ROOT], LabelName(volLab) := []] &&
        vol.entries == map[LabelName(volLab) := Entry(0, 0, {VolumeId})]
    ensures Rooted(vol.entries, vol.chains) && Ordinary(vol.entries, path) && CanCreate(vol.entries, path, {})
    ensures DirKey(path) == [] && Key(path) == RootKey(path) && HasSlot(vol, DirKey(path))
  {
    PiecesLast([]);
    assert Container(path) == [];
    assert [] + Padded(LastName(path)) == Padded(LastName(path));
    OneSlot(vol.entries, LabelName(volLab));
  }

  lemma OneSlot(entries: map<Name, Entry>, only: Name)
    requires entries.Keys == {only}
    ensures SlotsUsed(entries, []) <= 1
  {
    var root: Name := [];
    var used := set n | n in entries && |n| == |root| + DIR_NAMELEN && n[..|root|] == root;
    assert used <= {only};
    AtMost(used, only);
  }

  lemma AtMost(s: set<Name>, only: Name)
    requires s <= {only}
    ensures |s| <= 1
  {
    if only in s { assert s == {only}; } else { assert s == {}; }
  }

  /** A new file on a freshly formatted disk. */
  method MountAndCreate(disk: seq<Block>, start: nat, end: nat, data: seq<seq<Byte>>, path: Text,
      ghost before: seq<Block>)
    returns (vol: Volume)
    requires Mountable(disk, start, end, data, before) && InRoot(path, disk[start].pb.volLab)
    ensures fresh(vol) && fresh(vol.fat) && fresh(vol.data) && vol.Valid() && RootKey(path) in vol.entries
    ensures Writable(vol.entries[RootKey(path)])
    ensures vol.Tables() && vol.Content(RootKey(path)) == [] && RootKey(path) in vol.chains
    ensures RoomFor(vol, RootKey(path)) == FreshRoom(disk[start].pb)
  {
    hide *;
    FreshRoomIs(disk, start, end, data, before);
    InRootIsGood(path, disk[start].pb.volLab);
    vol := MountFresh(disk, start, end, data, before);
    FreshCanCreate(vol, path, disk[start].pb.volLab);
    CreateVoid(vol, path);
  }

  /**
   From a freshly formatted disk on: mount, create a file, write to it any number of times and read a
   part of it. The volume's clusters but the root directory's are the room the file has.
   */
  method FreshFile(disk: seq<Block>, start: nat, end: nat, data: seq<seq<Byte>>, path: Text, reqs: seq<Request>,
                   offset: nat, out: array<Byte>, ghost before: seq<Block>)
    returns (vol: Volume, lens: seq<nat>, readlen: nat)
    requires Mountable(disk, start, end, data, before) && InRoot(path, disk[start].pb.volLab) && out.Length > 0
    modifies out
    ensures fresh(vol) && vol.Valid() && RootKey(path) in vol.entries
    ensures vol.Content(RootKey(path)) == After([], reqs, FreshRoom(disk[start].pb))
    ensures Stored([], reqs, lens, FreshRoom(disk[start].pb))
    ensures Got(vol.Content(RootKey(path)), offset, out[..], readlen, vol.bpc)
  {
    hide *;
    FreshRoomIs(disk, start, end, data, before);
    InRootIsGood(path, disk[start].pb.volLab);
    vol := MountAndCreate(disk, start, end, data, path, before);
    lens := WriteAll(vol, RootKey(path), reqs);
    readlen := ReadPart(vol, RootKey(path), offset, out);
  }

  /** Bytes in all clusters but the root directory's. */
  function FreshRoom(pb: ParameterBlock): nat {
    if pb.spc > 0 then BytesBut(Mounted(pb).clusters, 512 * pb.spc) else 0
  }

  /** Bytes of all clusters but one. */
  function BytesBut(clusters: nat, bpc: nat): nat {
    if clusters > 0 then (clusters - 1) * bpc else 0
  }

  lemma FreshRoomIs(disk: seq<Block>, start: nat, end: nat, data: seq<seq<Byte>>, before: seq<Block>)
    requires Mountable(disk, start, end, data, before)
    ensures start < |disk| && disk[start].Boot? && disk[start].pb.spc > 0 && 512 * disk[start].pb.spc >= 512 &&
        Mounted(disk[start].pb).clusters >= 1
    ensures FreshRoom(disk[start].pb) == BytesBut(Mounted(disk[start].pb).clusters, 512 * disk[start].pb.spc)
  {
    hide Applied, Writes, FatSz;
    GeometryIff(disk[start].pb);
  }

  function Blank(n: nat): seq<Byte> {
    seq(n, i => 0)
  }

  lemma MountedBpc(vol: Volume)
    requires vol.Valid()
    ensures vol.bpc > 0 && vol.entries.Keys <= vol.chains.Keys
  {
  }

  /** A file just created is empty, and the free clusters are all its room. */
  lemma VoidFile(vol: Volume, name: Name)
    requires vol.Valid() && name in vol.entries && name in vol.chains
    requires vol.entries[name] == Entry(vol.entries[name].first, 0, {}) && vol.chains[name] == []
    ensures vol.Tables() && vol.Content(name) == [] && Writable(vol.entries[name])
    ensures RoomFor(vol, name) == BytesBut(Free(vol.fat[..]) + 1, vol.bpc)
  {
  }
}
