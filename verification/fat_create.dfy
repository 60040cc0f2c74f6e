/**
 Creating files and directories by path, as FAT_create_entry does: the containing directory is looked up,
 the name must be new, and the directory must have a slot left.
 */
module FatCreate {
  import opened FatChain
  import opened FatVolume
  import opened FatNames

  const ENTRY_BYTES := 64
  const DOT: Byte := 0x2E
  const ROOT_CLUSTER := 2

  /** The path of the containing directory, empty for the root. */
  function Container(path: Text): Text
    requires path != [] && path[0] == SEPARATOR
  {
    LastPartBehind(path);
    path[..LastPart(path) - 1]
  }

  lemma LastPartBehind(path: Text)
    requires path != [] && path[0] == SEPARATOR
    ensures LastPart(path) > 0
  {
    assert path[0..][0] == SEPARATOR;
  }

  function LastName(path: Text): Text {
    path[LastPart(path)..]
  }

  /** Every directory on the way is there and is one, and the last piece is there. */
  predicate Found(entries: map<Name, Entry>, pieces: seq<Text>)
    requires AllGood(pieces)
  {
    && Flat(pieces) in entries
    && forall k :: 0 < k < |pieces| ==> Flat(pieces[..k]) in entries && Directory in entries[Flat(pieces[..k])].attrs
  }

  /** The containing directory is the root or is found. */
  predicate Located(entries: map<Name, Entry>, path: Text)
    requires path != [] && path[0] == SEPARATOR
  {
    var dir := Container(path);
    dir == [] || (AllGood(Pieces(dir)) && Found(entries, Pieces(dir)))
  }

  /** The stored path of the containing directory. */
  function DirKey(path: Text): Name
    requires path != [] && path[0] == SEPARATOR && AllGood(Pieces(Container(path)))
  {
    Flat(Pieces(Container(path)))
  }

  /** The form of path and attributes that is accepted. */
  predicate Nameable(path: Text, attrs: set<Attr>) {
    && |path| >= 2 && path[0] == SEPARATOR && Link !in attrs && !({Directory, VolumeId} <= attrs)
    && Good(LastName(path))
  }

  /** All the checks that do not look at the table. */
  predicate CanCreate(entries: map<Name, Entry>, path: Text, attrs: set<Attr>) {
    && Nameable(path, attrs) && AllGood(Pieces(Container(path))) && Located(entries, path)
    && DirKey(path) + Padded(LastName(path)) !in entries
  }

  function Key(path: Text): Name
    requires path != [] && path[0] == SEPARATOR && AllGood(Pieces(Container(path))) && Good(LastName(path))
  {
    DirKey(path) + Padded(LastName(path))
  }

  /** Slots in use in a directory: one per entry in it, and two for the dot entries of any but the root. */
  function SlotsUsed(entries: map<Name, Entry>, dir: Name): nat {
    |set n | n in entries && |n| == |dir| + DIR_NAMELEN && n[..|dir|] == dir| + if dir == [] then 0 else 2
  }

  /** A root directory with clusters is there, and every directory has clusters. */
  ghost predicate Rooted(entries: map<Name, Entry>, chains: map<Name, seq<nat>>) {
    && [] in chains && chains[[]] != [] && First(chains[[]]) == ROOT_CLUSTER && [] !in entries
    && entries.Keys <= chains.Keys <= entries.Keys + {[]}
    && forall n :: n in entries && Directory in entries[n].attrs ==> chains[n] != []
  }

  ghost predicate HasSlot(vol: Volume, dir: Name)
    requires dir in vol.chains
    reads vol
  {
    SlotsUsed(vol.entries, dir) < |vol.chains[dir]| * (vol.bpc / ENTRY_BYTES)
  }

  predicate Dots(piece: Text) {
    Good(piece) && (Padded(piece) == Padded([DOT]) || Padded(piece) == Padded([DOT, DOT]))
  }

  /**
   A path on which the code's search is well defined: its containing directory is not spelt with separators
   only, is not the name of a plain file, and the path does not go through dot entries.
   */
  predicate Ordinary(entries: map<Name, Entry>, path: Text) {
    path != [] && path[0] == SEPARATOR && Container(path) != [] ==>
      var pieces := Pieces(Container(path));
      && pieces != [] && !Dots(LastName(path)) && (forall i :: 0 < i < |pieces| ==> !Dots(pieces[i]))
      && (AllGood(pieces) && Flat(pieces) in entries ==> Directory in entries[Flat(pieces)].attrs)
  }

  /** Clusters of a directory, by the walk along its chain. */
  method ChainLength(vol: Volume, first: nat, ghost ch: seq<nat>) returns (n: nat)
    requires vol.size == vol.fat.Length && 2 < vol.size <= BAD && Linked(vol.fat[..], ch) && ch != [] && first == ch[0]
    ensures n == |ch|
  {
    var cluster := first;
    n := 0;
    while !IsEoc(cluster)
      invariant n <= |ch| && if n < |ch| then cluster == ch[n] else IsEoc(cluster)
      decreases |ch| - n
    {
      NextInChain(vol.fat[..], ch, n);
      cluster := vol.GetCluster(cluster);
      n := n + 1;
    }
  }

  /** A void file or a directory under a new name; everything else stays. */
  ghost predicate Created(vol: Volume, name: Name, attrs: set<Attr>, dots: seq<Byte>, entries0: map<Name, Entry>,
                          chains0: map<Name, seq<nat>>, free0: nat)
    reads vol, vol.fat, vol.data
  {
    && vol.Valid() && name in vol.entries && name in vol.chains
    && vol.entries == entries0[name := Entry(vol.entries[name].first, 0, attrs)]
    && vol.chains == chains0[name := vol.chains[name]] && |vol.chains[name]| == (if Directory in attrs then 1 else 0)
    && Free(vol.fat[..]) == free0 - |vol.chains[name]| && vol.View(name) == if Directory in attrs then dots else []
  }

  /** Putting a new owner in place. */
  method Place(vol: Volume, name: Name, attrs: set<Attr>, dots: seq<Byte>) returns (ok: bool)
    requires vol.Valid() && name !in vol.chains && |dots| == vol.bpc
    modifies vol, vol.fat, vol.data
    ensures vol.Valid() && ok == (Directory in attrs ==> old(Free(vol.fat[..])) > 0)
    ensures ok ==> Created(vol, name, attrs, dots, old(vol.entries), old(vol.chains), old(Free(vol.fat[..])))
    ensures !ok ==> vol.entries == old(vol.entries) && vol.chains == old(vol.chains)
    ensures !ok ==> vol.fat[..] == old(vol.fat[..]) && vol.data[..] == old(vol.data[..])
    ensures forall n :: n in old(vol.chains) ==> n in vol.chains && vol.View(n) == old(vol.View(n))
  {
    hide Volume.Tables, Volume.Valid, Volume.View, Free;
    if Directory in attrs {
      ok := vol.CreateDirectory(name, attrs, dots);
    } else {
      vol.CreateFile(name, attrs);
      ok := true;
    }
  }

  /** The directory found by a path is one, and its entry leads to its chain. */
  lemma DirectoryIsThere(vol: Volume, path: Text, attrs: set<Attr>)
    requires vol.Valid() && Rooted(vol.entries, vol.chains) && CanCreate(vol.entries, path, attrs) &&
        Ordinary(vol.entries, path)
    ensures vol.size == vol.fat.Length && 2 < vol.size <= BAD
    ensures var dir := DirKey(path);
      && dir in vol.chains && vol.chains[dir] != [] && Linked(vol.fat[..], vol.chains[dir]) &&
          (dir != [] ==> dir in vol.entries)
      && (if dir == [] then ROOT_CLUSTER else vol.entries[dir].first) == vol.chains[dir][0]
  {
    hide Padded, SlotsUsed, Dots, Linked;
    PiecesLast([]);
    var dir := DirKey(path);
    if dir != [] {
      assert Container(path) != [];
      assert Matches(vol.entries, vol.chains, vol.bpc, dir);
    }
  }

  /** The new stored path belongs to nobody. */
  lemma NewName(vol: Volume, path: Text, attrs: set<Attr>)
    requires Rooted(vol.entries, vol.chains) && CanCreate(vol.entries, path, attrs)
    ensures Key(path) !in vol.chains
  {
    assert |Key(path)| >= DIR_NAMELEN;
  }

  lemma StaysRooted(vol: Volume, name: Name, attrs: set<Attr>, dots: seq<Byte>, entries0: map<Name, Entry>,
                    chains0: map<Name, seq<nat>>, free0: nat)
    requires Rooted(entries0, chains0) && name !in chains0 && Created(vol, name, attrs, dots, entries0, chains0, free0)
    ensures Rooted(vol.entries, vol.chains)
  {
  }

  /**
   FAT_create_entry: made exactly when path and attributes are acceptable, the containing directory exists
   and has a slot, the name is new, and, for a directory, a cluster is free. `dots` is what the new
   directory's cluster starts with.
   */
  method Create(vol: Volume, path: Text, attrs: set<Attr>, dots: seq<Byte>) returns (ok: bool)
    requires vol.Valid() && Rooted(vol.entries, vol.chains) && Ordinary(vol.entries, path) && |dots| == vol.bpc
    modifies vol, vol.fat, vol.data
    ensures vol.Valid() && Rooted(vol.entries, vol.chains)
    ensures ok <==> CanCreate(old(vol.entries), path, attrs)
                    && DirKey(path) in old(vol.chains) && old(HasSlot(vol, DirKey(path)))
                    && (Directory in attrs ==> old(Free(vol.fat[..])) > 0)
    ensures ok ==> |path| >= 2 && path[0] == 0x5C && Storable(LastName(path))
    ensures ok ==> Link !in attrs && (Directory !in attrs || VolumeId !in attrs)
    ensures ok ==> AllStorable(Pieces(Container(path))) && Key(path) !in old(vol.entries)
    ensures ok && Container(path) != [] ==> DirKey(path) in old(vol.entries)
    ensures ok ==> Created(vol, Key(path), attrs, dots, old(vol.entries), old(vol.chains), old(Free(vol.fat[..])))
    ensures !ok ==> vol.entries == old(vol.entries) && vol.chains == old(vol.chains)
    ensures !ok ==> vol.fat[..] == old(vol.fat[..]) && vol.data[..] == old(vol.data[..])
    ensures forall n :: n in old(vol.chains) ==> n in vol.chains && vol.View(n) == old(vol.View(n))
  {
    hide Volume.Tables, Volume.Valid, Volume.View, Free, Found, SlotsUsed, Dots, Padded, Flat, Pieces, AllLinked;
    ok := false;
    if !CanCreate(vol.entries, path, attrs) { return; }
    var dir, name := DirKey(path), Key(path);
    GoodIsStorable(LastName(path));
    FlatStores(Pieces(Container(path)));
    hide AllStored, AllStorable, Storable;
    DirectoryIsThere(vol, path, attrs);
    var first := if dir == [] then ROOT_CLUSTER else vol.entries[dir].first;
    var clusters := ChainLength(vol, first, vol.chains[dir]);
    if SlotsUsed(vol.entries, dir) >= clusters * (vol.bpc / ENTRY_BYTES) { return; }
    NewName(vol, path, attrs);
    ghost var entries, chains := vol.entries, vol.chains;
    ok := Place(vol, name, attrs, dots);
    if ok { StaysRooted(vol, name, attrs, dots, entries, chains, old(Free(vol.fat[..]))); }
  }
}
