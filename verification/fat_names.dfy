/**
 Path names of fat/fat_names.c: splitting at backslashes and building the padded upper-case names of
 directory entries.
 */
module FatNames {
  import opened FatChain

  type Text = seq<Byte>

  const DIR_NAMELEN := 39
  const SEPARATOR: Byte := 0x5C
  const SPACE: Byte := 0x20

  /** The characters `check` refuses; characters are signed, so bytes from 0x80 on are below 0x20. */
  predicate Forbidden(b: Byte) {
    || b < 0x20 || b >= 0x80 || b == 0x22 || 0x2A <= b <= 0x2C || b == 0x2F
    || 0x3A <= b <= 0x3F || 0x5B <= b <= 0x5D || b == 0x7C
  }

  function Upper(b: Byte): Byte {
    if 0x61 <= b <= 0x7A then b - 0x20 else b
  }

  predicate Good(name: Text) {
    |name| <= DIR_NAMELEN && forall i :: 0 <= i < |name| ==> !Forbidden(name[i])
  }

  /** The stored form of a name: upper case, filled up with spaces. */
  function Padded(name: Text): Text
    requires |name| <= DIR_NAMELEN
  {
    seq(DIR_NAMELEN, i requires 0 <= i < DIR_NAMELEN => if i < |name| then Upper(name[i]) else SPACE)
  }

  // ---------------------------------------------------------------- fields and pieces

  predicate Unsplit(s: Text) {
    forall i :: 0 <= i < |s| ==> s[i] != SEPARATOR
  }

  /** Position of the first separator, or the length. */
  function Cut(s: Text): (i: nat)
    ensures i <= |s| && Unsplit(s[..i]) && (i < |s| ==> s[i] == SEPARATOR)
  {
    if s == [] || s[0] == SEPARATOR then 0
    else
      var i := 1 + Cut(s[1..]);
      assert s[..i] == [s[0]] + s[1..][..i - 1];
      i
  }

  /** The text between separators, empty stretches included. */
  function Fields(s: Text): seq<Text>
    decreases |s|
  {
    var i := Cut(s);
    if i == |s| then [s] else [s[..i]] + Fields(s[i + 1..])
  }

  function Join(fields: seq<Text>): Text {
    if |fields| == 0 then [] else if |fields| == 1 then fields[0] else fields[0] + [SEPARATOR] + Join(fields[1..])
  }

  ghost predicate AllUnsplit(fields: seq<Text>) {
    forall i :: 0 <= i < |fields| ==> Unsplit(fields[i])
  }

  lemma {:induction false} CutAt(p: Text, t: Text)
    requires Unsplit(p)
    ensures Cut(p + [SEPARATOR] + t) == |p| && Cut(p) == |p|
  {
    if p != [] {
      assert (p + [SEPARATOR] + t)[1..] == p[1..] + [SEPARATOR] + t;
      CutAt(p[1..], t);
    }
  }

  /** The fields put together again give the text, and no field holds a separator. */
  lemma {:induction false} FieldsJoin(s: Text)
    ensures Join(Fields(s)) == s && AllUnsplit(Fields(s)) && |Fields(s)| > 0
    decreases |s|
  {
    var i := Cut(s);
    if i == |s| {
      assert s[..i] == s;
    } else {
      hide Unsplit, Join, Cut;
      FieldsJoin(s[i + 1..]);
      JoinMore(s[..i], Fields(s[i + 1..]));
      assert s == s[..i] + [SEPARATOR] + s[i + 1..];
    }
  }

  lemma JoinMore(field: Text, rest: seq<Text>)
    requires |rest| > 0
    ensures Join([field] + rest) == field + [SEPARATOR] + Join(rest)
  {
    assert ([field] + rest)[1..] == rest;
  }

  /** There is only one way to cut a text into fields. */
  lemma {:induction false} JoinFields(fields: seq<Text>)
    requires |fields| > 0 && AllUnsplit(fields)
    ensures Fields(Join(fields)) == fields
  {
    if |fields| == 1 {
      CutAt(fields[0], []);
    } else {
      var s, rest := Join(fields), Join(fields[1..]);
      CutAt(fields[0], rest);
      assert s[..|fields[0]|] == fields[0] && s[|fields[0]| + 1..] == rest;
      JoinFields(fields[1..]);
    }
  }

  function NonEmpty(fields: seq<Text>): seq<Text> {
    if fields == [] then [] else (if fields[0] == [] then [] else [fields[0]]) + NonEmpty(fields[1..])
  }

  /** The maximal separator-free stretches of a path, in order. */
  function Pieces(s: Text): seq<Text> {
    NonEmpty(Fields(s))
  }

  lemma PiecesSkip(t: Text)
    ensures Pieces([SEPARATOR] + t) == Pieces(t)
  {
    CutAt([], t);
    assert [] + [SEPARATOR] + t == [SEPARATOR] + t;
    assert ([SEPARATOR] + t)[1..] == t;
    assert Fields([SEPARATOR] + t) == [[]] + Fields(t);
  }

  lemma PiecesTake(p: Text, t: Text)
    requires Unsplit(p) && p != []
    ensures Pieces(p + [SEPARATOR] + t) == [p] + Pieces(t)
  {
    var s := p + [SEPARATOR] + t;
    CutAt(p, t);
    assert s[..|p|] == p && s[|p| + 1..] == t;
    assert Fields(s) == [p] + Fields(t);
  }

  lemma PiecesLast(p: Text)
    requires Unsplit(p)
    ensures Pieces(p) == if p == [] then [] else [p]
  {
    CutAt(p, []);
    assert Fields(p) == [p];
    assert NonEmpty(Fields(p)[1..]) == [];
  }

  lemma {:induction false} NonEmptyAll(fields: seq<Text>)
    requires forall i :: 0 <= i < |fields| ==> fields[i] != []
    ensures NonEmpty(fields) == fields
  {
    if fields != [] { NonEmptyAll(fields[1..]); }
  }

  lemma {:induction false} NonEmptyUnsplit(fields: seq<Text>)
    requires AllUnsplit(fields)
    ensures AllUnsplit(NonEmpty(fields)) && forall i :: 0 <= i < |NonEmpty(fields)| ==> NonEmpty(fields)[i] != []
  {
    if fields != [] { NonEmptyUnsplit(fields[1..]); }
  }

  /** No piece is empty or holds a separator. */
  lemma PiecesShape(s: Text)
    ensures AllUnsplit(Pieces(s)) && forall i :: 0 <= i < |Pieces(s)| ==> Pieces(s)[i] != []
  {
    FieldsJoin(s);
    NonEmptyUnsplit(Fields(s));
  }

  // ---------------------------------------------------------------- round trip

  predicate AllGood(pieces: seq<Text>) {
    forall i :: 0 <= i < |pieces| ==> Good(pieces[i])
  }

  function Names(pieces: seq<Text>): seq<Text>
    requires AllGood(pieces)
  {
    seq(|pieces|, i requires 0 <= i < |pieces| => Padded(pieces[i]))
  }

  lemma UpperFacts(b: Byte)
    requires !Forbidden(b)
    ensures !Forbidden(Upper(b)) && Upper(Upper(b)) == Upper(b) && Upper(b) != SEPARATOR
  {
  }

  /** A stored name is a good name without separators, and storing it again changes nothing. */
  lemma PaddedFacts(name: Text)
    requires Good(name)
    ensures Good(Padded(name)) && Unsplit(Padded(name)) && Padded(Padded(name)) == Padded(name) &&
        |Padded(name)| == DIR_NAMELEN
  {
    hide Forbidden, Upper;
    forall i | 0 <= i < DIR_NAMELEN
      ensures !Forbidden(Padded(name)[i]) && Upper(Padded(name)[i]) == Padded(name)[i] && Padded(name)[i] != SEPARATOR
    {
      if i < |name| { UpperFacts(name[i]); } else { SpaceFacts(); }
    }
  }

  lemma SpaceFacts()
    ensures !Forbidden(SPACE) && Upper(SPACE) == SPACE
  {
  }

  /** Joining the stored names with separators and parsing again gives the same names. */
  lemma RoundTrip(path: Text)
    requires AllGood(Pieces(path))
    ensures var names := Names(Pieces(path));
      Pieces(Join(names)) == names && AllGood(names) && Names(names) == names
  {
    hide Fields, NonEmpty, Padded, Good, Unsplit, Join;
    var names := Names(Pieces(path));
    forall i | 0 <= i < |names|
      ensures |names[i]| == DIR_NAMELEN && Good(names[i]) && Unsplit(names[i]) && Padded(names[i]) == names[i]
    {
      PaddedFacts(Pieces(path)[i]);
    }
    if names == [] {
      JoinNone();
    } else {
      JoinFields(names);
      NonEmptyAll(names);
    }
  }

  lemma JoinNone()
    ensures Pieces(Join([])) == []
  {
    PiecesLast([]);
  }

  // ---------------------------------------------------------------- characters, told in numbers

  /** The characters a name may hold. */
  predicate Permitted(b: Byte) {
    b in {0x20, 0x21, 0x2D, 0x2E} || 0x23 <= b <= 0x29 || 0x30 <= b <= 0x39 || 0x40 <= b <= 0x5A
    || 0x5E <= b <= 0x7B || 0x7D <= b <= 0x7F
  }

  /** At most 39 permitted characters. */
  predicate Storable(name: Text) {
    |name| <= 39 && forall i :: 0 <= i < |name| ==> Permitted(name[i])
  }

  lemma GoodIsStorable(name: Text)
    ensures Good(name) <==> Storable(name)
  {
    forall i | 0 <= i < |name| ensures Forbidden(name[i]) <==> !Permitted(name[i]) { ForbiddenIff(name[i]); }
  }

  lemma ForbiddenIff(b: Byte)
    ensures Forbidden(b) <==> !Permitted(b)
  {
  }

  /** 39 bytes: small letters as capitals, everything else as it was, then spaces. */
  ghost predicate StoredAs(entry: Text, name: Text) {
    && |entry| == 39
    && forall i :: 0 <= i < 39 ==>
        entry[i] == if i >= |name| then 0x20 else if 0x61 <= name[i] <= 0x7A then name[i] - 0x20 else name[i]
  }

  lemma PaddedStores(name: Text)
    requires |name| <= DIR_NAMELEN
    ensures StoredAs(Padded(name), name)
  {
  }

  /** The same letter, a capital on one side only at most. */
  predicate SameLetter(a: Byte, b: Byte) {
    a == b || (0x41 <= a <= 0x5A && b == a + 0x20) || (0x41 <= b <= 0x5A && a == b + 0x20)
  }

  predicate SameButCase(p: Text, q: Text) {
    |p| == |q| && forall i :: 0 <= i < |p| ==> SameLetter(p[i], q[i])
  }

  lemma CaseStored(p: Text, q: Text)
    requires SameButCase(p, q)
    ensures Good(p) <==> Good(q)
    ensures |p| <= DIR_NAMELEN ==> Padded(p) == Padded(q)
  {
    forall i | 0 <= i < |p| ensures Forbidden(p[i]) <==> Forbidden(q[i]) && Upper(p[i]) == Upper(q[i]) {
      LetterFacts(p[i], q[i]);
    }
    hide Forbidden, Upper;
    if |p| <= DIR_NAMELEN {
      forall i | 0 <= i < DIR_NAMELEN ensures Padded(p)[i] == Padded(q)[i] {
        if i < |p| { LetterFacts(p[i], q[i]); }
      }
    }
  }

  lemma LetterFacts(a: Byte, b: Byte)
    requires SameLetter(a, b)
    ensures (Forbidden(a) <==> Forbidden(b)) && Upper(a) == Upper(b) && (a == SEPARATOR <==> b == SEPARATOR)
  {
  }

  ghost predicate AllSameButCase(ps: seq<Text>, qs: seq<Text>) {
    |ps| == |qs| && forall k :: 0 <= k < |ps| ==> SameButCase(ps[k], qs[k])
  }

  lemma {:induction false} CaseCut(p: Text, q: Text)
    requires SameButCase(p, q)
    ensures Cut(p) == Cut(q)
  {
    if p != [] {
      LetterFacts(p[0], q[0]);
      CaseCut(p[1..], q[1..]);
    }
  }

  lemma {:induction false} CaseFields(p: Text, q: Text)
    requires SameButCase(p, q)
    ensures AllSameButCase(Fields(p), Fields(q))
    decreases |p|
  {
    CaseCut(p, q);
    var i := Cut(p);
    hide SameLetter, Cut;
    if i < |p| {
      CaseFields(p[i + 1..], q[i + 1..]);
      assert SameButCase(p[..i], q[..i]);
    }
  }

  lemma {:induction false} CaseNonEmpty(ps: seq<Text>, qs: seq<Text>)
    requires AllSameButCase(ps, qs)
    ensures AllSameButCase(NonEmpty(ps), NonEmpty(qs))
  {
    if ps != [] {
      assert SameButCase(ps[0], qs[0]);
      hide SameButCase;
      assert |ps[0]| == |qs[0]| by { CaseLength(ps[0], qs[0]); }
      CaseNonEmpty(ps[1..], qs[1..]);
    }
  }

  lemma CaseLength(p: Text, q: Text)
    requires SameButCase(p, q)
    ensures |p| == |q|
  {
  }

  /** Letter case does not matter: such paths are refused together, or name the same entries. */
  lemma CaseInsensitive(p: Text, q: Text)
    requires SameButCase(p, q)
    ensures AllGood(Pieces(p)) <==> AllGood(Pieces(q))
    ensures AllGood(Pieces(p)) ==> Names(Pieces(p)) == Names(Pieces(q))
  {
    CaseFields(p, q);
    CaseNonEmpty(Fields(p), Fields(q));
    var ps, qs := Pieces(p), Pieces(q);
    hide Pieces, Fields, NonEmpty, Good, Padded, SameButCase;
    forall k | 0 <= k < |ps|
      ensures Good(ps[k]) <==> Good(qs[k])
      ensures Good(ps[k]) && |ps[k]| <= DIR_NAMELEN && |qs[k]| <= DIR_NAMELEN ==> Padded(ps[k]) == Padded(qs[k]) {
      CaseStored(ps[k], qs[k]);
    }
    if AllGood(ps) {
      forall k | 0 <= k < |ps| ensures |ps[k]| <= DIR_NAMELEN && |qs[k]| <= DIR_NAMELEN {
        GoodIsShort(ps[k]);
        GoodIsShort(qs[k]);
      }
    }
  }

  lemma GoodIsShort(name: Text)
    ensures Good(name) ==> |name| <= DIR_NAMELEN
  {
  }

  // ---------------------------------------------------------------- the loops

  method PadSpaces(output: array<Byte>, a: nat, b: nat)
    requires a <= b <= output.Length
    modifies output
    ensures forall j :: a <= j < b ==> output[j] == SPACE
    ensures forall j :: 0 <= j < output.Length && !(a <= j < b) ==> output[j] == old(output[j])
  {
    var pos := a;
    while pos < b
      invariant a <= pos <= b
      invariant forall j :: a <= j < pos ==> output[j] == SPACE
      invariant forall j :: 0 <= j < output.Length && !(a <= j < pos) ==> output[j] == old(output[j])
    {
      output[pos] := SPACE;
      pos := pos + 1;
    }
  }

  /** `FAT_build_DIR_name`, into the 39 bytes of `output` from `at` on. */
  method BuildDirName(name: Text, output: array<Byte>, at: nat) returns (ok: bool)
    requires at + DIR_NAMELEN <= output.Length
    modifies output
    ensures ok <==> Good(name)
    ensures ok <==> Storable(name)
    ensures ok ==> output[..] == old(output[..at]) + Padded(name) + old(output[at + DIR_NAMELEN..])
    ensures ok ==> StoredAs(output[at..at + DIR_NAMELEN], name)
    ensures !ok && |name| <= 39 ==> output[at] == 0
    ensures |name| > 39 ==> output[..] == old(output[..])
    ensures forall j :: 0 <= j < output.Length && !(at <= j < at + DIR_NAMELEN) ==> output[j] == old(output[j])
  {
    GoodIsStorable(name);
    if |name| <= DIR_NAMELEN { PaddedStores(name); }
    hide Forbidden, Upper, Permitted, Storable, StoredAs;
    if |name| > DIR_NAMELEN { return false; }
    var pos := 0;
    while pos < |name|
      invariant 0 <= pos <= |name|
      invariant forall j :: 0 <= j < pos ==> !Forbidden(name[j])
      invariant forall j :: at <= j < at + pos ==> output[j] == Upper(name[j - at])
      invariant forall j :: 0 <= j < output.Length && !(at <= j < at + DIR_NAMELEN) ==> output[j] == old(output[j])
    {
      if Forbidden(name[pos]) {
        output[at] := 0;
        return false;
      }
      output[at + pos] := Upper(name[pos]);
      pos := pos + 1;
    }
    PadSpaces(output, at + pos, at + DIR_NAMELEN);
    assert output[at..at + DIR_NAMELEN] == Padded(name);
    assert output[..] == output[..at] + output[at..at + DIR_NAMELEN] + output[at + DIR_NAMELEN..];
    ok := true;
  }

  /** The stored names one after the other. */
  function Flat(pieces: seq<Text>): Text
    requires AllGood(pieces)
  {
    if pieces == [] then [] else Flat(pieces[..|pieces| - 1]) + Padded(pieces[|pieces| - 1])
  }

  lemma {:induction false} FlatAt(pieces: seq<Text>, k: nat)
    requires AllGood(pieces) && k < |pieces|
    ensures |Flat(pieces)| == |pieces| * 39 && Flat(pieces)[k * 39..k * 39 + 39] == Padded(pieces[k])
  {
    var n := |pieces| - 1;
    assert Good(pieces[n]);
    FlatLength(pieces[..n]);
    if k < n {
      FlatAt(pieces[..n], k);
      assert Flat(pieces)[..n * 39] == Flat(pieces[..n]);
    }
  }

  lemma {:induction false} FlatLength(pieces: seq<Text>)
    requires AllGood(pieces)
    ensures |Flat(pieces)| == |pieces| * 39
  {
    if pieces != [] { FlatLength(pieces[..|pieces| - 1]); }
  }

  /** A table of names: its entries, one after the other, are the stored forms of the pieces. */
  ghost predicate AllStored(table: Text, pieces: seq<Text>) {
    |table| == |pieces| * 39
    && forall k :: 0 <= k < |pieces| ==> StoredAs(table[k * 39..k * 39 + 39], pieces[k])
  }

  predicate AllStorable(pieces: seq<Text>) {
    forall k :: 0 <= k < |pieces| ==> Storable(pieces[k])
  }

  lemma FlatStores(pieces: seq<Text>)
    ensures AllGood(pieces) <==> AllStorable(pieces)
    ensures AllGood(pieces) ==> AllStored(Flat(pieces), pieces)
  {
    hide Good, Storable, StoredAs, Flat, Padded;
    forall k | 0 <= k < |pieces| ensures Good(pieces[k]) <==> Storable(pieces[k]) { GoodIsStorable(pieces[k]); }
    if AllGood(pieces) {
      FlatLength(pieces);
      forall k | 0 <= k < |pieces| ensures StoredAs(Flat(pieces)[k * 39..k * 39 + 39], pieces[k]) {
        FlatAt(pieces, k);
        GoodIsShort(pieces[k]);
        PaddedStores(pieces[k]);
      }
    }
  }

  lemma FlatNone()
    ensures Flat([]) == []
  {
  }

  /** One more name built behind those already there, in a buffer that grows by eight names when it is full. */
  method AddName(piece: Text, buf: array<Byte>, num: nat, max: nat, ghost done: seq<Text>)
    returns (ok: bool, grown: array<Byte>, room: nat)
    requires AllGood(done) && |done| == num < max && buf.Length == max * DIR_NAMELEN && num * DIR_NAMELEN <= buf.Length
    requires buf[..num * DIR_NAMELEN] == Flat(done)
    modifies buf
    ensures ok <==> Good(piece)
    ensures grown == buf || fresh(grown)
    ensures ok ==> num + 1 < room && grown.Length == room * DIR_NAMELEN && (num + 1) * DIR_NAMELEN <= grown.Length
    ensures ok ==> grown[..(num + 1) * DIR_NAMELEN] == Flat(done + [piece])
  {
    hide Padded, Forbidden;
    var at, next := num * DIR_NAMELEN, (num + 1) * DIR_NAMELEN;
    grown, room := buf, max;
    ghost var front := buf[..at];
    ok := BuildDirName(piece, buf, at);
    if !ok { return; }
    assert (done + [piece])[..num] == done;
    assert buf[..next] == front + Padded(piece);
    if num + 1 == max {
      room := max + 8;
      grown := new Byte[room * DIR_NAMELEN](i requires 0 <= i < room * DIR_NAMELEN reads buf => if i < buf.Length then
          buf[i] else 0);
      assert grown[..next] == buf[..next];
    }
  }

  /** What is left of a path from `pos` on; one past the end after the last piece. */
  function Rest(dir: Text, pos: nat): Text {
    if pos <= |dir| then dir[pos..] else []
  }

  method SkipSeparators(dir: Text, start: nat) returns (pos: nat)
    requires start < |dir|
    ensures start <= pos <= |dir| && Pieces(dir[start..]) == Pieces(dir[pos..])
    ensures pos < |dir| ==> dir[pos] != SEPARATOR
  {
    hide Pieces;
    pos := start;
    while pos < |dir| && dir[pos] == SEPARATOR
      invariant start <= pos <= |dir| && Pieces(dir[start..]) == Pieces(dir[pos..])
    {
      PiecesSkip(dir[pos + 1..]);
      assert dir[pos..] == [SEPARATOR] + dir[pos + 1..];
      pos := pos + 1;
    }
  }

  /** The end of the piece that starts at `start`. */
  method PieceEnd(dir: Text, start: nat) returns (end: nat)
    requires start < |dir| && dir[start] != SEPARATOR
    ensures start < end <= |dir| && Pieces(dir[start..]) == [dir[start..end]] + Pieces(Rest(dir, end + 1))
  {
    hide Pieces;
    end := start + 1;
    while end < |dir| && dir[end] != SEPARATOR
      invariant start < end <= |dir| && forall j :: start <= j < end ==> dir[j] != SEPARATOR
    {
      end := end + 1;
    }
    ghost var p := dir[start..end];
    if end == |dir| {
      assert dir[start..] == p && Rest(dir, end + 1) == [];
      PiecesLast(p);
      PiecesLast([]);
    } else {
      PiecesTake(p, dir[end + 1..]);
      assert dir[start..] == p + [SEPARATOR] + dir[end + 1..];
    }
  }

  lemma NoneBad()
    ensures AllGood([])
  {
  }

  lemma OneMore(pieces: seq<Text>, done: seq<Text>, piece: Text)
    requires AllGood(done)
    ensures Good(piece) ==> AllGood(done + [piece])
    ensures !Good(piece) && piece in pieces ==> !AllGood(pieces)
  {
  }

  /** `FAT_parse_directory`: the stored names of the pieces in order, or nothing when one is too long or has a
   forbidden character. */
  method ParseDirectory(dir: Text) returns (ok: bool, splits: array?<Byte>, num: nat)
    ensures ok <==> AllGood(Pieces(dir))
    ensures ok <==> AllStorable(Pieces(dir))
    ensures ok ==> splits != null && num == |Pieces(dir)| && num * DIR_NAMELEN <= splits.Length
    ensures ok ==> splits[..num * DIR_NAMELEN] == Flat(Pieces(dir))
    ensures ok ==> AllStored(splits[..num * DIR_NAMELEN], Pieces(dir))
    ensures !ok ==> splits == null && num == 0
  {
    NoneBad();
    hide Pieces, Good, Flat, AllStored, AllStorable, AllGood;
    FlatStores(Pieces(dir));
    FlatNone();
    var max := 8;
    var buf := new Byte[max * DIR_NAMELEN](i => 0);
    num := 0;
    var start := 0;
    ghost var done: seq<Text> := [];
    while start < |dir|
      invariant 0 <= start && AllGood(done) && Pieces(dir) == done + Pieces(Rest(dir, start))
      invariant |done| == num < max && buf.Length == max * DIR_NAMELEN && num * DIR_NAMELEN <= buf.Length
      invariant buf[..num * DIR_NAMELEN] == Flat(done) && fresh(buf)
      decreases |dir| - start
    {
      start := SkipSeparators(dir, start);
      if start == |dir| { break; }
      var end := PieceEnd(dir, start);
      var piece := dir[start..end];
      ghost var pieces := Pieces(dir);
      assert pieces == done + ([piece] + Pieces(Rest(dir, end + 1)));
      assert pieces[num] == piece;
      OneMore(pieces, done, piece);
      ok, buf, max := AddName(piece, buf, num, max, done);
      if !ok { return false, null, 0; }
      done := done + [piece];
      num := num + 1;
      start := end + 1;
    }
    PiecesLast([]);
    assert Rest(dir, start) == [] && done + [] == done;
    ok, splits := true, buf;
  }

  /** Where the part behind the last separator starts. */
  function LastPart(path: Text): (i: nat)
    ensures i <= |path| && (i > 0 ==> path[i - 1] == SEPARATOR) && Unsplit(path[i..])
  {
    if path == [] || path[|path| - 1] == SEPARATOR then |path|
    else
      var i := LastPart(path[..|path| - 1]);
      assert path[i..] == path[..|path| - 1][i..] + [path[|path| - 1]];
      i
  }

  /** `FAT_parse_directory_last`: the last separator of a path, or its start when there is none. */
  method ParseDirectoryLast(path: Text) returns (pos: nat)
    requires path != []
    ensures pos == if LastPart(path) > 0 then LastPart(path) - 1 else 0
  {
    pos := |path| - 1;
    while path[pos] != SEPARATOR
      invariant 0 <= pos < |path| && Unsplit(path[pos + 1..])
      decreases pos
    {
      if pos == 0 { break; }
      assert path[pos..] == [path[pos]] + path[pos + 1..];
      pos := pos - 1;
    }
    if path[pos] == SEPARATOR {
      LastPartIs(path, pos + 1);
    } else {
      assert path[0..] == [path[0]] + path[1..];
      LastPartIs(path, 0);
    }
  }

  lemma {:induction false} LastPartIs(path: Text, i: nat)
    requires i <= |path| && (i > 0 ==> path[i - 1] == SEPARATOR) && Unsplit(path[i..])
    ensures LastPart(path) == i
  {
    if i < |path| {
      var shorter := path[..|path| - 1];
      assert path[i..][|path| - 1 - i] == path[|path| - 1];
      assert forall k :: 0 <= k < |shorter| - i ==> shorter[i..][k] == path[i..][k];
      LastPartIs(shorter, i);
    }
  }
}
