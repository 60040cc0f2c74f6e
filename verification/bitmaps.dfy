/**
 The bitmaps of include/libs/bitmaps.h: arrays of 32-bit words changed in place. `Flags` is the
 bitmap seen as the sequence of its positions.
 */
module Bitmaps {
  const BINL := 32

  function Mask(k: nat): bv32
    requires k < BINL
  {
    (1 as bv32) << k
  }

  /** Adding a mask to itself moves its bit up. */
  function Twice(m: bv32): bv32 {
    m + m
  }

  /** Words needed for `x` positions. */
  function Words(x: nat): nat {
    (x + BINL - 1) / BINL
  }

  lemma WordsCover(x: nat)
    ensures x <= Words(x) * BINL < x + BINL
  {
  }

  function Common(w: bv32, m: bv32): bv32 {
    w & m
  }

  function With(w: bv32, m: bv32): bv32 {
    w | m
  }

  function Without(w: bv32, m: bv32): bv32 {
    w & !m
  }

  predicate WordBit(w: bv32, k: nat)
    requires k < BINL
  {
    Common(w, Mask(k)) != 0
  }

  function Flags(bits: seq<bv32>): seq<bool> {
    seq(|bits| * BINL, (p: nat) requires p < |bits| * BINL => WordBit(bits[p / BINL], p % BINL))
  }

  // ---------------------------------------------------------------- single words

  lemma ShiftsApart(a: bv32, b: bv32)
    requires a < 32 && b < 32 && a != b
    ensures ((1 as bv32) << a) & ((1 as bv32) << b) == 0
  {
  }

  lemma MaskShift(k: nat) returns (a: bv32)
    requires k < BINL
    ensures a as int == k && a < 32 && Mask(k) == (1 as bv32) << a
  {
    a := k as bv32;
  }

  lemma MasksApart(k: nat, j: nat)
    requires k < BINL && j < BINL && k != j
    ensures Common(Mask(k), Mask(j)) == 0
  {
    hide Mask;
    var a := MaskShift(k);
    var b := MaskShift(j);
    ShiftsApart(a, b);
  }

  lemma NextMask(k: nat)
    requires k < BINL
    ensures Twice(Mask(k)) == if k + 1 < BINL then Mask(k + 1) else 0
    ensures Mask(k) != 0
  {
  }

  lemma CommonWith(w: bv32, m: bv32, n: bv32)
    ensures Common(With(w, m), n) == With(Common(w, n), Common(m, n))
  {
  }

  lemma CommonWithout(w: bv32, m: bv32, n: bv32)
    ensures Common(Without(w, m), n) == Without(Common(w, n), Common(m, n))
  {
  }

  lemma NoBits(m: bv32)
    ensures Common(0, m) == 0 && With(m, 0) == m && Without(m, 0) == m
  {
  }

  lemma OtherBits(w: bv32, m: bv32, n: bv32)
    requires Common(m, n) == 0
    ensures Common(With(w, m), n) == Common(w, n) == Common(Without(w, m), n)
  {
    hide Common, With, Without;
    CommonWith(w, m, n);
    CommonWithout(w, m, n);
    NoBits(Common(w, n));
  }

  lemma OwnBit(w: bv32, m: bv32)
    requires m != 0
    ensures Common(With(w, m), m) != 0 && Common(Without(w, m), m) == 0
  {
  }

  lemma ChangedWord(w: bv32, k: nat, j: nat)
    requires k < BINL && j < BINL
    ensures WordBit(With(w, Mask(k)), j) == (j == k || WordBit(w, j))
    ensures WordBit(Without(w, Mask(k)), j) == (j != k && WordBit(w, j))
  {
    hide Mask, Common, With, Without;
    if j == k {
      NextMask(k);
      OwnBit(w, Mask(k));
    } else {
      MasksApart(k, j);
      OtherBits(w, Mask(k), Mask(j));
    }
  }

  // ---------------------------------------------------------------- whole bitmaps

  /** Changing one bit of one word changes that position and no other. */
  lemma ChangedFlags(bits: seq<bv32>, pos: nat)
    requires pos < |bits| * BINL
    ensures Flags(bits[pos / BINL := With(bits[pos / BINL], Mask(pos % BINL))]) == Flags(bits)[pos := true]
    ensures Flags(bits[pos / BINL := Without(bits[pos / BINL], Mask(pos % BINL))]) == Flags(bits)[pos := false]
  {
    hide Mask, WordBit, Common, With, Without;
    var i, k := pos / BINL, pos % BINL;
    var with, without := bits[i := With(bits[i], Mask(k))], bits[i := Without(bits[i], Mask(k))];
    forall p: nat | p < |bits| * BINL
      ensures Flags(with)[p] == (p == pos || Flags(bits)[p])
      ensures Flags(without)[p] == (p != pos && Flags(bits)[p])
    {
      if p / BINL == i { ChangedWord(bits[i], k, p % BINL); }
    }
    assert Flags(with) == Flags(bits)[pos := true];
    assert Flags(without) == Flags(bits)[pos := false];
  }

  method BitmapSet(bits: array<bv32>, pos: nat)
    requires pos < bits.Length * BINL
    modifies bits
    ensures Flags(bits[..]) == old(Flags(bits[..]))[pos := true]
  {
    hide Mask, Flags, Common, With, Without;
    ChangedFlags(bits[..], pos);
    bits[pos / BINL] := With(bits[pos / BINL], Mask(pos % BINL));
    assert bits[..] == old(bits[..])[pos / BINL := With(old(bits[pos / BINL]), Mask(pos % BINL))];
  }

  method BitmapClear(bits: array<bv32>, pos: nat)
    requires pos < bits.Length * BINL
    modifies bits
    ensures Flags(bits[..]) == old(Flags(bits[..]))[pos := false]
  {
    hide Mask, Flags, Common, With, Without;
    ChangedFlags(bits[..], pos);
    bits[pos / BINL] := Without(bits[pos / BINL], Mask(pos % BINL));
    assert bits[..] == old(bits[..])[pos / BINL := Without(old(bits[pos / BINL]), Mask(pos % BINL))];
  }

  method BitmapIsSet(bits: array<bv32>, pos: nat) returns (set_: bool)
    requires pos < bits.Length * BINL
    ensures set_ == Flags(bits[..])[pos]
  {
    hide Mask, Common;
    set_ := Common(bits[pos / BINL], Mask(pos % BINL)) != 0;
  }

  lemma FlagAt(bits: seq<bv32>, i: nat, k: nat)
    requires i < |bits| && k < BINL
    ensures i * BINL + k < |Flags(bits)| == |bits| * BINL
    ensures Flags(bits)[i * BINL + k] == WordBit(bits[i], k)
  {
    assert (i * BINL + k) / BINL == i && (i * BINL + k) % BINL == k;
  }

  /** The first clear bit of a word, by a mask that doubles until it vanishes. */
  method FirstClearBit(w: bv32) returns (k: nat)
    ensures k <= BINL && (forall b :: 0 <= b < k ==> WordBit(w, b)) && (k < BINL ==> !WordBit(w, k))
  {
    hide Mask, Common, Twice;
    var j: bv32 := 1;
    k := 0;
    FirstMask();
    while j != 0
      invariant 0 <= k <= BINL && j == (if k < BINL then Mask(k) else 0)
      invariant forall b :: 0 <= b < k ==> WordBit(w, b)
      decreases BINL - k
    {
      if Common(w, j) == 0 { return; }
      NextMask(k);
      j := Twice(j);
      k := k + 1;
    }
    if k < BINL { NextMask(k); }
  }

  /** An empty word needs no search. */
  method FirstClearInWord(w: bv32) returns (k: nat)
    ensures k <= BINL && (forall b :: 0 <= b < k ==> WordBit(w, b)) && (k < BINL ==> !WordBit(w, k))
  {
    hide WordBit;
    if w == 0 {
      EmptyWord(w);
      k := 0;
    } else {
      k := FirstClearBit(w);
    }
  }

  lemma EmptyWord(w: bv32)
    requires w == 0
    ensures !WordBit(w, 0)
  {
    hide Mask, Common;
    NoBits(Mask(0));
  }

  /** The first clear position, word by word. */
  method BitmapFirstIsClear(bits: array<bv32>) returns (pos: nat)
    ensures pos <= |Flags(bits[..])| == bits.Length * BINL
    ensures forall p :: 0 <= p < pos ==> Flags(bits[..])[p]
    ensures pos < bits.Length * BINL ==> !Flags(bits[..])[pos]
  {
    hide Mask, Common, WordBit;
    assert |Flags(bits[..])| == bits.Length * BINL;
    hide Flags;
    var i := 0;
    while i < bits.Length
      invariant 0 <= i <= bits.Length
      invariant forall p :: 0 <= p < i * BINL ==> Flags(bits[..])[p]
    {
      var k := FirstClearInWord(bits[i]);
      WordFlags(bits[..], i, k);
      if k < BINL { return i * BINL + k; }
      i := i + 1;
    }
    pos := bits.Length * BINL;
  }

  /** What a word's bits say about the positions it holds. */
  lemma WordFlags(bits: seq<bv32>, i: nat, k: nat)
    requires i < |bits| && k <= BINL && forall b :: 0 <= b < k ==> WordBit(bits[i], b)
    ensures |Flags(bits)| == |bits| * BINL && i * BINL + k <= |Flags(bits)|
    ensures forall p :: i * BINL <= p < i * BINL + k ==> Flags(bits)[p]
    ensures k < BINL ==> Flags(bits)[i * BINL + k] == WordBit(bits[i], k)
  {
    hide WordBit;
    forall p | i * BINL <= p < i * BINL + k ensures Flags(bits)[p] { FlagAt(bits, i, p - i * BINL); }
    if k < BINL { FlagAt(bits, i, k); }
  }

  lemma FirstMask()
    ensures Mask(0) == 1
  {
  }
}
