/**
 The allocation table of the FAT16.1 volume as a value: linked cluster chains, the bytes they hold,
 and the byte splice a file write stands for.
 */
module FatChain {
  type Byte = x: int | 0 <= x < 256

  /** A file or directory by its stored path; the root directory has the empty one. */
  type Name = seq<Byte>

  const EOC := 0xFFF8
  const EOC_MARK := 0xFFFF
  const BAD := 0xFFF7
  const UNUSED := 0

  predicate IsEoc(v: nat) {
    v >= EOC
  }

  /** Neither end of chain, nor bad, nor free: the number of another cluster. */
  predicate IsReadable(v: nat) {
    !(v >= EOC || v == BAD || v == UNUSED)
  }

  // ---------------------------------------------------------------- chains

  ghost predicate Distinct(ch: seq<nat>) {
    forall i, j :: 0 <= i < j < |ch| ==> ch[i] != ch[j]
  }

  /** `ch` lists a chain of the table `f`: in range, acyclic, linked, and closed by an end mark. */
  ghost predicate Linked(f: seq<nat>, ch: seq<nat>) {
    && (forall i :: 0 <= i < |ch| ==> 2 <= ch[i] < |f|)
    && Distinct(ch)
    && (forall i :: 0 <= i < |ch| - 1 ==> f[ch[i]] == ch[i + 1])
    && (ch != [] ==> IsEoc(f[ch[|ch| - 1]]))
  }

  function First(ch: seq<nat>): nat {
    if ch == [] then 0 else ch[0]
  }

  /** The table after one more cluster is linked behind the last one. */
  ghost function Extended(f: seq<nat>, ch: seq<nat>, c: nat): seq<nat>
    requires c < |f| && forall i :: 0 <= i < |ch| ==> ch[i] < |f|
  {
    (if ch == [] then f else f[ch[|ch| - 1] := c])[c := EOC_MARK]
  }

  /** The entry of a chain's cluster: the next cluster, or an end mark at the last one. */
  lemma NextInChain(f: seq<nat>, ch: seq<nat>, i: nat)
    requires Linked(f, ch) && i < |ch| && |f| <= BAD
    ensures if i + 1 < |ch| then f[ch[i]] == ch[i + 1] && IsReadable(f[ch[i]]) else IsEoc(f[ch[i]])
    ensures if i + 1 < |ch| then 2 <= f[ch[i]] < 0xFFF7 else 0xFFF8 <= f[ch[i]]
  {
  }

  /** No cluster of a chain is free. */
  lemma ChainInUse(f: seq<nat>, ch: seq<nat>, i: nat)
    requires Linked(f, ch) && i < |ch|
    ensures f[ch[i]] != UNUSED
  {
    if i + 1 < |ch| { assert f[ch[i]] == ch[i + 1]; }
  }

  lemma FreeNotInChain(f: seq<nat>, ch: seq<nat>, c: nat)
    requires Linked(f, ch) && c < |f| && f[c] == UNUSED
    ensures c !in ch
  {
    if c in ch {
      var i :| 0 <= i < |ch| && ch[i] == c;
      ChainInUse(f, ch, i);
    }
  }

  lemma ExtendedLinked(f: seq<nat>, ch: seq<nat>, c: nat)
    requires Linked(f, ch) && 2 <= c < |f| && f[c] == UNUSED
    ensures Linked(Extended(f, ch, c), ch + [c])
  {
    FreeNotInChain(f, ch, c);
    var g, d := Extended(f, ch, c), ch + [c];
    forall i | 0 <= i < |d| - 1 ensures g[d[i]] == d[i + 1] {
      if i < |ch| - 1 { assert f[ch[i]] == ch[i + 1]; }
    }
  }

  lemma OtherChainUntouched(f: seq<nat>, ch: seq<nat>, c: nat, other: seq<nat>)
    requires Linked(f, ch) && Linked(f, other) && 2 <= c < |f| && f[c] == UNUSED
    requires forall i, j :: 0 <= i < |ch| && 0 <= j < |other| ==> ch[i] != other[j]
    ensures Linked(Extended(f, ch, c), other) && c !in other
  {
    FreeNotInChain(f, other, c);
  }

  /** Free entries from index `i` on. */
  ghost function FreeFrom(f: seq<nat>, i: nat): nat
    decreases |f| - i
  {
    if i >= |f| then 0 else (if f[i] == UNUSED then 1 else 0) + FreeFrom(f, i + 1)
  }

  ghost function Free(f: seq<nat>): nat {
    FreeFrom(f, 2)
  }

  lemma {:induction false} FreeFromUpdate(f: seq<nat>, i: nat, c: nat, v: nat)
    requires c < |f|
    ensures FreeFrom(f[c := v], i) == FreeFrom(f, i)
            - (if i <= c && f[c] == UNUSED then 1 else 0) + (if i <= c && v == UNUSED then 1 else 0)
    decreases |f| - i
  {
    if i < |f| { FreeFromUpdate(f, i + 1, c, v); }
  }

  lemma {:induction false} NoneFree(f: seq<nat>, i: nat)
    ensures FreeFrom(f, i) == 0 <==> forall c :: i <= c < |f| ==> f[c] != UNUSED
    decreases |f| - i
  {
    if i < |f| { NoneFree(f, i + 1); }
  }

  /** One append uses up exactly one free entry. */
  lemma ExtendedFree(f: seq<nat>, ch: seq<nat>, c: nat)
    requires Linked(f, ch) && 2 <= c < |f| && f[c] == UNUSED
    ensures Free(Extended(f, ch, c)) == Free(f) - 1
  {
    var g := f;
    if ch != [] {
      ChainInUse(f, ch, |ch| - 1);
      FreeFromUpdate(f, 2, ch[|ch| - 1], c);
      g := f[ch[|ch| - 1] := c];
    }
    FreeFromUpdate(g, 2, c, EOC_MARK);
  }

  // ---------------------------------------------------------------- all the chains of a volume

  ghost predicate Apart(a: seq<nat>, b: seq<nat>) {
    forall i, j :: 0 <= i < |a| && 0 <= j < |b| ==> a[i] != b[j]
  }

  /** Every owner's chain is sound and no cluster has two owners. */
  ghost predicate AllLinked(f: seq<nat>, chains: map<Name, seq<nat>>) {
    && (forall n :: n in chains ==> Linked(f, chains[n]))
    && (forall m, n :: m in chains && n in chains && m != n ==> Apart(chains[m], chains[n]))
  }

  lemma ExtendedAllLinked(f: seq<nat>, chains: map<Name, seq<nat>>, who: Name, c: nat)
    requires AllLinked(f, chains) && who in chains && 2 <= c < |f| && f[c] == UNUSED
    ensures AllLinked(Extended(f, chains[who], c), chains[who := chains[who] + [c]])
  {
    ExtendedLinked(f, chains[who], c);
    var g := Extended(f, chains[who], c);
    forall n | n in chains && n != who
      ensures Linked(g, chains[n]) && Apart(chains[who] + [c], chains[n]) && Apart(chains[n], chains[who] + [c])
    {
      OtherStaysApart(f, chains[who], c, chains[n]);
    }
    ReplacedAllLinked(f, g, chains, who, chains[who] + [c]);
  }

  lemma ReplacedAllLinked(f: seq<nat>, g: seq<nat>, chains: map<Name, seq<nat>>, who: Name, ch: seq<nat>)
    requires AllLinked(f, chains) && Linked(g, ch)
    requires forall n :: n in chains && n != who ==>
        Linked(g, chains[n]) && Apart(ch, chains[n]) && Apart(chains[n], ch)
    ensures AllLinked(g, chains[who := ch])
  {
    hide Linked, Apart;
  }

  lemma OtherStaysApart(f: seq<nat>, ch: seq<nat>, c: nat, other: seq<nat>)
    requires Linked(f, ch) && Linked(f, other) && Apart(ch, other) && 2 <= c < |f| && f[c] == UNUSED
    ensures Linked(Extended(f, ch, c), other) && Apart(ch + [c], other) && Apart(other, ch + [c])
  {
    OtherChainUntouched(f, ch, c, other);
  }

  // ---------------------------------------------------------------- the bytes of a chain

  /** The clusters of a chain, one after the other. */
  function Bytes(data: seq<seq<Byte>>, ch: seq<nat>): seq<Byte>
    requires forall i :: 0 <= i < |ch| ==> ch[i] < |data|
  {
    if ch == [] then [] else data[ch[0]] + Bytes(data, ch[1..])
  }

  ghost predicate Blocks(data: seq<seq<Byte>>, bpc: nat) {
    forall c :: 0 <= c < |data| ==> |data[c]| == bpc
  }

  ghost predicate Inside(data: seq<seq<Byte>>, ch: seq<nat>) {
    forall i :: 0 <= i < |ch| ==> ch[i] < |data|
  }

  lemma {:induction false} BytesLength(data: seq<seq<Byte>>, ch: seq<nat>, bpc: nat)
    requires Inside(data, ch) && Blocks(data, bpc)
    ensures |Bytes(data, ch)| == |ch| * bpc
  {
    if ch != [] {
      BytesLength(data, ch[1..], bpc);
      assert |ch| * bpc == bpc + (|ch| - 1) * bpc;
    }
  }

  lemma {:induction false} BytesConcat(data: seq<seq<Byte>>, a: seq<nat>, b: seq<nat>)
    requires Inside(data, a) && Inside(data, b)
    ensures Inside(data, a + b) && Bytes(data, a + b) == Bytes(data, a) + Bytes(data, b)
  {
    if a == [] {
      assert a + b == b;
    } else {
      assert (a + b)[1..] == a[1..] + b;
      BytesConcat(data, a[1..], b);
    }
  }

  /** Bytes depend on the chain's own clusters only. */
  lemma {:induction false} BytesSame(data: seq<seq<Byte>>, after: seq<seq<Byte>>, ch: seq<nat>)
    requires |data| == |after| && Inside(data, ch)
    requires forall i :: 0 <= i < |ch| ==> after[ch[i]] == data[ch[i]]
    ensures Bytes(after, ch) == Bytes(data, ch)
  {
    if ch != [] {
      assert after[ch[0]] == data[ch[0]];
      forall i | 0 <= i < |ch[1..]| ensures after[ch[1..][i]] == data[ch[1..][i]] { assert ch[1..][i] == ch[i + 1]; }
      BytesSame(data, after, ch[1..]);
    }
  }

  /** Overwriting the k-th cluster of a chain replaces the k-th block of its bytes. */
  lemma WriteBlock(data: seq<seq<Byte>>, ch: seq<nat>, k: nat, block: seq<Byte>, bpc: nat)
    requires Inside(data, ch) && Blocks(data, bpc) && Distinct(ch) && k < |ch| && |block| == bpc
    ensures var v := Bytes(data, ch);
            && k * bpc + bpc <= |v| == |ch| * bpc
            && v[k * bpc..k * bpc + bpc] == data[ch[k]]
            && Bytes(data[ch[k] := block], ch) == v[..k * bpc] + block + v[k * bpc + bpc..]
  {
    var after := data[ch[k] := block];
    var a, c, b := ch[..k], ch[k], ch[k + 1..];
    assert ch == a + [c] + b;
    BytesAround(data, a, c, b);
    BytesAround(after, a, c, b);
    BytesSame(data, after, a);
    BytesSame(data, after, b);
    BytesLength(data, a, bpc);
    BytesLength(data, ch, bpc);
    SliceAround(Bytes(data, a), data[c], Bytes(data, b));
  }

  lemma BytesAround(data: seq<seq<Byte>>, a: seq<nat>, c: nat, b: seq<nat>)
    requires Inside(data, a) && Inside(data, b) && c < |data|
    ensures Inside(data, a + [c] + b) && Bytes(data, a + [c] + b) == Bytes(data, a) + data[c] + Bytes(data, b)
  {
    BytesConcat(data, a, [c]);
    BytesConcat(data, a + [c], b);
    assert Bytes(data, [c]) == data[c];
  }

  lemma SliceAround(a: seq<Byte>, d: seq<Byte>, b: seq<Byte>)
    ensures var v := a + d + b;
            v[..|a|] == a && v[|a|..|a| + |d|] == d && v[|a| + |d|..] == b
  {
  }

  // ---------------------------------------------------------------- splices

  function Max(a: nat, b: nat): nat {
    if a < b then b else a
  }

  /** Overwriting and, past the end, extending: what a write at `offset` means for the content. */
  function Splice(content: seq<Byte>, offset: nat, piece: seq<Byte>): seq<Byte>
    requires offset <= |content|
  {
    content[..offset] + piece + if offset + |piece| < |content| then content[offset + |piece|..] else []
  }

  /** Byte by byte: the piece from `offset` on and the old content around it. */
  ghost predicate Overwrote(before: seq<Byte>, after: seq<Byte>, offset: nat, piece: seq<Byte>) {
    && offset <= |before|
    && |after| == (if offset + |piece| < |before| then |before| else offset + |piece|)
    && (forall i :: 0 <= i < |piece| ==> after[offset + i] == piece[i])
    && (forall i :: 0 <= i < offset ==> after[i] == before[i])
    && (forall i :: offset + |piece| <= i < |before| ==> after[i] == before[i])
  }

  lemma SpliceOverwrites(content: seq<Byte>, offset: nat, piece: seq<Byte>)
    requires offset <= |content|
    ensures Overwrote(content, Splice(content, offset, piece), offset, piece)
  {
  }

  /** One more chunk of the buffer, written at its place, extends the splice. */
  lemma SpliceStep(content: seq<Byte>, offset: nat, buf: seq<Byte>, v: seq<Byte>, w: seq<Byte>, pos: nat, n: nat)
    requires offset <= |content| && offset <= pos && pos + n - offset <= |buf|
    requires |v| == |w| && pos + n <= |v| && |content| <= |v|
    requires v[..Max(|content|, pos)] == Splice(content, offset, buf[..pos - offset])
    requires w[..pos] == v[..pos] && w[pos..pos + n] == buf[pos - offset..pos - offset + n]
    requires pos + n < |content| ==> w[pos + n..|content|] == v[pos + n..|content|]
    ensures w[..Max(|content|, pos + n)] == Splice(content, offset, buf[..pos + n - offset])
  {
    var before, next := Splice(content, offset, buf[..pos - offset]), Splice(content, offset, buf[..pos + n - offset]);
    var u, x := w[..Max(|content|, pos + n)], v[..Max(|content|, pos)];
    assert |u| == |next|;
    forall i | 0 <= i < |u| ensures u[i] == next[i] {
      if i < pos {
        assert u[i] == w[..pos][i] == v[..pos][i] == x[i] == before[i];
      } else if i < pos + n {
        assert u[i] == w[pos..pos + n][i - pos] == buf[pos - offset..pos - offset + n][i - pos];
      } else {
        assert u[i] == w[pos + n..|content|][i - pos - n] == v[pos + n..|content|][i - pos - n] == x[i] == before[i];
      }
    }
  }

  /** Clusters a file of `size` bytes occupies. */
  function Clusters(size: nat, bpc: nat): nat
    requires bpc > 0
  {
    (size + bpc - 1) / bpc
  }

  lemma ClustersExact(size: nat, bpc: nat, n: nat)
    requires bpc > 0 && size <= n * bpc && (n > 0 ==> (n - 1) * bpc < size)
    ensures Clusters(size, bpc) == n
  {
    if n == 0 {
      assert size == 0;
      DivIs(bpc - 1, bpc, 0);
    } else {
      assert (n - 1) * bpc == n * bpc - bpc;
      DivIs(size + bpc - 1, bpc, n);
    }
  }

  lemma DivIs(a: nat, d: nat, q: nat)
    requires d > 0 && q * d <= a < q * d + d
    ensures a / d == q
  {
    var r := a / d;
    assert r * d <= a < r * d + d;
    if r < q { TimesMonotone(r + 1, q, d); }
    if q < r { TimesMonotone(q + 1, r, d); }
  }

  lemma {:induction false} TimesMonotone(a: nat, b: nat, d: nat)
    requires a <= b
    ensures a * d <= b * d
    ensures a > 0 ==> (a - 1) * d == a * d - d
    decreases b - a
  {
    if a < b {
      TimesMonotone(a + 1, b, d);
      assert (a + 1) * d == a * d + d;
    }
  }

  lemma ClustersBounds(size: nat, bpc: nat)
    requires bpc > 0
    ensures var n := Clusters(size, bpc); size <= n * bpc && (n > 0 ==> (n - 1) * bpc < size)
  {
    var n := Clusters(size, bpc);
    assert n * bpc <= size + bpc - 1 < n * bpc + bpc;
    assert n > 0 ==> (n - 1) * bpc == n * bpc - bpc;
  }
}
