/**
 What insertion and extraction do to the in-order list of nodes: the tree refines a sorted list.
 */
module RbOrder {
  import opened RbTree

  function Inorder(t: Tree): seq<RbNode> {
    if t.Nil? then [] else Inorder(t.left) + [t.node] + Inorder(t.right)
  }

  ghost predicate Sorted(s: seq<RbNode>) {
    forall i, j :: 0 <= i < j < |s| ==> s[i].key < s[j].key
  }

  ghost predicate Has(s: seq<RbNode>, key: int) {
    exists i :: 0 <= i < |s| && s[i].key == key
  }

  // The list operations the tree stands for.

  function ListInsert(s: seq<RbNode>, n: RbNode): seq<RbNode> {
    if s == [] then [n]
    else if s[0].key < n.key then [s[0]] + ListInsert(s[1..], n)
    else [n] + s
  }

  function ListRemove(s: seq<RbNode>, key: int): seq<RbNode> {
    if s == [] then []
    else if s[0].key == key then s[1..]
    else [s[0]] + ListRemove(s[1..], key)
  }

  function ListFind(s: seq<RbNode>, key: int): Option<RbNode> {
    if s == [] then None
    else if s[0].key == key then Some(s[0])
    else ListFind(s[1..], key)
  }

  // ---------------------------------------------------------------- list facts

  ghost predicate AllBelow(s: seq<RbNode>, key: int) {
    forall i :: 0 <= i < |s| ==> s[i].key < key
  }

  ghost predicate AllAbove(s: seq<RbNode>, key: int) {
    forall i :: 0 <= i < |s| ==> key < s[i].key
  }

  lemma {:induction false} ListInsertLeft(a: seq<RbNode>, x: RbNode, b: seq<RbNode>, n: RbNode)
    requires n.key < x.key
    ensures ListInsert(a + [x] + b, n) == ListInsert(a, n) + [x] + b
  {
    if a == [] {
      assert a + [x] + b == [x] + b;
    } else {
      assert (a + [x] + b)[1..] == a[1..] + [x] + b;
      ListInsertLeft(a[1..], x, b, n);
    }
  }

  lemma {:induction false} ListInsertRight(a: seq<RbNode>, b: seq<RbNode>, n: RbNode)
    requires AllBelow(a, n.key)
    ensures ListInsert(a + b, n) == a + ListInsert(b, n)
  {
    if a == [] {
      assert a + b == b;
    } else {
      assert (a + b)[1..] == a[1..] + b;
      ListInsertRight(a[1..], b, n);
    }
  }

  lemma {:induction false} ListRemoveLeft(a: seq<RbNode>, b: seq<RbNode>, key: int)
    requires AllAbove(b, key)
    ensures ListRemove(a + b, key) == ListRemove(a, key) + b
    ensures ListFind(a + b, key) == ListFind(a, key)
  {
    if a == [] {
      assert a + b == b;
      Absent(b, key);
    } else {
      assert (a + b)[1..] == a[1..] + b;
      ListRemoveLeft(a[1..], b, key);
    }
  }

  lemma {:induction false} ListRemoveRight(a: seq<RbNode>, b: seq<RbNode>, key: int)
    requires AllBelow(a, key)
    ensures ListRemove(a + b, key) == a + ListRemove(b, key)
    ensures ListFind(a + b, key) == ListFind(b, key)
  {
    if a == [] {
      assert a + b == b;
    } else {
      assert (a + b)[1..] == a[1..] + b;
      ListRemoveRight(a[1..], b, key);
    }
  }

  lemma {:induction false} Absent(s: seq<RbNode>, key: int)
    requires !Has(s, key)
    ensures ListRemove(s, key) == s && ListFind(s, key) == None
  {
    if s != [] {
      assert s[0].key != key;
      forall i | 0 <= i < |s[1..]| ensures s[1..][i].key != key { assert s[i + 1].key != key; }
      Absent(s[1..], key);
    }
  }

  /** Removing at a known index, and what the list functions mean there. */
  lemma {:induction false} RemoveAt(s: seq<RbNode>, i: nat)
    requires Sorted(s) && i < |s|
    ensures ListRemove(s, s[i].key) == s[..i] + s[i + 1..] && ListFind(s, s[i].key) == Some(s[i])
  {
    assert s == s[..i] + s[i..];
    ListRemoveRight(s[..i], s[i..], s[i].key);
  }

  /** The place where a new key goes. */
  lemma {:induction false} ListInsertAt(s: seq<RbNode>, n: RbNode) returns (i: nat)
    requires Sorted(s) && !Has(s, n.key)
    ensures i <= |s| && AllBelow(s[..i], n.key) && AllAbove(s[i..], n.key)
    ensures ListInsert(s, n) == s[..i] + [n] + s[i..]
  {
    i := 0;
    while i < |s| && s[i].key < n.key
      invariant i <= |s| && AllBelow(s[..i], n.key)
    {
      i := i + 1;
    }
    if i < |s| { assert s[i].key != n.key; }
    assert s == s[..i] + s[i..];
    ListInsertRight(s[..i], s[i..], n);
  }

  lemma InsertKeepsSorted(s: seq<RbNode>, n: RbNode)
    requires Sorted(s) && !Has(s, n.key)
    ensures Sorted(ListInsert(s, n))
    ensures multiset(ListInsert(s, n)) == multiset(s) + multiset{n}
  {
    var i := ListInsertAt(s, n);
    assert s == s[..i] + s[i..];
    var r := ListInsert(s, n);
    forall j, k | 0 <= j < k < |r| ensures r[j].key < r[k].key {
      if j == i { assert r[k] == s[i..][k - i - 1]; }
      else if k == i { assert r[j] == s[..i][j]; }
    }
  }

  // ---------------------------------------------------------------- rebalancing keeps the list

  lemma RotateInorder(t: Tree, right: bool)
    requires t.Bin? && Child(t, !right).Bin?
    ensures Inorder(Rotate(t, right)) == Inorder(t)
  {
    var s := Child(t, !right);
    if right {
      assert Inorder(t) == Inorder(s.left) + [s.node] + (Inorder(s.right) + [t.node] + Inorder(t.right));
    } else {
      assert Inorder(t) == (Inorder(t.left) + [t.node] + Inorder(s.left)) + [s.node] + Inorder(s.right);
    }
  }

  lemma DoubleRotateInorder(t: Tree, right: bool)
    requires t.Bin? && Child(t, !right).Bin? && Child(Child(t, !right), right).Bin?
    ensures Inorder(DoubleRotate(t, right)) == Inorder(t)
  {
    RotateInorder(Child(t, !right), !right);
    RotateInorder(WithChild(t, !right, Rotate(Child(t, !right), !right)), right);
  }

  lemma InsertBalanceInorder(t: Tree, dir: bool)
    requires t.Bin?
    ensures Inorder(InsertBalance(t, dir)) == Inorder(t)
  {
    var c := Child(t, dir);
    if Red(c) && !Red(Child(t, !dir)) {
      if Red(Child(c, dir)) { RotateInorder(t, !dir); }
      else if Red(Child(c, !dir)) { DoubleRotateInorder(t, !dir); }
    }
  }

  lemma ExtractAbsorbInorder(p: Tree, dir: bool, red: bool)
    requires p.Bin?
    ensures Inorder(ExtractAbsorb(p, dir, red).0) == Inorder(p)
  {
    var s := Child(p, !dir);
    if s.Bin? && (Red(s.left) || Red(s.right)) {
      if Red(Child(s, !dir)) { RotateInorder(p, dir); } else { DoubleRotateInorder(p, dir); }
    }
  }

  lemma ExtractBalanceInorder(t: Tree, dir: bool)
    requires t.Bin?
    ensures Inorder(ExtractBalance(t, dir).0) == Inorder(t)
  {
    if Red(Child(t, !dir)) {
      RotateInorder(t, dir);
      ExtractAbsorbInorder(Child(Rotate(t, dir), dir), dir, true);
    } else {
      ExtractAbsorbInorder(t, dir, t.red);
    }
  }

  // ---------------------------------------------------------------- insertion

  lemma SortedParts(t: Tree)
    requires t.Bin? && Sorted(Inorder(t))
    ensures Sorted(Inorder(t.left)) && Sorted(Inorder(t.right))
    ensures AllBelow(Inorder(t.left), t.node.key) && AllAbove(Inorder(t.right), t.node.key)
  {
    SortedAround(Inorder(t.left), t.node, Inorder(t.right));
  }

  lemma HasSplit(t: Tree, key: int)
    requires t.Bin? && Sorted(Inorder(t))
    ensures Has(Inorder(t), key) <==> key == t.node.key || Has(Inorder(Child(t, t.node.key < key)), key)
  {
    SortedParts(t);
    var l, r, s := Inorder(t.left), Inorder(t.right), Inorder(t);
    if key == t.node.key { assert s[|l|].key == key; }
    if i :| 0 <= i < |l| && l[i].key == key { assert s[i].key == key; }
    if i :| 0 <= i < |r| && r[i].key == key { assert s[|l| + 1 + i].key == key; }
    if i :| 0 <= i < |s| && s[i].key == key {
      if i < |l| { assert l[i].key == key; }
      else if i > |l| { assert r[i - |l| - 1].key == key; }
    }
  }

  lemma {:induction false} InsertRecInorder(t: Tree, n: RbNode)
    requires Sorted(Inorder(t))
    ensures InsertRec(t, n).1 <==> Has(Inorder(t), n.key)
    ensures Inorder(InsertRec(t, n).0) ==
            if Has(Inorder(t), n.key) then Inorder(t) else ListInsert(Inorder(t), n)
  {
    if t.Bin? {
      SortedParts(t);
      HasSplit(t, n.key);
      if t.node.key != n.key {
        var dir := t.node.key < n.key;
        var (c, dup) := InsertRec(Child(t, dir), n);
        InsertRecInorder(Child(t, dir), n);
        InsertBalanceInorder(WithChild(t, dir, c), dir);
        if dir {
          ListInsertRight(Inorder(t.left) + [t.node], Inorder(t.right), n);
        } else {
          ListInsertLeft(Inorder(t.left), t.node, Inorder(t.right), n);
        }
      }
    }
  }

  /** Insertion refines insertion into a sorted list and fails exactly on a key already present. */
  lemma InsertRefinesList(t: Tree, n: RbNode)
    requires Sorted(Inorder(t))
    ensures Insert(t, n).1 <==> !Has(Inorder(t), n.key)
    ensures Inorder(Insert(t, n).0) ==
            if Has(Inorder(t), n.key) then Inorder(t) else ListInsert(Inorder(t), n)
    ensures Sorted(Inorder(Insert(t, n).0))
  {
    InsertRecInorder(t, n);
    if !Has(Inorder(t), n.key) { InsertKeepsSorted(Inorder(t), n); }
  }

  // ---------------------------------------------------------------- extraction

  lemma {:induction false} LastIsLast(t: Tree)
    requires t.Bin?
    ensures |Inorder(t)| > 0 && Last(t) == Inorder(t)[|Inorder(t)| - 1]
  {
    if t.right.Bin? { LastIsLast(t.right); }
  }

  lemma RemoveAround(l: seq<RbNode>, x: RbNode, r: seq<RbNode>, key: int)
    requires AllBelow(l, x.key) && AllAbove(r, x.key)
    ensures ListRemove(l + [x] + r, key) ==
            if key < x.key then ListRemove(l, key) + [x] + r
            else if key == x.key then l + r
            else l + [x] + ListRemove(r, key)
    ensures ListFind(l + [x] + r, key) ==
            if key < x.key then ListFind(l, key)
            else if key == x.key then Some(x)
            else ListFind(r, key)
  {
    assert l + [x] + r == l + ([x] + r);
    if key < x.key {
      ListRemoveLeft(l, [x] + r, key);
    } else if key == x.key {
      ListRemoveRight(l, [x] + r, key);
      assert ([x] + r)[1..] == r;
    } else {
      ListRemoveRight(l + [x], r, key);
    }
  }

  /** Taking the last element out of a sorted list. */
  lemma RemoveLast(s: seq<RbNode>)
    requires Sorted(s) && s != []
    ensures s == ListRemove(s, s[|s| - 1].key) + [s[|s| - 1]]
  {
    RemoveAt(s, |s| - 1);
  }

  lemma {:induction false} ExtractRecInorder(t: Tree, key: int)
    requires Sorted(Inorder(t))
    ensures Inorder(ExtractRec(t, key).0) == ListRemove(Inorder(t), key)
    ensures ExtractRec(t, key).2 == ListFind(Inorder(t), key)
  {
    if t.Bin? {
      SortedParts(t);
      RemoveAround(Inorder(t.left), t.node, Inorder(t.right), key);
      if t.node.key != key {
        ExtractRecInorder(Child(t, t.node.key < key), key);
        var (c, done, _) := ExtractRec(Child(t, t.node.key < key), key);
        if !done { ExtractBalanceInorder(WithChild(t, t.node.key < key, c), t.node.key < key); }
      } else if t.left.Bin? && t.right.Bin? {
        var heir := Last(t.left);
        LastIsLast(t.left);
        RemoveLast(Inorder(t.left));
        ExtractRecInorder(t.left, heir.key);
        var (c, done, _) := ExtractRec(t.left, heir.key);
        if !done { ExtractBalanceInorder(t.(left := c, node := heir), false); }
      }
    }
  }

  lemma ListFindMeaning(s: seq<RbNode>, key: int) returns (i: nat)
    requires Sorted(s)
    ensures Has(s, key) <==> ListFind(s, key).Some?
    ensures Has(s, key) ==> i < |s| && s[i].key == key && ListFind(s, key) == Some(s[i])
    ensures Has(s, key) ==> ListRemove(s, key) == s[..i] + s[i + 1..]
    ensures !Has(s, key) ==> ListRemove(s, key) == s
  {
    i := 0;
    if Has(s, key) {
      i :| 0 <= i < |s| && s[i].key == key;
      RemoveAt(s, i);
    } else {
      Absent(s, key);
    }
  }

  lemma SortedWithout(s: seq<RbNode>, i: nat)
    requires Sorted(s) && i < |s|
    ensures Sorted(s[..i] + s[i + 1..]) && !Has(s[..i] + s[i + 1..], s[i].key)
  {
    var r := s[..i] + s[i + 1..];
    forall j, k | 0 <= j < k < |r| ensures r[j].key < r[k].key {
      var jj, kk := if j < i then j else j + 1, if k < i then k else k + 1;
      assert r[j] == s[jj] && r[k] == s[kk];
    }
    forall j | 0 <= j < |r| ensures r[j].key != s[i].key {
      var jj := if j < i then j else j + 1;
      assert r[j] == s[jj];
    }
  }

  lemma ListRemoveKeepsSorted(s: seq<RbNode>, key: int)
    requires Sorted(s)
    ensures Sorted(ListRemove(s, key)) && !Has(ListRemove(s, key), key)
  {
    var i := ListFindMeaning(s, key);
    if Has(s, key) { SortedWithout(s, i); }
  }

  /** Around a position of a sorted list. */
  lemma SortedAround(a: seq<RbNode>, x: RbNode, b: seq<RbNode>)
    requires Sorted(a + [x] + b)
    ensures AllBelow(a, x.key) && AllAbove(b, x.key) && Sorted(a) && Sorted(b)
  {
    var s := a + [x] + b;
    assert s[|a|] == x;
    forall i | 0 <= i < |a| ensures a[i].key < x.key { assert a[i] == s[i]; }
    forall i | 0 <= i < |b| ensures x.key < b[i].key { assert b[i] == s[|a| + 1 + i]; }
    forall i, j | 0 <= i < j < |a| ensures a[i].key < a[j].key { assert a[i] == s[i] && a[j] == s[j]; }
    forall i, j | 0 <= i < j < |b| ensures b[i].key < b[j].key {
      assert b[i] == s[|a| + 1 + i] && b[j] == s[|a| + 1 + j];
    }
  }

  /** Extraction takes out exactly the node of that key, and nothing when there is none. */
  lemma ExtractRefinesList(t: Tree, key: int)
    requires Sorted(Inorder(t))
    ensures Inorder(Extract(t, key).0) == ListRemove(Inorder(t), key)
    ensures Extract(t, key).1 == ListFind(Inorder(t), key)
    ensures Extract(t, key).1.Some? <==> Has(Inorder(t), key)
    ensures Sorted(Inorder(Extract(t, key).0))
  {
    ExtractRecInorder(t, key);
    ListRemoveKeepsSorted(Inorder(t), key);
    var _ := ListFindMeaning(Inorder(t), key);
  }
}
