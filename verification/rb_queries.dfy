/**
 The searches over the linked tree: exact search, in-order neighbours (also of absent keys) and
 range enumeration, each proved against the sorted list of nodes.
 */
module RbQueries {
  import opened RbTree
  import opened RbOrder
  import opened RbHeap

  // ---------------------------------------------------------------- the list side

  /** How many leading keys of the list are below `key`. */
  ghost function Rank(s: seq<RbNode>, key: int): (r: nat)
    ensures r <= |s|
  {
    if s == [] || s[0].key >= key then 0 else 1 + Rank(s[1..], key)
  }

  ghost function LastOf(s: seq<RbNode>): RbNode? {
    if s == [] then null else s[|s| - 1]
  }

  ghost function FirstOf(s: seq<RbNode>): RbNode? {
    if s == [] then null else s[0]
  }

  /** The closest node strictly below, and strictly above, a key that need not be present. */
  ghost function Below(s: seq<RbNode>, key: int): RbNode? {
    LastOf(s[..Rank(s, key)])
  }

  ghost function Above(s: seq<RbNode>, key: int): RbNode? {
    FirstOf(s[Rank(s, key + 1)..])
  }

  ghost function InRange(s: seq<RbNode>, low: int, high: int): seq<RbNode> {
    var i, j := Rank(s, low), Rank(s, high + 1);
    if i <= j then s[i..j] else []
  }

  lemma {:induction false} RankSplit(a: seq<RbNode>, b: seq<RbNode>, key: int)
    requires AllBelow(a, key) && (b == [] || b[0].key >= key)
    ensures Rank(a + b, key) == |a|
  {
    if a == [] {
      assert a + b == b;
    } else {
      assert (a + b)[1..] == a[1..] + b;
      RankSplit(a[1..], b, key);
    }
  }

  /** In a sorted list the rank separates the keys below from the others. */
  lemma {:induction false} RankMeaning(s: seq<RbNode>, key: int)
    requires Sorted(s)
    ensures forall i :: 0 <= i < |s| ==> (i < Rank(s, key) <==> s[i].key < key)
  {
    if s != [] && s[0].key < key {
      RankMeaning(s[1..], key);
      forall i | 0 < i < |s| ensures i < Rank(s, key) <==> s[i].key < key {
        assert s[i] == s[1..][i - 1];
      }
    }
  }

  /** `Below` is the greatest smaller node, `Above` the least greater one, null when there is none. */
  lemma NeighbourMeaning(s: seq<RbNode>, key: int)
    requires Sorted(s)
    ensures var n := Below(s, key);
            if n == null then forall i :: 0 <= i < |s| ==> s[i].key >= key
            else n in s && n.key < key && forall i :: 0 <= i < |s| && s[i].key < key ==> s[i].key <= n.key
    ensures var n := Above(s, key);
            if n == null then forall i :: 0 <= i < |s| ==> s[i].key <= key
            else n in s && n.key > key && forall i :: 0 <= i < |s| && s[i].key > key ==> s[i].key >= n.key
  {
    RankMeaning(s, key);
    RankMeaning(s, key + 1);
  }

  /** `InRange` holds exactly the nodes with keys between the bounds, in order. */
  lemma RangeMeaning(s: seq<RbNode>, low: int, high: int)
    requires Sorted(s)
    ensures Sorted(InRange(s, low, high))
    ensures forall i :: 0 <= i < |s| ==> (s[i] in InRange(s, low, high) <==> low <= s[i].key <= high)
    ensures forall n :: n in InRange(s, low, high) ==> n in s
  {
    RankMeaning(s, low);
    RankMeaning(s, high + 1);
    var i, j := Rank(s, low), Rank(s, high + 1);
    forall k | 0 <= k < |s| && low <= s[k].key <= high ensures s[k] in InRange(s, low, high) {
      assert s[i..j][k - i] == s[k];
    }
  }

  lemma {:induction false} RankAt(s: seq<RbNode>, m: nat)
    requires Sorted(s) && m < |s|
    ensures Rank(s, s[m].key) == m && Rank(s, s[m].key + 1) == m + 1
  {
    if m > 0 {
      assert s[0].key < s[m].key;
      RankAt(s[1..], m - 1);
    } else if |s| > 1 {
      assert s[0].key < s[1].key;
    }
  }

  // ---------------------------------------------------------------- the loops

  /** Where the descent for `key` ends: the list splits around the subtree it stopped at. */
  ghost predicate Stopped(s: seq<RbNode>, key: int, u: Tree, pre: seq<RbNode>, post: seq<RbNode>) {
    && s == pre + Inorder(u) + post && AllBelow(pre, key) && AllAbove(post, key)
  }

  method FindCommon(root: RbNode?, key: int, ghost t: Tree)
    returns (p: RbNode?, lower: RbNode?, higher: RbNode?, ghost u: Tree, ghost pre: seq<RbNode>,
        ghost post: seq<RbNode>)
    requires Spells(root, t) && Sorted(Inorder(t))
    ensures Spells(p, u) && (p != null ==> p.key == key)
    ensures Stopped(Inorder(t), key, u, pre, post) && lower == LastOf(pre) && higher == FirstOf(post)
  {
    p, lower, higher, u, pre, post := root, null, null, t, [], [];
    while p != null && p.key != key
      invariant Spells(p, u)
      invariant Stopped(Inorder(t), key, u, pre, post) && lower == LastOf(pre) && higher == FirstOf(post)
      decreases u
    {
      StopDeeper(Inorder(t), key, u, pre, post);
      if p.key > key {
        higher := p;
        p := p.left;
        post, u := [u.node] + Inorder(u.right) + post, u.left;
      } else {
        lower := p;
        p := p.right;
        pre, u := pre + Inorder(u.left) + [u.node], u.right;
      }
    }
  }

  lemma StopDeeper(s: seq<RbNode>, key: int, u: Tree, pre: seq<RbNode>, post: seq<RbNode>)
    requires Sorted(s) && u.Bin? && Stopped(s, key, u, pre, post)
    ensures key < u.node.key ==> Stopped(s, key, u.left, pre, [u.node] + Inorder(u.right) + post)
    ensures u.node.key < key ==> Stopped(s, key, u.right, pre + Inorder(u.left) + [u.node], post)
  {
    var l, r := Inorder(u.left), Inorder(u.right);
    assert s == (pre + l) + [u.node] + (r + post);
    SortedAround(pre + l, u.node, r + post);
    assert s == pre + l + ([u.node] + r + post);
    assert s == (pre + l + [u.node]) + r + post;
    forall i | 0 <= i < |r| ensures r[i].key > u.node.key { assert r[i] == (r + post)[i]; }
    forall i | 0 <= i < |l| ensures l[i].key < u.node.key { assert l[i] == (pre + l)[|pre| + i]; }
  }

  /** The far end of a subtree, reached by a loop. */
  method FindExtreme(p: RbNode, right: bool, ghost t: Tree) returns (n: RbNode)
    requires Spells(p, t) && t.Bin?
    ensures n == if right then LastOf(Inorder(t)) else FirstOf(Inorder(t))
  {
    n := p;
    ghost var u := t;
    while Link(n, right) != null
      invariant u.Bin? && Spells(n, u)
      invariant if right then LastOf(Inorder(u)) == LastOf(Inorder(t)) else FirstOf(Inorder(u)) == FirstOf(Inorder(t))
      decreases u
    {
      Unfold(n, u, right);
      n := Link(n, right);
      u := Child(u, right);
      assert |Inorder(u)| > 0;
    }
  }

  /** From where the descent stopped: the far end of the child on that side, or the last turn taken. */
  method TakeNeighbour(p: RbNode?, low: RbNode?, high: RbNode?, lower: bool, key: int,
                       ghost s: seq<RbNode>, ghost u: Tree, ghost pre: seq<RbNode>, ghost post: seq<RbNode>)
    returns (n: RbNode?)
    requires Spells(p, u) && (p != null ==> p.key == key)
    requires Sorted(s) && Stopped(s, key, u, pre, post) && low == LastOf(pre) && high == FirstOf(post)
    ensures n == if lower then Below(s, key) else Above(s, key)
  {
    NeighbourAtStop(s, key, u, pre, post);
    n := if lower then low else high;
    if p != null {
      Unfold(p, u, true);
      if Link(p, !lower) != null {
        n := FindExtreme(Link(p, !lower), lower, Child(u, !lower));
      }
    }
  }

  /** search_previous (`lower`) and search_next; the key may be absent. */
  method SearchNeighbour(root: RbNode?, key: int, lower: bool, ghost t: Tree) returns (n: RbNode?)
    requires Spells(root, t) && Sorted(Inorder(t))
    ensures n == if lower then Below(Inorder(t), key) else Above(Inorder(t), key)
  {
    ghost var u, pre, post;
    var p, low, high;
    p, low, high, u, pre, post := FindCommon(root, key, t);
    n := TakeNeighbour(p, low, high, lower, key, Inorder(t), u, pre, post);
  }

  lemma NeighbourAtStop(s: seq<RbNode>, key: int, u: Tree, pre: seq<RbNode>, post: seq<RbNode>)
    requires Sorted(s) && Stopped(s, key, u, pre, post) && (u.Bin? ==> u.node.key == key)
    ensures u.Nil? ==> Below(s, key) == LastOf(pre) && Above(s, key) == FirstOf(post)
    ensures u.Bin? ==> Below(s, key) == LastOf(pre + Inorder(u.left))
    ensures u.Bin? ==> Above(s, key) == FirstOf(Inorder(u.right) + post)
  {
    if u.Nil? {
      assert s == pre + post;
      RankSplit(pre, post, key);
      RankSplit(pre, post, key + 1);
      assert s[..|pre|] == pre && s[|pre|..] == post;
    } else {
      var a, b := pre + Inorder(u.left), Inorder(u.right) + post;
      assert s == a + [u.node] + b;
      RankAt(s, |a|);
      assert s[..|a|] == a && s[|a| + 1..] == b;
    }
  }

  method Search(root: RbNode?, key: int, ghost t: Tree) returns (n: RbNode?)
    requires Spells(root, t) && Sorted(Inorder(t))
    ensures n == match ListFind(Inorder(t), key) case None => null case Some(m) => m
  {
    n := root;
    ghost var u, pre, post := t, [], [];
    while n != null && n.key != key
      invariant Spells(n, u) && Stopped(Inorder(t), key, u, pre, post)
      decreases u
    {
      StopDeeper(Inorder(t), key, u, pre, post);
      if n.key > key {
        n := n.left;
        post, u := [u.node] + Inorder(u.right) + post, u.left;
      } else {
        n := n.right;
        pre, u := pre + Inorder(u.left) + [u.node], u.right;
      }
    }
    FindAtStop(Inorder(t), key, u, pre, post);
  }

  lemma FindAtStop(s: seq<RbNode>, key: int, u: Tree, pre: seq<RbNode>, post: seq<RbNode>)
    requires Sorted(s) && Stopped(s, key, u, pre, post) && (u.Bin? ==> u.node.key == key)
    ensures ListFind(s, key) == if u.Nil? then None else Some(u.node)
  {
    if u.Nil? {
      assert s == pre + post;
      ListRemoveRight(pre, post, key);
      Absent(post, key);
    } else {
      assert s[|pre| + |Inorder(u.left)|] == u.node;
      RemoveAt(s, |pre| + |Inorder(u.left)|);
    }
  }

  lemma HasAtStop(s: seq<RbNode>, key: int, u: Tree, pre: seq<RbNode>, post: seq<RbNode>)
    requires Sorted(s) && Stopped(s, key, u, pre, post) && (u.Bin? ==> u.node.key == key)
    ensures Has(s, key) <==> u.Bin?
  {
    FindAtStop(s, key, u, pre, post);
    var i := ListFindMeaning(s, key);
  }

  /** previous and next: null when the key itself is absent. */
  method Neighbour(root: RbNode?, key: int, lower: bool, ghost t: Tree) returns (n: RbNode?)
    requires Spells(root, t) && Sorted(Inorder(t))
    ensures n == if !Has(Inorder(t), key) then null
                 else if lower then Below(Inorder(t), key) else Above(Inorder(t), key)
  {
    ghost var u, pre, post;
    var p, low, high;
    p, low, high, u, pre, post := FindCommon(root, key, t);
    HasAtStop(Inorder(t), key, u, pre, post);
    if p == null { return null; }
    n := TakeNeighbour(p, low, high, lower, key, Inorder(t), u, pre, post);
  }

  lemma RankGap(s: seq<RbNode>, key: int)
    requires Sorted(s) && !Has(s, key)
    ensures Rank(s, key) == Rank(s, key + 1)
  {
    RankMeaning(s, key);
    var i := Rank(s, key);
    assert s == s[..i] + s[i..];
    if i < |s| { assert s[i].key != key; }
    RankSplit(s[..i], s[i..], key + 1);
  }

  /** The two ends of a range as an exact search, then a neighbour search, finds them. */
  lemma RangeStart(s: seq<RbNode>, low: int)
    requires Sorted(s)
    ensures FirstOf(s[Rank(s, low)..]) == match ListFind(s, low) case None => Above(s, low) case Some(n) => n
  {
    var i := ListFindMeaning(s, low);
    if Has(s, low) { RankAt(s, i); } else { RankGap(s, low); }
  }

  lemma RangeStop(s: seq<RbNode>, high: int)
    requires Sorted(s)
    ensures LastOf(s[..Rank(s, high + 1)]) == match ListFind(s, high) case None => Below(s, high) case Some(n) => n
  {
    var i := ListFindMeaning(s, high);
    if Has(s, high) { RankAt(s, i); } else { RankGap(s, high); }
  }

  /** Both ends exist in the right order exactly when the range has two nodes or more. */
  lemma RangeNeedsTwo(s: seq<RbNode>, low: int, high: int)
    requires Sorted(s)
    ensures var a, b := FirstOf(s[Rank(s, low)..]), LastOf(s[..Rank(s, high + 1)]);
            a != null && b != null && a.key < b.key <==> |InRange(s, low, high)| >= 2
  {
    var i, j := Rank(s, low), Rank(s, high + 1);
    if i < |s| && 0 < j {
      assert s[i..][0] == s[i] && s[..j][j - 1] == s[j - 1];
      if j - 1 < i { assert s[j - 1].key < s[i].key; }
    }
  }

  /** The node of a key, or its neighbour on one side when there is none. */
  method SearchOrNeighbour(root: RbNode?, key: int, lower: bool, ghost t: Tree) returns (n: RbNode?)
    requires Spells(root, t) && Sorted(Inorder(t))
    ensures n == match ListFind(Inorder(t), key)
                 case None => if lower then Below(Inorder(t), key) else Above(Inorder(t), key)
                 case Some(m) => m
  {
    assert allocated(Nodes(t));
    hide Sorted, Inorder, Above, Below, ListFind;
    n := Search(root, key, t);
    if n == null { n := SearchNeighbour(root, key, lower, t); }
  }

  method RangeBounds(root: RbNode?, low: int, high: int, ghost t: Tree) returns (start: RbNode?, stop: RbNode?)
    requires Spells(root, t) && Sorted(Inorder(t))
    ensures start == FirstOf(Inorder(t)[Rank(Inorder(t), low)..])
    ensures stop == LastOf(Inorder(t)[..Rank(Inorder(t), high + 1)])
  {
    assert allocated(Nodes(t));
    hide *;
    RangeStart(Inorder(t), low);
    RangeStop(Inorder(t), high);
    start := SearchOrNeighbour(root, low, false, t);
    stop := SearchOrNeighbour(root, high, true, t);
  }

  lemma AboveAt(s: seq<RbNode>, m: nat)
    requires Sorted(s) && m + 1 < |s|
    ensures Has(s, s[m].key) && Above(s, s[m].key) == s[m + 1]
  {
    RankAt(s, m);
  }

  lemma SameAt(s: seq<RbNode>, m: nat, j: nat)
    requires Sorted(s) && m <= j < |s| && s[m] == s[j]
    ensures m == j
  {
  }

  /** The walk from one node of the list to a later one, by repeated calls of next. */
  method Walk(root: RbNode?, start: RbNode, stop: RbNode, ghost i: nat, ghost j: nat, ghost t: Tree)
    returns (list: seq<RbNode>)
    requires Spells(root, t) && Sorted(Inorder(t))
    requires i <= j < |Inorder(t)| && Inorder(t)[i] == start && Inorder(t)[j] == stop
    ensures list == Inorder(t)[i..j + 1]
  {
    ghost var s, m := Inorder(t), i;
    assert allocated(Nodes(t));
    list := [];
    var cursor := start;
    while cursor != stop
      invariant i <= m <= j && cursor == s[m] && list == s[i..m]
      decreases j - m
    {
      list := list + [cursor];
      assert s[i..m + 1] == s[i..m] + [s[m]];
      AboveAt(s, m);
      cursor := Neighbour(root, cursor.key, false, t);
      m := m + 1;
    }
    SameAt(s, m, j);
    list := list + [cursor];
    assert s[i..j + 1] == s[i..j] + [s[j]];
  }

  /** Range enumeration: all nodes of the range in order when there are at least two, else nothing. */
  method EnumerateRange(root: RbNode?, low: int, high: int, ghost t: Tree)
    returns (count: nat, list: seq<RbNode>)
    requires Spells(root, t) && Sorted(Inorder(t))
    ensures list == (if |InRange(Inorder(t), low, high)| >= 2 then InRange(Inorder(t), low, high) else [])
    ensures count == |list|
  {
    ghost var s := Inorder(t);
    assert allocated(Nodes(t));
    var start, stop := RangeBounds(root, low, high, t);
    RangeNeedsTwo(s, low, high);
    if start == null || stop == null || start.key >= stop.key { return 0, []; }
    list := Walk(root, start, stop, Rank(s, low), Rank(s, high + 1) - 1, t);
    count := |list|;
  }
}
