/**
 Layered enumeration: a queue kept in the output list itself visits the tree level by level.
 */
module RbLayers {
  import opened RbTree
  import opened RbShape
  import opened RbOrder
  import opened RbHeap

  /** The subtrees below a node, left first. */
  function Kids(t: Tree): seq<Tree> {
    if t.Nil? then [] else (if t.left.Bin? then [t.left] else []) + if t.right.Bin? then [t.right] else []
  }

  function Total(queue: seq<Tree>): nat {
    if queue == [] then 0 else Size(queue[0]) + Total(queue[1..])
  }

  lemma {:induction false} TotalConcat(a: seq<Tree>, b: seq<Tree>)
    ensures Total(a + b) == Total(a) + Total(b)
  {
    if a == [] {
      assert a + b == b;
    } else {
      assert (a + b)[1..] == a[1..] + b;
      TotalConcat(a[1..], b);
    }
  }

  ghost predicate AllBin(queue: seq<Tree>) {
    forall i :: 0 <= i < |queue| ==> queue[i].Bin?
  }

  lemma KidsTotal(t: Tree)
    requires t.Bin?
    ensures Total(Kids(t)) + 1 == Size(t) && AllBin(Kids(t))
  {
    TotalConcat(if t.left.Bin? then [t.left] else [], if t.right.Bin? then [t.right] else []);
    assert Total([t.left]) == Size(t.left) + Total([]) && Total([t.right]) == Size(t.right) + Total([]);
  }

  /** The roots of a level, and the level below it. */
  function Roots(level: seq<Tree>): seq<RbNode>
    requires AllBin(level)
  {
    seq(|level|, i requires 0 <= i < |level| => level[i].node)
  }

  function Below(level: seq<Tree>): seq<Tree> {
    if level == [] then [] else Kids(level[0]) + Below(level[1..])
  }

  lemma {:induction false} BelowTotal(level: seq<Tree>)
    requires AllBin(level)
    ensures Total(Below(level)) + |level| == Total(level) && AllBin(Below(level))
  {
    if level != [] {
      KidsTotal(level[0]);
      TotalConcat(Kids(level[0]), Below(level[1..]));
      BelowTotal(level[1..]);
    }
  }

  /** The tree level by level. */
  function Layers(level: seq<Tree>): seq<RbNode>
    requires AllBin(level)
    decreases Total(level)
  {
    if level == [] then [] else BelowTotal(level); Roots(level) + Layers(Below(level))
  }

  /** The same nodes with a queue: take the front, append its children. */
  function Queued(queue: seq<Tree>): seq<RbNode>
    requires AllBin(queue)
    decreases Total(queue)
  {
    if queue == [] then []
    else
      KidsTotal(queue[0]); TotalConcat(queue[1..], Kids(queue[0]));
      [queue[0].node] + Queued(queue[1..] + Kids(queue[0]))
  }

  lemma QueuedStep(t: Tree, rest: seq<Tree>)
    requires t.Bin? && AllBin(rest)
    ensures AllBin(rest + Kids(t)) && AllBin([t] + rest) && Queued([t] + rest) == [t.node] + Queued(rest + Kids(t))
  {
    KidsTotal(t);
    assert ([t] + rest)[1..] == rest;
  }

  /** Working off the rest of a level, with the level below it already begun. */
  lemma {:induction false} QueuedLevel(rest: seq<Tree>, begun: seq<Tree>)
    requires AllBin(rest) && AllBin(begun)
    ensures AllBin(begun + Below(rest)) && Queued(rest + begun) == Roots(rest) + Queued(begun + Below(rest))
    decreases |rest|
  {
    hide Queued, Kids, Size, Total;
    BelowTotal(rest);
    if rest == [] {
      assert rest + begun == begun && begun + Below(rest) == begun;
    } else {
      var t, more := rest[0], begun + Kids(rest[0]);
      QueuedStep(t, rest[1..] + begun);
      assert rest + begun == [t] + (rest[1..] + begun) && rest[1..] + begun + Kids(t) == rest[1..] + more;
      KidsTotal(t);
      QueuedLevel(rest[1..], more);
      assert more + Below(rest[1..]) == begun + Below(rest);
      assert Roots(rest) == [t.node] + Roots(rest[1..]);
    }
  }

  /** The queue lists the tree level by level. */
  lemma {:induction false} QueuedIsLayers(level: seq<Tree>)
    requires AllBin(level)
    ensures Queued(level) == Layers(level)
    decreases Total(level)
  {
    if level != [] {
      BelowTotal(level);
      QueuedLevel(level, []);
      assert level + [] == level && [] + Below(level) == Below(level);
      QueuedIsLayers(Below(level));
    }
  }

  ghost function NodesOf(queue: seq<Tree>): set<RbNode> {
    if queue == [] then {} else Nodes(queue[0]) + NodesOf(queue[1..])
  }

  lemma {:induction false} NodesConcat(a: seq<Tree>, b: seq<Tree>)
    ensures NodesOf(a + b) == NodesOf(a) + NodesOf(b)
  {
    if a == [] {
      assert a + b == b;
    } else {
      assert (a + b)[1..] == a[1..] + b;
      NodesConcat(a[1..], b);
    }
  }

  lemma KidsNodes(t: Tree)
    requires t.Bin?
    ensures Nodes(t) == {t.node} + NodesOf(Kids(t))
  {
    NodesConcat(if t.left.Bin? then [t.left] else [], if t.right.Bin? then [t.right] else []);
    assert NodesOf([t.left]) == Nodes(t.left) + NodesOf([]) && NodesOf([t.right]) == Nodes(t.right) + NodesOf([]);
  }

  /** As many entries as nodes, and every node among them: each node is listed exactly once. */
  lemma {:induction false} QueuedComplete(queue: seq<Tree>)
    requires AllBin(queue)
    ensures |Queued(queue)| == Total(queue) && Elems(Queued(queue)) == NodesOf(queue)
    decreases Total(queue)
  {
    if queue != [] {
      var t, rest := queue[0], queue[1..];
      KidsTotal(t);
      KidsNodes(t);
      TotalConcat(rest, Kids(t));
      NodesConcat(rest, Kids(t));
      QueuedComplete(rest + Kids(t));
      assert Queued(queue)[1..] == Queued(rest + Kids(t));
    }
  }

  /** Level by level, every node of a tree is listed exactly once. */
  lemma LayersComplete(t: Tree)
    requires t.Bin?
    ensures |Layers([t])| == Size(t) && Elems(Layers([t])) == Nodes(t)
  {
    hide Queued, Layers;
    QueuedIsLayers([t]);
    QueuedComplete([t]);
    assert Total([t]) == Size(t) + Total([t][1..]) && NodesOf([t]) == Nodes(t) + NodesOf([t][1..]);
  }

  // ---------------------------------------------------------------- the order of the list

  /** Links from the root down to the node of that key. */
  function Depth(t: Tree, key: int): nat {
    if t.Nil? || t.node.key == key then 0
    else if t.node.key < key then 1 + Depth(t.right, key) else 1 + Depth(t.left, key)
  }

  ghost predicate Under(a: set<RbNode>, b: set<RbNode>) {
    forall m, n :: m in a && n in b ==> m.key < n.key
  }

  /** Smaller keys to the left everywhere. */
  ghost predicate Searchable(t: Tree) {
    t.Nil? || (Under(Nodes(t.left), {t.node}) && Under({t.node}, Nodes(t.right))
               && Under(Nodes(t.left), Nodes(t.right)) && Searchable(t.left) && Searchable(t.right))
  }

  lemma {:induction false} ElemsAt(s: seq<RbNode>, n: RbNode)
    ensures n in Elems(s) <==> n in s
  {
    if s != [] { ElemsAt(s[1..], n); }
  }

  lemma NodesKeys(t: Tree, key: int)
    ensures AllBelow(Inorder(t), key) ==> forall n :: n in Nodes(t) ==> n.key < key
    ensures AllAbove(Inorder(t), key) ==> forall n :: n in Nodes(t) ==> key < n.key
  {
    NodesInorder(t);
    var s := Inorder(t);
    forall n | n in Nodes(t) ensures n in s { ElemsAt(s, n); }
  }

  lemma {:induction false} SortedIsSearchable(t: Tree)
    requires Sorted(Inorder(t))
    ensures Searchable(t)
  {
    hide Sorted, Inorder, Nodes, AllBelow, AllAbove;
    if t.Bin? {
      SortedParts(t);
      SortedIsSearchable(t.left);
      SortedIsSearchable(t.right);
      NodesKeys(t.left, t.node.key);
      NodesKeys(t.right, t.node.key);
    }
  }

  /** Subtrees of `t` at depth `d`, from left to right. */
  ghost predicate Level(t: Tree, level: seq<Tree>, d: nat) {
    level == [] ||
    (level[0].Bin? && Searchable(level[0]) && DeepBy(t, level[0], d) &&
     Under(Nodes(level[0]), NodesOf(level[1..])) && Level(t, level[1..], d))
  }

  ghost predicate DeepBy(t: Tree, u: Tree, d: nat) {
    forall n :: n in Nodes(u) ==> Depth(t, n.key) == d + Depth(u, n.key)
  }

  lemma UnderUnion(a: set<RbNode>, b: set<RbNode>, c: set<RbNode>)
    ensures Under(a, b + c) <==> Under(a, b) && Under(a, c)
    ensures Under(a + b, c) <==> Under(a, c) && Under(b, c)
  {
  }

  lemma {:induction false} LevelConcat(t: Tree, a: seq<Tree>, b: seq<Tree>, d: nat)
    requires Level(t, a, d) && Level(t, b, d) && Under(NodesOf(a), NodesOf(b))
    ensures Level(t, a + b, d)
  {
    hide Searchable, DeepBy, Under;
    if a == [] {
      assert a + b == b;
    } else {
      assert (a + b)[1..] == a[1..] + b;
      NodesConcat(a[1..], b);
      UnderUnion(Nodes(a[0]), NodesOf(a[1..]), NodesOf(b));
      LevelConcat(t, a[1..], b, d);
    }
  }

  lemma LevelOne(t: Tree, u: Tree, d: nat)
    requires u.Bin? && Searchable(u) && DeepBy(t, u, d)
    ensures Level(t, [u], d) && NodesOf([u]) == Nodes(u)
  {
    assert [u][1..] == [];
  }

  lemma KidsDeeper(t: Tree, u: Tree, d: nat)
    requires u.Bin? && Searchable(u) && DeepBy(t, u, d)
    ensures DeepBy(t, u.left, d + 1) && DeepBy(t, u.right, d + 1)
  {
  }

  lemma LevelKids(t: Tree, u: Tree, d: nat)
    requires u.Bin? && Searchable(u) && DeepBy(t, u, d)
    ensures Level(t, Kids(u), d + 1) && NodesOf(Kids(u)) <= Nodes(u)
  {
    KidsNodes(u);
    KidsDeeper(t, u, d);
    if u.left.Bin? { LevelOne(t, u.left, d + 1); }
    if u.right.Bin? { LevelOne(t, u.right, d + 1); }
    hide DeepBy, Searchable;
    if u.left.Bin? && u.right.Bin? { LevelConcat(t, [u.left], [u.right], d + 1); }
  }

  lemma {:induction false} LevelBelow(t: Tree, level: seq<Tree>, d: nat)
    requires Level(t, level, d)
    ensures Level(t, Below(level), d + 1) && NodesOf(Below(level)) <= NodesOf(level)
  {
    if level != [] {
      hide Searchable, DeepBy, Kids;
      LevelKids(t, level[0], d);
      LevelBelow(t, level[1..], d);
      NodesConcat(Kids(level[0]), Below(level[1..]));
      LevelConcat(t, Kids(level[0]), Below(level[1..]), d + 1);
    }
  }

  /** From depth `d` on downwards; level by level, and by key within a level. */
  ghost predicate Downwards(t: Tree, list: seq<RbNode>, d: nat) {
    && (forall i :: 0 <= i < |list| ==> d <= Depth(t, list[i].key))
    && forall i, j :: 0 <= i < j < |list| ==>
        Depth(t, list[i].key) < Depth(t, list[j].key) ||
        (Depth(t, list[i].key) == Depth(t, list[j].key) && list[i].key < list[j].key)
  }

  lemma {:induction false} RootsDownwards(t: Tree, level: seq<Tree>, d: nat)
    requires Level(t, level, d)
    ensures AllBin(level) && forall i :: 0 <= i < |level| ==> Depth(t, Roots(level)[i].key) == d
    ensures forall i :: 0 <= i < |level| ==> Roots(level)[i] in NodesOf(level)
    ensures forall i, j :: 0 <= i < j < |level| ==> Roots(level)[i].key < Roots(level)[j].key
  {
    if level != [] {
      hide Searchable, DeepBy, Depth, Nodes;
      RootDeep(t, level[0], d);
      RootsDownwards(t, level[1..], d);
      var r, q := Roots(level), Roots(level[1..]);
      assert r[0] == level[0].node && r[0] in Nodes(level[0]);
      forall i | 0 < i < |level| ensures r[i] == q[i - 1] {}
    }
  }

  lemma RootDeep(t: Tree, u: Tree, d: nat)
    requires u.Bin? && DeepBy(t, u, d)
    ensures u.node in Nodes(u) && Depth(t, u.node.key) == d
  {
  }

  lemma DownwardsConcat(t: Tree, a: seq<RbNode>, b: seq<RbNode>, d: nat)
    requires forall i :: 0 <= i < |a| ==> Depth(t, a[i].key) == d
    requires forall i, j :: 0 <= i < j < |a| ==> a[i].key < a[j].key
    requires Downwards(t, b, d + 1)
    ensures Downwards(t, a + b, d)
  {
    hide Depth;
  }

  lemma {:induction false} LayersDownwards(t: Tree, level: seq<Tree>, d: nat)
    requires Level(t, level, d)
    ensures AllBin(level) && Downwards(t, Layers(level), d)
    decreases Total(level)
  {
    RootsDownwards(t, level, d);
    if level != [] {
      hide Level, Downwards;
      BelowTotal(level);
      LevelBelow(t, level, d);
      LayersDownwards(t, Below(level), d + 1);
      DownwardsConcat(t, Roots(level), Layers(Below(level)), d);
    }
  }

  /** The list goes down the tree: by depth, and by key among nodes of one depth. */
  lemma LayersInOrder(t: Tree)
    requires t.Bin? && Sorted(Inorder(t))
    ensures Downwards(t, Layers([t]), 0)
  {
    SortedIsSearchable(t);
    LevelOne(t, t, 0);
    hide Level, Layers;
    LayersDownwards(t, [t], 0);
  }

  /** The first entries of the list are the roots of these subtrees. */
  ghost predicate Stands(list: array<RbNode?>, trees: seq<Tree>)
    reads list, set t, n | t in trees && n in Nodes(t) :: n
  {
    && |trees| <= list.Length && AllBin(trees)
    && forall i :: 0 <= i < |trees| ==> list[i] == trees[i].node && Spells(trees[i].node, trees[i])
  }

  /** The queue after its first `r` subtrees were taken from the front. */
  ghost predicate Visited(t: Tree, trees: seq<Tree>, r: nat) {
    && t.Bin? && AllBin(trees) && r <= |trees|
    && Queued([t]) == Roots(trees[..r]) + Queued(trees[r..])
    && r + Total(trees[r..]) == Size(t)
  }

  lemma {:induction false} TotalAtLeast(queue: seq<Tree>)
    requires AllBin(queue)
    ensures |queue| <= Total(queue)
  {
    if queue != [] { TotalAtLeast(queue[1..]); }
  }

  lemma TotalFront(t: Tree, rest: seq<Tree>)
    ensures Total([t] + rest) == Size(t) + Total(rest)
  {
    assert ([t] + rest)[1..] == rest;
  }

  lemma VisitStep(t: Tree, trees: seq<Tree>, r: nat)
    requires Visited(t, trees, r) && r < |trees|
    ensures Visited(t, trees + Kids(trees[r]), r + 1) && |trees| + |Kids(trees[r])| <= Size(t)
  {
    hide Queued, Size, Kids, Total;
    var u, rest := trees[r], trees[r + 1..];
    var more := trees + Kids(u);
    assert trees[r..] == [u] + rest;
    QueuedStep(u, rest);
    KidsTotal(u);
    TotalFront(u, rest);
    TotalConcat(rest, Kids(u));
    assert more[r + 1..] == rest + Kids(u);
    assert Roots(more[..r + 1]) == Roots(trees[..r]) + [u.node];
    TotalAtLeast(more[r + 1..]);
  }

  lemma VisitDone(t: Tree, trees: seq<Tree>)
    requires Visited(t, trees, |trees|)
    ensures Queued([t]) == Roots(trees) && |trees| == Size(t)
  {
    assert trees[..|trees|] == trees && trees[|trees|..] == [];
  }

  lemma VisitStart(t: Tree)
    requires t.Bin?
    ensures Visited(t, [t], 0)
  {
    assert [t][0..] == [t] && Total([t]) == Size(t) + Total([t][1..]);
    assert Roots([t][..0]) == [];
  }

  /** Appends the children of a listed node. */
  method PushKids(p: RbNode, list: array<RbNode?>, c: nat, ghost t: Tree) returns (d: nat)
    requires t.Bin? && Spells(p, t) && c + |Kids(t)| <= list.Length
    modifies list
    ensures d == c + |Kids(t)|
    ensures forall i :: 0 <= i < list.Length && !(c <= i < d) ==> list[i] == old(list[i])
    ensures forall i :: 0 <= i < |Kids(t)| ==>
        Kids(t)[i].Bin? && list[c + i] == Kids(t)[i].node && Spells(Kids(t)[i].node, Kids(t)[i])
  {
    d := c;
    if p.left != null {
      list[d] := p.left;
      d := d + 1;
    }
    if p.right != null {
      list[d] := p.right;
      d := d + 1;
    }
  }

  /** One turn of the inner loop: the node at `r` has its children appended. */
  method Turn(list: array<RbNode?>, r: nat, c: nat, ghost t: Tree, ghost trees: seq<Tree>) returns (d: nat)
    requires Visited(t, trees, r) && r < |trees| == c && Stands(list, trees) && Size(t) <= list.Length
    modifies list
    ensures d == c + |Kids(trees[r])| && d <= Size(t)
    ensures Visited(t, trees + Kids(trees[r]), r + 1) && Stands(list, trees + Kids(trees[r]))
    ensures forall i :: d <= i < list.Length ==> list[i] == old(list[i])
  {
    hide Kids, Visited, Size;
    VisitStep(t, trees, r);
    assert forall i :: 0 <= i < |trees| ==> allocated(Nodes(trees[i]));
    d := PushKids(list[r], list, c, trees[r]);
    ghost var more := trees + Kids(trees[r]);
    forall i | 0 <= i < |more| ensures more[i].Bin? && list[i] == more[i].node && Spells(more[i].node, more[i]) {
      if c <= i {
        assert more[i] == Kids(trees[r])[i - c] && list[i] == list[c + (i - c)];
      } else {
        assert more[i] == trees[i];
      }
    }
  }

  /** `rbtree_enumerate_layered`: the nodes level by level, left to right, each exactly once. */
  method EnumerateLayered(root: RbNode?, list: array<RbNode?>, ghost t: Tree)
    requires Spells(root, t) && Size(t) <= list.Length
    modifies list
    ensures list[..Size(t)] == Layers(if t.Bin? then [t] else [])
    ensures t.Bin? && Sorted(Inorder(t)) ==> Downwards(t, Layers([t]), 0)
    ensures forall i :: Size(t) <= i < list.Length ==> list[i] == old(list[i])
  {
    hide Visited, Size, Kids, Layers, Downwards, Sorted, Inorder;
    if t.Bin? && Sorted(Inorder(t)) { LayersInOrder(t); }
    if root == null {
      EmptyTree(t);
      return;
    }
    VisitStart(t);
    ghost var trees := [t];
    SizePositive(t);
    var r1, r2, c := 0, 1, 1;
    list[r1] := root;
    var more := true;
    while more
      invariant 0 <= r1 <= c == |trees| <= Size(t) && Visited(t, trees, r1) && Stands(list, trees)
      invariant !more ==> r1 == c
      invariant forall i :: Size(t) <= i < list.Length ==> list[i] == old(list[i])
      decreases Size(t) - r1, more
    {
      r2 := c;
      ghost var start := r1;
      while r1 != r2
        invariant 0 <= start <= r1 <= r2 <= c == |trees| <= Size(t) && Visited(t, trees, r1) && Stands(list, trees)
        invariant r1 == start ==> c == r2
        invariant forall i :: Size(t) <= i < list.Length ==> list[i] == old(list[i])
        decreases r2 - r1
      {
        ghost var kids := Kids(trees[r1]);
        c := Turn(list, r1, c, t, trees);
        trees := trees + kids;
        r1 := r1 + 1;
      }
      more := r2 != c;
    }
    VisitDone(t, trees);
    QueuedIsLayers([t]);
    assert list[..c] == Roots(trees);
  }

  lemma EmptyTree(t: Tree)
    ensures t.Nil? ==> Size(t) == 0 && Layers([]) == []
  {
  }

  lemma SizePositive(t: Tree)
    requires t.Bin?
    ensures Size(t) > 0
  {
  }
}
