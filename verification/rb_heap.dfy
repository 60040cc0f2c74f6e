/**
 The in-place red-black tree: linked nodes whose links and flags are overwritten by rotations,
 recursive insertion and recursive extraction. Every routine is proved equal to its value function.
 */
module RbHeap {
  import opened RbTree
  import opened RbOrder
  import opened RbShape

  ghost function Nodes(t: Tree): set<RbNode> {
    if t.Nil? then {} else {t.node} + Nodes(t.left) + Nodes(t.right)
  }

  /** The nodes reachable from `p` spell out exactly `t`, without sharing. */
  ghost predicate Spells(p: RbNode?, t: Tree)
    reads Nodes(t)
  {
    match t
    case Nil => p == null
    case Bin(l, n, red, top, r) =>
      && p == n && n.red == red && n.top == top
      && n !in Nodes(l) && n !in Nodes(r) && Nodes(l) !! Nodes(r)
      && Spells(n.left, l) && Spells(n.right, r)
  }

  function Link(p: RbNode, right: bool): RbNode?
    reads p
  {
    if right then p.right else p.left
  }

  /** One level of `Spells`, with the two sides named by a direction. */
  lemma Unfold(p: RbNode?, t: Tree, dir: bool)
    requires Spells(p, t) && t.Bin?
    ensures p == t.node && p.red == t.red && p.top == t.top
    ensures Spells(Link(p, dir), Child(t, dir)) && Spells(Link(p, !dir), Child(t, !dir))
    ensures p !in Nodes(Child(t, dir)) && p !in Nodes(Child(t, !dir))
    ensures Nodes(Child(t, dir)) !! Nodes(Child(t, !dir))
    ensures Nodes(t) == {p} + Nodes(Child(t, dir)) + Nodes(Child(t, !dir))
  {
  }

  lemma Fold(p: RbNode, t: Tree, dir: bool)
    requires t.Bin? && p == t.node && p.red == t.red && p.top == t.top
    requires Spells(Link(p, dir), Child(t, dir)) && Spells(Link(p, !dir), Child(t, !dir))
    requires p !in Nodes(Child(t, dir)) && p !in Nodes(Child(t, !dir))
    requires Nodes(Child(t, dir)) !! Nodes(Child(t, !dir))
    ensures Spells(p, t)
    ensures Nodes(t) == {p} + Nodes(Child(t, dir)) + Nodes(Child(t, !dir))
  {
  }

  method SetChild(p: RbNode, right: bool, c: RbNode?)
    modifies p
    ensures Link(p, right) == c && Link(p, !right) == old(Link(p, !right))
    ensures p.red == old(p.red) && p.top == old(p.top)
  {
    if right { p.right := c; } else { p.left := c; }
  }

  /** Replacing one subtree, and the flags, by ones that share nothing with the rest. */
  method Attach(p: RbNode, right: bool, c: RbNode?, red: bool, top: bool, ghost t: Tree, ghost u: Tree)
    requires t.Bin? && t.node == p
    requires Spells(Link(p, !right), Child(t, !right)) && Spells(c, u)
    requires p !in Nodes(Child(t, !right)) && p !in Nodes(u) && Nodes(u) !! Nodes(Child(t, !right))
    modifies p
    ensures Spells(p, Graft(t, right, u, red, top))
    ensures Nodes(Graft(t, right, u, red, top)) == {p} + Nodes(u) + Nodes(Child(t, !right))
  {
    assert allocated(Nodes(u)) && allocated(Nodes(Child(t, !right)));
    SetChild(p, right, c);
    p.red, p.top := red, top;
    Fold(p, Graft(t, right, u, red, top), right);
  }

  /** Rotation; the root flag, if set, moves to the node that comes up. */
  method Rotated(p: RbNode, right: bool, ghost t: Tree) returns (q: RbNode)
    requires Spells(p, t) && t.Bin? && Child(t, !right).Bin?
    modifies p, Child(t, !right).node
    ensures Spells(q, Rotate(t, right)) && Nodes(Rotate(t, right)) == Nodes(t)
  {
    assert allocated(Nodes(t));
    ghost var s := Child(t, !right);
    Unfold(p, t, right);
    q := Link(p, !right);
    Unfold(q, s, right);
    var top := p.top;
    Attach(p, !right, Link(q, right), true, false, t, Child(s, right));
    ghost var down := Graft(t, !right, Child(s, right), true, false);
    Attach(q, right, p, false, q.top || top, s, down);
  }

  method DoubleRotated(p: RbNode, right: bool, ghost t: Tree) returns (q: RbNode)
    requires Spells(p, t) && t.Bin? && Child(t, !right).Bin? && Child(Child(t, !right), right).Bin?
    modifies p, Child(t, !right).node, Child(Child(t, !right), right).node
    ensures Spells(q, DoubleRotate(t, right)) && Nodes(DoubleRotate(t, right)) == Nodes(t)
  {
    assert allocated(Nodes(t));
    ghost var s := Child(t, !right);
    Unfold(p, t, right);
    Unfold(s.node, s, right);
    Unfold(Child(s, right).node, Child(s, right), right);
    var d := Rotated(Link(p, !right), !right, s);
    ghost var u := Rotate(s, !right);
    Attach(p, !right, d, p.red, p.top, t, u);
    q := Rotated(p, right, WithChild(t, !right, u));
  }

  predicate IsRed(p: RbNode?)
    reads p
  {
    p != null && p.red
  }

  method Paint(p: RbNode?, red: bool, ghost t: Tree)
    requires Spells(p, t)
    modifies p
    ensures Spells(p, if t.Bin? then t.(red := red) else t)
  {
    assert allocated(Nodes(t));
    if p != null { p.red := red; }
  }

  // ---------------------------------------------------------------- insertion

  lemma BlackenNodes(t: Tree)
    ensures Nodes(Blacken(t)) == Nodes(t)
  {
  }

  /** Both children black below a node of the given colour. */
  function Flipped(t: Tree, red: bool): Tree
    requires t.Bin?
  {
    t.(red := red, left := Blacken(t.left), right := Blacken(t.right))
  }

  method Flip(p: RbNode, red: bool, ghost t: Tree)
    requires Spells(p, t) && t.Bin?
    modifies Nodes(t)
    ensures Spells(p, Flipped(t, red)) && Nodes(Flipped(t, red)) == Nodes(t)
  {
    assert allocated(Nodes(t));
    Unfold(p, t, true);
    Paint(p.left, false, t.left);
    Paint(p.right, false, t.right);
    p.red := red;
    BlackenNodes(t.left);
    BlackenNodes(t.right);
    Fold(p, Flipped(t, red), true);
  }

  /** The rotations of insertion: the lower red edge is outer or inner. */
  method LiftRed(p: RbNode, dir: bool, ghost t: Tree) returns (q: RbNode)
    requires Spells(p, t) && t.Bin? && Red(Child(t, dir)) && !Red(Child(t, !dir))
    modifies Nodes(t)
    ensures Spells(q, InsertBalance(t, dir))
  {
    q := p;
    Unfold(p, t, dir);
    var c := Link(p, dir);
    Unfold(c, Child(t, dir), dir);
    if IsRed(Link(c, dir)) {
      q := Rotated(p, !dir, t);
    } else if IsRed(Link(c, !dir)) {
      Unfold(Link(c, !dir), Child(Child(t, dir), !dir), dir);
      q := DoubleRotated(p, !dir, t);
    }
  }

  method BalanceInsert(p: RbNode, dir: bool, ghost t: Tree) returns (q: RbNode)
    requires Spells(p, t) && t.Bin?
    modifies Nodes(t)
    ensures Spells(q, InsertBalance(t, dir))
  {
    q := p;
    Unfold(p, t, dir);
    if IsRed(Link(p, dir)) {
      if IsRed(Link(p, !dir)) {
        Flip(p, true, t);
      } else {
        q := LiftRed(p, dir, t);
      }
    }
  }

  lemma RotateNodes(t: Tree, right: bool)
    requires t.Bin? && Child(t, !right).Bin?
    ensures Nodes(Rotate(t, right)) == Nodes(t)
  {
  }

  lemma InsertBalanceNodes(t: Tree, dir: bool)
    requires t.Bin?
    ensures Nodes(InsertBalance(t, dir)) == Nodes(t)
  {
    var c := Child(t, dir);
    if Red(c) && !Red(Child(t, !dir)) {
      if Red(Child(c, dir)) {
        RotateNodes(t, !dir);
      } else if Red(Child(c, !dir)) {
        RotateNodes(c, dir);
        RotateNodes(WithChild(t, dir, Rotate(c, dir)), !dir);
      }
    }
  }

  lemma {:induction false} InsertRecNodes(t: Tree, n: RbNode)
    ensures Nodes(InsertRec(t, n).0) == if InsertRec(t, n).1 then Nodes(t) else Nodes(t) + {n}
    ensures InsertRec(t, n).0.Bin?
  {
    if t.Bin? && t.node.key != n.key {
      var dir := t.node.key < n.key;
      InsertRecNodes(Child(t, dir), n);
      InsertBalanceNodes(WithChild(t, dir, InsertRec(Child(t, dir), n).0), dir);
    }
  }

  /** Insertion below `root`: links and flags end up spelling the value function's tree. */
  method InsertRecursive(root: RbNode?, newn: RbNode, ghost t: Tree) returns (r: RbNode, dup: bool)
    requires Spells(root, t) && newn !in Nodes(t)
    requires newn.left == null && newn.right == null && newn.red && !newn.top
    modifies Nodes(t), newn
    ensures dup == InsertRec(t, newn).1
    ensures Spells(r, InsertRec(t, newn).0)
    decreases t
  {
    if root == null {
      r, dup := newn, false;
    } else if root.key == newn.key {
      r, dup := root, true;
    } else {
      assert allocated(Nodes(t));
      var dir := root.key < newn.key;
      Unfold(root, t, dir);
      ghost var u := InsertRec(Child(t, dir), newn).0;
      InsertRecNodes(Child(t, dir), newn);
      var d;
      d, dup := InsertRecursive(Link(root, dir), newn, Child(t, dir));
      Attach(root, dir, d, root.red, root.top, t, u);
      r := BalanceInsert(root, dir, WithChild(t, dir, u));
    }
  }

  // ---------------------------------------------------------------- extraction

  method RotateExtract(p: RbNode, dir: bool, red: bool, ghost t: Tree) returns (q: RbNode)
    requires Spells(p, t) && t.Bin? && Child(t, !dir).Bin?
    requires Red(Child(t, !dir).left) || Red(Child(t, !dir).right)
    modifies Nodes(t)
    ensures Spells(q, ExtractRotate(t, dir, red)) && Nodes(ExtractRotate(t, dir, red)) == Nodes(t)
  {
    ghost var s := Child(t, !dir);
    Unfold(p, t, dir);
    Unfold(s.node, s, dir);
    if IsRed(Link(Link(p, !dir), !dir)) {
      q := Rotated(p, dir, t);
      Flip(q, red, Rotate(t, dir));
    } else {
      Unfold(Child(s, dir).node, Child(s, dir), dir);
      q := DoubleRotated(p, dir, t);
      Flip(q, red, DoubleRotate(t, dir));
    }
  }

  /** Both colours move: the sibling turns red and `p` black. */
  method Recolour(p: RbNode, dir: bool, s: RbNode, ghost t: Tree)
    requires Spells(p, t) && t.Bin? && s == Link(p, !dir)
    modifies p, s
    ensures Child(t, !dir).Bin?
    ensures var u := Graft(t, !dir, Child(t, !dir).(red := true), false, t.top);
            Spells(p, u) && Nodes(u) == Nodes(t)
  {
    assert allocated(Nodes(t));
    Unfold(p, t, dir);
    Paint(s, true, Child(t, !dir));
    ghost var c := Child(t, !dir).(red := true);
    assert Nodes(c) == Nodes(Child(t, !dir));
    Attach(p, !dir, s, false, p.top, t, c);
  }

  method AbsorbExtract(p: RbNode, dir: bool, red: bool, ghost t: Tree) returns (q: RbNode, done: bool)
    requires Spells(p, t) && t.Bin?
    modifies Nodes(t)
    ensures Spells(q, ExtractAbsorb(t, dir, red).0) && done == ExtractAbsorb(t, dir, red).1
    ensures Nodes(ExtractAbsorb(t, dir, red).0) == Nodes(t)
  {
    q, done := p, false;
    Unfold(p, t, dir);
    var s := Link(p, !dir);
    if s != null {
      Unfold(s, Child(t, !dir), true);
      if !IsRed(s.left) && !IsRed(s.right) {
        done := p.red;
        Recolour(p, dir, s, t);
      } else {
        q := RotateExtract(p, dir, red, t);
        done := true;
      }
    }
  }

  method BalanceExtract(p: RbNode, dir: bool, ghost t: Tree) returns (q: RbNode, done: bool)
    requires Spells(p, t) && t.Bin?
    modifies Nodes(t)
    ensures Spells(q, ExtractBalance(t, dir).0) && done == ExtractBalance(t, dir).1
  {
    assert allocated(Nodes(t));
    Unfold(p, t, dir);
    if IsRed(Link(p, !dir)) {
      q := Rotated(p, dir, t);
      ghost var u := Rotate(t, dir);
      Unfold(q, u, dir);
      var r;
      r, done := AbsorbExtract(p, dir, true, Child(u, dir));
      Attach(q, dir, r, q.red, q.top, u, ExtractAbsorb(Child(u, dir), dir, true).0);
    } else {
      q, done := AbsorbExtract(p, dir, p.red, t);
    }
  }

  ghost function Elems(s: seq<RbNode>): set<RbNode> {
    if s == [] then {} else {s[0]} + Elems(s[1..])
  }

  lemma {:induction false} ElemsConcat(a: seq<RbNode>, b: seq<RbNode>)
    ensures Elems(a + b) == Elems(a) + Elems(b)
  {
    if a == [] {
      assert a + b == b;
    } else {
      assert (a + b)[1..] == a[1..] + b;
      ElemsConcat(a[1..], b);
    }
  }

  lemma {:induction false} ElemsAbove(s: seq<RbNode>, n: RbNode)
    requires AllAbove(s, n.key)
    ensures n !in Elems(s)
  {
    if s != [] { ElemsAbove(s[1..], n); }
  }

  lemma {:induction false} NodesInorder(t: Tree)
    ensures Nodes(t) == Elems(Inorder(t))
  {
    if t.Bin? {
      NodesInorder(t.left);
      NodesInorder(t.right);
      ElemsConcat(Inorder(t.left) + [t.node], Inorder(t.right));
      ElemsConcat(Inorder(t.left), [t.node]);
    }
  }

  ghost function Only(out: Option<RbNode>): set<RbNode> {
    if out.Some? then {out.value} else {}
  }

  lemma {:induction false} ListRemoveElems(s: seq<RbNode>, key: int)
    requires Sorted(s)
    ensures Elems(ListRemove(s, key)) == Elems(s) - Only(ListFind(s, key))
    ensures Only(ListFind(s, key)) <= Elems(s)
  {
    if s != [] {
      ElemsAbove(s[1..], s[0]);
      if s[0].key != key {
        ListRemoveElems(s[1..], key);
        assert ([s[0]] + ListRemove(s[1..], key))[1..] == ListRemove(s[1..], key);
      }
    }
  }

  /** The node taken out is gone from the new subtree; all others stay. */
  lemma ExtractRecNodes(t: Tree, key: int)
    requires Sorted(Inorder(t))
    ensures var (r, _, out) := ExtractRec(t, key);
            Nodes(r) == Nodes(t) - Only(out) && Only(out) <= Nodes(t)
  {
    ExtractRecInorder(t, key);
    NodesInorder(t);
    NodesInorder(ExtractRec(t, key).0);
    ListRemoveElems(Inorder(t), key);
  }

  /** What the descent into child `dir` leaves of that child. */
  lemma DescentNodes(t: Tree, key: int)
    requires t.Bin? && Sorted(Inorder(t))
    ensures var dir := t.node.key < key;
            Sorted(Inorder(Child(t, dir))) && Nodes(ExtractRec(Child(t, dir), key).0) <= Nodes(Child(t, dir))
  {
    SortedParts(t);
    ExtractRecNodes(Child(t, t.node.key < key), key);
  }

  lemma HeirNodes(t: Tree)
    requires t.Bin? && t.left.Bin? && Sorted(Inorder(t))
    ensures Sorted(Inorder(t.left)) && Last(t.left) in Nodes(t.left)
    ensures Nodes(ExtractRec(t.left, Last(t.left).key).0) == Nodes(t.left) - {Last(t.left)}
  {
    SortedParts(t);
    LastFound(t.left);
    ExtractRecNodes(t.left, Last(t.left).key);
  }

  method FindLast(p: RbNode, ghost t: Tree) returns (n: RbNode)
    requires Spells(p, t) && t.Bin?
    ensures n == Last(t)
  {
    n := p;
    ghost var u := t;
    while n.right != null
      invariant u.Bin? && Spells(n, u) && Last(u) == Last(t)
      decreases u
    {
      n := n.right;
      u := u.right;
    }
  }

  lemma LastFound(t: Tree)
    requires t.Bin? && Sorted(Inorder(t))
    ensures ExtractRec(t, Last(t).key).2 == Some(Last(t))
  {
    hide ExtractRec, Inorder, Last, Sorted;
    LastIsLast(t);
    ExtractRecInorder(t, Last(t).key);
    RemoveAt(Inorder(t), |Inorder(t)| - 1);
  }

  /** The heir takes over the links and flags of the node it replaces, which is cut loose. */
  method Replace(root: RbNode, heir: RbNode, ghost t: Tree)
    requires Spells(root, t) && t.Bin? && heir !in Nodes(t)
    modifies root, heir
    ensures Spells(heir, t.(node := heir)) && root.left == null && root.right == null
  {
    assert allocated(Nodes(t));
    Unfold(root, t, true);
    heir.left, heir.right := root.left, root.right;
    heir.red, heir.top := root.red, root.top;
    root.left, root.right := null, null;
    Fold(heir, t.(node := heir), true);
  }

  /** Unlinking a node that has at most one child: the child comes up. */
  method Unlink(root: RbNode, ghost t: Tree) returns (r: RbNode?, done: bool)
    requires Spells(root, t) && t.Bin? && (t.left.Nil? || t.right.Nil?)
    modifies Nodes(t)
    ensures Spells(r, ExtractRec(t, root.key).0) && done == ExtractRec(t, root.key).1
  {
    Unfold(root, t, true);
    r := if root.left == null then root.right else root.left;
    done := root.red || IsRed(r);
    if !root.red { Paint(r, false, if t.left.Nil? then t.right else t.left); }
  }

  /** Extraction below `root`: new subtree, done flag and the very node that leaves. */
  method ExtractRecursive(root: RbNode?, key: int, ghost t: Tree)
    returns (r: RbNode?, done: bool, retv: RbNode?)
    requires Spells(root, t) && Sorted(Inorder(t))
    modifies Nodes(t)
    ensures Spells(r, ExtractRec(t, key).0) && done == ExtractRec(t, key).1
    ensures retv == match ExtractRec(t, key).2 case None => null case Some(n) => n
    decreases t, 2
  {
    if root == null { return null, true, null; }
    Unfold(root, t, true);
    if root.key == key {
      retv := root;
      if root.left == null || root.right == null {
        r, done := Unlink(root, t);
      } else {
        r, done := ExtractHit(root, t);
      }
    } else {
      r, done, retv := ExtractBelow(root, key, t);
    }
  }

  method ExtractBelow(root: RbNode, key: int, ghost t: Tree)
    returns (r: RbNode, done: bool, retv: RbNode?)
    requires Spells(root, t) && t.Bin? && root.key != key && Sorted(Inorder(t))
    modifies Nodes(t)
    ensures Spells(r, ExtractRec(t, key).0) && done == ExtractRec(t, key).1
    ensures retv == match ExtractRec(t, key).2 case None => null case Some(n) => n
    decreases t, 1
  {
    assert allocated(Nodes(t));
    var dir := root.key < key;
    Unfold(root, t, dir);
    DescentNodes(t, key);
    ghost var c := ExtractRec(Child(t, dir), key).0;
    var d;
    d, done, retv := ExtractRecursive(Link(root, dir), key, Child(t, dir));
    Attach(root, dir, d, root.red, root.top, t, c);
    r := root;
    if !done { r, done := BalanceExtract(r, dir, Graft(t, dir, c, t.red, t.top)); }
  }

  /** Two children: the in-order predecessor is extracted from the left and put in place of the root. */
  method ExtractHit(root: RbNode, ghost t: Tree) returns (r: RbNode, done: bool)
    requires Spells(root, t) && t.Bin? && t.left.Bin? && t.right.Bin? && Sorted(Inorder(t))
    modifies Nodes(t)
    ensures Spells(r, ExtractRec(t, root.key).0) && done == ExtractRec(t, root.key).1
    decreases t, 0
  {
    assert allocated(Nodes(t));
    Unfold(root, t, false);
    HeirNodes(t);
    r := FindLast(root.left, t.left);
    ghost var c := ExtractRec(t.left, r.key).0;
    var d, gone;
    d, done, gone := ExtractRecursive(root.left, r.key, t.left);
    Attach(root, false, d, root.red, root.top, t, c);
    ghost var u := Graft(t, false, c, t.red, t.top);
    Replace(root, r, u);
    if !done { r, done := BalanceExtract(r, false, u.(node := r)); }
  }

  // ---------------------------------------------------------------- the public operations

  /** The root is painted black and flagged. */
  method CrownRoot(root: RbNode, ghost t: Tree)
    requires Spells(root, t) && t.Bin?
    modifies root
    ensures Spells(root, t.(red := false, top := true))
  {
    assert allocated(Nodes(t));
    Unfold(root, t, true);
    root.red, root.top := false, true;
    Fold(root, t.(red := false, top := true), true);
  }

  /** The root pointer a client holds, with the tree it spells. */
  /** What the value function does at the root. */
  lemma InsertIs(t: Tree, n: RbNode)
    ensures t == Nil ==>
        RbTree.Insert(t, n) == (Bin(Nil, n, false, true, Nil), true) &&
        Apply(t, DoInsert(n)) == Bin(Nil, n, false, true, Nil)
    ensures t.Bin? ==> var (u, dup) := InsertRec(t, n);
              RbTree.Insert(t, n) == if dup then (u, false) else (u.(red := false, top := true), true)
    ensures RbTree.Insert(t, n).1 ==> n in Nodes(RbTree.Insert(t, n).0)
    ensures Apply(t, DoInsert(n)) == RbTree.Insert(t, n).0 && (Restores(t, DoInsert(n)) <==> !Has(Inorder(t), n.key))
  {
    InsertRecNodes(t, n);
  }

  class RbRoot {
    var root: RbNode?
    ghost var tree: Tree

    ghost predicate Valid()
      reads this, Nodes(tree)
    {
      Spells(root, tree) && Sound(tree)
    }

    constructor ()
      ensures Valid() && tree == Nil
    {
      root, tree := null, Nil;
    }

    /** The first node becomes a black root. */
    method Plant(node: RbNode)
      requires Valid() && root == null && node.left == null && node.right == null
      modifies this, node
      ensures tree == Bin(Nil, node, false, true, Nil) && Spells(root, tree) && old(tree) == Nil
    {
      node.top, node.red := true, false;
      root, tree := node, Bin(Nil, node, false, true, Nil);
    }

    /** The walk down from a root that is there. */
    method InsertBelow(node: RbNode) returns (done: bool)
      requires root != null && Spells(root, tree) && node !in Nodes(tree)
      requires node.left == null && node.right == null && node.red && !node.top
      modifies this, Nodes(tree), node
      ensures Spells(root, tree) && (tree, done) == RbTree.Insert(old(tree), node)
    {
      InsertRecNodes(tree, node);
      assert allocated(Nodes(tree));
      ghost var t := tree;
      var dup;
      root, dup := InsertRecursive(root, node, t);
      ghost var u := InsertRec(t, node).0;
      done := !dup;
      if done {
        CrownRoot(root, u);
        u := u.(red := false, top := true);
      }
      tree := u;
    }

    method Insert(node: RbNode) returns (done: bool)
      requires Valid() && node !in Nodes(tree) && !node.top
      modifies this, Nodes(tree), node
      ensures Valid() && (tree, done) == RbTree.Insert(old(tree), node)
      ensures done <==> !Has(Inorder(old(tree)), node.key)
      ensures done ==> RedBlack(tree) && node in Nodes(tree)
    {
      StepKeepsSound(tree, DoInsert(node));
      InsertRefinesList(tree, node);
      InsertIs(tree, node);
      hide InsertRec, Inorder, Sorted, Sound, RedBlack, Has, RbTree.Insert, Apply, Restores;
      assert allocated(Nodes(tree));
      node.left, node.right, node.red := null, null, true;
      if root == null {
        Plant(node);
        done := true;
      } else {
        done := InsertBelow(node);
      }
    }

    method Extract(key: int) returns (out: RbNode?)
      requires Valid()
      modifies this, Nodes(tree)
      ensures Valid() && tree == RbTree.Extract(old(tree), key).0 && RedBlack(tree)
      ensures out == match RbTree.Extract(old(tree), key).1 case None => null case Some(n) => n
    {
      ghost var t := tree;
      StepKeepsSound(t, DoExtract(key));
      out := null;
      if root != null {
        var done;
        root, done, out := ExtractRecursive(root, key, t);
        tree := ExtractRec(t, key).0;
        if root != null {
          ExtractRecNodes(t, key);
          CrownRoot(root, tree);
          tree := tree.(red := false, top := true);
        }
      }
    }
  }

  /** The node that leaves is the one of that key, and exactly that node leaves. */
  lemma ExtractRemovesNode(t: Tree, key: int)
    requires Sorted(Inorder(t))
    ensures var (u, out) := RbTree.Extract(t, key);
            && (out.Some? <==> Has(Inorder(t), key))
            && (out.Some? ==> out.value.key == key && out.value in Nodes(t))
            && Nodes(u) == Nodes(t) - Only(out)
  {
    ExtractRecInorder(t, key);
    ExtractRecNodes(t, key);
    var i := ListFindMeaning(Inorder(t), key);
  }
}
