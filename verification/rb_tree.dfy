/**
 The red-black tree of libs/red_black_tree.c as functions on values.

 A tree value carries the identity of the node sitting at each position, so that "the matching
 node is returned" and "the in-order predecessor takes its place" can be said of nodes and not
 only of keys. The in-place versions in `RbHeap` are proved equal to these functions.
 */
module RbTree {

  datatype Option<+T> = None | Some(value: T)

  /** A linked node. The comparison function orders nodes by `key`, which never changes. */
  class RbNode {
    const key: int
    var left: RbNode?
    var right: RbNode?
    var red: bool
    var top: bool

    constructor (key: int)
      ensures this.key == key && left == null && right == null && !red && !top
    {
      this.key := key;
      left, right, red, top := null, null, false, false;
    }
  }

  /** `red` and `top` are the NODE_IS_RED and NODE_IS_ROOT bits of the node's flags word. */
  datatype Tree = Nil | Bin(left: Tree, node: RbNode, red: bool, top: bool, right: Tree)

  predicate Red(t: Tree) {
    t.Bin? && t.red
  }

  function Blacken(t: Tree): Tree {
    if t.Bin? then t.(red := false) else t
  }

  function Child(t: Tree, right: bool): Tree
    requires t.Bin?
  {
    if right then t.right else t.left
  }

  function WithChild(t: Tree, right: bool, c: Tree): (r: Tree)
    requires t.Bin?
    ensures r.Bin? && Child(r, right) == c && Child(r, !right) == Child(t, !right)
  {
    if right then t.(right := c) else t.(left := c)
  }

  /** A new child on one side together with new flags. */
  function Graft(t: Tree, right: bool, c: Tree, red: bool, top: bool): (r: Tree)
    requires t.Bin?
    ensures r.Bin? && Child(r, right) == c && Child(r, !right) == Child(t, !right)
    ensures r.node == t.node && r.red == red && r.top == top
  {
    if right then t.(right := c, red := red, top := top) else t.(left := c, red := red, top := top)
  }

  /** The tree with a new child on one side and, when the node is extracted, its heir in its place. */
  function Relink(t: Tree, right: bool, c: Tree, heir: RbNode): (r: Tree)
    requires t.Bin?
    ensures r.Bin? && Child(r, right) == c && Child(r, !right) == Child(t, !right)
  {
    var u := WithChild(t, right, c);
    u.(node := heir)
  }

  /** Rotation towards `right` or left; recolours both nodes and hands the root flag up. */
  function Rotate(t: Tree, right: bool): Tree
    requires t.Bin? && Child(t, !right).Bin?
  {
    var save := Child(t, !right);
    Graft(save, right, Graft(t, !right, Child(save, right), true, false), false, save.top || t.top)
  }

  function DoubleRotate(t: Tree, right: bool): Tree
    requires t.Bin? && Child(t, !right).Bin? && Child(Child(t, !right), right).Bin?
  {
    Rotate(WithChild(t, !right, Rotate(Child(t, !right), !right)), right)
  }

  // ---------------------------------------------------------------- insertion

  /** The balancing that follows the recursive call into child `dir`. */
  function InsertBalance(t: Tree, dir: bool): Tree
    requires t.Bin?
  {
    var c := Child(t, dir);
    if !Red(c) then t
    else if Red(Child(t, !dir)) then
      t.(red := true, left := Blacken(t.left), right := Blacken(t.right))
    else if Red(Child(c, dir)) then Rotate(t, !dir)
    else if Red(Child(c, !dir)) then DoubleRotate(t, !dir)
    else t
  }

  /** Returns the new subtree and whether the key was already there. */
  function InsertRec(t: Tree, n: RbNode): (Tree, bool) {
    if t.Nil? then (Bin(Nil, n, true, false, Nil), false)
    else if t.node.key == n.key then (t, true)
    else
      var dir := t.node.key < n.key;
      var (c, dup) := InsertRec(Child(t, dir), n);
      (InsertBalance(WithChild(t, dir, c), dir), dup)
  }

  /** Returns the new tree and whether `n` went in; a duplicate leaves the root's colour alone. */
  function Insert(t: Tree, n: RbNode): (Tree, bool) {
    if t.Nil? then (Bin(Nil, n, false, true, Nil), true)
    else
      var (u, dup) := InsertRec(t, n);
      if dup || u.Nil? then (u, false) else (u.(red := false, top := true), true)
  }

  // ---------------------------------------------------------------- extraction

  /** Rotation around `p` whose sibling has a red child; both new children end up black. */
  function ExtractRotate(p: Tree, dir: bool, red: bool): Tree
    requires p.Bin? && Child(p, !dir).Bin?
    requires Red(Child(p, !dir).left) || Red(Child(p, !dir).right)
  {
    var q := if Red(Child(Child(p, !dir), !dir)) then Rotate(p, dir) else DoubleRotate(p, dir);
    q.(red := red, left := Blacken(q.left), right := Blacken(q.right))
  }

  /** Second step at `p`: new subtree for `p`, and whether the removal is absorbed. */
  function ExtractAbsorb(p: Tree, dir: bool, red: bool): (Tree, bool)
    requires p.Bin?
  {
    var s := Child(p, !dir);
    if s.Nil? then (p, false)
    else if !Red(s.left) && !Red(s.right) then
      (Graft(p, !dir, s.(red := true), false, p.top), p.red)
    else (ExtractRotate(p, dir, red), true)
  }

  /** Child `dir` of `t` is one black node short; returns the new subtree and the done flag. */
  function ExtractBalance(t: Tree, dir: bool): (Tree, bool)
    requires t.Bin?
  {
    if Red(Child(t, !dir)) then
      var u := Rotate(t, dir);
      var (p, done) := ExtractAbsorb(Child(u, dir), dir, true);
      (WithChild(u, dir, p), done)
    else ExtractAbsorb(t, dir, t.red)
  }

  /** The rightmost node: the in-order predecessor when applied to a left subtree. */
  function Last(t: Tree): RbNode
    requires t.Bin?
  {
    if t.right.Nil? then t.node else Last(t.right)
  }

  /** Returns the new subtree, the done flag and the node taken out. */
  function ExtractRec(t: Tree, key: int): (Tree, bool, Option<RbNode>) {
    if t.Nil? then (Nil, true, None)
    else if t.node.key == key && (t.left.Nil? || t.right.Nil?) then
      var save := if t.left.Nil? then t.right else t.left;
      (if t.red then save else Blacken(save), t.red || Red(save), Some(t.node))
    else
      var dir := t.node.key < key;
      var hit := t.node.key == key;
      var heir := if hit then Last(t.left) else t.node;
      var (c, done, out) := ExtractRec(Child(t, dir), if hit then heir.key else key);
      var u := Relink(t, dir, c, heir);
      var got := if hit then Some(t.node) else out;
      if done then (u, true, got)
      else
        var (v, d) := ExtractBalance(u, dir);
        (v, d, got)
  }

  function Extract(t: Tree, key: int): (Tree, Option<RbNode>) {
    var (u, _, out) := ExtractRec(t, key);
    (if u.Nil? then Nil else u.(red := false, top := true), out)
  }

  // ---------------------------------------------------------------- runs

  datatype Op = DoInsert(n: RbNode) | DoExtract(key: int)

  function Apply(t: Tree, op: Op): Tree {
    match op
    case DoInsert(n) => Insert(t, n).0
    case DoExtract(k) => Extract(t, k).0
  }

  function Run(t: Tree, ops: seq<Op>): Tree
    decreases |ops|
  {
    if ops == [] then t else Run(Apply(t, ops[0]), ops[1..])
  }
}
