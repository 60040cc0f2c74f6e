/**
 Colours, black counts and the root flag: what every insertion, duplicate insertion and extraction
 keeps, over whole runs, and what the library's own checker decides.
 */
module RbShape {
  import opened RbTree
  import opened RbOrder

  /** Black nodes on the leftmost path; the same on every path of a balanced tree. */
  function Blacks(t: Tree): nat {
    if t.Nil? then 0 else Blacks(t.left) + if t.red then 0 else 1
  }

  predicate Balanced(t: Tree) {
    t.Nil? || (Balanced(t.left) && Balanced(t.right) && Blacks(t.left) == Blacks(t.right))
  }

  predicate NoRedRed(t: Tree) {
    t.Nil? ||
    (NoRedRed(t.left) && NoRedRed(t.right) && (t.red ==> !Red(t.left) && !Red(t.right)))
  }

  /** A red-black subtree: its root may have either colour. */
  predicate Proper(t: Tree) {
    Balanced(t) && NoRedRed(t)
  }

  /** Proper, but for at most one red-red edge, which starts at the root. */
  predicate Nearly(t: Tree) {
    t.Nil? ||
    (Proper(t.left) && Proper(t.right) && Blacks(t.left) == Blacks(t.right) &&
     !(t.red && Red(t.left) && Red(t.right)))
  }

  // ---------------------------------------------------------------- insertion

  /** Lifting a red child over a root: the root's black count moves up with it. */
  lemma RotateShape(t: Tree, right: bool)
    requires t.Bin? && Red(Child(t, !right))
    requires Proper(Child(t, right)) && !Red(Child(t, right)) && Blacks(t.left) == Blacks(t.right)
    requires var c := Child(t, !right);
             Proper(c.left) && Proper(c.right) && Blacks(c.left) == Blacks(c.right) && !Red(Child(c, right))
    ensures Proper(Rotate(t, right)) && !Red(Rotate(t, right))
    ensures Blacks(Rotate(t, right)) == Blacks(Child(t, right)) + 1
  {
    var r := Rotate(t, right);
    assert Proper(Child(r, right)) && Proper(Child(r, !right));
  }

  lemma DoubleRotateShape(t: Tree, right: bool)
    requires t.Bin? && Red(Child(t, !right)) && Red(Child(Child(t, !right), right))
    requires Proper(Child(t, right)) && !Red(Child(t, right)) && Blacks(t.left) == Blacks(t.right)
    requires var c := Child(t, !right);
             Proper(c.left) && Proper(c.right) && Blacks(c.left) == Blacks(c.right) && !Red(Child(c, !right))
    ensures Proper(DoubleRotate(t, right)) && !Red(DoubleRotate(t, right))
    ensures Blacks(DoubleRotate(t, right)) == Blacks(Child(t, right)) + 1
  {
    var g := Child(Child(t, !right), right);
    assert Proper(g.left) && Proper(g.right);
    var r := DoubleRotate(t, right);
    assert Proper(Child(r, right)) && Proper(Child(r, !right));
  }

  lemma InsertBalanceShape(t: Tree, dir: bool)
    requires t.Bin? && Blacks(t.left) == Blacks(t.right)
    requires Nearly(Child(t, dir)) && Proper(Child(t, !dir))
    requires t.red ==> Proper(Child(t, dir))
    requires t.red ==> !(Red(t.left) && Red(t.right))
    ensures Nearly(InsertBalance(t, dir)) && Blacks(InsertBalance(t, dir)) == Blacks(t)
    ensures !t.red ==> Proper(InsertBalance(t, dir))
  {
    var c := Child(t, dir);
    if Red(c) {
      assert Proper(c.left) && Proper(c.right);
      if Red(Child(t, !dir)) {
        assert Proper(Blacken(t.left)) && Proper(Blacken(t.right));
      } else if !t.red {
        if Red(Child(c, dir)) { RotateShape(t, !dir); }
        else if Red(Child(c, !dir)) { DoubleRotateShape(t, !dir); }
      }
    }
  }

  lemma {:induction false} InsertRecShape(t: Tree, n: RbNode)
    requires Proper(t)
    ensures var r := InsertRec(t, n).0;
            Nearly(r) && Blacks(r) == Blacks(t) && (!Red(t) ==> Proper(r)) && r.Bin?
  {
    if t.Bin? && t.node.key != n.key {
      var dir := t.node.key < n.key;
      InsertRecShape(Child(t, dir), n);
      InsertBalanceShape(WithChild(t, dir, InsertRec(Child(t, dir), n).0), dir);
    }
  }

  /** The same step at the root, which an earlier duplicate may have left red over one red child. */
  lemma InsertRootShape(t: Tree, n: RbNode)
    requires t.Bin? && Nearly(t)
    ensures InsertRec(t, n).0.Bin? && Nearly(InsertRec(t, n).0)
  {
    if t.node.key != n.key {
      var dir := t.node.key < n.key;
      InsertRecShape(Child(t, dir), n);
    }
  }

  // ---------------------------------------------------------------- extraction

  /** A subtree `r` that stands for `t` after a removal: whole again, or short by one black node. */
  predicate Recovers(t: Tree, r: Tree, done: bool) {
    && Proper(r)
    && (if done then Blacks(r) == Blacks(t) && (Red(r) ==> Red(t))
        else !Red(t) && !Red(r) && Blacks(r) + 1 == Blacks(t))
  }

  /** `p` holds a child `dir` short by one, beside a black sibling. */
  predicate Short(p: Tree, dir: bool) {
    && p.Bin? && Proper(p.left) && Proper(p.right)
    && !Red(p.left) && !Red(p.right)
    && Blacks(Child(p, dir)) + 1 == Blacks(Child(p, !dir))
  }

  /** Black nodes `p` had before its child `dir` became short. */
  function Whole(p: Tree, dir: bool): nat
    requires p.Bin?
  {
    Blacks(Child(p, !dir)) + if p.red then 0 else 1
  }

  lemma ExtractRotateShape(p: Tree, dir: bool, red: bool)
    requires Short(p, dir) && (Red(Child(p, !dir).left) || Red(Child(p, !dir).right))
    ensures var q := ExtractRotate(p, dir, red);
            Proper(q) && q.red == red &&
            Blacks(q) == Blacks(Child(p, !dir)) + if red then 0 else 1
  {
    var s := Child(p, !dir);
    var q := ExtractRotate(p, dir, red);
    assert Proper(s.left) && Proper(s.right);
    if Red(Child(s, !dir)) {
      assert Proper(Child(q, !dir)) && Child(q, !dir) == Blacken(Child(s, !dir));
    } else {
      var g := Child(s, dir);
      assert Proper(g.left) && Proper(g.right);
      assert Child(q, !dir) == Graft(s, dir, Child(g, !dir), false, false);
      assert Proper(Child(q, !dir));
    }
    assert Child(q, dir).Bin? && Proper(Child(q, dir));
  }

  lemma ExtractAbsorbShape(p: Tree, dir: bool, red: bool)
    requires Short(p, dir) && red == p.red
    ensures var (q, done) := ExtractAbsorb(p, dir, red);
            Proper(q) && (Red(q) ==> p.red) &&
            (if done then Blacks(q) == Whole(p, dir)
             else !p.red && !Red(q) && Blacks(q) + 1 == Whole(p, dir))
  {
    var s := Child(p, !dir);
    if Red(s.left) || Red(s.right) {
      ExtractRotateShape(p, dir, red);
    } else if s.Bin? {
      assert Proper(s.left) && Proper(s.right) && Proper(s.(red := true));
    }
  }

  lemma ExtractBalanceShape(t: Tree, dir: bool)
    requires t.Bin? && Proper(t.left) && Proper(t.right) && !Red(Child(t, dir))
    requires t.red ==> !Red(Child(t, !dir))
    requires Blacks(Child(t, dir)) + 1 == Blacks(Child(t, !dir))
    ensures var (q, done) := ExtractBalance(t, dir);
            Proper(q) && (Red(q) ==> t.red) &&
            (if done then Blacks(q) == Whole(t, dir)
             else !t.red && !Red(q) && Blacks(q) + 1 == Whole(t, dir))
  {
    if Red(Child(t, !dir)) {
      var p := Child(Rotate(t, dir), dir);
      assert Short(p, dir);
      ExtractAbsorbShape(p, dir, true);
    } else {
      ExtractAbsorbShape(t, dir, t.red);
    }
  }

  /** Each recursive call restores the black count and is done, or is black and short by exactly one. */
  lemma {:induction false} ExtractRecShape(t: Tree, key: int)
    requires Proper(t)
    ensures Recovers(t, ExtractRec(t, key).0, ExtractRec(t, key).1)
  {
    if t.Bin? && t.node.key == key && (t.left.Nil? || t.right.Nil?) {
      var save := if t.left.Nil? then t.right else t.left;
      assert Blacks(save) == 0;
      assert Blacks(t.left) == 0 && Blacks(Nil) == 0;
      if save.Bin? {
        assert save.red && !t.red && Blacks(save.left) == 0;
        assert Proper(save);
        assert Proper(save.left) && Proper(save.right);
      }
    } else if t.Bin? {
      var dir := t.node.key < key;
      var hit := t.node.key == key;
      var heir := if hit then Last(t.left) else t.node;
      var k := if hit then heir.key else key;
      ExtractRecShape(Child(t, dir), k);
      var (c, done, _) := ExtractRec(Child(t, dir), k);
      if !done { ExtractBalanceShape(Relink(t, dir, c, heir), dir); }
    }
  }

  /** At a root that is red over one red child the same recursion still leaves a tree to blacken. */
  lemma ExtractRootShape(t: Tree, key: int)
    requires Nearly(t)
    ensures Proper(Blacken(ExtractRec(t, key).0))
  {
    if t.Bin? && !(t.node.key == key && (t.left.Nil? || t.right.Nil?)) {
      var dir := t.node.key < key;
      var hit := t.node.key == key;
      var heir := if hit then Last(t.left) else t.node;
      var k := if hit then heir.key else key;
      ExtractRecShape(Child(t, dir), k);
      var (c, done, _) := ExtractRec(Child(t, dir), k);
      var u := Relink(t, dir, c, heir);
      if !done {
        if Red(Child(u, !dir)) {
          var p := Child(Rotate(u, dir), dir);
          assert Short(p, dir);
          ExtractAbsorbShape(p, dir, true);
        } else {
          ExtractAbsorbShape(u, dir, u.red);
        }
      }
    }
  }

  // ---------------------------------------------------------------- the root flag

  predicate NoTop(t: Tree) {
    t.Nil? || (!t.top && NoTop(t.left) && NoTop(t.right))
  }

  /** The root carries the root flag and no other node does. */
  predicate Crowned(t: Tree) {
    t.Nil? || (t.top && NoTop(t.left) && NoTop(t.right))
  }

  /** The flag of the root of `r` is that of `t`; no flag below either. */
  predicate SameTop(t: Tree, r: Tree) {
    t.Bin? && r.Bin? && r.top == t.top && NoTop(r.left) && NoTop(r.right)
  }

  lemma InsertBalanceTop(t: Tree, dir: bool)
    requires t.Bin? && NoTop(t.left) && NoTop(t.right)
    ensures SameTop(t, InsertBalance(t, dir))
  {
  }

  lemma {:induction false} InsertRecTop(t: Tree, n: RbNode)
    requires t.Bin? ==> NoTop(t.left) && NoTop(t.right)
    ensures var r := InsertRec(t, n).0; if t.Nil? then NoTop(r) else SameTop(t, r)
  {
    if t.Bin? && t.node.key != n.key {
      var dir := t.node.key < n.key;
      InsertRecTop(Child(t, dir), n);
      InsertBalanceTop(WithChild(t, dir, InsertRec(Child(t, dir), n).0), dir);
    }
  }

  lemma ExtractAbsorbTop(p: Tree, dir: bool, red: bool)
    requires p.Bin? && NoTop(p.left) && NoTop(p.right)
    ensures SameTop(p, ExtractAbsorb(p, dir, red).0)
  {
  }

  lemma ExtractBalanceTop(t: Tree, dir: bool)
    requires t.Bin? && NoTop(t.left) && NoTop(t.right)
    ensures SameTop(t, ExtractBalance(t, dir).0)
  {
    if Red(Child(t, !dir)) { ExtractAbsorbTop(Child(Rotate(t, dir), dir), dir, true); }
    else { ExtractAbsorbTop(t, dir, t.red); }
  }

  lemma {:induction false} ExtractRecTop(t: Tree, key: int)
    requires t.Bin? ==> NoTop(t.left) && NoTop(t.right)
    ensures var r := ExtractRec(t, key).0; r.Bin? ==> NoTop(r) || SameTop(t, r)
  {
    if t.Bin? && !(t.node.key == key && (t.left.Nil? || t.right.Nil?)) {
      var dir := t.node.key < key;
      var hit := t.node.key == key;
      var heir := if hit then Last(t.left) else t.node;
      var k := if hit then heir.key else key;
      ExtractRecTop(Child(t, dir), k);
      var (c, done, _) := ExtractRec(Child(t, dir), k);
      if !done { ExtractBalanceTop(Relink(t, dir, c, heir), dir); }
    }
  }

  // ---------------------------------------------------------------- runs

  /** What every run keeps: sorted, balanced, at most one red-red edge at the root, one root flag. */
  ghost predicate Sound(t: Tree) {
    Sorted(Inorder(t)) && Nearly(t) && Crowned(t)
  }

  /** A textbook red-black tree with a black root. */
  ghost predicate RedBlack(t: Tree) {
    Sound(t) && Proper(t) && !Red(t)
  }

  /** An insertion that goes in, and any extraction, end in a red-black tree. */
  ghost predicate Restores(t: Tree, op: Op) {
    match op
    case DoInsert(n) => !Has(Inorder(t), n.key)
    case DoExtract(_) => true
  }

  lemma StepKeepsSound(t: Tree, op: Op)
    requires Sound(t)
    ensures Sound(Apply(t, op))
    ensures Restores(t, op) ==> RedBlack(Apply(t, op))
  {
    match op
    case DoInsert(n) =>
      InsertRefinesList(t, n);
      if t.Bin? {
        InsertRootShape(t, n);
        InsertRecTop(t, n);
      }
    case DoExtract(k) =>
      ExtractRefinesList(t, k);
      ExtractRootShape(t, k);
      ExtractRecTop(t, k);
  }

  /** Over every run from the empty tree; the last step decides whether the tree is fully red-black. */
  lemma {:induction false} RunKeepsSound(t: Tree, ops: seq<Op>)
    requires Sound(t)
    ensures Sound(Run(t, ops))
    ensures ops != [] && Restores(Run(t, ops[..|ops| - 1]), ops[|ops| - 1]) ==> RedBlack(Run(t, ops))
    decreases |ops|
  {
    if ops != [] {
      StepKeepsSound(t, ops[0]);
      RunKeepsSound(Apply(t, ops[0]), ops[1..]);
      if |ops| > 1 { assert ops[..|ops| - 1][1..] == ops[1..][..|ops| - 2]; }
      else { assert ops[..0] == []; }
    }
  }

  function Leaf(n: RbNode, red: bool): Tree {
    Bin(Nil, n, red, false, Nil)
  }

  lemma LeafFacts(n: RbNode, red: bool)
    ensures Proper(Leaf(n, red)) && Blacks(Leaf(n, red)) == (if red then 0 else 1)
    ensures NoTop(Leaf(n, red)) && Inorder(Leaf(n, red)) == [n]
    ensures Verify(Leaf(n, red)) == if red then 1 else 2
  {
    assert Verify(Nil) == 1 && Proper(Nil) && NoTop(Nil);
  }

  /** A duplicate's colour flips reach the top: on the way down every sibling is red, until a red node. */
  predicate FlipsUp(t: Tree, key: int) {
    t.Bin? && (t.red || (t.node.key != key && Red(Child(t, key < t.node.key)) &&
        FlipsUp(Child(t, t.node.key < key), key)))
  }

  /** The colour a duplicate insertion leaves at the top of a proper subtree. */
  lemma {:induction false} DuplicateColour(t: Tree, n: RbNode)
    requires Proper(t) && InsertRec(t, n).1
    ensures Red(InsertRec(t, n).0) <==> FlipsUp(t, n.key)
  {
    if t.node.key != n.key {
      var dir := t.node.key < n.key;
      InsertRecShape(Child(t, dir), n);
      DuplicateColour(Child(t, dir), n);
    }
  }

  /**
   When a duplicate leaves the root black: a black root that no flip reaches, or a red root over a red
   child that a flip from below makes rotate.
   */
  predicate EndsBlack(t: Tree, key: int) {
    t.Bin? &&
    if !t.red then !FlipsUp(t, key)
    else
      t.node.key != key &&
      var dir := t.node.key < key;
      var c := Child(t, dir);
      Red(c) && !Red(Child(t, !dir)) && c.node.key != key && FlipsUp(Child(c, c.node.key < key), key)
  }

  lemma DuplicateRootColour(t: Tree, n: RbNode)
    requires t.Bin? && Nearly(t) && InsertRec(t, n).1
    ensures !Red(InsertRec(t, n).0) <==> EndsBlack(t, n.key)
  {
    if !t.red {
      DuplicateColour(t, n);
    } else if t.node.key != n.key {
      var c := Child(t, t.node.key < n.key);
      InsertRecShape(c, n);
      DuplicateColour(c, n);
      if Red(c) && c.node.key != n.key {
        var g := Child(c, c.node.key < n.key);
        InsertRecShape(g, n);
        DuplicateColour(g, n);
      }
    }
  }

  /** Exactly when a step ends in a textbook red-black tree, from every state a run can reach. */
  lemma StepRestoresIff(t: Tree, op: Op)
    requires Sound(t)
    ensures RedBlack(Apply(t, op)) <==> Restores(t, op) || (op.DoInsert? && EndsBlack(t, op.n.key))
  {
    StepKeepsSound(t, op);
    if op.DoInsert? { InsertRefinesList(t, op.n); }
    if op.DoInsert? && t.Bin? && InsertRec(t, op.n).1 {
      DuplicateRootColour(t, op.n);
      InsertRootShape(t, op.n);
    }
  }

  // ---------------------------------------------------------------- rbtree_verify

  function Verify(t: Tree): nat {
    if t.Nil? then 1
    else if t.red && (Red(t.left) || Red(t.right)) then 0
    else
      var lh, rh := Verify(t.left), Verify(t.right);
      if (t.left.Bin? && t.left.node.key >= t.node.key) ||
         (t.right.Bin? && t.right.node.key <= t.node.key) then 0
      else if lh != 0 && rh != 0 && lh == rh then (if t.red then lh else lh + 1)
      else 0
  }

  /** Every node against its own children only. */
  predicate LocallyOrdered(t: Tree) {
    t.Nil? ||
    (LocallyOrdered(t.left) && LocallyOrdered(t.right) &&
     (t.left.Bin? ==> t.left.node.key < t.node.key) &&
     (t.right.Bin? ==> t.node.key < t.right.node.key))
  }

  /** The verification routine accepts exactly the proper, locally ordered trees and returns black count plus one. */
  lemma {:induction false} VerifyDecides(t: Tree)
    ensures Verify(t) != 0 <==> Proper(t) && LocallyOrdered(t)
    ensures Verify(t) != 0 ==> Verify(t) == Blacks(t) + 1
  {
    if t.Bin? { VerifyDecides(t.left); VerifyDecides(t.right); }
  }

  lemma {:induction false} SortedIsLocallyOrdered(t: Tree)
    requires Sorted(Inorder(t))
    ensures LocallyOrdered(t)
  {
    if t.Bin? {
      SortedParts(t);
      SortedIsLocallyOrdered(t.left);
      SortedIsLocallyOrdered(t.right);
      if t.left.Bin? { assert Inorder(t.left)[|Inorder(t.left.left)|] == t.left.node; }
      if t.right.Bin? { assert Inorder(t.right)[|Inorder(t.right.left)|] == t.right.node; }
    }
  }

  /** It passes right after any successful insertion or any extraction of any run. */
  lemma VerifyPassesAfterStep(t: Tree, op: Op)
    requires Sound(t) && Restores(t, op)
    ensures Verify(Apply(t, op)) == Blacks(Apply(t, op)) + 1
  {
    StepKeepsSound(t, op);
    SortedIsLocallyOrdered(Apply(t, op));
    VerifyDecides(Apply(t, op));
  }

  /** Its order test looks at parent and child only, so it also accepts a tree that is not sorted. */
  lemma VerifyMissesDeepDisorder(a: RbNode, b: RbNode, c: RbNode, d: RbNode, e: RbNode)
    requires a.key < b.key < d.key < c.key && d.key < e.key
    ensures var t := Bin(Bin(Leaf(a, true), b, false, false, Leaf(c, true)), d, false, true, Leaf(e, false));
            Verify(t) != 0 && !Sorted(Inorder(t))
  {
    LeafFacts(a, true); LeafFacts(c, true); LeafFacts(e, false);
    var m := Bin(Leaf(a, true), b, false, false, Leaf(c, true));
    assert Inorder(m) == [a, b, c];
    assert Verify(m) == 2;
    var t := Bin(m, d, false, true, Leaf(e, false));
    assert Inorder(t)[2] == c && Inorder(t)[3] == d;
  }

  // ---------------------------------------------------------------- height

  function Size(t: Tree): nat {
    if t.Nil? then 0 else 1 + Size(t.left) + Size(t.right)
  }

  function Height(t: Tree): nat {
    if t.Nil? then 0
    else 1 + if Height(t.left) < Height(t.right) then Height(t.right) else Height(t.left)
  }

  function Pow2(n: nat): nat {
    if n == 0 then 1 else 2 * Pow2(n - 1)
  }

  lemma {:induction false} BlacksBoundSize(t: Tree)
    requires Proper(t)
    ensures Pow2(Blacks(t)) <= Size(t) + 1
  {
    if t.Bin? { BlacksBoundSize(t.left); BlacksBoundSize(t.right); }
  }

  lemma {:induction false} BlacksBoundHeight(t: Tree)
    requires Proper(t)
    ensures Height(t) <= 2 * Blacks(t) + if Red(t) then 1 else 0
  {
    if t.Bin? { BlacksBoundHeight(t.left); BlacksBoundHeight(t.right); }
  }

  lemma {:induction false} Pow2Double(b: nat)
    ensures Pow2(2 * b) == Pow2(b) * Pow2(b)
  {
    if b > 0 {
      Pow2Double(b - 1);
      assert Pow2(2 * b) == 2 * Pow2(2 * b - 1) == 4 * Pow2(2 * (b - 1));
    }
  }

  lemma {:induction false} Pow2Monotone(a: nat, b: nat)
    requires a <= b
    ensures Pow2(a) <= Pow2(b)
    decreases b - a
  {
    if a < b { Pow2Monotone(a + 1, b); }
  }

  lemma {:induction false} SquareMonotone(p: nat, n: nat)
    requires p <= n
    ensures p * p <= n * n
    decreases n - p
  {
    if p < n {
      SquareMonotone(p + 1, n);
      assert (p + 1) * (p + 1) == p * p + 2 * p + 1;
    }
  }

  /** Height at most 2*log2(n+1), written without logarithms. */
  lemma HeightBound(t: Tree)
    requires Proper(t) && !Red(t)
    ensures Pow2(Height(t)) <= (Size(t) + 1) * (Size(t) + 1)
  {
    BlacksBoundSize(t);
    BlacksBoundHeight(t);
    Pow2Double(Blacks(t));
    Pow2Monotone(Height(t), 2 * Blacks(t));
    SquareMonotone(Pow2(Blacks(t)), Size(t) + 1);
  }

  /** The same bound after any run, whatever colour a duplicate left at the root. */
  lemma RunHeightBound(ops: seq<Op>)
    ensures var t := Run(Nil, ops); Pow2(Height(t)) <= (Size(t) + 1) * (Size(t) + 1)
  {
    RunKeepsSound(Nil, ops);
    var t := Run(Nil, ops);
    if t.Bin? {
      var u := Blacken(t);
      assert Proper(u) && Size(u) == Size(t) && Height(u) == Height(t);
      HeightBound(u);
    }
  }

  /** Comparisons of the search for `key` and of an insertion, which descends the same way. */
  function Comparisons(t: Tree, key: int): nat {
    if t.Nil? then 0
    else if t.node.key == key then 1
    else 1 + Comparisons(Child(t, t.node.key < key), key)
  }

  /** Comparisons of an extraction: after a hit with two children the descent goes on to the heir. */
  function ExtractComparisons(t: Tree, key: int): nat {
    if t.Nil? then 0
    else if t.node.key == key && (t.left.Nil? || t.right.Nil?) then 1
    else
      1 + ExtractComparisons(Child(t, t.node.key < key), if t.node.key == key then Last(t.left).key else key)
  }

  lemma {:induction false} ComparisonsBound(t: Tree, key: int)
    ensures Comparisons(t, key) <= Height(t) && ExtractComparisons(t, key) <= Height(t)
  {
    if t.Bin? {
      ComparisonsBound(Child(t, t.node.key < key), key);
      if t.left.Bin? { ComparisonsBound(t.left, Last(t.left).key); }
    }
  }

  /** After any run, searches, insertions and extractions need at most 2*log2(n+1) comparisons. */
  lemma RunComparisonsBound(ops: seq<Op>, key: int)
    ensures var t := Run(Nil, ops);
            && Pow2(Comparisons(t, key)) <= (Size(t) + 1) * (Size(t) + 1)
            && Pow2(ExtractComparisons(t, key)) <= (Size(t) + 1) * (Size(t) + 1)
  {
    var t := Run(Nil, ops);
    RunHeightBound(ops);
    ComparisonsBound(t, key);
    Pow2Monotone(Comparisons(t, key), Height(t));
    Pow2Monotone(ExtractComparisons(t, key), Height(t));
  }
}
