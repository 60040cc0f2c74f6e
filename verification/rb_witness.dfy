/**
 A run that leaves a red-red edge: eleven insertions and two duplicates, tree by tree.
 */
module RbWitness {
  import opened RbTree
  import opened RbOrder
  import opened RbShape

  function R(l: Tree, n: RbNode, r: Tree): Tree {
    Bin(l, n, true, false, r)
  }

  function B(l: Tree, n: RbNode, r: Tree): Tree {
    Bin(l, n, false, false, r)
  }

  /** A black node over two leaves of one colour, and a red one. */
  function Fork(a: RbNode, b: RbNode, c: RbNode, red: bool): Tree {
    B(Leaf(a, red), b, Leaf(c, red))
  }

  function RedFork(a: RbNode, b: RbNode, c: RbNode, red: bool): Tree {
    R(Leaf(a, red), b, Leaf(c, red))
  }

  function Top(l: Tree, n: RbNode, r: Tree, red: bool): Tree {
    Bin(l, n, red, true, r)
  }

  /** Nodes with the keys 0 to 10, and two more with the keys 4 and 8. */
  predicate Keyed(n: seq<RbNode>, e: RbNode, f: RbNode) {
    |n| == 11 && (forall i :: 0 <= i < 11 ==> n[i].key == i) && e.key == 4 && f.key == 8
  }

  /** The nodes in the order they are inserted. */
  function Order(n: seq<RbNode>, e: RbNode, f: RbNode): seq<RbNode>
    requires |n| == 11
  {
    [n[10], n[7], n[6], n[3], n[1], n[0], n[5], n[4], n[9], n[8], n[2], e, f]
  }

  /** The tree after the first `i` insertions. */
  function Stage(n: seq<RbNode>, i: nat): Tree
    requires |n| == 11 && i <= 13
  {
    match i
    case 0 => Nil
    case 1 => Top(Nil, n[10], Nil, false)
    case 2 => Top(Leaf(n[7], true), n[10], Nil, false)
    case 3 => Top(Leaf(n[6], true), n[7], Leaf(n[10], true), false)
    case 4 => Top(B(Leaf(n[3], true), n[6], Nil), n[7], Leaf(n[10], false), false)
    case 5 => Top(Fork(n[1], n[3], n[6], true), n[7], Leaf(n[10], false), false)
    case 6 => Top(R(B(Leaf(n[0], true), n[1], Nil), n[3], Leaf(n[6], false)), n[7], Leaf(n[10], false), false)
    case 7 => Top(R(B(Leaf(n[0], true), n[1], Nil), n[3], B(Leaf(n[5], true), n[6], Nil)), n[7], Leaf(n[10], false),
        false)
    case 8 => Top(R(B(Leaf(n[0], true), n[1], Nil), n[3], Fork(n[4], n[5], n[6], true)), n[7], Leaf(n[10], false),
        false)
    case 9 => Top(R(B(Leaf(n[0], true), n[1], Nil), n[3], Fork(n[4], n[5], n[6], true)), n[7],
        B(Leaf(n[9], true), n[10], Nil), false)
    case 10 => Top(R(B(Leaf(n[0], true), n[1], Nil), n[3], Fork(n[4], n[5], n[6], true)), n[7],
        Fork(n[8], n[9], n[10], true), false)
    case 11 => Top(RedFork(n[0], n[1], n[2], false), n[3],
        R(Fork(n[4], n[5], n[6], true), n[7], Fork(n[8], n[9], n[10], true)), false)
    case 12 => Top(Fork(n[0], n[1], n[2], false), n[3],
        B(RedFork(n[4], n[5], n[6], false), n[7], Fork(n[8], n[9], n[10], true)), true)
    case _ => Top(Fork(n[0], n[1], n[2], false), n[3],
        R(Fork(n[4], n[5], n[6], false), n[7], Fork(n[8], n[9], n[10], false)), true)
  }

  /** One insertion takes each tree to the next; the asserts give the subtrees on the way up. */
  lemma StageStep(n: seq<RbNode>, e: RbNode, f: RbNode, i: nat)
    requires Keyed(n, e, f) && i < 13
    ensures Insert(Stage(n, i), Order(n, e, f)[i]).0 == Stage(n, i + 1)
  {
    var x := Order(n, e, f)[i];
    match i
    case 0 =>
    case 1 =>
      assert InsertRec(Nil, x) == (Leaf(x, true), false);
    case 2 =>
      assert InsertRec(Leaf(n[7], true), x) == (R(Leaf(n[6], true), n[7], Nil), false);
    case 3 =>
      assert InsertRec(Leaf(n[6], true), x) == (R(Leaf(n[3], true), n[6], Nil), false);
    case 4 =>
      assert InsertRec(Leaf(n[3], true), x) == (R(Leaf(n[1], true), n[3], Nil), false);
      assert InsertRec(B(Leaf(n[3], true), n[6], Nil), x) == (Fork(n[1], n[3], n[6], true), false);
    case 5 =>
      assert InsertRec(Leaf(n[1], true), x) == (R(Leaf(n[0], true), n[1], Nil), false);
      assert InsertRec(Fork(n[1], n[3], n[6], true),
          x) == (R(B(Leaf(n[0], true), n[1], Nil), n[3], Leaf(n[6], false)), false);
    case 6 =>
      assert InsertRec(Leaf(n[6], false), x) == (B(Leaf(n[5], true), n[6], Nil), false);
      assert InsertRec(R(B(Leaf(n[0], true), n[1], Nil), n[3], Leaf(n[6], false)),
          x) == (R(B(Leaf(n[0], true), n[1], Nil), n[3], B(Leaf(n[5], true), n[6], Nil)), false);
    case 7 =>
      assert InsertRec(Leaf(n[5], true), x) == (R(Leaf(n[4], true), n[5], Nil), false);
      assert InsertRec(B(Leaf(n[5], true), n[6], Nil), x) == (Fork(n[4], n[5], n[6], true), false);
      assert InsertRec(R(B(Leaf(n[0], true), n[1], Nil), n[3], B(Leaf(n[5], true), n[6], Nil)),
          x) == (R(B(Leaf(n[0], true), n[1], Nil), n[3], Fork(n[4], n[5], n[6], true)), false);
    case 8 =>
      assert InsertRec(Leaf(n[10], false), x) == (B(Leaf(n[9], true), n[10], Nil), false);
    case 9 =>
      assert InsertRec(Leaf(n[9], true), x) == (R(Leaf(n[8], true), n[9], Nil), false);
      assert InsertRec(B(Leaf(n[9], true), n[10], Nil), x) == (Fork(n[8], n[9], n[10], true), false);
    case 10 =>
      assert InsertRec(B(Leaf(n[0], true), n[1], Nil), x) == (RedFork(n[0], n[1], n[2], false), false);
      assert InsertRec(R(B(Leaf(n[0], true), n[1], Nil), n[3], Fork(n[4], n[5], n[6], true)),
          x) == (R(RedFork(n[0], n[1], n[2], false), n[3], Fork(n[4], n[5], n[6], true)), false);
    case 11 =>
      assert InsertRec(Leaf(n[4], true), x) == (Leaf(n[4], true), true);
      assert InsertRec(Fork(n[4], n[5], n[6], true), x) == (RedFork(n[4], n[5], n[6], false), true);
      assert InsertRec(R(Fork(n[4], n[5], n[6], true), n[7], Fork(n[8], n[9], n[10], true)),
          x) == (R(RedFork(n[4], n[5], n[6], false), n[7], Fork(n[8], n[9], n[10], true)), true);
    case _ =>
      assert InsertRec(Leaf(n[8], true), x) == (Leaf(n[8], true), true);
      assert InsertRec(Fork(n[8], n[9], n[10], true), x) == (RedFork(n[8], n[9], n[10], false), true);
      assert InsertRec(B(RedFork(n[4], n[5], n[6], false), n[7], Fork(n[8], n[9], n[10], true)),
          x) == (R(Fork(n[4], n[5], n[6], false), n[7], Fork(n[8], n[9], n[10], false)), true);
  }

  function Inserts(nodes: seq<RbNode>): seq<Op> {
    seq(|nodes|, i requires 0 <= i < |nodes| => DoInsert(nodes[i]))
  }

  lemma {:induction false} RunOneMore(t: Tree, ops: seq<Op>, op: Op)
    ensures Run(t, ops + [op]) == Apply(Run(t, ops), op)
    decreases |ops|
  {
    if ops == [] {
      assert (ops + [op])[1..] == [];
    } else {
      assert (ops + [op])[1..] == ops[1..] + [op];
      RunOneMore(Apply(t, ops[0]), ops[1..], op);
    }
  }

  lemma {:induction false} RunToStage(n: seq<RbNode>, e: RbNode, f: RbNode, i: nat)
    requires Keyed(n, e, f) && i <= 13
    ensures Run(Nil, Inserts(Order(n, e, f)[..i])) == Stage(n, i)
  {
    assert |Order(n, e, f)| == 13;
    hide Insert, Stage, Order;
    var order := Order(n, e, f);
    if i == 0 {
      FirstStage(n);
      assert Inserts(order[..0]) == [];
    } else {
      RunToStage(n, e, f, i - 1);
      StageStep(n, e, f, i - 1);
      RunOneMore(Nil, Inserts(order[..i - 1]), DoInsert(order[i - 1]));
      assert Inserts(order[..i]) == Inserts(order[..i - 1]) + [DoInsert(order[i - 1])];
    }
  }

  lemma FirstStage(n: seq<RbNode>)
    requires |n| == 11
    ensures Stage(n, 0) == Nil
  {
  }

  /**
   Duplicates really leave a red root over a red child, so `Proper` is not what runs keep: after the
   eleven insertions the tree is red-black, the first duplicate leaves a red root, the second a red-red edge.
   */
  lemma DuplicateCanLeaveRedRed(n: seq<RbNode>, e: RbNode, f: RbNode)
    requires Keyed(n, e, f)
    ensures var ops := Inserts(Order(n, e, f));
      && RedBlack(Run(Nil, ops[..11]))
      && Proper(Run(Nil, ops[..12])) && Red(Run(Nil, ops[..12]))
      && Sound(Run(Nil, ops)) && !Proper(Run(Nil, ops))
  {
    var ops, order := Inserts(Order(n, e, f)), Order(n, e, f);
    assert ops[..11] == Inserts(order[..11]) && ops[..12] == Inserts(order[..12]) && order[..13] == order;
    RunToStage(n, e, f, 11);
    RunToStage(n, e, f, 12);
    RunToStage(n, e, f, 13);
    hide Run;
    RunKeepsSound(Nil, ops[..11]);
    RunKeepsSound(Nil, ops[..12]);
    RunKeepsSound(Nil, ops);
  }
}
