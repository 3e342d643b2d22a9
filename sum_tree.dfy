/**
 * The serial tree-sum benchmark: the sum of the values of a binary tree, by
 * plain recursion and by a loop over an explicit stack of continuation frames.
 * The tree is not changed by either, so it is a value here.
 */
module SumTree {

  /** A tree: `null`, or a node with its value and two subtrees. */
  datatype Tree = Null | Node(left: Tree, value: int, right: Tree)

  /** `sum_recursive`. */
  function SumRecursive(n: Tree): int
  {
    match n
    case Null => 0
    case Node(l, v, r) => SumRecursive(l) + SumRecursive(r) + v
  }

  /** `vkont`: K1 waits for the left subtree of its node, K2 holds the left sum
      and waits for the right subtree, K3 is the bottom of the stack. */
  datatype Frame = K1(n: Tree) | K2(s0: int, n: Tree) | K3

  /** K3 at the bottom and only there; K1 and K2 frames hold nodes. */
  predicate WellFormed(k: seq<Frame>)
  {
    |k| >= 1 && k[0] == K3 &&
    forall i :: 1 <= i < |k| ==> !k[i].K3? && k[i].n.Node?
  }

  function FrameWeight(f: Frame): nat
  {
    match f
    case K1(_) => 2
    case K2(_, _) => 1
    case K3 => 0
  }

  function Weight(k: seq<Frame>): nat
  {
    if k == [] then 0 else Weight(k[..|k| - 1]) + FrameWeight(k[|k| - 1])
  }

  /** What the stack does with the sum `s` of the subtree just finished: a K1
      frame turns into a K2 frame holding `s` and the right subtree is summed; a
      K2 frame adds its left sum, `s` and its node's value and is popped; K3 gives
      the answer. */
  function Resume(k: seq<Frame>, s: int): int
    requires WellFormed(k)
    decreases Weight(k)
  {
    var f := k[|k| - 1];
    var rest := k[..|k| - 1];
    match f
    case K3 => s
    case K1(node) =>
      assert WellFormed(rest + [K2(s, node)]);
      Resume(rest + [K2(s, node)], SumRecursive(node.right))
    case K2(s0, node) =>
      Resume(rest, s0 + s + node.value)
  }

  /** Pushing a K1 frame for a node and summing its left subtree resumes the
      stack with the sum of the whole node. */
  lemma ResumeDescend(k: seq<Frame>, n: Tree)
    requires WellFormed(k) && n.Node?
    ensures WellFormed(k + [K1(n)])
    ensures Resume(k + [K1(n)], SumRecursive(n.left)) == Resume(k, SumRecursive(n))
  {
    var k1 := k + [K1(n)];
    assert k1[..|k1| - 1] == k;
    var k2 := k + [K2(SumRecursive(n.left), n)];
    assert k2[..|k2| - 1] == k;
  }

  /** The steps the loop still has to take descending into a subtree. */
  function Cost(n: Tree): nat
  {
    match n
    case Null => 1
    case Node(l, _, r) => Cost(l) + Cost(r) + 3
  }

  /** The steps the loop still has to take for the frames of a stack. */
  function StackCost(k: seq<Frame>): nat
  {
    if k == [] then 0
    else
      StackCost(k[..|k| - 1]) +
        match k[|k| - 1]
        case K1(node) => 2 + (if node.Node? then Cost(node.right) else 0)
        case K2(_, _) => 1
        case K3 => 0
  }

  /** `sum`: descends to the left pushing K1 frames; at a null subtree it walks
      the stack back with the partial sum `s`.  Returns the answer and the
      stack, which still holds its K3 bottom frame. */
  method Sum(n0: Tree, k0: seq<Frame>) returns (answer: int, k: seq<Frame>)
    requires WellFormed(k0)
    ensures answer == Resume(k0, SumRecursive(n0))
    ensures k == [K3]
  {
    var n := n0;
    k := k0;
    while true
      invariant WellFormed(k)
      invariant Resume(k, SumRecursive(n)) == Resume(k0, SumRecursive(n0))
      decreases Cost(n) + StackCost(k)
    {
      if n == Null {
        var s := 0;
        ghost var start := StackCost(k);
        while true
          invariant WellFormed(k)
          invariant Resume(k, s) == Resume(k0, SumRecursive(n0))
          invariant StackCost(k) <= start
          decreases StackCost(k)
        {
          var f := k[|k| - 1];
          var rest := k[..|k| - 1];
          if f.K1? {
            n := f.n.right;
            k := rest + [K2(s, f.n)];
            assert k[..|k| - 1] == rest;
            break;
          } else if f.K2? {
            s := f.s0 + s + f.n.value;
            k := rest;
          } else {
            answer := s;
            return;
          }
        }
      } else {
        ResumeDescend(k, n);
        var k' := k + [K1(n)];
        assert k'[..|k'| - 1] == k;
        k := k';
        n := n.left;
      }
    }
  }

  /** `sum_iterative`: the loop on a stack holding only K3 computes the same sum
      as the recursion, so the two algorithms the benchmark dispatches between
      agree. */
  method SumIterative(n: Tree) returns (answer: int)
    ensures answer == SumRecursive(n)
  {
    var k;
    answer, k := Sum(n, [K3]);
  }

  /** A three-node tree: sum 1 + 2 + 3. */
  method SumExample() returns (answer: int)
    ensures answer == 6
  {
    answer := SumIterative(Node(Node(Null, 1, Null), 2, Node(Null, 3, Null)));
  }
}
