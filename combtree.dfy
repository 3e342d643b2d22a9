/**
 * The combining tree: a complete binary tree of counters stored in level order
 * in one array (the heap).  Adding to a node adds to it and to every ancestor up
 * to the root, so the root counts what all the leaves received.  Sizes and
 * indices are `size_t`, so a height of 0 makes `height - 1` wrap round.
 */
module CombTree {

  /** 2^64, the modulus of `size_t`. */
  const SizeModulus: nat := 0x1_0000_0000_0000_0000

  function Pow2(k: nat): (p: nat)
    ensures p >= 1
  {
    if k == 0 then 1 else 2 * Pow2(k - 1)
  }

  /** `heap_size_of`: `(1 << (height + 1)) - 1`, the `+ 1` taken modulo 2^64. */
  function HeapSizeOf(height: nat): nat
  {
    Pow2((height + 1) % SizeModulus) - 1
  }

  function NbLeaves(height: nat): nat
  {
    Pow2(height)
  }

  /** `get_first_leaf`: `heap_size_of(height - 1)`, the `- 1` taken modulo 2^64. */
  function FirstLeaf(height: nat): nat
  {
    HeapSizeOf((height + SizeModulus - 1) % SizeModulus)
  }

  /** For every `size_t` height the leaves start right after the inner nodes and
      fill the rest of the heap: `get_first_leaf() + get_nb_leaves()` is the heap
      size.  At height 0 the wrap-around of `height - 1` makes the root the first
      leaf. */
  lemma LeavesFillHeap(height: nat)
    requires height + 1 < SizeModulus
    ensures FirstLeaf(height) == Pow2(height) - 1
    ensures HeapSizeOf(height) == Pow2(height + 1) - 1
    ensures FirstLeaf(height) + NbLeaves(height) == HeapSizeOf(height)
    ensures height == 0 ==> FirstLeaf(height) == 0
  {
    if height == 0 {
      assert (height + SizeModulus - 1) % SizeModulus == SizeModulus - 1;
      assert (SizeModulus - 1 + 1) % SizeModulus == 0;
    } else {
      assert (height + SizeModulus - 1) % SizeModulus == height - 1;
    }
  }

  /** `child_of`: child `d` (1 for the left, 2 for the right) of node `n`; the
      child must lie inside the heap. */
  function ChildOf(height: nat, n: nat, d: nat): (c: nat)
    requires d == 1 || d == 2
    requires n < HeapSizeOf(height) && n * 2 + d < HeapSizeOf(height)
    ensures c < HeapSizeOf(height) && c > n
  {
    n * 2 + d
  }

  /** `parent_of`: defined for every node but the root. */
  function ParentOf(n: nat): (p: nat)
    requires n != 0
    ensures p < n
  {
    (n - 1) / 2
  }

  /** The parent of a child is the node it came from, whichever side. */
  lemma ParentOfChild(height: nat, n: nat, d: nat)
    requires d == 1 || d == 2
    requires n < HeapSizeOf(height) && n * 2 + d < HeapSizeOf(height)
    ensures ParentOf(ChildOf(height, n, d)) == n
  {
  }

  /** Exactly the nodes before the first leaf have children in the heap. */
  lemma HasChildrenIffInner(height: nat, n: nat, d: nat)
    requires height + 1 < SizeModulus && (d == 1 || d == 2)
    ensures n * 2 + d < HeapSizeOf(height) <==> n < FirstLeaf(height)
  {
    LeavesFillHeap(height);
    assert Pow2(height + 1) == 2 * Pow2(height);
  }

  /** `is_leaf` as written: it compares the first leaf with itself. */
  function IsLeafAsWritten(height: nat, n: nat): bool
    requires n < HeapSizeOf(height)
  {
    var f := FirstLeaf(height);
    f >= FirstLeaf(height)
  }

  /** As written, the root of a tree of height 1 counts as a leaf although it has
      two children. */
  lemma IsLeafAsWrittenAtRoot()
    ensures IsLeafAsWritten(1, 0)
    ensures 0 * 2 + 2 < HeapSizeOf(1)
  {
    assert HeapSizeOf(1) == 3;
  }

  /** As written, `is_leaf` holds of every node of the heap, whatever the height. */
  lemma IsLeafAsWrittenEverywhere(height: nat)
    ensures forall n: nat :: n < HeapSizeOf(height) ==> IsLeafAsWritten(height, n)
  {
  }

  /** The intended `is_leaf`: the node lies at or after the first leaf. */
  function IsLeaf(height: nat, n: nat): bool
    requires n < HeapSizeOf(height)
  {
    n >= FirstLeaf(height)
  }

  /** Leaves are exactly the nodes without children, and there are `get_nb_leaves()` of them. */
  lemma IsLeafIffNoChild(height: nat, n: nat)
    requires height + 1 < SizeModulus && n < HeapSizeOf(height)
    ensures IsLeaf(height, n) <==> n * 2 + 1 >= HeapSizeOf(height)
    ensures IsLeaf(height, n) <==> n - FirstLeaf(height) < NbLeaves(height) && n >= FirstLeaf(height)
  {
    HasChildrenIffInner(height, n, 1);
    LeavesFillHeap(height);
  }

  /** Node `k` is `n` or one of its ancestors. */
  predicate AncestorOrSelf(k: nat, n: nat)
    decreases n
  {
    k == n || (n != 0 && AncestorOrSelf(k, ParentOf(n)))
  }

  /** The root is an ancestor of every node. */
  lemma {:induction false} RootIsAncestor(n: nat)
    ensures AncestorOrSelf(0, n)
    decreases n
  {
    if n != 0 {
      RootIsAncestor(ParentOf(n));
    }
  }

  /** Ancestors come no later than the node. */
  lemma {:induction false} AncestorBelow(k: nat, n: nat)
    requires AncestorOrSelf(k, n)
    ensures k <= n
    decreases n
  {
    if k != n {
      AncestorBelow(k, ParentOf(n));
    }
  }

  /** `combtree`: the counters of the nodes, in level order. */
  class Tree {
    const height: nat
    const heap: array<int>

    ghost predicate Valid()
    {
      height + 1 < SizeModulus && heap.Length == HeapSizeOf(height)
    }

    /** The counters start with whatever the allocation held. */
    constructor(height: nat)
      requires height + 1 < SizeModulus
      ensures Valid() && fresh(heap) && this.height == height
    {
      this.height := height;
      heap := new int[HeapSizeOf(height)];
    }

    /** `increment_counter_rec`: adds `i` to node `n` and to each of its ancestors. */
    method IncrementCounterRec(n: nat, i: int)
      requires Valid() && n < heap.Length
      modifies heap
      ensures forall k :: 0 <= k < heap.Length ==>
        heap[k] == old(heap[k]) + (if AncestorOrSelf(k, n) then i else 0)
      decreases n
    {
      heap[n] := heap[n] + i;
      if n != 0 {
        IncrementCounterRec(ParentOf(n), i);
        forall k | 0 <= k < heap.Length
          ensures heap[k] == old(heap[k]) + (if AncestorOrSelf(k, n) then i else 0)
        {
          if k == n {
            if AncestorOrSelf(k, ParentOf(n)) {
              AncestorBelow(k, ParentOf(n));
            }
          }
        }
      }
    }

    method IncrementCounter(n: nat, i: int)
      requires Valid() && n < heap.Length
      modifies heap
      ensures forall k :: 0 <= k < heap.Length ==>
        heap[k] == old(heap[k]) + (if AncestorOrSelf(k, n) then i else 0)
    {
      IncrementCounterRec(n, i);
    }

    /** `increment_leaf_counter`: leaf `l` of the `get_nb_leaves()` leaves, the
        root and every node on the path between them gain `i`. */
    method IncrementLeafCounter(l: nat, i: int)
      requires Valid() && l < NbLeaves(height)
      modifies heap
      ensures heap[0] == old(heap[0]) + i
      ensures forall k :: 0 <= k < heap.Length ==>
        heap[k] == old(heap[k]) + (if AncestorOrSelf(k, FirstLeaf(height) + l) then i else 0)
    {
      LeavesFillHeap(height);
      RootIsAncestor(FirstLeaf(height) + l);
      IncrementCounter(FirstLeaf(height) + l, i);
    }

    method ReadCounter(n: nat) returns (c: int)
      requires Valid() && n < heap.Length
      ensures c == heap[n]
    {
      c := heap[n];
    }
  }

  /** Whatever the counters held, a leaf increment raises the root's reading by
      the amount added and leaves a sibling leaf's reading as it was. */
  method LeafIncrementReachesRoot(height: nat, l: nat, i: int) returns (rootBefore: int, rootAfter: int, otherBefore: int, otherAfter: int)
    requires 1 <= height && height + 1 < SizeModulus && l + 1 < NbLeaves(height)
    ensures rootAfter == rootBefore + i
    ensures otherAfter == otherBefore
  {
    var t := new Tree(height);
    LeavesFillHeap(height);
    var f := FirstLeaf(height);
    rootBefore := t.ReadCounter(0);
    otherBefore := t.ReadCounter(f + l + 1);
    t.IncrementLeafCounter(l, i);
    rootAfter := t.ReadCounter(0);
    otherAfter := t.ReadCounter(f + l + 1);
    if AncestorOrSelf(f + l + 1, f + l) {
      AncestorBelow(f + l + 1, f + l);
    }
  }
}
