/**
 * The promotion-mark list: a doubly linked list of marks whose header (front and
 * back) is passed and returned by value, while the nodes' links are updated in
 * place.  The null pointer is `null`.
 */
module Tpalrts {

  /** `tpalrts_prml_node`. */
  class Node {
    var prev: Node?
    var next: Node?

    constructor()
      ensures prev == null && next == null
    {
      prev, next := null, null;
    }
  }

  /** `tpalrts_prml`: the list header. */
  datatype Prml = Prml(front: Node?, back: Node?)

  /** The header and the nodes' links describe the list `nodes`, front to back:
      neighbours point at each other, the ends point at null, no node repeats. */
  ghost predicate Linked(p: Prml, nodes: seq<Node>)
    reads nodes
  {
    (nodes == [] ==> p.front == null && p.back == null) &&
    (nodes != [] ==>
      p.front == nodes[0] && p.back == nodes[|nodes| - 1] &&
      nodes[0].prev == null && nodes[|nodes| - 1].next == null) &&
    (forall i :: 0 <= i < |nodes| - 1 ==> nodes[i].next == nodes[i + 1] && nodes[i + 1].prev == nodes[i]) &&
    (forall i, j :: 0 <= i < j < |nodes| ==> nodes[i] != nodes[j])
  }

  /** `tpalrts_prmlist_push_back`: the old back, if any, points forward at `t`,
      which becomes the back, and the front too if the list was empty.  `t`'s own
      links are not touched: when the caller has set `t.prev` to the old back and
      `t.next` to null, the list gains `t` at its end. */
  method PushBack(prml: Prml, t: Node, ghost nodes: seq<Node>) returns (r: Prml)
    modifies prml.back
    ensures r.back == t
    ensures r.front == if prml.front == null then t else prml.front
    ensures prml.back != null ==> prml.back.next == t && prml.back.prev == old(prml.back.prev)
    ensures t.prev == old(t.prev) && (t != prml.back ==> t.next == old(t.next))
    ensures old(Linked(prml, nodes)) && t !in nodes && old(t.prev) == prml.back && old(t.next) == null ==>
      Linked(r, nodes + [t])
  {
    r := prml;
    if r.back != null {
      r.back.next := t;
    }
    r := r.(back := t);
    if r.front == null {
      r := r.(front := r.back);
    }
  }

  /** `tpalrts_prmlist_pop_back`: the list must not be empty.  The back's
      predecessor becomes the back; if there is none the list becomes empty,
      otherwise the two nodes are unlinked from each other. */
  method PopBack(prml: Prml, ghost nodes: seq<Node>) returns (r: Prml)
    requires prml.back != null
    modifies prml.back, prml.back.prev
    ensures r.back == old(prml.back.prev)
    ensures r.front == if old(prml.back.prev) == null then null else prml.front
    ensures old(prml.back.prev) != null ==> old(prml.back.prev).next == null && prml.back.prev == null
    ensures old(prml.back.prev) == null ==> prml.back.prev == null && prml.back.next == old(prml.back.next)
    ensures old(prml.back.prev) != prml.back ==> prml.back.next == old(prml.back.next)
    ensures old(prml.back.prev) != null && old(prml.back.prev) != prml.back ==>
      old(prml.back.prev).prev == old(prml.back.prev.prev)
    ensures old(Linked(prml, nodes)) ==> Linked(r, nodes[..|nodes| - 1]) && prml.back.prev == null && prml.back.next == null
  {
    var next := prml.back;
    var prev := next.prev;
    r := prml;
    if prev == null {
      r := r.(front := null);
    } else {
      prev.next := null;
      next.prev := null;
    }
    r := r.(back := prev);
    if old(Linked(prml, nodes)) && |nodes| > 1 {
      var n := |nodes|;
      assert prev == nodes[n - 2];
      forall i | 0 <= i < n - 2
        ensures nodes[i].next == nodes[i + 1] && nodes[i + 1].prev == nodes[i]
      {
        assert nodes[i] != prev && nodes[i] != next && nodes[i + 1] != next;
        assert old(nodes[i].next) == nodes[i + 1] && old(nodes[i + 1].prev) == nodes[i];
      }
      assert nodes[0] != next;
    }
  }

  /** `tpalrts_prmlist_pop_front`: the list must not be empty.  The front's
      successor becomes the front; if there is none the list becomes empty,
      otherwise the two nodes are unlinked from each other. */
  method PopFront(prml: Prml, ghost nodes: seq<Node>) returns (r: Prml)
    requires prml.front != null
    modifies prml.front, prml.front.next
    ensures r.front == old(prml.front.next)
    ensures r.back == if old(prml.front.next) == null then null else prml.back
    ensures old(prml.front.next) != null ==> old(prml.front.next).prev == null && prml.front.next == null
    ensures old(prml.front.next) == null ==> prml.front.next == null && prml.front.prev == old(prml.front.prev)
    ensures old(prml.front.next) != prml.front ==> prml.front.prev == old(prml.front.prev)
    ensures old(prml.front.next) != null && old(prml.front.next) != prml.front ==>
      old(prml.front.next).next == old(prml.front.next.next)
    ensures old(Linked(prml, nodes)) ==> Linked(r, nodes[1..]) && prml.front.prev == null && prml.front.next == null
  {
    var prev := prml.front;
    var next := prev.next;
    r := prml;
    if next == null {
      r := r.(back := null);
    } else {
      next.prev := null;
      prev.next := null;
    }
    r := r.(front := next);
    if old(Linked(prml, nodes)) && |nodes| > 1 {
      var n := |nodes|;
      assert next == nodes[1];
      forall i | 1 <= i < n - 1
        ensures nodes[i].next == nodes[i + 1] && nodes[i + 1].prev == nodes[i]
      {
        assert nodes[i] != prev && nodes[i + 1] != prev && nodes[i + 1] != next;
        assert old(nodes[i].next) == nodes[i + 1] && old(nodes[i + 1].prev) == nodes[i];
      }
      assert nodes[n - 1] != prev;
    }
  }

  /** Pushing `t` at the back, with `t.prev` set to the old back, and popping it
      again restores the header and the list. */
  method PushPopBack(prml: Prml, t: Node, ghost nodes: seq<Node>) returns (r: Prml)
    requires Linked(prml, nodes) && t !in nodes && t.prev == prml.back && t.next == null
    modifies nodes, t
    ensures r == prml && Linked(r, nodes)
  {
    var mid := PushBack(prml, t, nodes);
    assert (nodes + [t])[..|nodes + [t]| - 1] == nodes;
    r := PopBack(mid, nodes + [t]);
  }

  /** A list built by pushing two fresh marks is popped from the front in order. */
  method TwoMarks() returns (first: Node, second: Node, f1: Node?, f2: Node?)
    ensures f1 == second && f2 == null
  {
    first := new Node();
    second := new Node();
    var p := PushBack(Prml(null, null), first, []);
    assert [] + [first] == [first];
    second.prev := first;
    p := PushBack(p, second, [first]);
    p := PopFront(p, [first, second]);
    f1 := p.front;
    assert [first, second][1..] == [second];
    p := PopFront(p, [second]);
    f2 := p.front;
  }
}
