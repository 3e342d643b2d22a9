/**
 * The sparse matrix-vector benchmark's input preparation: an edge list
 * (row, column) is sorted, its repeated edges are dropped, and it is turned into
 * compressed sparse rows: `row_ptr[i]` is where row `i` starts in `col_ind`.
 */
module Spmv {

  datatype Edge = Edge(first: nat, second: nat)

  /** `std::less` on pairs: by row, then by column. */
  predicate EdgeLe(a: Edge, b: Edge)
  {
    a.first < b.first || (a.first == b.first && a.second <= b.second)
  }

  predicate Sorted(s: seq<Edge>)
  {
    forall x, y :: 0 <= x < y < |s| ==> EdgeLe(s[x], s[y])
  }

  predicate StrictlyIncreasing(s: seq<Edge>)
  {
    forall x, y :: 0 <= x < y < |s| ==> EdgeLe(s[x], s[y]) && s[x] != s[y]
  }

  // Sorting
  // =======

  /** `std::sort` of the edges, here by insertion with adjacent swaps. */
  method SortEdges(a: array<Edge>)
    modifies a
    ensures Sorted(a[..])
    ensures multiset(a[..]) == multiset(old(a[..]))
  {
    for i := 0 to a.Length
      invariant Sorted(a[..i])
      invariant multiset(a[..]) == multiset(old(a[..]))
    {
      Insert(a, i);
    }
    assert a[..] == a[..a.Length];
  }

  /** Moves `a[i]` down into the sorted prefix `a[..i]`. */
  method Insert(a: array<Edge>, i: nat)
    requires i < a.Length && Sorted(a[..i])
    modifies a
    ensures Sorted(a[..i + 1])
    ensures multiset(a[..]) == multiset(old(a[..]))
  {
    var j := i;
    while j > 0 && !EdgeLe(a[j - 1], a[j])
      invariant 0 <= j <= i
      invariant multiset(a[..]) == multiset(old(a[..]))
      invariant forall x, y :: 0 <= x < y <= i && y != j ==> EdgeLe(a[x], a[y])
      invariant forall x, y :: 0 <= x < j < y <= i ==> EdgeLe(a[x], a[y])
    {
      SwapAdjacent(a, j - 1);
      j := j - 1;
    }
  }

  method SwapAdjacent(a: array<Edge>, k: nat)
    requires k + 1 < a.Length
    modifies a
    ensures a[..] == old(a[..])[k := old(a[k + 1])][k + 1 := old(a[k])]
    ensures multiset(a[..]) == multiset(old(a[..]))
  {
    a[k], a[k + 1] := a[k + 1], a[k];
  }

  // Dropping repeated edges
  // =======================

  /** The edges of `s` that differ from the edge before them, `prev` standing
      before the first. */
  function DedupFrom(s: seq<Edge>, prev: Edge): seq<Edge>
  {
    if s == [] then [] else (if s[0] != prev then [s[0]] else []) + DedupFrom(s[1..], s[0])
  }

  /** The deduplication as written: `prev` starts as the last edge. */
  function Dedup(s: seq<Edge>): seq<Edge>
    requires s != []
  {
    DedupFrom(s, s[|s| - 1])
  }

  /** The loop that copies into `edges2` each edge that differs from the one before. */
  method DedupEdges(edges: seq<Edge>) returns (edges2: seq<Edge>)
    requires edges != []
    ensures edges2 == Dedup(edges)
  {
    edges2 := [];
    var prev := edges[|edges| - 1];
    assert edges[0..] == edges;
    for k := 0 to |edges|
      invariant edges2 + DedupFrom(edges[k..], prev) == Dedup(edges)
    {
      var e := edges[k];
      assert edges[k..][1..] == edges[k + 1..];
      var rest := DedupFrom(edges[k + 1..], e);
      assert DedupFrom(edges[k..], prev) == (if e != prev then [e] else []) + rest;
      if e != prev {
        assert edges2 + ([e] + rest) == (edges2 + [e]) + rest;
        edges2 := edges2 + [e];
      } else {
        assert [] + rest == rest;
      }
      prev := e;
    }
  }

  /** Every kept edge is an edge of the input. */
  lemma {:induction false} DedupFromSubset(s: seq<Edge>, prev: Edge)
    ensures forall x :: x in DedupFrom(s, prev) ==> x in s
  {
    if s != [] {
      DedupFromSubset(s[1..], s[0]);
    }
  }

  /** An edge is kept unless it is the first one and equals `prev`. */
  lemma {:induction false} DedupFromKeeps(s: seq<Edge>, prev: Edge, x: Edge)
    requires x in s && !(x == s[0] && x == prev)
    ensures x in DedupFrom(s, prev)
  {
    if x != s[0] {
      DedupFromKeeps(s[1..], s[0], x);
    }
  }

  /** On sorted edges everything kept lies strictly above `prev` when `prev`
      is not above the first edge. */
  lemma {:induction false} DedupFromAbove(s: seq<Edge>, prev: Edge)
    requires Sorted(s) && s != [] && EdgeLe(prev, s[0])
    ensures forall x :: x in DedupFrom(s, prev) ==> EdgeLe(prev, x) && x != prev
  {
    var rest := DedupFrom(s[1..], s[0]);
    if |s| > 1 {
      DedupFromAbove(s[1..], s[0]);
    }
    forall x | x in DedupFrom(s, prev)
      ensures EdgeLe(prev, x) && x != prev
    {
      if x in rest {
        assert EdgeLe(s[0], x) && x != s[0];
      }
    }
  }

  lemma {:induction false} DedupFromIncreasing(s: seq<Edge>, prev: Edge)
    requires Sorted(s)
    ensures StrictlyIncreasing(DedupFrom(s, prev))
  {
    if |s| > 1 {
      var rest := DedupFrom(s[1..], s[0]);
      DedupFromIncreasing(s[1..], s[0]);
      DedupFromAbove(s[1..], s[0]);
      if s[0] != prev {
        assert forall y :: 0 <= y < |rest| ==> rest[y] in rest;
      }
    }
  }

  /** After sorting, the kept edges increase strictly, so they are still sorted. */
  lemma DedupStrictlyIncreasing(s: seq<Edge>)
    requires Sorted(s) && s != []
    ensures StrictlyIncreasing(Dedup(s))
    ensures Sorted(Dedup(s))
  {
    DedupFromIncreasing(s, s[|s| - 1]);
  }

  /** On sorted edges the deduplication keeps each distinct edge, except that when
      the first edge equals the last (all edges are the same) nothing is kept. */
  lemma DedupMembers(s: seq<Edge>)
    requires Sorted(s) && s != []
    ensures s[0] == s[|s| - 1] ==> Dedup(s) == []
    ensures s[0] != s[|s| - 1] ==> forall x :: x in Dedup(s) <==> x in s
  {
    var last := s[|s| - 1];
    if s[0] == last {
      AllSameDropped(s);
    } else {
      DedupFromSubset(s, last);
      forall x | x in s
        ensures x in Dedup(s)
      {
        DedupFromKeeps(s, last, x);
      }
    }
  }

  /** Sorted edges whose first and last agree are all equal, and all of them equal
      the seeded `prev`, so none differs from the one before. */
  lemma AllSameDropped(s: seq<Edge>)
    requires Sorted(s) && s != [] && s[0] == s[|s| - 1]
    ensures Dedup(s) == []
  {
    forall k | 0 <= k < |s|
      ensures s[k] == s[0]
    {
    }
    AllEqualDedup(s, s[0]);
  }

  lemma {:induction false} AllEqualDedup(s: seq<Edge>, e: Edge)
    requires forall k :: 0 <= k < |s| ==> s[k] == e
    ensures DedupFrom(s, e) == []
  {
    if s != [] {
      AllEqualDedup(s[1..], e);
    }
  }

  // Compressed sparse rows
  // ======================

  /** The number of edges in row `r`. */
  function RowCount(s: seq<Edge>, r: nat): nat
  {
    if s == [] then 0
    else RowCount(s[..|s| - 1], r) + (if s[|s| - 1].first == r then 1 else 0)
  }

  /** The number of edges in the rows below `r`. */
  function CountBelow(s: seq<Edge>, r: nat): nat
  {
    if s == [] then 0
    else CountBelow(s[..|s| - 1], r) + (if s[|s| - 1].first < r then 1 else 0)
  }

  predicate RowsBelow(s: seq<Edge>, nbRows: nat)
  {
    forall k :: 0 <= k < |s| ==> s[k].first < nbRows
  }

  lemma {:induction false} CountBelowStep(s: seq<Edge>, r: nat)
    ensures CountBelow(s, r + 1) == CountBelow(s, r) + RowCount(s, r)
  {
    if s != [] {
      CountBelowStep(s[..|s| - 1], r);
    }
  }

  lemma {:induction false} CountBelowAll(s: seq<Edge>, nbRows: nat)
    requires RowsBelow(s, nbRows)
    ensures CountBelow(s, nbRows) == |s|
  {
    if s != [] {
      CountBelowAll(s[..|s| - 1], nbRows);
    }
  }

  lemma {:induction false} CountBelowMonotone(s: seq<Edge>, r: nat, r': nat)
    requires r <= r'
    ensures CountBelow(s, r) <= CountBelow(s, r')
  {
    if s != [] {
      CountBelowMonotone(s[..|s| - 1], r, r');
    }
  }

  /** On edges sorted by row, the edges below row `r` are a prefix. */
  lemma {:induction false} CountBelowPrefix(s: seq<Edge>, r: nat)
    requires Sorted(s)
    ensures CountBelow(s, r) <= |s|
    ensures forall k :: 0 <= k < |s| ==> (k < CountBelow(s, r) <==> s[k].first < r)
  {
    if s != [] {
      var init := s[..|s| - 1];
      CountBelowPrefix(init, r);
      if s[|s| - 1].first < r {
        assert forall k :: 0 <= k < |init| ==> init[k].first < r by {
          forall k | 0 <= k < |init|
            ensures init[k].first < r
          {
            assert EdgeLe(s[k], s[|s| - 1]);
          }
        }
      }
    }
  }

  /** Every edge is the first one. */
  predicate AllEqual(s: seq<Edge>)
  {
    |s| > 0 && forall k :: 0 <= k < |s| ==> s[k] == s[0]
  }

  /** A permutation of equal edges holds only that edge. */
  lemma PermutationKeepsAllEqual(before: seq<Edge>, after: seq<Edge>)
    requires AllEqual(before) && multiset(after) == multiset(before)
    ensures AllEqual(after) && after[0] == after[|after| - 1]
  {
    assert |after| == |multiset(after)| == |before|;
    forall k | 0 <= k < |after|
      ensures after[k] == before[0]
    {
      assert after[k] in multiset(before);
      var j :| 0 <= j < |before| && before[j] == after[k];
    }
  }

  /** Sorting keeps the edges, so the kept edges are edges of the input. */
  lemma SortedKeepsRows(before: seq<Edge>, after: seq<Edge>, d: seq<Edge>, nbRows: nat)
    requires RowsBelow(before, nbRows) && multiset(after) == multiset(before)
    requires forall x :: x in d ==> x in after
    ensures RowsBelow(d, nbRows)
  {
    forall k | 0 <= k < |d|
      ensures d[k].first < nbRows
    {
      assert d[k] in d;
      assert d[k] in after;
      assert d[k] in multiset(after);
      assert d[k] in multiset(before);
    }
  }

  /** The counting loop: `row_ptr[r]` becomes the number of edges in row `r`. */
  method CountRows(d: seq<Edge>, nbRows: nat) returns (rowPtr: array<nat>)
    requires RowsBelow(d, nbRows)
    ensures fresh(rowPtr) && rowPtr.Length == nbRows + 1
    ensures forall r :: 0 <= r <= nbRows ==> rowPtr[r] == RowCount(d, r)
  {
    rowPtr := new nat[nbRows + 1](_ => 0);
    for k := 0 to |d|
      invariant forall r :: 0 <= r <= nbRows ==> rowPtr[r] == RowCount(d[..k], r)
    {
      assert d[..k + 1][..k] == d[..k];
      rowPtr[d[k].first] := rowPtr[d[k].first] + 1;
    }
    assert d[..|d|] == d;
  }

  /** The column indices: the second component of each kept edge. */
  method ColumnIndices(d: seq<Edge>) returns (colInd: array<nat>)
    ensures fresh(colInd) && colInd.Length == |d|
    ensures forall k :: 0 <= k < |d| ==> colInd[k] == d[k].second
  {
    colInd := new nat[|d|];
    for i := 0 to |d|
      invariant forall k :: 0 <= k < i ==> colInd[k] == d[k].second
    {
      colInd[i] := d[i].second;
    }
  }

  /** The in-place prefix sum that turns row counts into row starts. */
  method PrefixSum(rowPtr: array<nat>, d: seq<Edge>, nbRows: nat)
    requires RowsBelow(d, nbRows) && rowPtr.Length == nbRows + 1
    requires forall r :: 0 <= r <= nbRows ==> rowPtr[r] == RowCount(d, r)
    modifies rowPtr
    ensures forall i :: 0 <= i <= nbRows ==> rowPtr[i] == CountBelow(d, i)
  {
    var a := 0;
    CountBelowZero(d);
    for i := 0 to nbRows
      invariant a == CountBelow(d, i)
      invariant forall r :: 0 <= r < i ==> rowPtr[r] == CountBelow(d, r)
      invariant forall r :: i <= r <= nbRows ==> rowPtr[r] == RowCount(d, r)
    {
      var e := rowPtr[i];
      rowPtr[i] := a;
      CountBelowStep(d, i);
      a := a + e;
    }
    rowPtr[nbRows] := a;
  }

  /** `csr_of_edgelist`: `nb_rows` is the number of rows; the edge list must be
      nonempty (its last edge seeds the deduplication), and every row index the
      deduplication keeps must be below `nb_rows`: all of them, unless all the
      edges are equal and none is kept.  On return the edges are sorted in place. */
  method CsrOfEdgelist(edges: array<Edge>, nbRows: nat) returns (nbVals: nat, rowPtr: array<nat>, colInd: array<nat>)
    requires edges.Length > 0 && (AllEqual(edges[..]) || RowsBelow(edges[..], nbRows))
    modifies edges
    ensures Sorted(edges[..]) && multiset(edges[..]) == multiset(old(edges[..]))
    ensures fresh(rowPtr) && fresh(colInd)
    ensures nbVals == |Dedup(edges[..])| == colInd.Length
    ensures rowPtr.Length == nbRows + 1
    ensures forall i :: 0 <= i <= nbRows ==> rowPtr[i] == CountBelow(Dedup(edges[..]), i)
    ensures forall k :: 0 <= k < nbVals ==> colInd[k] == Dedup(edges[..])[k].second
    ensures StrictlyIncreasing(Dedup(edges[..])) && Sorted(Dedup(edges[..])) && RowsBelow(Dedup(edges[..]), nbRows)
    ensures rowPtr[0] == 0 && rowPtr[nbRows] == nbVals
    ensures forall i, j :: 0 <= i <= j <= nbRows ==> rowPtr[i] <= rowPtr[j]
  {
    ghost var before := edges[..];
    SortEdges(edges);
    var sorted := edges[..];
    var d := DedupEdges(sorted);
    if AllEqual(before) {
      PermutationKeepsAllEqual(before, sorted);
      AllSameDropped(sorted);
    } else {
      DedupFromSubset(sorted, sorted[|sorted| - 1]);
      SortedKeepsRows(before, sorted, d, nbRows);
    }
    nbVals := |d|;
    rowPtr := CountRows(d, nbRows);
    colInd := ColumnIndices(d);
    PrefixSum(rowPtr, d, nbRows);
    DedupStrictlyIncreasing(sorted);
    RowPointers(d, nbRows);
  }

  /** What the row pointers mean: they start at 0, never decrease, end at the
      number of kept edges, and on sorted edges row `i` is the slice between
      `row_ptr[i]` and `row_ptr[i + 1]`, which holds `RowCount` edges. */
  lemma RowPointers(d: seq<Edge>, nbRows: nat)
    requires Sorted(d) && RowsBelow(d, nbRows)
    ensures CountBelow(d, 0) == 0
    ensures CountBelow(d, nbRows) == |d|
    ensures forall i, j :: 0 <= i <= j <= nbRows ==> CountBelow(d, i) <= CountBelow(d, j)
    ensures forall i :: 0 <= i < nbRows ==> CountBelow(d, i + 1) - CountBelow(d, i) == RowCount(d, i)
    ensures forall i, k :: 0 <= i < nbRows && 0 <= k < |d| ==>
      (CountBelow(d, i) <= k < CountBelow(d, i + 1) <==> d[k].first == i)
  {
    CountBelowZero(d);
    CountBelowAll(d, nbRows);
    forall i, j | 0 <= i <= j <= nbRows
      ensures CountBelow(d, i) <= CountBelow(d, j)
    {
      CountBelowMonotone(d, i, j);
    }
    forall i | 0 <= i < nbRows
      ensures CountBelow(d, i + 1) - CountBelow(d, i) == RowCount(d, i)
    {
      CountBelowStep(d, i);
    }
    forall i, k | 0 <= i < nbRows && 0 <= k < |d|
      ensures CountBelow(d, i) <= k < CountBelow(d, i + 1) <==> d[k].first == i
    {
      CountBelowPrefix(d, i);
      CountBelowPrefix(d, i + 1);
    }
  }

  lemma {:induction false} CountBelowZero(s: seq<Edge>)
    ensures CountBelow(s, 0) == 0
  {
    if s != [] {
      CountBelowZero(s[..|s| - 1]);
    }
  }

  // Inputs
  // ======

  /** `mk_arrowhead_edgelist`: the first column, the first row and the diagonal. */
  method MkArrowheadEdgelist(n: nat) returns (edges: seq<Edge>)
    ensures |edges| == 3 * n
    ensures forall i :: 0 <= i < n ==> edges[i] == Edge(i, 0)
    ensures forall i :: 0 <= i < n ==> edges[n + i] == Edge(0, i)
    ensures forall i :: 0 <= i < n ==> edges[2 * n + i] == Edge(i, i)
  {
    edges := [];
    for i := 0 to n
      invariant |edges| == i
      invariant forall k :: 0 <= k < i ==> edges[k] == Edge(k, 0)
    {
      edges := edges + [Edge(i, 0)];
    }
    for i := 0 to n
      invariant |edges| == n + i
      invariant forall k :: 0 <= k < n ==> edges[k] == Edge(k, 0)
      invariant forall k :: 0 <= k < i ==> edges[n + k] == Edge(0, k)
    {
      edges := edges + [Edge(0, i)];
    }
    for i := 0 to n
      invariant |edges| == 2 * n + i
      invariant forall k :: 0 <= k < n ==> edges[k] == Edge(k, 0)
      invariant forall k :: 0 <= k < n ==> edges[n + k] == Edge(0, k)
      invariant forall k :: 0 <= k < i ==> edges[2 * n + k] == Edge(k, k)
    {
      edges := edges + [Edge(i, i)];
    }
  }

  /** Every arrowhead edge is on the first column, the first row or the diagonal,
      and lies inside an `n` by `n` matrix, so it can be given to
      `csr_of_edgelist` with `n` rows. */
  method ArrowheadInside(n: nat) returns (edges: seq<Edge>)
    ensures |edges| == 3 * n
    ensures RowsBelow(edges, n)
    ensures forall k :: 0 <= k < |edges| ==>
      edges[k].second < n && (edges[k].second == 0 || edges[k].first == 0 || edges[k].first == edges[k].second)
  {
    edges := MkArrowheadEdgelist(n);
    forall k | 0 <= k < |edges|
      ensures edges[k].first < n && edges[k].second < n
      ensures edges[k].second == 0 || edges[k].first == 0 || edges[k].first == edges[k].second
    {
      if k < n {
        assert edges[k] == Edge(k, 0);
      } else if k < 2 * n {
        assert edges[n + (k - n)] == Edge(0, k - n);
      } else {
        assert edges[2 * n + (k - 2 * n)] == Edge(k - 2 * n, k - 2 * n);
      }
    }
  }

  /** `zero_init`: the first `n` entries become 0. */
  method ZeroInit(a: array<int>, n: nat)
    requires n <= a.Length
    modifies a
    ensures forall i :: 0 <= i < n ==> a[i] == 0
    ensures forall i :: n <= i < a.Length ==> a[i] == old(a[i])
  {
    for i := 0 to n
      invariant forall k :: 0 <= k < i ==> a[k] == 0
      invariant forall k :: n <= k < a.Length ==> a[k] == old(a[k])
    {
      a[i] := 0;
    }
  }
}
