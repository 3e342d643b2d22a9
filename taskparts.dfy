/**
 * Pieces of the runtime with a plain sequential meaning: the choice of a victim
 * worker other than oneself, the fork-join dependency counters of a task-DAG
 * vertex, the elastic scheduler's combined counter predicates, and the logger's
 * classification of event tags.
 */
module Taskparts {

  const U64Modulus: nat := 0x1_0000_0000_0000_0000

  // Victim selection
  // ================

  /** `random_other_worker`: a worker id drawn from the `nb_workers - 1` ids other
      than `my_id`, by skipping over `my_id`.  The random number comes from the
      per-worker hash generator, which is not modelled. */
  function RandomOtherWorker(myId: nat, nbWorkers: nat, randomNumber: nat): (id: nat)
    requires nbWorkers > 1 && randomNumber < U64Modulus
    ensures id != myId && id < nbWorkers
  {
    var id := randomNumber % (nbWorkers - 1);
    if id >= myId then id + 1 else id
  }

  /** Every other worker can be chosen: the random number `j` (or `j - 1` above
      `my_id`) picks worker `j`, so the skip maps the residues one to one onto the
      other workers. */
  lemma EveryOtherWorkerReachable(myId: nat, nbWorkers: nat, j: nat)
    requires 1 < nbWorkers < U64Modulus && myId < nbWorkers && j < nbWorkers && j != myId
    ensures RandomOtherWorker(myId, nbWorkers, if j < myId then j else j - 1) == j
  {
    var r := if j < myId then j else j - 1;
    ModOfSmaller(r, nbWorkers - 1);
  }

  lemma ModOfSmaller(r: nat, m: nat)
    requires r < m
    ensures r % m == r
  {
  }

  /** Two random numbers with the same residue choose the same worker, and two
      different residues choose different workers. */
  lemma RandomOtherWorkerInjective(myId: nat, nbWorkers: nat, a: nat, b: nat)
    requires nbWorkers > 1 && a < U64Modulus && b < U64Modulus
    ensures RandomOtherWorker(myId, nbWorkers, a) == RandomOtherWorker(myId, nbWorkers, b) <==>
      a % (nbWorkers - 1) == b % (nbWorkers - 1)
  {
  }

  // Fork-join edges
  // ===============

  /** A vertex of the task DAG, reduced to its `fork_join_edges`: the number of
      unfinished predecessors and the one vertex to notify when it finishes. */
  class Vertex {
    var incounter: nat
    var outset: Vertex?

    constructor()
      ensures incounter == 0 && outset == null
    {
      incounter, outset := 0, null;
    }

    /** `new_incounter`. */
    method NewIncounter()
      modifies this
      ensures incounter == 0 && outset == old(outset)
    {
      incounter := 0;
    }

    /** `increment`. */
    method Increment()
      modifies this
      ensures incounter == old(incounter) + 1 && outset == old(outset)
    {
      incounter := incounter + 1;
    }

    /** `decrement`: the counter must be positive; `scheduled` says whether the
        vertex was handed to the scheduler, which happens exactly when the counter
        reaches 0. */
    method Decrement() returns (scheduled: bool)
      requires incounter > 0
      modifies this
      ensures incounter == old(incounter) - 1 && outset == old(outset)
      ensures scheduled <==> incounter == 0
    {
      incounter := incounter - 1;
      scheduled := incounter == 0;
    }

    /** `new_outset`. */
    method NewOutset()
      modifies this
      ensures outset == null && incounter == old(incounter)
    {
      outset := null;
    }

    /** `add`: the outset must be empty; it then holds `u`. */
    method Add(u: Vertex)
      requires outset == null
      modifies this
      ensures outset == u && incounter == old(incounter)
    {
      outset := u;
    }

    /** `parallel_notify`: nothing happens when the outset is empty (the final
        vertex); otherwise the vertex in it is decremented once, and scheduled if
        that was its last predecessor, and the outset is emptied. */
    method ParallelNotify() returns (notified: Vertex?, scheduled: bool)
      requires outset != null ==> outset.incounter > 0
      modifies this, outset
      ensures notified == old(outset)
      ensures old(outset) == null ==> !scheduled && incounter == old(incounter) && outset == null
      ensures old(outset) != null ==>
        outset == null &&
        old(outset).incounter == old(outset.incounter) - 1 &&
        (scheduled <==> old(outset).incounter == 0) &&
        (old(outset) != this ==> incounter == old(incounter))
      ensures old(outset) != null && old(outset) != this ==> old(outset).outset == old(outset.outset)
    {
      notified := outset;
      scheduled := false;
      if outset == null {
        return;
      }
      scheduled := outset.Decrement();
      outset := null;
    }
  }

  /** A fork: two children whose outset is the join vertex, which waits for both.
      The join is scheduled by the second notification, not the first, and a
      second notify of the same child does nothing. */
  method ForkJoin() returns (first: bool, second: bool, again: bool, left: nat)
    ensures !first && second && !again && left == 0
  {
    var join := new Vertex();
    var c1 := new Vertex();
    var c2 := new Vertex();
    join.Increment();
    join.Increment();
    c1.Add(join);
    c2.Add(join);
    var n1, n2, n3;
    n1, first := c1.ParallelNotify();
    n2, second := c2.ParallelNotify();
    n3, again := c2.ParallelNotify();
    left := join.incounter;
  }

  /** A chain a -> b -> c of vertices with one predecessor each: notifying a
      schedules b and leaves b's outset in place, so notifying b then schedules c. */
  method NotifyChain() returns (first: bool, second: bool)
    ensures first && second
  {
    var c := new Vertex();
    var b := new Vertex();
    var a := new Vertex();
    c.Increment();
    b.Increment();
    b.Add(c);
    a.Add(b);
    var n1, n2;
    n1, first := a.ParallelNotify();
    n2, second := b.ParallelNotify();
  }

  // Elastic scheduler counters
  // ==========================

  type Int32 = x: int | -0x8000_0000 <= x < 0x8000_0000
  type Int16 = x: int | -0x8000 <= x < 0x8000

  /** `elastic_s3::cdata`, the combined counter. */
  datatype CData = CData(surplus: Int32, suspended: Int16, stealers: Int16)

  /** `exists_imbalance`: surplus work and a suspended worker to run it. */
  predicate ExistsImbalance(cd: CData)
  {
    cd.surplus >= 1 && cd.suspended >= 1
  }

  /** `needs_sentinel`: an imbalance while no worker is stealing. */
  predicate NeedsSentinel(cd: CData)
  {
    cd.stealers == 0 && ExistsImbalance(cd)
  }

  /** A sentinel is needed only when there is an imbalance, and an imbalance
      needs one exactly when nobody is stealing. */
  lemma SentinelOnlyOnImbalance(cd: CData)
    ensures NeedsSentinel(cd) ==> ExistsImbalance(cd)
    ensures ExistsImbalance(cd) ==> (NeedsSentinel(cd) <==> cd.stealers == 0)
  {
  }

  // Logger event kinds
  // ==================

  /** `work_stealing_logger::event_tag`, in declaration order. */
  datatype EventTag =
    | EnterLaunch | ExitLaunch | EnterAlgo | ExitAlgo | EnterWait | ExitWait
    | WorkerCommunicate | Interrupt | AlgoPhase | EnterSuspend | ExitSuspend
    | WorkerExit | InitiateTeardown | ProgramPoint | NbEvents

  /** `work_stealing_logger::event_kind`. */
  datatype EventKind = Phases | Vertices | Migration | Program | NbKinds

  /** `kind_of`. */
  function KindOf(e: EventTag): (k: EventKind)
    ensures k != Vertices && k != Migration
  {
    match e
    case EnterLaunch | ExitLaunch | EnterAlgo | ExitAlgo | EnterWait | ExitWait
       | EnterSuspend | ExitSuspend | AlgoPhase => Phases
    case WorkerExit | InitiateTeardown | ProgramPoint => Program
    case _ => NbKinds
  }

  /** The tags the kinds group, in both directions: launch, algorithm, wait,
      suspend and phase events are phase events; worker exit, teardown and
      program points are program events; the two communication tags and the
      count fall outside every kind. */
  lemma KindOfGroups(e: EventTag)
    ensures KindOf(e) == Phases <==>
      e in {EnterLaunch, ExitLaunch, EnterAlgo, ExitAlgo, EnterWait, ExitWait, EnterSuspend, ExitSuspend, AlgoPhase}
    ensures KindOf(e) == Program <==> e in {WorkerExit, InitiateTeardown, ProgramPoint}
    ensures KindOf(e) == NbKinds <==> e in {WorkerCommunicate, Interrupt, NbEvents}
  {
  }
}
