/**
 * Rollforward and rollback tables: pairs of code addresses, kept sorted by their
 * `from` address and searched by binary search when a heartbeat interrupt lands
 * on an instruction that has a rollforward twin.  Addresses are unsigned 64-bit
 * values and the null pointer is 0.
 */
module Rollforward {

  /** One `hb_rollforward` entry. */
  datatype Entry = Entry(from: nat, to: nat)

  /** The null code address. */
  const Null: nat := 0

  /** The `from` addresses of the first `size` entries never decrease. */
  ghost predicate SortedByFrom(table: array<Entry>, size: nat)
    reads table
  {
    size <= table.Length &&
    forall a, b :: 0 <= a < b < size ==> table[a].from <= table[b].from
  }

  /** The `from` addresses of the first `size` entries increase strictly. */
  ghost predicate StrictlySortedByFrom(table: array<Entry>, size: nat)
    reads table
  {
    size <= table.Length &&
    forall a, b :: 0 <= a < b < size ==> table[a].from < table[b].from
  }

  ghost predicate HasFrom(table: array<Entry>, size: nat, key: nat)
    reads table
    requires size <= table.Length
  {
    exists k :: 0 <= k < size && table[k].from == key
  }

  /** The binary search both lookups run: the `to` of an entry whose `from` is
      `key`, or null when there is none. */
  method Search(table: array<Entry>, size: nat, key: nat) returns (dst: nat)
    requires SortedByFrom(table, size)
    ensures HasFrom(table, size, key) ==> exists k :: 0 <= k < size && table[k].from == key && table[k].to == dst
    ensures !HasFrom(table, size, key) ==> dst == Null
  {
    dst := Null;
    var i, j := 0, size as int - 1;
    while i <= j
      invariant 0 <= i <= size && -1 <= j < size
      invariant forall k :: 0 <= k < i ==> table[k].from < key
      invariant forall k :: j < k < size ==> table[k].from > key
      decreases j - i
    {
      var k := i + (j - i) / 2;
      if table[k].from == key {
        return table[k].to;
      } else if table[k].from < key {
        i := k + 1;
      } else {
        j := k - 1;
      }
    }
  }

  /** The saved instruction pointer of an interrupted thread (`*rip`). */
  class Register {
    var value: nat

    constructor(value: nat)
      ensures this.value == value
    {
      this.value := value;
    }
  }

  /** `try_to_initiate_rollforward`: when the interrupted address has an entry whose
      target is not null, the thread resumes at that target; otherwise `*rip` stays. */
  method TryToInitiateRollforward(rollforward: array<Entry>, size: nat, rip: Register)
    requires SortedByFrom(rollforward, size)
    modifies rip
    ensures !HasFrom(rollforward, size, old(rip.value)) ==> rip.value == old(rip.value)
    ensures HasFrom(rollforward, size, old(rip.value)) ==>
      exists k :: 0 <= k < size && rollforward[k].from == old(rip.value) &&
        rip.value == (if rollforward[k].to != Null then rollforward[k].to else old(rip.value))
  {
    var src := rip.value;
    var dst := Search(rollforward, size, src);
    if dst != Null {
      rip.value := dst;
    }
  }

  /** `try_to_initiate_rollbackward`: the source of a rollforward target, or null.
      The search runs over the rollback table but is bounded by the size of the
      rollforward table. */
  method TryToInitiateRollbackward(rollback: array<Entry>, rollforwardSize: nat, dst: nat) returns (src: nat)
    requires SortedByFrom(rollback, rollforwardSize)
    ensures HasFrom(rollback, rollforwardSize, dst) ==>
      exists k :: 0 <= k < rollforwardSize && rollback[k].from == dst && rollback[k].to == src
    ensures !HasFrom(rollback, rollforwardSize, dst) ==> src == Null
  {
    src := Search(rollback, rollforwardSize, dst);
  }

  /** Entry `i` of the rollback table is entry `i` of the rollforward table turned round. */
  ghost predicate InverseAt(rollforward: array<Entry>, rollback: array<Entry>, i: nat)
    reads rollforward, rollback
    requires i < rollforward.Length && i < rollback.Length
  {
    rollforward[i].to == rollback[i].from && rollforward[i].from == rollback[i].to
  }

  /** The indices `1 <= i < n`, in order, at which the rollforward table's `from`
      address drops: where the check prints "bogus ordering". */
  ghost function Misordered(rollforward: array<Entry>, n: nat): seq<nat>
    reads rollforward
    requires n <= rollforward.Length
  {
    if n <= 1 then []
    else Misordered(rollforward, n - 1) + (if rollforward[n - 1].from < rollforward[n - 2].from then [n - 1] else [])
  }

  /** `rf_well_formed_check`: `ok` is false when the process exits.  The check
      exits at the first index from 1 on where the rollback entry is not the
      inverse of the rollforward entry; entry 0 is never compared.  An ordering
      violation only prints a warning, whose indices are returned in `warnings`. */
  method RfWellFormedCheck(rollforward: array<Entry>, rollback: array<Entry>, size: nat)
    returns (ok: bool, warnings: seq<nat>)
    requires size <= rollforward.Length && size <= rollback.Length
    ensures ok <==> forall i :: 1 <= i < size ==> InverseAt(rollforward, rollback, i)
    ensures ok ==> warnings == Misordered(rollforward, size)
    ensures !ok ==> exists i0 :: (1 <= i0 < size && !InverseAt(rollforward, rollback, i0) &&
      (forall i :: 1 <= i < i0 ==> InverseAt(rollforward, rollback, i)) &&
      warnings == Misordered(rollforward, i0 + 1))
  {
    warnings := [];
    if size == 0 {
      return true, warnings;
    }
    var rff1 := rollforward[0].from;
    for i := 1 to size
      invariant rff1 == rollforward[i - 1].from
      invariant forall i' :: 1 <= i' < i ==> InverseAt(rollforward, rollback, i')
      invariant warnings == Misordered(rollforward, i)
    {
      var rff2 := rollforward[i].from;
      if rff2 < rff1 {
        warnings := warnings + [i];
      }
      assert warnings == Misordered(rollforward, i + 1);
      var rft2 := rollforward[i].to;
      var rbf2 := rollback[i].from;
      var rbt2 := rollback[i].to;
      if rft2 != rbf2 {
        assert !InverseAt(rollforward, rollback, i);
        return false, warnings;
      }
      if rff2 != rbt2 {
        assert !InverseAt(rollforward, rollback, i);
        return false, warnings;
      }
      rff1 := rff2;
    }
    return true, warnings;
  }

  /** A table whose entries increase strictly has no misordered index. */
  lemma {:induction false} StrictlySortedNoWarnings(rollforward: array<Entry>, n: nat)
    requires StrictlySortedByFrom(rollforward, n)
    ensures Misordered(rollforward, n) == []
  {
    if n > 1 {
      StrictlySortedNoWarnings(rollforward, n - 1);
    }
  }

  /** A strictly sorted table looks each of its own `from` addresses up to that
      entry's `to`. */
  method SearchFindsEntry(table: array<Entry>, size: nat, i: nat) returns (dst: nat)
    requires StrictlySortedByFrom(table, size) && i < size
    ensures dst == table[i].to
  {
    dst := Search(table, size, table[i].from);
  }

  /** The round trip the runtime relies on: with strictly sorted tables that pass
      the well-formedness check, rolling forward from the source address of entry
      `i >= 1` and then back from where that leads returns the source address. */
  method RollforwardThenBack(rollforward: array<Entry>, rollback: array<Entry>, size: nat, i: nat)
    returns (forward: nat, back: nat)
    requires StrictlySortedByFrom(rollforward, size) && StrictlySortedByFrom(rollback, size)
    requires forall i' :: 1 <= i' < size ==> InverseAt(rollforward, rollback, i')
    requires 1 <= i < size && rollforward[i].to != Null
    ensures forward == rollforward[i].to
    ensures back == rollforward[i].from
  {
    var rip := new Register(rollforward[i].from);
    TryToInitiateRollforward(rollforward, size, rip);
    forward := rip.value;
    assert InverseAt(rollforward, rollback, i);
    back := TryToInitiateRollbackward(rollback, size, forward);
  }

  /** Entry 0 is never compared: a rollback table whose first entry has nothing to
      do with the rollforward table still passes. */
  method FirstEntryUnchecked() returns (ok: bool, a: nat, back: nat)
    ensures ok && a == 1 && back == 6
  {
    var rollforward := new Entry[1];
    var rollback := new Entry[1];
    rollforward[0] := Entry(1, 2);
    rollback[0] := Entry(2, 6);
    var warnings;
    ok, warnings := RfWellFormedCheck(rollforward, rollback, 1);
    a := rollforward[0].from;
    back := TryToInitiateRollbackward(rollback, 1, rollforward[0].to);
    assert rollback[0].from == 2;
  }
}
