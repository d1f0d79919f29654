/** What the two bulk handlers share: a database session with nested savepoints, and the
    meaning of an all-or-nothing batch of rows. */
module Batch {
  import opened Wrappers

  /** One open transaction: the table as the transaction sees it and the snapshots of its open
      savepoints, innermost last. */
  class Session<T> {
    var table: T
    var savepoints: seq<T>

    constructor (table: T)
      ensures this.table == table && savepoints == []
    {
      this.table, savepoints := table, [];
    }

    method BeginNested()
      modifies this`savepoints
      ensures savepoints == old(savepoints) + [table]
    {
      savepoints := savepoints + [table];
    }

    method Release()
      requires savepoints != []
      modifies this`savepoints
      ensures savepoints == old(savepoints)[..|old(savepoints)| - 1]
    {
      savepoints := savepoints[..|savepoints| - 1];
    }

    method Rollback()
      requires savepoints != []
      modifies this
      ensures table == old(savepoints)[|old(savepoints)| - 1]
      ensures savepoints == old(savepoints)[..|old(savepoints)| - 1]
    {
      table := savepoints[|savepoints| - 1];
      savepoints := savepoints[..|savepoints| - 1];
    }
  }

  /** The effect of row `i` on a table; None when writing the row raises. */
  type RowStep<!T> = (T, nat) -> Option<T>

  /** The table after the good rows among the first `n`. */
  function Good<T>(step: RowStep<T>, table: T, n: nat): T {
    if n == 0 then table
    else
      var before := Good(step, table, n - 1);
      var after := step(before, n - 1);
      if after.Some? then after.value else before
  }

  /** Row `i` fails on the table left by the earlier good rows. */
  predicate Fails<T>(step: RowStep<T>, table: T, i: nat) {
    step(Good(step, table, i), i).None?
  }

  ghost predicate AllGood<T>(step: RowStep<T>, table: T, n: nat) {
    forall i :: 0 <= i < n ==> !Fails(step, table, i)
  }

  datatype Report = Report(succeeded: nat, failed: nat, dryRun: bool, errors: seq<nat>)

  /** `errors` lists exactly the failing rows among the first `n`, in increasing order. */
  ghost predicate ListsFailures<T>(step: RowStep<T>, table: T, n: nat, errors: seq<nat>) {
    && (forall a, b :: 0 <= a < b < |errors| ==> errors[a] < errors[b])
    && (forall i: nat :: i in errors <==> i < n && Fails(step, table, i))
  }

  /** A batch is applied as a whole or not at all, and reported accordingly. */
  ghost predicate Outcome<T>(step: RowStep<T>, before: T, n: nat, dryRun: bool, after: T, report: Report) {
    && ListsFailures(step, before, n, report.errors)
    && report.failed == |report.errors|
    && report.dryRun == dryRun
    && (report.failed == 0 <==> AllGood(step, before, n))
    && report.succeeded == (if report.failed == 0 then n else 0)
    && after == (if report.failed == 0 && !dryRun then Good(step, before, n) else before)
  }

  lemma NextRow<T>(step: RowStep<T>, table: T, i: nat, errors: seq<nat>)
    requires ListsFailures(step, table, i, errors)
    ensures ListsFailures(step, table, i + 1, if Fails(step, table, i) then errors + [i] else errors)
  {
    var errors' := errors + [i];
    assert forall e: nat :: e in errors' <==> e in errors || e == i;
    assert forall a :: 0 <= a < |errors| ==> errors[a] in errors;
  }

  lemma FailuresSettleOutcome<T>(step: RowStep<T>, before: T, n: nat, dryRun: bool, errors: seq<nat>)
    requires ListsFailures(step, before, n, errors)
    ensures errors == [] <==> AllGood(step, before, n)
    ensures Outcome(step, before, n, dryRun,
      if errors == [] && !dryRun then Good(step, before, n) else before,
      Report(if errors == [] then n else 0, |errors|, dryRun, errors))
  {
    if errors != [] {
      assert errors[0] in errors;
    }
  }
}
