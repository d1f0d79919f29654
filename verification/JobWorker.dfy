/** The worker's own code (vivacapi/workers/job_worker.py) over the committed tables: claim,
    dispatch to a handler, and one commit for the handler's rows and the job's status. */
module JobWorker {
  import opened Wrappers
  import opened Batch
  import opened JobRows
  import Spots = SpotsBulk
  import Infos = BusinessInfoBulk
  import Q = BulkTables
  import BulkRows

  datatype Payload =
    | SpotsBatch(spotRows: seq<Spots.Record>, dryRun: bool)
    | InfosBatch(infoRows: seq<Infos.Row>, dryRun: bool)
    | Dump
    | Malformed
    | Unhandled

  /** What a run takes from outside: generated uids, refusals by the database, and why a dump
      fails, if it does. */
  datatype Outside = Outside(spots: Spots.Env, refusesInfo: Infos.Refusal, dumpFailure: Option<string>)

  predicate Rejected(payload: Payload, outside: Outside) {
    payload.Unhandled? || payload.Malformed? || (payload.Dump? && outside.dumpFailure.Some?)
  }

  /** What a run leaves: rejected jobs and dumps change no table; a batch goes in as a whole,
      with the report that says so, or not at all. */
  ghost predicate Processed(
    job: JobRow<Payload>, outside: Outside,
    spots: Spots.Table, infos: Infos.Table, spots': Spots.Table, infos': Infos.Table)
  {
    && (if Rejected(job.payload, outside) then job.status == FAILED else job.status == SUCCEEDED)
    && match job.payload
       case SpotsBatch(rows, dryRun) =>
         && infos' == infos && job.result.Some?
         && Outcome(Spots.Step(outside.spots, rows), spots, |rows|, dryRun, spots', job.result.value)
       case InfosBatch(rows, dryRun) =>
         && spots' == spots && job.result.Some?
         && var step := Infos.Step(Infos.ExternalIds(spots), outside.refusesInfo, rows);
            Outcome(step, infos, |rows|, dryRun, infos', job.result.value)
       case _ => spots' == spots && infos' == infos
  }

  /** A payload's rows, as the job queue's transition system sees them. */
  function RowsIn(payload: Payload, outside: Outside): seq<Q.Row> {
    match payload
    case SpotsBatch(rows, _) => BulkRows.QueueRows(outside.spots, rows)
    case InfosBatch(rows, _) => BulkRows.InfoRows(rows)
    case _ => []
  }

  /** The committed status alone tells what a run left: after a job that succeeded with no
      failed row and no dry run, the tables are what its batch makes of them in one go, as the
      transition system has it; after any other job they are as before. */
  lemma StatusTellsWhatWentIn(
    job: JobRow<Payload>, outside: Outside, q: Q.Table,
    spots: Spots.Table, infos: Infos.Table, spots': Spots.Table, infos': Infos.Table)
    requires Processed(job, outside, spots, infos, spots', infos')
    requires Spots.Indexed(spots) && BulkRows.ShowsAll(q, spots, infos)
    ensures Spots.Indexed(spots')
    ensures (job.payload.SpotsBatch? || job.payload.InfosBatch?) && CleanlySucceeded(job) ==>
      var applied := Q.ApplyBatch(q, RowsIn(job.payload, outside));
      applied.Some? && BulkRows.ShowsAll(applied.value, spots', infos')
    ensures !CleanlySucceeded(job) || !(job.payload.SpotsBatch? || job.payload.InfosBatch?) ==>
      spots' == spots && infos' == infos
  {
    match job.payload
    case SpotsBatch(rows, _) =>
      Spots.BatchKeepsKeys(outside.spots, rows, spots, |rows|);
      if CleanlySucceeded(job) {
        BulkRows.SpotsBatchShows(outside.spots, rows, spots, infos, q);
      }
    case InfosBatch(rows, _) =>
      if CleanlySucceeded(job) {
        BulkRows.InfosBatchShows(q, spots, outside.refusesInfo, rows, infos);
      }
    case _ =>
  }

  lemma {:induction false} OldestExists(jobs: JobTable<Payload>, among: set<string>) returns (oldest: string)
    requires {} < among <= jobs.Keys
    ensures oldest in among && forall k :: k in among ==> jobs[oldest].createdAt <= jobs[k].createdAt
    decreases |among|
  {
    oldest :| oldest in among;
    if among != {oldest} {
      var other := OldestExists(jobs, among - {oldest});
      if jobs[other].createdAt <= jobs[oldest].createdAt {
        oldest := other;
      }
    }
  }

  /** The committed tables. */
  class Database {
    var jobs: JobTable<Payload>
    var spots: Spots.Table
    var infos: Infos.Table

    constructor (jobs: JobTable<Payload>, spots: Spots.Table, infos: Infos.Table)
      ensures this.jobs == jobs && this.spots == spots && this.infos == infos
    {
      this.jobs, this.spots, this.infos := jobs, spots, infos;
    }

    /** Takes an oldest PENDING job that nobody else holds, if there is one. */
    method ClaimNextJob(locked: set<string>) returns (claimed: Option<string>)
      modifies this`jobs
      ensures claimed.None? ==> jobs == old(jobs) && forall j :: j in jobs && jobs[j].status == PENDING ==> j in locked
      ensures claimed.Some? ==>
        && Oldest(old(jobs), locked, claimed.value)
        && jobs == MarkRunning(old(jobs), claimed.value)
        && old(jobs)[claimed.value].status == PENDING && claimed.value !in locked
        && (forall k :: k in old(jobs) && old(jobs)[k].status == PENDING && k !in locked ==>
              old(jobs)[claimed.value].createdAt <= old(jobs)[k].createdAt)
        && jobs == old(jobs)[claimed.value := old(jobs)[claimed.value].(status := RUNNING)]
    {
      var waiting := set j | j in jobs && Claimable(jobs, locked, j);
      claimed := None;
      assert forall j :: j in jobs && Claimable(jobs, locked, j) ==> j in waiting;
      if waiting != {} {
        ghost var oldest := OldestExists(jobs, waiting);
        assert Oldest(jobs, locked, oldest);
        var j :| j in jobs && Oldest(jobs, locked, j);
        claimed := Some(j);
        jobs := MarkRunning(jobs, j);
      }
    }

    /** Fails every job that a dead process left RUNNING, and counts them. */
    method CleanupOrphanedJobs() returns (n: nat)
      modifies this`jobs
      ensures jobs.Keys == old(jobs).Keys
      ensures forall j :: j in jobs && old(jobs)[j].status != RUNNING ==> jobs[j] == old(jobs)[j]
      ensures forall j :: j in jobs && old(jobs)[j].status == RUNNING ==>
        jobs[j] == old(jobs)[j].(status := FAILED, error := Some("orphaned"))
      ensures n == |set j | j in old(jobs) && old(jobs)[j].status == RUNNING|
    {
      n := |set j | j in jobs && jobs[j].status == RUNNING|;
      jobs := Orphaned(jobs);
    }

    /** Runs the job's handler and commits its rows with the job's final status. */
    method ProcessJob(j: string, outside: Outside)
      requires j in jobs
      modifies this
      ensures j in jobs && jobs == old(jobs)[j := jobs[j]]
      ensures jobs[j].payload == old(jobs[j].payload) && jobs[j].createdAt == old(jobs[j].createdAt)
      ensures jobs[j].status == SUCCEEDED ==> jobs[j].error == old(jobs[j].error)
      ensures jobs[j].status == FAILED ==> jobs[j].result == old(jobs[j].result)
      ensures jobs[j].status == FAILED && jobs[j].payload.Dump? ==> jobs[j].error == outside.dumpFailure
      ensures jobs[j].status == FAILED && jobs[j].payload.Unhandled? ==> jobs[j].error == Some("no handler")
      ensures jobs[j].status == FAILED && jobs[j].payload.Malformed? ==> jobs[j].error == Some("invalid payload")
      ensures Processed(jobs[j], outside, old(spots), old(infos), spots, infos)
    {
      var payload := jobs[j].payload;
      var ending: Ending;
      match payload {
        case Unhandled => ending := Failure("no handler");
        case Malformed => ending := Failure("invalid payload");
        case Dump =>
          ending := if outside.dumpFailure.Some? then Failure(outside.dumpFailure.value) else Success(None);
        case SpotsBatch(rows, dryRun) =>
          var db := new Session(spots);
          var report, _ := Spots.SpotsBulkUpsertHandler(db, outside.spots, rows, dryRun);
          spots := db.table;
          ending := Success(Some(report));
        case InfosBatch(rows, dryRun) =>
          var db := new Session(infos);
          var ids := Infos.ExternalIds(spots);
          var report := Infos.SpotBusinessInfoBulkUpsertHandler(db, ids, outside.refusesInfo, rows, dryRun);
          infos := db.table;
          ending := Success(Some(report));
      }
      jobs := jobs[j := Recorded(jobs[j], ending)];
    }

    /** One cycle: claim and process, or nothing to do. */
    method RunWorkerCycle(locked: set<string>, outside: Outside) returns (processed: Option<string>)
      modifies this
      ensures processed.None? ==>
        && jobs == old(jobs) && spots == old(spots) && infos == old(infos)
        && forall j :: j in jobs && jobs[j].status == PENDING ==> j in locked
      ensures processed.Some? ==>
        && Oldest(old(jobs), locked, processed.value)
        && processed.value in jobs && jobs == old(jobs)[processed.value := jobs[processed.value]]
        && jobs[processed.value].payload == old(jobs)[processed.value].payload
        && Processed(jobs[processed.value], outside, old(spots), old(infos), spots, infos)
    {
      processed := ClaimNextJob(locked);
      if processed.Some? {
        ProcessJob(processed.value, outside);
      }
    }
  }
}
