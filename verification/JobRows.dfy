/** The jobs table (vivacapi/models/job.py) and what the worker does to it
    (vivacapi/workers/job_worker.py). */
module JobRows {
  import opened Wrappers
  import opened Batch

  datatype Status = PENDING | RUNNING | SUCCEEDED | FAILED

  /** `result` is the report of a bulk job; a dump leaves None. */
  datatype JobRow<+P> = JobRow(
    createdAt: nat,
    payload: P,
    status: Status,
    result: Option<Report>,
    error: Option<string>
  )

  type JobTable<P> = map<string, JobRow<P>>

  /** PENDING jobs that no other transaction has locked. */
  predicate Claimable<P>(jobs: JobTable<P>, locked: set<string>, j: string) {
    j in jobs && jobs[j].status == PENDING && j !in locked
  }

  predicate Oldest<P>(jobs: JobTable<P>, locked: set<string>, j: string) {
    && Claimable(jobs, locked, j)
    && forall k :: k in jobs && Claimable(jobs, locked, k) ==> jobs[j].createdAt <= jobs[k].createdAt
  }

  function MarkRunning<P>(jobs: JobTable<P>, j: string): JobTable<P>
    requires j in jobs
  {
    jobs[j := jobs[j].(status := RUNNING)]
  }

  function Orphaned<P>(jobs: JobTable<P>): JobTable<P> {
    map j | j in jobs ::
      if jobs[j].status == RUNNING then jobs[j].(status := FAILED, error := Some("orphaned")) else jobs[j]
  }

  /** What a run ends with: a result, or the error that stopped it. */
  datatype Ending = Success(report: Option<Report>) | Failure(reason: string)

  /** The columns that are written; the others stay. */
  function Recorded<P>(job: JobRow<P>, ending: Ending): JobRow<P> {
    match ending
    case Success(report) => job.(status := SUCCEEDED, result := report)
    case Failure(reason) => job.(status := FAILED, error := Some(reason))
  }

  predicate Clean(report: Option<Report>) {
    report.Some? && report.value.failed == 0 && !report.value.dryRun
  }

  /** SUCCEEDED with no failed row and no dry run. */
  predicate CleanSuccess(ending: Ending) {
    ending.Success? && Clean(ending.report)
  }

  predicate CleanlySucceeded<P>(job: JobRow<P>) {
    job.status == SUCCEEDED && Clean(job.result)
  }

  predicate Terminal(status: Status) {
    status == SUCCEEDED || status == FAILED
  }
}
