/** The job queue (vivacapi/workers/job_worker.py) as a transition system: any number of
    workers claim jobs and run bulk batches, processes die at any point, and restarted
    processes clean up. A batch and its job's status share one commit. A row that has been
    written stays locked until its transaction ends. */
module JobQueue {
  import opened Wrappers
  import opened Batch
  import opened JobRows
  import opened BulkTables
  import opened BatchEffects

  /** What a job asks for. A batch has at least one row; `Malformed` payloads fail
      validation and `Unhandled` types have no handler. */
  datatype Payload = Bulk(first: Row, others: seq<Row>, dryRun: bool) | Dump | Malformed | Unhandled

  function RowsOf(payload: Payload): seq<Row> {
    if payload.Bulk? then [payload.first] + payload.others else []
  }

  type Jobs = JobTable<Payload>

  // ---------------------------------------------------------------- system

  /** `ids` are the external ids as resolved at the start, `views` what each row so far has
      read; an info row that has read and not yet written is one view ahead. `overlay` are the
      uncommitted rows of the transaction; their keys are locked. `released` tells whether the
      batch's savepoint was released rather than rolled back. */
  datatype Worker =
    | Picked(job: string)
    | Claimed(job: string)
    | Running(job: string, next: nat, overlay: Table, errors: seq<nat>, ids: Ids, views: seq<Option<Record>>)
    | Finishing(job: string, overlay: Table, released: bool, ending: Ending, ids: Ids, views: seq<Option<Record>>)

  /** What the rows of a committed batch had resolved and read. */
  datatype Note = Note(ids: Ids, views: seq<Option<Record>>)

  /** History variables: `claims` and `runs` count commits of a claim and handler starts per
      job, `finished` are the jobs whose final commit happened, `applied` the jobs whose final
      commit carried a released batch, in commit order, with `notes` of them. */
  datatype State = State(
    jobs: Jobs,
    table: Table,
    workers: map<nat, Worker>,
    claims: map<string, nat>,
    runs: map<string, nat>,
    finished: set<string>,
    applied: seq<string>,
    notes: map<string, Note>
  )

  datatype Step =
    | Enqueue(j: string, createdAt: nat, payload: Payload)
    | Pick(w: nat, j: string)
    | CommitClaim(w: nat)
    | Start(w: nat)
    | ReadInfo(w: nat)
    | WriteRow(w: nat)
    | RowFault(w: nat)
    | EndBatch(w: nat)
    | EndDump(w: nat, ok: bool)
    | CommitJob(w: nat)
    | Crash(w: nat)
    | CleanUp

  function Count(m: map<string, nat>, j: string): nat {
    if j in m then m[j] else 0
  }

  function Overlay(worker: Worker): Table {
    if worker.Running? || worker.Finishing? then worker.overlay else map[]
  }

  function LockedJobs(s: State): set<string> {
    set w | w in s.workers && s.workers[w].Picked? :: s.workers[w].job
  }

  /** A row lock of another open transaction makes the writer wait. */
  predicate Unlocked(s: State, w: nat, key: RowKey) {
    forall v :: v in s.workers && v != w ==> key !in Overlay(s.workers[v])
  }

  predicate AtWork(s: State, w: nat) {
    w in s.workers && s.workers[w].Running? && s.workers[w].job in s.jobs
  }

  function RowsFor(s: State, w: nat): seq<Row>
    requires AtWork(s, w)
  {
    RowsOf(s.jobs[s.workers[w].job].payload)
  }

  /** The worker has a row to go on with that can be executed: an info row resolves to one
      spot, and has been read first. */
  predicate CanExecute(s: State, w: nat, read: bool) {
    && AtWork(s, w)
    && var worker := s.workers[w];
       && worker.next < |RowsFor(s, w)|
       && var row := RowsFor(s, w)[worker.next];
          && (row.InfoRow? ==> row.externalId in worker.ids)
          && |worker.views| == worker.next + (if row.InfoRow? && read then 1 else 0)
  }

  function NextView(worker: Worker): Option<Record>
    requires worker.Running?
  {
    if worker.next < |worker.views| then worker.views[worker.next] else None
  }

  predicate Enabled(s: State, step: Step) {
    match step
    case Enqueue(j, _, _) => j !in s.jobs
    case Pick(w, j) => w !in s.workers && Oldest(s.jobs, LockedJobs(s), j)
    case CommitClaim(w) => w in s.workers && s.workers[w].Picked? && s.workers[w].job in s.jobs
    case Start(w) => w in s.workers && s.workers[w].Claimed? && s.workers[w].job in s.jobs
    case ReadInfo(w) => CanExecute(s, w, false) && RowsFor(s, w)[s.workers[w].next].InfoRow?
    case WriteRow(w) =>
      && CanExecute(s, w, true)
      && var row := RowsFor(s, w)[s.workers[w].next];
         Writes(row, NextView(s.workers[w])) ==> Unlocked(s, w, KeyOf(row, s.workers[w].ids))
    case RowFault(w) => AtWork(s, w) && s.workers[w].next < |RowsFor(s, w)| && s.workers[w].next <= |s.workers[w].views|
    case EndBatch(w) =>
      AtWork(s, w) && s.jobs[s.workers[w].job].payload.Bulk? && s.workers[w].next == |RowsFor(s, w)|
    case EndDump(w, _) => AtWork(s, w) && s.jobs[s.workers[w].job].payload.Dump?
    case CommitJob(w) => w in s.workers && s.workers[w].Finishing? && s.workers[w].job in s.jobs
    case Crash(w) => w in s.workers
    case CleanUp => true
  }

  function Move(s: State, w: nat, worker: Worker): State {
    s.(workers := s.workers[w := worker])
  }

  function Bump(m: map<string, nat>, j: string): map<string, nat> {
    m[j := Count(m, j) + 1]
  }

  function ReportOf(n: nat, dryRun: bool, errors: seq<nat>): Report {
    Report(if errors == [] then n else 0, |errors|, dryRun, errors)
  }

  /** The row is rolled back to its savepoint and noted. */
  function Failed(worker: Worker): Worker
    requires worker.Running? && worker.next <= |worker.views|
  {
    var n := worker.next;
    worker.(next := n + 1, errors := worker.errors + [n], views := worker.views[..n] + [None])
  }

  function Executed(s: State, w: nat): Worker
    requires CanExecute(s, w, true)
  {
    var worker := s.workers[w];
    var row := RowsFor(s, w)[worker.next];
    var overlay := Execute(s.table, worker.overlay, row, worker.ids, NextView(worker));
    if overlay.None? then Failed(worker)
    else
      var views := worker.views[..worker.next] + [NextView(worker)];
      worker.(next := worker.next + 1, overlay := overlay.value, views := views)
  }

  ghost function Started(s: State, w: nat): Worker
    requires w in s.workers && s.workers[w].job in s.jobs
  {
    var j := s.workers[w].job;
    match s.jobs[j].payload
    case Unhandled => Finishing(j, map[], false, Failure("no handler"), map[], [])
    case Malformed => Finishing(j, map[], false, Failure("invalid payload"), map[], [])
    case _ => Running(j, 0, map[], [], Resolve(s.table, RowsOf(s.jobs[j].payload)), [])
  }

  function Ended(s: State, w: nat): Worker
    requires Enabled(s, EndBatch(w))
  {
    var worker := s.workers[w];
    var dryRun := s.jobs[worker.job].payload.dryRun;
    var released := worker.errors == [] && !dryRun;
    Finishing(worker.job, if released then worker.overlay else map[], released,
      Success(Some(ReportOf(worker.next, dryRun, worker.errors))), worker.ids, worker.views)
  }

  function Committed(s: State, w: nat): State
    requires Enabled(s, CommitJob(w))
  {
    var worker := s.workers[w];
    var j := worker.job;
    s.(jobs := s.jobs[j := Recorded(s.jobs[j], worker.ending)],
       table := s.table + worker.overlay,
       workers := s.workers - {w},
       finished := s.finished + {j},
       applied := if worker.released then s.applied + [j] else s.applied,
       notes := s.notes[j := Note(worker.ids, worker.views)])
  }

  ghost function Apply(s: State, step: Step): State
    requires Enabled(s, step)
  {
    match step
    case Enqueue(j, createdAt, payload) => s.(jobs := s.jobs[j := JobRow(createdAt, payload, PENDING, None, None)])
    case Pick(w, j) => Move(s, w, Picked(j))
    case CommitClaim(w) =>
      var j := s.workers[w].job;
      Move(s, w, Claimed(j)).(jobs := MarkRunning(s.jobs, j), claims := Bump(s.claims, j))
    case Start(w) =>
      // the reloaded job is run whatever its status is by now
      var j := s.workers[w].job;
      Move(s, w, Started(s, w)).(runs := if s.jobs[j].payload.Unhandled? then s.runs else Bump(s.runs, j))
    case ReadInfo(w) =>
      var worker := s.workers[w];
      var row := RowsFor(s, w)[worker.next];
      var view := Lookup(s.table + worker.overlay, KeyOf(row, worker.ids));
      Move(s, w, Running(worker.job, worker.next, worker.overlay, worker.errors, worker.ids, worker.views + [view]))
    case WriteRow(w) => Move(s, w, Executed(s, w))
    case RowFault(w) => Move(s, w, Failed(s.workers[w]))
    case EndBatch(w) => Move(s, w, Ended(s, w))
    case EndDump(w, ok) =>
      var ending := if ok then Success(None) else Failure("dump failed");
      Move(s, w, Finishing(s.workers[w].job, map[], false, ending, map[], []))
    case CommitJob(w) => Committed(s, w)
    case Crash(w) => s.(workers := s.workers - {w})
    case CleanUp => s.(jobs := Orphaned(s.jobs))
  }

  predicate Init(s: State) {
    && s.jobs == map[] && s.workers == map[] && s.claims == map[] && s.runs == map[]
    && s.finished == {} && s.applied == [] && s.notes == map[]
  }

  ghost predicate Path(ss: seq<State>, steps: seq<Step>) {
    && |ss| == |steps| + 1
    && forall i :: 0 <= i < |steps| ==> Enabled(ss[i], steps[i]) && ss[i + 1] == Apply(ss[i], steps[i])
  }

  ghost predicate Run(ss: seq<State>, steps: seq<Step>) {
    Path(ss, steps) && Init(ss[0])
  }

  // ---------------------------------------------------------------- what the commits add up to

  /** The given jobs' batches as executed, one after the other. */
  function SerialSeen(jobs: Jobs, notes: map<string, Note>, order: seq<string>, t: Table): Option<Table> {
    var n := |order|;
    if n == 0 then Some(t)
    else
      var before, j := SerialSeen(jobs, notes, order[..n - 1], t), order[n - 1];
      if before.None? || j !in jobs || j !in notes || |notes[j].views| != |RowsOf(jobs[j].payload)| then None
      else ApplySeen(before.value, RowsOf(jobs[j].payload), notes[j].ids, notes[j].views)
  }

  lemma {:induction false} SerialReads(
    jobs: Jobs, jobs': Jobs, notes: map<string, Note>, notes': map<string, Note>, order: seq<string>, t: Table)
    requires forall j :: j in order ==> j in jobs && j in jobs' && jobs[j].payload == jobs'[j].payload
    requires forall j :: j in order ==> j in notes && j in notes' && notes[j] == notes'[j]
    ensures SerialSeen(jobs, notes, order, t) == SerialSeen(jobs', notes', order, t)
  {
    if order != [] {
      SerialReads(jobs, jobs', notes, notes', order[..|order| - 1], t);
    }
  }

  lemma SerialAppends(jobs: Jobs, notes: map<string, Note>, order: seq<string>, j: string, initial: Table, t: Table)
    requires SerialSeen(jobs, notes, order, initial) == Some(t) && j in jobs && j in notes
    requires |notes[j].views| == |RowsOf(jobs[j].payload)|
    ensures SerialSeen(jobs, notes, order + [j], initial)
         == ApplySeen(t, RowsOf(jobs[j].payload), notes[j].ids, notes[j].views)
  {
    assert (order + [j])[..|order|] == order;
  }

  // ---------------------------------------------------------------- invariant

  predicate IdsOwned(t: Table, ids: Ids) {
    forall e :: e in ids ==> Owns(t, e, ids[e])
  }

  /** An open transaction: what it has executed, and what it holds of it. */
  ghost predicate Open(t: Table, rows: seq<Row>, ids: Ids, views: seq<Option<Record>>, overlay: Table) {
    Pending(t, rows, ids, views, overlay) && OwnWrites(rows, ids, views, overlay)
  }

  /** A view that is still to be written: it shows the transaction's own row, if any. */
  predicate Viewed(t: Table, overlay: Table, key: RowKey, view: Option<Record>) {
    && (key in overlay ==> view == Some(overlay[key]))
    && (view.Some? ==> key in t + overlay)
  }

  ghost predicate RunningOk(t: Table, rows: seq<Row>, worker: Worker)
    requires worker.Running?
  {
    var n := worker.next;
    && n <= |rows| && n <= |worker.views| <= n + 1
    && IdsOwned(t, worker.ids)
    && (worker.errors == [] ==> Open(t, rows[..n], worker.ids, worker.views[..n], worker.overlay))
    && (|worker.views| == n + 1 ==>
          && n < |rows| && rows[n].InfoRow? && rows[n].externalId in worker.ids
          && Viewed(t, worker.overlay, KeyOf(rows[n], worker.ids), worker.views[n]))
  }

  ghost predicate FinishingOk(t: Table, payload: Payload, worker: Worker)
    requires worker.Finishing?
  {
    && (worker.released <==> payload.Bulk? && CleanSuccess(worker.ending))
    && (worker.released ==>
          Open(t, RowsOf(payload), worker.ids, worker.views, worker.overlay) && IdsOwned(t, worker.ids))
    && (!worker.released ==> worker.overlay == map[])
    && (worker.ending.Failure? ==> worker.ending.reason != "orphaned")
    && (payload.Malformed? || payload.Unhandled? ==> worker.ending.Failure?)
  }

  ghost predicate WorkerOk(s: State, worker: Worker) {
    && worker.job in s.jobs
    && (if worker.Picked? then s.jobs[worker.job].status == PENDING
        else Count(s.claims, worker.job) == 1 && worker.job !in s.finished)
    && (worker.Claimed? ==> Count(s.runs, worker.job) == 0)
    && (worker.Running? ==> RunningOk(s.table, RowsOf(s.jobs[worker.job].payload), worker))
    && (worker.Running? ==> s.jobs[worker.job].payload.Bulk? || s.jobs[worker.job].payload.Dump?)
    && (worker.Finishing? ==> FinishingOk(s.table, s.jobs[worker.job].payload, worker))
  }

  /** Where a job can be: waiting, claimed, given up, or finished for good. */
  predicate JobOk(s: State, j: string)
    requires j in s.jobs
  {
    var job, c, r := s.jobs[j], Count(s.claims, j), Count(s.runs, j);
    && r <= c <= 1
    && (job.status == PENDING <==> c == 0)
    && (j in s.finished ==> c == 1 && job.status != RUNNING)
    && (job.status == SUCCEEDED ==> j in s.finished && !job.payload.Malformed? && !job.payload.Unhandled?)
    && (job.result.Some? ==> j in s.finished)
    && (job.status == FAILED && j !in s.finished ==> job.error == Some("orphaned"))
    && (j in s.applied <==> job.payload.Bulk? && CleanlySucceeded(job))
    && (j in s.applied ==> j in s.notes)
  }

  ghost predicate JobsOk(s: State) {
    && (forall j :: j in s.jobs ==> JobOk(s, j))
    && (forall j :: j !in s.jobs ==> Count(s.claims, j) == Count(s.runs, j) == 0 && j !in s.finished)
    && (forall j :: j in s.applied ==> j in s.jobs)
    && (forall a, b :: 0 <= a < b < |s.applied| ==> s.applied[a] != s.applied[b])
  }

  ghost predicate WorkersOk(s: State) {
    && (forall w :: w in s.workers ==> WorkerOk(s, s.workers[w]))
    && (forall w, v :: w in s.workers && v in s.workers && w != v ==> Apart(s.workers[w], s.workers[v]))
  }

  /** No two workers are on the same job, and no two hold a lock on the same row. */
  ghost predicate Apart(a: Worker, b: Worker) {
    && a.job != b.job
    && Overlay(a).Keys !! Overlay(b).Keys
  }

  ghost predicate Inv(s: State, initial: Table) {
    WorkersOk(s) && JobsOk(s) && SerialSeen(s.jobs, s.notes, s.applied, initial) == Some(s.table)
  }

  // ---------------------------------------------------------------- frames

  lemma OnlyCommitsWrite(s: State, step: Step)
    requires Enabled(s, step) && !step.CommitJob?
    ensures var s' := Apply(s, step); s'.table == s.table && s'.applied == s.applied && s'.notes == s.notes
  {
  }

  lemma PayloadsStay(s: State, step: Step)
    requires Enabled(s, step)
    ensures forall j :: j in s.jobs ==> j in Apply(s, step).jobs && Apply(s, step).jobs[j].payload == s.jobs[j].payload
  {
  }

  /** Steps that commit no table rows keep the serial order. */
  lemma SameSerial(s: State, step: Step, initial: Table)
    requires Inv(s, initial) && Enabled(s, step) && !step.CommitJob?
    ensures var s' := Apply(s, step); SerialSeen(s'.jobs, s'.notes, s'.applied, initial) == Some(s'.table)
  {
    var s' := Apply(s, step);
    PayloadsStay(s, step);
    OnlyCommitsWrite(s, step);
    forall j | j in s.applied ensures j in s.jobs && j in s.notes {
      assert JobOk(s, j);
    }
    SerialReads(s.jobs, s'.jobs, s.notes, s'.notes, s.applied, initial);
  }

  /** Nothing that the invariant says of job `k` has changed. */
  predicate SameJob(s: State, s': State, k: string) {
    && (k in s.jobs <==> k in s'.jobs)
    && (k in s.jobs ==> s'.jobs[k] == s.jobs[k])
    && Count(s'.claims, k) == Count(s.claims, k)
    && Count(s'.runs, k) == Count(s.runs, k)
    && (k in s'.finished <==> k in s.finished)
    && (k in s'.applied <==> k in s.applied)
    && (k in s'.notes <==> k in s.notes)
  }

  lemma JobsFrame(s: State, s': State, j: string)
    requires JobsOk(s)
    requires forall k :: k != j ==> SameJob(s, s', k)
    requires j in s'.jobs && JobOk(s', j)
    requires s'.applied == s.applied || (j !in s.applied && s'.applied == s.applied + [j])
    ensures JobsOk(s')
  {
    forall k | k in s'.jobs ensures JobOk(s', k) {
      assert k != j ==> SameJob(s, s', k) && JobOk(s, k);
    }
    forall k | k !in s'.jobs ensures Count(s'.claims, k) == Count(s'.runs, k) == 0 && k !in s'.finished {
      assert SameJob(s, s', k);
    }
    forall k | k in s'.applied ensures k in s'.jobs {
      assert k != j ==> k in s.applied && SameJob(s, s', k);
    }
    assert forall a :: 0 <= a < |s.applied| ==> s.applied[a] in s.applied;
  }

  function JobOf(s: State, step: Step): string
    requires Enabled(s, step) && !step.CleanUp?
  {
    if step.Enqueue? || step.Pick? then step.j else s.workers[step.w].job
  }

  lemma OneJobChanges(s: State, step: Step, k: string)
    requires Enabled(s, step) && !step.CleanUp? && k != JobOf(s, step)
    ensures SameJob(s, Apply(s, step), k)
  {
  }

  lemma ThatJobStaysOk(s: State, step: Step)
    requires WorkersOk(s) && JobsOk(s) && Enabled(s, step) && !step.CleanUp?
    ensures JobOf(s, step) in Apply(s, step).jobs && JobOk(Apply(s, step), JobOf(s, step))
    ensures step.CommitJob? ==> JobOf(s, step) !in s.applied
  {
    var j := JobOf(s, step);
    assert j in s.jobs ==> JobOk(s, j);
    if step.Enqueue? || step.Pick? {
      NoWorkersStep(s, step);
    } else {
      assert WorkerOk(s, s.workers[step.w]);
      if step.CommitJob? {
        CommitStep(s, step.w);
      } else {
        WorkersStep(s, step);
      }
    }
  }

  lemma NoWorkersStep(s: State, step: Step)
    requires Enabled(s, step) && (step.Enqueue? || step.Pick?)
    requires step.j in s.jobs ==> JobOk(s, step.j)
    requires step.j !in s.jobs ==>
      Count(s.claims, step.j) == Count(s.runs, step.j) == 0 && step.j !in s.finished && step.j !in s.applied
    ensures step.j in Apply(s, step).jobs && JobOk(Apply(s, step), step.j)
  {
  }

  lemma CommitStep(s: State, w: nat)
    requires Enabled(s, CommitJob(w)) && WorkerOk(s, s.workers[w]) && JobOk(s, s.workers[w].job)
    ensures var s', j := Committed(s, w), s.workers[w].job; j in s'.jobs && JobOk(s', j)
    ensures s.workers[w].job !in s.applied
  {
  }

  lemma WorkersStep(s: State, step: Step)
    requires Enabled(s, step) && !step.CleanUp? && !step.Enqueue? && !step.Pick? && !step.CommitJob?
    requires WorkerOk(s, s.workers[step.w]) && JobOk(s, s.workers[step.w].job)
    ensures var s', j := Apply(s, step), s.workers[step.w].job; j in s'.jobs && JobOk(s', j)
  {
  }

  lemma CleanUpKeepsJobs(s: State)
    requires JobsOk(s)
    ensures JobsOk(Apply(s, CleanUp))
  {
    forall j | j in s.jobs ensures JobOk(Apply(s, CleanUp), j) {
      assert JobOk(s, j);
    }
  }

  lemma JobsStayOk(s: State, step: Step)
    requires WorkersOk(s) && JobsOk(s) && Enabled(s, step)
    ensures JobsOk(Apply(s, step))
  {
    var s' := Apply(s, step);
    if step.CleanUp? {
      CleanUpKeepsJobs(s);
    } else {
      forall k | k != JobOf(s, step) ensures SameJob(s, s', k) {
        OneJobChanges(s, step, k);
      }
      ThatJobStaysOk(s, step);
      AppliedGrows(s, step);
      JobsFrame(s, s', JobOf(s, step));
    }
  }

  lemma AppliedGrows(s: State, step: Step)
    requires Enabled(s, step) && !step.CleanUp?
    ensures var s' := Apply(s, step);
            s'.applied == s.applied || (step.CommitJob? && s'.applied == s.applied + [JobOf(s, step)])
  {
  }

  // ---------------------------------------------------------------- the other workers

  /** A worker is unaffected while its job stays as it is and its rows are not touched. */
  lemma WorkerFrame(s: State, s': State, worker: Worker)
    requires WorkerOk(s, worker) && SameJob(s, s', worker.job) && s'.table == s.table
    ensures WorkerOk(s', worker)
  {
  }

  lemma OthersAreElsewhere(s: State, step: Step, v: nat)
    requires WorkersOk(s) && JobsOk(s) && Enabled(s, step) && !step.CleanUp?
    requires v in s.workers && (step.Enqueue? || v != step.w)
    ensures s.workers[v].job != JobOf(s, step)
  {
    assert WorkerOk(s, s.workers[v]);
    if step.Pick? {
      assert JobOk(s, step.j);
      assert s.workers[v].Picked? ==> s.workers[v].job in LockedJobs(s);
    } else if !step.Enqueue? {
      assert Apart(s.workers[v], s.workers[step.w]);
    }
  }

  /** The other workers stay as the invariant wants them, also across a commit: what it writes
      are rows they hold no lock of, and no row or owner goes away. */
  lemma OthersStayOk(s: State, step: Step, v: nat)
    requires WorkersOk(s) && JobsOk(s) && Enabled(s, step) && !step.CleanUp?
    requires v in s.workers && (step.Enqueue? || v != step.w)
    ensures WorkerOk(Apply(s, step), s.workers[v])
  {
    OthersAreElsewhere(s, step, v);
    OneJobChanges(s, step, s.workers[v].job);
    assert WorkerOk(s, s.workers[v]);
    if step.CommitJob? {
      assert WorkerOk(s, s.workers[step.w]) && Apart(s.workers[v], s.workers[step.w]);
      CommitFrame(s, step.w, s.workers[v]);
    } else {
      OnlyCommitsWrite(s, step);
      WorkerFrame(s, Apply(s, step), s.workers[v]);
    }
  }

  lemma CommitKeepsOwners(s: State, w: nat)
    requires Enabled(s, CommitJob(w)) && WorkerOk(s, s.workers[w])
    ensures forall e, k :: Owns(s.table, e, k) ==> Owns(s.table + s.workers[w].overlay, e, k)
  {
    var worker := s.workers[w];
    var rows := RowsOf(s.jobs[worker.job].payload);
    if worker.released {
      forall e, k | Owns(s.table, e, k) ensures Owns(s.table + worker.overlay, e, k) {
        SeenKeepsOwners(s.table, rows, worker.ids, worker.views, e, k);
      }
    } else {
      assert s.table + map[] == s.table;
    }
  }

  lemma CommitFrame(s: State, w: nat, other: Worker)
    requires Enabled(s, CommitJob(w)) && WorkerOk(s, s.workers[w]) && WorkerOk(s, other) && Apart(other, s.workers[w])
    requires SameJob(s, Committed(s, w), other.job)
    ensures WorkerOk(Committed(s, w), other)
  {
    var t, t' := s.table, Committed(s, w).table;
    var payload := s.jobs[other.job].payload;
    CommitKeepsOwners(s, w);
    if other.Running? {
      RunningFrame(t, t', RowsOf(payload), other);
    } else if other.Finishing? {
      FinishingFrame(t, t', payload, other);
    }
  }

  lemma RunningFrame(t: Table, t': Table, rows: seq<Row>, worker: Worker)
    requires worker.Running? && RunningOk(t, rows, worker)
    requires t.Keys <= t'.Keys && forall k :: k in worker.overlay ==> Lookup(t, k) == Lookup(t', k)
    requires forall e, k :: Owns(t, e, k) ==> Owns(t', e, k)
    ensures RunningOk(t', rows, worker)
  {
    if worker.errors == [] {
      PendingSurvives(t, t', rows[..worker.next], worker.ids, worker.views[..worker.next], worker.overlay);
    }
  }

  lemma FinishingFrame(t: Table, t': Table, payload: Payload, worker: Worker)
    requires worker.Finishing? && FinishingOk(t, payload, worker)
    requires t.Keys <= t'.Keys && forall k :: k in worker.overlay ==> Lookup(t, k) == Lookup(t', k)
    requires forall e, k :: Owns(t, e, k) ==> Owns(t', e, k)
    ensures FinishingOk(t', payload, worker)
  {
    if worker.released {
      PendingSurvives(t, t', RowsOf(payload), worker.ids, worker.views, worker.overlay);
    }
  }

  // ---------------------------------------------------------------- the worker that moves

  lemma MoverStaysOk(s: State, step: Step)
    requires WorkersOk(s) && JobsOk(s) && Enabled(s, step) && !step.CleanUp? && !step.Enqueue?
    requires step.w in Apply(s, step).workers
    ensures WorkerOk(Apply(s, step), Apply(s, step).workers[step.w])
  {
    var j := JobOf(s, step);
    assert j in s.jobs && JobOk(s, j);
    if step.Pick? || step.CommitClaim? || step.EndDump? {
      SimpleMove(s, step);
    } else {
      assert WorkerOk(s, s.workers[step.w]);
      match step
      case Start(w) => MoverStarts(s, w);
      case ReadInfo(w) => MoverReads(s, w);
      case WriteRow(w) => MoverWrites(s, w);
      case RowFault(w) => MoverFails(s, w);
      case EndBatch(w) => MoverEnds(s, w);
    }
  }

  lemma SimpleMove(s: State, step: Step)
    requires WorkersOk(s) && JobsOk(s) && Enabled(s, step) && (step.Pick? || step.CommitClaim? || step.EndDump?)
    ensures step.w in Apply(s, step).workers && WorkerOk(Apply(s, step), Apply(s, step).workers[step.w])
  {
    var j := JobOf(s, step);
    assert j in s.jobs && JobOk(s, j);
    assert !step.Pick? ==> WorkerOk(s, s.workers[step.w]);
  }

  lemma MoverStarts(s: State, w: nat)
    requires Enabled(s, Start(w)) && WorkerOk(s, s.workers[w])
    ensures WorkerOk(Apply(s, Start(w)), Started(s, w))
  {
    var rows := RowsOf(s.jobs[s.workers[w].job].payload);
    var ids := Resolve(s.table, rows);
    NothingPending(s.table, ids);
    NothingWritten(ids);
    assert rows[..0] == [];
  }

  lemma MoverReads(s: State, w: nat)
    requires Enabled(s, ReadInfo(w)) && WorkerOk(s, s.workers[w])
    ensures WorkerOk(Apply(s, ReadInfo(w)), Apply(s, ReadInfo(w)).workers[w])
  {
    var worker := s.workers[w];
    var view := Lookup(s.table + worker.overlay, KeyOf(RowsFor(s, w)[worker.next], worker.ids));
    assert (worker.views + [view])[..worker.next] == worker.views[..worker.next];
  }

  lemma MoverFails(s: State, w: nat)
    requires AtWork(s, w) && s.workers[w].next < |RowsFor(s, w)| && s.workers[w].next <= |s.workers[w].views|
    requires WorkerOk(s, s.workers[w])
    ensures WorkerOk(Move(s, w, Failed(s.workers[w])), Failed(s.workers[w]))
  {
  }

  lemma MoverWrites(s: State, w: nat)
    requires Enabled(s, WriteRow(w)) && WorkerOk(s, s.workers[w])
    ensures WorkerOk(Apply(s, WriteRow(w)), Executed(s, w))
  {
    var worker := s.workers[w];
    if Execute(s.table, worker.overlay, RowsFor(s, w)[worker.next], worker.ids, NextView(worker)).None? {
      MoverFails(s, w);
    } else if worker.errors == [] {
      RowExtendsOpen(s.table, RowsFor(s, w), worker);
      var views := worker.views[..worker.next] + [NextView(worker)];
      assert views[..worker.next + 1] == views;
    }
  }

  lemma RowExtendsPending(t: Table, rows: seq<Row>, worker: Worker)
    requires worker.Running? && worker.errors == [] && RunningOk(t, rows, worker) && worker.next < |rows|
    requires var row := rows[worker.next];
             && (row.InfoRow? ==> row.externalId in worker.ids)
             && |worker.views| == worker.next + (if row.InfoRow? then 1 else 0)
             && Execute(t, worker.overlay, row, worker.ids, NextView(worker)).Some?
    ensures var n := worker.next;
            var overlay' := Execute(t, worker.overlay, rows[n], worker.ids, NextView(worker)).value;
            Pending(t, rows[..n + 1], worker.ids, worker.views[..n] + [NextView(worker)], overlay')
  {
    var n, row, view := worker.next, rows[worker.next], NextView(worker);
    var views := worker.views[..n] + [view];
    var overlay' := Execute(t, worker.overlay, row, worker.ids, view).value;
    assert views[..n] == worker.views[..n] && views[..n + 1] == views;
    ExecuteIsWriteSeen(t, worker.overlay, row, worker.ids, view);
    PendingNext(t, rows, n, worker.ids, views, worker.overlay, overlay');
  }

  lemma RowExtendsOpen(t: Table, rows: seq<Row>, worker: Worker)
    requires worker.Running? && worker.errors == [] && RunningOk(t, rows, worker) && worker.next < |rows|
    requires var row := rows[worker.next];
             && (row.InfoRow? ==> row.externalId in worker.ids)
             && |worker.views| == worker.next + (if row.InfoRow? then 1 else 0)
             && Execute(t, worker.overlay, row, worker.ids, NextView(worker)).Some?
    ensures var n := worker.next;
            var overlay' := Execute(t, worker.overlay, rows[n], worker.ids, NextView(worker)).value;
            Open(t, rows[..n + 1], worker.ids, worker.views[..n] + [NextView(worker)], overlay')
  {
    var n, row, view := worker.next, rows[worker.next], NextView(worker);
    var views := worker.views[..n] + [view];
    var overlay' := Execute(t, worker.overlay, row, worker.ids, view).value;
    RowExtendsPending(t, rows, worker);
    assert views[..n] == worker.views[..n] && views[..n + 1] == views;
    if row.SpotRow? {
      var key := KeyOf(row, worker.ids);
      SpotRowOwnWrites(rows, n, worker.ids, views, worker.overlay, key, overlay'[key]);
    } else {
      assert map[] + row.fields == row.fields;
      InfoRowOwnWrites(t, rows, n, worker.ids, views, worker.overlay, overlay');
    }
  }

  lemma MoverEnds(s: State, w: nat)
    requires Enabled(s, EndBatch(w)) && WorkerOk(s, s.workers[w])
    ensures WorkerOk(Apply(s, EndBatch(w)), Ended(s, w))
  {
    var worker, rows := s.workers[w], RowsFor(s, w);
    assert rows[..|rows|] == rows && worker.views[..|rows|] == worker.views;
  }

  // ---------------------------------------------------------------- locks stay apart

  lemma MoverStaysOnJob(s: State, step: Step)
    requires Enabled(s, step) && !step.CleanUp? && !step.Enqueue? && step.w in Apply(s, step).workers
    ensures Apply(s, step).workers[step.w].job == JobOf(s, step)
  {
  }

  lemma OtherStepsLockNothing(s: State, step: Step)
    requires Enabled(s, step) && !step.CleanUp? && !step.Enqueue? && !step.Pick? && !step.WriteRow?
    requires step.w in Apply(s, step).workers
    ensures Overlay(Apply(s, step).workers[step.w]).Keys <= Overlay(s.workers[step.w]).Keys
  {
  }

  /** A step locks at most the free row it writes. */
  lemma MoverTakesFreeRows(s: State, step: Step, v: nat)
    requires Enabled(s, step) && !step.CleanUp? && !step.Enqueue?
    requires step.w in Apply(s, step).workers && v in s.workers && v != step.w
    requires !step.Pick? ==> Overlay(s.workers[step.w]).Keys !! Overlay(s.workers[v]).Keys
    ensures Overlay(Apply(s, step).workers[step.w]).Keys !! Overlay(s.workers[v]).Keys
  {
    if step.WriteRow? {
      WriterTakesFreeRow(s, step.w, v);
    } else if !step.Pick? {
      OtherStepsLockNothing(s, step);
    }
  }

  lemma WriterTakesFreeRow(s: State, w: nat, v: nat)
    requires Enabled(s, WriteRow(w)) && v in s.workers && v != w
    requires Overlay(s.workers[w]).Keys !! Overlay(s.workers[v]).Keys
    ensures Overlay(Executed(s, w)).Keys !! Overlay(s.workers[v]).Keys
  {
    var worker := s.workers[w];
    var row := RowsFor(s, w)[worker.next];
    if Execute(s.table, worker.overlay, row, worker.ids, NextView(worker)).Some? {
      ExecuteIsWriteSeen(s.table, worker.overlay, row, worker.ids, NextView(worker));
    }
  }

  lemma MoverStaysApart(s: State, step: Step, v: nat)
    requires WorkersOk(s) && JobsOk(s) && Enabled(s, step) && !step.CleanUp? && !step.Enqueue?
    requires step.w in Apply(s, step).workers && v in s.workers && v != step.w
    ensures Apart(Apply(s, step).workers[step.w], s.workers[v])
  {
    OthersAreElsewhere(s, step, v);
    assert !step.Pick? ==> Apart(s.workers[step.w], s.workers[v]);
    MoverStaysOnJob(s, step);
    MoverTakesFreeRows(s, step, v);
  }

  /** One worker moves: the others stay, and it stays apart from them. */
  lemma WorkersFrame(s: State, s': State, w: nat)
    requires WorkersOk(s)
    requires s'.workers - {w} == s.workers - {w}
    requires forall v :: v in s.workers && v != w ==> WorkerOk(s', s.workers[v])
    requires w in s'.workers ==> WorkerOk(s', s'.workers[w])
    requires w in s'.workers ==> forall v :: v in s.workers && v != w ==> Apart(s'.workers[w], s.workers[v])
    ensures WorkersOk(s')
  {
    forall v | v in s'.workers && v != w ensures v in s.workers && s'.workers[v] == s.workers[v] {
      assert v in s'.workers - {w} && v in s.workers - {w};
      assert (s'.workers - {w})[v] == (s.workers - {w})[v];
    }
  }

  lemma OnlyOneMoves(s: State, step: Step)
    requires Enabled(s, step) && !step.CleanUp? && !step.Enqueue?
    ensures Apply(s, step).workers - {step.w} == s.workers - {step.w}
  {
  }

  lemma OneWorkerMoves(s: State, step: Step)
    requires WorkersOk(s) && JobsOk(s) && Enabled(s, step) && !step.CleanUp? && !step.Enqueue?
    ensures WorkersOk(Apply(s, step))
  {
    var s' := Apply(s, step);
    forall v | v in s.workers && v != step.w ensures WorkerOk(s', s.workers[v]) {
      OthersStayOk(s, step, v);
    }
    if step.w in s'.workers {
      MoverStaysOk(s, step);
      forall v | v in s.workers && v != step.w ensures Apart(s'.workers[step.w], s.workers[v]) {
        MoverStaysApart(s, step, v);
      }
    }
    OnlyOneMoves(s, step);
    WorkersFrame(s, s', step.w);
  }

  lemma CleanUpKeepsWorkers(s: State)
    requires WorkersOk(s)
    ensures WorkersOk(Apply(s, CleanUp))
  {
    forall w | w in s.workers ensures WorkerOk(Apply(s, CleanUp), s.workers[w]) {
      CleanUpKeepsWorker(s, s.workers[w]);
    }
  }

  lemma CleanUpKeepsWorker(s: State, worker: Worker)
    requires WorkerOk(s, worker)
    ensures WorkerOk(Apply(s, CleanUp), worker)
  {
  }

  lemma WorkersStayOk(s: State, step: Step)
    requires WorkersOk(s) && JobsOk(s) && Enabled(s, step)
    ensures WorkersOk(Apply(s, step))
  {
    if step.CleanUp? {
      CleanUpKeepsWorkers(s);
    } else if step.Enqueue? {
      forall v | v in s.workers ensures WorkerOk(Apply(s, step), s.workers[v]) {
        OthersStayOk(s, step, v);
      }
    } else {
      OneWorkerMoves(s, step);
    }
  }

  /** Committing a job appends its batch as executed to the serial order, or nothing. */
  lemma CommitExtendsSerial(s: State, w: nat, initial: Table)
    requires Enabled(s, CommitJob(w)) && WorkerOk(s, s.workers[w])
    requires s.workers[w].job !in s.applied && forall j :: j in s.applied ==> j in s.jobs && j in s.notes
    requires SerialSeen(s.jobs, s.notes, s.applied, initial) == Some(s.table)
    ensures var s' := Committed(s, w); SerialSeen(s'.jobs, s'.notes, s'.applied, initial) == Some(s'.table)
  {
    var s', worker := Committed(s, w), s.workers[w];
    SerialReads(s.jobs, s'.jobs, s.notes, s'.notes, s.applied, initial);
    if worker.released {
      SerialAppends(s'.jobs, s'.notes, s.applied, worker.job, initial, s.table);
    } else {
      assert s'.table == s.table;
    }
  }

  lemma StepKeepsInv(s: State, step: Step, initial: Table)
    requires Inv(s, initial) && Enabled(s, step)
    ensures Inv(Apply(s, step), initial)
  {
    JobsStayOk(s, step);
    WorkersStayOk(s, step);
    if step.CommitJob? {
      ThatJobStaysOk(s, step);
      forall j | j in s.applied ensures j in s.jobs && j in s.notes {
        assert JobOk(s, j);
      }
      assert WorkerOk(s, s.workers[step.w]);
      CommitExtendsSerial(s, step.w, initial);
    } else {
      SameSerial(s, step, initial);
    }
  }

  // ---------------------------------------------------------------- every run

  lemma {:induction false} RunKeepsInv(ss: seq<State>, steps: seq<Step>, i: nat)
    requires Run(ss, steps) && i <= |steps|
    ensures Inv(ss[i], ss[0].table)
  {
    if i > 0 {
      RunKeepsInv(ss, steps, i - 1);
      StepKeepsInv(ss[i - 1], steps[i - 1], ss[0].table);
    }
  }

  /** Crash atomicity. Whatever workers, crashes and clean-ups there were, a bulk job's batch
      has been applied exactly when the job's committed status is SUCCEEDED with no failed row
      and no dry run; and the committed tables are what the applied batches have executed, each
      with all its rows and once, in commit order, and nothing else. */
  lemma AppliedIffCleanlySucceeded(ss: seq<State>, steps: seq<Step>, i: nat)
    requires Run(ss, steps) && i <= |steps|
    ensures var s := ss[i];
            && SerialSeen(s.jobs, s.notes, s.applied, ss[0].table) == Some(s.table)
            && (forall a, b :: 0 <= a < b < |s.applied| ==> s.applied[a] != s.applied[b])
            && (forall j :: j in s.applied ==> j in s.jobs && s.jobs[j].payload.Bulk?)
            && (forall j :: j in s.jobs && s.jobs[j].payload.Bulk? ==>
                  (j in s.applied <==> CleanlySucceeded(s.jobs[j])))
  {
    RunKeepsInv(ss, steps, i);
    assert forall j :: j in ss[i].jobs ==> JobOk(ss[i], j);
  }

  /** A payload that cannot be handled never succeeds, and a dump ends as its dump did, with no
      effect on the tables. */
  lemma OnlyHandledJobsSucceed(ss: seq<State>, steps: seq<Step>, i: nat, j: string)
    requires Run(ss, steps) && i <= |steps| && j in ss[i].jobs && ss[i].jobs[j].status == SUCCEEDED
    ensures ss[i].jobs[j].payload.Bulk? || ss[i].jobs[j].payload.Dump?
  {
    RunKeepsInv(ss, steps, i);
    assert JobOk(ss[i], j);
  }

  lemma DumpEndsAsItDid(s: State, w: nat, ok: bool)
    requires Enabled(s, EndDump(w, ok))
    ensures var s' := Apply(s, EndDump(w, ok));
            && Enabled(s', CommitJob(w)) && Apply(s', CommitJob(w)).table == s.table
            && var job := Apply(s', CommitJob(w)).jobs[s.workers[w].job];
               job.status == (if ok then SUCCEEDED else FAILED) && (!ok ==> job.error == Some("dump failed"))
  {
  }

  /** A job is claimed at most once, run at most once, and only once claimed. */
  lemma ClaimedAndRunAtMostOnce(ss: seq<State>, steps: seq<Step>, i: nat, j: string)
    requires Run(ss, steps) && i <= |steps|
    ensures Count(ss[i].runs, j) <= Count(ss[i].claims, j) <= 1
    ensures j in ss[i].jobs ==> (ss[i].jobs[j].status == PENDING <==> Count(ss[i].claims, j) == 0)
  {
    RunKeepsInv(ss, steps, i);
    assert j in ss[i].jobs ==> JobOk(ss[i], j);
  }

  lemma StatusesAdvance(s: State, step: Step, j: string)
    requires Enabled(s, step) && j in s.jobs
    ensures j in Apply(s, step).jobs
    ensures s.jobs[j].status != PENDING ==> Apply(s, step).jobs[j].status != PENDING
  {
  }

  /** No job returns to PENDING, and none disappears. */
  lemma {:induction false} NeverPendingAgain(ss: seq<State>, steps: seq<Step>, i: nat, k: nat, j: string)
    requires Path(ss, steps) && i <= k <= |steps|
    requires j in ss[i].jobs && ss[i].jobs[j].status != PENDING
    ensures j in ss[k].jobs && ss[k].jobs[j].status != PENDING
  {
    if i < k {
      NeverPendingAgain(ss, steps, i, k - 1, j);
      StatusesAdvance(ss[k - 1], steps[k - 1], j);
    }
  }
}
