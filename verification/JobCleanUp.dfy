/** The start-up clean-up (vivacapi/workers/job_worker.py:19-35) next to running workers: when
    the statuses it leaves are final. */
module JobCleanUp {
  import opened Wrappers
  import opened Batch
  import opened JobRows
  import opened BulkTables
  import opened JobQueue
  import opened JobRuns
  import S = SpotsBulk

  /** No worker is past its claim. */
  predicate OnlyPicks(s: State) {
    forall w :: w in s.workers ==> s.workers[w].Picked?
  }

  /** Every job under way is RUNNING. */
  ghost predicate UnderWay(s: State) {
    forall w :: w in s.workers && !s.workers[w].Picked? ==>
      s.workers[w].job in s.jobs && s.jobs[s.workers[w].job].status == RUNNING
  }

  lemma OtherWorkers(s: State, step: Step, w: nat)
    requires Enabled(s, step) && !step.CleanUp? && (step.Enqueue? || w != step.w)
    ensures w in Apply(s, step).workers ==> w in s.workers && Apply(s, step).workers[w] == s.workers[w]
  {
  }

  lemma MoverIsUnderWay(s: State, step: Step)
    requires UnderWay(s) && Enabled(s, step) && !step.CleanUp? && !step.Enqueue?
    requires step.w in Apply(s, step).workers && !Apply(s, step).workers[step.w].Picked?
    ensures var s' := Apply(s, step); var j := s'.workers[step.w].job; j in s'.jobs && s'.jobs[j].status == RUNNING
  {
  }

  lemma OtherIsUnderWay(s: State, step: Step, w: nat)
    requires WorkersOk(s) && JobsOk(s) && UnderWay(s) && Enabled(s, step) && !step.CleanUp?
    requires w in s.workers && !s.workers[w].Picked? && (step.Enqueue? || w != step.w)
    ensures var s', j := Apply(s, step), s.workers[w].job; j in s'.jobs && s'.jobs[j].status == RUNNING
  {
    OthersAreElsewhere(s, step, w);
    OneJobChanges(s, step, s.workers[w].job);
  }

  lemma StepKeepsUnderWay(s: State, step: Step)
    requires WorkersOk(s) && JobsOk(s) && UnderWay(s) && Enabled(s, step)
    requires step.CleanUp? ==> OnlyPicks(s)
    ensures UnderWay(Apply(s, step))
  {
    var s' := Apply(s, step);
    if !step.CleanUp? {
      forall w | w in s'.workers && !s'.workers[w].Picked?
        ensures s'.workers[w].job in s'.jobs && s'.jobs[s'.workers[w].job].status == RUNNING
      {
        if step.Enqueue? || w != step.w {
          OtherWorkers(s, step, w);
          OtherIsUnderWay(s, step, w);
        } else {
          MoverIsUnderWay(s, step);
        }
      }
    }
  }

  lemma StepKeepsTerminal(s: State, step: Step, j: string)
    requires WorkersOk(s) && UnderWay(s) && Enabled(s, step) && j in s.jobs && Terminal(s.jobs[j].status)
    ensures j in Apply(s, step).jobs && Apply(s, step).jobs[j] == s.jobs[j]
  {
    if step.CommitClaim? {
      assert WorkerOk(s, s.workers[step.w]);
    }
  }

  /** Clean-ups run only while no worker is past its claim. */
  ghost predicate HarmlessCleanUps(ss: seq<State>, steps: seq<Step>)
    requires |ss| == |steps| + 1
  {
    forall i :: 0 <= i < |steps| && steps[i].CleanUp? ==> OnlyPicks(ss[i])
  }

  lemma {:induction false} PathKeepsTerminal(ss: seq<State>, steps: seq<Step>, initial: Table, k: nat, j: string)
    requires Path(ss, steps) && HarmlessCleanUps(ss, steps) && k <= |steps|
    requires Inv(ss[0], initial) && UnderWay(ss[0]) && j in ss[0].jobs && Terminal(ss[0].jobs[j].status)
    ensures Inv(ss[k], initial) && UnderWay(ss[k]) && j in ss[k].jobs && ss[k].jobs[j] == ss[0].jobs[j]
  {
    if k > 0 {
      PathKeepsTerminal(ss, steps, initial, k - 1, j);
      StepKeepsInv(ss[k - 1], steps[k - 1], initial);
      StepKeepsUnderWay(ss[k - 1], steps[k - 1]);
      StepKeepsTerminal(ss[k - 1], steps[k - 1], j);
    }
  }

  lemma {:induction false} JobsUnderWayAreRunning(ss: seq<State>, steps: seq<Step>, i: nat)
    requires Run(ss, steps) && HarmlessCleanUps(ss, steps) && i <= |steps|
    ensures UnderWay(ss[i])
  {
    if i > 0 {
      JobsUnderWayAreRunning(ss, steps, i - 1);
      RunKeepsInv(ss, steps, i - 1);
      StepKeepsUnderWay(ss[i - 1], steps[i - 1]);
    }
  }

  lemma PathTail(ss: seq<State>, steps: seq<Step>, i: nat)
    requires Path(ss, steps) && i <= |steps|
    ensures Path(ss[i..], steps[i..])
    ensures HarmlessCleanUps(ss, steps) ==> HarmlessCleanUps(ss[i..], steps[i..])
  {
  }

  /** In every run whose clean-ups find no worker past its claim, a terminal job never changes. */
  lemma TerminalJobsAreFinal(ss: seq<State>, steps: seq<Step>, i: nat, k: nat, j: string)
    requires Run(ss, steps) && HarmlessCleanUps(ss, steps) && i <= k <= |steps|
    requires j in ss[i].jobs && Terminal(ss[i].jobs[j].status)
    ensures j in ss[k].jobs && ss[k].jobs[j] == ss[i].jobs[j]
  {
    RunKeepsInv(ss, steps, i);
    JobsUnderWayAreRunning(ss, steps, i);
    PathTail(ss, steps, i);
    PathKeepsTerminal(ss[i..], steps[i..], ss[0].table, k - i, j);
  }

  // ---------------------------------------------------------------- exactly when

  ghost predicate WithoutCleanUp(steps: seq<Step>) {
    forall i :: 0 <= i < |steps| ==> !steps[i].CleanUp?
  }

  /** Whatever follows, short of another clean-up, the terminal jobs stay as they are. */
  ghost predicate TerminalForGood(s: State) {
    forall ss, steps :: Path(ss, steps) && ss[0] == s && WithoutCleanUp(steps) ==> SameTerminal(s, ss[|steps|])
  }

  predicate SameTerminal(s: State, s': State) {
    forall j :: j in s.jobs && Terminal(s.jobs[j].status) ==> j in s'.jobs && s'.jobs[j] == s.jobs[j]
  }

  lemma PathCons(s: State, step: Step, ss: seq<State>, steps: seq<Step>)
    requires Enabled(s, step) && Path(ss, steps) && ss[0] == Apply(s, step)
    ensures Path([s] + ss, [step] + steps)
  {
    var all, moves := [s] + ss, [step] + steps;
    forall i | 0 <= i < |moves| ensures Enabled(all[i], moves[i]) && all[i + 1] == Apply(all[i], moves[i]) {
      assert i > 0 ==> all[i] == ss[i - 1] && moves[i] == steps[i - 1] && all[i + 1] == ss[i];
    }
  }

  /** A worker past its claim on a job that a clean-up has failed. */
  ghost predicate Overtaken(s: State, initial: Table, w: nat) {
    && Inv(s, initial) && w in s.workers && !s.workers[w].Picked?
    && s.workers[w].job in s.jobs
    && s.jobs[s.workers[w].job].status == FAILED && s.jobs[s.workers[w].job].error == Some("orphaned")
  }

  /** Its next step, if every row fails. */
  function NextStep(s: State, w: nat): Step
    requires w in s.workers && s.workers[w].job in s.jobs && !s.workers[w].Picked?
  {
    var worker := s.workers[w];
    if worker.Claimed? then Start(w)
    else if worker.Finishing? then CommitJob(w)
    else if s.jobs[worker.job].payload.Dump? then EndDump(w, true)
    else if worker.next < |RowsOf(s.jobs[worker.job].payload)| then RowFault(w)
    else EndBatch(w)
  }

  /** How far it still is from its commit. */
  function Remaining(s: State, w: nat): nat
    requires w in s.workers && s.workers[w].job in s.jobs && !s.workers[w].Picked?
  {
    var worker, n := s.workers[w], |RowsOf(s.jobs[s.workers[w].job].payload)|;
    if worker.Claimed? then n + 3
    else if worker.Running? then (if worker.next <= n then n - worker.next + 2 else 2)
    else 1
  }

  lemma NextStepIsEnabled(s: State, initial: Table, w: nat)
    requires Overtaken(s, initial, w)
    ensures Enabled(s, NextStep(s, w))
  {
    assert WorkerOk(s, s.workers[w]);
  }

  /** The job is as it was, and the worker is nearer to its commit. */
  predicate Advances(s: State, s': State, w: nat)
    requires w in s.workers && s.workers[w].job in s.jobs && !s.workers[w].Picked?
  {
    && s'.jobs == s.jobs && w in s'.workers && s'.workers[w].job == s.workers[w].job && !s'.workers[w].Picked?
    && Remaining(s', w) < Remaining(s, w)
  }

  lemma StartAdvances(s: State, w: nat)
    requires Enabled(s, Start(w))
    ensures Advances(s, Apply(s, Start(w)), w)
  {
  }

  lemma FaultAdvances(s: State, w: nat)
    requires Enabled(s, RowFault(w))
    ensures Advances(s, Apply(s, RowFault(w)), w)
  {
  }

  lemma EndAdvances(s: State, step: Step)
    requires Enabled(s, step) && (step.EndBatch? || step.EndDump?)
    ensures Advances(s, Apply(s, step), step.w)
  {
  }

  lemma NextStepAdvances(s: State, w: nat)
    requires w in s.workers && s.workers[w].job in s.jobs && !s.workers[w].Picked? && !s.workers[w].Finishing?
    requires Enabled(s, NextStep(s, w))
    ensures Advances(s, Apply(s, NextStep(s, w)), w)
  {
    var step := NextStep(s, w);
    if step.Start? {
      StartAdvances(s, w);
    } else if step.RowFault? {
      FaultAdvances(s, w);
    } else {
      EndAdvances(s, step);
    }
  }

  lemma CommitOverwrites(s: State, initial: Table, w: nat)
    requires Overtaken(s, initial, w) && s.workers[w].Finishing?
    ensures Enabled(s, CommitJob(w))
    ensures var j := s.workers[w].job; j in Apply(s, CommitJob(w)).jobs && Apply(s, CommitJob(w)).jobs[j] != s.jobs[j]
  {
    assert WorkerOk(s, s.workers[w]);
  }

  lemma OvertakenGoesOn(s: State, initial: Table, w: nat)
    requires Overtaken(s, initial, w) && !s.workers[w].Finishing?
    ensures Enabled(s, NextStep(s, w)) && !NextStep(s, w).CleanUp?
    ensures var s' := Apply(s, NextStep(s, w));
            && Overtaken(s', initial, w) && s'.jobs == s.jobs && s'.workers[w].job == s.workers[w].job
            && Remaining(s', w) < Remaining(s, w)
  {
    NextStepIsEnabled(s, initial, w);
    NextStepAdvances(s, w);
    StepKeepsInv(s, NextStep(s, w), initial);
  }

  /** A way from `s`, without a clean-up, that changes job `j`. */
  ghost predicate Changes(s: State, j: string, ss: seq<State>, steps: seq<Step>) {
    && Path(ss, steps) && ss[0] == s && WithoutCleanUp(steps)
    && j in s.jobs && j in ss[|steps|].jobs && ss[|steps|].jobs[j] != s.jobs[j]
  }

  lemma ChangesLater(s: State, step: Step, j: string, ss: seq<State>, steps: seq<Step>)
    requires Enabled(s, step) && !step.CleanUp? && Apply(s, step).jobs == s.jobs
    requires Changes(Apply(s, step), j, ss, steps)
    ensures Changes(s, j, [s] + ss, [step] + steps)
  {
    PathCons(s, step, ss, steps);
    assert ([s] + ss)[|steps| + 1] == ss[|steps|];
  }

  lemma ChangesNow(s: State, initial: Table, w: nat)
    requires Overtaken(s, initial, w) && s.workers[w].Finishing?
    ensures Enabled(s, CommitJob(w))
    ensures Changes(s, s.workers[w].job, [s, Apply(s, CommitJob(w))], [CommitJob(w)])
  {
    CommitOverwrites(s, initial, w);
  }

  /** From there the worker can overwrite the job. */
  lemma {:induction false} Overwrites(s: State, initial: Table, w: nat) returns (ss: seq<State>, steps: seq<Step>)
    requires Overtaken(s, initial, w)
    ensures Changes(s, s.workers[w].job, ss, steps)
    decreases Remaining(s, w)
  {
    if s.workers[w].Finishing? {
      ChangesNow(s, initial, w);
      ss, steps := [s, Apply(s, CommitJob(w))], [CommitJob(w)];
    } else {
      var step := NextStep(s, w);
      OvertakenGoesOn(s, initial, w);
      ss, steps := Overwrites(Apply(s, step), initial, w);
      ChangesLater(s, step, s.workers[w].job, ss, steps);
      ss, steps := [s] + ss, [step] + steps;
    }
  }

  lemma CleanUpOvertakes(s: State, initial: Table, w: nat)
    requires Inv(s, initial) && w in s.workers && !s.workers[w].Picked?
    ensures Overtaken(Apply(s, CleanUp), initial, w)
  {
    StepKeepsInv(s, CleanUp, initial);
    var j := s.workers[w].job;
    assert WorkerOk(s, s.workers[w]);
    assert JobOk(s, j);
  }

  /** Exactly: from any reachable state, what a clean-up leaves is final, short of another
      clean-up, if and only if it found no worker past its claim. */
  lemma CleanUpIsFinalIff(s: State, initial: Table)
    requires Inv(s, initial)
    ensures TerminalForGood(Apply(s, CleanUp)) <==> OnlyPicks(s)
  {
    var s0 := Apply(s, CleanUp);
    StepKeepsInv(s, CleanUp, initial);
    if OnlyPicks(s) {
      forall ss: seq<State>, steps: seq<Step> | Path(ss, steps) && ss[0] == s0 && WithoutCleanUp(steps)
        ensures SameTerminal(s0, ss[|steps|])
      {
        forall j | j in s0.jobs && Terminal(s0.jobs[j].status)
          ensures j in ss[|steps|].jobs && ss[|steps|].jobs[j] == s0.jobs[j]
        {
          PathKeepsTerminal(ss, steps, initial, |steps|, j);
        }
      }
    } else {
      var w :| w in s.workers && !s.workers[w].Picked?;
      CleanUpOvertakes(s, initial, w);
      var ss, steps := Overwrites(s0, initial, w);
      assert !SameTerminal(s0, ss[|steps|]);
    }
  }

  // ---------------------------------------------------------------- a run where it goes wrong

  function Job1(row: Row, status: Status, result: Option<Report>, error: Option<string>): JobRow<Payload> {
    JobRow(0, Bulk(row, [], false), status, result, error)
  }

  /** The job was orphaned while its worker ran it. */
  function MidRun(j: string, row: Row, worker: Worker): State {
    State(
      map[j := Job1(row, FAILED, None, Some("orphaned"))],
      map[], map[0 := worker], map[j := 1], map[j := 1], {}, [], map[])
  }

  function Inserted(row: Row): Table
    requires row.SpotRow?
  {
    map[SpotAt(SpotKeyOf(row)) := S.Defaults(row.now) + row.values]
  }

  const DONE := Report(1, 0, false, [])

  function AtCommit(j: string, row: Row): Worker
    requires row.SpotRow?
  {
    Finishing(j, Inserted(row), true, Success(Some(DONE)), map[], [None])
  }

  lemma UpToCleanUp(j: string, row: Row) returns (ss: seq<State>, steps: seq<Step>)
    requires row.SpotRow?
    ensures Run(ss, steps) && |steps| == 5 && ss[5] == MidRun(j, row, Running(j, 0, map[], [], map[], []))
  {
    var payload := Bulk(row, [], false);
    var s0 := State(map[], map[], map[], map[], map[], {}, [], map[]);
    assert ExternalIds(RowsOf(payload)) == {};
    assert Resolve(map[], RowsOf(payload)) == map[];
    ss, steps := TakeUp([s0], [], 0, j, payload);
    var s4 := AtStart(s0, 0, j, payload);
    assert Orphaned(s4.jobs) == map[j := Job1(row, FAILED, None, Some("orphaned"))];
    ss, steps := Continue(ss, steps, CleanUp, MidRun(j, row, Running(j, 0, map[], [], map[], [])));
  }

  lemma WritesOn(j: string, row: Row)
    requires row.SpotRow?
    ensures var s := MidRun(j, row, Running(j, 0, map[], [], map[], []));
            && Enabled(s, WriteRow(0))
            && Apply(s, WriteRow(0)) == MidRun(j, row, Running(j, 1, Inserted(row), [], map[], [None]))
  {
    var s := MidRun(j, row, Running(j, 0, map[], [], map[], []));
    assert RowsFor(s, 0) == [row];
    assert Execute(s.table, map[], row, map[], None) == Some(Inserted(row));
    assert Executed(s, 0) == Running(j, 1, Inserted(row), [], map[], [None]);
  }

  lemma EndsOn(j: string, row: Row)
    requires row.SpotRow?
    ensures var s := MidRun(j, row, Running(j, 1, Inserted(row), [], map[], [None]));
            && Enabled(s, EndBatch(0))
            && Apply(s, EndBatch(0)) == MidRun(j, row, AtCommit(j, row))
  {
  }

  lemma CommitsOver(j: string, row: Row)
    requires row.SpotRow?
    ensures var s := MidRun(j, row, AtCommit(j, row));
            && Enabled(s, CommitJob(0))
            && Apply(s, CommitJob(0)).jobs == map[j := Job1(row, SUCCEEDED, Some(DONE), Some("orphaned"))]
            && Apply(s, CommitJob(0)).applied == [j] && Apply(s, CommitJob(0)).table == Inserted(row)
  {
    var none: Table := map[];
    assert none + Inserted(row) == Inserted(row);
  }

  /** After a clean-up in mid-job has committed FAILED as orphaned, the worker commits the batch
      and SUCCEEDED over it. */
  lemma CleanUpInMidJobIsOverwritten(j: string, row: Row) returns (ss: seq<State>, steps: seq<Step>)
    requires row.SpotRow?
    ensures Run(ss, steps) && |steps| == 8 && j in ss[5].jobs && j in ss[8].jobs
    ensures ss[5].jobs[j].status == FAILED && ss[8].jobs[j].status == SUCCEEDED
    ensures ss[5].jobs[j].error == ss[8].jobs[j].error == Some("orphaned")
    ensures ss[8].applied == [j] && ss[8].table == Inserted(row)
  {
    ss, steps := UpToCleanUp(j, row);
    WritesOn(j, row);
    ss, steps := Continue(ss, steps, WriteRow(0), Apply(ss[5], WriteRow(0)));
    EndsOn(j, row);
    ss, steps := Continue(ss, steps, EndBatch(0), Apply(ss[6], EndBatch(0)));
    CommitsOver(j, row);
    ss, steps := Continue(ss, steps, CommitJob(0), Apply(ss[7], CommitJob(0)));
  }
}
