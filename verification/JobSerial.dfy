/** Whether the committed tables are those of the applied batches, each applied in one go, in
    commit order: always for spots, and for business infos exactly while no commit overtakes
    what a batch has read (vivacapi/workers/spot_business_info_bulk.py:41-53). */
module JobSerial {
  import opened Wrappers
  import opened JobRows
  import opened BulkTables
  import opened BatchEffects
  import opened JobQueue

  /** The given jobs' batches applied one after the other, each in one go. */
  ghost function Serial(jobs: Jobs, order: seq<string>, t: Table): Option<Table> {
    var n := |order|;
    if n == 0 then Some(t)
    else
      var before, j := Serial(jobs, order[..n - 1], t), order[n - 1];
      if before.None? || j !in jobs then None else ApplyBatch(before.value, RowsOf(jobs[j].payload))
  }

  lemma {:induction false} SerialReadsPayloads(jobs: Jobs, jobs': Jobs, order: seq<string>, t: Table)
    requires forall j :: j in order ==> j in jobs && j in jobs' && jobs[j].payload == jobs'[j].payload
    ensures Serial(jobs, order, t) == Serial(jobs', order, t)
  {
    if order != [] {
      SerialReadsPayloads(jobs, jobs', order[..|order| - 1], t);
    }
  }

  ghost predicate IsSerial(s: State, initial: Table) {
    Serial(s.jobs, s.applied, initial) == Some(s.table)
  }

  /** What a commit needs: every external id of the batch still has one owner, and the columns
      it left out of its UPDATEs still hold what it read. */
  ghost predicate Undisturbed(s: State, step: Step)
    requires Enabled(s, step)
  {
    step.CommitJob? ==>
      var worker := s.workers[step.w];
      var rows := RowsOf(s.jobs[worker.job].payload);
      worker.released && |worker.views| == |rows| ==>
        StillOwned(s.table, rows) && StillHolds(s.table, rows, worker.ids, worker.views)
  }

  lemma QuietStepKeepsSerial(s: State, step: Step, initial: Table)
    requires Inv(s, initial) && Enabled(s, step) && !step.CommitJob?
    ensures IsSerial(Apply(s, step), initial) <==> IsSerial(s, initial)
  {
    var s' := Apply(s, step);
    PayloadsStay(s, step);
    OnlyCommitsWrite(s, step);
    SerialReadsPayloads(s.jobs, s'.jobs, s.applied, initial);
  }

  lemma SerialAppendsBatch(jobs: Jobs, order: seq<string>, j: string, initial: Table, t: Table)
    requires Serial(jobs, order, initial) == Some(t) && j in jobs
    ensures Serial(jobs, order + [j], initial) == ApplyBatch(t, RowsOf(jobs[j].payload))
  {
    assert (order + [j])[..|order|] == order;
  }

  /** From a serial state, a commit leads to a serial one exactly when it is undisturbed. */
  lemma CommitKeepsSerialIff(s: State, w: nat, initial: Table)
    requires Enabled(s, CommitJob(w)) && WorkerOk(s, s.workers[w]) && (forall j :: j in s.applied ==> j in s.jobs)
    requires IsSerial(s, initial)
    ensures IsSerial(Committed(s, w), initial) <==> Undisturbed(s, CommitJob(w))
  {
    var s', worker := Committed(s, w), s.workers[w];
    var rows := RowsOf(s.jobs[worker.job].payload);
    SerialReadsPayloads(s.jobs, s'.jobs, s.applied, initial);
    if worker.released {
      SerialAppendsBatch(s'.jobs, s.applied, worker.job, initial, s.table);
      CommitIsBatchIff(s.table, rows, worker.ids, worker.views, worker.overlay);
    } else {
      assert s'.table == s.table;
    }
  }

  lemma StepKeepsSerialIff(s: State, step: Step, initial: Table)
    requires Inv(s, initial) && Enabled(s, step) && IsSerial(s, initial)
    ensures IsSerial(Apply(s, step), initial) <==> Undisturbed(s, step)
  {
    if step.CommitJob? {
      assert WorkerOk(s, s.workers[step.w]);
      CommitKeepsSerialIff(s, step.w, initial);
    } else {
      QuietStepKeepsSerial(s, step, initial);
    }
  }

  ghost predicate SerialUpTo(ss: seq<State>, n: nat)
    requires n < |ss|
  {
    forall k :: 0 <= k <= n ==> IsSerial(ss[k], ss[0].table)
  }

  ghost predicate UndisturbedUpTo(ss: seq<State>, steps: seq<Step>, n: nat)
    requires Path(ss, steps) && n <= |steps|
  {
    forall k :: 0 <= k < n ==> Undisturbed(ss[k], steps[k])
  }

  /** Serializability, exactly: in every run the tables are, in all states up to one, those of
      the applied batches in commit order, each in one go, if and only if every commit up to
      there was undisturbed. */
  lemma {:induction false} SerialIffUndisturbed(ss: seq<State>, steps: seq<Step>, n: nat)
    requires Run(ss, steps) && n <= |steps|
    ensures SerialUpTo(ss, n) <==> UndisturbedUpTo(ss, steps, n)
  {
    if n > 0 {
      SerialIffUndisturbed(ss, steps, n - 1);
      if SerialUpTo(ss, n - 1) {
        RunKeepsInv(ss, steps, n - 1);
        StepKeepsSerialIff(ss[n - 1], steps[n - 1], ss[0].table);
      }
      OneMoreState(ss, steps, n);
    }
  }

  lemma OneMoreState(ss: seq<State>, steps: seq<Step>, n: nat)
    requires Path(ss, steps) && 0 < n <= |steps|
    ensures SerialUpTo(ss, n) <==> SerialUpTo(ss, n - 1) && IsSerial(ss[n], ss[0].table)
    ensures UndisturbedUpTo(ss, steps, n) <==> UndisturbedUpTo(ss, steps, n - 1) && Undisturbed(ss[n - 1], steps[n - 1])
  {
  }

  // ---------------------------------------------------------------- spots

  /** A table's spots. */
  function SpotsOf(t: Table): Table {
    map k | k in t && k.SpotAt? :: t[k]
  }

  /** The spot rows of a batch applied in one go. */
  function ApplySpots(t: Table, rows: seq<Row>): Option<Table> {
    var n := |rows|;
    if n == 0 then Some(t)
    else
      var before := ApplySpots(t, rows[..n - 1]);
      if before.None? || rows[n - 1].InfoRow? then before else WriteSeen(before.value, rows[n - 1], map[], None)
  }

  function SerialSpots(jobs: Jobs, order: seq<string>, t: Table): Option<Table> {
    var n := |order|;
    if n == 0 then Some(t)
    else
      var before, j := SerialSpots(jobs, order[..n - 1], t), order[n - 1];
      if before.None? || j !in jobs then None else ApplySpots(before.value, RowsOf(jobs[j].payload))
  }

  lemma WriteOnSpots(t: Table, row: Row, ids: Ids, view: Option<Record>)
    requires WriteSeen(t, row, ids, view).Some?
    ensures row.InfoRow? ==> SpotsOf(WriteSeen(t, row, ids, view).value) == SpotsOf(t)
    ensures row.SpotRow? ==>
      WriteSeen(SpotsOf(t), row, map[], None) == Some(SpotsOf(WriteSeen(t, row, ids, view).value))
  {
    if row.SpotRow? {
      var key := SpotAt(SpotKeyOf(row));
      assert Lookup(SpotsOf(t), key) == Lookup(t, key);
      var written := Upserted(row, Lookup(t, key)).value;
      assert SpotsOf(t[key := written]) == SpotsOf(t)[key := written];
    }
  }

  lemma {:induction false} SeenOnSpots(t: Table, rows: seq<Row>, ids: Ids, views: seq<Option<Record>>)
    requires |views| == |rows| && ApplySeen(t, rows, ids, views).Some?
    ensures ApplySpots(SpotsOf(t), rows) == Some(SpotsOf(ApplySeen(t, rows, ids, views).value))
    decreases |rows|
  {
    var n := |rows|;
    if n > 0 {
      SeenOnSpots(t, rows[..n - 1], ids, views[..n - 1]);
      var before := ApplySeen(t, rows[..n - 1], ids, views[..n - 1]).value;
      WriteOnSpots(before, rows[n - 1], ids, views[n - 1]);
    }
  }

  lemma {:induction false} SerialOnSpots(jobs: Jobs, notes: map<string, Note>, order: seq<string>, t: Table)
    requires SerialSeen(jobs, notes, order, t).Some?
    ensures SerialSpots(jobs, order, SpotsOf(t)) == Some(SpotsOf(SerialSeen(jobs, notes, order, t).value))
  {
    var n := |order|;
    if n > 0 {
      SerialOnSpots(jobs, notes, order[..n - 1], t);
      var before, j := SerialSeen(jobs, notes, order[..n - 1], t).value, order[n - 1];
      SeenOnSpots(before, RowsOf(jobs[j].payload), notes[j].ids, notes[j].views);
    }
  }

  /** Spots are serial in every run, whatever infos are written next to them: the committed
      spots are those of the applied batches one after the other, each in one go. */
  lemma SpotsAreSerial(ss: seq<State>, steps: seq<Step>, i: nat)
    requires Run(ss, steps) && i <= |steps|
    ensures SerialSpots(ss[i].jobs, ss[i].applied, SpotsOf(ss[0].table)) == Some(SpotsOf(ss[i].table))
  {
    RunKeepsInv(ss, steps, i);
    SerialOnSpots(ss[i].jobs, ss[i].notes, ss[i].applied, ss[0].table);
  }
}
