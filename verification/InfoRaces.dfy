/** Two batches of business infos that overlap, and commit a row neither order of them gives
    (vivacapi/workers/spot_business_info_bulk.py:41-53). */
module InfoRaces {
  import opened Wrappers
  import opened Batch
  import opened JobRows
  import opened BulkTables
  import opened JobQueue
  import opened JobRuns
  import opened JobSerial

  /** Jobs `a` and `b` each upsert the info of spot `spot`, which was `before`. */
  datatype Case = Case(spot: SpotKey, a: string, b: string, before: Record, wantedA: Record, wantedB: Record)

  predicate Fits(c: Case) {
    && c.spot.Keyed? && c.a != c.b
    && Differing(c.wantedA, c.before) != map[] && Differing(c.wantedB, c.before) != map[]
  }

  function Tables(c: Case, info: Record): Table {
    map[SpotAt(c.spot) := map[], InfoOf(c.spot) := info]
  }

  function RowFor(c: Case, wanted: Record): Row
    requires Fits(c)
  {
    InfoRow(c.spot.externalId, wanted)
  }

  function BatchFor(c: Case, wanted: Record): Payload
    requires Fits(c)
  {
    Bulk(RowFor(c, wanted), [], false)
  }

  function IdsFor(c: Case): Ids
    requires Fits(c)
  {
    map[c.spot.externalId := c.spot]
  }

  lemma Resolves(c: Case, info: Record, wanted: Record)
    requires Fits(c)
    ensures Resolve(Tables(c, info), RowsOf(BatchFor(c, wanted))) == IdsFor(c)
  {
    var t, rows, e := Tables(c, info), RowsOf(BatchFor(c, wanted)), c.spot.externalId;
    assert OwnedBy(t, e, c.spot);
    assert rows[0].InfoRow? && rows[0].externalId == e;
    assert ExternalIds(rows) == {e};
    assert OwnerOf(t, e) == c.spot;
  }

  lemma DifferingCompletes(wanted: Record, before: Record)
    ensures before + Differing(wanted, before) == before + wanted
  {
  }

  // ---------------------------------------------------------------- the race

  function JobOn(c: Case, wanted: Record, status: Status, result: Option<Report>): JobRow<Payload>
    requires Fits(c)
  {
    JobRow(0, BatchFor(c, wanted), status, result, None)
  }

  const DONE := Report(1, 0, false, [])

  function AfterA(c: Case): Record {
    c.before + c.wantedA
  }

  function AfterBoth(c: Case): Record {
    AfterA(c) + Differing(c.wantedB, c.before)
  }

  function Once(c: Case): map<string, nat> {
    map[c.a := 1, c.b := 1]
  }

  /** Both jobs run; `a` is on worker 0 and `b` on worker 1. */
  function Both(c: Case, wa: Worker, wb: Worker): State
    requires Fits(c)
  {
    State(
      map[c.a := JobOn(c, c.wantedA, RUNNING, None), c.b := JobOn(c, c.wantedB, RUNNING, None)],
      Tables(c, c.before), map[0 := wa, 1 := wb], Once(c), Once(c), {}, [], map[])
  }

  function NoteFor(c: Case): Note
    requires Fits(c)
  {
    Note(IdsFor(c), [Some(c.before)])
  }

  /** `a` has committed what it wanted; `b` goes on. */
  function OnlyB(c: Case, wb: Worker): State
    requires Fits(c)
  {
    State(
      map[c.a := JobOn(c, c.wantedA, SUCCEEDED, Some(DONE)), c.b := JobOn(c, c.wantedB, RUNNING, None)],
      Tables(c, AfterA(c)), map[1 := wb], Once(c), Once(c), {c.a}, [c.a], map[c.a := NoteFor(c)])
  }

  /** Both have committed. */
  function Neither(c: Case): State
    requires Fits(c)
  {
    State(
      map[c.a := JobOn(c, c.wantedA, SUCCEEDED, Some(DONE)), c.b := JobOn(c, c.wantedB, SUCCEEDED, Some(DONE))],
      Tables(c, AfterBoth(c)), map[], Once(c), Once(c), {c.a, c.b}, [c.a, c.b],
      map[c.a := NoteFor(c), c.b := NoteFor(c)])
  }

  function Begun(c: Case, j: string): Worker
    requires Fits(c)
  {
    Running(j, 0, map[], [], IdsFor(c), [])
  }

  /** The worker has read its row while the table was as before. */
  function HasRead(c: Case, j: string): Worker
    requires Fits(c)
  {
    Running(j, 0, map[], [], IdsFor(c), [Some(c.before)])
  }

  function HasWritten(c: Case, j: string, info: Record): Worker
    requires Fits(c)
  {
    Running(j, 1, map[InfoOf(c.spot) := info], [], IdsFor(c), [Some(c.before)])
  }

  function HasEnded(c: Case, j: string, info: Record): Worker
    requires Fits(c)
  {
    Finishing(j, map[InfoOf(c.spot) := info], true, Success(Some(DONE)), IdsFor(c), [Some(c.before)])
  }

  /** A worker with one info row, on any table that has the info. */
  lemma ReadsRow(c: Case, s: State, w: nat, j: string, wanted: Record)
    requires Fits(c) && w in s.workers && s.workers[w] == Begun(c, j)
    requires j in s.jobs && s.jobs[j].payload == BatchFor(c, wanted)
    requires Lookup(s.table, InfoOf(c.spot)) == Some(c.before)
    ensures Enabled(s, ReadInfo(w)) && Apply(s, ReadInfo(w)) == Move(s, w, HasRead(c, j))
  {
    assert s.table + map[] == s.table;
    assert RowsFor(s, w)[0] == RowFor(c, wanted);
    var views: seq<Option<Record>> := [];
    assert views + [Some(c.before)] == [Some(c.before)];
    assert Running(j, 0, map[], [], IdsFor(c), views + [Some(c.before)]) == HasRead(c, j);
  }

  lemma WritesRow(c: Case, s: State, w: nat, j: string, wanted: Record, now: Record)
    requires Fits(c) && w in s.workers && s.workers[w] == HasRead(c, j) && Differing(wanted, c.before) != map[]
    requires j in s.jobs && s.jobs[j].payload == BatchFor(c, wanted) && Lookup(s.table, InfoOf(c.spot)) == Some(now)
    requires Unlocked(s, w, InfoOf(c.spot))
    ensures Enabled(s, WriteRow(w))
    ensures Apply(s, WriteRow(w)) == Move(s, w, HasWritten(c, j, now + Differing(wanted, c.before)))
  {
    var row, after := RowFor(c, wanted), now + Differing(wanted, c.before);
    assert s.table + map[] == s.table;
    assert Execute(s.table, map[], row, IdsFor(c), Some(c.before)) == Some(map[InfoOf(c.spot) := after]);
    assert Executed(s, w) == HasWritten(c, j, after);
  }

  lemma EndsBatch(c: Case, s: State, w: nat, j: string, wanted: Record, info: Record)
    requires Fits(c) && w in s.workers && s.workers[w] == HasWritten(c, j, info)
    requires j in s.jobs && s.jobs[j].payload == BatchFor(c, wanted)
    ensures Enabled(s, EndBatch(w)) && Apply(s, EndBatch(w)) == Move(s, w, HasEnded(c, j, info))
  {
  }

  lemma TwoWorkers(wa: Worker, wb: Worker, to: Worker)
    ensures (map[0 := wa, 1 := wb])[0 := to] == map[0 := to, 1 := wb]
    ensures (map[0 := wa, 1 := wb])[1 := to] == map[0 := wa, 1 := to]
    ensures (map[1 := wb])[1 := to] == map[1 := to]
  {
  }

  lemma Moves(c: Case, wa: Worker, wb: Worker, to: Worker)
    requires Fits(c)
    ensures Move(Both(c, wa, wb), 0, to) == Both(c, to, wb)
    ensures Move(Both(c, wa, wb), 1, to) == Both(c, wa, to)
    ensures Move(OnlyB(c, wb), 1, to) == OnlyB(c, to)
  {
    TwoWorkers(wa, wb, to);
  }

  lemma ACommits(c: Case)
    requires Fits(c)
    ensures var s := Both(c, HasEnded(c, c.a, AfterA(c)), HasRead(c, c.b));
            Enabled(s, CommitJob(0)) && Apply(s, CommitJob(0)) == OnlyB(c, HasRead(c, c.b))
  {
    var s, s' := Both(c, HasEnded(c, c.a, AfterA(c)), HasRead(c, c.b)), OnlyB(c, HasRead(c, c.b));
    CommitsTable(c, c.before, AfterA(c));
    TwoJobs(c.a, c.b, s.jobs[c.a], s.jobs[c.b], s'.jobs[c.a]);
    OneLeaves(s.workers[0], s.workers[1]);
    assert Committed(s, 0) == s';
  }

  lemma TwoJobs(a: string, b: string, ja: JobRow<Payload>, jb: JobRow<Payload>, to: JobRow<Payload>)
    requires a != b
    ensures (map[a := ja, b := jb])[a := to] == map[a := to, b := jb]
    ensures (map[a := ja, b := jb])[b := to] == map[a := ja, b := to]
  {
  }

  lemma OneLeaves(wa: Worker, wb: Worker)
    ensures map[0 := wa, 1 := wb] - {0} == map[1 := wb]
    ensures map[1 := wb] - {1} == map[]
  {
  }

  lemma CommitsTable(c: Case, before: Record, after: Record)
    ensures Tables(c, before) + map[InfoOf(c.spot) := after] == Tables(c, after)
  {
  }

  lemma BCommits(c: Case)
    requires Fits(c)
    ensures var s := OnlyB(c, HasEnded(c, c.b, AfterBoth(c)));
            Enabled(s, CommitJob(1)) && Apply(s, CommitJob(1)) == Neither(c)
  {
    var s, s' := OnlyB(c, HasEnded(c, c.b, AfterBoth(c))), Neither(c);
    CommitsTable(c, AfterA(c), AfterBoth(c));
    TwoJobs(c.a, c.b, s.jobs[c.a], s.jobs[c.b], s'.jobs[c.b]);
    OneLeaves(s.workers[1], s.workers[1]);
    assert Committed(s, 1) == s';
  }

  lemma UpToBoth(c: Case) returns (ss: seq<State>, steps: seq<Step>)
    requires Fits(c)
    ensures Run(ss, steps) && |steps| == 8 && ss[0].table == Tables(c, c.before)
    ensures ss[8] == Both(c, Begun(c, c.a), Begun(c, c.b))
  {
    var s0 := State(map[], Tables(c, c.before), map[], map[], map[], {}, [], map[]);
    Resolves(c, c.before, c.wantedA);
    Resolves(c, c.before, c.wantedB);
    ss, steps := TakeUp([s0], [], 0, c.a, BatchFor(c, c.wantedA));
    ss, steps := TakeUp(ss, steps, 1, c.b, BatchFor(c, c.wantedB));
  }

  lemma AReads(c: Case, ss: seq<State>, steps: seq<Step>) returns (ss': seq<State>, steps': seq<Step>)
    requires Fits(c) && Path(ss, steps) && ss[|steps|] == Both(c, Begun(c, c.a), Begun(c, c.b))
    ensures Path(ss', steps') && ss'[0] == ss[0] && ss'[|steps'|] == Both(c, HasRead(c, c.a), Begun(c, c.b))
  {
    ReadsRow(c, ss[|steps|], 0, c.a, c.wantedA);
    Moves(c, Begun(c, c.a), Begun(c, c.b), HasRead(c, c.a));
    ss', steps' := Continue(ss, steps, ReadInfo(0), Both(c, HasRead(c, c.a), Begun(c, c.b)));
  }

  lemma AWrites(c: Case, ss: seq<State>, steps: seq<Step>) returns (ss': seq<State>, steps': seq<Step>)
    requires Fits(c) && Path(ss, steps) && ss[|steps|] == Both(c, HasRead(c, c.a), Begun(c, c.b))
    ensures Path(ss', steps') && ss'[0] == ss[0]
    ensures ss'[|steps'|] == Both(c, HasWritten(c, c.a, AfterA(c)), Begun(c, c.b))
  {
    DifferingCompletes(c.wantedA, c.before);
    WritesRow(c, ss[|steps|], 0, c.a, c.wantedA, c.before);
    Moves(c, HasRead(c, c.a), Begun(c, c.b), HasWritten(c, c.a, AfterA(c)));
    ss', steps' := Continue(ss, steps, WriteRow(0), Both(c, HasWritten(c, c.a, AfterA(c)), Begun(c, c.b)));
  }

  /** `b` reads past the lock of `a`. */
  lemma BReads(c: Case, ss: seq<State>, steps: seq<Step>) returns (ss': seq<State>, steps': seq<Step>)
    requires Fits(c) && Path(ss, steps) && ss[|steps|] == Both(c, HasWritten(c, c.a, AfterA(c)), Begun(c, c.b))
    ensures Path(ss', steps') && ss'[0] == ss[0]
    ensures ss'[|steps'|] == Both(c, HasWritten(c, c.a, AfterA(c)), HasRead(c, c.b))
  {
    var wa := HasWritten(c, c.a, AfterA(c));
    ReadsRow(c, ss[|steps|], 1, c.b, c.wantedB);
    Moves(c, wa, Begun(c, c.b), HasRead(c, c.b));
    ss', steps' := Continue(ss, steps, ReadInfo(1), Both(c, wa, HasRead(c, c.b)));
  }

  lemma AEnds(c: Case, ss: seq<State>, steps: seq<Step>) returns (ss': seq<State>, steps': seq<Step>)
    requires Fits(c) && Path(ss, steps) && ss[|steps|] == Both(c, HasWritten(c, c.a, AfterA(c)), HasRead(c, c.b))
    ensures Path(ss', steps') && ss'[0] == ss[0]
    ensures ss'[|steps'|] == Both(c, HasEnded(c, c.a, AfterA(c)), HasRead(c, c.b))
  {
    EndsBatch(c, ss[|steps|], 0, c.a, c.wantedA, AfterA(c));
    Moves(c, HasWritten(c, c.a, AfterA(c)), HasRead(c, c.b), HasEnded(c, c.a, AfterA(c)));
    ss', steps' := Continue(ss, steps, EndBatch(0), Both(c, HasEnded(c, c.a, AfterA(c)), HasRead(c, c.b)));
  }

  lemma ACommitsNext(c: Case, ss: seq<State>, steps: seq<Step>) returns (ss': seq<State>, steps': seq<Step>)
    requires Fits(c) && Path(ss, steps) && ss[|steps|] == Both(c, HasEnded(c, c.a, AfterA(c)), HasRead(c, c.b))
    ensures Path(ss', steps') && ss'[0] == ss[0] && ss'[|steps'|] == OnlyB(c, HasRead(c, c.b))
  {
    ACommits(c);
    ss', steps' := Continue(ss, steps, CommitJob(0), OnlyB(c, HasRead(c, c.b)));
  }

  lemma BWrites(c: Case, ss: seq<State>, steps: seq<Step>) returns (ss': seq<State>, steps': seq<Step>)
    requires Fits(c) && Path(ss, steps) && ss[|steps|] == OnlyB(c, HasRead(c, c.b))
    ensures Path(ss', steps') && ss'[0] == ss[0] && ss'[|steps'|] == OnlyB(c, HasWritten(c, c.b, AfterBoth(c)))
  {
    WritesRow(c, ss[|steps|], 1, c.b, c.wantedB, AfterA(c));
    Moves(c, HasRead(c, c.b), HasRead(c, c.b), HasWritten(c, c.b, AfterBoth(c)));
    ss', steps' := Continue(ss, steps, WriteRow(1), OnlyB(c, HasWritten(c, c.b, AfterBoth(c))));
  }

  lemma BCommitsToo(c: Case, ss: seq<State>, steps: seq<Step>) returns (ss': seq<State>, steps': seq<Step>)
    requires Fits(c) && Path(ss, steps) && ss[|steps|] == OnlyB(c, HasWritten(c, c.b, AfterBoth(c)))
    ensures Path(ss', steps') && ss'[0] == ss[0] && ss'[|steps'|] == Neither(c)
  {
    EndsBatch(c, ss[|steps|], 1, c.b, c.wantedB, AfterBoth(c));
    Moves(c, HasRead(c, c.b), HasWritten(c, c.b, AfterBoth(c)), HasEnded(c, c.b, AfterBoth(c)));
    ss', steps' := Continue(ss, steps, EndBatch(1), OnlyB(c, HasEnded(c, c.b, AfterBoth(c))));
    BCommits(c);
    ss', steps' := Continue(ss', steps', CommitJob(1), Neither(c));
  }

  lemma RaceRun(c: Case) returns (ss: seq<State>, steps: seq<Step>)
    requires Fits(c)
    ensures Run(ss, steps) && ss[0].table == Tables(c, c.before) && ss[|steps|] == Neither(c)
  {
    ss, steps := UpToBoth(c);
    ss, steps := AReads(c, ss, steps);
    ss, steps := AWrites(c, ss, steps);
    ss, steps := BReads(c, ss, steps);
    ss, steps := AEnds(c, ss, steps);
    ss, steps := ACommitsNext(c, ss, steps);
    ss, steps := BWrites(c, ss, steps);
    ss, steps := BCommitsToo(c, ss, steps);
  }

  // ---------------------------------------------------------------- against either order

  lemma InOneGo(c: Case, info: Record, wanted: Record)
    requires Fits(c)
    ensures ApplyBatch(Tables(c, info), RowsOf(BatchFor(c, wanted))) == Some(Tables(c, info + wanted))
  {
    var t, rows := Tables(c, info), RowsOf(BatchFor(c, wanted));
    Resolves(c, info, wanted);
    assert rows == [RowFor(c, wanted)] && rows[..0] == [];
    assert ApplyIds(t, rows[..0], IdsFor(c)) == Some(t);
    assert ApplyIds(t, rows, IdsFor(c)) == Write(t, rows[0], IdsFor(c));
    assert t[InfoOf(c.spot) := info + wanted] == Tables(c, info + wanted);
  }

  lemma InOrder(c: Case, jobs: Jobs, first: string, second: string, firstWants: Record, secondWants: Record)
    requires Fits(c) && first in jobs && second in jobs
    requires jobs[first].payload == BatchFor(c, firstWants) && jobs[second].payload == BatchFor(c, secondWants)
    ensures Serial(jobs, [first, second], Tables(c, c.before)) == Some(Tables(c, c.before + firstWants + secondWants))
  {
    InOneGo(c, c.before, firstWants);
    InOneGo(c, c.before + firstWants, secondWants);
    assert [first, second][..1] == [first] && [first][..0] == [];
    assert Serial(jobs, [first], Tables(c, c.before)) == Some(Tables(c, c.before + firstWants));
  }

  /** Two overlapping batches of one info: both jobs are reported to have succeeded with all
      their rows, and the info ends as `a` wanted it but for what `b` sent, which is what differs
      from what it was before `a`. */
  lemma OverlappingInfoBatches(c: Case) returns (ss: seq<State>, steps: seq<Step>)
    requires Fits(c)
    ensures Run(ss, steps) && ss[0].table == Tables(c, c.before)
    ensures var s := ss[|steps|];
            && s.applied == [c.a, c.b] && c.a in s.jobs && c.b in s.jobs
            && CleanlySucceeded(s.jobs[c.a]) && CleanlySucceeded(s.jobs[c.b])
            && s.table == Tables(c, c.before + c.wantedA + Differing(c.wantedB, c.before))
            && Serial(s.jobs, [c.a, c.b], ss[0].table) == Some(Tables(c, c.before + c.wantedA + c.wantedB))
            && Serial(s.jobs, [c.b, c.a], ss[0].table) == Some(Tables(c, c.before + c.wantedB + c.wantedA))
  {
    ss, steps := RaceRun(c);
    var jobs := Neither(c).jobs;
    InOrder(c, jobs, c.a, c.b, c.wantedA, c.wantedB);
    InOrder(c, jobs, c.b, c.a, c.wantedB, c.wantedA);
  }

  /** Of (x, z), `a` makes (y, p) and `b` makes (x, q). */
  function MixedCase(
    spot: SpotKey, col: string, col': string, x: string, y: string, z: string, p: string, q: string): Case {
    Case(spot, "A", "B", map[col := x, col' := z], map[col := y, col' := p], map[col := x, col' := q])
  }

  /** Then the info ends as (y, q), which neither order of the two batches gives. */
  lemma NeitherOrder(spot: SpotKey, col: string, col': string, x: string, y: string, z: string, p: string, q: string)
    returns (ss: seq<State>, steps: seq<Step>)
    requires spot.Keyed? && col != col' && x != y && z != p && z != q && p != q
    ensures Run(ss, steps)
    ensures var s := ss[|steps|];
            && s.applied == ["A", "B"] && "A" in s.jobs && "B" in s.jobs
            && CleanlySucceeded(s.jobs["A"]) && CleanlySucceeded(s.jobs["B"])
            && Cell(s.table, InfoOf(spot), col) == Some(y) && Cell(s.table, InfoOf(spot), col') == Some(q)
            && Serial(s.jobs, ["A", "B"], ss[0].table) != Some(s.table)
            && Serial(s.jobs, ["B", "A"], ss[0].table) != Some(s.table)
  {
    var c := MixedCase(spot, col, col', x, y, z, p, q);
    assert col' in Differing(c.wantedA, c.before) && col' in Differing(c.wantedB, c.before);
    ss, steps := OverlappingInfoBatches(c);
    MixedCells(c, col, col');
  }

  lemma MixedCells(c: Case, col: string, col': string)
    requires col in c.before && col' in c.before && col in c.wantedA && col' in c.wantedA && col in c.wantedB
    requires col' in c.wantedB
    requires c.wantedB[col] == c.before[col] && c.wantedB[col'] != c.before[col']
    ensures var mixed := Tables(c, c.before + c.wantedA + Differing(c.wantedB, c.before));
            && Cell(mixed, InfoOf(c.spot), col) == Some(c.wantedA[col])
            && Cell(mixed, InfoOf(c.spot), col') == Some(c.wantedB[col'])
    ensures Cell(Tables(c, c.before + c.wantedA + c.wantedB), InfoOf(c.spot), col) == Some(c.wantedB[col])
    ensures Cell(Tables(c, c.before + c.wantedB + c.wantedA), InfoOf(c.spot), col') == Some(c.wantedA[col'])
  {
  }
}
