/** Building runs of the job queue step by step. */
module JobRuns {
  import opened Wrappers
  import opened JobRows
  import opened BulkTables
  import opened JobQueue

  lemma Continue(ss: seq<State>, steps: seq<Step>, step: Step, next: State) returns (ss': seq<State>, steps': seq<Step>)
    requires Path(ss, steps) && Enabled(ss[|steps|], step) && next == Apply(ss[|steps|], step)
    ensures Path(ss', steps') && ss' == ss + [next] && steps' == steps + [step]
  {
    ss', steps' := ss + [next], steps + [step];
  }

  // ---------------------------------------------------------------- taking up a job

  function Waiting(s: State, j: string, payload: Payload): State {
    s.(jobs := s.jobs[j := JobRow(0, payload, PENDING, None, None)])
  }

  function Taken(s: State, w: nat, j: string, payload: Payload): State {
    s.(jobs := s.jobs[j := JobRow(0, payload, RUNNING, None, None)],
       workers := s.workers[w := Claimed(j)], claims := Bump(s.claims, j))
  }

  ghost function AtStart(s: State, w: nat, j: string, payload: Payload): State {
    Taken(s, w, j, payload).(
    workers := s.workers[w := Running(j, 0, map[], [], Resolve(s.table, RowsOf(payload)), [])],
    runs := Bump(s.runs, j))
  }

  /** Nobody is on job `j`, and no other job waits. */
  predicate Idle(s: State, w: nat, j: string) {
    && w !in s.workers && j !in s.jobs
    && (forall k :: k in s.jobs ==> s.jobs[k].status != PENDING)
    && (forall v :: v in s.workers ==> s.workers[v].job != j)
  }

  lemma Picks(s: State, w: nat, j: string, payload: Payload)
    requires Idle(s, w, j)
    ensures Enabled(Waiting(s, j, payload), Pick(w, j))
  {
  }

  lemma Claims(s: State, w: nat, j: string, payload: Payload)
    ensures var picked := Move(Waiting(s, j, payload), w, Picked(j));
            Enabled(picked, CommitClaim(w)) && Apply(picked, CommitClaim(w)) == Taken(s, w, j, payload)
  {
  }

  lemma Starts(s: State, w: nat, j: string, payload: Payload)
    requires payload.Bulk?
    ensures Enabled(Taken(s, w, j, payload), Start(w))
    ensures Apply(Taken(s, w, j, payload), Start(w)) == AtStart(s, w, j, payload)
  {
  }

  /** A worker takes up a new job and starts it. */
  lemma TakeUp(ss: seq<State>, steps: seq<Step>, w: nat, j: string, payload: Payload)
    returns (ss': seq<State>, steps': seq<Step>)
    requires Path(ss, steps) && payload.Bulk? && Idle(ss[|steps|], w, j)
    ensures Path(ss', steps') && ss'[0] == ss[0] && |steps'| == |steps| + 4
    ensures ss'[|steps'|] == AtStart(ss[|steps|], w, j, payload)
  {
    var s := ss[|steps|];
    Picks(s, w, j, payload);
    Claims(s, w, j, payload);
    Starts(s, w, j, payload);
    ss', steps' := Continue(ss, steps, Enqueue(j, 0, payload), Waiting(s, j, payload));
    ss', steps' := Continue(ss', steps', Pick(w, j), Move(Waiting(s, j, payload), w, Picked(j)));
    ss', steps' := Continue(ss', steps', CommitClaim(w), Taken(s, w, j, payload));
    ss', steps' := Continue(ss', steps', Start(w), AtStart(s, w, j, payload));
  }
}
