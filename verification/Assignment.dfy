/** Handing enriched spots to staff (vivacapi/crud/spot.py: assign_spots,
    transfer_spot_assignments): concurrent transactions that pick rows with
    FOR UPDATE SKIP LOCKED, update them and commit. */
module Assignment {
  import opened Wrappers

  /** `holder` is the assigned staff member; None is the unassigned pool. */
  datatype Spot = Spot(enriched: bool, holder: Option<string>)

  type Spots = map<string, Spot>

  /** Both operations move enriched spots from one holder to a staff member. */
  datatype Request = Assign(to: string) | Transfer(from: string, to: string)

  function From(r: Request): Option<string> {
    if r.Assign? then None else Some(r.from)
  }

  /** The enriched spots of a holder. */
  function HeldBy(spots: Spots, holder: Option<string>): set<string> {
    set u | u in spots && spots[u] == Spot(true, holder)
  }

  function Load(spots: Spots, holder: Option<string>): nat {
    |HeldBy(spots, holder)|
  }

  /** UPDATE ... SET assigned_to_uid WHERE uid IN (...). */
  function Reassign(spots: Spots, uids: set<string>, to: string): Spots {
    map u | u in spots :: if u in uids then spots[u].(holder := Some(to)) else spots[u]
  }

  function Min(a: nat, b: nat): nat {
    if a < b then a else b
  }

  /** SELECT ... LIMIT count FOR UPDATE SKIP LOCKED: free rows of the holder, as many as asked
      for or as there are. */
  predicate Takes(spots: Spots, holder: Option<string>, count: nat, locked: set<string>, uids: set<string>) {
    && uids <= HeldBy(spots, holder) - locked
    && |uids| == Min(count, |HeldBy(spots, holder) - locked|)
  }

  // ---------------------------------------------------------------- one transaction alone

  class SpotTable {
    var spots: Spots

    constructor (spots: Spots)
      ensures this.spots == spots
    {
      this.spots := spots;
    }

    method Pick(holder: Option<string>, count: nat, locked: set<string>) returns (uids: set<string>)
      ensures Takes(spots, holder, count, locked, uids)
    {
      uids := {};
      var rest := HeldBy(spots, holder) - locked;
      ghost var free := rest;
      while |uids| < count && rest != {}
        invariant uids !! rest && uids + rest == free
        invariant |uids| <= count
        decreases |rest|
      {
        var u :| u in rest;
        uids, rest := uids + {u}, rest - {u};
      }
      assert |uids + rest| == |uids| + |rest|;
    }

    method AssignSpots(user: string, count: nat) returns (n: nat)
      modifies this
      ensures n == Min(count, Load(old(spots), None))
      ensures exists uids :: Moved(old(spots), spots, Assign(user), uids) && |uids| == n
    {
      var uids := Pick(None, count, {});
      MovedByReassign(spots, Assign(user), uids);
      assert HeldBy(spots, None) - {} == HeldBy(spots, None);
      if uids != {} {
        spots := Reassign(spots, uids, user);
      }
      n := |uids|;
    }

    method TransferSpotAssignments(from: string, to: string, count: nat) returns (n: nat)
      modifies this
      ensures n == Min(count, Load(old(spots), Some(from)))
      ensures exists uids :: Moved(old(spots), spots, Transfer(from, to), uids) && |uids| == n
    {
      var uids := Pick(Some(from), count, {});
      MovedByReassign(spots, Transfer(from, to), uids);
      assert HeldBy(spots, Some(from)) - {} == HeldBy(spots, Some(from));
      if uids != {} {
        spots := Reassign(spots, uids, to);
      }
      n := |uids|;
    }
  }

  /** The picked spots change hands and nothing else changes. */
  ghost predicate Moved(before: Spots, after: Spots, r: Request, uids: set<string>) {
    && uids <= HeldBy(before, From(r))
    && after.Keys == before.Keys
    && (forall u :: u in before && u !in uids ==> after[u] == before[u])
    && (forall u :: u in uids ==> after[u] == Spot(true, Some(r.to)))
  }

  lemma MovedByReassign(spots: Spots, r: Request, uids: set<string>)
    requires uids <= HeldBy(spots, From(r))
    ensures Moved(spots, Reassign(spots, uids, r.to), r, uids)
    ensures uids == {} ==> Moved(spots, spots, r, uids)
  {
    assert Reassign(spots, uids, r.to).Keys == spots.Keys;
  }

  /** What a holder gains and loses when `n` spots move. */
  function Gain(r: Request, n: nat, holder: Option<string>): int {
    (if Some(r.to) == holder then n else 0) - (if From(r) == holder then n else 0)
  }

  lemma MoveChangesLoads(before: Spots, after: Spots, r: Request, uids: set<string>, holder: Option<string>)
    requires Moved(before, after, r, uids)
    ensures Load(after, holder) == Load(before, holder) + Gain(r, |uids|, holder)
  {
    var was, now := HeldBy(before, holder), HeldBy(after, holder);
    if Some(r.to) == holder {
      assert now == was + uids;
      if From(r) == holder {
        assert was + uids == was;
      } else {
        assert was !! uids;
      }
    } else if From(r) == holder {
      assert now == was - uids;
    } else {
      assert now == was;
    }
  }

  // ---------------------------------------------------------------- all interleavings

  /** A transaction that has picked and locked `uids`. */
  datatype Tx = Tx(request: Request, count: nat, uids: set<string>, updated: bool)

  datatype Done = Done(request: Request, uids: set<string>)

  /** `done` logs the committed transactions in commit order. */
  datatype State = State(spots: Spots, txs: map<nat, Tx>, done: seq<Done>)

  datatype Step =
    | PickRows(t: nat, request: Request, count: nat, uids: set<string>)
    | Update(t: nat)
    | Commit(t: nat)
    | Abort(t: nat)

  predicate Free(s: State, u: string) {
    forall t :: t in s.txs ==> u !in s.txs[t].uids
  }

  /** A pick takes free rows: what `Pick` promises when nobody else is at work, and possibly
      fewer next to transactions that commit meanwhile. */
  predicate Enabled(s: State, step: Step) {
    match step
    case PickRows(t, request, count, uids) =>
      && t !in s.txs
      && uids <= HeldBy(s.spots, From(request))
      && (forall u :: u in uids ==> Free(s, u))
      && |uids| <= count
      && (s.txs == map[] ==> Takes(s.spots, From(request), count, {}, uids))
    case Update(t) => t in s.txs && !s.txs[t].updated
    case Commit(t) => t in s.txs && s.txs[t].updated
    case Abort(t) => t in s.txs
  }

  function Apply(s: State, step: Step): State
    requires Enabled(s, step)
  {
    match step
    case PickRows(t, request, count, uids) =>
      if uids == {} then s else s.(txs := s.txs[t := Tx(request, count, uids, false)])
    case Update(t) => s.(txs := s.txs[t := s.txs[t].(updated := true)])
    case Commit(t) =>
      var tx := s.txs[t];
      State(Reassign(s.spots, tx.uids, tx.request.to), s.txs - {t}, s.done + [Done(tx.request, tx.uids)])
    case Abort(t) => s.(txs := s.txs - {t})
  }

  ghost predicate Run(ss: seq<State>, steps: seq<Step>) {
    && |ss| == |steps| + 1
    && ss[0].txs == map[] && ss[0].done == []
    && forall i :: 0 <= i < |steps| ==> Enabled(ss[i], steps[i]) && ss[i + 1] == Apply(ss[i], steps[i])
  }

  /** The locks are disjoint, respect the requested counts, and keep the picked spots as they
      were picked until the commit. */
  ghost predicate Exclusive(s: State) {
    && (forall t :: t in s.txs ==>
          s.txs[t].uids <= HeldBy(s.spots, From(s.txs[t].request)) && 0 < |s.txs[t].uids| <= s.txs[t].count)
    && (forall t, v :: t in s.txs && v in s.txs && t != v ==> s.txs[t].uids !! s.txs[v].uids)
  }

  lemma StepKeepsExclusive(s: State, step: Step)
    requires Exclusive(s) && Enabled(s, step)
    ensures Exclusive(Apply(s, step))
    ensures step.Commit? ==>
      Moved(s.spots, Apply(s, step).spots, s.txs[step.t].request, s.txs[step.t].uids)
    ensures !step.Commit? ==> Apply(s, step).spots == s.spots && Apply(s, step).done == s.done
  {
    var s' := Apply(s, step);
    match step
    case PickRows(t, request, count, uids) =>
      if uids != {} {
        assert |uids| > 0;
      }
      assert forall v :: v in s.txs ==> s.txs[v].uids !! uids by {
        forall v, u | v in s.txs && u in uids ensures u !in s.txs[v].uids {
          assert Free(s, u);
        }
      }
    case Commit(t) =>
      MovedByReassign(s.spots, s.txs[t].request, s.txs[t].uids);
      forall v | v in s'.txs ensures s'.txs[v].uids <= HeldBy(s'.spots, From(s'.txs[v].request)) {
        assert s.txs[v].uids !! s.txs[t].uids;
      }
    case _ =>
  }

  /** In every interleaving no two transactions take the same spot, each takes at most the
      count it was asked for, and each still finds what it picked when it commits. */
  lemma {:induction false} RunsAreExclusive(ss: seq<State>, steps: seq<Step>, i: nat)
    requires Run(ss, steps) && i <= |steps|
    ensures Exclusive(ss[i])
  {
    if i > 0 {
      RunsAreExclusive(ss, steps, i - 1);
      StepKeepsExclusive(ss[i - 1], steps[i - 1]);
    }
  }

  /** What the committed transactions say a holder gained. */
  function Gained(done: seq<Done>, holder: Option<string>): int {
    if done == [] then 0
    else Gained(done[..|done| - 1], holder) + Gain(done[|done| - 1].request, |done[|done| - 1].uids|, holder)
  }

  /** Conservation: over any run, every staff member's load, and the size of the unassigned
      pool, change by exactly what was assigned and transferred in minus what was
      transferred or assigned away. */
  lemma {:induction false} LoadsAreConserved(ss: seq<State>, steps: seq<Step>, i: nat, holder: Option<string>)
    requires Run(ss, steps) && i <= |steps|
    ensures Load(ss[i].spots, holder) == Load(ss[0].spots, holder) + Gained(ss[i].done, holder)
  {
    if i > 0 {
      var s, step := ss[i - 1], steps[i - 1];
      LoadsAreConserved(ss, steps, i - 1, holder);
      RunsAreExclusive(ss, steps, i - 1);
      StepKeepsExclusive(s, step);
      if step.Commit? {
        MoveChangesLoads(s.spots, ss[i].spots, s.txs[step.t].request, s.txs[step.t].uids, holder);
        assert ss[i].done[..|ss[i].done| - 1] == s.done;
      }
    }
  }

  /** Spots that were ever assigned from the pool have left it for good. */
  ghost predicate AssignedOnce(s: State) {
    && (forall k, u :: 0 <= k < |s.done| && s.done[k].request.Assign? && u in s.done[k].uids ==>
          u !in HeldBy(s.spots, None))
    && (forall k, m :: 0 <= k < m < |s.done| && s.done[k].request.Assign? && s.done[m].request.Assign? ==>
          s.done[k].uids !! s.done[m].uids)
  }

  /** No spot is assigned twice over a whole run. */
  lemma {:induction false} EachSpotIsAssignedOnce(ss: seq<State>, steps: seq<Step>, i: nat)
    requires Run(ss, steps) && i <= |steps|
    ensures AssignedOnce(ss[i])
  {
    if i > 0 {
      EachSpotIsAssignedOnce(ss, steps, i - 1);
      RunsAreExclusive(ss, steps, i - 1);
      StepKeepsExclusive(ss[i - 1], steps[i - 1]);
      StepKeepsAssignedOnce(ss[i - 1], steps[i - 1]);
    }
  }

  lemma StepKeepsAssignedOnce(s: State, step: Step)
    requires Exclusive(s) && AssignedOnce(s) && Enabled(s, step)
    ensures AssignedOnce(Apply(s, step))
  {
    StepKeepsExclusive(s, step);
    if step.Commit? {
      var s', uids := Apply(s, step), s.txs[step.t].uids;
      assert forall u :: u in HeldBy(s'.spots, None) ==> u in HeldBy(s.spots, None) && u !in uids;
      assert forall k :: 0 <= k < |s.done| ==> s'.done[k] == s.done[k];
      assert s.txs[step.t].request.Assign? ==> uids <= HeldBy(s.spots, None);
    }
  }

  /** A transaction that finds nobody else at work takes what `Pick` promises: as many as
      it was asked for, or as there are. */
  lemma AloneTakesAll(ss: seq<State>, steps: seq<Step>, i: nat)
    requires Run(ss, steps) && i + 2 < |steps|
    requires ss[i].txs == map[] && steps[i].PickRows? && steps[i].uids != {}
    requires steps[i + 1] == Update(steps[i].t) && steps[i + 2] == Commit(steps[i].t)
    ensures var r, n := steps[i].request, Min(steps[i].count, Load(ss[i].spots, From(steps[i].request)));
            forall holder :: Load(ss[i + 3].spots, holder) == Load(ss[i].spots, holder) + Gain(r, n, holder)
  {
    assert ss[i + 1] == Apply(ss[i], steps[i]);
    assert ss[i + 2] == Apply(ss[i + 1], steps[i + 1]);
    assert ss[i + 3] == Apply(ss[i + 2], steps[i + 2]);
    RunsAreExclusive(ss, steps, i + 2);
    StepKeepsExclusive(ss[i + 2], steps[i + 2]);
    assert HeldBy(ss[i].spots, From(steps[i].request)) - {} == HeldBy(ss[i].spots, From(steps[i].request));
    forall holder ensures Load(ss[i + 3].spots, holder)
      == Load(ss[i].spots, holder) + Gain(steps[i].request, |steps[i].uids|, holder) {
      MoveChangesLoads(ss[i].spots, ss[i + 3].spots, steps[i].request, steps[i].uids, holder);
    }
  }
}
