/** Decay of stale trust tiers (vivacapi/crud/spot.py: decay_stale_trust_tiers): two UPDATEs
    in one transaction that share a WHERE clause, with last_verified_at as watermark. */
module TrustDecay {
  import opened Wrappers

  datatype Spot = Spot(
    published: bool,
    deleted: bool,
    tier: Option<int>,
    verifiedAt: Option<int>,
    holder: Option<string>
  )

  type Spots = map<string, Spot>

  /** Times count from any origin. `appNow` is read by the program to compute the cutoff,
      `dbNow` is the database's time for the transaction. */
  datatype Clock = Clock(appNow: int, dbNow: int)

  predicate Stale(spot: Spot, cutoff: int) {
    && spot.published && !spot.deleted && spot.tier.Some?
    && (spot.verifiedAt.None? || spot.verifiedAt.value < cutoff)
  }

  function Downgraded(spot: Spot, now: int): Spot {
    spot.(tier := if spot.tier.Some? then Some(spot.tier.value + 1) else None, verifiedAt := Some(now))
  }

  function Requeued(spot: Spot, now: int): Spot {
    spot.(holder := None, verifiedAt := Some(now))
  }

  /** The decay of one spot as promised: one step down, or back to the queue from the bottom,
      and in either case put off until the threshold has passed again. */
  function Decayed(spot: Spot, cutoff: int, now: int): Spot {
    if !Stale(spot, cutoff) then spot
    else if spot.tier.value < 3 then Downgraded(spot, now)
    else if spot.tier.value == 3 then Requeued(spot, now)
    else spot
  }

  predicate NeedsDowngrade(spot: Spot, cutoff: int) {
    Stale(spot, cutoff) && spot.tier.value < 3
  }

  predicate NeedsRequeue(spot: Spot, cutoff: int) {
    Stale(spot, cutoff) && spot.tier.value == 3
  }

  /** The first UPDATE, and then the second on what it left. */
  function AfterFirst(spot: Spot, cutoff: int, now: int): Spot {
    if NeedsDowngrade(spot, cutoff) then Downgraded(spot, now) else spot
  }

  function AfterBoth(spot: Spot, cutoff: int, now: int): Spot {
    var first := AfterFirst(spot, cutoff, now);
    if NeedsRequeue(first, cutoff) then Requeued(first, now) else first
  }

  /** The two statements do what is promised, and in particular never downgrade and requeue
      the same spot, on every table exactly when the database's time is not before the cutoff. */
  lemma TwoUpdatesDecayOnceIffClockIsPastCutoff(cutoff: int, now: int)
    ensures (forall spot :: AfterBoth(spot, cutoff, now) == Decayed(spot, cutoff, now)) <==> cutoff <= now
    ensures (forall spot :: NeedsDowngrade(spot, cutoff) ==> !NeedsRequeue(AfterFirst(spot, cutoff, now), cutoff))
      <==> cutoff <= now
  {
    if now < cutoff {
      var spot := Spot(true, false, Some(2), None, Some(""));
      assert AfterBoth(spot, cutoff, now) != Decayed(spot, cutoff, now);
      assert NeedsDowngrade(spot, cutoff) && NeedsRequeue(AfterFirst(spot, cutoff, now), cutoff);
    }
  }

  class SpotTable {
    var spots: Spots

    constructor (spots: Spots)
      ensures this.spots == spots
    {
      this.spots := spots;
    }

    /** One run. Returns the downgraded spots, whose pages are to be invalidated - they are
        exactly those whose public view changes - and the number of requeued ones. With the
        database's time past the cutoff, a published spot with a tier that was not verified since
        the cutoff, or never, goes one tier down, or from tier 3 back to the queue, and counts
        as verified now; no other spot changes. */
    method DecayStaleTrustTiers(threshold: int, clock: Clock) returns (downgraded: set<string>, requeued: nat)
      modifies this
      ensures spots == TwoUpdates(old(spots), threshold, clock)
      ensures downgraded == PubliclyChanged(old(spots), spots)
      ensures clock.appNow - threshold <= clock.dbNow ==>
        spots == Decay(old(spots), threshold, clock) && requeued == |AtBottom(old(spots), clock.appNow - threshold)|
      ensures clock.appNow - threshold <= clock.dbNow ==>
        requeued == |set u | u in old(spots) && old(spots)[u].tier == Some(3) && spots[u] != old(spots)[u]|
      ensures spots.Keys == old(spots).Keys
      ensures clock.appNow - threshold <= clock.dbNow ==>
        forall u :: u in old(spots) ==>
          var s, s' := old(spots)[u], spots[u];
          if s.published && !s.deleted && s.tier.Some? && s.tier.value <= 3
             && (s.verifiedAt.None? || s.verifiedAt.value < clock.appNow - threshold)
          then
            && s'.tier == Some(if s.tier.value < 3 then s.tier.value + 1 else 3)
            && s'.holder == (if s.tier.value < 3 then s.holder else None)
            && s'.verifiedAt == Some(clock.dbNow) && s'.published && !s'.deleted
            && (u in downgraded <==> s.tier.value < 3)
          else
            s' == s && u !in downgraded
    {
      var cutoff, now := clock.appNow - threshold, clock.dbNow;
      var before := spots;
      downgraded := set u | u in before && NeedsDowngrade(before[u], cutoff);
      var first := map u | u in before :: AfterFirst(before[u], cutoff, now);
      spots := first;
      var bottom := AtBottom(first, cutoff);
      requeued := |bottom|;
      spots := map u | u in first :: if u in bottom then Requeued(first[u], now) else first[u];
      BothStatements(before, threshold, clock, first, spots);
      OnePassIfPastCutoff(before, threshold, clock, first);
      if cutoff <= now {
        OneStepEach(before, threshold, clock, downgraded);
      }
    }
  }

  /** The stale spots of the lowest tier. */
  function AtBottom(spots: Spots, cutoff: int): set<string> {
    set u | u in spots && NeedsRequeue(spots[u], cutoff)
  }

  function PubliclyChanged(before: Spots, after: Spots): set<string> {
    set u | u in before && (u in after ==> PublicView(after[u]) != PublicView(before[u]))
  }

  /** The statements together, and what the public sees of them. */
  lemma BothStatements(before: Spots, threshold: int, clock: Clock, first: Spots, after: Spots)
    requires first == map u | u in before :: AfterFirst(before[u], clock.appNow - threshold, clock.dbNow)
    requires after == map u | u in first ::
      if u in AtBottom(first, clock.appNow - threshold) then Requeued(first[u], clock.dbNow) else first[u]
    ensures after == TwoUpdates(before, threshold, clock)
    ensures PubliclyChanged(before, after) == set u | u in before && NeedsDowngrade(before[u], clock.appNow - threshold)
  {
    forall u | u in before ensures after[u] == AfterBoth(before[u], clock.appNow - threshold, clock.dbNow) {
    }
  }

  lemma OnePassIfPastCutoff(before: Spots, threshold: int, clock: Clock, first: Spots)
    requires first == map u | u in before :: AfterFirst(before[u], clock.appNow - threshold, clock.dbNow)
    ensures clock.appNow - threshold <= clock.dbNow ==>
      && TwoUpdates(before, threshold, clock) == Decay(before, threshold, clock)
      && AtBottom(first, clock.appNow - threshold) == AtBottom(before, clock.appNow - threshold)
  {
    TwoUpdatesDecayOnceIffClockIsPastCutoff(clock.appNow - threshold, clock.dbNow);
  }

  /** The decay in the fields of each spot. */
  lemma OneStepEach(before: Spots, threshold: int, clock: Clock, downgraded: set<string>)
    requires clock.appNow - threshold <= clock.dbNow
    requires downgraded == set u | u in before && NeedsDowngrade(before[u], clock.appNow - threshold)
    ensures var after := Decay(before, threshold, clock);
            AtBottom(before, clock.appNow - threshold)
            == set u | u in before && before[u].tier == Some(3) && after[u] != before[u]
    ensures forall u :: u in before ==>
      var s, s' := before[u], Decay(before, threshold, clock)[u];
      if s.published && !s.deleted && s.tier.Some? && s.tier.value <= 3
         && (s.verifiedAt.None? || s.verifiedAt.value < clock.appNow - threshold)
      then
        && s'.tier == Some(if s.tier.value < 3 then s.tier.value + 1 else 3)
        && s'.holder == (if s.tier.value < 3 then s.holder else None)
        && s'.verifiedAt == Some(clock.dbNow) && s'.published && !s'.deleted
        && (u in downgraded <==> s.tier.value < 3)
      else
        s' == s && u !in downgraded
  {
  }

  function TwoUpdates(spots: Spots, threshold: int, clock: Clock): Spots {
    map u | u in spots :: AfterBoth(spots[u], clock.appNow - threshold, clock.dbNow)
  }

  function Decay(spots: Spots, threshold: int, clock: Clock): Spots {
    map u | u in spots :: Decayed(spots[u], clock.appNow - threshold, clock.dbNow)
  }

  /** What a public answer shows of a spot; the queue and the watermark are internal. */
  function PublicView(spot: Spot): (bool, bool, Option<int>) {
    (spot.published, spot.deleted, spot.tier)
  }

  // ---------------------------------------------------------------- runs

  /** `Edit` stands for everything else that changes a spot. */
  datatype Step = DecayRun(clock: Clock) | Edit(u: string, spot: Spot)

  predicate Touches(s: Spots, threshold: int, step: Step, u: string) {
    && step.DecayRun? && u in s
    && (NeedsDowngrade(s[u], step.clock.appNow - threshold) || NeedsRequeue(s[u], step.clock.appNow - threshold))
  }

  function Apply(s: Spots, threshold: int, step: Step): Spots {
    match step
    case DecayRun(clock) => TwoUpdates(s, threshold, clock)
    case Edit(u, spot) => s[u := spot]
  }

  /** The database's time for a run is not before the program's. Edits respect the check
      constraint on tiers and do not turn the watermark back. */
  predicate Fair(s: Spots, step: Step) {
    match step
    case DecayRun(clock) => clock.appNow <= clock.dbNow
    case Edit(u, spot) =>
      && (spot.tier.Some? ==> 1 <= spot.tier.value <= 3)
      && (u in s && s[u].verifiedAt.Some? ==> spot.verifiedAt.Some? && s[u].verifiedAt.value <= spot.verifiedAt.value)
  }

  ghost predicate Run(ss: seq<Spots>, steps: seq<Step>, threshold: int) {
    && |ss| == |steps| + 1
    && (forall u :: u in ss[0] && ss[0][u].tier.Some? ==> 1 <= ss[0][u].tier.value <= 3)
    && forall i :: 0 <= i < |steps| ==> Fair(ss[i], steps[i]) && ss[i + 1] == Apply(ss[i], threshold, steps[i])
  }

  /** The database's times at which spot `u` was touched in the first `n` steps, in order. */
  ghost function TouchTimes(ss: seq<Spots>, steps: seq<Step>, threshold: int, u: string, n: nat): seq<int>
    requires |ss| == |steps| + 1 && n <= |steps|
  {
    if n == 0 then []
    else
      TouchTimes(ss, steps, threshold, u, n - 1)
      + if Touches(ss[n - 1], threshold, steps[n - 1], u) then [steps[n - 1].clock.dbNow] else []
  }

  /** Each touch is more than the threshold after the one before, and the watermark remembers
      the last one. */
  ghost predicate Spaced(times: seq<int>, threshold: int) {
    forall i, j :: 0 <= i < j < |times| ==> times[j] - times[i] > threshold * (j - i)
  }

  ghost predicate Remembered(s: Spots, u: string, times: seq<int>) {
    times != [] ==> u in s && s[u].verifiedAt.Some? && times[|times| - 1] <= s[u].verifiedAt.value
  }

  lemma SpacedGrows(times: seq<int>, threshold: int, t: int)
    requires Spaced(times, threshold) && (times != [] ==> t - times[|times| - 1] > threshold)
    ensures Spaced(times + [t], threshold)
  {
    var n := |times|;
    forall i | 0 <= i < n ensures t - times[i] > threshold * (n - i) {
      if i < n - 1 {
        assert times[n - 1] - times[i] > threshold * (n - 1 - i);
      }
      Distribute(threshold, n - 1 - i);
    }
  }

  lemma Distribute(a: int, b: int)
    ensures a * (b + 1) == a * b + a
  {
  }

  lemma StepRemembers(s: Spots, threshold: int, step: Step, u: string, times: seq<int>)
    requires Fair(s, step) && Remembered(s, u, times) && Spaced(times, threshold)
    ensures var times' := times + if Touches(s, threshold, step, u) then [step.clock.dbNow] else [];
            Remembered(Apply(s, threshold, step), u, times') && Spaced(times', threshold)
  {
    if Touches(s, threshold, step, u) {
      SpacedGrows(times, threshold, step.clock.dbNow);
    } else {
      assert times + [] == times;
    }
  }

  /** Touches of one spot are more than the threshold apart, over every run. */
  lemma {:induction false} TouchesAreSpaced(ss: seq<Spots>, steps: seq<Step>, threshold: int, u: string, n: nat)
    requires Run(ss, steps, threshold) && n <= |steps|
    ensures Spaced(TouchTimes(ss, steps, threshold, u, n), threshold)
    ensures Remembered(ss[n], u, TouchTimes(ss, steps, threshold, u, n))
  {
    if n > 0 {
      TouchesAreSpaced(ss, steps, threshold, u, n - 1);
      StepRemembers(ss[n - 1], threshold, steps[n - 1], u, TouchTimes(ss, steps, threshold, u, n - 1));
    }
  }

  /** So a span of length L sees at most L / threshold + 1 of them. */
  lemma FewTouchesInASpan(
    ss: seq<Spots>, steps: seq<Step>, threshold: int, u: string, n: nat,
    first: nat, count: nat, start: int, length: nat)
    requires Run(ss, steps, threshold) && n <= |steps| && threshold > 0
    requires first + count <= |TouchTimes(ss, steps, threshold, u, n)|
    requires forall i :: first <= i < first + count ==>
      start <= TouchTimes(ss, steps, threshold, u, n)[i] <= start + length
    ensures count <= length / threshold + 1
  {
    TouchesAreSpaced(ss, steps, threshold, u, n);
    var times := TouchTimes(ss, steps, threshold, u, n);
    if count > 1 {
      SpacedSpan(times, threshold, first, first + count - 1, length);
      Quotient(threshold, count - 1, length);
    }
  }

  lemma SpacedSpan(times: seq<int>, threshold: int, i: nat, j: nat, length: nat)
    requires Spaced(times, threshold) && i < j < |times| && times[j] - times[i] <= length
    ensures threshold * (j - i) <= length
  {
  }

  lemma Quotient(d: int, k: nat, n: nat)
    requires d > 0 && d * k <= n
    ensures k <= n / d
  {
    var q := n / d;
    Distribute(d, q);
    if q < k {
      Monotone(d, q + 1, k);
    }
  }

  lemma Monotone(d: int, a: int, b: int)
    requires d > 0 && a <= b
    ensures d * a <= d * b
  {
    assert d * (b - a) == d * b - d * a;
  }

  function Min(a: int, b: int): int {
    if a < b then a else b
  }

  ghost predicate OnlyDecays(steps: seq<Step>, u: string) {
    forall i :: 0 <= i < |steps| && steps[i].Edit? ==> steps[i].u != u
  }

  /** With no other edit of a spot its tier is the old one plus the number of touches, and
      never beyond 3. */
  lemma {:induction false} TierCountsTouches(ss: seq<Spots>, steps: seq<Step>, threshold: int, u: string, n: nat)
    requires Run(ss, steps, threshold) && n <= |steps| && OnlyDecays(steps, u)
    requires u in ss[0] && ss[0][u].tier.Some?
    ensures u in ss[n] && ss[n][u].tier == Some(Min(3, ss[0][u].tier.value + |TouchTimes(ss, steps, threshold, u, n)|))
  {
    if n > 0 {
      TierCountsTouches(ss, steps, threshold, u, n - 1);
      assert ss[n] == Apply(ss[n - 1], threshold, steps[n - 1]);
    }
  }
}
