/** From which states on cached answers are fresh (vivacapi/core/cache.py,
    vivacapi/workers/spots_bulk.py:75-78): exactly when nothing old can still be served under
    the current version. */
module CacheFreshness {
  import opened Wrappers
  import opened RedisKeys
  import opened RedisStore
  import opened CacheProtocol

  predicate Saw(answer: Answer, c: nat) {
    forall i :: 0 <= i < |answer| ==> c <= answer[i].snapshot
  }

  function Version(s: State, t: Target): nat {
    |BumpLog(s, t)|
  }

  predicate LiveEntrySaw(s: State, res: Resource, v: nat, c: nat) {
    Lookup(s.store, s.now, EntryKey(res, v)).Some? ==> Saw(Lookup(s.store, s.now, EntryKey(res, v)).value, c)
  }

  predicate ReadingSaw(reader: Reader, c: nat) {
    reader.phase.Reading? ==> Saw(reader.phase.taken, c)
  }

  /** Every live entry of the target under its version `v` or a later one, and every reader that
      may still file one, rests on reads that saw commit `c`. */
  ghost predicate Settled(s: State, t: Target, v: nat, c: nat) {
    && (forall res, w :: TargetOf(res) == t && v <= w ==> LiveEntrySaw(s, res, w, c))
    && (forall r :: r in s.readers && TargetOf(s.readers[r].res) == t && v <= s.readers[r].version ==>
          ReadingSaw(s.readers[r], c))
  }

  /** The same, of the current version only: what can be checked in the state at hand. */
  ghost predicate SettledNow(s: State, t: Target, c: nat) {
    && (forall res :: TargetOf(res) == t ==> LiveEntrySaw(s, res, Version(s, t), c))
    && (forall r :: r in s.readers && TargetOf(s.readers[r].res) == t && s.readers[r].version == Version(s, t) ==>
          ReadingSaw(s.readers[r], c))
  }

  lemma NothingUnderLaterVersions(s: State, t: Target, c: nat)
    requires Inv(s)
    ensures SettledNow(s, t, c) <==> Settled(s, t, Version(s, t), c)
  {
    forall res, w | TargetOf(res) == t && Version(s, t) < w ensures LiveEntrySaw(s, res, w, c) {
      assert EntryOk(s, res, w);
    }
    forall r | r in s.readers && TargetOf(s.readers[r].res) == t ensures s.readers[r].version <= Version(s, t) {
      assert ReaderOk(s, s.readers[r]);
    }
    if Settled(s, t, Version(s, t), c) {
      forall res | TargetOf(res) == t ensures LiveEntrySaw(s, res, Version(s, t), c) {
      }
    }
  }

  // ---------------------------------------------------------------- settled stays settled

  lemma WriteBackKeepsSettled(s: State, r: nat, t: Target, v: nat, c: nat)
    requires Enabled(s, WriteBack(r)) && Settled(s, t, v, c)
    ensures Settled(Apply(s, WriteBack(r)), t, v, c)
  {
    var s', reader := Apply(s, WriteBack(r)), s.readers[r];
    forall res, w | TargetOf(res) == t && v <= w ensures LiveEntrySaw(s', res, w, c) {
      assert LiveEntrySaw(s, res, w, c);
      if EntryKey(res, w) == KeyOf(reader) {
        EntryKeyInjective(res, w, reader.res, reader.version);
        assert ReadingSaw(reader, c);
      }
    }
  }

  lemma IncrementKeepsSettled(s: State, u: Target, commit: nat, t: Target, v: nat, c: nat)
    requires Settled(s, t, v, c)
    ensures Settled(Increment(s, u, commit), t, v, c)
  {
    forall res, w | TargetOf(res) == t && v <= w ensures LiveEntrySaw(Increment(s, u, commit), res, w, c) {
      assert LiveEntrySaw(s, res, w, c);
      KeyRangesDisjoint(u, res, w, "", "");
    }
  }

  lemma TellKeepsSettled(s: State, w: nat, u: Target, t: Target, v: nat, c: nat)
    requires w in s.writers && Settled(s, t, v, c)
    ensures Settled(Tell(s, w, u), t, v, c)
  {
    forall res, x | TargetOf(res) == t && v <= x ensures LiveEntrySaw(Tell(s, w, u), res, x, c) {
      assert LiveEntrySaw(s, res, x, c);
    }
  }

  lemma QuietStepKeepsSettled(s: State, step: Step, t: Target, v: nat, c: nat)
    requires Enabled(s, step) && Reliable(step) && !step.WriteBack? && !step.Bump? && !step.EarlyBump?
    requires Settled(s, t, v, c) && c <= s.commits
    ensures Settled(Apply(s, step), t, v, c)
  {
    var s' := Apply(s, step);
    forall res, w | TargetOf(res) == t && v <= w ensures LiveEntrySaw(s', res, w, c) {
      assert LiveEntrySaw(s, res, w, c);
    }
  }

  lemma StepKeepsSettled(s: State, step: Step, t: Target, v: nat, c: nat)
    requires Enabled(s, step) && Reliable(step) && Settled(s, t, v, c) && c <= s.commits
    ensures Settled(Apply(s, step), t, v, c) && c <= Apply(s, step).commits
  {
    match step
    case WriteBack(r) => WriteBackKeepsSettled(s, r, t, v, c);
    case Bump(w, u) =>
      IncrementKeepsSettled(s, u, s.writers[w].commit, t, v, c);
      TellKeepsSettled(Increment(s, u, s.writers[w].commit), w, u, t, v, c);
    case EarlyBump(u) => IncrementKeepsSettled(s, u, 0, t, v, c);
    case _ => QuietStepKeepsSettled(s, step, t, v, c);
  }

  // ---------------------------------------------------------------- requests that start later

  /** A request under version `v` or a later one has only been given reads that saw `c`. */
  predicate AnsweredFresh(reader: Reader, t: Target, v: nat, c: nat) {
    && TargetOf(reader.res) == t && v <= reader.version
    && Saw(ReadsOf(reader.phase), c)
  }

  lemma StepKeepsAnswerFresh(s: State, step: Step, t: Target, v: nat, c: nat, r: nat)
    requires Enabled(s, step) && Reliable(step) && Settled(s, t, v, c) && c <= s.commits
    requires r in s.readers && AnsweredFresh(s.readers[r], t, v, c)
    ensures r in Apply(s, step).readers && AnsweredFresh(Apply(s, step).readers[r], t, v, c)
  {
    if step.Hit? && step.r == r {
      assert LiveEntrySaw(s, s.readers[r].res, s.readers[r].version, c);
    }
  }

  ghost predicate AllReliable(steps: seq<Step>) {
    forall i :: 0 <= i < |steps| ==> Reliable(steps[i])
  }

  lemma {:induction false} PathKeepsSettled(ss: seq<State>, steps: seq<Step>, t: Target, v: nat, c: nat, n: nat)
    requires Path(ss, steps) && AllReliable(steps) && n <= |steps|
    requires Inv(ss[0]) && Settled(ss[0], t, v, c) && c <= ss[0].commits && v <= Version(ss[0], t)
    ensures Inv(ss[n]) && Settled(ss[n], t, v, c) && c <= ss[n].commits && v <= Version(ss[n], t)
  {
    if n > 0 {
      PathKeepsSettled(ss, steps, t, v, c, n - 1);
      StepKeepsInv(ss[n - 1], steps[n - 1]);
      StepKeepsSettled(ss[n - 1], steps[n - 1], t, v, c);
      VersionsGrow(ss[n - 1], steps[n - 1], t);
    }
  }

  lemma VersionsGrow(s: State, step: Step, t: Target)
    requires Enabled(s, step)
    ensures Version(s, t) <= Version(Apply(s, step), t)
  {
  }

  lemma StartsUnderVersion(s: State, r: nat, res: Resource)
    requires Inv(s) && Enabled(s, Fetch(r, res))
    ensures Apply(s, Fetch(r, res)).readers[r] == Reader(res, Version(s, TargetOf(res)), Keyed)
  {
    assert CounterOk(s, TargetOf(res));
  }

  lemma {:induction false} LaterRequestIsFresh(
    ss: seq<State>, steps: seq<Step>, t: Target, v: nat, c: nat, j: nat, m: nat)
    requires Path(ss, steps) && AllReliable(steps) && j < m <= |steps|
    requires Inv(ss[0]) && Settled(ss[0], t, v, c) && c <= ss[0].commits && v <= Version(ss[0], t)
    requires steps[j].Fetch? && TargetOf(steps[j].res) == t
    ensures steps[j].r in ss[m].readers && AnsweredFresh(ss[m].readers[steps[j].r], t, v, c)
    decreases m
  {
    if m == j + 1 {
      PathKeepsSettled(ss, steps, t, v, c, j);
      StartsFresh(ss[j], steps[j], t, v, c);
    } else {
      LaterRequestIsFresh(ss, steps, t, v, c, j, m - 1);
      StaysFresh(ss, steps, t, v, c, m - 1, steps[j].r);
    }
  }

  lemma StaysFresh(ss: seq<State>, steps: seq<Step>, t: Target, v: nat, c: nat, m: nat, r: nat)
    requires Path(ss, steps) && AllReliable(steps) && m < |steps|
    requires Inv(ss[0]) && Settled(ss[0], t, v, c) && c <= ss[0].commits && v <= Version(ss[0], t)
    requires r in ss[m].readers && AnsweredFresh(ss[m].readers[r], t, v, c)
    ensures r in ss[m + 1].readers && AnsweredFresh(ss[m + 1].readers[r], t, v, c)
  {
    PathKeepsSettled(ss, steps, t, v, c, m);
    StepKeepsAnswerFresh(ss[m], steps[m], t, v, c, r);
  }

  lemma StartsFresh(s: State, step: Step, t: Target, v: nat, c: nat)
    requires Inv(s) && Enabled(s, step) && step.Fetch? && TargetOf(step.res) == t && v <= Version(s, t)
    ensures step.r in Apply(s, step).readers && AnsweredFresh(Apply(s, step).readers[step.r], t, v, c)
  {
    StartsUnderVersion(s, step.r, step.res);
  }

  // ---------------------------------------------------------------- exactly when

  /** In every continuation with Redis up and no key lost, requests of the target that start
      after `s` are answered only from reads that saw `c`. */
  ghost predicate FreshFrom(s: State, t: Target, c: nat) {
    forall ss: seq<State>, steps: seq<Step>, j: nat, m: nat :: Path(ss, steps) && ss[0] == s && AllReliable(steps) ==>
      RequestSaw(ss, steps, t, c, j, m)
  }

  predicate RequestSaw(ss: seq<State>, steps: seq<Step>, t: Target, c: nat, j: nat, m: nat) {
    |ss| == |steps| + 1 && j < m <= |steps| && steps[j].Fetch? && TargetOf(steps[j].res) == t
    && steps[j].r in ss[m].readers && ss[m].readers[steps[j].r].phase.Served? ==>
      Saw(ss[m].readers[steps[j].r].phase.answer, c)
  }

  lemma SettledIsFresh(s: State, t: Target, c: nat)
    requires Inv(s) && c <= s.commits && SettledNow(s, t, c)
    ensures FreshFrom(s, t, c)
  {
    NothingUnderLaterVersions(s, t, c);
    forall ss: seq<State>, steps: seq<Step>, j: nat, m: nat | Path(ss, steps) && ss[0] == s && AllReliable(steps)
      ensures RequestSaw(ss, steps, t, c, j, m)
    {
      if j < m <= |steps| && steps[j].Fetch? && TargetOf(steps[j].res) == t {
        LaterRequestIsFresh(ss, steps, t, Version(s, t), c, j, m);
      }
    }
  }

  lemma {:induction false} FreeReader(ids: set<nat>) returns (r: nat)
    ensures forall i :: i in ids ==> i < r
  {
    if ids == {} {
      r := 0;
    } else {
      var x :| x in ids;
      var above := FreeReader(ids - {x});
      r := if x < above then above else x + 1;
      assert forall i :: i in ids ==> i == x || i in ids - {x};
    }
  }

  /** A live old entry is served to the next request. */
  lemma OldEntryIsServed(s: State, res: Resource, c: nat) returns (ss: seq<State>, steps: seq<Step>)
    requires Inv(s) && !LiveEntrySaw(s, res, Version(s, TargetOf(res)), c)
    ensures Path(ss, steps) && ss[0] == s && AllReliable(steps) && |steps| == 2
    ensures !RequestSaw(ss, steps, TargetOf(res), c, 0, 2)
  {
    var r := FreeReader(s.readers.Keys);
    StartsUnderVersion(s, r, res);
    var s1 := Apply(s, Fetch(r, res));
    assert Enabled(s1, Hit(r));
    ss, steps := [s, s1, Apply(s1, Hit(r))], [Fetch(r, res), Hit(r)];
  }

  /** An old reader under the current version files its reads first. */
  lemma OldReaderIsServed(s: State, q: nat, c: nat) returns (ss: seq<State>, steps: seq<Step>)
    requires Inv(s) && q in s.readers && !ReadingSaw(s.readers[q], c)
    requires s.readers[q].version == Version(s, TargetOf(s.readers[q].res))
    ensures Path(ss, steps) && ss[0] == s && AllReliable(steps) && |steps| == 3
    ensures !RequestSaw(ss, steps, TargetOf(s.readers[q].res), c, 1, 3)
  {
    var res, v := s.readers[q].res, s.readers[q].version;
    var s1 := Apply(s, WriteBack(q));
    StepKeepsInv(s, WriteBack(q));
    assert Lookup(s1.store, s1.now, EntryKey(res, v)) == Some(s.readers[q].phase.taken);
    assert Version(s1, TargetOf(res)) == v;
    var rest, moves := OldEntryIsServed(s1, res, c);
    ss, steps := [s] + rest, [WriteBack(q)] + moves;
    PathCons(s, WriteBack(q), rest, moves);
    assert ss[3] == rest[2] && steps[1] == moves[0];
  }

  lemma PathCons(s: State, step: Step, ss: seq<State>, steps: seq<Step>)
    requires Enabled(s, step) && Path(ss, steps) && ss[0] == Apply(s, step)
    ensures Path([s] + ss, [step] + steps)
  {
    var all, moves := [s] + ss, [step] + steps;
    forall i | 0 <= i < |moves| ensures Enabled(all[i], moves[i]) && all[i + 1] == Apply(all[i], moves[i]) {
      assert i > 0 ==> all[i] == ss[i - 1] && moves[i] == steps[i - 1] && all[i + 1] == ss[i];
    }
  }

  /** Freshness, exactly. From any state that keeps the invariant, with any writers around - those
      that bump after their commit, before it or never - requests that start later are answered
      only from reads that saw a commit already made, in every continuation, if and only if under
      the target's current version no live entry holds an older read and no reader is still
      reading with one. */
  lemma FreshIffSettledNow(s: State, t: Target, c: nat)
    requires Inv(s) && c <= s.commits
    ensures FreshFrom(s, t, c) <==> SettledNow(s, t, c)
  {
    if SettledNow(s, t, c) {
      SettledIsFresh(s, t, c);
    } else if !(forall res :: TargetOf(res) == t ==> LiveEntrySaw(s, res, Version(s, t), c)) {
      var res :| TargetOf(res) == t && !LiveEntrySaw(s, res, Version(s, t), c);
      var ss, steps := OldEntryIsServed(s, res, c);
      assert !RequestSaw(ss, steps, t, c, 0, 2);
    } else {
      var q :| q in s.readers && TargetOf(s.readers[q].res) == t && s.readers[q].version == Version(s, t)
               && !ReadingSaw(s.readers[q], c);
      var ss, steps := OldReaderIsServed(s, q, c);
      assert !RequestSaw(ss, steps, t, c, 1, 3);
    }
  }

  /** So a bump that follows a commit settles its target for that commit, whatever went before. */
  lemma BumpSettlesNow(s: State, w: nat, t: Target)
    requires Inv(s) && Enabled(s, Bump(w, t))
    ensures SettledNow(Apply(s, Bump(w, t)), t, s.writers[w].commit)
  {
    var s', c := Apply(s, Bump(w, t)), s.writers[w].commit;
    StepKeepsInv(s, Bump(w, t));
    var log := BumpLog(s', t);
    assert log[|log| - 1] == c;
    forall res | TargetOf(res) == t ensures LiveEntrySaw(s', res, |log|, c) {
      assert EntryOk(s', res, |log|);
    }
    forall r | r in s'.readers && TargetOf(s'.readers[r].res) == t ensures s'.readers[r].version < |log| {
      assert ReaderOk(s, s.readers[r]);
    }
  }
}
