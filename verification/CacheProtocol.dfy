/** The versioned read-through cache as a transition system: any number of readers
    (vivacapi/api/v1/endpoints/explore.py) and writers (the commit-then-bump functions of
    vivacapi/crud/spot.py and the bulk worker) interleave over one database and one Redis.

    The database is its number of commits: a read taken after `n` commits sees exactly the
    first `n` of them. An answer is the list of database reads it was rendered from. */
module CacheProtocol {
  import opened Wrappers
  import opened RedisKeys
  import opened RedisStore

  const SPOTS_LIST_CACHE_TTL_SECONDS: nat := 30
  const SPOT_DETAIL_CACHE_TTL_SECONDS: nat := 120

  function Ttl(res: Resource): nat {
    match res
    case Detail(_) => SPOT_DETAIL_CACHE_TTL_SECONDS
    case Listing(_) => SPOTS_LIST_CACHE_TTL_SECONDS
  }

  /** One database read: the number of commits it saw and when it was taken. */
  datatype Read = Read(snapshot: nat, at: nat)

  type Answer = seq<Read>

  /** Where a request is: it has its key and is about to look it up, it missed and is
      reading the database, it ended without an answer, or it answered. */
  datatype Phase = Keyed | Reading(taken: Answer) | GaveUp | Served(answer: Answer, hit: bool)

  /** `version` is captured once, before the lookup, and used again for the write-back. */
  datatype Reader = Reader(res: Resource, version: nat, phase: Phase)

  /** A writer that has committed as commit number `commit`; `pending` are the version
      counters in `targets` that it has still to bump. */
  datatype Writer = Writer(commit: nat, targets: set<Target>, pending: set<Target>)

  /** `bumps[t]` is a history variable: for each increment of `t`'s counter, the commit of
      the writer that made it (0 for an increment made before its writer's commit). */
  datatype State = State(
    store: Store<Answer>,
    now: nat,
    commits: nat,
    readers: map<nat, Reader>,
    writers: map<nat, Writer>,
    bumps: map<Target, seq<nat>>
  )

  datatype Step =
    // reader steps
    | Fetch(r: nat, res: Resource)
    | Hit(r: nat)
    | Miss(r: nat)
    | ReadDb(r: nat)
    | GiveUp(r: nat)
    | WriteBack(r: nat)
    // writer steps; EarlyBump is the bulk worker's bump before its commit, QuietCommit a
    // commit that is followed by no bump
    | Commit(w: nat, targets: set<Target>)
    | Bump(w: nat, target: Target)
    | EarlyBump(target: Target)
    | QuietCommit
    | Tick(d: nat)
    // Redis faults, which every client function swallows, and eviction
    | FetchFails(r: nat, res: Resource)
    | LookupFails(r: nat)
    | WriteBackLost(r: nat)
    | BumpLost(w: nat, target: Target)
    | Evict(key: string)

  /** Redis up and no key lost. */
  predicate Reliable(step: Step) {
    !step.FetchFails? && !step.LookupFails? && !step.WriteBackLost? && !step.BumpLost? && !step.Evict?
  }

  function BumpLog(s: State, t: Target): seq<nat> {
    if t in s.bumps then s.bumps[t] else []
  }

  function KeyOf(reader: Reader): string {
    EntryKey(reader.res, reader.version)
  }

  predicate At(s: State, r: nat) {
    r in s.readers
  }

  predicate Enabled(s: State, step: Step) {
    match step
    case Fetch(r, _) => !At(s, r)
    case FetchFails(r, _) => !At(s, r)
    case Hit(r) =>
      At(s, r) && s.readers[r].phase.Keyed? && Lookup(s.store, s.now, KeyOf(s.readers[r])).Some?
    case Miss(r) =>
      At(s, r) && s.readers[r].phase.Keyed? && Lookup(s.store, s.now, KeyOf(s.readers[r])).None?
    case LookupFails(r) => At(s, r) && s.readers[r].phase.Keyed?
    case ReadDb(r) => At(s, r) && s.readers[r].phase.Reading?
    case GiveUp(r) => At(s, r) && s.readers[r].phase.Reading?
    case WriteBack(r) => At(s, r) && s.readers[r].phase.Reading? && s.readers[r].phase.taken != []
    case WriteBackLost(r) => At(s, r) && s.readers[r].phase.Reading? && s.readers[r].phase.taken != []
    case Commit(w, _) => w !in s.writers
    case Bump(w, t) => w in s.writers && t in s.writers[w].pending
    case BumpLost(w, t) => w in s.writers && t in s.writers[w].pending
    case _ => true
  }

  function Move(s: State, r: nat, phase: Phase): State
    requires At(s, r)
  {
    s.(readers := s.readers[r := s.readers[r].(phase := phase)])
  }

  function Increment(s: State, t: Target, commit: nat): State {
    s.(store := Incr(s.store, s.now, VersionKey(t)), bumps := s.bumps[t := BumpLog(s, t) + [commit]])
  }

  function Tell(s: State, w: nat, t: Target): State
    requires w in s.writers
  {
    s.(writers := s.writers[w := s.writers[w].(pending := s.writers[w].pending - {t})])
  }

  function Apply(s: State, step: Step): State
    requires Enabled(s, step)
  {
    match step
    case Fetch(r, res) =>
      s.(readers := s.readers[r := Reader(res, CounterAt(s.store, s.now, VersionKey(TargetOf(res))), Keyed)])
    case FetchFails(r, res) => s.(readers := s.readers[r := Reader(res, 0, Keyed)])
    case Hit(r) => Move(s, r, Served(Lookup(s.store, s.now, KeyOf(s.readers[r])).value, true))
    case Miss(r) => Move(s, r, Reading([]))
    case LookupFails(r) => Move(s, r, Reading([]))
    case ReadDb(r) => Move(s, r, Reading(s.readers[r].phase.taken + [Read(s.commits, s.now)]))
    case GiveUp(r) => Move(s, r, GaveUp)
    case WriteBack(r) =>
      var reader := s.readers[r];
      Move(s, r, Served(reader.phase.taken, false))
        .(store := SetEx(s.store, s.now, KeyOf(reader), reader.phase.taken, Ttl(reader.res)))
    case WriteBackLost(r) => Move(s, r, Served(s.readers[r].phase.taken, false))
    case Commit(w, targets) =>
      s.(commits := s.commits + 1, writers := s.writers[w := Writer(s.commits + 1, targets, targets)])
    case Bump(w, t) => Tell(Increment(s, t, s.writers[w].commit), w, t)
    case BumpLost(w, t) => Tell(s, w, t)
    case EarlyBump(t) => Increment(s, t, 0)
    case QuietCommit => s.(commits := s.commits + 1)
    case Tick(d) => s.(now := s.now + d)
    case Evict(key) => s.(store := s.store - {key})
  }

  predicate Init(s: State) {
    s.store == map[] && s.readers == map[] && s.writers == map[] && s.bumps == map[]
  }

  ghost predicate Path(ss: seq<State>, steps: seq<Step>) {
    && |ss| == |steps| + 1
    && forall i :: 0 <= i < |steps| ==> Enabled(ss[i], steps[i]) && ss[i + 1] == Apply(ss[i], steps[i])
  }

  ghost predicate Run(ss: seq<State>, steps: seq<Step>) {
    Path(ss, steps) && Init(ss[0])
  }

  // ---------------------------------------------------------------- invariant

  /** Reads that see every commit behind the first `v` increments in `log`. */
  predicate Covers(log: seq<nat>, v: nat, answer: Answer) {
    && v <= |log|
    && forall i, j :: 0 <= i < v && 0 <= j < |answer| ==> log[i] <= answer[j].snapshot
  }

  function ReadsOf(phase: Phase): Answer {
    match phase
    case Reading(taken) => taken
    case Served(answer, _) => answer
    case _ => []
  }

  /** The stored counter counts the increments. */
  predicate CounterOk(s: State, t: Target) {
    var n := |BumpLog(s, t)|;
    if n == 0 then VersionKey(t) !in s.store
    else VersionKey(t) in s.store && s.store[VersionKey(t)] == Item(Counter(n), None)
  }

  predicate LogOk(s: State, t: Target) {
    forall i :: 0 <= i < |BumpLog(s, t)| ==> BumpLog(s, t)[i] <= s.commits
  }

  predicate ReaderOk(s: State, reader: Reader) {
    Covers(BumpLog(s, TargetOf(reader.res)), reader.version, ReadsOf(reader.phase))
  }

  predicate EntryOk(s: State, res: Resource, v: nat) {
    EntryKey(res, v) in s.store ==>
      var value := s.store[EntryKey(res, v)].value;
      value.Body? && Covers(BumpLog(s, TargetOf(res)), v, value.body)
  }

  predicate WriterOk(s: State, writer: Writer) {
    writer.commit <= s.commits && forall t :: t in writer.targets - writer.pending ==> writer.commit in BumpLog(s, t)
  }

  ghost predicate Inv(s: State) {
    && (forall t :: CounterOk(s, t))
    && (forall t :: LogOk(s, t))
    && (forall r :: r in s.readers ==> ReaderOk(s, s.readers[r]))
    && (forall w :: w in s.writers ==> WriterOk(s, s.writers[w]))
    && (forall res, v :: EntryOk(s, res, v))
  }

  lemma IncrementKeepsInv(s: State, t: Target, commit: nat)
    requires Inv(s) && commit <= s.commits
    ensures Inv(Increment(s, t, commit))
  {
    var s' := Increment(s, t, commit);
    assert CounterOk(s, t);
    forall u ensures CounterOk(s', u) {
      assert CounterOk(s, u);
      if VersionKey(u) == VersionKey(t) {
        VersionKeyInjective(u, t);
      }
    }
    forall u ensures LogOk(s', u) {
      assert LogOk(s, u);
      var before := BumpLog(s, u);
      assert BumpLog(s', u) == if u == t then before + [commit] else before;
      assert forall i :: 0 <= i < |before| ==> before[i] <= s.commits;
    }
    forall res, v ensures EntryOk(s', res, v) {
      assert EntryOk(s, res, v);
      KeyRangesDisjoint(t, res, v, "", "");
    }
    forall w | w in s'.writers ensures WriterOk(s', s'.writers[w]) {
      assert WriterOk(s, s.writers[w]);
    }
    forall r | r in s'.readers ensures ReaderOk(s', s'.readers[r]) {
      assert ReaderOk(s, s.readers[r]);
    }
  }

  lemma WriteBackKeepsInv(s: State, r: nat)
    requires Inv(s) && Enabled(s, WriteBack(r))
    ensures Inv(Apply(s, WriteBack(r)))
  {
    var s' := Apply(s, WriteBack(r));
    var reader := s.readers[r];
    assert ReaderOk(s, reader);
    forall t ensures CounterOk(s', t) && LogOk(s', t) {
      assert CounterOk(s, t) && LogOk(s, t);
      KeyRangesDisjoint(t, reader.res, reader.version, "", "");
    }
    forall res, v ensures EntryOk(s', res, v) {
      assert EntryOk(s, res, v);
      if EntryKey(res, v) == KeyOf(reader) {
        EntryKeyInjective(res, v, reader.res, reader.version);
      }
    }
    forall w | w in s'.writers ensures WriterOk(s', s'.writers[w]) {
      assert WriterOk(s, s.writers[w]);
    }
  }

  /** Steps that touch neither the store nor the increments. */
  lemma QuietStepKeepsInv(s: State, step: Step)
    requires Inv(s) && Enabled(s, step) && Reliable(step)
    requires !step.WriteBack? && !step.Bump? && !step.EarlyBump?
    ensures Inv(Apply(s, step))
  {
    var s' := Apply(s, step);
    forall t ensures CounterOk(s', t) && LogOk(s', t) {
      assert CounterOk(s, t) && LogOk(s, t);
    }
    forall res, v ensures EntryOk(s', res, v) {
      assert EntryOk(s, res, v);
    }
    forall w | w in s'.writers ensures WriterOk(s', s'.writers[w]) {
      assert w in s.writers ==> WriterOk(s, s.writers[w]);
    }
    forall r | r in s'.readers ensures ReaderOk(s', s'.readers[r]) {
      if r in s.readers {
        QuietStepKeepsReader(s, step, r);
      } else {
        assert CounterOk(s, TargetOf(step.res));
      }
    }
  }

  lemma QuietStepKeepsReader(s: State, step: Step, r: nat)
    requires Inv(s) && Enabled(s, step) && Reliable(step) && r in s.readers
    requires !step.WriteBack? && !step.Bump? && !step.EarlyBump?
    ensures r in Apply(s, step).readers && ReaderOk(Apply(s, step), Apply(s, step).readers[r])
  {
    assert ReaderOk(s, s.readers[r]);
    assert EntryOk(s, s.readers[r].res, s.readers[r].version);
    assert LogOk(s, TargetOf(s.readers[r].res));
  }

  lemma StepKeepsInv(s: State, step: Step)
    requires Inv(s) && Enabled(s, step) && Reliable(step)
    ensures Inv(Apply(s, step))
  {
    match step
    case WriteBack(r) => WriteBackKeepsInv(s, r);
    case EarlyBump(t) => IncrementKeepsInv(s, t, 0);
    case Bump(w, t) =>
      assert WriterOk(s, s.writers[w]);
      IncrementKeepsInv(s, t, s.writers[w].commit);
      TellKeepsInv(Increment(s, t, s.writers[w].commit), w, t);
    case _ => QuietStepKeepsInv(s, step);
  }

  lemma TellKeepsInv(s: State, w: nat, t: Target)
    requires Inv(s) && w in s.writers && s.writers[w].commit in BumpLog(s, t)
    ensures Inv(Tell(s, w, t))
  {
    var s' := Tell(s, w, t);
    forall u ensures CounterOk(s', u) && LogOk(s', u) {
      assert CounterOk(s, u) && LogOk(s, u);
    }
    forall res, v ensures EntryOk(s', res, v) {
      assert EntryOk(s, res, v);
    }
    forall x | x in s'.writers ensures WriterOk(s', s'.writers[x]) {
      assert WriterOk(s, s.writers[x]);
      assert forall u :: BumpLog(s', u) == BumpLog(s, u);
      assert x == w ==> s'.writers[x].targets - s'.writers[x].pending
                        <= s.writers[x].targets - s.writers[x].pending + {t};
    }
    forall r | r in s'.readers ensures ReaderOk(s', s'.readers[r]) {
      assert ReaderOk(s, s.readers[r]);
    }
  }

  lemma {:induction false} RunKeepsInv(ss: seq<State>, steps: seq<Step>, n: nat)
    requires Run(ss, steps) && n < |ss|
    requires forall i :: 0 <= i < n ==> Reliable(steps[i])
    ensures Inv(ss[n])
  {
    if n > 0 {
      RunKeepsInv(ss, steps, n - 1);
      StepKeepsInv(ss[n - 1], steps[n - 1]);
    }
  }

  // ---------------------------------------------------------------- freshness

  lemma PrefixOfPrefix(a: seq<nat>, b: seq<nat>, c: seq<nat>)
    requires a <= b <= c
    ensures a <= c
  {
  }

  lemma LogGrows(s: State, step: Step, t: Target)
    requires Enabled(s, step)
    ensures BumpLog(s, t) <= BumpLog(Apply(s, step), t)
  {
  }

  /** Increments are only ever appended. */
  lemma LogsGrow(ss: seq<State>, steps: seq<Step>, i: nat, j: nat, t: Target)
    requires Run(ss, steps) && i <= j < |ss|
    ensures BumpLog(ss[i], t) <= BumpLog(ss[j], t)
  {
    forall k | 0 <= k < |steps| ensures BumpLog(ss[k], t) <= BumpLog(ss[k + 1], t) {
      LogGrows(ss[k], steps[k], t);
    }
    LogsGrowInTurn(ss, i, j, t);
  }

  lemma {:induction false} LogsGrowInTurn(ss: seq<State>, i: nat, j: nat, t: Target)
    requires i <= j < |ss| && forall k :: 0 <= k < |ss| - 1 ==> BumpLog(ss[k], t) <= BumpLog(ss[k + 1], t)
    ensures BumpLog(ss[i], t) <= BumpLog(ss[j], t)
    decreases j
  {
    if i < j {
      LogsGrowInTurn(ss, i, j - 1, t);
      PrefixOfPrefix(BumpLog(ss[i], t), BumpLog(ss[j - 1], t), BumpLog(ss[j - 1 + 1], t));
    }
  }

  predicate KeepsReader(s: State, s': State, r: nat) {
    r in s.readers ==>
      r in s'.readers && s'.readers[r].res == s.readers[r].res && s'.readers[r].version == s.readers[r].version
  }

  lemma StepKeepsReader(s: State, step: Step, r: nat)
    requires Enabled(s, step)
    ensures KeepsReader(s, Apply(s, step), r)
  {
  }

  /** A reader keeps its resource and its captured version to the end. */
  lemma ReaderKeepsVersion(ss: seq<State>, steps: seq<Step>, i: nat, j: nat, r: nat)
    requires Run(ss, steps) && i <= j < |ss| && r in ss[i].readers
    ensures r in ss[j].readers
    ensures ss[j].readers[r].res == ss[i].readers[r].res
    ensures ss[j].readers[r].version == ss[i].readers[r].version
  {
    forall k | 0 <= k < |steps| ensures KeepsReader(ss[k], ss[k + 1], r) {
      StepKeepsReader(ss[k], steps[k], r);
    }
    ReaderKeptInTurn(ss, i, j, r);
  }

  lemma {:induction false} ReaderKeptInTurn(ss: seq<State>, i: nat, j: nat, r: nat)
    requires i <= j < |ss| && forall k :: 0 <= k < |ss| - 1 ==> KeepsReader(ss[k], ss[k + 1], r)
    ensures KeepsReader(ss[i], ss[j], r)
    decreases j
  {
    if i < j {
      ReaderKeptInTurn(ss, i, j - 1, r);
      assert KeepsReader(ss[j - 1], ss[j - 1 + 1], r);
    }
  }

  /** Freshness. Writer `w` finishes bumping the counter of a resource in step `i`; a request
      for that resource starts in a later step `j`. Whatever it is answered with at any later
      point - a cached body, even one written back by a slow older reader, or its own reads -
      every database read behind the answer saw `w`'s commit. Bulk workers that bump early
      and writers that never bump may be part of the run. */
  lemma ReadAfterInvalidateSeesCommit(
    ss: seq<State>, steps: seq<Step>, i: nat, j: nat, m: nat, w: nat, t: Target, r: nat)
    requires Run(ss, steps)
    requires forall k :: 0 <= k < |steps| ==> Reliable(steps[k])
    requires i < j < m < |ss|
    requires steps[i] == Bump(w, t)
    requires steps[j].Fetch? && steps[j].r == r
    requires t == if steps[j].res.Detail? then DetailOf(steps[j].res.uid) else AllLists
    requires r in ss[m].readers && ss[m].readers[r].phase.Served?
    ensures forall read :: read in ss[m].readers[r].phase.answer ==> read.snapshot >= ss[i].writers[w].commit
  {
    var c, res := ss[i].writers[w].commit, steps[j].res;
    var log := BumpLog(ss[i + 1], t);
    assert TargetOf(res) == t;
    assert ss[i + 1] == Apply(ss[i], steps[i]);
    assert log[|log| - 1] == c;
    LogsGrow(ss, steps, i + 1, j, t);
    RunKeepsInv(ss, steps, j);
    assert CounterOk(ss[j], t);
    assert ss[j + 1] == Apply(ss[j], steps[j]);
    assert ss[j + 1].readers[r].version == |BumpLog(ss[j], t)|;
    ReaderKeepsVersion(ss, steps, j + 1, m, r);
    LogsGrow(ss, steps, i + 1, m, t);
    RunKeepsInv(ss, steps, m);
    assert ReaderOk(ss[m], ss[m].readers[r]);
  }

  /** The same, read off the state in which a request starts: its answer saw the commit of
      every writer of the resource that owes no bump at that moment. */
  lemma SettledReadIsCurrent(ss: seq<State>, steps: seq<Step>, j: nat, m: nat, w: nat, r: nat)
    requires Run(ss, steps)
    requires forall k :: 0 <= k < |steps| ==> Reliable(steps[k])
    requires j < m < |ss|
    requires steps[j].Fetch? && steps[j].r == r
    requires w in ss[j].writers && TargetOf(steps[j].res) in ss[j].writers[w].targets - ss[j].writers[w].pending
    requires r in ss[m].readers && ss[m].readers[r].phase.Served?
    ensures forall read :: read in ss[m].readers[r].phase.answer ==> read.snapshot >= ss[j].writers[w].commit
  {
    var t := TargetOf(steps[j].res);
    RunKeepsInv(ss, steps, j);
    assert WriterOk(ss[j], ss[j].writers[w]);
    assert CounterOk(ss[j], t);
    assert ss[j + 1] == Apply(ss[j], steps[j]);
    ReaderKeepsVersion(ss, steps, j + 1, m, r);
    LogsGrow(ss, steps, j, m, t);
    RunKeepsInv(ss, steps, m);
    assert ReaderOk(ss[m], ss[m].readers[r]);
  }

  /** A run in which the bulk worker's early bump goes wrong, state by state. */
  ghost function StaleRunState(uid: string, k: nat): State {
    var res, t := Detail(uid), DetailOf(uid);
    var old0 := [Read(0, 0)];
    var reader1 := Reader(res, 1, if k <= 2 then Keyed
                                  else if k == 3 then Reading([])
                                  else if k <= 5 then Reading(old0)
                                  else Served(old0, false));
    var reader2 := Reader(res, 1, if k == 7 then Keyed else Served(old0, true));
    var counter := map[VersionKey(t) := Item(Counter(1), None)];
    State(
      if k == 0 then map[]
      else if k <= 5 then counter
      else counter[EntryKey(res, 1) := Item(Body(old0), Some(SPOT_DETAIL_CACHE_TTL_SECONDS))],
      0,
      if k <= 4 then 0 else 1,
      if k <= 1 then map[] else if k <= 6 then map[1 := reader1] else map[1 := reader1, 2 := reader2],
      map[],
      if k == 0 then map[] else map[t := [0]])
  }

  ghost function StaleRunStep(uid: string, k: nat): Step {
    if k == 0 then EarlyBump(DetailOf(uid)) else if k == 1 then Fetch(1, Detail(uid))
    else if k == 2 then Miss(1) else if k == 3 then ReadDb(1) else if k == 4 then QuietCommit
    else if k == 5 then WriteBack(1) else if k == 6 then Fetch(2, Detail(uid)) else Hit(2)
  }

  lemma StaleRunMoves(uid: string, k: nat)
    requires k < 8
    ensures Enabled(StaleRunState(uid, k), StaleRunStep(uid, k))
    ensures StaleRunState(uid, k + 1) == Apply(StaleRunState(uid, k), StaleRunStep(uid, k))
  {
    var s := StaleRunState(uid, k);
    KeyRangesDisjoint(DetailOf(uid), Detail(uid), 1, "", "");
    assert BumpLog(StaleRunState(uid, 0), DetailOf(uid)) + [0] == [0];
    assert k == 3 ==> s.readers[1].phase.taken + [Read(0, 0)] == [Read(0, 0)];
  }

  /** The bulk worker bumps before it commits. A reader that misses in between files the old
      rows under the new version, and a request that starts after the worker's commit and
      all its bumps is answered from them. */
  lemma EarlyBumpLeavesStaleEntry(uid: string) returns (ss: seq<State>, steps: seq<Step>)
    ensures Run(ss, steps) && forall k :: 0 <= k < |steps| ==> Reliable(steps[k])
    ensures |steps| == 8 && steps[0] == EarlyBump(DetailOf(uid)) && steps[4] == QuietCommit
    ensures steps[6] == Fetch(2, Detail(uid)) && ss[6].commits == 1
    ensures 2 in ss[8].readers && ss[8].readers[2].phase == Served([Read(0, 0)], true)
  {
    ss := seq(9, k requires 0 <= k => StaleRunState(uid, k));
    steps := seq(8, k requires 0 <= k => StaleRunStep(uid, k));
    forall k | 0 <= k < 8 ensures Enabled(ss[k], steps[k]) && ss[k + 1] == Apply(ss[k], steps[k]) {
      StaleRunMoves(uid, k);
    }
  }

  // ---------------------------------------------------------------- age bound

  /** Step `i` wrote `item` under `key`. */
  ghost predicate WrittenAt(ss: seq<State>, steps: seq<Step>, i: nat, key: string, item: Item<Answer>)
    requires Run(ss, steps)
  {
    && i < |steps| && steps[i].WriteBack?
    && var reader := ss[i].readers[steps[i].r];
    && KeyOf(reader) == key
    && item == Item(Body(reader.phase.taken), Some(ss[i].now + Ttl(reader.res)))
  }

  lemma {:induction false} StoredBodiesWereWritten(ss: seq<State>, steps: seq<Step>, n: nat, key: string)
    returns (i: nat)
    requires Run(ss, steps) && n < |ss|
    requires key in ss[n].store && ss[n].store[key].value.Body?
    ensures i < n && WrittenAt(ss, steps, i, key, ss[n].store[key])
  {
    assert n > 0;
    var s, step := ss[n - 1], steps[n - 1];
    BodyComesFromWriteBack(s, step, key);
    if step.WriteBack? && KeyOf(s.readers[step.r]) == key {
      i := n - 1;
    } else {
      i := StoredBodiesWereWritten(ss, steps, n - 1, key);
    }
  }

  lemma BodyComesFromWriteBack(s: State, step: Step, key: string)
    requires Enabled(s, step) && key in Apply(s, step).store && Apply(s, step).store[key].value.Body?
    ensures || (step.WriteBack? && KeyOf(s.readers[step.r]) == key)
            || (key in s.store && s.store[key] == Apply(s, step).store[key])
  {
  }

  lemma {:induction false} ReadsWereTakenBefore(ss: seq<State>, steps: seq<Step>, n: nat, r: nat, j: nat)
    requires Run(ss, steps) && n < |ss|
    requires r in ss[n].readers && ss[n].readers[r].phase.Reading? && j < |ss[n].readers[r].phase.taken|
    ensures ss[n].readers[r].phase.taken[j].at <= ss[n].now
  {
    var s, step := ss[n - 1], steps[n - 1];
    assert ss[n] == Apply(s, step);
    if r in s.readers && s.readers[r].phase.Reading? && j < |s.readers[r].phase.taken| {
      ReadsWereTakenBefore(ss, steps, n - 1, r, j);
    }
  }

  /** Age bound, on every run: bumps may be lost, early or missing, keys may be evicted and
      version reads may fail. A body served from the cache in step `m` was written back in
      an earlier step `i` by a reader of the same resource; each of its database reads is
      younger than the resource's TTL plus the time its producer took from that read to the
      write-back. */
  lemma CachedAnswerAge(ss: seq<State>, steps: seq<Step>, m: nat) returns (i: nat, producer: nat)
    requires Run(ss, steps) && m < |steps| && steps[m].Hit?
    ensures i < m && steps[i] == WriteBack(producer)
    ensures ss[i].readers[producer].res == ss[m].readers[steps[m].r].res
    ensures ss[m + 1].readers[steps[m].r].phase == Served(ss[i].readers[producer].phase.taken, true)
    ensures forall read :: read in ss[i].readers[producer].phase.taken ==>
      && read.at <= ss[i].now
      && ss[m].now - read.at < (if ss[m].readers[steps[m].r].res.Detail? then 120 else 30) + (ss[i].now - read.at)
  {
    var reader := ss[m].readers[steps[m].r];
    assert ss[m + 1] == Apply(ss[m], steps[m]);
    i := StoredBodiesWereWritten(ss, steps, m, KeyOf(reader));
    producer := steps[i].r;
    var writer := ss[i].readers[producer];
    EntryKeyInjective(writer.res, writer.version, reader.res, reader.version);
    forall j | 0 <= j < |writer.phase.taken| ensures writer.phase.taken[j].at <= ss[i].now {
      ReadsWereTakenBefore(ss, steps, i, producer, j);
    }
  }
}
