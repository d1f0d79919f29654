/** One spot's detail page, read through the cache (`get_spot` in
    vivacapi/api/v1/endpoints/explore.py) and changed by the commit-then-bump writers of
    vivacapi/crud/spot.py, one call at a time. CacheProtocol interleaves the same steps. */
module ReadThrough {
  import opened Wrappers
  import opened RedisKeys
  import opened RedisStore
  import opened CacheProtocol

  const DETAIL_TTL := SPOT_DETAIL_CACHE_TTL_SECONDS

  /** The public page of every spot that has one. */
  type Pages = map<string, string>

  function PageOf(pages: Pages, uid: string): Option<string> {
    if uid in pages then Some(pages[uid]) else None
  }

  function VersionOf(store: Store<string>, uid: string): nat {
    CounterAt(store, 0, VersionKey(DetailOf(uid)))
  }

  ghost predicate VersionsKept(store: Store<string>) {
    forall t :: VersionKey(t) in store ==> store[VersionKey(t)].value.Counter? && store[VersionKey(t)].deadline.None?
  }

  /** An entry filed under the current version shows the committed page; none is filed under
      a later version. */
  predicate EntryCurrent(store: Store<string>, pages: Pages, uid: string, v: nat) {
    EntryKey(Detail(uid), v) in store ==>
      && v <= VersionOf(store, uid)
      && (v == VersionOf(store, uid) ==>
            uid in pages && store[EntryKey(Detail(uid), v)].value == Body(pages[uid]))
  }

  ghost predicate Settled(store: Store<string>, pages: Pages) {
    VersionsKept(store) && forall uid, v :: EntryCurrent(store, pages, uid, v)
  }

  lemma VersionAnyTime(store: Store<string>, uid: string, now: nat)
    requires VersionsKept(store)
    ensures CounterAt(store, now, VersionKey(DetailOf(uid))) == VersionOf(store, uid)
  {
  }

  /** Filing the committed page under the current version keeps the cache settled. */
  lemma FilingKeepsSettled(store: Store<string>, pages: Pages, uid: string, now: nat, store': Store<string>)
    requires Settled(store, pages) && uid in pages
    requires store' == SetEx(store, now, EntryKey(Detail(uid), VersionOf(store, uid)), pages[uid], DETAIL_TTL)
    ensures Settled(store', pages)
  {
    var version := VersionOf(store, uid);
    forall t ensures VersionKey(t) != EntryKey(Detail(uid), version) {
      KeyRangesDisjoint(t, Detail(uid), version, "", "");
    }
    forall u, v ensures EntryCurrent(store', pages, u, v) {
      assert EntryCurrent(store, pages, u, v);
      assert VersionOf(store', u) == VersionOf(store, u);
      if EntryKey(Detail(u), v) == EntryKey(Detail(uid), version) {
        EntryKeyInjective(Detail(u), v, Detail(uid), version);
      }
    }
  }

  /** Bumping a spot's version after its page changed does, too. */
  lemma BumpSettles(store: Store<string>, pages: Pages, uid: string, now: nat, pages': Pages)
    requires Settled(store, pages) && forall u :: u != uid ==> PageOf(pages', u) == PageOf(pages, u)
    ensures Settled(Incr(store, now, VersionKey(DetailOf(uid))), pages')
  {
    var store' := Incr(store, now, VersionKey(DetailOf(uid)));
    forall u, v ensures EntryCurrent(store', pages', u, v) {
      assert EntryCurrent(store, pages, u, v);
      KeyRangesDisjoint(DetailOf(uid), Detail(u), v, "", "");
      if u != uid {
        if VersionKey(DetailOf(u)) == VersionKey(DetailOf(uid)) {
          VersionKeyInjective(DetailOf(u), DetailOf(uid));
        }
        assert VersionOf(store', u) == VersionOf(store, u);
        assert PageOf(pages', u) == PageOf(pages, u);
      } else {
        assert VersionOf(store', u) == VersionOf(store, u) + 1;
      }
    }
    forall t | VersionKey(t) in store'
      ensures store'[VersionKey(t)].value.Counter? && store'[VersionKey(t)].deadline.None?
    {
      assert VersionKey(t) == VersionKey(DetailOf(uid)) || VersionKey(t) in store;
    }
  }

  /** Bumping the list version leaves detail entries alone. */
  lemma ListBumpKeepsSettled(store: Store<string>, pages: Pages, now: nat)
    requires Settled(store, pages)
    ensures Settled(Incr(store, now, VersionKey(AllLists)), pages)
  {
    var store' := Incr(store, now, VersionKey(AllLists));
    forall u, v ensures EntryCurrent(store', pages, u, v) {
      assert EntryCurrent(store, pages, u, v);
      KeyRangesDisjoint(AllLists, Detail(u), v, "", "");
      if VersionKey(DetailOf(u)) == VersionKey(AllLists) {
        VersionKeyInjective(DetailOf(u), AllLists);
      }
    }
    forall t | VersionKey(t) in store'
      ensures store'[VersionKey(t)].value.Counter? && store'[VersionKey(t)].deadline.None?
    {
      assert VersionKey(t) == VersionKey(AllLists) || VersionKey(t) in store;
    }
  }

  // ---------------------------------------------------------------- the code

  /** `steps` is a history variable: what the calls so far have done, as steps of the cache
      protocol. A request or writer is named by the number of steps before it. */
  class SpotPages {
    const client: Client<string>
    var pages: Pages
    ghost var steps: seq<Step>

    constructor (client: Client<string>, pages: Pages)
      ensures this.client == client && this.pages == pages && steps == []
      ensures client.store == map[] ==> Settled(client.store, pages)
    {
      this.client, this.pages, this.steps := client, pages, [];
    }

    method TakeKey(ghost r: nat, uid: string, now: nat, up: bool) returns (key: string)
      modifies this`steps
      ensures key ==
        EntryKey(Detail(uid), if up then CounterAt(client.store, now, VersionKey(DetailOf(uid))) else 0)
      ensures steps == old(steps) + [if up then Fetch(r, Detail(uid)) else FetchFails(r, Detail(uid))]
    {
      key := client.SpotDetailKey(uid, now, up);
      steps := steps + [if up then Fetch(r, Detail(uid)) else FetchFails(r, Detail(uid))];
    }

    method LookUp(ghost r: nat, key: string, now: nat, up: bool) returns (page: Option<string>)
      modifies this`steps
      ensures page == if up then Lookup(client.store, now, key) else None
      ensures steps == old(steps) + [if !up then LookupFails(r) else if page.Some? then Hit(r) else Miss(r)]
    {
      page := client.GetCached(key, now, up);
      steps := steps + [if !up then LookupFails(r) else if page.Some? then Hit(r) else Miss(r)];
    }

    /** A missing spot ends the request with SPOT_NOT_FOUND. */
    method ReadPage(ghost r: nat, uid: string) returns (page: Option<string>)
      modifies this`steps
      ensures page == PageOf(pages, uid)
      ensures steps == old(steps) + [ReadDb(r)] + if page.Some? then [] else [GiveUp(r)]
    {
      page := if uid in pages then Some(pages[uid]) else None;
      steps := steps + [ReadDb(r)] + if page.Some? then [] else [GiveUp(r)];
    }

    method File(ghost r: nat, key: string, page: string, now: nat, up: bool)
      modifies this`steps, client
      ensures client.store == if up then SetEx(old(client.store), now, key, page, DETAIL_TTL) else old(client.store)
      ensures steps == old(steps) + [if up then WriteBack(r) else WriteBackLost(r)]
    {
      client.SetCached(key, page, DETAIL_TTL, now, up);
      steps := steps + [if up then WriteBack(r) else WriteBackLost(r)];
    }

    /** Answers from the cache or from the database, never with anything but the committed
        page; None is SPOT_NOT_FOUND. A page that was not in the cache is from then on, for 120
        seconds and under the spot's current version; nothing else is written, and a page that
        was in the cache is not kept any longer. The key is taken before the lookup, and it is
        the one the page is filed under after the database was read. */
    method GetSpot(uid: string, now: nat, up: bool) returns (page: Option<string>)
      requires Settled(client.store, pages)
      modifies this`steps, client
      ensures page == PageOf(pages, uid)
      ensures Settled(client.store, pages)
      ensures var key := EntryKey(Detail(uid), VersionOf(old(client.store), uid));
              var hit := up && Lookup(old(client.store), now, key).Some?;
              && client.store == (if up && !hit && page.Some?
                                  then old(client.store)[key := Item(Body(page.value), Some(now + 120))]
                                  else old(client.store))
              && steps == old(steps) + RequestSteps(old(|steps|), Detail(uid), up, hit, page.Some?)
    {
      ghost var r := |steps|;
      VersionAnyTime(client.store, uid, now);
      var key := TakeKey(r, uid, now, up);
      var cached := LookUp(r, key, now, up);
      if cached.Some? {
        assert EntryCurrent(client.store, pages, uid, VersionOf(client.store, uid));
        return cached;
      }
      page := ReadPage(r, uid);
      if page.None? {
        return;
      }
      if up {
        FilingKeepsSettled(client.store, pages, uid, now, SetEx(client.store, now, key, pages[uid], DETAIL_TTL));
      }
      File(r, key, page.value, now, up);
    }

    method CommitPage(ghost w: nat, uid: string, page: Option<string>)
      modifies this`pages, this`steps
      ensures pages == if page.Some? then old(pages)[uid := page.value] else old(pages) - {uid}
      ensures steps == old(steps) + [Commit(w, {AllLists, DetailOf(uid)})]
    {
      pages := if page.Some? then pages[uid := page.value] else pages - {uid};
      steps := steps + [Commit(w, {AllLists, DetailOf(uid)})];
    }

    method BumpLists(ghost w: nat, now: nat, up: bool)
      requires VersionsKept(client.store)
      modifies this`steps, client
      ensures client.store == if up then Incr(old(client.store), now, VersionKey(AllLists)) else old(client.store)
      ensures steps == old(steps) + [if up then Bump(w, AllLists) else BumpLost(w, AllLists)]
    {
      client.BumpSpotsVersion(now, up);
      steps := steps + [if up then Bump(w, AllLists) else BumpLost(w, AllLists)];
    }

    method BumpDetail(ghost w: nat, uid: string, now: nat, up: bool)
      requires VersionsKept(client.store)
      modifies this`steps, client
      ensures client.store == if up then Incr(old(client.store), now, VersionKey(DetailOf(uid))) else old(client.store)
      ensures steps == old(steps) + [if up then Bump(w, DetailOf(uid)) else BumpLost(w, DetailOf(uid))]
    {
      client.InvalidateSpotDetail(uid, now, up);
      steps := steps + [if up then Bump(w, DetailOf(uid)) else BumpLost(w, DetailOf(uid))];
    }

    /** update_spot, delete_spot and restore_spot: the page changes, appears or goes; then the
        versions are bumped, if Redis is up for it. The cache stays settled exactly if the detail
        bump arrives, or there was nothing under the current version that it had to invalidate.
        At every later time the list version and that spot's version read one more if their bump
        arrived, and no other version has changed. */
    method ChangeSpot(uid: string, page: Option<string>, now: nat, listUp: bool, detailUp: bool)
      requires Settled(client.store, pages)
      modifies this, client
      ensures pages == if page.Some? then old(pages)[uid := page.value] else old(pages) - {uid}
      ensures Settled(client.store, pages) <==>
        detailUp || EntryCurrent(old(client.store), pages, uid, VersionOf(old(client.store), uid))
      ensures forall t :: CounterAt(client.store, t, VersionKey(AllLists))
                          == old(CounterAt(client.store, t, VersionKey(AllLists))) + (if listUp then 1 else 0)
      ensures forall t :: CounterAt(client.store, t, VersionKey(DetailOf(uid)))
                          == old(CounterAt(client.store, t, VersionKey(DetailOf(uid)))) + (if detailUp then 1 else 0)
      ensures forall target, t :: target != AllLists && target != DetailOf(uid) ==>
        CounterAt(client.store, t, VersionKey(target)) == old(CounterAt(client.store, t, VersionKey(target)))
      ensures steps == old(steps) + WriterSteps(old(|steps|), uid, listUp, detailUp)
    {
      ghost var w := |steps|;
      ghost var before, store := pages, client.store;
      CommitPage(w, uid, page);
      ListBumpKeepsSettled(store, before, now);
      BumpLists(w, now, listUp);
      ghost var listed := client.store;
      ListBumpKeepsEntry(store, pages, uid, now);
      BumpSettles(listed, before, uid, now, pages);
      LostBumpIsSettledIff(listed, before, uid, pages);
      BumpDetail(w, uid, now, detailUp);
      BumpsCount(store, listed, client.store, uid, now, listUp, detailUp);
    }
  }

  // ---------------------------------------------------------------- the code in the protocol

  /** The steps of one request. */
  function RequestSteps(r: nat, res: Resource, up: bool, hit: bool, found: bool): seq<Step> {
    if hit then [Fetch(r, res), Hit(r)]
    else if up then [Fetch(r, res), Miss(r), ReadDb(r), if found then WriteBack(r) else GiveUp(r)]
    else [FetchFails(r, res), LookupFails(r), ReadDb(r), if found then WriteBackLost(r) else GiveUp(r)]
  }

  /** The steps of one writer: the commit first, then the bumps it owes. */
  function WriterSteps(w: nat, uid: string, listUp: bool, detailUp: bool): seq<Step> {
    [Commit(w, {AllLists, DetailOf(uid)}),
     if listUp then Bump(w, AllLists) else BumpLost(w, AllLists),
     if detailUp then Bump(w, DetailOf(uid)) else BumpLost(w, DetailOf(uid))]
  }

  predicate KeepsWriter(s: State, s': State, w: nat) {
    w in s.writers ==> w in s'.writers && s'.writers[w].commit == s.writers[w].commit
  }

  lemma StepKeepsWriter(s: State, step: Step, w: nat)
    requires Enabled(s, step)
    ensures KeepsWriter(s, Apply(s, step), w)
  {
  }

  lemma WriterKeepsCommit(ss: seq<State>, steps: seq<Step>, a: nat, b: nat, w: nat)
    requires Path(ss, steps) && a <= b < |ss| && w in ss[a].writers
    ensures w in ss[b].writers && ss[b].writers[w].commit == ss[a].writers[w].commit
  {
    forall k | 0 <= k < |steps| ensures KeepsWriter(ss[k], ss[k + 1], w) {
      StepKeepsWriter(ss[k], steps[k], w);
    }
    WriterKeptInTurn(ss, a, b, w);
  }

  lemma {:induction false} WriterKeptInTurn(ss: seq<State>, a: nat, b: nat, w: nat)
    requires a <= b < |ss| && forall k :: 0 <= k < |ss| - 1 ==> KeepsWriter(ss[k], ss[k + 1], w)
    ensures KeepsWriter(ss[a], ss[b], w)
    decreases b
  {
    if a < b {
      WriterKeptInTurn(ss, a, b - 1, w);
      assert KeepsWriter(ss[b - 1], ss[b - 1 + 1], w);
    }
  }

  /** A writer's steps in a run, with others in between: once its bumps have arrived, every
      request for the spot, or for any list, that starts afterwards sees its commit, whatever
      others do. */
  lemma WriterLeavesNoStaleAnswer(
    ss: seq<State>, steps: seq<Step>, a: nat, b: nat, c: nat, j: nat, m: nat, w: nat, uid: string, r: nat)
    requires Run(ss, steps) && forall k :: 0 <= k < |steps| ==> Reliable(steps[k])
    requires a < b < c < j < m < |ss| && [steps[a], steps[b], steps[c]] == WriterSteps(w, uid, true, true)
    requires steps[j].Fetch? && steps[j].r == r && (steps[j].res.Detail? ==> steps[j].res == Detail(uid))
    requires r in ss[m].readers && ss[m].readers[r].phase.Served?
    ensures forall read :: read in ss[m].readers[r].phase.answer ==> read.snapshot > ss[a].commits
  {
    var three := [steps[a], steps[b], steps[c]];
    assert steps[a] == three[0] && steps[b] == three[1] && steps[c] == three[2];
    assert ss[a + 1] == Apply(ss[a], steps[a]);
    WriterKeepsCommit(ss, steps, a + 1, b, w);
    WriterKeepsCommit(ss, steps, a + 1, c, w);
    if steps[j].res.Detail? {
      ReadAfterInvalidateSeesCommit(ss, steps, c, j, m, w, DetailOf(uid), r);
    } else {
      ReadAfterInvalidateSeesCommit(ss, steps, b, j, m, w, AllLists, r);
    }
  }

  /** What the two bumps do to all version counters. */
  lemma BumpsCount(
    store: Store<string>, listed: Store<string>, after: Store<string>, uid: string, now: nat,
    listUp: bool, detailUp: bool)
    requires VersionsKept(store)
    requires listed == if listUp then Incr(store, now, VersionKey(AllLists)) else store
    requires after == if detailUp then Incr(listed, now, VersionKey(DetailOf(uid))) else listed
    ensures forall t :: CounterAt(after, t, VersionKey(AllLists))
                        == CounterAt(store, t, VersionKey(AllLists)) + (if listUp then 1 else 0)
    ensures forall t :: CounterAt(after, t, VersionKey(DetailOf(uid)))
                        == CounterAt(store, t, VersionKey(DetailOf(uid))) + (if detailUp then 1 else 0)
    ensures forall target, t :: target != AllLists && target != DetailOf(uid) ==>
      CounterAt(after, t, VersionKey(target)) == CounterAt(store, t, VersionKey(target))
  {
    forall target, of | target != of ensures VersionKey(target) != VersionKey(of) {
      if VersionKey(target) == VersionKey(of) {
        VersionKeyInjective(target, of);
      }
    }
  }

  lemma ListBumpKeepsEntry(store: Store<string>, pages: Pages, uid: string, now: nat)
    ensures var store' := Incr(store, now, VersionKey(AllLists));
            EntryCurrent(store', pages, uid, VersionOf(store', uid)) <==>
              EntryCurrent(store, pages, uid, VersionOf(store, uid))
  {
    if VersionKey(DetailOf(uid)) == VersionKey(AllLists) {
      VersionKeyInjective(DetailOf(uid), AllLists);
    }
    KeyRangesDisjoint(AllLists, Detail(uid), VersionOf(store, uid), "", "");
  }

  lemma LostBumpIsSettledIff(store: Store<string>, pages: Pages, uid: string, pages': Pages)
    requires Settled(store, pages) && forall u :: u != uid ==> PageOf(pages', u) == PageOf(pages, u)
    ensures Settled(store, pages') <==> EntryCurrent(store, pages', uid, VersionOf(store, uid))
  {
    if EntryCurrent(store, pages', uid, VersionOf(store, uid)) {
      forall u, v ensures EntryCurrent(store, pages', u, v) {
        assert EntryCurrent(store, pages, u, v);
        assert u != uid ==> PageOf(pages', u) == PageOf(pages, u);
      }
    }
  }
}
