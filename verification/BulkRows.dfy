/** The bulk handlers, seen through row keys, are the batches of the job queue's transition
    system: a good batch of spots, keyed or not, and a good batch of business infos, run alone,
    have the effect of the batch in one go. */
module BulkRows {
  import opened Wrappers
  import opened Batch
  import Q = BulkTables
  import S = SpotsBulk
  import I = BusinessInfoBulk

  function QueueKey(k: S.Key): Q.SpotKey {
    Q.Keyed(k.0, k.1)
  }

  /** The row of the spots table that a spot key addresses. */
  function Held(t: S.Table, k: Q.SpotKey): Option<Q.Record> {
    if k.Keyed? then
      if (k.source, k.externalId) in t.index && t.index[(k.source, k.externalId)] in t.rows
      then Some(t.rows[t.index[(k.source, k.externalId)]])
      else None
    else if k.uid in t.rows && S.KeyOf(t.rows[k.uid]).None? then Some(t.rows[k.uid])
    else None
  }

  /** `q` shows the spots of the table, by key. */
  ghost predicate ShowsSpots(q: Q.Table, t: S.Table) {
    forall k :: Q.Lookup(q, Q.SpotAt(k)) == Held(t, k)
  }

  // ---------------------------------------------------------------- spots

  function QueueRow(env: S.Env, i: nat, values: S.Record): Q.Row {
    Q.SpotRow(values, env.newUid(i), env.now)
  }

  function QueueRows(env: S.Env, batch: seq<S.Record>): seq<Q.Row> {
    seq(|batch|, i requires 0 <= i < |batch| => QueueRow(env, i, batch[i]))
  }

  lemma WrittenSpot(env: S.Env, i: nat, t: S.Table, values: S.Record)
    requires S.Indexed(t) && S.UpsertSpotRow(env, i, t, values).Some?
    ensures var row, t' := QueueRow(env, i, values), S.UpsertSpotRow(env, i, t, values).value.table;
            var k := Q.SpotKeyOf(row);
            Q.Upserted(row, Held(t, k)).Some? && Held(t', k) == Q.Upserted(row, Held(t, k))
  {
    assert S.KeyOf(S.Defaults(env.now) + values) == S.KeyOf(values);
    if S.KeyOf(values).Some? {
      WrittenKeyedSpot(env, i, t, values);
    }
  }

  lemma WrittenKeyedSpot(env: S.Env, i: nat, t: S.Table, values: S.Record)
    requires S.Indexed(t) && S.KeyOf(values).Some? && S.UpsertSpotRow(env, i, t, values).Some?
    ensures var row, t' := QueueRow(env, i, values), S.UpsertSpotRow(env, i, t, values).value.table;
            var k := Q.SpotKeyOf(row);
            Q.Upserted(row, Held(t, k)).Some? && Held(t', k) == Q.Upserted(row, Held(t, k))
  {
    var key := S.KeyOf(values).value;
    assert (key.0, key.1) == key;
    if key in t.index {
      assert S.Holds(t, t.index[key], key);
      var existing := t.rows[t.index[key]];
      assert values - S.CONFLICT_COLS == map[] ==> existing + (values - S.CONFLICT_COLS) == existing;
    }
  }

  lemma OtherSpots(env: S.Env, i: nat, t: S.Table, values: S.Record, k: Q.SpotKey)
    requires S.Indexed(t) && S.UpsertSpotRow(env, i, t, values).Some?
    requires k != Q.SpotKeyOf(QueueRow(env, i, values))
    ensures Held(S.UpsertSpotRow(env, i, t, values).value.table, k) == Held(t, k)
  {
    assert S.KeyOf(S.Defaults(env.now) + values) == S.KeyOf(values);
    if k.Keyed? {
      OtherKeyedSpot(env, i, t, values, k);
    } else {
      OtherUnkeyedSpot(env, i, t, values, k.uid);
    }
  }

  lemma OtherKeyedSpot(env: S.Env, i: nat, t: S.Table, values: S.Record, k: Q.SpotKey)
    requires S.Indexed(t) && S.UpsertSpotRow(env, i, t, values).Some?
    requires k.Keyed? && k != Q.SpotKeyOf(QueueRow(env, i, values))
    ensures Held(S.UpsertSpotRow(env, i, t, values).value.table, k) == Held(t, k)
  {
    var key := (k.source, k.externalId);
    if S.KeyOf(values).Some? {
      assert S.KeyOf(values).value != key;
    }
    if key in t.index {
      assert S.Holds(t, t.index[key], key);
      S.UpsertOther(env, i, t, values, t.index[key]);
    }
  }

  lemma OtherUnkeyedSpot(env: S.Env, i: nat, t: S.Table, values: S.Record, uid: string)
    requires S.Indexed(t) && S.UpsertSpotRow(env, i, t, values).Some?
    requires Q.Unkeyed(uid) != Q.SpotKeyOf(QueueRow(env, i, values))
    ensures Held(S.UpsertSpotRow(env, i, t, values).value.table, Q.Unkeyed(uid)) == Held(t, Q.Unkeyed(uid))
  {
    var key := S.KeyOf(values);
    assert S.KeyOf(S.Defaults(env.now) + values) == key;
    if key.Some? && key.value in t.index {
      assert S.Holds(t, t.index[key.value], key.value);
      var existing := t.rows[t.index[key.value]];
      assert S.KeyOf(existing + (values - S.CONFLICT_COLS)) == key;
    }
  }

  lemma UpsertIsOneWrite(env: S.Env, i: nat, t: S.Table, values: S.Record, q: Q.Table, ids: Q.Ids)
    requires S.Indexed(t) && S.UpsertSpotRow(env, i, t, values).Some? && ShowsSpots(q, t)
    ensures var written := Q.Write(q, QueueRow(env, i, values), ids);
            written.Some? && ShowsSpots(written.value, S.UpsertSpotRow(env, i, t, values).value.table)
  {
    var row, t' := QueueRow(env, i, values), S.UpsertSpotRow(env, i, t, values).value.table;
    var key := Q.SpotKeyOf(row);
    WrittenSpot(env, i, t, values);
    assert Q.Lookup(q, Q.SpotAt(key)) == Held(t, key);
    var written := Q.Write(q, row, ids).value;
    forall k ensures Q.Lookup(written, Q.SpotAt(k)) == Held(t', k) {
      assert Q.Lookup(q, Q.SpotAt(k)) == Held(t, k);
      if k != key {
        OtherSpots(env, i, t, values, k);
      }
    }
  }

  lemma LastRow(t: Q.Table, rows: seq<Q.Row>, n: nat, ids: Q.Ids)
    requires 0 < n <= |rows| && Q.ApplyIds(t, rows[..n - 1], ids).Some?
    ensures Q.ApplyIds(t, rows[..n], ids) == Q.Write(Q.ApplyIds(t, rows[..n - 1], ids).value, rows[n - 1], ids)
  {
    assert rows[..n][..n - 1] == rows[..n - 1];
  }

  /** Each table is what the upsert of the next row makes of the one before. */
  ghost predicate Chain(env: S.Env, batch: seq<S.Record>, ts: seq<S.Table>) {
    && |ts| == |batch| + 1
    && forall i: nat :: i < |batch| ==> Linked(env, i, ts[i], batch[i], ts[i + 1])
  }

  ghost predicate Linked(env: S.Env, i: nat, t: S.Table, values: S.Record, t': S.Table) {
    S.Indexed(t) && S.UpsertSpotRow(env, i, t, values).Some? && t' == S.UpsertSpotRow(env, i, t, values).value.table
  }

  lemma {:induction false} ChainIsBatch(
    env: S.Env, batch: seq<S.Record>, ts: seq<S.Table>, n: nat, q: Q.Table, ids: Q.Ids)
    requires Chain(env, batch, ts) && n <= |batch| && ShowsSpots(q, ts[0])
    ensures var applied := Q.ApplyIds(q, QueueRows(env, batch)[..n], ids);
            applied.Some? && ShowsSpots(applied.value, ts[n])
  {
    if n > 0 {
      ChainIsBatch(env, batch, ts, n - 1, q, ids);
      assert Linked(env, n - 1, ts[n - 1], batch[n - 1], ts[n]);
      var before := Q.ApplyIds(q, QueueRows(env, batch)[..n - 1], ids).value;
      UpsertIsOneWrite(env, n - 1, ts[n - 1], batch[n - 1], before, ids);
      LastRow(q, QueueRows(env, batch), n, ids);
    }
  }

  lemma GoodRowsAreLinked(env: S.Env, batch: seq<S.Record>, t: S.Table, i: nat)
    requires S.Indexed(t) && i < |batch| && AllGood(S.Step(env, batch), t, |batch|)
    ensures Linked(env, i, Good(S.Step(env, batch), t, i), batch[i], Good(S.Step(env, batch), t, i + 1))
  {
    assert !Fails(S.Step(env, batch), t, i);
    S.RowAt(env, batch, t, i);
    S.BatchKeepsKeys(env, batch, t, i);
  }

  /** The spots handler's fold over good rows is the queue's batch applied in one go. */
  lemma SpotsHandlerRefinesBatch(env: S.Env, batch: seq<S.Record>, t: S.Table, q: Q.Table)
    requires S.Indexed(t) && AllGood(S.Step(env, batch), t, |batch|) && ShowsSpots(q, t)
    ensures var applied := Q.ApplyBatch(q, QueueRows(env, batch));
            applied.Some? && ShowsSpots(applied.value, Good(S.Step(env, batch), t, |batch|))
  {
    var n := |batch|;
    var ts := seq(n + 1, i requires 0 <= i <= n => Good(S.Step(env, batch), t, i));
    forall i: nat | i < n ensures Linked(env, i, ts[i], batch[i], ts[i + 1]) {
      GoodRowsAreLinked(env, batch, t, i);
    }
    ChainIsBatch(env, batch, ts, n, q, Q.Resolve(q, QueueRows(env, batch)));
    assert QueueRows(env, batch)[..n] == QueueRows(env, batch);
  }

  // ---------------------------------------------------------------- business infos

  function KeyFor(t: S.Table, u: string): Q.SpotKey
    requires u in t.rows
  {
    var key := S.KeyOf(t.rows[u]);
    if key.Some? then QueueKey(key.value) else Q.Unkeyed(u)
  }

  lemma KeyForIsInjective(t: S.Table, u: string, v: string)
    requires S.Indexed(t) && u in t.rows && v in t.rows && KeyFor(t, u) == KeyFor(t, v)
    ensures u == v
  {
    if S.KeyOf(t.rows[u]).Some? {
      var key := S.KeyOf(t.rows[u]).value;
      assert key == (key.0, key.1) == S.KeyOf(t.rows[v]).value;
      assert S.Holds(t, u, key) && S.Holds(t, v, key);
    }
  }

  lemma HeldByUid(t: S.Table, k: Q.SpotKey)
    requires S.Indexed(t)
    ensures forall u :: u in t.rows && k == KeyFor(t, u) ==> Held(t, k) == Some(t.rows[u])
    ensures Held(t, k).Some? ==> exists u :: u in t.rows && k == KeyFor(t, u)
  {
    forall u | u in t.rows && k == KeyFor(t, u) ensures Held(t, k) == Some(t.rows[u]) {
      if k.Keyed? {
        var key := S.KeyOf(t.rows[u]).value;
        assert key == (key.0, key.1);
        assert S.Holds(t, u, key);
      }
    }
    if Held(t, k).Some? {
      if k.Keyed? {
        var key := (k.source, k.externalId);
        assert S.Holds(t, t.index[key], key);
        assert KeyFor(t, t.index[key]) == k;
      } else {
        assert KeyFor(t, k.uid) == k;
      }
    }
  }

  lemma OwnerMatches(q: Q.Table, t: S.Table, e: string, u: string)
    requires S.Indexed(t) && ShowsSpots(q, t) && u in t.rows
    ensures Q.Owns(q, e, KeyFor(t, u)) <==> I.ExternalIds(t)[u] == Some(e)
  {
    HeldByUid(t, KeyFor(t, u));
    assert Q.Lookup(q, Q.SpotAt(KeyFor(t, u))) == Held(t, KeyFor(t, u)) == Some(t.rows[u]);
  }

  /** The one owner of an external id is the same in both views. */
  lemma OneOwnerMatches(q: Q.Table, t: S.Table, e: string, u: string)
    requires S.Indexed(t) && ShowsSpots(q, t) && I.OwnedBy(I.ExternalIds(t), e, u)
    ensures u in t.rows && Q.OwnedBy(q, e, KeyFor(t, u))
  {
    assert u in I.Owners(I.ExternalIds(t), e);
    OwnerMatches(q, t, e, u);
    forall k | Q.Owns(q, e, k) ensures k == KeyFor(t, u) {
      assert Q.Lookup(q, Q.SpotAt(k)) == Held(t, k);
      HeldByUid(t, k);
      var v :| v in t.rows && k == KeyFor(t, v);
      OwnerMatches(q, t, e, v);
      assert v in I.Owners(I.ExternalIds(t), e);
    }
  }

  /** `q` shows the infos of the spots of `t`, by key. */
  ghost predicate ShowsInfos(q: Q.Table, t: S.Table, infos: I.Table) {
    forall u :: u in t.rows ==> Q.Lookup(q, Q.InfoOf(KeyFor(t, u))) == InfoFor(infos, u)
  }

  function InfoFor(infos: I.Table, u: string): Option<Q.Record> {
    if u in infos then Some(infos[u]) else None
  }

  function InfoRows(batch: seq<I.Row>): seq<Q.Row> {
    seq(|batch|, i requires 0 <= i < |batch| => Q.InfoRow(batch[i].externalId, batch[i].fields))
  }

  lemma InfoIsOneWrite(q: Q.Table, t: S.Table, infos: I.Table, row: I.Row, u: string, ids: Q.Ids)
    requires S.Indexed(t) && ShowsSpots(q, t) && ShowsInfos(q, t, infos) && u in t.rows
    requires row.externalId in ids && ids[row.externalId] == KeyFor(t, u)
    ensures var written := Q.Write(q, Q.InfoRow(row.externalId, row.fields), ids);
            && written.Some? && ShowsSpots(written.value, t)
            && ShowsInfos(written.value, t, I.UpsertBusinessInfoRow(infos, u, row))
  {
    var written := Q.Write(q, Q.InfoRow(row.externalId, row.fields), ids).value;
    forall k ensures Q.Lookup(written, Q.SpotAt(k)) == Held(t, k) {
      assert Q.Lookup(q, Q.SpotAt(k)) == Held(t, k);
    }
    forall v | v in t.rows
      ensures Q.Lookup(written, Q.InfoOf(KeyFor(t, v))) == InfoFor(I.UpsertBusinessInfoRow(infos, u, row), v)
    {
      assert Q.Lookup(q, Q.InfoOf(KeyFor(t, v))) == InfoFor(infos, v);
      if KeyFor(t, v) == KeyFor(t, u) {
        KeyForIsInjective(t, u, v);
      }
    }
  }

  /** The owner the handler finds for a good row is the one the queue resolves. */
  lemma SameOwner(
    q: Q.Table, t: S.Table, refuses: I.Refusal, batch: seq<I.Row>, infos: I.Table, i: nat)
    returns (u: string)
    requires S.Indexed(t) && ShowsSpots(q, t) && i < |batch|
    requires !Fails(I.Step(I.ExternalIds(t), refuses, batch), infos, i)
    ensures u in t.rows
    ensures Good(I.Step(I.ExternalIds(t), refuses, batch), infos, i + 1)
         == I.UpsertBusinessInfoRow(Good(I.Step(I.ExternalIds(t), refuses, batch), infos, i), u, batch[i])
    ensures var ids := Q.Resolve(q, InfoRows(batch));
            batch[i].externalId in ids && ids[batch[i].externalId] == KeyFor(t, u)
  {
    u := I.GoodRowHasOwner(I.ExternalIds(t), refuses, batch, infos, i);
    OneOwnerMatches(q, t, batch[i].externalId, u);
    var rows := InfoRows(batch);
    assert rows[i].InfoRow? && rows[i].externalId == batch[i].externalId;
    assert batch[i].externalId in Q.ExternalIds(rows);
  }

  lemma {:induction false} InfoChainIsBatch(
    q: Q.Table, t: S.Table, refuses: I.Refusal, batch: seq<I.Row>, infos: I.Table, n: nat)
    requires S.Indexed(t) && ShowsSpots(q, t) && ShowsInfos(q, t, infos) && n <= |batch|
    requires forall i :: 0 <= i < n ==> !Fails(I.Step(I.ExternalIds(t), refuses, batch), infos, i)
    ensures var applied := Q.ApplyIds(q, InfoRows(batch)[..n], Q.Resolve(q, InfoRows(batch)));
            && applied.Some? && ShowsSpots(applied.value, t)
            && ShowsInfos(applied.value, t, Good(I.Step(I.ExternalIds(t), refuses, batch), infos, n))
  {
    if n > 0 {
      InfoChainIsBatch(q, t, refuses, batch, infos, n - 1);
      InfoChainNext(q, t, refuses, batch, infos, n - 1);
    }
  }

  lemma InfoChainNext(q: Q.Table, t: S.Table, refuses: I.Refusal, batch: seq<I.Row>, infos: I.Table, n: nat)
    requires S.Indexed(t) && ShowsSpots(q, t) && n < |batch|
    requires !Fails(I.Step(I.ExternalIds(t), refuses, batch), infos, n)
    requires var applied := Q.ApplyIds(q, InfoRows(batch)[..n], Q.Resolve(q, InfoRows(batch)));
             && applied.Some? && ShowsSpots(applied.value, t)
             && ShowsInfos(applied.value, t, Good(I.Step(I.ExternalIds(t), refuses, batch), infos, n))
    ensures var applied := Q.ApplyIds(q, InfoRows(batch)[..n + 1], Q.Resolve(q, InfoRows(batch)));
            && applied.Some? && ShowsSpots(applied.value, t)
            && ShowsInfos(applied.value, t, Good(I.Step(I.ExternalIds(t), refuses, batch), infos, n + 1))
  {
    var ids := Q.Resolve(q, InfoRows(batch));
    var before := Q.ApplyIds(q, InfoRows(batch)[..n], ids).value;
    var u := SameOwner(q, t, refuses, batch, infos, n);
    var done := Good(I.Step(I.ExternalIds(t), refuses, batch), infos, n);
    InfoIsOneWrite(before, t, done, batch[n], u, ids);
    LastRow(q, InfoRows(batch), n + 1, ids);
  }

  /** Run alone, the business-info handler's fold over good rows is the queue's batch applied in
      one go, and leaves the spots as they were. */
  lemma InfosHandlerRefinesBatch(q: Q.Table, t: S.Table, refuses: I.Refusal, batch: seq<I.Row>, infos: I.Table)
    requires S.Indexed(t) && ShowsSpots(q, t) && ShowsInfos(q, t, infos)
    requires AllGood(I.Step(I.ExternalIds(t), refuses, batch), infos, |batch|)
    ensures var applied := Q.ApplyBatch(q, InfoRows(batch));
            && applied.Some? && ShowsSpots(applied.value, t)
            && ShowsInfos(applied.value, t, Good(I.Step(I.ExternalIds(t), refuses, batch), infos, |batch|))
  {
    InfoChainIsBatch(q, t, refuses, batch, infos, |batch|);
    assert InfoRows(batch)[..|batch|] == InfoRows(batch);
  }

  // ---------------------------------------------------------------- both tables

  /** `q` shows the spots and the infos, and infos belong to spots. */
  ghost predicate ShowsAll(q: Q.Table, t: S.Table, infos: I.Table) {
    && ShowsSpots(q, t) && ShowsInfos(q, t, infos)
    && infos.Keys <= t.rows.Keys
    && forall k :: Q.InfoOf(k) in q ==> Q.SpotAt(k) in q
  }

  lemma UpsertKeepsRowKey(env: S.Env, i: nat, t: S.Table, values: S.Record, u: string)
    requires S.Indexed(t) && S.UpsertSpotRow(env, i, t, values).Some? && u in t.rows
    ensures var t' := S.UpsertSpotRow(env, i, t, values).value.table;
            u in t'.rows && S.KeyOf(t'.rows[u]) == S.KeyOf(t.rows[u])
  {
    var key := S.KeyOf(values);
    if key.Some? && key.value in t.index {
      assert S.Holds(t, t.index[key.value], key.value);
    }
  }

  lemma {:induction false} BatchKeepsRowKey(env: S.Env, batch: seq<S.Record>, t: S.Table, n: nat, u: string)
    requires S.Indexed(t) && n <= |batch| && u in t.rows
    ensures var t' := Good(S.Step(env, batch), t, n); u in t'.rows && S.KeyOf(t'.rows[u]) == S.KeyOf(t.rows[u])
  {
    if n > 0 {
      BatchKeepsRowKey(env, batch, t, n - 1, u);
      NextKeepsRowKey(env, batch, t, n - 1, u);
    }
  }

  lemma NextKeepsRowKey(env: S.Env, batch: seq<S.Record>, t: S.Table, n: nat, u: string)
    requires S.Indexed(t) && n < |batch| && u in Good(S.Step(env, batch), t, n).rows
    ensures var before, after := Good(S.Step(env, batch), t, n), Good(S.Step(env, batch), t, n + 1);
            u in after.rows && S.KeyOf(after.rows[u]) == S.KeyOf(before.rows[u])
  {
    var before := Good(S.Step(env, batch), t, n);
    S.BatchKeepsKeys(env, batch, t, n);
    S.RowAt(env, batch, t, n);
    if S.UpsertSpotRow(env, n, before, batch[n]).Some? {
      UpsertKeepsRowKey(env, n, before, batch[n], u);
    }
  }

  lemma {:induction false} SpotRowsLeaveInfos(q: Q.Table, rows: seq<Q.Row>, ids: Q.Ids, k: Q.SpotKey)
    requires Q.ApplyIds(q, rows, ids).Some? && forall i :: 0 <= i < |rows| ==> rows[i].SpotRow?
    ensures var after := Q.ApplyIds(q, rows, ids).value;
            && Q.Lookup(after, Q.InfoOf(k)) == Q.Lookup(q, Q.InfoOf(k))
            && (Q.SpotAt(k) in q ==> Q.SpotAt(k) in after)
    decreases |rows|
  {
    if rows != [] {
      SpotRowsLeaveInfos(q, rows[..|rows| - 1], ids, k);
    }
  }

  /** A good batch of spots, with the infos next to them. */
  lemma SpotsBatchShows(env: S.Env, batch: seq<S.Record>, t: S.Table, infos: I.Table, q: Q.Table)
    requires S.Indexed(t) && AllGood(S.Step(env, batch), t, |batch|) && ShowsAll(q, t, infos)
    ensures var applied := Q.ApplyBatch(q, QueueRows(env, batch));
            applied.Some? && ShowsAll(applied.value, Good(S.Step(env, batch), t, |batch|), infos)
  {
    SpotsHandlerRefinesBatch(env, batch, t, q);
    var t', rows := Good(S.Step(env, batch), t, |batch|), QueueRows(env, batch);
    var ids := Q.Resolve(q, rows);
    var q' := Q.ApplyBatch(q, rows).value;
    S.BatchKeepsKeys(env, batch, t, |batch|);
    forall k ensures Q.Lookup(q', Q.InfoOf(k)) == Q.Lookup(q, Q.InfoOf(k)) && (Q.SpotAt(k) in q ==> Q.SpotAt(k) in q') {
      SpotRowsLeaveInfos(q, rows, ids, k);
    }
    forall u | u in t'.rows ensures Q.Lookup(q', Q.InfoOf(KeyFor(t', u))) == InfoFor(infos, u) {
      if u in t.rows {
        BatchKeepsRowKey(env, batch, t, |batch|, u);
        assert KeyFor(t', u) == KeyFor(t, u);
      } else {
        NewSpotHasNoInfo(env, batch, t, u, q);
      }
    }
  }

  lemma NewSpotHasNoInfo(env: S.Env, batch: seq<S.Record>, t: S.Table, u: string, q: Q.Table)
    requires S.Indexed(t) && ShowsSpots(q, t) && u !in t.rows && u in Good(S.Step(env, batch), t, |batch|).rows
    ensures Q.SpotAt(KeyFor(Good(S.Step(env, batch), t, |batch|), u)) !in q
  {
    var t' := Good(S.Step(env, batch), t, |batch|);
    var k := KeyFor(t', u);
    S.BatchKeepsKeys(env, batch, t, |batch|);
    assert Q.Lookup(q, Q.SpotAt(k)) == Held(t, k);
    HeldByUid(t, k);
    if Held(t, k).Some? {
      var v :| v in t.rows && k == KeyFor(t, v);
      BatchKeepsRowKey(env, batch, t, |batch|, v);
      KeyForIsInjective(t', u, v);
    }
  }

  /** A good batch of infos, with the spots next to them. */
  lemma InfosBatchShows(q: Q.Table, t: S.Table, refuses: I.Refusal, batch: seq<I.Row>, infos: I.Table)
    requires S.Indexed(t) && ShowsAll(q, t, infos)
    requires AllGood(I.Step(I.ExternalIds(t), refuses, batch), infos, |batch|)
    ensures var applied := Q.ApplyBatch(q, InfoRows(batch));
            applied.Some? && ShowsAll(applied.value, t, Good(I.Step(I.ExternalIds(t), refuses, batch), infos, |batch|))
  {
    InfosHandlerRefinesBatch(q, t, refuses, batch, infos);
    InfosStayWithSpots(t, refuses, batch, infos, |batch|);
    InfoRowsStayWithSpots(q, InfoRows(batch), Q.Resolve(q, InfoRows(batch)));
  }

  lemma {:induction false} InfosStayWithSpots(t: S.Table, refuses: I.Refusal, batch: seq<I.Row>, infos: I.Table, n: nat)
    requires infos.Keys <= t.rows.Keys && n <= |batch|
    requires forall i :: 0 <= i < n ==> !Fails(I.Step(I.ExternalIds(t), refuses, batch), infos, i)
    ensures Good(I.Step(I.ExternalIds(t), refuses, batch), infos, n).Keys <= t.rows.Keys
  {
    if n > 0 {
      InfosStayWithSpots(t, refuses, batch, infos, n - 1);
      var u := I.GoodRowHasOwner(I.ExternalIds(t), refuses, batch, infos, n - 1);
      assert u in I.Owners(I.ExternalIds(t), batch[n - 1].externalId);
    }
  }

  lemma {:induction false} InfoRowsStayWithSpots(q: Q.Table, rows: seq<Q.Row>, ids: Q.Ids)
    requires Q.ApplyIds(q, rows, ids).Some? && forall i :: 0 <= i < |rows| ==> rows[i].InfoRow?
    requires forall k :: Q.InfoOf(k) in q ==> Q.SpotAt(k) in q
    requires forall e :: e in ids ==> Q.SpotAt(ids[e]) in q
    ensures var after := Q.ApplyIds(q, rows, ids).value;
            && (forall k :: Q.SpotAt(k) in q ==> Q.SpotAt(k) in after)
            && (forall k :: Q.InfoOf(k) in after ==> Q.SpotAt(k) in after)
    decreases |rows|
  {
    if rows != [] {
      InfoRowsStayWithSpots(q, rows[..|rows| - 1], ids);
    }
  }
}
