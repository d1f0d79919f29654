/** Bulk upsert of spots (vivacapi/workers/spots_bulk.py). */
module SpotsBulk {
  import opened Wrappers
  import opened Batch

  /** The non-None columns of an input row, and the non-NULL columns of a stored one. */
  type Record = map<string, string>

  /** (source, external_id). */
  type Key = (string, string)

  function KeyOf(record: Record): Option<Key> {
    if "source" in record && "external_id" in record then Some((record["source"], record["external_id"])) else None
  }

  /** The spots table by uid, with the unique index on (source, external_id). */
  datatype Table = Table(rows: map<string, Record>, index: map<Key, string>)

  predicate Holds(t: Table, u: string, k: Key) {
    u in t.rows && KeyOf(t.rows[u]) == Some(k)
  }

  /** The index holds exactly the keyed rows; so no two rows share a key. */
  ghost predicate Indexed(t: Table) {
    && (forall k :: k in t.index ==> Holds(t, t.index[k], k))
    && (forall u, k :: Holds(t, u, k) ==> k in t.index && t.index[k] == u)
  }

  const CONFLICT_COLS := {"source", "external_id"}

  /** The server defaults of an inserted row; `now` is the start of the transaction. */
  function Defaults(now: string): Record {
    map["pipeline_status" := "RAW", "created_at" := now, "updated_at" := now]
  }

  /** What a run takes from outside: the uid generated for row `i` if it is inserted, the
      transaction's time, and which rows the database refuses for any reason not modelled here. */
  datatype Env = Env(newUid: nat -> string, now: string, refuses: (nat, Table, Record) -> bool)

  datatype Upserted = Upserted(table: Table, uid: Option<string>)

  /** `_upsert_spot_row`: INSERT, with ON CONFLICT DO UPDATE or DO NOTHING for a keyed row.
      None when the statement raises, which includes a generated uid that is taken. */
  function UpsertSpotRow(env: Env, i: nat, t: Table, values: Record): Option<Upserted> {
    var key, uid := KeyOf(values), env.newUid(i);
    if env.refuses(i, t, values) then None
    else if key.Some? && key.value in t.index && t.index[key.value] in t.rows then
      var updates, existing := values - CONFLICT_COLS, t.index[key.value];
      if updates == map[] then Some(Upserted(t, None))
      else Some(Upserted(t.(rows := t.rows[existing := t.rows[existing] + updates]), Some(existing)))
    else if uid in t.rows then None
    else
      var rows := t.rows[uid := Defaults(env.now) + values];
      Some(Upserted(Table(rows, if key.Some? then t.index[key.value := uid] else t.index), Some(uid)))
  }

  function Step(env: Env, batch: seq<Record>): RowStep<Table> {
    (t: Table, i: nat) =>
      if i >= |batch| then None
      else
        var r := UpsertSpotRow(env, i, t, batch[i]);
        if r.Some? then Some(r.value.table) else None
  }

  function UidOf(r: Option<Upserted>): seq<string> {
    if r.Some? && r.value.uid.Some? then [r.value.uid.value] else []
  }

  /** The uids written by the good rows among the first `n`, in order. */
  function Touched(env: Env, batch: seq<Record>, t: Table, n: nat): seq<string>
    requires n <= |batch|
  {
    if n == 0 then []
    else
      Touched(env, batch, t, n - 1)
      + UidOf(UpsertSpotRow(env, n - 1, Good(Step(env, batch), t, n - 1), batch[n - 1]))
  }

  lemma RowAt(env: Env, batch: seq<Record>, t: Table, i: nat)
    requires i < |batch|
    ensures var r := UpsertSpotRow(env, i, Good(Step(env, batch), t, i), batch[i]);
            && Touched(env, batch, t, i + 1) == Touched(env, batch, t, i) + UidOf(r)
            && Good(Step(env, batch), t, i + 1) == (if r.Some? then r.value.table else Good(Step(env, batch), t, i))
            && (Fails(Step(env, batch), t, i) <==> r.None?)
  {
  }

  /** Where the row loop stands after `n` rows of a batch that started on table `t`. */
  ghost predicate Progress(
    env: Env, batch: seq<Record>, t: Table, n: nat,
    table: Table, errors: seq<nat>, succeeded: nat, upserted: seq<string>)
  {
    && n <= |batch|
    && table == Good(Step(env, batch), t, n)
    && ListsFailures(Step(env, batch), t, n, errors)
    && succeeded + |errors| == n
    && upserted == Touched(env, batch, t, n)
  }

  lemma NextProgress(
    env: Env, batch: seq<Record>, t: Table, n: nat,
    table: Table, errors: seq<nat>, succeeded: nat, upserted: seq<string>)
    requires n < |batch| && Progress(env, batch, t, n, table, errors, succeeded, upserted)
    ensures var r := UpsertSpotRow(env, n, table, batch[n]);
            if r.None? then Progress(env, batch, t, n + 1, table, errors + [n], succeeded, upserted)
            else Progress(env, batch, t, n + 1, r.value.table, errors, succeeded + 1, upserted + UidOf(r))
  {
    RowAt(env, batch, t, n);
    NextRow(Step(env, batch), t, n, errors);
  }

  /** One of the first `n` rows has this key and a column besides it. */
  predicate Updates(batch: seq<Record>, n: nat, key: Option<Key>) {
    key.Some? && exists i :: 0 <= i < n <= |batch| && KeyOf(batch[i]) == key && batch[i].Keys - CONFLICT_COLS != {}
  }

  /** No row is lost, every row that is new or has changed is listed, and what is listed are rows. */
  predicate CoversChanges(t: Table, t': Table, listed: seq<string>) {
    && t.rows.Keys <= t'.rows.Keys
    && (forall u :: u in t'.rows && (u !in t.rows || t'.rows[u] != t.rows[u]) ==> u in listed)
    && (forall u :: u in listed ==> u in t'.rows)
  }

  lemma CoversChangesInTurn(a: Table, b: Table, c: Table, first: seq<string>, second: seq<string>)
    requires CoversChanges(a, b, first) && CoversChanges(b, c, second)
    ensures CoversChanges(a, c, first + second)
  {
  }

  lemma RowCoversChanges(env: Env, i: nat, t: Table, values: Record)
    ensures var r := UpsertSpotRow(env, i, t, values);
            r.Some? ==> CoversChanges(t, r.value.table, UidOf(r))
  {
  }

  lemma NextCoversChanges(env: Env, batch: seq<Record>, t: Table, n: nat, b: Table, c: Table, first: seq<string>)
    requires n < |batch| && b == Good(Step(env, batch), t, n) && c == Good(Step(env, batch), t, n + 1)
    requires first == Touched(env, batch, t, n) && CoversChanges(t, b, first)
    ensures CoversChanges(t, c, Touched(env, batch, t, n + 1))
  {
    var second := UidOf(UpsertSpotRow(env, n, b, batch[n]));
    RowAt(env, batch, t, n);
    RowCoversChanges(env, n, b, batch[n]);
    CoversChangesInTurn(t, b, c, first, second);
  }

  lemma {:induction false} TouchedCoversChanges(env: Env, batch: seq<Record>, t: Table, n: nat)
    requires n <= |batch|
    ensures CoversChanges(t, Good(Step(env, batch), t, n), Touched(env, batch, t, n))
  {
    if n > 0 {
      var before, after := Good(Step(env, batch), t, n - 1), Good(Step(env, batch), t, n);
      var first := Touched(env, batch, t, n - 1);
      TouchedCoversChanges(env, batch, t, n - 1);
      NextCoversChanges(env, batch, t, n - 1, before, after, first);
    }
  }

  /** What is listed is new, or the batch has a row for its key with something to update. */
  predicate OnlyUpdated(t: Table, t': Table, batch: seq<Record>, n: nat, listed: seq<string>) {
    forall u :: u in listed ==> u in t'.rows && (u !in t.rows || Updates(batch, n, KeyOf(t'.rows[u])))
  }

  lemma RowOnlyUpdates(env: Env, i: nat, t: Table, batch: seq<Record>)
    requires Indexed(t) && i < |batch|
    ensures var r := UpsertSpotRow(env, i, t, batch[i]);
            r.Some? ==>
              && (forall u :: u in t.rows ==>
                    u in r.value.table.rows && KeyOf(r.value.table.rows[u]) == KeyOf(t.rows[u]))
              && OnlyUpdated(t, r.value.table, batch, i + 1, UidOf(r))
  {
    var key := KeyOf(batch[i]);
    if key.Some? && key.value in t.index {
      assert Holds(t, t.index[key.value], key.value);
    }
  }

  lemma OnlyUpdatedInTurn(
    a: Table, b: Table, c: Table, batch: seq<Record>, n: nat, first: seq<string>, second: seq<string>)
    requires n < |batch| && OnlyUpdated(a, b, batch, n, first) && OnlyUpdated(b, c, batch, n + 1, second)
    requires a.rows.Keys <= b.rows.Keys
    requires forall u :: u in b.rows ==> u in c.rows && KeyOf(c.rows[u]) == KeyOf(b.rows[u])
    ensures OnlyUpdated(a, c, batch, n + 1, first + second)
  {
  }

  lemma NextOnlyUpdates(env: Env, batch: seq<Record>, t: Table, n: nat, b: Table, c: Table, first: seq<string>)
    requires n < |batch| && b == Good(Step(env, batch), t, n) && c == Good(Step(env, batch), t, n + 1)
    requires first == Touched(env, batch, t, n)
    requires Indexed(b) && t.rows.Keys <= b.rows.Keys && OnlyUpdated(t, b, batch, n, first)
    ensures OnlyUpdated(t, c, batch, n + 1, Touched(env, batch, t, n + 1))
  {
    var second := UidOf(UpsertSpotRow(env, n, b, batch[n]));
    RowAt(env, batch, t, n);
    RowOnlyUpdates(env, n, b, batch);
    OnlyUpdatedInTurn(t, b, c, batch, n, first, second);
  }

  lemma {:induction false} TouchedIsUpdated(env: Env, batch: seq<Record>, t: Table, n: nat)
    requires n <= |batch| && Indexed(t)
    ensures OnlyUpdated(t, Good(Step(env, batch), t, n), batch, n, Touched(env, batch, t, n))
  {
    if n > 0 {
      var before, after := Good(Step(env, batch), t, n - 1), Good(Step(env, batch), t, n);
      var first := Touched(env, batch, t, n - 1);
      TouchedIsUpdated(env, batch, t, n - 1);
      BatchKeepsKeys(env, batch, t, n - 1);
      NextOnlyUpdates(env, batch, t, n - 1, before, after, first);
    }
  }

  /** The handler. `invalidated` is None when no cache call is made, otherwise the uids whose
      detail pages are invalidated after the list version is bumped: every row that is new or has
      changed, and besides them only rows that the batch had something to update in. */
  method SpotsBulkUpsertHandler(db: Session<Table>, env: Env, batch: seq<Record>, dryRun: bool)
    returns (report: Report, invalidated: Option<seq<string>>)
    modifies db
    ensures Outcome(Step(env, batch), old(db.table), |batch|, dryRun, db.table, report)
    ensures db.savepoints == old(db.savepoints)
    ensures invalidated ==
      if report.failed == 0 && !dryRun then Some(Touched(env, batch, old(db.table), |batch|)) else None
    ensures invalidated.Some? ==>
      && (forall u :: u in db.table.rows && (u !in old(db.table).rows || db.table.rows[u] != old(db.table).rows[u]) ==>
            u in invalidated.value)
      && (forall u :: u in invalidated.value ==> u in db.table.rows)
    ensures invalidated.Some? && Indexed(old(db.table)) ==>
      forall u :: u in invalidated.value ==>
        u !in old(db.table).rows || Updates(batch, |batch|, KeyOf(db.table.rows[u]))
  {
    ghost var before := db.table;
    var errors: seq<nat> := [];
    var succeeded: nat := 0;
    db.BeginNested();
    var upserted: seq<string> := [];
    for index := 0 to |batch|
      invariant db.savepoints == old(db.savepoints) + [before]
      invariant Progress(env, batch, before, index, db.table, errors, succeeded, upserted)
    {
      db.BeginNested();
      var r := UpsertSpotRow(env, index, db.table, batch[index]);
      NextProgress(env, batch, before, index, db.table, errors, succeeded, upserted);
      if r.None? {
        db.Rollback();
        errors := errors + [index];
      } else {
        db.table := r.value.table;
        db.Release();
        succeeded := succeeded + 1;
        upserted := upserted + UidOf(r);
      }
    }
    FailuresSettleOutcome(Step(env, batch), before, |batch|, dryRun, errors);
    TouchedCoversChanges(env, batch, before, |batch|);
    if Indexed(before) {
      TouchedIsUpdated(env, batch, before, |batch|);
    }
    invalidated := None;
    if errors != [] || dryRun {
      db.Rollback();
      if errors != [] {
        succeeded := 0;
      }
    } else {
      db.Release();
      invalidated := Some(upserted);
    }
    report := Report(succeeded, |errors|, dryRun, errors);
  }

  // ---------------------------------------------------------------- what a batch does

  lemma UpsertKeepsIndex(env: Env, i: nat, t: Table, values: Record)
    requires Indexed(t) && UpsertSpotRow(env, i, t, values).Some?
    ensures Indexed(UpsertSpotRow(env, i, t, values).value.table)
  {
    var t' := UpsertSpotRow(env, i, t, values).value.table;
    assert KeyOf(Defaults(env.now) + values) == KeyOf(values);
    forall u, k | Holds(t', u, k) ensures k in t'.index && t'.index[k] == u {
      assert u in t.rows ==> Holds(t, u, k);
    }
  }

  /** A row that is inserted has the columns of the input, and besides them starts as RAW, created
      and updated at the time of the transaction. */
  lemma InsertedRowStartsRaw(env: Env, i: nat, t: Table, values: Record)
    ensures var r := UpsertSpotRow(env, i, t, values);
            r.Some? && r.value.uid.Some? && r.value.uid.value !in t.rows ==>
              var row := r.value.table.rows[r.value.uid.value];
              && (forall col :: col in values ==> col in row && row[col] == values[col])
              && ("pipeline_status" !in values ==> "pipeline_status" in row && row["pipeline_status"] == "RAW")
              && ("created_at" !in values ==> "created_at" in row && row["created_at"] == env.now)
              && ("updated_at" !in values ==> "updated_at" in row && row["updated_at"] == env.now)
              && row.Keys == values.Keys + {"pipeline_status", "created_at", "updated_at"}
  {
  }

  /** A step never loses a row, a key, or a key's uid. */
  predicate Extends(t: Table, t': Table) {
    t.rows.Keys <= t'.rows.Keys && forall k :: k in t.index ==> k in t'.index && t'.index[k] == t.index[k]
  }

  lemma {:induction false} BatchKeepsKeys(env: Env, batch: seq<Record>, t: Table, n: nat)
    requires Indexed(t) && n <= |batch|
    ensures Indexed(Good(Step(env, batch), t, n)) && Extends(t, Good(Step(env, batch), t, n))
  {
    if n > 0 {
      BatchKeepsKeys(env, batch, t, n - 1);
      RowKeepsKeys(env, batch, t, n - 1);
      ExtendsTransitive(t, Good(Step(env, batch), t, n - 1), Good(Step(env, batch), t, n));
    }
  }

  lemma ExtendsTransitive(a: Table, b: Table, c: Table)
    requires Extends(a, b) && Extends(b, c)
    ensures Extends(a, c)
  {
  }

  lemma RowKeepsKeys(env: Env, batch: seq<Record>, t: Table, i: nat)
    requires i < |batch| && Indexed(Good(Step(env, batch), t, i))
    ensures var before, after := Good(Step(env, batch), t, i), Good(Step(env, batch), t, i + 1);
            Indexed(after) && Extends(before, after)
  {
    var before := Good(Step(env, batch), t, i);
    RowAt(env, batch, t, i);
    if UpsertSpotRow(env, i, before, batch[i]).Some? {
      UpsertKeepsIndex(env, i, before, batch[i]);
      UpsertExtends(env, i, before, batch[i]);
    }
  }

  lemma UpsertExtends(env: Env, i: nat, t: Table, values: Record)
    requires UpsertSpotRow(env, i, t, values).Some? && Indexed(t)
    ensures Extends(t, UpsertSpotRow(env, i, t, values).value.table)
  {
  }

  /** The value of a column in the row with a given key, if there is one. */
  function Cell(t: Table, k: Key, col: string): Option<string> {
    if k in t.index && t.index[k] in t.rows && col in t.rows[t.index[k]] then Some(t.rows[t.index[k]][col]) else None
  }

  predicate Keyed(batch: seq<Record>) {
    forall i :: 0 <= i < |batch| ==> KeyOf(batch[i]).Some?
  }

  /** The last value the first `n` rows give to a column of key `k`. */
  function LastWrite(batch: seq<Record>, n: nat, k: Key, col: string): Option<string>
    requires n <= |batch|
  {
    if n == 0 then None
    else if KeyOf(batch[n - 1]) == Some(k) && col in batch[n - 1] then Some(batch[n - 1][col])
    else LastWrite(batch, n - 1, k, col)
  }

  predicate Mentions(batch: seq<Record>, n: nat, k: Key)
    requires n <= |batch|
  {
    exists i :: 0 <= i < n && KeyOf(batch[i]) == Some(k)
  }

  function DefaultFor(now: string, col: string): Option<string> {
    if col in Defaults(now) then Some(Defaults(now)[col]) else None
  }

  /** What a column held before the batch touched it: its old value, or the server default
      for a row the batch inserts. */
  function Base(now: string, batch: seq<Record>, n: nat, t: Table, k: Key, col: string): Option<string>
    requires n <= |batch|
  {
    if k in t.index then Cell(t, k, col)
    else if Mentions(batch, n, k) then DefaultFor(now, col)
    else None
  }

  function Or(a: Option<string>, b: Option<string>): Option<string> {
    if a.Some? then a else b
  }

  lemma UpsertCell(env: Env, i: nat, t: Table, values: Record, k: Key, col: string)
    requires Indexed(t) && KeyOf(values).Some? && UpsertSpotRow(env, i, t, values).Some?
    ensures var t' := UpsertSpotRow(env, i, t, values).value.table;
            && t'.index.Keys == t.index.Keys + {KeyOf(values).value}
            && Cell(t', k, col) ==
               if KeyOf(values) != Some(k) then Cell(t, k, col)
               else if col in values then Some(values[col])
               else if k in t.index then Cell(t, k, col)
               else DefaultFor(env.now, col)
  {
    var t' := UpsertSpotRow(env, i, t, values).value.table;
    var key := KeyOf(values).value;
    if k in t.index {
      assert KeyOf(t.rows[t.index[k]]) == Some(k);
    }
    if k == key {
      if k in t.index {
        var before, after := t.rows[t.index[k]], t'.rows[t.index[k]];
        assert before["source"] == values["source"] && before["external_id"] == values["external_id"];
        assert after == before + (values - CONFLICT_COLS);
      } else {
        assert t'.rows[t'.index[k]] == Defaults(env.now) + values;
      }
    } else if k in t.index {
      UpsertOther(env, i, t, values, t.index[k]);
    }
  }

  lemma UpsertOther(env: Env, i: nat, t: Table, values: Record, u: string)
    requires Indexed(t) && u in t.rows && UpsertSpotRow(env, i, t, values).Some?
    requires KeyOf(t.rows[u]) != KeyOf(values)
    ensures var t' := UpsertSpotRow(env, i, t, values).value.table; u in t'.rows && t'.rows[u] == t.rows[u]
  {
    var key := KeyOf(values);
    assert key.Some? && key.value in t.index ==> KeyOf(t.rows[t.index[key.value]]) == key;
  }

  /** `after` shows in column `col` of key `k` what `n` good rows make of table `t`. */
  predicate Shows(env: Env, batch: seq<Record>, t: Table, n: nat, k: Key, col: string, after: Table)
    requires n <= |batch|
  {
    && (k in after.index <==> k in t.index || Mentions(batch, n, k))
    && Cell(after, k, col) == Or(LastWrite(batch, n, k, col), Base(env.now, batch, n, t, k, col))
  }

  /** Last write wins: after a keyed batch whose rows all went in, every column of every key
      holds the last non-None value the batch gives it, else what it held before; the keys
      are the old ones and those of the batch. */
  lemma {:induction false} LastWriteWins(env: Env, batch: seq<Record>, t: Table, n: nat, k: Key, col: string)
    requires Indexed(t) && Keyed(batch) && n <= |batch| && AllGood(Step(env, batch), t, n)
    ensures Shows(env, batch, t, n, k, col, Good(Step(env, batch), t, n))
  {
    if n == 0 {
      NothingShows(env, batch, t, k, col);
    } else {
      LastWriteWins(env, batch, t, n - 1, k, col);
      LastWriteNext(env, batch, t, n - 1, k, col);
    }
  }

  lemma LastWriteNext(env: Env, batch: seq<Record>, t: Table, n: nat, k: Key, col: string)
    requires Indexed(t) && Keyed(batch) && n < |batch| && AllGood(Step(env, batch), t, n + 1)
    requires Shows(env, batch, t, n, k, col, Good(Step(env, batch), t, n))
    ensures Shows(env, batch, t, n + 1, k, col, Good(Step(env, batch), t, n + 1))
  {
    assert !Fails(Step(env, batch), t, n);
    GoodRowCell(env, batch, t, n, k, col);
    var before, after := Good(Step(env, batch), t, n), Good(Step(env, batch), t, n + 1);
    ShowsNext(env, batch, t, n, k, col, before, after);
  }

  lemma NothingShows(env: Env, batch: seq<Record>, t: Table, k: Key, col: string)
    ensures Shows(env, batch, t, 0, k, col, t)
  {
  }

  lemma ShowsNext(env: Env, batch: seq<Record>, t: Table, n: nat, k: Key, col: string, before: Table, after: Table)
    requires n < |batch| && Shows(env, batch, t, n, k, col, before) && RowShows(env, batch[n], before, after, k, col)
    ensures Shows(env, batch, t, n + 1, k, col, after)
  {
    MentionsOneMore(batch, n, k);
    if LastWrite(batch, n, k, col).Some? {
      WrittenIsMentioned(batch, n, k, col);
    }
  }

  /** What one good row does to one column of one key. */
  predicate RowShows(env: Env, values: Record, before: Table, after: Table, k: Key, col: string) {
    && (k in after.index <==> k in before.index || KeyOf(values) == Some(k))
    && Cell(after, k, col) ==
       if KeyOf(values) != Some(k) then Cell(before, k, col)
       else if col in values then Some(values[col])
       else if k in before.index then Cell(before, k, col)
       else DefaultFor(env.now, col)
  }

  lemma MentionsOneMore(batch: seq<Record>, n: nat, k: Key)
    requires n < |batch|
    ensures Mentions(batch, n + 1, k) <==> Mentions(batch, n, k) || KeyOf(batch[n]) == Some(k)
  {
  }

  lemma GoodRowCell(env: Env, batch: seq<Record>, t: Table, i: nat, k: Key, col: string)
    requires Indexed(t) && Keyed(batch) && i < |batch| && !Fails(Step(env, batch), t, i)
    ensures RowShows(env, batch[i], Good(Step(env, batch), t, i), Good(Step(env, batch), t, i + 1), k, col)
  {
    BatchKeepsKeys(env, batch, t, i);
    RowAt(env, batch, t, i);
    UpsertCell(env, i, Good(Step(env, batch), t, i), batch[i], k, col);
  }

  lemma {:induction false} WrittenIsMentioned(batch: seq<Record>, n: nat, k: Key, col: string)
    requires n <= |batch| && LastWrite(batch, n, k, col).Some?
    ensures Mentions(batch, n, k)
  {
    if !(KeyOf(batch[n - 1]) == Some(k) && col in batch[n - 1]) {
      WrittenIsMentioned(batch, n - 1, k, col);
    }
  }

  /** Rows without a key the batch mentions are untouched. */
  lemma {:induction false} OthersUntouched(env: Env, batch: seq<Record>, t: Table, n: nat, u: string)
    requires Indexed(t) && Keyed(batch) && n <= |batch| && u in t.rows
    requires KeyOf(t.rows[u]).None? || !Mentions(batch, n, KeyOf(t.rows[u]).value)
    ensures var t' := Good(Step(env, batch), t, n); u in t'.rows && t'.rows[u] == t.rows[u]
  {
    if n > 0 {
      var before := Good(Step(env, batch), t, n - 1);
      OthersUntouched(env, batch, t, n - 1, u);
      BatchKeepsKeys(env, batch, t, n - 1);
      var key := KeyOf(t.rows[u]);
      assert KeyOf(batch[n - 1]) != key;
      if UpsertSpotRow(env, n - 1, before, batch[n - 1]).Some? {
        UpsertOther(env, n - 1, before, batch[n - 1], u);
      }
    }
  }

  /** When every key of the batch already exists, no row is inserted. */
  lemma {:induction false} NothingInserted(env: Env, batch: seq<Record>, t: Table, n: nat)
    requires Indexed(t) && Keyed(batch) && n <= |batch|
    requires forall i :: 0 <= i < |batch| ==> KeyOf(batch[i]).value in t.index
    ensures var t' := Good(Step(env, batch), t, n); t'.rows.Keys == t.rows.Keys && t'.index == t.index
  {
    if n > 0 {
      NothingInserted(env, batch, t, n - 1);
      NothingInsertedNext(env, batch, t, n - 1);
    }
  }

  lemma NothingInsertedNext(env: Env, batch: seq<Record>, t: Table, n: nat)
    requires Indexed(t) && Keyed(batch) && n < |batch| && KeyOf(batch[n]).value in t.index
    ensures var before, after := Good(Step(env, batch), t, n), Good(Step(env, batch), t, n + 1);
            after.rows.Keys == before.rows.Keys && after.index == before.index
  {
    var before := Good(Step(env, batch), t, n);
    BatchKeepsKeys(env, batch, t, n);
    RowAt(env, batch, t, n);
    NoInsertForKnownKey(env, n, before, batch[n]);
  }

  lemma NoInsertForKnownKey(env: Env, i: nat, t: Table, values: Record)
    requires Indexed(t) && KeyOf(values).Some? && KeyOf(values).value in t.index
    ensures UpsertSpotRow(env, i, t, values).Some? ==>
      var t' := UpsertSpotRow(env, i, t, values).value.table; t'.rows.Keys == t.rows.Keys && t'.index == t.index
  {
    assert Holds(t, t.index[KeyOf(values).value], KeyOf(values).value);
  }

  lemma BatchKeysExist(env: Env, batch: seq<Record>, t: Table, i: nat)
    requires Indexed(t) && Keyed(batch) && AllGood(Step(env, batch), t, |batch|) && i < |batch|
    ensures KeyOf(batch[i]).value in Good(Step(env, batch), t, |batch|).index
  {
    LastWriteWins(env, batch, t, |batch|, KeyOf(batch[i]).value, "");
  }

  lemma SameCellTwice(env: Env, env': Env, batch: seq<Record>, t: Table, once: Table, twice: Table, k: Key, col: string)
    requires Indexed(t) && Indexed(once) && Keyed(batch) && Mentions(batch, |batch|, k) && k in once.index
    requires AllGood(Step(env, batch), t, |batch|) && once == Good(Step(env, batch), t, |batch|)
    requires AllGood(Step(env', batch), once, |batch|) && twice == Good(Step(env', batch), once, |batch|)
    ensures Cell(twice, k, col) == Cell(once, k, col)
  {
    LastWriteWins(env, batch, t, |batch|, k, col);
    LastWriteWins(env', batch, once, |batch|, k, col);
  }

  lemma SameRowTwice(env: Env, env': Env, batch: seq<Record>, t: Table, once: Table, twice: Table, u: string)
    requires Indexed(t) && Indexed(once) && Keyed(batch) && u in once.rows
    requires twice.rows.Keys == once.rows.Keys && twice.index == once.index
    requires AllGood(Step(env, batch), t, |batch|) && once == Good(Step(env, batch), t, |batch|)
    requires AllGood(Step(env', batch), once, |batch|) && twice == Good(Step(env', batch), once, |batch|)
    ensures twice.rows[u] == once.rows[u]
  {
    var key := KeyOf(once.rows[u]);
    if key.None? || !Mentions(batch, |batch|, key.value) {
      OthersUntouched(env', batch, once, |batch|, u);
    } else {
      assert Holds(once, u, key.value);
      forall col ensures Cell(twice, key.value, col) == Cell(once, key.value, col) {
        SameCellTwice(env, env', batch, t, once, twice, key.value, col);
      }
      SameCellsSameRecord(twice, once, key.value);
    }
  }

  /** Idempotence: applying the same keyed batch again, whatever uids would be generated,
      leaves the table as the first application left it. */
  lemma SameBatchTwice(env: Env, env': Env, batch: seq<Record>, t: Table)
    requires Indexed(t) && Keyed(batch)
    requires AllGood(Step(env, batch), t, |batch|)
    requires AllGood(Step(env', batch), Good(Step(env, batch), t, |batch|), |batch|)
    ensures var once := Good(Step(env, batch), t, |batch|);
            Good(Step(env', batch), once, |batch|) == once
  {
    var once := Good(Step(env, batch), t, |batch|);
    var twice := Good(Step(env', batch), once, |batch|);
    BatchKeepsKeys(env, batch, t, |batch|);
    forall i: nat | i < |batch| ensures KeyOf(batch[i]).value in once.index {
      BatchKeysExist(env, batch, t, i);
    }
    NothingInserted(env', batch, once, |batch|);
    forall u | u in once.rows ensures twice.rows[u] == once.rows[u] {
      SameRowTwice(env, env', batch, t, once, twice, u);
    }
    assert twice.rows == once.rows;
  }

  lemma SameCellsSameRecord(a: Table, b: Table, k: Key)
    requires k in a.index && a.index[k] in a.rows && k in b.index && b.index[k] in b.rows
    requires forall col :: Cell(a, k, col) == Cell(b, k, col)
    ensures a.rows[a.index[k]] == b.rows[b.index[k]]
  {
    var x, y := a.rows[a.index[k]], b.rows[b.index[k]];
    forall col ensures col in x <==> col in y {
      assert Cell(a, k, col) == Cell(b, k, col);
    }
    forall col | col in x ensures x[col] == y[col] {
      assert Cell(a, k, col) == Cell(b, k, col);
    }
  }
}
