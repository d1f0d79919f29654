/** Bulk upsert of business info (vivacapi/workers/spot_business_info_bulk.py): rows name
    their spot by external id, which must resolve to exactly one spot. */
module BusinessInfoBulk {
  import opened Wrappers
  import opened Batch
  import SpotsBulk

  type Record = map<string, string>

  /** spot_business_info by spot uid, which is unique. */
  type Table = map<string, Record>

  /** The external id of every spot, by spot uid; it is not unique and may be NULL. */
  type Spots = map<string, Option<string>>

  function ExternalIds(t: SpotsBulk.Table): Spots {
    map u | u in t.rows :: if "external_id" in t.rows[u] then Some(t.rows[u]["external_id"]) else None
  }

  datatype Row = Row(externalId: string, fields: Record)

  /** Which rows the database refuses for any reason not modelled here. */
  type Refusal = (nat, Table, Row) -> bool

  function Owners(spots: Spots, externalId: string): set<string> {
    set u | u in spots && spots[u] == Some(externalId)
  }

  /** `_upsert_business_info_row`: non-None fields overwrite, a missing row is added. */
  function UpsertBusinessInfoRow(t: Table, spotUid: string, row: Row): Table {
    t[spotUid := (if spotUid in t then t[spotUid] else map[]) + row.fields]
  }

  predicate OwnedBy(spots: Spots, externalId: string, u: string) {
    Owners(spots, externalId) == {u}
  }

  /** A row goes in exactly when its external id belongs to exactly one spot and the database
      accepts it. */
  ghost function Write(spots: Spots, refuses: Refusal, i: nat, t: Table, row: Row): Option<Table> {
    if u :| OwnedBy(spots, row.externalId, u) then
      if refuses(i, t, row) then None else Some(UpsertBusinessInfoRow(t, u, row))
    else None
  }

  ghost function Step(spots: Spots, refuses: Refusal, batch: seq<Row>): RowStep<Table> {
    (t: Table, i: nat) => if i < |batch| then Write(spots, refuses, i, t, batch[i]) else None
  }

  // ---------------------------------------------------------------- external ids

  /** The (external id, uid) rows of SELECT ... WHERE external_id IN (...). */
  ghost predicate IsSelection(spots: Spots, wanted: set<string>, rows: seq<(string, string)>) {
    && (forall i, j :: 0 <= i < j < |rows| ==> rows[i].1 != rows[j].1)
    && (forall e, u :: (e, u) in rows <==> e in wanted && u in Owners(spots, e))
  }

  method SelectExternalIds(spots: Spots, wanted: set<string>) returns (rows: seq<(string, string)>)
    ensures IsSelection(spots, wanted, rows)
  {
    rows := [];
    var rest := spots.Keys;
    while rest != {}
      invariant rest <= spots.Keys
      invariant forall i, j :: 0 <= i < j < |rows| ==> rows[i].1 != rows[j].1
      invariant forall e, u :: (e, u) in rows <==> e in wanted && u in Owners(spots, e) && u !in rest
      decreases |rest|
    {
      var uid :| uid in rest;
      rest := rest - {uid};
      if spots[uid].Some? && spots[uid].value in wanted {
        assert forall i :: 0 <= i < |rows| ==> rows[i] in rows;
        rows := rows + [(spots[uid].value, uid)];
      }
    }
  }

  /** The uids that a list of rows gives for an external id, in order. */
  function UidsFor(rows: seq<(string, string)>, externalId: string): seq<string> {
    if rows == [] then []
    else
      var (e, u) := rows[|rows| - 1];
      UidsFor(rows[..|rows| - 1], externalId) + if e == externalId then [u] else []
  }

  function UidsIn(mapping: map<string, seq<string>>, externalId: string): seq<string> {
    if externalId in mapping then mapping[externalId] else []
  }

  ghost predicate Maps(mapping: map<string, seq<string>>, rows: seq<(string, string)>) {
    forall e :: UidsIn(mapping, e) == UidsFor(rows, e)
  }

  /** The loop of `_build_external_id_mapping`. */
  method BuildExternalIdMapping(rows: seq<(string, string)>) returns (mapping: map<string, seq<string>>)
    ensures Maps(mapping, rows)
  {
    mapping := map[];
    for i := 0 to |rows|
      invariant Maps(mapping, rows[..i])
    {
      var (e, u) := rows[i];
      assert rows[..i + 1][..i] == rows[..i];
      mapping := mapping[e := UidsIn(mapping, e) + [u]];
    }
    assert rows[..|rows|] == rows;
  }

  lemma {:induction false} UidsForMembers(rows: seq<(string, string)>, e: string)
    requires forall i, j :: 0 <= i < j < |rows| ==> rows[i].1 != rows[j].1
    ensures forall u :: u in UidsFor(rows, e) <==> (e, u) in rows
    ensures forall i, j :: 0 <= i < j < |UidsFor(rows, e)| ==> UidsFor(rows, e)[i] != UidsFor(rows, e)[j]
  {
    if rows != [] {
      var before, last := rows[..|rows| - 1], rows[|rows| - 1];
      UidsForMembers(before, e);
      assert rows == before + [last];
      assert forall i :: 0 <= i < |before| ==> before[i].1 != last.1;
      assert forall i :: 0 <= i < |UidsFor(before, e)| ==> UidsFor(before, e)[i] in UidsFor(before, e);
    }
  }

  /** The mapping's list for a wanted external id has one entry exactly when the id has one
      owner: none means not found, more than one ambiguous. */
  lemma OneUidIffOneOwner(spots: Spots, wanted: set<string>, rows: seq<(string, string)>, e: string)
    requires IsSelection(spots, wanted, rows) && e in wanted
    ensures |UidsFor(rows, e)| == 1 ==> OwnedBy(spots, e, UidsFor(rows, e)[0])
    ensures forall u :: OwnedBy(spots, e, u) ==> |UidsFor(rows, e)| == 1 && UidsFor(rows, e)[0] == u
  {
    var uids := UidsFor(rows, e);
    UidsForMembers(rows, e);
    assert forall u :: u in uids <==> u in Owners(spots, e);
    assert |uids| > 1 ==> uids[0] != uids[1];
    forall u | OwnedBy(spots, e, u) ensures |uids| == 1 && uids[0] == u {
      assert u in Owners(spots, e) && u in uids;
      assert forall i :: 0 <= i < |uids| ==> uids[i] in uids && uids[i] in Owners(spots, e);
    }
  }

  /** The mapping's list for an external id has one entry exactly when the id has one owner,
      and then it is that owner. */
  ghost predicate Finds(spots: Spots, mapping: map<string, seq<string>>, externalId: string) {
    var uids := UidsIn(mapping, externalId);
    && (|uids| == 1 ==> OwnedBy(spots, externalId, uids[0]))
    && (forall u :: OwnedBy(spots, externalId, u) ==> |uids| == 1 && uids[0] == u)
  }

  /** The lookup at the start of a run. */
  method ResolveExternalIds(spots: Spots, batch: seq<Row>) returns (mapping: map<string, seq<string>>)
    ensures forall i :: 0 <= i < |batch| ==> Finds(spots, mapping, batch[i].externalId)
  {
    var wanted := set i | 0 <= i < |batch| :: batch[i].externalId;
    var rows := SelectExternalIds(spots, wanted);
    mapping := BuildExternalIdMapping(rows);
    forall i | 0 <= i < |batch| ensures Finds(spots, mapping, batch[i].externalId) {
      assert UidsIn(mapping, batch[i].externalId) == UidsFor(rows, batch[i].externalId);
      OneUidIffOneOwner(spots, wanted, rows, batch[i].externalId);
    }
  }

  /** What row `i` does, in terms of the uids found for its external id. */
  lemma RowAt(spots: Spots, refuses: Refusal, batch: seq<Row>, t: Table, i: nat, mapping: map<string, seq<string>>)
    requires i < |batch| && Finds(spots, mapping, batch[i].externalId)
    ensures var step := Step(spots, refuses, batch);
            var before, uids := Good(step, t, i), UidsIn(mapping, batch[i].externalId);
            && (Fails(step, t, i) <==> |uids| != 1 || refuses(i, before, batch[i]))
            && Good(step, t, i + 1) ==
               if Fails(step, t, i) then before else UpsertBusinessInfoRow(before, uids[0], batch[i])
  {
  }

  /** Where the row loop stands after `n` rows of a batch that started on table `t`. */
  ghost predicate Progress(
    spots: Spots, refuses: Refusal, batch: seq<Row>, t: Table, n: nat, table: Table, errors: seq<nat>, succeeded: nat)
  {
    && n <= |batch|
    && table == Good(Step(spots, refuses, batch), t, n)
    && ListsFailures(Step(spots, refuses, batch), t, n, errors)
    && succeeded + |errors| == n
  }

  lemma NextProgress(
    spots: Spots, refuses: Refusal, batch: seq<Row>, t: Table, n: nat, table: Table, errors: seq<nat>, succeeded: nat,
    mapping: map<string, seq<string>>)
    requires n < |batch| && Progress(spots, refuses, batch, t, n, table, errors, succeeded)
    requires Finds(spots, mapping, batch[n].externalId)
    ensures var uids := UidsIn(mapping, batch[n].externalId);
            if |uids| != 1 || refuses(n, table, batch[n]) then
              Progress(spots, refuses, batch, t, n + 1, table, errors + [n], succeeded)
            else
              var table' := UpsertBusinessInfoRow(table, uids[0], batch[n]);
              Progress(spots, refuses, batch, t, n + 1, table', errors, succeeded + 1)
  {
    RowAt(spots, refuses, batch, t, n, mapping);
    NextRow(Step(spots, refuses, batch), t, n, errors);
  }

  // ---------------------------------------------------------------- handler

  method SpotBusinessInfoBulkUpsertHandler(
    db: Session<Table>, spots: Spots, refuses: Refusal, batch: seq<Row>, dryRun: bool)
    returns (report: Report)
    modifies db
    ensures Outcome(Step(spots, refuses, batch), old(db.table), |batch|, dryRun, db.table, report)
    ensures db.savepoints == old(db.savepoints)
  {
    ghost var before := db.table;
    var mapping := ResolveExternalIds(spots, batch);
    var errors: seq<nat> := [];
    var succeeded: nat := 0;
    db.BeginNested();
    for index := 0 to |batch|
      invariant db.savepoints == old(db.savepoints) + [before]
      invariant Progress(spots, refuses, batch, before, index, db.table, errors, succeeded)
    {
      db.BeginNested();
      var row := batch[index];
      var uids := UidsIn(mapping, row.externalId);
      NextProgress(spots, refuses, batch, before, index, db.table, errors, succeeded, mapping);
      if |uids| != 1 || refuses(index, db.table, row) {
        db.Rollback();
        errors := errors + [index];
      } else {
        db.table := UpsertBusinessInfoRow(db.table, uids[0], row);
        db.Release();
        succeeded := succeeded + 1;
      }
    }
    FailuresSettleOutcome(Step(spots, refuses, batch), before, |batch|, dryRun, errors);
    if errors != [] || dryRun {
      db.Rollback();
      if errors != [] {
        succeeded := 0;
      }
    } else {
      db.Release();
    }
    report := Report(succeeded, |errors|, dryRun, errors);
  }

  // ---------------------------------------------------------------- what a batch does

  function Cell(t: Table, u: string, col: string): Option<string> {
    if u in t && col in t[u] then Some(t[u][col]) else None
  }

  /** The last value the first `n` rows give to a column of spot `u`. */
  function LastWrite(spots: Spots, batch: seq<Row>, n: nat, u: string, col: string): Option<string>
    requires n <= |batch|
  {
    if n == 0 then None
    else if OwnedBy(spots, batch[n - 1].externalId, u) && col in batch[n - 1].fields then
      Some(batch[n - 1].fields[col])
    else LastWrite(spots, batch, n - 1, u, col)
  }

  lemma UpsertCell(t: Table, owner: string, row: Row, u: string, col: string)
    ensures Cell(UpsertBusinessInfoRow(t, owner, row), u, col) ==
      if u == owner && col in row.fields then Some(row.fields[col]) else Cell(t, u, col)
    ensures UpsertBusinessInfoRow(t, owner, row).Keys == t.Keys + {owner}
  {
  }

  lemma GoodRowHasOwner(spots: Spots, refuses: Refusal, batch: seq<Row>, t: Table, i: nat) returns (owner: string)
    requires i < |batch| && !Fails(Step(spots, refuses, batch), t, i)
    ensures OwnedBy(spots, batch[i].externalId, owner)
    ensures Good(Step(spots, refuses, batch), t, i + 1)
         == UpsertBusinessInfoRow(Good(Step(spots, refuses, batch), t, i), owner, batch[i])
  {
    owner :| OwnedBy(spots, batch[i].externalId, owner);
    assert forall u :: OwnedBy(spots, batch[i].externalId, u) ==> u in Owners(spots, batch[i].externalId);
  }

  /** Last write wins, and nothing else changes: after a batch whose rows all went in, each
      column of each spot's info holds the last non-None value given through an external id
      that this spot alone owns, else its old value. */
  lemma {:induction false} LastWriteWins(
    spots: Spots, refuses: Refusal, batch: seq<Row>, t: Table, n: nat, u: string, col: string)
    requires n <= |batch| && AllGood(Step(spots, refuses, batch), t, n)
    ensures var t' := Good(Step(spots, refuses, batch), t, n);
            && t.Keys <= t'.Keys
            && Cell(t', u, col) ==
               if LastWrite(spots, batch, n, u, col).Some? then LastWrite(spots, batch, n, u, col) else Cell(t, u, col)
  {
    if n > 0 {
      LastWriteWins(spots, refuses, batch, t, n - 1, u, col);
      LastWriteNext(spots, refuses, batch, t, n - 1, u, col);
    }
  }

  lemma LastWriteNext(spots: Spots, refuses: Refusal, batch: seq<Row>, t: Table, n: nat, u: string, col: string)
    requires n < |batch| && !Fails(Step(spots, refuses, batch), t, n)
    ensures var before, after := Good(Step(spots, refuses, batch), t, n), Good(Step(spots, refuses, batch), t, n + 1);
            && before.Keys <= after.Keys
            && Cell(after, u, col) ==
               if OwnedBy(spots, batch[n].externalId, u) && col in batch[n].fields then Some(batch[n].fields[col])
               else Cell(before, u, col)
  {
    var before := Good(Step(spots, refuses, batch), t, n);
    var owner := GoodRowHasOwner(spots, refuses, batch, t, n);
    UpsertCell(before, owner, batch[n], u, col);
    assert OwnedBy(spots, batch[n].externalId, u) ==> u in Owners(spots, batch[n].externalId);
  }
}
