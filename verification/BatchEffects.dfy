/** When a batch of business infos, whose rows are read without locks
    (vivacapi/workers/spot_business_info_bulk.py:41-53), still has the effect of the batch
    applied in one go: exactly when every column it left out of its UPDATEs still holds the
    value that was read, and every external id still has one owner. */
module BatchEffects {
  import opened Wrappers
  import opened BulkTables

  predicate IsFor(row: Row, ids: Ids, key: RowKey) {
    row.InfoRow? && row.externalId in ids && InfoOf(ids[row.externalId]) == key
  }

  /** Some row sent a value for the column. */
  ghost predicate Sends(rows: seq<Row>, ids: Ids, views: seq<Option<Record>>, key: RowKey, col: string)
    requires |views| == |rows|
  {
    exists i :: 0 <= i < |rows| && IsFor(rows[i], ids, key) && col in Sent(rows[i], views[i])
  }

  /** The last value the batch gives to a column. */
  function LastValue(rows: seq<Row>, ids: Ids, key: RowKey, col: string): Option<string> {
    var n := |rows|;
    if n == 0 then None
    else if IsFor(rows[n - 1], ids, key) && col in rows[n - 1].fields then Some(rows[n - 1].fields[col])
    else LastValue(rows[..n - 1], ids, key, col)
  }

  /** The columns a transaction has sent hold, in its own rows, the last value of the batch. */
  ghost predicate OwnWrites(rows: seq<Row>, ids: Ids, views: seq<Option<Record>>, overlay: Table)
    requires |views| == |rows|
  {
    forall key, col :: Sends(rows, ids, views, key, col) ==>
      key in overlay && Cell(overlay, key, col) == LastValue(rows, ids, key, col)
  }

  /** The columns that the batch mentions and never sent, because it read the value it would
      have sent, hold that value. */
  ghost predicate StillHolds(t: Table, rows: seq<Row>, ids: Ids, views: seq<Option<Record>>)
    requires |views| == |rows|
  {
    forall key, col :: LastValue(rows, ids, key, col).Some? && !Sends(rows, ids, views, key, col) ==>
      Cell(t, key, col) == LastValue(rows, ids, key, col)
  }

  lemma SendsOneMore(rows: seq<Row>, ids: Ids, views: seq<Option<Record>>, key: RowKey, col: string)
    requires |views| == |rows| > 0
    ensures var n := |rows|;
            Sends(rows, ids, views, key, col) <==>
              Sends(rows[..n - 1], ids, views[..n - 1], key, col)
              || (IsFor(rows[n - 1], ids, key) && col in Sent(rows[n - 1], views[n - 1]))
  {
    var n := |rows|;
    if Sends(rows, ids, views, key, col) {
      var i :| 0 <= i < n && IsFor(rows[i], ids, key) && col in Sent(rows[i], views[i]);
      assert i < n - 1 ==> rows[..n - 1][i] == rows[i] && views[..n - 1][i] == views[i];
    }
    if Sends(rows[..n - 1], ids, views[..n - 1], key, col) {
      var i :| 0 <= i < n - 1 && IsFor(rows[..n - 1][i], ids, key) && col in Sent(rows[..n - 1][i], views[..n - 1][i]);
      assert rows[..n - 1][i] == rows[i] && views[..n - 1][i] == views[i];
    }
  }

  // ---------------------------------------------------------------- the two effects

  /** As meant: a mentioned column ends with its last value. */
  lemma {:induction false} MeantCell(t: Table, rows: seq<Row>, ids: Ids, key: RowKey, col: string)
    requires key.InfoOf? && ApplyIds(t, rows, ids).Some?
    ensures Cell(ApplyIds(t, rows, ids).value, key, col) ==
      if LastValue(rows, ids, key, col).Some? then LastValue(rows, ids, key, col) else Cell(t, key, col)
    decreases |rows|
  {
    var n := |rows|;
    if n > 0 {
      MeantCell(t, rows[..n - 1], ids, key, col);
    }
  }

  /** As executed: a column that was never sent is untouched. */
  lemma {:induction false} UnsentCell(
    t: Table, rows: seq<Row>, ids: Ids, views: seq<Option<Record>>, key: RowKey, col: string)
    requires key.InfoOf? && |views| == |rows| && ApplySeen(t, rows, ids, views).Some?
    requires !Sends(rows, ids, views, key, col)
    ensures Cell(ApplySeen(t, rows, ids, views).value, key, col) == Cell(t, key, col)
    decreases |rows|
  {
    var n := |rows|;
    if n > 0 {
      SendsOneMore(rows, ids, views, key, col);
      UnsentCell(t, rows[..n - 1], ids, views[..n - 1], key, col);
    }
  }

  /** Both go through, to the same rows, and do the same to spots. */
  lemma {:induction false} SameRowsAndSpots(t: Table, rows: seq<Row>, ids: Ids, views: seq<Option<Record>>)
    requires |views| == |rows| && ApplySeen(t, rows, ids, views).Some?
    ensures ApplyIds(t, rows, ids).Some?
    ensures var seen, meant := ApplySeen(t, rows, ids, views).value, ApplyIds(t, rows, ids).value;
            && seen.Keys == meant.Keys
            && forall k :: k in seen && k.SpotAt? ==> seen[k] == meant[k]
    decreases |rows|
  {
    var n := |rows|;
    if n > 0 {
      SameRowsAndSpots(t, rows[..n - 1], ids, views[..n - 1]);
      var seen, meant := ApplySeen(t, rows[..n - 1], ids, views[..n - 1]).value, ApplyIds(t, rows[..n - 1], ids).value;
      SameRowAndSpots(seen, meant, rows[n - 1], ids, views[n - 1]);
    }
  }

  lemma SameRowAndSpots(seen: Table, meant: Table, row: Row, ids: Ids, read: Option<Record>)
    requires seen.Keys == meant.Keys && forall k :: k in seen && k.SpotAt? ==> seen[k] == meant[k]
    requires WriteSeen(seen, row, ids, read).Some?
    ensures Write(meant, row, ids).Some?
    ensures var seen', meant' := WriteSeen(seen, row, ids, read).value, Write(meant, row, ids).value;
            && seen'.Keys == meant'.Keys
            && forall k :: k in seen' && k.SpotAt? ==> seen'[k] == meant'[k]
  {
    if row.SpotRow? {
      assert Lookup(seen, SpotAt(SpotKeyOf(row))) == Lookup(meant, SpotAt(SpotKeyOf(row)));
    }
  }

  lemma SameCells(a: Table, b: Table)
    requires a.Keys == b.Keys && forall k :: k in a && k.SpotAt? ==> a[k] == b[k]
    requires forall k: RowKey, col: string :: k.InfoOf? ==> Cell(a, k, col) == Cell(b, k, col)
    ensures a == b
  {
    forall k | k in a && k.InfoOf? ensures a[k] == b[k] {
      assert forall col :: col in a[k] <==> Cell(a, k, col).Some?;
      assert forall col :: col in b[k] <==> Cell(b, k, col).Some?;
      assert forall col :: col in a[k] ==> Some(a[k][col]) == Cell(a, k, col) == Cell(b, k, col) == Some(b[k][col]);
    }
  }

  /** With the ids it resolved, an open transaction's commit is the batch in one go exactly
      when what it left out still holds. */
  lemma CommitIsBatchIffHolds(t: Table, rows: seq<Row>, ids: Ids, views: seq<Option<Record>>, overlay: Table)
    requires Pending(t, rows, ids, views, overlay) && OwnWrites(rows, ids, views, overlay)
    ensures ApplyIds(t, rows, ids) == Some(t + overlay) <==> StillHolds(t, rows, ids, views)
  {
    SameRowsAndSpots(t, rows, ids, views);
    var seen, meant := t + overlay, ApplyIds(t, rows, ids).value;
    forall key: RowKey, col: string | key.InfoOf?
      ensures Cell(meant, key, col) ==
        (if LastValue(rows, ids, key, col).Some? then LastValue(rows, ids, key, col) else Cell(t, key, col))
      ensures Sends(rows, ids, views, key, col) ==> Cell(seen, key, col) == LastValue(rows, ids, key, col)
      ensures !Sends(rows, ids, views, key, col) ==> Cell(seen, key, col) == Cell(t, key, col)
    {
      MeantCell(t, rows, ids, key, col);
      if !Sends(rows, ids, views, key, col) {
        UnsentCell(t, rows, ids, views, key, col);
      }
    }
    forall key, col | LastValue(rows, ids, key, col).Some? ensures key.InfoOf? {
      LastValueIsOfInfo(rows, ids, key, col);
    }
    if StillHolds(t, rows, ids, views) {
      forall key, col | Sends(rows, ids, views, key, col) ensures LastValue(rows, ids, key, col).Some? {
        SentHasLastValue(rows, ids, views, key, col);
      }
      SameCells(seen, meant);
    }
  }

  lemma {:induction false} LastValueIsOfInfo(rows: seq<Row>, ids: Ids, key: RowKey, col: string)
    requires LastValue(rows, ids, key, col).Some?
    ensures key.InfoOf?
    decreases |rows|
  {
    var n := |rows|;
    if !(IsFor(rows[n - 1], ids, key) && col in rows[n - 1].fields) {
      LastValueIsOfInfo(rows[..n - 1], ids, key, col);
    }
  }

  lemma {:induction false} SentHasLastValue(
    rows: seq<Row>, ids: Ids, views: seq<Option<Record>>, key: RowKey, col: string)
    requires |views| == |rows| && Sends(rows, ids, views, key, col)
    ensures LastValue(rows, ids, key, col).Some?
    decreases |rows|
  {
    var n := |rows|;
    SendsOneMore(rows, ids, views, key, col);
    if !(IsFor(rows[n - 1], ids, key) && col in rows[n - 1].fields) {
      SentHasLastValue(rows[..n - 1], ids, views[..n - 1], key, col);
    }
  }

  // ---------------------------------------------------------------- the ids

  lemma {:induction false} ApplyReadsIds(t: Table, rows: seq<Row>, ids: Ids, ids': Ids)
    requires forall e :: e in ExternalIds(rows) ==> e in ids && e in ids' && ids[e] == ids'[e]
    ensures ApplyIds(t, rows, ids) == ApplyIds(t, rows, ids')
    decreases |rows|
  {
    var n := |rows|;
    if n > 0 {
      assert forall i :: 0 <= i < n - 1 ==> rows[..n - 1][i] == rows[i];
      assert rows[n - 1].InfoRow? ==> rows[n - 1].externalId in ExternalIds(rows);
      ApplyReadsIds(t, rows[..n - 1], ids, ids');
    }
  }

  lemma {:induction false} UnresolvedRaises(t: Table, rows: seq<Row>, ids: Ids, i: nat)
    requires i < |rows| && rows[i].InfoRow? && rows[i].externalId !in ids
    ensures ApplyIds(t, rows, ids) == None
    decreases |rows|
  {
    var n := |rows|;
    if i < n - 1 {
      UnresolvedRaises(t, rows[..n - 1], ids, i);
    }
  }

  /** Every external id of the batch has exactly one owner. */
  ghost predicate StillOwned(t: Table, rows: seq<Row>) {
    forall e :: e in ExternalIds(rows) ==> HasOneOwner(t, e)
  }

  /** The commit of a transaction is its batch, applied in one go to the committed table,
      exactly when its external ids still have one owner each and the columns it left out
      still hold what it read. */
  lemma CommitIsBatchIff(t: Table, rows: seq<Row>, ids: Ids, views: seq<Option<Record>>, overlay: Table)
    requires Pending(t, rows, ids, views, overlay) && OwnWrites(rows, ids, views, overlay)
    requires forall e :: e in ids ==> Owns(t, e, ids[e])
    ensures ApplyBatch(t, rows) == Some(t + overlay) <==> StillOwned(t, rows) && StillHolds(t, rows, ids, views)
  {
    if StillOwned(t, rows) {
      forall e | e in ExternalIds(rows) ensures e in ids && e in Resolve(t, rows) && ids[e] == Resolve(t, rows)[e] {
        var i :| 0 <= i < |rows| && rows[i].InfoRow? && rows[i].externalId == e;
        assert Resolved(rows, ids);
        assert OwnedBy(t, e, OwnerOf(t, e)) && Owns(t, e, ids[e]);
      }
      ApplyReadsIds(t, rows, ids, Resolve(t, rows));
      CommitIsBatchIffHolds(t, rows, ids, views, overlay);
    } else {
      var e :| e in ExternalIds(rows) && !HasOneOwner(t, e);
      var i :| 0 <= i < |rows| && rows[i].InfoRow? && rows[i].externalId == e;
      UnresolvedRaises(t, rows, Resolve(t, rows), i);
    }
  }

  // ---------------------------------------------------------------- keeping OwnWrites

  lemma NothingWritten(ids: Ids)
    ensures OwnWrites([], ids, [], map[])
  {
  }

  lemma SpotRowOwnWrites(
    rows: seq<Row>, n: nat, ids: Ids, views: seq<Option<Record>>, overlay: Table, key: RowKey, value: Record)
    requires n < |rows| && n < |views| && OwnWrites(rows[..n], ids, views[..n], overlay)
    requires rows[n].SpotRow? && key.SpotAt?
    ensures OwnWrites(rows[..n + 1], ids, views[..n + 1], overlay[key := value])
  {
    var rows', views' := rows[..n + 1], views[..n + 1];
    assert rows'[..n] == rows[..n] && views'[..n] == views[..n];
    forall k, col | Sends(rows', ids, views', k, col)
      ensures k in overlay[key := value] && Cell(overlay[key := value], k, col) == LastValue(rows', ids, k, col)
    {
      SendsOneMore(rows', ids, views', k, col);
      assert Sends(rows[..n], ids, views[..n], k, col);
      SentHasLastValue(rows[..n], ids, views[..n], k, col);
      LastValueIsOfInfo(rows[..n], ids, k, col);
    }
  }

  /** A transaction's own rows after it has sent what an info row has to send. */
  function Sending(t: Table, overlay: Table, key: RowKey, row: Row, view: Option<Record>): Table
    requires row.InfoRow?
  {
    var current := if key in t + overlay then (t + overlay)[key] else map[];
    if Writes(row, view) then overlay[key := current + Sent(row, view)] else overlay
  }

  /** An info row that read its own transaction's row, if there was one, and now writes. */
  lemma InfoRowOwnWrites(
    t: Table, rows: seq<Row>, n: nat, ids: Ids, views: seq<Option<Record>>, overlay: Table, overlay': Table)
    requires n < |rows| && n < |views| && OwnWrites(rows[..n], ids, views[..n], overlay)
    requires rows[n].InfoRow? && rows[n].externalId in ids
    requires var key := InfoOf(ids[rows[n].externalId]);
             && (key in overlay ==> views[n] == Some(overlay[key]))
             && overlay' == Sending(t, overlay, key, rows[n], views[n])
    ensures OwnWrites(rows[..n + 1], ids, views[..n + 1], overlay')
  {
    var rows', views', key := rows[..n + 1], views[..n + 1], InfoOf(ids[rows[n].externalId]);
    assert rows'[..n] == rows[..n] && views'[..n] == views[..n];
    forall k, col | Sends(rows', ids, views', k, col)
      ensures k in overlay' && Cell(overlay', k, col) == LastValue(rows', ids, k, col)
    {
      SendsOneMore(rows', ids, views', k, col);
      if k == key && col !in Sent(rows[n], views[n]) {
        assert Sends(rows[..n], ids, views[..n], k, col);
        assert (t + overlay)[key] == overlay[key];
      }
    }
  }
}
