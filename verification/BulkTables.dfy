/** The tables that bulk jobs write, row by row and with what each row has read
    (vivacapi/workers/spots_bulk.py, vivacapi/workers/spot_business_info_bulk.py).

    A spot row is one statement: it reads and writes the current row under its lock. An info
    row is a SELECT without a lock, and later an UPDATE of the columns that differ from what
    that SELECT saw, or an INSERT if it saw nothing. */
module BulkTables {
  import opened Wrappers
  import S = SpotsBulk

  type Record = map<string, string>

  /** A spot by its conflict key, or by its uid if it has none. */
  datatype SpotKey = Keyed(source: string, externalId: string) | Unkeyed(uid: string)

  /** A spot, or the business info of a spot. */
  datatype RowKey = SpotAt(spot: SpotKey) | InfoOf(spot: SpotKey)

  type Table = map<RowKey, Record>

  /** A row of a batch. `newUid` and `now` are what a spot gets if it is inserted. */
  datatype Row = SpotRow(values: Record, newUid: string, now: string) | InfoRow(externalId: string, fields: Record)

  function Lookup(t: Table, key: RowKey): Option<Record> {
    if key in t then Some(t[key]) else None
  }

  function Cell(t: Table, key: RowKey, col: string): Option<string> {
    if key in t && col in t[key] then Some(t[key][col]) else None
  }

  lemma SameLookups(a: Table, b: Table)
    requires forall k :: Lookup(a, k) == Lookup(b, k)
    ensures a == b
  {
    assert forall k :: k in a <==> Lookup(a, k).Some?;
    assert forall k :: k in b <==> Lookup(b, k).Some?;
    assert forall k :: k in a ==> Lookup(a, k) == Some(a[k]) && Lookup(b, k) == Some(b[k]);
  }

  // ---------------------------------------------------------------- external ids

  function ExternalIdOf(key: SpotKey, spot: Record): Option<string> {
    if key.Keyed? then Some(key.externalId) else if "external_id" in spot then Some(spot["external_id"]) else None
  }

  predicate Owns(t: Table, externalId: string, key: SpotKey) {
    SpotAt(key) in t && ExternalIdOf(key, t[SpotAt(key)]) == Some(externalId)
  }

  ghost predicate OwnedBy(t: Table, externalId: string, key: SpotKey) {
    Owns(t, externalId, key) && forall k :: Owns(t, externalId, k) ==> k == key
  }

  ghost predicate HasOneOwner(t: Table, externalId: string) {
    exists key :: OwnedBy(t, externalId, key)
  }

  ghost function OwnerOf(t: Table, externalId: string): (key: SpotKey)
    requires HasOneOwner(t, externalId)
    ensures OwnedBy(t, externalId, key)
  {
    var key :| OwnedBy(t, externalId, key);
    key
  }

  function ExternalIds(rows: seq<Row>): set<string> {
    set i | 0 <= i < |rows| && rows[i].InfoRow? :: rows[i].externalId
  }

  type Ids = map<string, SpotKey>

  /** What a handler resolves when it starts: the external ids that have exactly one owner. */
  ghost function Resolve(t: Table, rows: seq<Row>): Ids {
    map e | e in ExternalIds(rows) && HasOneOwner(t, e) :: OwnerOf(t, e)
  }

  // ---------------------------------------------------------------- one row

  function SpotKeyOf(row: Row): SpotKey
    requires row.SpotRow?
  {
    var key := S.KeyOf(row.values);
    if key.Some? then Keyed(key.value.0, key.value.1) else Unkeyed(row.newUid)
  }

  /** INSERT ... ON CONFLICT on the current row; None when the statement raises. */
  function Upserted(row: Row, current: Option<Record>): Option<Record>
    requires row.SpotRow?
  {
    if current.None? then Some(S.Defaults(row.now) + row.values)
    else if SpotKeyOf(row).Keyed? then Some(current.value + (row.values - S.CONFLICT_COLS))
    else None
  }

  /** The columns that an UPDATE sends: those that differ from what the row has read. */
  function Differing(fields: Record, read: Record): Record {
    map c | c in fields && !(c in read && read[c] == fields[c]) :: fields[c]
  }

  function Sent(row: Row, read: Option<Record>): Record
    requires row.InfoRow?
  {
    if read.None? then row.fields else Differing(row.fields, read.value)
  }

  function KeyOf(row: Row, ids: Ids): RowKey
    requires row.InfoRow? ==> row.externalId in ids
  {
    if row.SpotRow? then SpotAt(SpotKeyOf(row)) else InfoOf(ids[row.externalId])
  }

  /** Nothing is sent, and no lock taken, for an info whose every field was read as it is. */
  predicate Writes(row: Row, read: Option<Record>) {
    row.SpotRow? || read.None? || Sent(row, read) != map[]
  }

  /** A row as it is executed after it has read `read`; None when it raises. */
  function WriteSeen(t: Table, row: Row, ids: Ids, read: Option<Record>): Option<Table> {
    if row.SpotRow? then
      var key := SpotAt(SpotKeyOf(row));
      var written := Upserted(row, Lookup(t, key));
      if written.None? then None else Some(t[key := written.value])
    else if row.externalId !in ids then None
    else
      var key := InfoOf(ids[row.externalId]);
      if read.None? then if key in t then None else Some(t[key := row.fields])
      else if key !in t then None
      else Some(t[key := t[key] + Sent(row, read)])
  }

  /** The rows as executed, one after the other. */
  function ApplySeen(t: Table, rows: seq<Row>, ids: Ids, views: seq<Option<Record>>): Option<Table>
    requires |views| == |rows|
  {
    var n := |rows|;
    if n == 0 then Some(t)
    else
      var before := ApplySeen(t, rows[..n - 1], ids, views[..n - 1]);
      if before.None? then None else WriteSeen(before.value, rows[n - 1], ids, views[n - 1])
  }

  /** A row as it is meant: it reads the current row when it writes it. */
  function Write(t: Table, row: Row, ids: Ids): Option<Table> {
    if row.SpotRow? then WriteSeen(t, row, ids, None)
    else if row.externalId !in ids then None
    else
      var key := InfoOf(ids[row.externalId]);
      Some(t[key := (if key in t then t[key] else map[]) + row.fields])
  }

  function ApplyIds(t: Table, rows: seq<Row>, ids: Ids): Option<Table> {
    var n := |rows|;
    if n == 0 then Some(t)
    else
      var before := ApplyIds(t, rows[..n - 1], ids);
      if before.None? then None else Write(before.value, rows[n - 1], ids)
  }

  /** The batch applied in one go to a table; None when some row raises. */
  ghost function ApplyBatch(t: Table, rows: seq<Row>): Option<Table> {
    ApplyIds(t, rows, Resolve(t, rows))
  }

  // ---------------------------------------------------------------- owners never go away

  lemma WriteKeepsOwners(t: Table, row: Row, ids: Ids, read: Option<Record>, e: string, k: SpotKey)
    requires WriteSeen(t, row, ids, read).Some? && Owns(t, e, k)
    ensures Owns(WriteSeen(t, row, ids, read).value, e, k)
  {
  }

  lemma {:induction false} SeenKeepsOwners(
    t: Table, rows: seq<Row>, ids: Ids, views: seq<Option<Record>>, e: string, k: SpotKey)
    requires |views| == |rows| && ApplySeen(t, rows, ids, views).Some? && Owns(t, e, k)
    ensures Owns(ApplySeen(t, rows, ids, views).value, e, k)
    decreases |rows|
  {
    var n := |rows|;
    if n > 0 {
      SeenKeepsOwners(t, rows[..n - 1], ids, views[..n - 1], e, k);
      WriteKeepsOwners(ApplySeen(t, rows[..n - 1], ids, views[..n - 1]).value, rows[n - 1], ids, views[n - 1], e, k);
    }
  }

  // ---------------------------------------------------------------- an open transaction

  predicate Resolved(rows: seq<Row>, ids: Ids) {
    forall i :: 0 <= i < |rows| && rows[i].InfoRow? ==> rows[i].externalId in ids
  }

  /** Every row that was written is locked. */
  ghost predicate Locks(rows: seq<Row>, ids: Ids, views: seq<Option<Record>>, locked: set<RowKey>)
    requires |views| == |rows|
  {
    Resolved(rows, ids) && forall i :: 0 <= i < |rows| && Writes(rows[i], views[i]) ==> KeyOf(rows[i], ids) in locked
  }

  /** `overlay` are the uncommitted rows of a transaction that has executed `rows` on top of
      whatever the committed table is by now. */
  ghost predicate Pending(t: Table, rows: seq<Row>, ids: Ids, views: seq<Option<Record>>, overlay: Table) {
    && |views| == |rows|
    && ApplySeen(t, rows, ids, views) == Some(t + overlay)
    && Locks(rows, ids, views, overlay.Keys)
  }

  lemma WriteFrame(t: Table, t': Table, row: Row, ids: Ids, read: Option<Record>, locked: set<RowKey>)
    requires WriteSeen(t, row, ids, read).Some?
    requires row.InfoRow? ==> row.externalId in ids
    requires Writes(row, read) ==> KeyOf(row, ids) in locked
    requires t.Keys <= t'.Keys && forall k :: k in locked ==> Lookup(t, k) == Lookup(t', k)
    ensures WriteSeen(t', row, ids, read).Some?
    ensures var a, a' := WriteSeen(t, row, ids, read).value, WriteSeen(t', row, ids, read).value;
            && a.Keys <= a'.Keys
            && (forall k :: k in locked ==> Lookup(a, k) == Lookup(a', k))
            && (forall k :: k !in locked ==> Lookup(a', k) == Lookup(t', k))
  {
    var key := KeyOf(row, ids);
    if !Writes(row, read) {
      assert t[key] + map[] == t[key];
      assert t'[key] + map[] == t'[key];
    }
  }

  /** What a transaction has executed does not depend on rows it holds no lock of, except that
      they exist. */
  lemma {:induction false} SeenFrame(
    t: Table, t': Table, rows: seq<Row>, ids: Ids, views: seq<Option<Record>>, locked: set<RowKey>)
    requires |views| == |rows| && ApplySeen(t, rows, ids, views).Some? && Locks(rows, ids, views, locked)
    requires t.Keys <= t'.Keys && forall k :: k in locked ==> Lookup(t, k) == Lookup(t', k)
    ensures ApplySeen(t', rows, ids, views).Some?
    ensures var a, a' := ApplySeen(t, rows, ids, views).value, ApplySeen(t', rows, ids, views).value;
            && a.Keys <= a'.Keys
            && (forall k :: k in locked ==> Lookup(a, k) == Lookup(a', k))
            && (forall k :: k !in locked ==> Lookup(a', k) == Lookup(t', k))
    decreases |rows|
  {
    var n := |rows|;
    if n > 0 {
      SeenFrame(t, t', rows[..n - 1], ids, views[..n - 1], locked);
      var b := ApplySeen(t, rows[..n - 1], ids, views[..n - 1]).value;
      var b' := ApplySeen(t', rows[..n - 1], ids, views[..n - 1]).value;
      WriteFrame(b, b', rows[n - 1], ids, views[n - 1], locked);
    }
  }

  /** So it survives the commits of others. */
  lemma PendingSurvives(t: Table, t': Table, rows: seq<Row>, ids: Ids, views: seq<Option<Record>>, overlay: Table)
    requires Pending(t, rows, ids, views, overlay)
    requires t.Keys <= t'.Keys && forall k :: k in overlay ==> Lookup(t, k) == Lookup(t', k)
    ensures Pending(t', rows, ids, views, overlay)
  {
    SeenFrame(t, t', rows, ids, views, overlay.Keys);
    var after := ApplySeen(t', rows, ids, views).value;
    forall k ensures Lookup(after, k) == Lookup(t' + overlay, k) {
      assert k in overlay ==> Lookup(after, k) == Lookup(t + overlay, k);
    }
    SameLookups(after, t' + overlay);
  }

  lemma NothingPending(t: Table, ids: Ids)
    ensures Pending(t, [], ids, [], map[])
  {
    assert t + map[] == t;
  }

  lemma PendingNext(
    t: Table, rows: seq<Row>, n: nat, ids: Ids, views: seq<Option<Record>>, overlay: Table, overlay': Table)
    requires n < |rows| && n < |views| && Pending(t, rows[..n], ids, views[..n], overlay)
    requires WriteSeen(t + overlay, rows[n], ids, views[n]) == Some(t + overlay')
    requires overlay.Keys <= overlay'.Keys
    requires rows[n].InfoRow? ==> rows[n].externalId in ids
    requires Writes(rows[n], views[n]) ==> KeyOf(rows[n], ids) in overlay'
    ensures Pending(t, rows[..n + 1], ids, views[..n + 1], overlay')
  {
    assert rows[..n + 1][..n] == rows[..n] && views[..n + 1][..n] == views[..n];
  }

  /** The rows a transaction has written, after it executes one more on what it sees; None when
      the row raises. */
  function Execute(t: Table, overlay: Table, row: Row, ids: Ids, view: Option<Record>): Option<Table>
    requires row.InfoRow? ==> row.externalId in ids
  {
    var key := KeyOf(row, ids);
    var current := Lookup(t + overlay, key);
    if row.SpotRow? then
      var written := Upserted(row, current);
      if written.None? then None else Some(overlay[key := written.value])
    else if view.None? then if current.Some? then None else Some(overlay[key := row.fields])
    else if current.None? then None
    else if Sent(row, view) == map[] then Some(overlay)
    else Some(overlay[key := current.value + Sent(row, view)])
  }

  lemma ExecuteIsWriteSeen(t: Table, overlay: Table, row: Row, ids: Ids, view: Option<Record>)
    requires row.InfoRow? ==> row.externalId in ids
    requires Execute(t, overlay, row, ids, view).Some?
    ensures var overlay' := Execute(t, overlay, row, ids, view).value;
            && WriteSeen(t + overlay, row, ids, view) == Some(t + overlay')
            && overlay.Keys <= overlay'.Keys <= overlay.Keys + {KeyOf(row, ids)}
            && (Writes(row, view) ==> KeyOf(row, ids) in overlay')
            && (!Writes(row, view) ==> overlay' == overlay)
  {
    var key := KeyOf(row, ids);
    var overlay' := Execute(t, overlay, row, ids, view).value;
    if Writes(row, view) {
      assert t + overlay' == (t + overlay)[key := overlay'[key]];
    } else {
      assert (t + overlay)[key] + map[] == (t + overlay)[key];
      assert (t + overlay)[key := (t + overlay)[key]] == t + overlay;
    }
  }
}
