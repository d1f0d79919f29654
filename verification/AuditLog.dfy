/** The audit log (vivacapi/crud/audit.py and the trigger of
    alembic/versions/b7f3a1c9d2e4_add_audit_log_triggers.py): every write of a row logs the
    row before and after; the history shows their differences, newest first. */
module AuditLog {
  import opened Wrappers
  import opened Keyset

  /** A row as JSON; a missing field and a null one read the same. */
  type Data = map<string, Option<string>>

  const IGNORED_FIELDS := {"updated_at"}

  function Get(d: Data, k: string): Option<string> {
    if k in d then d[k] else None
  }

  function OrEmpty(d: Option<Data>): Data {
    if d.Some? then d.value else map[]
  }

  // ---------------------------------------------------------------- differences

  datatype FieldChange = FieldChange(before: Option<string>, after: Option<string>)

  type Changes = map<string, FieldChange>

  function ComputeChanges(oldData: Option<Data>, newData: Option<Data>): Changes {
    var o, n := OrEmpty(oldData), OrEmpty(newData);
    map k | k in (o.Keys + n.Keys) - IGNORED_FIELDS && Get(o, k) != Get(n, k) :: FieldChange(Get(o, k), Get(n, k))
  }

  function Forward(d: Data, changes: Changes): Data {
    d + map k | k in changes :: changes[k].after
  }

  function Backward(d: Data, changes: Changes): Data {
    d + map k | k in changes :: changes[k].before
  }

  /** Equal on every field but the time of the last update. */
  ghost predicate Agree(a: Data, b: Data) {
    forall k :: k != "updated_at" ==> Get(a, k) == Get(b, k)
  }

  /** The differences turn the old row into the new one and the new one into the old one. */
  lemma ChangesAreInvertible(oldData: Option<Data>, newData: Option<Data>, d: Data)
    ensures Agree(d, OrEmpty(oldData)) ==> Agree(Forward(d, ComputeChanges(oldData, newData)), OrEmpty(newData))
    ensures Agree(d, OrEmpty(newData)) ==> Agree(Backward(d, ComputeChanges(oldData, newData)), OrEmpty(oldData))
  {
    ChangesAreExact(oldData, newData);
  }

  /** They list exactly the fields that differ, and so none exactly when the rows agree; the
      differences of the reverse write are the reverse differences. */
  lemma ChangesAreExact(oldData: Option<Data>, newData: Option<Data>)
    ensures forall k :: k in ComputeChanges(oldData, newData) <==>
      k != "updated_at" && Get(OrEmpty(oldData), k) != Get(OrEmpty(newData), k)
    ensures ComputeChanges(oldData, newData) == map[] <==> Agree(OrEmpty(oldData), OrEmpty(newData))
    ensures var changes, reverse := ComputeChanges(oldData, newData), ComputeChanges(newData, oldData);
            forall k :: k in changes ==>
              k in reverse && reverse[k] == FieldChange(changes[k].after, changes[k].before)
  {
    var changes, o, n := ComputeChanges(oldData, newData), OrEmpty(oldData), OrEmpty(newData);
    assert forall k :: k in changes <==> k !in IGNORED_FIELDS && Get(o, k) != Get(n, k);
    if !Agree(o, n) {
      var k :| k !in IGNORED_FIELDS && Get(o, k) != Get(n, k);
      assert k in changes;
    }
  }

  // ---------------------------------------------------------------- writing

  datatype Ref = Ref(table: string, uid: string)

  datatype Action = INSERT | UPDATE | DELETE

  datatype Entry = Entry(
    id: nat,
    ref: Ref,
    action: Action,
    oldData: Option<Data>,
    newData: Option<Data>,
    changedBy: Option<string>,
    changedAt: int
  )

  datatype Db = Db(rows: map<Ref, Data>, log: seq<Entry>)

  /** A write of a committed transaction that started at `txTime`; `user` is its app.user_id.
      Writes are listed as they took the lock of their row. */
  datatype Write = Write(ref: Ref, newData: Option<Data>, user: Option<string>, txTime: int, id: nat)

  function Current(db: Db, ref: Ref): Option<Data> {
    if ref in db.rows then Some(db.rows[ref]) else None
  }

  /** Ids come from a sequence: they increase and may skip. */
  predicate Enabled(db: Db, w: Write) {
    && (Current(db, w.ref).Some? || w.newData.Some?)
    && forall i :: 0 <= i < |db.log| ==> db.log[i].id < w.id
  }

  /** The write and the trigger `log_audit`. */
  function LogAudit(db: Db, w: Write): Db
    requires Enabled(db, w)
  {
    var oldData := Current(db, w.ref);
    var action := if oldData.None? then INSERT else if w.newData.None? then DELETE else UPDATE;
    Db(
      if w.newData.Some? then db.rows[w.ref := w.newData.value] else db.rows - {w.ref},
      db.log + [Entry(w.id, w.ref, action, oldData, w.newData, w.user, w.txTime)])
  }

  ghost predicate Run(dbs: seq<Db>, writes: seq<Write>) {
    && |dbs| == |writes| + 1
    && dbs[0].log == []
    && forall i :: 0 <= i < |writes| ==> Enabled(dbs[i], writes[i]) && dbs[i + 1] == LogAudit(dbs[i], writes[i])
  }

  /** The entries of one row, as they were written. */
  function Of(log: seq<Entry>, ref: Ref): seq<Entry> {
    if log == [] then []
    else
      var last := log[|log| - 1];
      Of(log[..|log| - 1], ref) + if last.ref == ref then [last] else []
  }

  /** The log of a run is its writes, in their order: each entry names the row, the transaction's
      user and time, and the row before and after; an INSERT found no row, a DELETE leaves none,
      and an UPDATE has both. */
  lemma {:induction false} LogIsWrites(dbs: seq<Db>, writes: seq<Write>, i: nat, k: nat)
    requires Run(dbs, writes) && k < i <= |writes|
    ensures |dbs[i].log| == i
    ensures var e, w := dbs[i].log[k], writes[k];
            && e.id == w.id && e.ref == w.ref && e.changedBy == w.user && e.changedAt == w.txTime
            && e.oldData == Current(dbs[k], w.ref) && e.newData == w.newData == Current(dbs[k + 1], w.ref)
            && (e.action == INSERT <==> w.ref !in dbs[k].rows)
            && (e.action == DELETE <==> w.ref in dbs[k].rows && w.ref !in dbs[k + 1].rows)
  {
    assert Enabled(dbs[i - 1], writes[i - 1]) && dbs[i] == LogAudit(dbs[i - 1], writes[i - 1]);
    LogGrows(dbs, writes, i - 1);
    if k < i - 1 {
      LogIsWrites(dbs, writes, i - 1, k);
    }
  }

  lemma {:induction false} LogGrows(dbs: seq<Db>, writes: seq<Write>, i: nat)
    requires Run(dbs, writes) && i <= |writes|
    ensures |dbs[i].log| == i
  {
    if i > 0 {
      LogGrows(dbs, writes, i - 1);
      assert dbs[i] == LogAudit(dbs[i - 1], writes[i - 1]);
    }
  }

  /** Each entry starts where the one before ended. */
  ghost predicate Chain(start: Option<Data>, entries: seq<Entry>, end: Option<Data>) {
    var n := |entries|;
    if n == 0 then start == end
    else Chain(start, entries[..n - 1], entries[n - 1].oldData) && entries[n - 1].newData == end
  }

  ghost predicate IdsIncrease(entries: seq<Entry>) {
    forall i, j :: 0 <= i < j < |entries| ==> entries[i].id < entries[j].id
  }

  lemma {:induction false} OfMembers(log: seq<Entry>, ref: Ref)
    requires IdsIncrease(log)
    ensures IdsIncrease(Of(log, ref)) && forall e :: e in Of(log, ref) ==> e in log
  {
    if log != [] {
      var before, last := log[..|log| - 1], log[|log| - 1];
      var some := Of(before, ref);
      OfMembers(before, ref);
      assert forall i :: 0 <= i < |before| ==> before[i].id < last.id;
      assert forall i :: 0 <= i < |some| ==> some[i] in before;
      assert Of(log, ref) == some + if last.ref == ref then [last] else [];
    }
  }

  lemma {:induction false} LogsAreChains(dbs: seq<Db>, writes: seq<Write>, i: nat, ref: Ref)
    requires Run(dbs, writes) && i <= |writes|
    ensures IdsIncrease(dbs[i].log)
    ensures Chain(Current(dbs[0], ref), Of(dbs[i].log, ref), Current(dbs[i], ref))
  {
    if i > 0 {
      LogsAreChains(dbs, writes, i - 1, ref);
      assert Enabled(dbs[i - 1], writes[i - 1]) && dbs[i] == LogAudit(dbs[i - 1], writes[i - 1]);
      WriteExtendsChain(dbs[i - 1], writes[i - 1], Current(dbs[0], ref), ref);
    }
  }

  lemma WriteExtendsChain(db: Db, w: Write, start: Option<Data>, ref: Ref)
    requires Enabled(db, w) && Chain(start, Of(db.log, ref), Current(db, ref))
    ensures Chain(start, Of(LogAudit(db, w).log, ref), Current(LogAudit(db, w), ref))
  {
    var log' := LogAudit(db, w).log;
    assert log'[..|log'| - 1] == db.log;
    if w.ref == ref {
      assert Of(log', ref) == Of(db.log, ref) + [log'[|log'| - 1]];
      assert Of(log', ref)[..|Of(db.log, ref)|] == Of(db.log, ref);
    } else {
      assert Of(log', ref) == Of(db.log, ref);
      assert Current(LogAudit(db, w), ref) == Current(db, ref);
    }
  }

  // ---------------------------------------------------------------- reading

  datatype Stamp = Stamp(changedAt: int, id: nat)

  function StampOf(e: Entry): Stamp {
    Stamp(e.changedAt, e.id)
  }

  /** ORDER BY changed_at DESC, id DESC. */
  function NewerFirst(): (Stamp, Stamp) -> bool {
    (a: Stamp, b: Stamp) => b.changedAt < a.changedAt || (b.changedAt == a.changedAt && b.id < a.id)
  }

  function Stamps(entries: seq<Entry>): seq<Stamp> {
    seq(|entries|, i requires 0 <= i < |entries| => StampOf(entries[i]))
  }

  /** The entry with a given stamp. */
  function EntryAt(entries: seq<Entry>, stamp: Stamp): (e: Entry)
    requires stamp in Stamps(entries)
    ensures StampOf(e) == stamp && e in entries
  {
    if StampOf(entries[0]) == stamp then entries[0]
    else
      assert Stamps(entries) == [StampOf(entries[0])] + Stamps(entries[1..]);
      EntryAt(entries[1..], stamp)
  }

  lemma NewerFirstIsTotal()
    ensures StrictTotal(NewerFirst())
  {
  }

  lemma TakeKeepsOrder(all: seq<Stamp>, limit: nat)
    requires Sorted(NewerFirst(), all)
    ensures Sorted(NewerFirst(), Take(all, limit)) && forall s :: s in Take(all, limit) ==> s in all
  {
  }

  ghost function NewestStamps(entries: seq<Entry>, limit: nat): (r: seq<Stamp>)
    ensures Sorted(NewerFirst(), r) && forall s :: s in r ==> s in Stamps(entries)
  {
    NewerFirstIsTotal();
    var all := OrderBy(NewerFirst(), set s | s in Stamps(entries));
    TakeKeepsOrder(all, limit);
    Take(all, limit)
  }

  /** The rows of the history query. */
  ghost function HistoryRows(log: seq<Entry>, ref: Ref, limit: nat): (rows: seq<Entry>)
    ensures Sorted(NewerFirst(), Stamps(rows))
  {
    var stamps := NewestStamps(Of(log, ref), limit);
    var rows := seq(|stamps|, i requires 0 <= i < |stamps| => EntryAt(Of(log, ref), stamps[i]));
    assert Stamps(rows) == stamps;
    rows
  }

  datatype HistoryEntry = HistoryEntry(changedAt: int, action: Action, changedBy: Option<string>, changes: Changes)

  function Shown(rows: seq<Entry>): seq<HistoryEntry> {
    seq(|rows|, i requires 0 <= i < |rows| =>
      var e := rows[i];
      HistoryEntry(e.changedAt, e.action, e.changedBy, ComputeChanges(e.oldData, e.newData)))
  }

  ghost function GetHistory(log: seq<Entry>, ref: Ref, limit: nat): seq<HistoryEntry> {
    Shown(HistoryRows(log, ref, limit))
  }

  function Reversed(entries: seq<Entry>): (r: seq<Entry>)
    ensures |r| == |entries| && forall i :: 0 <= i < |r| ==> r[i] == entries[|entries| - 1 - i]
  {
    seq(|entries|, i requires 0 <= i < |entries| => entries[|entries| - 1 - i])
  }

  /** Later writes of the row carry no earlier transaction times. */
  ghost predicate InOrder(entries: seq<Entry>) {
    forall i, j :: 0 <= i < j < |entries| ==> entries[i].changedAt <= entries[j].changedAt
  }

  lemma EntryAtFinds(entries: seq<Entry>, i: nat)
    requires IdsIncrease(entries) && i < |entries|
    ensures StampOf(entries[i]) in Stamps(entries) && EntryAt(entries, StampOf(entries[i])) == entries[i]
  {
    assert Stamps(entries)[i] == StampOf(entries[i]);
    if i > 0 {
      StampsTail(entries);
      assert entries[0].id < entries[i].id;
      EntryAtFinds(entries[1..], i - 1);
    }
  }

  lemma StampsTail(entries: seq<Entry>)
    requires entries != []
    ensures Stamps(entries) == [StampOf(entries[0])] + Stamps(entries[1..])
  {
  }

  lemma SortedStampsIffInOrder(entries: seq<Entry>)
    requires IdsIncrease(entries)
    ensures Sorted(NewerFirst(), Stamps(Reversed(entries))) <==> InOrder(entries)
  {
    var stamps, lt, n := Stamps(Reversed(entries)), NewerFirst(), |entries|;
    if Sorted(lt, stamps) {
      forall i, j | 0 <= i < j < n ensures entries[i].changedAt <= entries[j].changedAt {
        assert lt(stamps[n - 1 - j], stamps[n - 1 - i]);
      }
    }
  }

  lemma SameMembers(entries: seq<Entry>)
    ensures forall s :: s in Stamps(Reversed(entries)) <==> s in Stamps(entries)
  {
    var n := |entries|;
    forall s | s in Stamps(entries) ensures s in Stamps(Reversed(entries)) {
      var i :| 0 <= i < n && Stamps(entries)[i] == s;
      assert Stamps(Reversed(entries))[n - 1 - i] == s;
    }
    forall s | s in Stamps(Reversed(entries)) ensures s in Stamps(entries) {
      var i :| 0 <= i < n && Stamps(Reversed(entries))[i] == s;
      assert Stamps(entries)[n - 1 - i] == s;
    }
  }

  lemma NewestStampsInOrder(entries: seq<Entry>, limit: nat)
    requires IdsIncrease(entries) && InOrder(entries)
    ensures NewestStamps(entries, limit) == Take(Stamps(Reversed(entries)), limit)
  {
    NewerFirstIsTotal();
    SortedStampsIffInOrder(entries);
    SameMembers(entries);
    SortedUnique(NewerFirst(), OrderBy(NewerFirst(), set s | s in Stamps(entries)), Stamps(Reversed(entries)));
  }

  /** The history is the row's last writes, the last one first, when no later write carries an
      earlier transaction time. */
  lemma HistoryInOrder(log: seq<Entry>, ref: Ref, limit: nat)
    requires IdsIncrease(log) && InOrder(Of(log, ref))
    ensures HistoryRows(log, ref, limit) == Take(Reversed(Of(log, ref)), limit)
  {
    OfMembers(log, ref);
    var entries := Of(log, ref);
    NewestStampsInOrder(entries, limit);
    var stamps := NewestStamps(entries, limit);
    forall i | 0 <= i < |stamps| ensures EntryAt(entries, stamps[i]) == Reversed(entries)[i] {
      EntryAtFinds(entries, |entries| - 1 - i);
    }
  }

  /** What it tells of them. */
  lemma HistoryTellsLastWrites(log: seq<Entry>, ref: Ref, limit: nat)
    requires IdsIncrease(log) && InOrder(Of(log, ref))
    ensures var history, entries := GetHistory(log, ref, limit), Of(log, ref);
            && |history| == (if limit < |entries| then limit else |entries|)
            && forall i :: 0 <= i < |history| ==>
              var e := entries[|entries| - 1 - i];
              && history[i].action == e.action && history[i].changedBy == e.changedBy
              && history[i].changedAt == e.changedAt && history[i].changes == ComputeChanges(e.oldData, e.newData)
  {
    HistoryInOrder(log, ref, limit);
    var entries := Of(log, ref);
    var rows := Take(Reversed(entries), limit);
    assert GetHistory(log, ref, limit) == Shown(rows);
    assert forall i :: 0 <= i < |rows| ==> rows[i] == entries[|entries| - 1 - i];
  }

  /** The history is the writes of the row, the last one first, only then. */
  lemma HistoryIsReverseIffInOrder(log: seq<Entry>, ref: Ref)
    requires IdsIncrease(log)
    ensures HistoryRows(log, ref, |Of(log, ref)|) == Reversed(Of(log, ref)) <==> InOrder(Of(log, ref))
  {
    OfMembers(log, ref);
    SortedStampsIffInOrder(Of(log, ref));
    if InOrder(Of(log, ref)) {
      HistoryInOrder(log, ref, |Of(log, ref)|);
    }
  }

  // ---------------------------------------------------------------- undo and replay

  /** Takes the listed writes back, in the order listed. */
  function Undo(d: Data, history: seq<HistoryEntry>): Data
    decreases |history|
  {
    if history == [] then d else Undo(Backward(d, history[0].changes), history[1..])
  }

  /** Makes the listed writes again, the last one listed first. */
  function Replay(d: Data, history: seq<HistoryEntry>): Data {
    if history == [] then d else Forward(Replay(d, history[1..]), history[0].changes)
  }

  /** The row before the last `k` writes. */
  function Before(entries: seq<Entry>, k: nat, end: Option<Data>): Data
    requires k <= |entries|
  {
    OrEmpty(if k == 0 then end else entries[|entries| - k].oldData)
  }

  function Min(a: nat, b: nat): nat {
    if a < b then a else b
  }

  lemma {:induction false} UndoChain(start: Option<Data>, entries: seq<Entry>, end: Option<Data>, d: Data, k: nat)
    requires Chain(start, entries, end) && Agree(d, OrEmpty(end)) && k <= |entries|
    ensures Agree(Undo(d, Shown(Take(Reversed(entries), k))), Before(entries, k, end))
  {
    if k > 0 {
      var last, before := entries[|entries| - 1], entries[..|entries| - 1];
      var undone := Backward(d, ComputeChanges(last.oldData, last.newData));
      LastShownFirst(entries, k);
      ChangesAreInvertible(last.oldData, last.newData, d);
      UndoChain(start, before, last.oldData, undone, k - 1);
      SameBefore(entries, k, end);
      assert Undo(d, Shown(Take(Reversed(entries), k))) == Undo(undone, Shown(Take(Reversed(before), k - 1)));
    }
  }

  lemma SameBefore(entries: seq<Entry>, k: nat, end: Option<Data>)
    requires 0 < k <= |entries|
    ensures var n := |entries|; Before(entries, k, end) == Before(entries[..n - 1], k - 1, entries[n - 1].oldData)
  {
  }

  lemma LastShownFirst(entries: seq<Entry>, k: nat)
    requires 0 < k <= |entries|
    ensures var history, last := Shown(Take(Reversed(entries), k)), entries[|entries| - 1];
            && |history| == k && history[0].changes == ComputeChanges(last.oldData, last.newData)
            && history[1..] == Shown(Take(Reversed(entries[..|entries| - 1]), k - 1))
  {
  }

  lemma {:induction false} ReplayChain(start: Option<Data>, entries: seq<Entry>, end: Option<Data>, d: Data)
    requires Chain(start, entries, end) && Agree(d, OrEmpty(start))
    ensures Agree(Replay(d, Shown(Reversed(entries))), OrEmpty(end))
  {
    if entries != [] {
      var last, before := entries[|entries| - 1], entries[..|entries| - 1];
      var history := Shown(Reversed(entries));
      assert history[1..] == Shown(Reversed(before));
      ReplayChain(start, before, last.oldData, d);
      ChangesAreInvertible(last.oldData, last.newData, Replay(d, history[1..]));
    }
  }

  /** In every run whose transactions on a row do not overlap: undoing the returned history
      from the current row yields the row before the oldest returned write, whatever the limit. */
  lemma UndoingHistoryRestores(dbs: seq<Db>, writes: seq<Write>, i: nat, ref: Ref, limit: nat)
    requires Run(dbs, writes) && i <= |writes| && InOrder(Of(dbs[i].log, ref))
    ensures var entries, current := Of(dbs[i].log, ref), Current(dbs[i], ref);
            Agree(
              Undo(OrEmpty(current), GetHistory(dbs[i].log, ref, limit)),
              Before(entries, Min(limit, |entries|), current))
  {
    LogsAreChains(dbs, writes, i, ref);
    UndoHistory(Current(dbs[0], ref), dbs[i].log, ref, Current(dbs[i], ref), limit);
  }

  lemma UndoHistory(start: Option<Data>, log: seq<Entry>, ref: Ref, end: Option<Data>, limit: nat)
    requires IdsIncrease(log) && InOrder(Of(log, ref)) && Chain(start, Of(log, ref), end)
    ensures var entries := Of(log, ref);
            Agree(Undo(OrEmpty(end), GetHistory(log, ref, limit)), Before(entries, Min(limit, |entries|), end))
  {
    var entries := Of(log, ref);
    HistoryInOrder(log, ref, limit);
    TakeMin(Reversed(entries), limit);
    UndoChain(start, entries, end, OrEmpty(end), Min(limit, |entries|));
  }

  lemma TakeMin(s: seq<Entry>, limit: nat)
    ensures Take(s, limit) == Take(s, Min(limit, |s|))
  {
  }

  /** And replaying the full history from the row before the first logged write, or from
      nothing if there was none, yields the current row. */
  lemma ReplayingHistoryRebuilds(dbs: seq<Db>, writes: seq<Write>, i: nat, ref: Ref, limit: nat)
    requires Run(dbs, writes) && i <= |writes| && InOrder(Of(dbs[i].log, ref)) && limit >= |Of(dbs[i].log, ref)|
    ensures Agree(
      Replay(OrEmpty(Current(dbs[0], ref)), GetHistory(dbs[i].log, ref, limit)),
      OrEmpty(Current(dbs[i], ref)))
  {
    LogsAreChains(dbs, writes, i, ref);
    HistoryInOrder(dbs[i].log, ref, limit);
    ReplayChain(Current(dbs[0], ref), Of(dbs[i].log, ref), Current(dbs[i], ref), OrEmpty(Current(dbs[0], ref)));
  }

  const A: Data := map["name" := Some("a")]
  const B: Data := map["name" := Some("b")]
  const C: Data := map["name" := Some("c")]

  /** From A to B in a transaction that began at 5, then to C in one that began at 3. */
  function OverlappingLog(ref: Ref): seq<Entry> {
    [Entry(1, ref, UPDATE, Some(A), Some(B), None, 5), Entry(2, ref, UPDATE, Some(B), Some(C), None, 3)]
  }

  lemma OverlappingRun(ref: Ref) returns (dbs: seq<Db>, writes: seq<Write>)
    ensures Run(dbs, writes) && |writes| == 2
    ensures dbs[0] == Db(map[ref := A], []) && dbs[2] == Db(map[ref := C], OverlappingLog(ref))
  {
    var db0 := Db(map[ref := A], []);
    writes := [Write(ref, Some(B), None, 5, 1), Write(ref, Some(C), None, 3, 2)];
    var db1 := LogAudit(db0, writes[0]);
    dbs := [db0, db1, LogAudit(db1, writes[1])];
  }

  lemma RowsAsLogged(ref: Ref, log: seq<Entry>)
    requires |log| == 2 && Of(log, ref) == log && Sorted(NewerFirst(), Stamps(log)) && IdsIncrease(log)
    ensures HistoryRows(log, ref, 2) == log
  {
    NewerFirstIsTotal();
    SortedUnique(NewerFirst(), OrderBy(NewerFirst(), set s | s in Stamps(log)), Stamps(log));
    assert NewestStamps(log, 2) == Stamps(log);
    EntryAtFinds(log, 0);
    EntryAtFinds(log, 1);
  }

  lemma TwoEntriesOf(ref: Ref, log: seq<Entry>)
    requires |log| == 2 && log[0].ref == ref && log[1].ref == ref
    ensures Of(log, ref) == log
  {
    assert log[..1] == [log[0]] && log[..1][..0] == [];
    assert Of(log[..1], ref) == [log[0]];
    assert log == [log[0]] + [log[1]];
  }

  lemma OverlappingRows(ref: Ref, log: seq<Entry>)
    requires |log| == 2 && log[0].ref == ref && log[1].ref == ref
    requires log[0].id < log[1].id && log[0].changedAt > log[1].changedAt
    ensures HistoryRows(log, ref, 2) == log
  {
    TwoEntriesOf(ref, log);
    assert Stamps(log) == [StampOf(log[0]), StampOf(log[1])];
    RowsAsLogged(ref, log);
  }

  lemma OverlappingUndo(ref: Ref)
    ensures Undo(C, Shown(OverlappingLog(ref))) == B
  {
    var history := Shown(OverlappingLog(ref));
    assert history[0].changes == map["name" := FieldChange(Some("a"), Some("b"))];
    assert history[1].changes == map["name" := FieldChange(Some("b"), Some("c"))];
    assert Backward(C, history[0].changes) == A;
    assert Backward(A, history[1].changes) == B;
    assert history == [history[0], history[1]];
    assert history[1..] == [history[1]] && [history[1]][1..] == [];
    assert Undo(A, [history[1]]) == Undo(B, []);
  }

  /** Overlapping transactions do mislead: the one that began first writes last, so its entry
      is listed last, and undoing the history does not restore the row. */
  lemma OverlappingTransactionsMislead(ref: Ref) returns (dbs: seq<Db>, writes: seq<Write>)
    ensures Run(dbs, writes) && |writes| == 2
    ensures dbs[0].rows == map[ref := A] && dbs[2].rows == map[ref := C]
    ensures HistoryRows(dbs[2].log, ref, 2) == dbs[2].log
    ensures Undo(C, GetHistory(dbs[2].log, ref, 2)) == B && !Agree(B, A)
  {
    dbs, writes := OverlappingRun(ref);
    OverlappingRows(ref, OverlappingLog(ref));
    OverlappingUndo(ref);
    assert Get(B, "name") != Get(A, "name");
  }

  // ---------------------------------------------------------------- exactly when

  /** The run writes one row only, in transactions that began at the given times. */
  ghost predicate Writes(dbs: seq<Db>, writes: seq<Write>, ref: Ref, times: seq<int>) {
    && Run(dbs, writes) && |writes| == |times|
    && forall i :: 0 <= i < |writes| ==> writes[i].ref == ref && writes[i].txTime == times[i]
  }

  predicate Nondecreasing(times: seq<int>) {
    forall i, j :: 0 <= i < j < |times| ==> times[i] <= times[j]
  }

  /** Undoing the whole history from the row at the end yields the row at the start. */
  ghost predicate UndoRestores(dbs: seq<Db>, writes: seq<Write>, ref: Ref)
    requires |dbs| == |writes| + 1
  {
    var n := |writes|;
    Agree(Undo(OrEmpty(Current(dbs[n], ref)), GetHistory(dbs[n].log, ref, n)), OrEmpty(Current(dbs[0], ref)))
  }

  /** Replaying the whole history from the row at the start yields the row at the end. */
  ghost predicate ReplayRebuilds(dbs: seq<Db>, writes: seq<Write>, ref: Ref)
    requires |dbs| == |writes| + 1
  {
    var n := |writes|;
    Agree(Replay(OrEmpty(Current(dbs[0], ref)), GetHistory(dbs[n].log, ref, n)), OrEmpty(Current(dbs[n], ref)))
  }

  lemma {:induction false} OneRowLog(dbs: seq<Db>, writes: seq<Write>, ref: Ref, times: seq<int>, k: nat)
    requires Writes(dbs, writes, ref, times) && k <= |writes|
    ensures |dbs[k].log| == k && IdsIncrease(dbs[k].log)
    ensures forall i :: 0 <= i < k ==> dbs[k].log[i].ref == ref && dbs[k].log[i].changedAt == times[i]
    ensures k > 0 ==> dbs[k].log[0].oldData == Current(dbs[0], ref)
  {
    if k > 0 {
      OneRowLog(dbs, writes, ref, times, k - 1);
      assert Enabled(dbs[k - 1], writes[k - 1]) && dbs[k] == LogAudit(dbs[k - 1], writes[k - 1]);
    }
  }

  lemma {:induction false} AllOfOneRow(log: seq<Entry>, ref: Ref)
    requires forall i :: 0 <= i < |log| ==> log[i].ref == ref
    ensures Of(log, ref) == log
  {
    if log != [] {
      AllOfOneRow(log[..|log| - 1], ref);
    }
  }

  lemma InOrderRestores(dbs: seq<Db>, writes: seq<Write>, ref: Ref, times: seq<int>)
    requires Writes(dbs, writes, ref, times) && Nondecreasing(times)
    ensures UndoRestores(dbs, writes, ref) && ReplayRebuilds(dbs, writes, ref)
  {
    var n := |writes|;
    OneRowLog(dbs, writes, ref, times, n);
    AllOfOneRow(dbs[n].log, ref);
    UndoingHistoryRestores(dbs, writes, n, ref, n);
    ReplayingHistoryRebuilds(dbs, writes, n, ref, n);
  }

  // A run that goes wrong: write `i` sets the name from a to b and the next one from b to c, and
  // the other writes change nothing.

  function NameAfter(i: nat, k: nat): Data {
    if k <= i then A else if k == i + 1 then B else C
  }

  function WriteAt(ref: Ref, times: seq<int>, i: nat, k: nat): Write
    requires k < |times|
  {
    Write(ref, Some(NameAfter(i, k + 1)), None, times[k], k)
  }

  function EntryOf(ref: Ref, times: seq<int>, i: nat, k: nat): Entry
    requires k < |times|
  {
    Entry(k, ref, UPDATE, Some(NameAfter(i, k)), Some(NameAfter(i, k + 1)), None, times[k])
  }

  function LogUpTo(ref: Ref, times: seq<int>, i: nat, k: nat): (log: seq<Entry>)
    requires k <= |times|
    ensures |log| == k && forall j :: 0 <= j < k ==> log[j] == EntryOf(ref, times, i, j)
  {
    seq(k, j requires 0 <= j < k => EntryOf(ref, times, i, j))
  }

  function DbAt(ref: Ref, times: seq<int>, i: nat, k: nat): Db
    requires k <= |times|
  {
    Db(map[ref := NameAfter(i, k)], LogUpTo(ref, times, i, k))
  }

  lemma NextDb(ref: Ref, times: seq<int>, i: nat, k: nat)
    requires k < |times|
    ensures Enabled(DbAt(ref, times, i, k), WriteAt(ref, times, i, k))
    ensures LogAudit(DbAt(ref, times, i, k), WriteAt(ref, times, i, k)) == DbAt(ref, times, i, k + 1)
  {
    var before, after := LogUpTo(ref, times, i, k), LogUpTo(ref, times, i, k + 1);
    assert after == before + [EntryOf(ref, times, i, k)];
  }

  lemma InversionRun(ref: Ref, times: seq<int>, i: nat) returns (dbs: seq<Db>, writes: seq<Write>)
    requires i + 1 < |times|
    ensures Writes(dbs, writes, ref, times)
    ensures dbs[0].rows == map[ref := A] && dbs[|times|] == DbAt(ref, times, i, |times|)
  {
    var n := |times|;
    dbs := seq(n + 1, k requires 0 <= k <= n => DbAt(ref, times, i, k));
    writes := seq(n, k requires 0 <= k < n => WriteAt(ref, times, i, k));
    forall k | 0 <= k < n ensures Enabled(dbs[k], writes[k]) && dbs[k + 1] == LogAudit(dbs[k], writes[k]) {
      NextDb(ref, times, i, k);
    }
  }

  function Name(d: Data): Option<string> {
    Get(d, "name")
  }

  predicate Silent(h: HistoryEntry) {
    h.changes == map[]
  }

  /** Undoing ends with the last entry that says anything, replaying with the first. */
  lemma {:induction false} UndoEndsWith(d: Data, history: seq<HistoryEntry>, q: nat)
    requires q < |history| && "name" in history[q].changes
    requires forall r :: q < r < |history| ==> Silent(history[r])
    ensures Name(Undo(d, history)) == history[q].changes["name"].before
    decreases |history|
  {
    var d' := Backward(d, history[0].changes);
    if q == 0 {
      UndoSilent(d', history[1..]);
    } else {
      UndoEndsWith(d', history[1..], q - 1);
    }
  }

  lemma {:induction false} UndoSilent(d: Data, history: seq<HistoryEntry>)
    requires forall r :: 0 <= r < |history| ==> Silent(history[r])
    ensures Undo(d, history) == d
    decreases |history|
  {
    if history != [] {
      assert Backward(d, map[]) == d;
      UndoSilent(d, history[1..]);
    }
  }

  lemma {:induction false} ReplayEndsWith(d: Data, history: seq<HistoryEntry>, q: nat)
    requires q < |history| && "name" in history[q].changes
    requires forall r :: 0 <= r < q ==> Silent(history[r])
    ensures Name(Replay(d, history)) == history[q].changes["name"].after
    decreases |history|
  {
    if q > 0 {
      ReplayEndsWith(d, history[1..], q - 1);
      var rest := Replay(d, history[1..]);
      assert Forward(rest, map[]) == rest;
    }
  }

  lemma Telling(ref: Ref, times: seq<int>, i: nat, k: nat)
    requires k < |times|
    ensures var e := EntryOf(ref, times, i, k);
            var changes := ComputeChanges(e.oldData, e.newData);
            && (k != i && k != i + 1 ==> changes == map[])
            && (k == i ==> changes == map["name" := FieldChange(Some("a"), Some("b"))])
            && (k == i + 1 ==> changes == map["name" := FieldChange(Some("b"), Some("c"))])
  {
  }

  /** Every entry of the log has its place in the full history. */
  lemma PlaceInHistory(log: seq<Entry>, ref: Ref, k: nat) returns (q: nat)
    requires IdsIncrease(log) && Of(log, ref) == log && k < |log|
    ensures q < |HistoryRows(log, ref, |log|)| && HistoryRows(log, ref, |log|)[q] == log[k]
  {
    NewerFirstIsTotal();
    var stamps := set s | s in Stamps(log);
    var order := OrderBy(NewerFirst(), stamps);
    StampCount(log);
    assert NewestStamps(log, |log|) == order;
    EntryAtFinds(log, k);
    assert StampOf(log[k]) in order;
    q :| 0 <= q < |order| && order[q] == StampOf(log[k]);
  }

  lemma {:induction false} StampCount(log: seq<Entry>)
    ensures |set s | s in Stamps(log)| <= |log|
  {
    SeqSetSize(Stamps(log));
  }

  /** Where a later write has the earlier time, the history lists it after the other one. */
  lemma InversionHistory(ref: Ref, times: seq<int>, i: nat)
    requires i + 1 < |times| && times[i] > times[i + 1]
    ensures var history := GetHistory(LogUpTo(ref, times, i, |times|), ref, |times|);
            Name(Undo(C, history)) == Some("b") && Name(Replay(A, history)) == Some("b")
  {
    var history := GetHistory(LogUpTo(ref, times, i, |times|), ref, |times|);
    var last := LastTelling(ref, times, i);
    UndoEndsWith(C, history, last);
    var first := FirstTelling(ref, times, i);
    ReplayEndsWith(A, history, first);
  }

  /** Where the history lists a write. */
  lemma ListedAt(ref: Ref, times: seq<int>, i: nat, k: nat) returns (q: nat)
    requires k < |times|
    ensures var rows := HistoryRows(LogUpTo(ref, times, i, |times|), ref, |times|);
            q < |rows| && rows[q] == EntryOf(ref, times, i, k)
  {
    AllOfOneRow(LogUpTo(ref, times, i, |times|), ref);
    q := PlaceInHistory(LogUpTo(ref, times, i, |times|), ref, k);
  }

  lemma SilentShown(rows: seq<Entry>, r: nat)
    requires r < |rows| && ComputeChanges(rows[r].oldData, rows[r].newData) == map[]
    ensures Silent(Shown(rows)[r])
  {
  }

  /** The later write is the last one listed that says anything. */
  lemma LastTelling(ref: Ref, times: seq<int>, i: nat) returns (q: nat)
    requires i + 1 < |times| && times[i] > times[i + 1]
    ensures var history := GetHistory(LogUpTo(ref, times, i, |times|), ref, |times|);
            && q < |history| && history[q].changes == map["name" := FieldChange(Some("b"), Some("c"))]
            && forall r :: q < r < |history| ==> Silent(history[r])
  {
    var rows := HistoryRows(LogUpTo(ref, times, i, |times|), ref, |times|);
    q := ListedAt(ref, times, i, i + 1);
    forall r | q < r < |rows| ensures Silent(Shown(rows)[r]) {
      SilentBeside(ref, times, i, rows, r, q);
      SilentShown(rows, r);
    }
    Telling(ref, times, i, i + 1);
  }

  /** And the earlier write the first one. */
  lemma FirstTelling(ref: Ref, times: seq<int>, i: nat) returns (q: nat)
    requires i + 1 < |times| && times[i] > times[i + 1]
    ensures var history := GetHistory(LogUpTo(ref, times, i, |times|), ref, |times|);
            && q < |history| && history[q].changes == map["name" := FieldChange(Some("a"), Some("b"))]
            && forall r :: 0 <= r < q ==> Silent(history[r])
  {
    var rows := HistoryRows(LogUpTo(ref, times, i, |times|), ref, |times|);
    q := ListedAt(ref, times, i, i);
    forall r | 0 <= r < q ensures Silent(Shown(rows)[r]) {
      SilentBeside(ref, times, i, rows, r, q);
      SilentShown(rows, r);
    }
    Telling(ref, times, i, i);
  }

  /** Entries listed after the second of the two, or before the first, change nothing. */
  lemma SilentBeside(ref: Ref, times: seq<int>, i: nat, rows: seq<Entry>, r: nat, q: nat)
    requires i + 1 < |times| && times[i] > times[i + 1]
    requires rows == HistoryRows(LogUpTo(ref, times, i, |times|), ref, |times|)
    requires r < |rows| && q < |rows|
    requires (r > q && rows[q] == EntryOf(ref, times, i, i + 1)) || (r < q && rows[q] == EntryOf(ref, times, i, i))
    ensures ComputeChanges(rows[r].oldData, rows[r].newData) == map[]
  {
    var k := LoggedAs(ref, times, i, r);
    if r > q {
      ListedInOrder(LogUpTo(ref, times, i, |times|), ref, |times|, q, r);
    } else {
      ListedInOrder(LogUpTo(ref, times, i, |times|), ref, |times|, r, q);
    }
    assert k != i && k != i + 1;
    Telling(ref, times, i, k);
  }

  lemma ListedInOrder(log: seq<Entry>, ref: Ref, limit: nat, q: nat, r: nat)
    requires q < r < |HistoryRows(log, ref, limit)|
    ensures var a, b := HistoryRows(log, ref, limit)[q], HistoryRows(log, ref, limit)[r];
            b.changedAt < a.changedAt || (b.changedAt == a.changedAt && b.id < a.id)
  {
    var rows := HistoryRows(log, ref, limit);
    assert NewerFirst()(Stamps(rows)[q], Stamps(rows)[r]);
  }

  lemma LoggedAs(ref: Ref, times: seq<int>, i: nat, r: nat) returns (k: nat)
    requires r < |HistoryRows(LogUpTo(ref, times, i, |times|), ref, |times|)|
    ensures k < |times| && HistoryRows(LogUpTo(ref, times, i, |times|), ref, |times|)[r] == EntryOf(ref, times, i, k)
  {
    var log := LogUpTo(ref, times, i, |times|);
    AllOfOneRow(log, ref);
    RowsComeFromLog(log, ref, r);
    k :| 0 <= k < |log| && HistoryRows(log, ref, |log|)[r] == log[k];
  }

  lemma RowsComeFromLog(log: seq<Entry>, ref: Ref, r: nat)
    requires Of(log, ref) == log && r < |HistoryRows(log, ref, |log|)|
    ensures exists k :: 0 <= k < |log| && HistoryRows(log, ref, |log|)[r] == log[k]
  {
    var stamps := NewestStamps(log, |log|);
    assert stamps[r] in stamps;
    assert HistoryRows(log, ref, |log|)[r] == EntryAt(log, stamps[r]);
    assert EntryAt(log, stamps[r]) in log;
  }

  lemma FirstInversion(times: seq<int>) returns (i: nat)
    requires !Nondecreasing(times)
    ensures i + 1 < |times| && times[i] > times[i + 1]
  {
    if forall i :: 0 <= i < |times| - 1 ==> times[i] <= times[i + 1] {
      forall i, j | 0 <= i < j < |times| ensures times[i] <= times[j] {
        StepwiseOrder(times, i, j);
      }
    }
    i :| 0 <= i < |times| - 1 && times[i] > times[i + 1];
  }

  lemma {:induction false} StepwiseOrder(times: seq<int>, i: nat, j: nat)
    requires i <= j < |times| && forall k :: 0 <= k < |times| - 1 ==> times[k] <= times[k + 1]
    ensures times[i] <= times[j]
    decreases j - i
  {
    if i < j {
      StepwiseOrder(times, i, j - 1);
    }
  }

  /** Exactly: for given transaction times of the writes of a row, undoing the history restores
      the row whatever was written, and so does replaying it rebuild the row, if and only if no
      later write carries an earlier time. */
  lemma UndoRestoresIffInOrder(ref: Ref, times: seq<int>)
    ensures (forall dbs, writes :: Writes(dbs, writes, ref, times) ==> UndoRestores(dbs, writes, ref))
      <==> Nondecreasing(times)
    ensures (forall dbs, writes :: Writes(dbs, writes, ref, times) ==> ReplayRebuilds(dbs, writes, ref))
      <==> Nondecreasing(times)
  {
    if Nondecreasing(times) {
      forall dbs, writes | Writes(dbs, writes, ref, times)
        ensures UndoRestores(dbs, writes, ref) && ReplayRebuilds(dbs, writes, ref)
      {
        InOrderRestores(dbs, writes, ref, times);
      }
    } else {
      var i := FirstInversion(times);
      var dbs, writes := InversionRun(ref, times, i);
      InversionHistory(ref, times, i);
      assert Name(A) == Some("a") && Name(C) == Some("c");
      assert !UndoRestores(dbs, writes, ref) && !ReplayRebuilds(dbs, writes, ref);
    }
  }
}
