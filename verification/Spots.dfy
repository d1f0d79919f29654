/** The explore queries of vivacapi/crud/spot.py: one set of filters, the uid-ordered list and
    the ranked search with their cursors, the count and the map. */
module Spots {
  import opened Wrappers
  import opened Text
  import opened Keyset
  import opened Region

  datatype PipelineStatus = RAW | ENRICHED | CURATED | REVIEWED | PUBLISHED | REJECTED

  datatype BBox = BBox(minLng: real, minLat: real, maxLng: real, maxLat: real)

  /** The columns the queries look at; `text` stands for the searched texts. */
  datatype Spot = Spot(
    status: PipelineStatus,
    deleted: bool,
    latitude: Option<real>,
    longitude: Option<real>,
    category: seq<string>,
    region: Option<string>,
    ratingAvg: real,
    text: string
  )

  /** Rows by uid. */
  type Table = map<string, Spot>

  datatype Error = ValidationError | CursorScopeMismatch

  const TOTAL_CAP: nat := 10_000

  /** What a search cursor carries. */
  datatype SearchToken = SearchToken(score: real, rating: real, uid: string, scope: string)

  /** What the queries take from outside: the settings, the region index, the database's uid
      order and text search, and the fingerprint and cursor codecs. */
  datatype Env = Env(
    requireCoordinates: bool,
    regions: map<string, seq<string>>,
    uidLess: (string, string) -> bool,
    score: (string, Spot) -> real,
    textMatch: (string, Spot) -> bool,
    isBlank: string -> bool,
    fingerprint: BBox -> string,
    encodeCursor: SearchToken -> string,
    decodeCursor: string -> Option<SearchToken>
  )

  ghost predicate EnvOk(env: Env) {
    && StrictTotal(env.uidLess)
    && forall t :: env.encodeCursor(t) != "" && env.decodeCursor(env.encodeCursor(t)) == Some(t)
  }

  /** Request filters; an empty category list or region counts as no filter. */
  datatype Filters = Filters(category: seq<string>, region: string, bbox: Option<BBox>)

  predicate TableOk(table: Table) {
    forall u :: u in table ==> Free(u, ':')
  }

  // ---------------------------------------------------------------- filters

  predicate Overlaps(a: seq<string>, b: seq<string>) {
    exists c :: c in a && c in b
  }

  predicate Inside(bbox: BBox, spot: Spot) {
    && spot.latitude.Some? && spot.longitude.Some?
    && bbox.minLat <= spot.latitude.value <= bbox.maxLat
    && bbox.minLng <= spot.longitude.value <= bbox.maxLng
  }

  /** The WHERE clauses of `_apply_explore_filters`. */
  predicate Matches(env: Env, filters: Filters, requireCoordinates: bool, spot: Spot) {
    && spot.status == PUBLISHED && !spot.deleted
    && (requireCoordinates ==> spot.latitude.Some? && spot.longitude.Some?)
    && (filters.category != [] ==> Overlaps(spot.category, filters.category))
    && (filters.region != "" ==>
          spot.region.Some? && spot.region.value in RawNamesForRegionFilter(env.regions, filters.region))
    && (filters.bbox.Some? ==> Inside(filters.bbox.value, spot))
  }

  predicate UnknownRegion(env: Env, filters: Filters) {
    filters.region != "" && RawNamesForRegionFilter(env.regions, filters.region) == []
  }

  function Eligible(env: Env, table: Table, filters: Filters): set<string> {
    set u | u in table && Matches(env, filters, env.requireCoordinates, table[u])
  }

  /** With the shipped name table, the region filter keeps exactly the spots whose label
      (`region_short` in the response) is the filter value. */
  lemma RegionFilterSelectsLabel(env: Env, filters: Filters, names: Names, table: Table, u: string)
    requires DistinctNames(names) && Settled(names) && IsInverse(names, env.regions)
    requires filters.region in Whitelist(names) && filters.region != "" && u in table
    ensures !UnknownRegion(env, filters)
    ensures u in Eligible(env, table, filters) <==>
              && u in Eligible(env, table, filters.(region := ""))
              && AbbreviateSido(names, table[u].region) == Some(filters.region)
  {
    InverseIndexIsExactIffSettled(names, env.regions);
    UnknownRegionSelectsNothing(names, env.regions, filters.region);
    if table[u].region.Some? {
      assert table[u].region.value in RawNamesForRegionFilter(env.regions, filters.region)
        <==> AbbreviateSido(names, Some(table[u].region.value)) == Some(filters.region);
    }
  }

  // ---------------------------------------------------------------- cursors

  function Scope(env: Env, bbox: Option<BBox>): string {
    if bbox.None? then "" else env.fingerprint(bbox.value)
  }

  /** Python's `s.rpartition(":")` without the separator: everything before the last colon
      and everything after it; without a colon, "" and the whole string. */
  function RPartition(s: string): (string, string) {
    if Free(s, ':') then ("", s)
    else if s[|s| - 1] == ':' then (s[..|s| - 1], "")
    else
      assert !Free(s[..|s| - 1], ':') by {
        var i :| 0 <= i < |s| && s[i] == ':';
        assert s[..|s| - 1][i] == ':';
      }
      var (before, after) := RPartition(s[..|s| - 1]);
      (before, after + [s[|s| - 1]])
  }

  function ListCursor(scope: string, uid: string): string {
    scope + ":" + uid
  }

  /** A list cursor is read back as it was written: the uid has no colon. */
  lemma {:induction false} ListCursorRoundTrip(scope: string, uid: string)
    requires Free(uid, ':')
    ensures RPartition(ListCursor(scope, uid)) == (scope, uid)
  {
    var s := ListCursor(scope, uid);
    assert s[|scope|] == ':';
    if uid == "" {
      assert s[..|s| - 1] == scope;
    } else {
      var short := uid[..|uid| - 1];
      ListCursorRoundTrip(scope, short);
      assert s[..|s| - 1] == ListCursor(scope, short);
      assert uid == short + [uid[|uid| - 1]];
    }
  }

  // ---------------------------------------------------------------- list

  datatype Response = Response(uids: seq<string>, nextCursor: Option<string>, hasMore: bool)

  function ListResponse(scope: string, page: Page<string>): Response {
    Response(page.rows, if page.next.Some? then Some(ListCursor(scope, page.next.value)) else None, page.hasMore)
  }

  /** `list_spots`; an empty cursor counts as none. */
  ghost function ListSpots(env: Env, table: Table, filters: Filters, cursor: Option<string>, limit: nat)
    : Result<Response, Error>
    requires EnvOk(env) && limit >= 1
  {
    var scope := Scope(env, filters.bbox);
    if UnknownRegion(env, filters) then Err(ValidationError)
    else if cursor.Some? && cursor.value != "" then
      var (cursorScope, lastUid) := RPartition(cursor.value);
      if cursorScope != scope then Err(CursorScopeMismatch)
      else Ok(ListResponse(scope, Fetch(env.uidLess, Eligible(env, table, filters), Some(lastUid), limit)))
    else Ok(ListResponse(scope, Fetch(env.uidLess, Eligible(env, table, filters), None, limit)))
  }

  /** Response `i` is what the endpoint answers on `tables[i]` to the cursor of the response
      before; the last one says that nothing follows. */
  ghost predicate ListWalk(
    env: Env, tables: seq<Table>, filters: Filters, cursor: Option<string>, limit: nat, answers: seq<Response>)
    requires EnvOk(env) && limit >= 1
    decreases |answers|
  {
    && |answers| == |tables| > 0
    && ListSpots(env, tables[0], filters, cursor, limit) == Ok(answers[0])
    && (answers[0].hasMore <==> |answers| > 1)
    && (|answers| > 1 ==> ListWalk(env, tables[1..], filters, answers[0].nextCursor, limit, answers[1..]))
  }

  ghost function Listed(answers: seq<Response>): seq<string> {
    if answers == [] then [] else answers[0].uids + Listed(answers[1..])
  }

  function EligibleAt(env: Env, tables: seq<Table>, filters: Filters): seq<set<string>> {
    seq(|tables|, i requires 0 <= i < |tables| => Eligible(env, tables[i], filters))
  }

  lemma EligibleAtTail(env: Env, tables: seq<Table>, filters: Filters)
    requires tables != []
    ensures EligibleAt(env, tables, filters)[0] == Eligible(env, tables[0], filters)
    ensures EligibleAt(env, tables, filters)[1..] == EligibleAt(env, tables[1..], filters)
  {
    var a, b := EligibleAt(env, tables, filters)[1..], EligibleAt(env, tables[1..], filters);
    forall i | 0 <= i < |a| ensures a[i] == b[i] {
      assert tables[1..][i] == tables[i + 1];
    }
  }

  function CursorAfter(env: Env, filters: Filters, last: Option<string>): Option<string> {
    if last.Some? then Some(ListCursor(Scope(env, filters.bbox), last.value)) else None
  }

  /** A cursor the list issued continues after the uid inside it. */
  lemma ListContinues(env: Env, table: Table, filters: Filters, last: Option<string>, limit: nat)
    requires EnvOk(env) && limit >= 1 && !UnknownRegion(env, filters)
    requires last.Some? ==> Free(last.value, ':')
    ensures ListSpots(env, table, filters, CursorAfter(env, filters, last), limit)
         == Ok(ListResponse(Scope(env, filters.bbox), Fetch(env.uidLess, Eligible(env, table, filters), last, limit)))
  {
    if last.Some? {
      ListCursorRoundTrip(Scope(env, filters.bbox), last.value);
    }
  }

  /** The first answer of a walk is one fetch; the rest is a walk from its cursor. */
  lemma ListWalkHead(
    env: Env, tables: seq<Table>, filters: Filters, last: Option<string>, limit: nat, answers: seq<Response>)
    returns (page: Page<string>)
    requires EnvOk(env) && limit >= 1 && forall i :: 0 <= i < |tables| ==> TableOk(tables[i])
    requires last.Some? ==> Free(last.value, ':')
    requires ListWalk(env, tables, filters, CursorAfter(env, filters, last), limit, answers)
    ensures page == Fetch(env.uidLess, Eligible(env, tables[0], filters), last, limit)
    ensures answers[0].uids == page.rows && |answers| == |tables|
    ensures page.hasMore <==> |answers| > 1
    ensures |answers| > 1 ==>
              && Free(page.next.value, ':')
              && ListWalk(env, tables[1..], filters, CursorAfter(env, filters, page.next), limit, answers[1..])
  {
    page := Fetch(env.uidLess, Eligible(env, tables[0], filters), last, limit);
    ListContinues(env, tables[0], filters, last, limit);
    if page.hasMore {
      assert page.next.value in page.rows && page.next.value in tables[0];
    }
  }

  /** The string cursors drive the same walk as the uids inside them. */
  lemma {:induction false} ListWalkIsKeysetWalk(
    env: Env, tables: seq<Table>, filters: Filters, last: Option<string>, limit: nat, answers: seq<Response>)
    returns (pages: seq<Page<string>>)
    requires EnvOk(env) && limit >= 1 && forall i :: 0 <= i < |tables| ==> TableOk(tables[i])
    requires last.Some? ==> Free(last.value, ':')
    requires ListWalk(env, tables, filters, CursorAfter(env, filters, last), limit, answers)
    ensures Walk(env.uidLess, EligibleAt(env, tables, filters), last, limit, pages)
    ensures Rows(pages) == Listed(answers)
    decreases |answers|
  {
    var page := ListWalkHead(env, tables, filters, last, limit, answers);
    var rest := [];
    if page.hasMore {
      rest := ListWalkIsKeysetWalk(env, tables[1..], filters, page.next, limit, answers[1..]);
    }
    var eligible := EligibleAt(env, tables, filters);
    EligibleAtTail(env, tables, filters);
    WalkCons(env.uidLess, eligible, last, limit, page, rest);
    pages := [page] + rest;
  }

  /** The list under concurrent edits: rows may be inserted, deleted or changed between the
      fetches of a walk. No uid is returned twice, every returned uid matched at some fetch,
      and every uid that matched at every fetch is returned. */
  lemma ListWalkUnderEdits(env: Env, tables: seq<Table>, filters: Filters, limit: nat, answers: seq<Response>)
    requires EnvOk(env) && limit >= 1 && forall i :: 0 <= i < |tables| ==> TableOk(tables[i])
    requires ListWalk(env, tables, filters, None, limit, answers)
    ensures forall i, j :: 0 <= i < j < |Listed(answers)| ==> Listed(answers)[i] != Listed(answers)[j]
    ensures forall u :: u in Listed(answers) ==> exists i :: 0 <= i < |tables| && u in Eligible(env, tables[i], filters)
    ensures forall u :: (forall i :: 0 <= i < |tables| ==> u in Eligible(env, tables[i], filters)) ==>
      u in Listed(answers)
  {
    var pages := ListWalkIsKeysetWalk(env, tables, filters, None, limit, answers);
    var eligible := EligibleAt(env, tables, filters);
    WalkIsCompleteAndDuplicateFree(env.uidLess, eligible, limit, pages);
    forall u | u in Listed(answers) ensures exists i :: 0 <= i < |tables| && u in Eligible(env, tables[i], filters) {
      var i :| 0 <= i < |eligible| && u in eligible[i];
      assert u in Eligible(env, tables[i], filters);
    }
    forall u | forall i :: 0 <= i < |tables| ==> u in Eligible(env, tables[i], filters) ensures u in Listed(answers) {
      assert forall i :: 0 <= i < |eligible| ==> u in eligible[i];
    }
  }

  /** The list at rest: the joined answers are exactly the matching uids in order. */
  lemma ListWalkAtRest(env: Env, table: Table, filters: Filters, limit: nat, answers: seq<Response>)
    requires EnvOk(env) && limit >= 1 && TableOk(table)
    requires ListWalk(env, Same(table, |answers|), filters, None, limit, answers)
    ensures Listed(answers) == OrderBy(env.uidLess, Eligible(env, table, filters))
  {
    var tables, eligible := Same(table, |answers|), Eligible(env, table, filters);
    var pages := ListWalkIsKeysetWalk(env, tables, filters, None, limit, answers);
    assert EligibleAt(env, tables, filters) == Same(eligible, |pages|);
    WalkOnFixedTable(env.uidLess, eligible, None, limit, pages);
    WalkAtRestIsExact(env.uidLess, eligible, limit);
  }

  /** And these are, by ascending uid, the published spots that are not deleted and pass every
      filter given. */
  lemma ListShowsPublicSpots(env: Env, table: Table, filters: Filters, limit: nat, answers: seq<Response>)
    requires EnvOk(env) && limit >= 1 && TableOk(table)
    requires ListWalk(env, Same(table, |answers|), filters, None, limit, answers)
    ensures forall i, j :: 0 <= i < j < |Listed(answers)| ==> env.uidLess(Listed(answers)[i], Listed(answers)[j])
    ensures forall u :: u in Listed(answers) <==>
              && u in table && table[u].status == PUBLISHED && !table[u].deleted
              && (env.requireCoordinates ==> table[u].latitude.Some? && table[u].longitude.Some?)
              && (filters.category == [] || exists c :: c in filters.category && c in table[u].category)
              && (filters.region == "" || (table[u].region.Some? && filters.region in env.regions
                                           && table[u].region.value in env.regions[filters.region]))
              && (filters.bbox.None? || (table[u].latitude.Some? && table[u].longitude.Some?
                    && filters.bbox.value.minLat <= table[u].latitude.value <= filters.bbox.value.maxLat
                    && filters.bbox.value.minLng <= table[u].longitude.value <= filters.bbox.value.maxLng))
  {
    ListWalkAtRest(env, table, filters, limit, answers);
    var listed := Listed(answers);
    assert forall u :: u in listed <==> u in Eligible(env, table, filters);
    assert !UnknownRegion(env, filters);
  }

  ghost function StaticAnswers(scope: string, pages: seq<Page<string>>): seq<Response> {
    seq(|pages|, i requires 0 <= i < |pages| => ListResponse(scope, pages[i]))
  }

  lemma StaticAnswersTail(scope: string, pages: seq<Page<string>>)
    requires pages != []
    ensures StaticAnswers(scope, pages)[0] == ListResponse(scope, pages[0])
    ensures StaticAnswers(scope, pages)[1..] == StaticAnswers(scope, pages[1..])
  {
  }

  /** A walk at rest exists and ends, with every answer but the last one full. */
  lemma {:induction false} ListWalkEnds(env: Env, table: Table, filters: Filters, last: Option<string>, limit: nat)
    requires EnvOk(env) && limit >= 1 && TableOk(table) && !UnknownRegion(env, filters)
    requires last.Some? ==> Free(last.value, ':')
    ensures var answers := StaticAnswers(Scope(env, filters.bbox),
              StaticWalk(env.uidLess, Eligible(env, table, filters), last, limit));
            ListWalk(env, Same(table, |answers|), filters, CursorAfter(env, filters, last), limit, answers)
    decreases |After(env.uidLess, Eligible(env, table, filters), last)|
  {
    var scope, eligible := Scope(env, filters.bbox), Eligible(env, table, filters);
    var pages := StaticWalk(env.uidLess, eligible, last, limit);
    var answers := StaticAnswers(scope, pages);
    StaticWalkUnfolds(env.uidLess, eligible, last, limit);
    StaticAnswersTail(scope, pages);
    SameTail(table, |answers|);
    ListContinues(env, table, filters, last, limit);
    if pages[0].hasMore {
      var next := pages[0].next;
      assert next.value in pages[0].rows && next.value in table;
      ListWalkEnds(env, table, filters, next, limit);
    }
  }

  /** Paging through a table at rest: the walk from no cursor ends, every answer but the last
      is full, and the answers joined are exactly the matching uids in order. */
  lemma ListPagesThrough(env: Env, table: Table, filters: Filters, limit: nat) returns (answers: seq<Response>)
    requires EnvOk(env) && limit >= 1 && TableOk(table) && !UnknownRegion(env, filters)
    ensures ListWalk(env, Same(table, |answers|), filters, None, limit, answers)
    ensures forall i :: 0 <= i < |answers| - 1 ==> |answers[i].uids| == limit
    ensures Listed(answers) == OrderBy(env.uidLess, Eligible(env, table, filters))
  {
    var pages := StaticWalk(env.uidLess, Eligible(env, table, filters), None, limit);
    answers := StaticAnswers(Scope(env, filters.bbox), pages);
    ListWalkEnds(env, table, filters, None, limit);
    StaticWalkIsPacked(env.uidLess, Eligible(env, table, filters), None, limit);
    ListWalkAtRest(env, table, filters, limit, answers);
  }

  /** A cursor issued for one bbox is refused for any bbox with another fingerprint. */
  lemma ForeignCursorIsRefused(env: Env, table: Table, filters: Filters, limit: nat, issued: Option<BBox>, uid: string)
    requires EnvOk(env) && limit >= 1 && Free(uid, ':') && !UnknownRegion(env, filters)
    ensures var answer := ListSpots(env, table, filters, Some(ListCursor(Scope(env, issued), uid)), limit);
            var from := if issued.Some? then env.fingerprint(issued.value) else "";
            var to := if filters.bbox.Some? then env.fingerprint(filters.bbox.value) else "";
            && (answer.Ok? <==> from == to)
            && (answer.Err? ==> answer == Err(CursorScopeMismatch))
  {
    ListCursorRoundTrip(Scope(env, issued), uid);
  }

  /** A region is refused, whatever is asked, if and only if it is given and not on the
      whitelist; and a search cursor that cannot be decoded is refused as well. */
  lemma UnknownRegionIsRefused(
    env: Env, table: Table, filters: Filters, query: string, cursor: Option<string>, limit: nat, names: Names)
    requires EnvOk(env) && limit >= 1 && IsInverse(names, env.regions)
    ensures var unknown := filters.region != "" && filters.region !in Whitelist(names);
            && (unknown ==> ListSpots(env, table, filters, cursor, limit) == Err(ValidationError))
            && (unknown ==> SearchSpots(env, table, filters, query, cursor, limit) == Err(ValidationError))
            && (unknown ==> CountSpots(env, table, filters, query) == Err(ValidationError))
            && (unknown ==> ListSpotsMap(env, table, filters, query, limit) == Err(ValidationError))
            && (!unknown ==> ListSpots(env, table, filters, None, limit).Ok?)
            && (!unknown ==> SearchSpots(env, table, filters, query, None, limit).Ok?)
            && (!unknown ==> CountSpots(env, table, filters, query).Ok?)
            && (!unknown ==> ListSpotsMap(env, table, filters, query, limit).Ok?)
    ensures cursor.Some? && cursor.value != "" && env.decodeCursor(cursor.value).None? ==>
      SearchSpots(env, table, filters, query, cursor, limit) == Err(ValidationError)
  {
    UnknownRegionSelectsNothing(names, env.regions, filters.region);
  }

  /** A cursor without a colon, such as a search cursor, is read by the list as a uid of no
      bbox: without a bbox, or with one whose fingerprint is empty, it is accepted as if the
      list had gone past that text, and otherwise it is refused. */
  lemma ListReadsAnyColonFreeCursor(env: Env, table: Table, filters: Filters, limit: nat, cursor: string)
    requires EnvOk(env) && limit >= 1 && cursor != "" && Free(cursor, ':') && !UnknownRegion(env, filters)
    ensures ListSpots(env, table, filters, Some(cursor), limit) ==
      if filters.bbox.None? || env.fingerprint(filters.bbox.value) == "" then
        Ok(ListResponse("", Fetch(env.uidLess, Eligible(env, table, filters), Some(cursor), limit)))
      else Err(CursorScopeMismatch)
  {
  }

  // ---------------------------------------------------------------- search

  datatype SearchKey = SearchKey(score: real, rating: real, uid: string)

  /** Row comparison of (score, rating_avg, uid). */
  predicate KeyLess(uidLess: (string, string) -> bool, a: SearchKey, b: SearchKey) {
    || a.score < b.score
    || (a.score == b.score && a.rating < b.rating)
    || (a.score == b.score && a.rating == b.rating && uidLess(a.uid, b.uid))
  }

  /** ORDER BY score DESC, rating_avg DESC, uid DESC. */
  function RankedBefore(env: Env): (SearchKey, SearchKey) -> bool {
    (a: SearchKey, b: SearchKey) => KeyLess(env.uidLess, b, a)
  }

  lemma RankedIsTotal(env: Env)
    requires EnvOk(env)
    ensures StrictTotal(RankedBefore(env))
  {
    var lt := RankedBefore(env);
    forall x, y, z | lt(x, y) && lt(y, z) ensures lt(x, z) {
      assert KeyLess(env.uidLess, y, x) && KeyLess(env.uidLess, z, y);
    }
  }

  function KeyIn(env: Env, table: Table, query: string, u: string): SearchKey
    requires u in table
  {
    SearchKey(env.score(query, table[u]), table[u].ratingAvg, u)
  }

  function Found(env: Env, table: Table, filters: Filters, query: string): set<string> {
    set u | u in Eligible(env, table, filters) && env.textMatch(query, table[u])
  }

  function FoundKeys(env: Env, table: Table, filters: Filters, query: string): set<SearchKey> {
    set u | u in Found(env, table, filters, query) :: KeyIn(env, table, query, u)
  }

  datatype Ranking = Ranking(keys: seq<SearchKey>, nextCursor: Option<string>, hasMore: bool)

  function SearchCursor(env: Env, scope: string, key: SearchKey): string {
    env.encodeCursor(SearchToken(key.score, key.rating, key.uid, scope))
  }

  function SearchResponse(env: Env, scope: string, page: Page<SearchKey>): Ranking {
    Ranking(page.rows, if page.next.Some? then Some(SearchCursor(env, scope, page.next.value)) else None, page.hasMore)
  }

  /** `search_spots`. */
  ghost function SearchSpots(
    env: Env, table: Table, filters: Filters, query: string, cursor: Option<string>, limit: nat)
    : Result<Ranking, Error>
    requires EnvOk(env) && limit >= 1
  {
    RankedIsTotal(env);
    var scope, keys := Scope(env, filters.bbox), FoundKeys(env, table, filters, query);
    if UnknownRegion(env, filters) then Err(ValidationError)
    else if cursor.Some? && cursor.value != "" then
      match env.decodeCursor(cursor.value)
      case None => Err(ValidationError)
      case Some(token) =>
        if token.scope != scope then Err(CursorScopeMismatch)
        else
          var last := SearchKey(token.score, token.rating, token.uid);
          Ok(SearchResponse(env, scope, Fetch(RankedBefore(env), keys, Some(last), limit)))
    else Ok(SearchResponse(env, scope, Fetch(RankedBefore(env), keys, None, limit)))
  }

  ghost predicate SearchWalk(
    env: Env, tables: seq<Table>, filters: Filters, query: string, cursor: Option<string>, limit: nat,
    answers: seq<Ranking>)
    requires EnvOk(env) && limit >= 1
    decreases |answers|
  {
    && |answers| == |tables| > 0
    && SearchSpots(env, tables[0], filters, query, cursor, limit) == Ok(answers[0])
    && (answers[0].hasMore <==> |answers| > 1)
    && (|answers| > 1 ==> SearchWalk(env, tables[1..], filters, query, answers[0].nextCursor, limit, answers[1..]))
  }

  ghost function Ranked(answers: seq<Ranking>): seq<SearchKey> {
    if answers == [] then [] else answers[0].keys + Ranked(answers[1..])
  }

  function FoundKeysAt(env: Env, tables: seq<Table>, filters: Filters, query: string): seq<set<SearchKey>> {
    seq(|tables|, i requires 0 <= i < |tables| => FoundKeys(env, tables[i], filters, query))
  }

  lemma FoundKeysAtTail(env: Env, tables: seq<Table>, filters: Filters, query: string)
    requires tables != []
    ensures FoundKeysAt(env, tables, filters, query)[0] == FoundKeys(env, tables[0], filters, query)
    ensures FoundKeysAt(env, tables, filters, query)[1..] == FoundKeysAt(env, tables[1..], filters, query)
  {
    var a, b := FoundKeysAt(env, tables, filters, query)[1..], FoundKeysAt(env, tables[1..], filters, query);
    forall i | 0 <= i < |a| ensures a[i] == b[i] {
      assert tables[1..][i] == tables[i + 1];
    }
  }

  function RankAfter(env: Env, filters: Filters, last: Option<SearchKey>): Option<string> {
    if last.Some? then Some(SearchCursor(env, Scope(env, filters.bbox), last.value)) else None
  }

  /** The first answer of a walk is one fetch; the rest is a walk from its cursor. */
  lemma SearchWalkHead(
    env: Env, tables: seq<Table>, filters: Filters, query: string, last: Option<SearchKey>, limit: nat,
    answers: seq<Ranking>)
    returns (page: Page<SearchKey>)
    requires EnvOk(env) && limit >= 1 && StrictTotal(RankedBefore(env))
    requires SearchWalk(env, tables, filters, query, RankAfter(env, filters, last), limit, answers)
    ensures page == Fetch(RankedBefore(env), FoundKeys(env, tables[0], filters, query), last, limit)
    ensures answers[0].keys == page.rows && |answers| == |tables|
    ensures page.hasMore <==> |answers| > 1
    ensures |answers| > 1 ==>
              SearchWalk(env, tables[1..], filters, query, RankAfter(env, filters, page.next), limit, answers[1..])
  {
    SearchContinues(env, tables[0], filters, query, last, limit);
    page := Fetch(RankedBefore(env), FoundKeys(env, tables[0], filters, query), last, limit);
    assert answers[0] == SearchResponse(env, Scope(env, filters.bbox), page);
  }

  lemma {:induction false} SearchWalkIsKeysetWalk(
    env: Env, tables: seq<Table>, filters: Filters, query: string, last: Option<SearchKey>, limit: nat,
    answers: seq<Ranking>)
    returns (pages: seq<Page<SearchKey>>)
    requires EnvOk(env) && limit >= 1 && StrictTotal(RankedBefore(env))
    requires SearchWalk(env, tables, filters, query, RankAfter(env, filters, last), limit, answers)
    ensures Walk(RankedBefore(env), FoundKeysAt(env, tables, filters, query), last, limit, pages)
    ensures Rows(pages) == Ranked(answers)
    decreases |answers|
  {
    var page := SearchWalkHead(env, tables, filters, query, last, limit, answers);
    var rest := [];
    if page.hasMore {
      rest := SearchWalkIsKeysetWalk(env, tables[1..], filters, query, page.next, limit, answers[1..]);
    }
    FoundKeysAtTail(env, tables, filters, query);
    WalkCons(RankedBefore(env), FoundKeysAt(env, tables, filters, query), last, limit, page, rest);
    pages := [page] + rest;
  }

  /** A cursor the search issued continues after the row it was issued for. */
  lemma SearchContinues(env: Env, table: Table, filters: Filters, query: string, last: Option<SearchKey>, limit: nat)
    requires EnvOk(env) && limit >= 1 && StrictTotal(RankedBefore(env)) && !UnknownRegion(env, filters)
    ensures SearchSpots(env, table, filters, query, RankAfter(env, filters, last), limit)
         == Ok(SearchResponse(env, Scope(env, filters.bbox),
                 Fetch(RankedBefore(env), FoundKeys(env, table, filters, query), last, limit)))
  {
  }

  /** A search cursor issued for one bbox is refused for any bbox with another fingerprint. */
  lemma ForeignSearchCursorIsRefused(
    env: Env, table: Table, filters: Filters, query: string, limit: nat, issued: Option<BBox>, key: SearchKey)
    requires EnvOk(env) && limit >= 1 && !UnknownRegion(env, filters)
    ensures var cursor := SearchCursor(env, Scope(env, issued), key);
            var answer := SearchSpots(env, table, filters, query, Some(cursor), limit);
            var from := if issued.Some? then env.fingerprint(issued.value) else "";
            var to := if filters.bbox.Some? then env.fingerprint(filters.bbox.value) else "";
            && (answer.Ok? <==> from == to)
            && (answer.Err? ==> answer == Err(CursorScopeMismatch))
  {
  }

  /** Search under concurrent edits: a row that matches at every fetch with the same score and
      rating is returned, wherever other rows move. */
  lemma SearchWalkUnderEdits(
    env: Env, tables: seq<Table>, filters: Filters, query: string, limit: nat, answers: seq<Ranking>, key: SearchKey)
    requires EnvOk(env) && limit >= 1
    requires SearchWalk(env, tables, filters, query, None, limit, answers)
    requires forall i :: 0 <= i < |tables| ==>
      key.uid in Found(env, tables[i], filters, query) && KeyIn(env, tables[i], query, key.uid) == key
    ensures key in Ranked(answers)
  {
    RankedIsTotal(env);
    var pages := SearchWalkIsKeysetWalk(env, tables, filters, query, None, limit, answers);
    var keys := FoundKeysAt(env, tables, filters, query);
    forall i | 0 <= i < |keys| ensures key in keys[i] {
      StaysFound(env, tables, filters, query, key, i);
    }
    WalkIsComplete(RankedBefore(env), keys, None, limit, pages, key);
  }

  lemma StaysFound(env: Env, tables: seq<Table>, filters: Filters, query: string, key: SearchKey, i: nat)
    requires i < |tables|
    requires key.uid in Found(env, tables[i], filters, query) && KeyIn(env, tables[i], query, key.uid) == key
    ensures key in FoundKeysAt(env, tables, filters, query)[i]
  {
  }

  /** And no row is returned twice whose score and rating are the same whenever it matches,
      even if it comes and goes. */
  lemma SearchWalkHasNoDuplicates(
    env: Env, tables: seq<Table>, filters: Filters, query: string, limit: nat, answers: seq<Ranking>,
    key: SearchKey, i: nat, j: nat)
    requires EnvOk(env) && limit >= 1
    requires SearchWalk(env, tables, filters, query, None, limit, answers)
    requires forall n :: 0 <= n < |tables| && key.uid in Found(env, tables[n], filters, query) ==>
      KeyIn(env, tables[n], query, key.uid) == key
    requires i < |Ranked(answers)| && j < |Ranked(answers)|
    requires Ranked(answers)[i].uid == key.uid == Ranked(answers)[j].uid
    ensures i == j
  {
    RankedIsTotal(env);
    var pages := SearchWalkIsKeysetWalk(env, tables, filters, query, None, limit, answers);
    RankedKeyIsFixed(env, tables, filters, query, limit, pages, key, Rows(pages)[i]);
    RankedKeyIsFixed(env, tables, filters, query, limit, pages, key, Rows(pages)[j]);
    WalkIsSorted(RankedBefore(env), FoundKeysAt(env, tables, filters, query), None, limit, pages);
    assert i < j ==> RankedBefore(env)(key, key);
    assert j < i ==> RankedBefore(env)(key, key);
  }

  lemma RankedKeyIsFixed(
    env: Env, tables: seq<Table>, filters: Filters, query: string, limit: nat, pages: seq<Page<SearchKey>>,
    key: SearchKey, k: SearchKey)
    requires StrictTotal(RankedBefore(env)) && limit >= 1
    requires Walk(RankedBefore(env), FoundKeysAt(env, tables, filters, query), None, limit, pages)
    requires forall n :: 0 <= n < |tables| && key.uid in Found(env, tables[n], filters, query) ==>
      KeyIn(env, tables[n], query, key.uid) == key
    requires k in Rows(pages) && k.uid == key.uid
    ensures k == key
  {
    var keys := FoundKeysAt(env, tables, filters, query);
    var n := WalkComesFromTables(RankedBefore(env), keys, None, limit, pages, k);
    FoundKeyIsCurrent(env, tables[n], filters, query, k);
  }

  lemma FoundKeyIsCurrent(env: Env, table: Table, filters: Filters, query: string, key: SearchKey)
    requires key in FoundKeys(env, table, filters, query)
    ensures key.uid in table && key == KeyIn(env, table, query, key.uid)
  {
  }

  /** Search at rest: the joined answers are exactly the matching rows in rank order. */
  lemma SearchWalkAtRest(env: Env, table: Table, filters: Filters, query: string, limit: nat, answers: seq<Ranking>)
    requires EnvOk(env) && limit >= 1 && StrictTotal(RankedBefore(env))
    requires SearchWalk(env, Same(table, |answers|), filters, query, None, limit, answers)
    ensures Ranked(answers) == OrderBy(RankedBefore(env), FoundKeys(env, table, filters, query))
  {
    var tables, keys := Same(table, |answers|), FoundKeys(env, table, filters, query);
    var pages := SearchWalkIsKeysetWalk(env, tables, filters, query, None, limit, answers);
    assert FoundKeysAt(env, tables, filters, query) == Same(keys, |pages|);
    WalkOnFixedTable(RankedBefore(env), keys, None, limit, pages);
    WalkAtRestIsExact(RankedBefore(env), keys, limit);
  }

  /** That is, the rows that pass the filters and match the text, and of any two the one with
      the higher score comes first, between equal scores the one with the higher rating, and
      between equal ratings the one with the greater uid. */
  lemma SearchRanksBestFirst(env: Env, table: Table, filters: Filters, query: string, limit: nat, answers: seq<Ranking>)
    requires EnvOk(env) && limit >= 1
    requires SearchWalk(env, Same(table, |answers|), filters, query, None, limit, answers)
    ensures forall u :: u in FoundUids(Ranked(answers)) <==>
              u in Eligible(env, table, filters) && env.textMatch(query, table[u])
    ensures forall i, j :: 0 <= i < j < |Ranked(answers)| ==>
              var x, y := Ranked(answers)[i].uid, Ranked(answers)[j].uid;
              && x in table && y in table
              && (|| env.score(query, table[x]) > env.score(query, table[y])
                  || (&& env.score(query, table[x]) == env.score(query, table[y])
                      && (|| table[x].ratingAvg > table[y].ratingAvg
                          || (table[x].ratingAvg == table[y].ratingAvg && env.uidLess(y, x)))))
  {
    RankedIsTotal(env);
    SearchWalkAtRest(env, table, filters, query, limit, answers);
    var keys, ranking := FoundKeys(env, table, filters, query), Ranked(answers);
    RankedUids(env, table, filters, query, ranking);
    forall i, j | 0 <= i < j < |ranking|
      ensures RankedBefore(env)(ranking[i], ranking[j]) && ranking[i] in keys && ranking[j] in keys
    {
      assert ranking[i] in ranking && ranking[j] in ranking;
    }
  }

  ghost function StaticRankings(env: Env, scope: string, pages: seq<Page<SearchKey>>): seq<Ranking> {
    seq(|pages|, i requires 0 <= i < |pages| => SearchResponse(env, scope, pages[i]))
  }

  lemma StaticRankingsTail(env: Env, scope: string, pages: seq<Page<SearchKey>>)
    requires pages != []
    ensures StaticRankings(env, scope, pages)[0] == SearchResponse(env, scope, pages[0])
    ensures StaticRankings(env, scope, pages)[1..] == StaticRankings(env, scope, pages[1..])
  {
  }

  lemma {:induction false} SearchWalkEnds(
    env: Env, table: Table, filters: Filters, query: string, last: Option<SearchKey>, limit: nat)
    requires EnvOk(env) && limit >= 1 && !UnknownRegion(env, filters) && StrictTotal(RankedBefore(env))
    ensures var answers := StaticRankings(env, Scope(env, filters.bbox),
              StaticWalk(RankedBefore(env), FoundKeys(env, table, filters, query), last, limit));
            SearchWalk(env, Same(table, |answers|), filters, query, RankAfter(env, filters, last), limit, answers)
    decreases |After(RankedBefore(env), FoundKeys(env, table, filters, query), last)|
  {
    var scope, keys := Scope(env, filters.bbox), FoundKeys(env, table, filters, query);
    var pages := StaticWalk(RankedBefore(env), keys, last, limit);
    StaticWalkUnfolds(RankedBefore(env), keys, last, limit);
    StaticRankingsTail(env, scope, pages);
    SameTail(table, |pages|);
    SearchContinues(env, table, filters, query, last, limit);
    if pages[0].hasMore {
      SearchWalkEnds(env, table, filters, query, pages[0].next, limit);
    }
  }

  /** Paging through search results at rest: the walk from no cursor ends, every answer but
      the last is full, and the answers joined are exactly the matching rows in rank order. */
  lemma SearchPagesThrough(env: Env, table: Table, filters: Filters, query: string, limit: nat)
    returns (answers: seq<Ranking>)
    requires EnvOk(env) && limit >= 1 && !UnknownRegion(env, filters)
    ensures StrictTotal(RankedBefore(env))
    ensures SearchWalk(env, Same(table, |answers|), filters, query, None, limit, answers)
    ensures forall i :: 0 <= i < |answers| - 1 ==> |answers[i].keys| == limit
    ensures Ranked(answers) == OrderBy(RankedBefore(env), FoundKeys(env, table, filters, query))
  {
    RankedIsTotal(env);
    var keys := FoundKeys(env, table, filters, query);
    var pages := StaticWalk(RankedBefore(env), keys, None, limit);
    answers := StaticRankings(env, Scope(env, filters.bbox), pages);
    SearchWalkEnds(env, table, filters, query, None, limit);
    StaticWalkIsPacked(RankedBefore(env), keys, None, limit);
    SearchWalkAtRest(env, table, filters, query, limit, answers);
  }

  // ---------------------------------------------------------------- count and map

  /** Empty or nothing but white space: the endpoint lists instead of searching. */
  predicate Blank(env: Env, query: string) {
    query == "" || env.isBlank(query)
  }

  /** The rows `count_spots` and `list_spots_map` select: a blank query means no text match. */
  function Selected(env: Env, table: Table, filters: Filters, query: string): set<string> {
    if Blank(env, query) then Eligible(env, table, filters) else Found(env, table, filters, query)
  }

  /** `count_spots`: counting stops at one past the cap. */
  function CountSpots(env: Env, table: Table, filters: Filters, query: string): Result<(nat, bool), Error> {
    var n := |Selected(env, table, filters, query)|;
    var total := if n <= TOTAL_CAP + 1 then n else TOTAL_CAP + 1;
    if UnknownRegion(env, filters) then Err(ValidationError)
    else if total > TOTAL_CAP then Ok((TOTAL_CAP, true))
    else Ok((total, false))
  }

  /** `list_spots_map`: always requires coordinates; (uids, truncated). */
  ghost function ListSpotsMap(env: Env, table: Table, filters: Filters, query: string, limit: nat)
    : Result<(seq<string>, bool), Error>
    requires EnvOk(env)
  {
    var pins := OrderBy(env.uidLess, Selected(env.(requireCoordinates := true), table, filters, query));
    var rows := Take(pins, limit + 1);
    if UnknownRegion(env, filters) then Err(ValidationError)
    else Ok((Take(rows, limit), |rows| > limit))
  }

  /** The total is the length of the complete list, or of the complete search, counted up to
      10,000 and marked as capped beyond. */
  lemma TotalIsWalkLength(env: Env, table: Table, filters: Filters, query: string, limit: nat,
                          answers: seq<Response>, ranking: seq<Ranking>)
    requires EnvOk(env) && limit >= 1 && TableOk(table)
    ensures query == "" || env.isBlank(query) ==>
              ListWalk(env, Same(table, |answers|), filters, None, limit, answers) ==>
                CountSpots(env, table, filters, query)
                == Ok(if |Listed(answers)| <= 10_000 then (|Listed(answers)|, false) else (10_000, true))
    ensures query != "" && !env.isBlank(query) ==>
              SearchWalk(env, Same(table, |ranking|), filters, query, None, limit, ranking) ==>
                CountSpots(env, table, filters, query)
                == Ok(if |Ranked(ranking)| <= 10_000 then (|Ranked(ranking)|, false) else (10_000, true))
  {
    if Blank(env, query) && ListWalk(env, Same(table, |answers|), filters, None, limit, answers) {
      ListWalkAtRest(env, table, filters, limit, answers);
    }
    if !Blank(env, query) && SearchWalk(env, Same(table, |ranking|), filters, query, None, limit, ranking) {
      RankedIsTotal(env);
      SearchWalkAtRest(env, table, filters, query, limit, ranking);
      KeysCountRows(env, table, query, Found(env, table, filters, query));
    }
  }

  lemma {:induction false} KeysCountRows(env: Env, table: Table, query: string, uids: set<string>)
    requires uids <= table.Keys
    ensures |set u | u in uids :: KeyIn(env, table, query, u)| == |uids|
  {
    if uids != {} {
      var x :| x in uids;
      KeysCountRows(env, table, query, uids - {x});
      var rest := set u | u in uids - {x} :: KeyIn(env, table, query, u);
      assert (set u | u in uids :: KeyIn(env, table, query, u)) == rest + {KeyIn(env, table, query, x)};
      assert KeyIn(env, table, query, x) !in rest;
    }
  }

  /** The spots that can be pinned. */
  function Located(table: Table, uids: set<string>): set<string> {
    set u | u in uids && u in table && table[u].latitude.Some? && table[u].longitude.Some?
  }

  lemma PinsAreLocated(env: Env, table: Table, filters: Filters, query: string)
    ensures Selected(env.(requireCoordinates := true), table, filters, query)
         == Located(table, Selected(env, table, filters, query))
    ensures filters.bbox.Some? ==>
      Located(table, Selected(env, table, filters, query)) == Selected(env, table, filters, query)
  {
  }

  lemma MapTakesPins(env: Env, table: Table, filters: Filters, query: string, mapLimit: nat)
    requires EnvOk(env) && !UnknownRegion(env, filters)
    ensures var all := OrderBy(env.uidLess, Located(table, Selected(env, table, filters, query)));
            ListSpotsMap(env, table, filters, query, mapLimit)
            == Ok(if |all| <= mapLimit then (all, false) else (all[..mapLimit], true))
  {
    PinsAreLocated(env, table, filters, query);
    var all := OrderBy(env.uidLess, Located(table, Selected(env, table, filters, query)));
    if |all| > mapLimit {
      assert Take(all, mapLimit + 1)[..mapLimit] == all[..mapLimit];
    }
  }

  /** Without a search, the map shows exactly the listed spots that have coordinates, in the
      order of the list, up to the limit, and says when there are more; with a bbox, these are
      all that are listed. */
  lemma MapShowsTheList(
    env: Env, table: Table, filters: Filters, query: string, limit: nat, mapLimit: nat, answers: seq<Response>)
    requires EnvOk(env) && limit >= 1 && TableOk(table) && (query == "" || env.isBlank(query))
    requires ListWalk(env, Same(table, |answers|), filters, None, limit, answers)
    ensures var all := OrderBy(env.uidLess, Located(table, set u | u in Listed(answers)));
            && ListSpotsMap(env, table, filters, query, mapLimit)
               == Ok(if |all| <= mapLimit then (all, false) else (all[..mapLimit], true))
            && (filters.bbox.Some? ==> all == Listed(answers))
  {
    ListWalkAtRest(env, table, filters, limit, answers);
    MapTakesPins(env, table, filters, query, mapLimit);
    PinsAreLocated(env, table, filters, query);
    ListedUids(env, Eligible(env, table, filters), Listed(answers));
  }

  lemma ListedUids(env: Env, uids: set<string>, listed: seq<string>)
    requires EnvOk(env) && listed == OrderBy(env.uidLess, uids)
    ensures (set u | u in listed) == uids
  {
  }

  function FoundUids(ranking: seq<SearchKey>): set<string> {
    set i | 0 <= i < |ranking| :: ranking[i].uid
  }

  /** With a search, the map shows exactly the found spots that have coordinates, each once and
      by uid, up to the limit, and says when there are more; with a bbox, all that are found. */
  lemma MapShowsTheSearch(
    env: Env, table: Table, filters: Filters, query: string, limit: nat, mapLimit: nat, ranking: seq<Ranking>)
    requires EnvOk(env) && limit >= 1 && query != "" && !env.isBlank(query)
    requires SearchWalk(env, Same(table, |ranking|), filters, query, None, limit, ranking)
    ensures var all := OrderBy(env.uidLess, Located(table, FoundUids(Ranked(ranking))));
            && ListSpotsMap(env, table, filters, query, mapLimit)
               == Ok(if |all| <= mapLimit then (all, false) else (all[..mapLimit], true))
            && (filters.bbox.Some? ==> all == OrderBy(env.uidLess, FoundUids(Ranked(ranking))))
  {
    RankedIsTotal(env);
    SearchWalkAtRest(env, table, filters, query, limit, ranking);
    MapTakesPins(env, table, filters, query, mapLimit);
    PinsAreLocated(env, table, filters, query);
    RankedUids(env, table, filters, query, Ranked(ranking));
  }

  lemma RankedUids(env: Env, table: Table, filters: Filters, query: string, ranking: seq<SearchKey>)
    requires forall k :: k in ranking <==> k in FoundKeys(env, table, filters, query)
    ensures FoundUids(ranking) == Found(env, table, filters, query)
  {
    forall u | u in Found(env, table, filters, query) ensures u in FoundUids(ranking) {
      assert KeyIn(env, table, query, u) in FoundKeys(env, table, filters, query);
      assert KeyIn(env, table, query, u) in ranking;
    }
    forall u | u in FoundUids(ranking) ensures u in Found(env, table, filters, query) {
      var i :| 0 <= i < |ranking| && ranking[i].uid == u;
      assert ranking[i] in ranking;
    }
  }
}
