/** The two cached explore endpoints (vivacapi/api/v1/endpoints/explore.py) as functions of
    the table and the request, and why they may share a cache entry. */
module Explore {
  import opened Wrappers
  import opened ListKey
  import Keyset
  import Spots

  /** `total` comes from a second query of the same request. */
  datatype ListAnswer = ListAnswer(
    page: Spots.Response, ranking: Spots.Ranking, total: nat, capped: bool)

  type BBoxParser = string -> Result<Spots.BBox, Spots.Error>

  function ParsedBBox(parse: BBoxParser, bbox: Option<string>): Result<Option<Spots.BBox>, Spots.Error> {
    if NormText(bbox) == "" then Ok(None)
    else match parse(NormText(bbox)) case Ok(b) => Ok(Some(b)) case Err(e) => Err(e)
  }

  function FiltersOf(query: Query, bbox: Option<Spots.BBox>): Spots.Filters {
    Spots.Filters(Codes(query.category), NormText(query.region), bbox)
  }

  /** `list_spots`: a query that is not blank is a search, otherwise the plain list. */
  ghost function ListEndpoint(env: Spots.Env, parse: BBoxParser, table: Spots.Table, query: Query)
    : Result<ListAnswer, Spots.Error>
    requires Spots.EnvOk(env) && query.ListQuery? && query.limit >= 1
  {
    match ParsedBBox(parse, query.bbox)
    case Err(e) => Err(e)
    case Ok(bbox) =>
      var filters, q := FiltersOf(query, bbox), NormText(query.q);
      match Spots.CountSpots(env, table, filters, q)
      case Err(e) => Err(e)
      case Ok(total) =>
        if q != "" && !env.isBlank(q) then
          match Spots.SearchSpots(env, table, filters, q, query.cursor, query.limit)
          case Err(e) => Err(e)
          case Ok(r) => Ok(ListAnswer(Spots.Response([], None, false), r, total.0, total.1))
        else
          match Spots.ListSpots(env, table, filters, query.cursor, query.limit)
          case Err(e) => Err(e)
          case Ok(p) => Ok(ListAnswer(p, Spots.Ranking([], None, false), total.0, total.1))
  }

  /** `list_spots_for_map`. */
  ghost function MapEndpoint(env: Spots.Env, parse: BBoxParser, table: Spots.Table, query: Query)
    : Result<(seq<string>, bool), Spots.Error>
    requires Spots.EnvOk(env) && query.MapQuery?
  {
    match ParsedBBox(parse, query.bbox)
    case Err(e) => Err(e)
    case Ok(bbox) => Spots.ListSpotsMap(env, table, FiltersOf(query, bbox), NormText(query.q), query.limit)
  }

  function CodeSet(codes: seq<string>): set<string> {
    set c | c in codes
  }

  /** Filters that differ at most in the order and repetition of the category codes. */
  predicate SameFilters(f: Spots.Filters, g: Spots.Filters) {
    f.region == g.region && f.bbox == g.bbox && CodeSet(f.category) == CodeSet(g.category)
  }

  lemma CodeOrderIsIrrelevant(env: Spots.Env, f: Spots.Filters, g: Spots.Filters, coordinates: bool, spot: Spots.Spot)
    requires SameFilters(f, g)
    ensures Spots.Matches(env, f, coordinates, spot) <==> Spots.Matches(env, g, coordinates, spot)
  {
    assert forall c :: c in f.category <==> c in CodeSet(f.category);
    assert forall c :: c in g.category <==> c in CodeSet(g.category);
    assert f.category == [] <==> g.category == [] by {
      assert f.category != [] ==> f.category[0] in CodeSet(f.category);
      assert g.category != [] ==> g.category[0] in CodeSet(g.category);
    }
    assert Spots.Overlaps(spot.category, f.category) <==> Spots.Overlaps(spot.category, g.category);
  }

  /** Such filters select the same rows, so every query answers them alike. */
  lemma SameRows(env: Spots.Env, table: Spots.Table, f: Spots.Filters, g: Spots.Filters, q: string)
    requires SameFilters(f, g)
    ensures Spots.Eligible(env, table, f) == Spots.Eligible(env, table, g)
    ensures Spots.Found(env, table, f, q) == Spots.Found(env, table, g, q)
    ensures Spots.FoundKeys(env, table, f, q) == Spots.FoundKeys(env, table, g, q)
  {
    forall u | u in table
      ensures u in Spots.Eligible(env, table, f) <==> u in Spots.Eligible(env, table, g)
    {
      CodeOrderIsIrrelevant(env, f, g, env.requireCoordinates, table[u]);
    }
    assert Spots.Eligible(env, table, f) == Spots.Eligible(env, table, g);
  }

  lemma SameList(env: Spots.Env, table: Spots.Table, f: Spots.Filters, g: Spots.Filters,
                 c: Option<string>, d: Option<string>, limit: nat)
    requires Spots.EnvOk(env) && limit >= 1 && SameFilters(f, g) && NormText(c) == NormText(d)
    ensures Spots.ListSpots(env, table, f, c, limit) == Spots.ListSpots(env, table, g, d, limit)
  {
    SameRows(env, table, f, g, "");
  }

  lemma SameSearch(env: Spots.Env, table: Spots.Table, f: Spots.Filters, g: Spots.Filters, q: string,
                   c: Option<string>, d: Option<string>, limit: nat)
    requires Spots.EnvOk(env) && limit >= 1 && SameFilters(f, g) && NormText(c) == NormText(d)
    ensures Spots.SearchSpots(env, table, f, q, c, limit) == Spots.SearchSpots(env, table, g, q, d, limit)
  {
    SameRows(env, table, f, g, q);
  }

  lemma SameTotals(env: Spots.Env, table: Spots.Table, f: Spots.Filters, g: Spots.Filters, q: string)
    requires SameFilters(f, g)
    ensures Spots.CountSpots(env, table, f, q) == Spots.CountSpots(env, table, g, q)
    ensures Spots.Selected(env, table, f, q) == Spots.Selected(env, table, g, q)
  {
    SameRows(env, table, f, g, q);
  }

  lemma SameMap(env: Spots.Env, table: Spots.Table, f: Spots.Filters, g: Spots.Filters, q: string, limit: nat)
    requires Spots.EnvOk(env) && SameFilters(f, g)
    ensures Spots.ListSpotsMap(env, table, f, q, limit) == Spots.ListSpotsMap(env, table, g, q, limit)
  {
    SameTotals(env.(requireCoordinates := true), table, f, g, q);
  }

  // ---------------------------------------------------------------- sharing a key

  /** Two list requests that share a cache key, the one without '&' in its values and the other
      any, get the same answer from the same table, so serving one the other's body is right, if
      they name the same category codes, as they must if the categories are one word. */
  lemma SameKeySameList(env: Spots.Env, parse: BBoxParser, table: Spots.Table, a: Query, b: Query)
    requires Spots.EnvOk(env) && a.ListQuery? && b.ListQuery? && a.limit >= 1 && b.limit >= 1
    requires AmpFree(a) && RawKey(a) == RawKey(b)
    ensures OneWord(Codes(a.category)) ==> CodeSet(Codes(a.category)) == CodeSet(Codes(b.category))
    ensures CodeSet(Codes(a.category)) == CodeSet(Codes(b.category)) ==>
      ListEndpoint(env, parse, table, a) == ListEndpoint(env, parse, table, b)
  {
    KeyIdentifiesQuery(a, b);
    OneWordNamesTheSame(a, b);
    var bbox := ParsedBBox(parse, a.bbox);
    if bbox.Ok? && CodeSet(Codes(a.category)) == CodeSet(Codes(b.category)) {
      var f, g, q := FiltersOf(a, bbox.value), FiltersOf(b, bbox.value), NormText(a.q);
      SameTotals(env, table, f, g, q);
      SameSearch(env, table, f, g, q, a.cursor, b.cursor, a.limit);
      SameList(env, table, f, g, a.cursor, b.cursor, a.limit);
    }
  }

  lemma OneWordNamesTheSame(a: Query, b: Query)
    requires AmpFree(a) && RawKey(a) == RawKey(b)
    ensures OneWord(Codes(a.category)) ==> CodeSet(Codes(a.category)) == CodeSet(Codes(b.category))
  {
    if OneWord(Codes(a.category)) {
      KeyIsOwnIffOneWord(a);
      assert SameQuery(a, b);
      assert forall c :: c in Codes(a.category) <==> c in multiset(Codes(a.category));
      assert forall c :: c in Codes(b.category) <==> c in multiset(Codes(b.category));
    }
  }

  /** The same for the map; and a map request never shares a key with a list request. */
  lemma SameKeySameMap(env: Spots.Env, parse: BBoxParser, table: Spots.Table, a: Query, b: Query)
    requires Spots.EnvOk(env) && a.MapQuery?
    requires AmpFree(a) && RawKey(a) == RawKey(b)
    ensures b.MapQuery?
    ensures OneWord(Codes(a.category)) ==> CodeSet(Codes(a.category)) == CodeSet(Codes(b.category))
    ensures CodeSet(Codes(a.category)) == CodeSet(Codes(b.category)) ==>
      MapEndpoint(env, parse, table, a) == MapEndpoint(env, parse, table, b)
  {
    KeyIdentifiesQuery(a, b);
    OneWordNamesTheSame(a, b);
    var bbox := ParsedBBox(parse, a.bbox);
    if bbox.Ok? && CodeSet(Codes(a.category)) == CodeSet(Codes(b.category)) {
      SameMap(env, table, FiltersOf(a, bbox.value), FiltersOf(b, bbox.value), NormText(a.q), a.limit);
    }
  }

  /** Some spot passes every filter but that of the categories. */
  ghost predicate Satisfiable(env: Spots.Env, filters: Spots.Filters) {
    exists spot :: Spots.Matches(env, filters.(category := []), env.requireCoordinates, spot)
  }

  /** Exactly: two requests that share a key select the same rows of every table if and only if
      they name the same codes, or their other filters let no spot through. */
  lemma SameKeySameRowsIff(env: Spots.Env, a: Query, b: Query, bbox: Option<Spots.BBox>)
    requires AmpFree(a) && RawKey(a) == RawKey(b)
    ensures SameSelection(env, FiltersOf(a, bbox), FiltersOf(b, bbox))
      <==> CodeSet(Codes(a.category)) == CodeSet(Codes(b.category)) || !Satisfiable(env, FiltersOf(a, bbox))
  {
    KeyIdentifiesQuery(a, b);
    SameSelectionIff(env, FiltersOf(a, bbox), FiltersOf(b, bbox));
  }

  ghost predicate SameSelection(env: Spots.Env, f: Spots.Filters, g: Spots.Filters) {
    forall table :: Spots.Eligible(env, table, f) == Spots.Eligible(env, table, g)
  }

  lemma SameSelectionIff(env: Spots.Env, f: Spots.Filters, g: Spots.Filters)
    requires f.region == g.region && f.bbox == g.bbox
    ensures SameSelection(env, f, g) <==> CodeSet(f.category) == CodeSet(g.category) || !Satisfiable(env, f)
  {
    if CodeSet(f.category) == CodeSet(g.category) {
      forall table ensures Spots.Eligible(env, table, f) == Spots.Eligible(env, table, g) {
        SameRows(env, table, f, g, "");
      }
    } else if Satisfiable(env, f) {
      var spot :| Spots.Matches(env, f.(category := []), env.requireCoordinates, spot);
      var codes := TellingCodes(f.category, g.category);
      var table: Spots.Table := map["" := spot.(category := codes)];
      assert Picks(f.category, codes) <==> "" in Spots.Eligible(env, table, f);
      assert Picks(g.category, codes) <==> "" in Spots.Eligible(env, table, g);
    } else {
      forall table ensures Spots.Eligible(env, table, f) == Spots.Eligible(env, table, g) {
        forall u | u in table ensures u !in Spots.Eligible(env, table, f) && u !in Spots.Eligible(env, table, g) {
          assert !Spots.Matches(env, f.(category := []), env.requireCoordinates, table[u]);
        }
      }
    }
  }

  /** The category filter passes a spot with these codes. */
  predicate Picks(filter: seq<string>, codes: seq<string>) {
    filter != [] ==> Spots.Overlaps(codes, filter)
  }

  /** Codes of a spot that one of two different filters passes. */
  lemma TellingCodes(f: seq<string>, g: seq<string>) returns (codes: seq<string>)
    requires CodeSet(f) != CodeSet(g)
    ensures Picks(f, codes) <==> !Picks(g, codes)
  {
    if f == [] || g == [] {
      codes := [];
    } else if exists c :: c in f && c !in g {
      var c :| c in f && c !in g;
      codes := [c];
      assert c in codes;
    } else {
      var c :| c in g && c !in f;
      codes := [c];
      assert c in codes;
    }
  }

  // ---------------------------------------------------------------- inputs that go wrong

  lemma NoSuchCode(env: Spots.Env, table: Spots.Table, filters: Spots.Filters, code: string)
    requires filters.category == [code] && forall u :: u in table ==> code !in table[u].category
    ensures Spots.Eligible(env, table, filters) == {}
  {
  }

  /** `?category=` after a request without a category, or before it: the string is the same, and
      yet with the empty code no spot is selected, as no spot has an empty code; whichever came
      first is served to both. */
  lemma EmptyCodeIsServedForNone(env: Spots.Env, table: Spots.Table, a: Query, bbox: Option<Spots.BBox>)
    requires AmpFree(a) && Codes(a.category) == []
    requires forall u :: u in table ==> "" !in table[u].category
    ensures var b := a.(category := Some([""]));
            && RawKey(a) == RawKey(b) && !SameQuery(a, b)
            && Spots.Eligible(env, table, FiltersOf(b, bbox)) == {}
  {
    var b := a.(category := Some([""]));
    KeyIdentifiesQuery(a, b);
    assert |multiset(Codes(a.category))| != |multiset(Codes(b.category))|;
    NoSuchCode(env, table, FiltersOf(b, bbox), "");
  }

  /** `?category=cafe,food` and `?category=cafe&category=food`, likewise. */
  lemma CommaCodeIsServedForTwo(
    env: Spots.Env, table: Spots.Table, a: Query, x: string, y: string, bbox: Option<Spots.BBox>)
    requires StrLe(x, y) && forall u :: u in table ==> x + [','] + y !in table[u].category
    ensures var one, two := a.(category := Some([x + [','] + y])), a.(category := Some([x, y]));
            && RawKey(one) == RawKey(two) && !SameQuery(one, two)
            && Spots.Eligible(env, table, FiltersOf(one, bbox)) == {}
  {
    CommasCollide(a, x, y);
    NoSuchCode(env, table, FiltersOf(a.(category := Some([x + [','] + y])), bbox), x + [','] + y);
  }

  // ---------------------------------------------------------------- walking the endpoint

  function NextCursor(answer: ListAnswer): Option<string> {
    if answer.page.nextCursor.Some? then answer.page.nextCursor else answer.ranking.nextCursor
  }

  /** Answer `i` is what the endpoint says on `tables[i]` when the request is repeated with the
      cursor of the answer before; the last one says that nothing follows. */
  ghost predicate EndpointWalk(
    env: Spots.Env, parse: BBoxParser, tables: seq<Spots.Table>, query: Query, answers: seq<ListAnswer>)
    requires Spots.EnvOk(env) && query.ListQuery? && query.limit >= 1
    decreases |answers|
  {
    && |answers| == |tables| > 0
    && ListEndpoint(env, parse, tables[0], query) == Ok(answers[0])
    && (answers[0].page.hasMore || answers[0].ranking.hasMore <==> |answers| > 1)
    && (|answers| > 1 ==>
          EndpointWalk(env, parse, tables[1..], query.(cursor := NextCursor(answers[0])), answers[1..]))
  }

  function PagesOf(answers: seq<ListAnswer>): (r: seq<Spots.Response>)
    ensures |r| == |answers|
  {
    seq(|answers|, i requires 0 <= i < |answers| => answers[i].page)
  }

  function RankingsOf(answers: seq<ListAnswer>): (r: seq<Spots.Ranking>)
    ensures |r| == |answers|
  {
    seq(|answers|, i requires 0 <= i < |answers| => answers[i].ranking)
  }

  /** One answer of the endpoint. */
  lemma EndpointAnswer(
    env: Spots.Env, parse: BBoxParser, table: Spots.Table, query: Query, bbox: Option<Spots.BBox>, answer: ListAnswer)
    requires Spots.EnvOk(env) && query.ListQuery? && query.limit >= 1 && ParsedBBox(parse, query.bbox) == Ok(bbox)
    requires ListEndpoint(env, parse, table, query) == Ok(answer)
    ensures var filters, q := FiltersOf(query, bbox), NormText(query.q);
            && Spots.CountSpots(env, table, filters, q) == Ok((answer.total, answer.capped))
            && (if q == "" || env.isBlank(q) then
                  && Spots.ListSpots(env, table, filters, query.cursor, query.limit) == Ok(answer.page)
                  && answer.ranking == Spots.Ranking([], None, false)
                else
                  && Spots.SearchSpots(env, table, filters, q, query.cursor, query.limit) == Ok(answer.ranking)
                  && answer.page == Spots.Response([], None, false))
  {
  }

  /** A walk of the endpoint is a walk of the list, or with a query of the search, with the
      filters of the request, and every answer carries the count of its table. */
  lemma EndpointWalkIsSpotsWalk(
    env: Spots.Env, parse: BBoxParser, tables: seq<Spots.Table>, query: Query, answers: seq<ListAnswer>)
    returns (bbox: Option<Spots.BBox>)
    requires Spots.EnvOk(env) && query.ListQuery? && query.limit >= 1
    requires EndpointWalk(env, parse, tables, query, answers)
    ensures ParsedBBox(parse, query.bbox) == Ok(bbox)
    ensures var filters, q := FiltersOf(query, bbox), NormText(query.q);
            && (forall i :: 0 <= i < |answers| ==>
                  Spots.CountSpots(env, tables[i], filters, q) == Ok((answers[i].total, answers[i].capped)))
            && (if q == "" || env.isBlank(q) then
                  Spots.ListWalk(env, tables, filters, query.cursor, query.limit, PagesOf(answers))
                else
                  Spots.SearchWalk(env, tables, filters, q, query.cursor, query.limit, RankingsOf(answers)))
  {
    bbox := ParsedBBox(parse, query.bbox).value;
    CountsAlong(env, parse, tables, query, answers, bbox);
    PagesAlong(env, parse, tables, query, answers, bbox);
  }

  lemma {:induction false} CountsAlong(
    env: Spots.Env, parse: BBoxParser, tables: seq<Spots.Table>, query: Query, answers: seq<ListAnswer>,
    bbox: Option<Spots.BBox>)
    requires Spots.EnvOk(env) && query.ListQuery? && query.limit >= 1 && ParsedBBox(parse, query.bbox) == Ok(bbox)
    requires EndpointWalk(env, parse, tables, query, answers)
    ensures |tables| == |answers|
    ensures forall i :: 0 <= i < |answers| ==>
      Spots.CountSpots(env, tables[i], FiltersOf(query, bbox), NormText(query.q))
      == Ok((answers[i].total, answers[i].capped))
    decreases |answers|
  {
    EndpointAnswer(env, parse, tables[0], query, bbox, answers[0]);
    if |answers| > 1 {
      CountsAlong(env, parse, tables[1..], query.(cursor := NextCursor(answers[0])), answers[1..], bbox);
      forall i | 0 < i < |answers| ensures answers[i] == answers[1..][i - 1] && tables[i] == tables[1..][i - 1] {
      }
    }
  }

  lemma {:induction false} PagesAlong(
    env: Spots.Env, parse: BBoxParser, tables: seq<Spots.Table>, query: Query, answers: seq<ListAnswer>,
    bbox: Option<Spots.BBox>)
    requires Spots.EnvOk(env) && query.ListQuery? && query.limit >= 1 && ParsedBBox(parse, query.bbox) == Ok(bbox)
    requires EndpointWalk(env, parse, tables, query, answers)
    ensures var filters, q := FiltersOf(query, bbox), NormText(query.q);
            if q == "" || env.isBlank(q) then
              Spots.ListWalk(env, tables, filters, query.cursor, query.limit, PagesOf(answers))
            else
              Spots.SearchWalk(env, tables, filters, q, query.cursor, query.limit, RankingsOf(answers))
    decreases |answers|
  {
    EndpointAnswer(env, parse, tables[0], query, bbox, answers[0]);
    if |answers| > 1 {
      PagesAlong(env, parse, tables[1..], query.(cursor := NextCursor(answers[0])), answers[1..], bbox);
      assert PagesOf(answers)[1..] == PagesOf(answers[1..]);
      assert RankingsOf(answers)[1..] == RankingsOf(answers[1..]);
    }
  }

  /** The same parameters, but for cursor and limit. */
  predicate SameSearchFor(list: Query, mapped: Query) {
    && list.ListQuery? && mapped.MapQuery?
    && list.q == mapped.q && list.category == mapped.category
    && list.region == mapped.region && list.bbox == mapped.bbox
  }

  /** What a walk has returned, in order. */
  ghost function Returned(env: Spots.Env, query: Query, answers: seq<ListAnswer>): seq<string> {
    var q := NormText(query.q);
    if q == "" || env.isBlank(q) then Spots.Listed(PagesOf(answers))
    else Uids(Spots.Ranked(RankingsOf(answers)))
  }

  function Uids(ranking: seq<Spots.SearchKey>): seq<string> {
    seq(|ranking|, i requires 0 <= i < |ranking| => ranking[i].uid)
  }

  lemma UidsAreFound(ranking: seq<Spots.SearchKey>)
    ensures (set u | u in Uids(ranking)) == Spots.FoundUids(ranking)
  {
    var uids := Uids(ranking);
    forall u | u in Spots.FoundUids(ranking) ensures u in uids {
      var i :| 0 <= i < |ranking| && ranking[i].uid == u;
      assert uids[i] == u;
    }
  }

  /** The spots that a request asks for. */
  function AskedFor(
    env: Spots.Env, table: Spots.Table, query: Query, bbox: Option<Spots.BBox>): set<string>
  {
    var q := if query.q.Some? then query.q.value else "";
    var category := if query.category.Some? then query.category.value else [];
    var region := if query.region.Some? then query.region.value else "";
    set u | u in Spots.Eligible(env, table, Spots.Filters(category, region, bbox))
            && (q == "" || env.isBlank(q) || env.textMatch(q, table[u]))
  }

  predicate IsBBoxOf(parse: BBoxParser, query: Query, bbox: Option<Spots.BBox>) {
    if query.bbox.None? || query.bbox.value == "" then bbox == None
    else bbox.Some? && parse(query.bbox.value) == Ok(bbox.value)
  }

  lemma ListReturns(
    env: Spots.Env, table: Spots.Table, query: Query, bbox: Option<Spots.BBox>, answers: seq<ListAnswer>)
    requires Spots.EnvOk(env) && Spots.TableOk(table) && query.ListQuery? && query.limit >= 1 && query.cursor.None?
    requires NormText(query.q) == "" || env.isBlank(NormText(query.q))
    requires var tables := Keyset.Same(table, |answers|);
      Spots.ListWalk(env, tables, FiltersOf(query, bbox), None, query.limit, PagesOf(answers))
    ensures var returned := Returned(env, query, answers);
            && (set u | u in returned) == AskedFor(env, table, query, bbox)
            && forall i, j :: 0 <= i < j < |returned| ==> returned[i] != returned[j]
  {
    Spots.ListWalkAtRest(env, table, FiltersOf(query, bbox), query.limit, PagesOf(answers));
  }

  lemma SearchReturns(
    env: Spots.Env, table: Spots.Table, query: Query, bbox: Option<Spots.BBox>, answers: seq<ListAnswer>)
    requires Spots.EnvOk(env) && query.ListQuery? && query.limit >= 1 && query.cursor.None?
    requires NormText(query.q) != "" && !env.isBlank(NormText(query.q))
    requires var tables := Keyset.Same(table, |answers|);
      Spots.SearchWalk(env, tables, FiltersOf(query, bbox), NormText(query.q), None, query.limit, RankingsOf(answers))
    ensures var returned := Returned(env, query, answers);
            && (set u | u in returned) == AskedFor(env, table, query, bbox)
            && forall i, j :: 0 <= i < j < |returned| ==> returned[i] != returned[j]
  {
    var ranking := Spots.Ranked(RankingsOf(answers));
    Spots.SearchRanksBestFirst(
      env, table, FiltersOf(query, bbox), NormText(query.q), query.limit, RankingsOf(answers));
    UidsAreFound(ranking);
    var returned := Uids(ranking);
    forall i, j | 0 <= i < j < |returned| ensures returned[i] != returned[j] {
      assert returned[i] == ranking[i].uid && returned[j] == ranking[j].uid;
    }
  }

  /** On a table at rest, paging through the list endpoint returns exactly the spots asked for,
      each once, and every answer's total is their number, counted up to 10,000. */
  lemma ListEndpointReturnsAskedFor(
    env: Spots.Env, parse: BBoxParser, table: Spots.Table, query: Query, answers: seq<ListAnswer>)
    returns (bbox: Option<Spots.BBox>)
    requires Spots.EnvOk(env) && Spots.TableOk(table) && query.ListQuery? && query.limit >= 1 && query.cursor.None?
    requires EndpointWalk(env, parse, Keyset.Same(table, |answers|), query, answers)
    ensures IsBBoxOf(parse, query, bbox)
    ensures var returned := Returned(env, query, answers);
            && (set u | u in returned) == AskedFor(env, table, query, bbox)
            && (forall i, j :: 0 <= i < j < |returned| ==> returned[i] != returned[j])
            && forall i :: 0 <= i < |answers| ==>
              && answers[i].total == (if |returned| <= 10_000 then |returned| else 10_000)
              && (answers[i].capped <==> |returned| > 10_000)
  {
    var tables := Keyset.Same(table, |answers|);
    bbox := EndpointWalkIsSpotsWalk(env, parse, tables, query, answers);
    var filters, q := FiltersOf(query, bbox), NormText(query.q);
    Spots.TotalIsWalkLength(env, table, filters, q, query.limit, PagesOf(answers), RankingsOf(answers));
    if q == "" || env.isBlank(q) {
      ListReturns(env, table, query, bbox, answers);
    } else {
      SearchReturns(env, table, query, bbox, answers);
    }
    forall i | 0 <= i < |answers|
      ensures Spots.CountSpots(env, table, filters, q) == Ok((answers[i].total, answers[i].capped))
    {
      assert tables[i] == table;
    }
  }

  /** And the map endpoint, asked with the same parameters, shows exactly those of the returned
      spots that have coordinates, by uid, up to its limit, and says when there are more. */
  lemma MapEndpointShowsReturned(
    env: Spots.Env, parse: BBoxParser, table: Spots.Table, query: Query, mapped: Query, answers: seq<ListAnswer>)
    requires Spots.EnvOk(env) && Spots.TableOk(table) && SameSearchFor(query, mapped)
    requires query.limit >= 1 && query.cursor.None?
    requires EndpointWalk(env, parse, Keyset.Same(table, |answers|), query, answers)
    ensures var returned := set u | u in Returned(env, query, answers);
            var all := Keyset.OrderBy(env.uidLess, Spots.Located(table, returned));
            MapEndpoint(env, parse, table, mapped)
            == Ok(if |all| <= mapped.limit then (all, false) else (all[..mapped.limit], true))
  {
    var bbox := EndpointWalkIsSpotsWalk(env, parse, Keyset.Same(table, |answers|), query, answers);
    var filters, q := FiltersOf(query, bbox), NormText(query.q);
    if q == "" || env.isBlank(q) {
      Spots.MapShowsTheList(env, table, filters, q, query.limit, mapped.limit, PagesOf(answers));
    } else {
      Spots.MapShowsTheSearch(env, table, filters, q, query.limit, mapped.limit, RankingsOf(answers));
      UidsAreFound(Spots.Ranked(RankingsOf(answers)));
    }
  }
}
