/** The parameter string behind a list or map cache key (`make_spots_list_key` and
    `_normalize_param` in vivacapi/core/cache.py), before it is hashed: when two requests
    share it, and when they may. */
module ListKey {
  import opened Wrappers
  import opened Text

  /** The parameters the two explore endpoints put into the key. */
  datatype Query =
    | ListQuery(q: Option<string>, category: Option<seq<string>>, region: Option<string>,
                bbox: Option<string>, cursor: Option<string>, limit: nat)
    | MapQuery(q: Option<string>, category: Option<seq<string>>, region: Option<string>,
               bbox: Option<string>, limit: nat)

  /** Python's string order. */
  predicate StrLe(a: string, b: string) {
    a == "" || (b != "" && (a[0] < b[0] || (a[0] == b[0] && StrLe(a[1..], b[1..]))))
  }

  function Insert(x: string, xs: seq<string>): seq<string> {
    if xs == [] || StrLe(x, xs[0]) then [x] + xs else [xs[0]] + Insert(x, xs[1..])
  }

  /** Python's `sorted` on strings. */
  function Sorted(xs: seq<string>): seq<string> {
    if xs == [] then [] else Insert(xs[0], Sorted(xs[1..]))
  }

  function NormText(value: Option<string>): string {
    if value.None? then "" else value.value
  }

  function Codes(value: Option<seq<string>>): seq<string> {
    if value.None? then [] else value.value
  }

  function NormCodes(value: Option<seq<string>>): string {
    Join(Sorted(Codes(value)), ',')
  }

  /** `name=value` pairs in the order of their names. */
  function Parts(query: Query): seq<string> {
    match query
    case ListQuery(q, category, region, bbox, cursor, limit) =>
      ["bbox=" + NormText(bbox), "category=" + NormCodes(category), "cursor=" + NormText(cursor),
       "limit=" + Decimal(limit), "q=" + NormText(q), "region_province=" + NormText(region)]
    case MapQuery(q, category, region, bbox, limit) =>
      ["bbox=" + NormText(bbox), "category=" + NormCodes(category), "kind=map",
       "limit=" + Decimal(limit), "q=" + NormText(q), "region_province=" + NormText(region)]
  }

  function RawKey(query: Query): string {
    Join(Parts(query), '&')
  }

  /** Equal up to the order of the categories and up to None against empty. */
  predicate SameQuery(a: Query, b: Query) {
    && NormText(a.q) == NormText(b.q)
    && multiset(Codes(a.category)) == multiset(Codes(b.category))
    && NormText(a.region) == NormText(b.region)
    && NormText(a.bbox) == NormText(b.bbox)
    && a.limit == b.limit
    && (a.ListQuery? <==> b.ListQuery?)
    && (a.ListQuery? && b.ListQuery? ==> NormText(a.cursor) == NormText(b.cursor))
  }

  /** No value of the request contains '&'. */
  predicate AmpFree(query: Query) {
    && Free(NormText(query.q), '&') && Free(NormText(query.region), '&') && Free(NormText(query.bbox), '&')
    && (query.ListQuery? ==> Free(NormText(query.cursor), '&'))
    && Separable(Codes(query.category), '&')
  }

  /** No category code contains a comma; codes may be empty. */
  predicate CommaFree(query: Query) {
    Separable(Codes(query.category), ',')
  }

  /** One non-empty code that does not split at a comma into two texts in order. */
  predicate OneWord(codes: seq<string>) {
    && |codes| == 1 && codes[0] != ""
    && forall p :: 0 <= p < |codes[0]| && codes[0][p] == ',' ==> !StrLe(codes[0][..p], codes[0][p + 1..])
  }

  /** No category, or one empty code, as in `?category=`: both are written as "". */
  predicate EmptyForm(category: Option<seq<string>>) {
    Codes(category) == [] || Codes(category) == [""]
  }

  /** Equal but for the categories. */
  predicate SameRest(a: Query, b: Query) {
    SameQuery(a.(category := None), b.(category := None))
  }

  // ---------------------------------------------------------------- sorting

  lemma {:induction false} StrLeTotal(a: string, b: string)
    ensures StrLe(a, b) || StrLe(b, a)
    ensures StrLe(a, b) && StrLe(b, a) ==> a == b
  {
    if a != "" && b != "" {
      StrLeTotal(a[1..], b[1..]);
      assert a == [a[0]] + a[1..] && b == [b[0]] + b[1..];
    }
  }

  lemma {:induction false} StrLeTransitive(a: string, b: string, c: string)
    requires StrLe(a, b) && StrLe(b, c)
    ensures StrLe(a, c)
  {
    if a != "" && a[0] == b[0] == c[0] {
      StrLeTransitive(a[1..], b[1..], c[1..]);
    }
  }

  predicate Ascending(xs: seq<string>) {
    forall i :: 0 < i < |xs| ==> StrLe(xs[0], xs[i])
  }

  ghost predicate Ordered(xs: seq<string>) {
    forall k :: 0 <= k <= |xs| ==> Ascending(xs[k..])
  }

  lemma OrderedCons(x: string, xs: seq<string>)
    requires Ordered(xs) && forall i :: 0 <= i < |xs| ==> StrLe(x, xs[i])
    ensures Ordered([x] + xs)
  {
    var r := [x] + xs;
    forall k | 0 <= k <= |r| ensures Ascending(r[k..]) {
      if k > 0 {
        assert r[k..] == xs[k - 1..];
      }
    }
  }

  lemma OrderedTail(xs: seq<string>)
    requires Ordered(xs) && xs != []
    ensures Ordered(xs[1..]) && forall i :: 0 < i < |xs| ==> StrLe(xs[0], xs[i])
  {
    assert forall k :: 0 <= k <= |xs| - 1 ==> xs[1..][k..] == xs[k + 1..];
    assert Ascending(xs[0..]) && xs[0..] == xs;
  }

  lemma {:induction false} InsertMembers(x: string, xs: seq<string>)
    ensures multiset(Insert(x, xs)) == multiset(xs) + multiset{x}
  {
    if xs != [] {
      assert xs == [xs[0]] + xs[1..];
      InsertMembers(x, xs[1..]);
    }
  }

  lemma {:induction false} InsertSorts(x: string, xs: seq<string>)
    requires Ordered(xs)
    ensures Ordered(Insert(x, xs)) && multiset(Insert(x, xs)) == multiset(xs) + multiset{x}
    decreases |xs|, 1
  {
    InsertMembers(x, xs);
    if xs == [] {
      OrderedCons(x, xs);
    } else {
      StrLeTotal(x, xs[0]);
      OrderedTail(xs);
      if StrLe(x, xs[0]) {
        forall i | 0 < i < |xs| ensures StrLe(x, xs[i]) {
          StrLeTransitive(x, xs[0], xs[i]);
        }
        OrderedCons(x, xs);
      } else {
        InsertLater(x, xs);
      }
    }
  }

  lemma {:induction false} InsertLater(x: string, xs: seq<string>)
    requires xs != [] && Ordered(xs[1..]) && StrLe(xs[0], x)
    requires forall i :: 0 < i < |xs| ==> StrLe(xs[0], xs[i])
    ensures Ordered([xs[0]] + Insert(x, xs[1..]))
    decreases |xs|, 0
  {
    var rest := Insert(x, xs[1..]);
    InsertMembers(x, xs[1..]);
    InsertSorts(x, xs[1..]);
    forall i | 0 <= i < |rest| ensures StrLe(xs[0], rest[i]) {
      assert rest[i] in multiset(xs[1..]) + multiset{x};
    }
    OrderedCons(xs[0], rest);
  }

  lemma {:induction false} SortedSorts(xs: seq<string>)
    ensures Ordered(Sorted(xs)) && multiset(Sorted(xs)) == multiset(xs)
  {
    if xs != [] {
      SortedSorts(xs[1..]);
      InsertSorts(xs[0], Sorted(xs[1..]));
      assert xs == [xs[0]] + xs[1..];
    }
  }

  lemma LeastAndRest(xs: seq<string>)
    requires Ordered(xs) && xs != []
    ensures Ordered(xs[1..]) && multiset(xs[1..]) == multiset(xs) - multiset{xs[0]}
    ensures forall x :: x in multiset(xs) ==> StrLe(xs[0], x)
  {
    assert forall k :: 0 <= k <= |xs| - 1 ==> xs[1..][k..] == xs[k + 1..];
    assert xs == [xs[0]] + xs[1..];
    assert Ascending(xs[0..]) && xs[0..] == xs;
    StrLeTotal(xs[0], xs[0]);
  }

  /** Only one ordered list has given members. */
  lemma {:induction false} OrderedUnique(a: seq<string>, b: seq<string>)
    requires Ordered(a) && Ordered(b) && multiset(a) == multiset(b)
    ensures a == b
  {
    if a == [] || b == [] {
      assert |a| == |multiset(a)| && |b| == |multiset(b)|;
    } else {
      LeastAndRest(a);
      LeastAndRest(b);
      assert a[0] in multiset(b) && b[0] in multiset(a);
      StrLeTotal(a[0], b[0]);
      OrderedUnique(a[1..], b[1..]);
      assert a == [a[0]] + a[1..] && b == [b[0]] + b[1..];
    }
  }

  // ---------------------------------------------------------------- keys

  lemma SortedStaysSeparable(xs: seq<string>, c: char)
    requires Separable(xs, c)
    ensures Separable(Sorted(xs), c)
  {
    SortedSorts(xs);
    forall i | 0 <= i < |Sorted(xs)| ensures Free(Sorted(xs)[i], c) {
      assert Sorted(xs)[i] in multiset(xs);
    }
  }

  lemma {:induction false} JoinFree(parts: seq<string>, sep: char, c: char)
    requires c != sep && Separable(parts, c)
    ensures Free(Join(parts, sep), c)
  {
    if |parts| > 1 {
      JoinFree(parts[1..], sep, c);
    }
  }

  lemma PartsAreSeparable(query: Query)
    requires AmpFree(query)
    ensures Separable(Parts(query), '&')
  {
    SortedStaysSeparable(Codes(query.category), '&');
    JoinFree(Sorted(Codes(query.category)), ',', '&');
    DecimalIsFree(query.limit);
    NamedIsFree("bbox=", NormText(query.bbox));
    NamedIsFree("category=", NormCodes(query.category));
    NamedIsFree("limit=", Decimal(query.limit));
    NamedIsFree("q=", NormText(query.q));
    NamedIsFree("region_province=", NormText(query.region));
    if query.ListQuery? {
      NamedIsFree("cursor=", NormText(query.cursor));
    }
  }

  lemma NamedIsFree(name: string, value: string)
    requires Free(name, '&') && Free(value, '&')
    ensures Free(name + value, '&')
  {
  }

  lemma DecimalIsFree(n: nat)
    ensures Free(Decimal(n), '&')
  {
  }

  /** Comma-free code lists are written alike exactly when they have the same codes, or are the
      two lists that are written as nothing. */
  lemma NormCodesIdentify(a: Option<seq<string>>, b: Option<seq<string>>)
    requires Separable(Codes(a), ',') && Separable(Codes(b), ',')
    ensures NormCodes(a) == NormCodes(b) <==>
      multiset(Codes(a)) == multiset(Codes(b)) || (EmptyForm(a) && EmptyForm(b))
  {
    var x, y := Codes(a), Codes(b);
    SortedSorts(x);
    SortedSorts(y);
    SortedStaysSeparable(x, ',');
    SortedStaysSeparable(y, ',');
    JoinShape(Sorted(x), ',');
    JoinShape(Sorted(y), ',');
    SortedEmptyForm(x);
    SortedEmptyForm(y);
    if NormCodes(a) == NormCodes(b) && Sorted(x) != [] && Sorted(y) != [] {
      JoinInjective(Sorted(x), Sorted(y), ',');
    }
    if multiset(x) == multiset(y) {
      OrderedUnique(Sorted(x), Sorted(y));
    }
  }

  lemma SortedEmptyForm(xs: seq<string>)
    ensures Sorted(xs) == [] <==> xs == []
    ensures Sorted(xs) == [""] <==> xs == [""]
  {
    SortedSorts(xs);
    assert |xs| == |multiset(xs)| == |Sorted(xs)|;
    if |xs| == 1 {
      assert Sorted(xs)[0] in multiset(xs);
    }
  }

  /** A request whose values have no '&' shares its parameter string with exactly the requests
      that agree with it on everything else and write their categories alike, whatever those
      requests contain; and comma-free categories are written alike exactly when they are the
      same, or none and one empty code. In particular a list request never shares a string with a
      map request. */
  lemma KeyIdentifiesQuery(a: Query, b: Query)
    requires AmpFree(a)
    ensures RawKey(a) == RawKey(b) <==> SameRest(a, b) && NormCodes(a.category) == NormCodes(b.category)
    ensures CommaFree(a) && CommaFree(b) ==>
      (RawKey(a) == RawKey(b) <==>
        SameQuery(a, b) || (SameRest(a, b) && EmptyForm(a.category) && EmptyForm(b.category)))
  {
    if CommaFree(a) && CommaFree(b) {
      NormCodesIdentify(a.category, b.category);
    }
    if RawKey(a) == RawKey(b) {
      PartsAreSeparable(a);
      SeparatorsOfJoin(Parts(a), '&');
      SeparatorsOfJoin(Parts(b), '&');
      JoinInjective(Parts(a), Parts(b), '&');
      PartsIdentifyQuery(a, b);
    }
  }

  // ---------------------------------------------------------------- categories

  lemma {:induction false} PrefixIsLess(x: string, y: string, z: string)
    requires StrLe(x, y)
    ensures StrLe(x, y + z)
  {
    if x != "" && x[0] == y[0] {
      assert (y + z)[1..] == y[1..] + z;
      PrefixIsLess(x[1..], y[1..], z);
    }
  }

  /** A joined list starts with its first code. */
  lemma FirstIsLess(x: string, codes: seq<string>)
    requires codes != [] && StrLe(x, codes[0])
    ensures StrLe(x, Join(codes, ','))
  {
    if |codes| > 1 {
      var rest := Join(codes[1..], ',');
      assert Join(codes, ',') == codes[0] + ([','] + rest);
      PrefixIsLess(x, codes[0], [','] + rest);
    }
  }

  /** Two or more codes in order are written with a comma between two texts in order. */
  lemma JoinSplitsInOrder(codes: seq<string>)
    requires Ordered(codes) && |codes| > 1
    ensures var w, p := Join(codes, ','), |codes[0]|;
            p < |w| && w[p] == ',' && StrLe(w[..p], w[p + 1..])
  {
    var rest := Join(codes[1..], ',');
    OrderedTail(codes);
    FirstIsLess(codes[0], codes[1..]);
    Splits(codes[0], rest);
  }

  lemma Splits(x: string, y: string)
    ensures var w := x + [','] + y; |x| < |w| && w[|x|] == ',' && w[..|x|] == x && w[|x| + 1..] == y
  {
  }

  lemma SortedOne(w: string)
    ensures Sorted([w]) == [w] && NormCodes(Some([w])) == w
  {
  }

  /** What is written like one word is that word. */
  lemma OneWordIsOwn(codes: seq<string>, category: Option<seq<string>>)
    requires OneWord(codes) && NormCodes(category) == codes[0]
    ensures multiset(Codes(category)) == multiset(codes)
  {
    var sorted := Sorted(Codes(category));
    SortedSorts(Codes(category));
    if |sorted| > 1 {
      JoinSplitsInOrder(sorted);
    } else {
      assert sorted == codes;
    }
  }

  /** Anything else has a twin. */
  lemma Twin(codes: seq<string>) returns (twin: seq<string>)
    requires !OneWord(codes)
    ensures NormCodes(Some(twin)) == NormCodes(Some(codes)) && multiset(twin) != multiset(codes)
  {
    SortedOne("");
    if codes == [] {
      twin := [""];
    } else if codes == [""] {
      twin := [];
    } else if |codes| > 1 {
      twin := [NormCodes(Some(codes))];
      SortedOne(twin[0]);
      assert |multiset(twin)| == 1 && |multiset(codes)| == |codes|;
    } else {
      var p :| 0 <= p < |codes[0]| && codes[0][p] == ',' && StrLe(codes[0][..p], codes[0][p + 1..]);
      var x, y := codes[0][..p], codes[0][p + 1..];
      assert codes[0] == x + [','] + y;
      twin := [x, y];
      TwoCodesJoin(x, y);
      SortedOne(codes[0]);
      assert codes == [codes[0]];
      assert |multiset(twin)| == 2 && |multiset(codes)| == 1;
    }
  }

  lemma TwoCodesJoin(x: string, y: string)
    requires StrLe(x, y)
    ensures NormCodes(Some([x, y])) == x + [','] + y
  {
    var two := [x, y];
    assert two[1..] == [y] && Sorted([y]) == [y];
    assert Sorted(two) == Insert(x, [y]) == [x] + [y] == two;
    assert Join([y], ',') == y && Join(two, ',') == x + [','] + Join(two[1..], ',');
  }

  /** Exactly: a request whose values have no '&' has a parameter string of its own, among all
      requests, if and only if its categories are one word. `?category=` shares with no category,
      and `?category=cafe&category=food` with `?category=cafe,food`. */
  lemma KeyIsOwnIffOneWord(a: Query)
    requires AmpFree(a)
    ensures (forall b :: RawKey(a) == RawKey(b) ==> SameQuery(a, b)) <==> OneWord(Codes(a.category))
  {
    if OneWord(Codes(a.category)) {
      SortedOne(Codes(a.category)[0]);
      assert Codes(a.category) == [Codes(a.category)[0]];
      forall b | RawKey(a) == RawKey(b) ensures SameQuery(a, b) {
        KeyIdentifiesQuery(a, b);
        OneWordIsOwn(Codes(a.category), b.category);
      }
    } else {
      var twin := Twin(Codes(a.category));
      var b := a.(category := Some(twin));
      assert NormCodes(Some(Codes(a.category))) == NormCodes(a.category);
      KeyIdentifiesQuery(a, b);
      assert RawKey(a) == RawKey(b) && !SameQuery(a, b);
    }
  }

  /** Nor are commas escaped: one code that contains a comma is written as two codes. */
  lemma CommasCollide(a: Query, x: string, y: string)
    requires StrLe(x, y)
    ensures RawKey(a.(category := Some([x + [','] + y]))) == RawKey(a.(category := Some([x, y])))
    ensures !SameQuery(a.(category := Some([x + [','] + y])), a.(category := Some([x, y])))
  {
    var one, two := [x + [','] + y], [x, y];
    TwoCodesJoin(x, y);
    SortedOne(one[0]);
    assert |multiset(one)| == 1 && |multiset(two)| == 2;
  }

  lemma PartsIdentifyQuery(a: Query, b: Query)
    requires Parts(a) == Parts(b)
    ensures SameRest(a, b) && NormCodes(a.category) == NormCodes(b.category)
  {
    var p, p' := Parts(a), Parts(b);
    assert p[2][0] == if a.ListQuery? then 'c' else 'k';
    assert p'[2][0] == if b.ListQuery? then 'c' else 'k';
    assert p[0] == p'[0] && p[1] == p'[1] && p[3] == p'[3] && p[4] == p'[4] && p[5] == p'[5];
    CutPrefix("bbox=", NormText(a.bbox), NormText(b.bbox));
    CutPrefix("category=", NormCodes(a.category), NormCodes(b.category));
    CutPrefix("limit=", Decimal(a.limit), Decimal(b.limit));
    DecimalInjective(a.limit, b.limit);
    CutPrefix("q=", NormText(a.q), NormText(b.q));
    CutPrefix("region_province=", NormText(a.region), NormText(b.region));
    if a.ListQuery? {
      assert p[2] == p'[2];
      CutPrefix("cursor=", NormText(a.cursor), NormText(b.cursor));
    }
  }

  /** A separator inside a part can be read as one between parts. */
  lemma RegroupedJoin(x: string, y: string, z: string, w: string, rest: seq<string>, sep: char)
    ensures Join([x, y, z + [sep] + w] + rest, sep) == Join([x, y + [sep] + z, w] + rest, sep)
  {
    var a, b := [x, y, z + [sep] + w] + rest, [x, y + [sep] + z, w] + rest;
    assert a[1..][1..][1..] == rest == b[1..][1..][1..];
    var c, d := Join(a[1..][1..], sep), Join(b[1..][1..], sep);
    assert c == z + [sep] + d;
    assert Join(a[1..], sep) == y + [sep] + c;
    assert Join(b[1..], sep) == y + [sep] + z + [sep] + d;
    assert Join(a[1..], sep) == Join(b[1..], sep);
  }

  /** Nothing escapes '&': a category code of a map request and the cursor of a list request
      can spell out each other's parameters, and then the two share a key. */
  lemma AmpersandsCollide(limit: nat) returns (list: Query, mapped: Query)
    ensures list.ListQuery? && mapped.MapQuery?
    ensures RawKey(list) == RawKey(mapped) && !SameQuery(list, mapped)
  {
    var code := "a&cursor=z";
    list := ListQuery(None, Some(["a"]), None, None, Some("z&kind=map"), limit);
    mapped := MapQuery(None, Some([code]), None, None, limit);
    assert Sorted(["a"]) == ["a"] && Sorted([code]) == [code];
    var y, z, w := "category=a", "cursor=z", "kind=map";
    assert "category=" + code == y + ['&'] + z && "cursor=" + "z&kind=map" == z + ['&'] + w;
    assert Parts(list)[1] == y && Parts(list)[2] == z + ['&'] + w;
    assert Parts(list) == [Parts(list)[0], y, z + ['&'] + w] + Parts(list)[3..];
    assert Parts(mapped) == [Parts(list)[0], y + ['&'] + z, w] + Parts(list)[3..];
    RegroupedJoin(Parts(list)[0], y, z, w, Parts(list)[3..], '&');
  }
}
