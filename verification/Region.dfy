/** Province names (vivacapi/core/region.py): full name to abbreviation, and the inverse index
    behind the region filter. */
module Region {
  import opened Wrappers

  /** A name table in insertion order: (full name, abbreviation). */
  type Names = seq<(string, string)>

  const SIDO_ABBR: Names := [
    ("서울특별시", "서울"), ("부산광역시", "부산"), ("대구광역시", "대구"), ("인천광역시", "인천"),
    ("광주광역시", "광주"), ("대전광역시", "대전"), ("울산광역시", "울산"), ("세종특별자치시", "세종"),
    ("경기도", "경기"), ("강원도", "강원"), ("강원특별자치도", "강원"), ("충청북도", "충북"),
    ("충청남도", "충남"), ("전라북도", "전북"), ("전북특별자치도", "전북"), ("전라남도", "전남"),
    ("경상북도", "경북"), ("경상남도", "경남"), ("제주특별자치도", "제주")]

  /** A dict has each key once. */
  predicate DistinctNames(table: Names) {
    forall i, j :: 0 <= i < j < |table| ==> table[i].0 != table[j].0
  }

  function Abbreviation(table: Names, raw: string): Option<string> {
    if table == [] then None
    else if table[0].0 == raw then Some(table[0].1)
    else Abbreviation(table[1..], raw)
  }

  /** `abbreviate_sido`: an unknown name is its own label. */
  function AbbreviateSido(table: Names, province: Option<string>): Option<string> {
    if province.None? then None
    else
      var abbr := Abbreviation(table, province.value);
      if abbr.Some? then abbr else province
  }

  function Whitelist(table: Names): set<string> {
    set i | 0 <= i < |table| :: table[i].1
  }

  /** `raw_names_for_region_filter`. */
  function RawNamesForRegionFilter(index: map<string, seq<string>>, abbr: string): seq<string> {
    if abbr in index then index[abbr] else []
  }

  /** What the module-level loop leaves: each abbreviation's own name and the full names that
      shorten to it, each listed once. */
  ghost predicate IsInverse(table: Names, index: map<string, seq<string>>) {
    index.Keys == Whitelist(table) && Lists(table, index)
  }

  ghost predicate Lists(entries: Names, index: map<string, seq<string>>) {
    forall a :: a in index ==> ListsNamesOf(entries, a, index[a])
  }

  ghost predicate ListsNamesOf(entries: Names, abbr: string, names: seq<string>) {
    forall r :: multiset(names)[r] == (if r == abbr then 1 else 0) + (if (r, abbr) in entries then 1 else 0)
  }

  lemma AppendedName(entries: Names, entry: (string, string), abbr: string, names: seq<string>)
    requires ListsNamesOf(entries, abbr, names) && forall e :: e in entries ==> e.0 != entry.0
    ensures ListsNamesOf(entries + [entry], abbr, if entry.1 == abbr then names + [entry.0] else names)
  {
    forall r
      ensures var names' := if entry.1 == abbr then names + [entry.0] else names;
              multiset(names')[r] == (if r == abbr then 1 else 0) + (if (r, abbr) in entries + [entry] then 1 else 0)
    {
      assert (r, abbr) in entries + [entry] <==> (r, abbr) in entries || (r, abbr) == entry;
      assert r == entry.0 ==> (r, abbr) !in entries;
    }
  }

  lemma OwnNamesOnly(whitelist: set<string>)
    ensures Lists([], map abbr | abbr in whitelist :: [abbr])
  {
  }

  lemma AppendedEntry(table: Names, i: nat, before: map<string, seq<string>>)
    requires DistinctNames(table) && i < |table| && before.Keys == Whitelist(table) && Lists(table[..i], before)
    ensures table[i].1 in before
    ensures before[table[i].1 := before[table[i].1] + [table[i].0]].Keys == Whitelist(table)
    ensures Lists(table[..i + 1], before[table[i].1 := before[table[i].1] + [table[i].0]])
  {
    assert table[..i + 1] == table[..i] + [table[i]];
    forall a | a in before
      ensures ListsNamesOf(table[..i + 1], a, if table[i].1 == a then before[a] + [table[i].0] else before[a])
    {
      AppendedName(table[..i], table[i], a, before[a]);
    }
  }

  method BuildRawNamesByAbbr(table: Names) returns (index: map<string, seq<string>>)
    requires DistinctNames(table)
    ensures IsInverse(table, index)
  {
    index := map abbr | abbr in Whitelist(table) :: [abbr];
    OwnNamesOnly(Whitelist(table));
    for i := 0 to |table|
      invariant index.Keys == Whitelist(table) && Lists(table[..i], index)
    {
      AppendedEntry(table, i, index);
      var (raw, abbr) := table[i];
      index := index[abbr := index[abbr] + [raw]];
    }
    assert table[..|table|] == table;
  }

  lemma {:induction false} AbbreviationIsEntry(table: Names, raw: string, abbr: string)
    requires DistinctNames(table)
    ensures Abbreviation(table, raw) == Some(abbr) <==> (raw, abbr) in table
  {
    if table != [] {
      AbbreviationIsEntry(table[1..], raw, abbr);
      if table[0].0 == raw {
        forall j | 0 < j < |table| ensures table[j].0 != raw {
        }
      }
    }
  }

  /** The label of a province is the abbreviation that the table lists for its name, and the name
      itself when it lists none; no province has no label. */
  lemma LabelOfProvince(table: Names, raw: string)
    requires DistinctNames(table)
    ensures forall abbr :: (raw, abbr) in table ==> AbbreviateSido(table, Some(raw)) == Some(abbr)
    ensures (forall abbr :: (raw, abbr) !in table) ==> AbbreviateSido(table, Some(raw)) == Some(raw)
    ensures AbbreviateSido(table, None) == None
  {
    forall abbr ensures Abbreviation(table, raw) == Some(abbr) <==> (raw, abbr) in table {
      AbbreviationIsEntry(table, raw, abbr);
    }
  }

  /** An abbreviation that is itself a full name stands for itself. */
  predicate Settled(table: Names) {
    forall a :: a in Whitelist(table) ==> Abbreviation(table, a) in {None, Some(a)}
  }

  ghost predicate FilterMatchesLabel(table: Names, index: map<string, seq<string>>) {
    forall a, r :: a in Whitelist(table) ==>
      (r in RawNamesForRegionFilter(index, a) <==> AbbreviateSido(table, Some(r)) == Some(a))
  }

  /** The round trip the filter promises - a label sent back as a filter selects exactly the
      names shown with that label - holds for a name table if and only if every abbreviation
      that is also a full name abbreviates to itself. */
  lemma InverseIndexIsExactIffSettled(table: Names, index: map<string, seq<string>>)
    requires DistinctNames(table) && IsInverse(table, index)
    ensures FilterMatchesLabel(table, index) <==> Settled(table)
  {
    forall a, r | a in Whitelist(table)
      ensures r in RawNamesForRegionFilter(index, a) <==> r == a || Abbreviation(table, r) == Some(a)
    {
      AbbreviationIsEntry(table, r, a);
      assert ListsNamesOf(table, a, index[a]);
      assert r in index[a] <==> multiset(index[a])[r] > 0;
    }
    if FilterMatchesLabel(table, index) {
      forall a | a in Whitelist(table) ensures Abbreviation(table, a) in {None, Some(a)} {
        assert AbbreviateSido(table, Some(a)) == Some(a);
      }
    }
  }

  /** A value outside the whitelist selects nothing, which the endpoint reports as an error. */
  lemma UnknownRegionSelectsNothing(table: Names, index: map<string, seq<string>>, abbr: string)
    requires IsInverse(table, index)
    ensures RawNamesForRegionFilter(index, abbr) == [] <==> abbr !in Whitelist(table)
  {
    if abbr in index {
      assert ListsNamesOf(table, abbr, index[abbr]);
      assert multiset(index[abbr])[abbr] >= 1;
    }
  }

  /** The shipped table qualifies: abbreviations have two characters, full names more. */
  lemma SidoTableIsSettled()
    ensures DistinctNames(SIDO_ABBR) && Settled(SIDO_ABBR)
  {
    assert forall i :: 0 <= i < |SIDO_ABBR| ==> |SIDO_ABBR[i].1| == 2 < |SIDO_ABBR[i].0|;
    forall a | a in Whitelist(SIDO_ABBR) ensures Abbreviation(SIDO_ABBR, a) == None {
      NotAFullName(SIDO_ABBR, a);
    }
  }

  lemma {:induction false} NotAFullName(table: Names, raw: string)
    requires forall i :: 0 <= i < |table| ==> |table[i].0| > |raw|
    ensures Abbreviation(table, raw) == None
  {
    if table != [] {
      NotAFullName(table[1..], raw);
    }
  }
}
