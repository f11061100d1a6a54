/** Decoding the persisted filter slices (characters, bosses, history).
    Each facet keeps only values of its domain; string facets are also
    de-duplicated, keeping first occurrences. */
module FilterCodec {
  import opened Wrappers
  import opened Seqs
  import opened Json
  import opened Filters
  import opened History

  /** `uniqueStringArray`: the distinct strings of an array, in order of
      first appearance; anything but an array gives the empty list. */
  function UniqueStrings(x: Option<Json>): (r: seq<string>)
    ensures NoDups(r)
    ensures AsArray(x).None? ==> r == []
    ensures AsArray(x).Some? ==> forall s :: s in r <==> JStr(s) in AsArray(x).value
    ensures AsArray(x).Some? ==> forall i, j :: 0 <= i < j < |r| ==>
      IndexOf(AsArray(x).value, JStr(r[i])) < IndexOf(AsArray(x).value, JStr(r[j]))
  {
    match AsArray(x)
    case None => []
    case Some(items) =>
      var r := Dedupe(StringsOf(items));
      forall i, j | 0 <= i < j < |r|
        ensures IndexOf(items, JStr(r[i])) < IndexOf(items, JStr(r[j]))
      {
        StringsOfOrder(items, r[i], r[j]);
      }
      r
  }

  /** Taking the strings of an array keeps their relative order. */
  lemma {:induction false} StringsOfOrder(items: seq<Json>, s: string, t: string)
    requires s in StringsOf(items) && t in StringsOf(items)
    ensures IndexOf(StringsOf(items), s) < IndexOf(StringsOf(items), t)
        <==> IndexOf(items, JStr(s)) < IndexOf(items, JStr(t))
  {
    if items[0].JStr? {
      if items[0].s != s && items[0].s != t {
        StringsOfOrder(items[1..], s, t);
      }
    } else {
      StringsOfOrder(items[1..], s, t);
    }
  }

  /** Rarity facet: `entry === 4 || entry === 5`, duplicates kept. */
  function Rarities(items: seq<Json>): (r: seq<int>)
    ensures forall i :: 0 <= i < |r| ==> r[i] == 4 || r[i] == 5
    ensures |r| <= |items|
    ensures forall k :: k in r <==> (k == 4 || k == 5) && JNum(k as real) in items
  {
    if |items| == 0 then []
    else if items[0] == JNum(4.0) then [4] + Rarities(items[1..])
    else if items[0] == JNum(5.0) then [5] + Rarities(items[1..])
    else Rarities(items[1..])
  }

  predicate IsRarityJson(j: Json) { j == JNum(4.0) || j == JNum(5.0) }

  /** The rarity facet is exactly the array's 4s and 5s, in their order and
      with their repeats. */
  lemma {:induction false} RaritiesAreTheFilter(items: seq<Json>)
    ensures Nums(Rarities(items)) == Filter(items, IsRarityJson)
  {
    if |items| > 0 {
      var t := Rarities(items[1..]);
      var f := Filter(items[1..], IsRarityJson);
      RaritiesAreTheFilter(items[1..]);
      assert Nums(t) == f;
      if items[0] == JNum(4.0) {
        assert Rarities(items) == [4] + t;
        assert Filter(items, IsRarityJson) == [items[0]] + f;
        NumsCons(4, t);
      } else if items[0] == JNum(5.0) {
        assert Rarities(items) == [5] + t;
        assert Filter(items, IsRarityJson) == [items[0]] + f;
        NumsCons(5, t);
      } else {
        assert Rarities(items) == t;
        assert Filter(items, IsRarityJson) == f;
      }
    }
  }

  lemma NumsCons(k: int, t: seq<int>)
    ensures Nums([k] + t) == [JNum(k as real)] + Nums(t)
  {
    var u := [k] + t;
    assert forall i :: 1 <= i < |u| ==> u[i] == t[i - 1];
  }

  /** The stored rarity facet: the 4s and 5s of an array, nothing for
      anything else. */
  function RarityFacet(x: Option<Json>): (r: seq<int>)
    ensures forall i :: 0 <= i < |r| ==> r[i] == 4 || r[i] == 5
    ensures AsArray(x).Some? ==> Nums(r) == Filter(AsArray(x).value, IsRarityJson)
    ensures AsArray(x).None? ==> r == []
  {
    match AsArray(x)
    case None => []
    case Some(items) =>
      RaritiesAreTheFilter(items);
      Rarities(items)
  }

  function ViewModeOf(x: Option<Json>): (m: ViewMode)
    ensures m == List <==> x == Some(JStr("list"))
  {
    if x == Some(JStr("list")) then List else Cards
  }

  function ViewModeName(m: ViewMode): string {
    match m
    case Cards => "cards"
    case List => "list"
  }

  predicate WellFormedCharacterFilters(f: CharacterFilters) {
    && (forall i :: 0 <= i < |f.rarities| ==> f.rarities[i] == 4 || f.rarities[i] == 5)
    && NoDups(f.weapons)
    && NoDups(f.elements)
  }

  /** `normalizeCharacterFilters`. */
  function NormalizeCharacterFilters(v: Json): (f: CharacterFilters)
    ensures WellFormedCharacterFilters(f)
    ensures AsString(Get(v, "search")).Some? ==> f.search == AsString(Get(v, "search")).value
    ensures AsString(Get(v, "search")).None? ==> f.search == ""
    ensures f.viewMode == ViewModeOf(Get(v, "viewMode"))
    ensures AsArray(Get(v, "rarities")).Some? ==> Nums(f.rarities) == Filter(AsArray(Get(v, "rarities")).value, IsRarityJson)
    ensures AsArray(Get(v, "rarities")).None? ==> f.rarities == []
    ensures f.weapons == UniqueStrings(Get(v, "weapons"))
    ensures f.elements == UniqueStrings(Get(v, "elements"))
    ensures !v.JObj? ==> f == DefaultCharacterFilters
  {
    CharacterFilters(
      AsString(Get(v, "search")).GetOr(""),
      ViewModeOf(Get(v, "viewMode")),
      RarityFacet(Get(v, "rarities")),
      UniqueStrings(Get(v, "weapons")),
      UniqueStrings(Get(v, "elements")))
  }

  function EncodeCharacterFilters(f: CharacterFilters): Json {
    JObj(map[
      "search" := JStr(f.search),
      "viewMode" := JStr(ViewModeName(f.viewMode)),
      "rarities" := JArr(Nums(f.rarities)),
      "weapons" := JArr(Strs(f.weapons)),
      "elements" := JArr(Strs(f.elements))])
  }

  function Nums(rs: seq<int>): (r: seq<Json>)
    ensures |r| == |rs|
    ensures forall i :: 0 <= i < |rs| ==> r[i] == JNum(rs[i] as real)
  {
    seq(|rs|, i requires 0 <= i < |rs| => JNum(rs[i] as real))
  }

  lemma {:induction false} RaritiesRoundTrip(rs: seq<int>)
    requires forall i :: 0 <= i < |rs| ==> rs[i] == 4 || rs[i] == 5
    ensures Rarities(Nums(rs)) == rs
  {
    if |rs| > 0 {
      assert Nums(rs)[1..] == Nums(rs[1..]);
      RaritiesRoundTrip(rs[1..]);
    }
  }

  lemma UniqueStringsRoundTrip(xs: seq<string>)
    requires NoDups(xs)
    ensures UniqueStrings(Some(JArr(Strs(xs)))) == xs
  {
    StringsOfStrs(xs);
    DedupeOfDistinct(xs);
  }

  /** Saving well-formed character filters and reading them back gives
      them back. */
  lemma CharacterFiltersRoundTrip(f: CharacterFilters)
    requires WellFormedCharacterFilters(f)
    ensures NormalizeCharacterFilters(EncodeCharacterFilters(f)) == f
  {
    var v := EncodeCharacterFilters(f);
    assert Get(v, "search") == Some(JStr(f.search));
    assert Get(v, "viewMode") == Some(JStr(ViewModeName(f.viewMode)));
    assert Get(v, "rarities") == Some(JArr(Nums(f.rarities)));
    assert Get(v, "weapons") == Some(JArr(Strs(f.weapons)));
    assert Get(v, "elements") == Some(JArr(Strs(f.elements)));
    RaritiesRoundTrip(f.rarities);
    UniqueStringsRoundTrip(f.weapons);
    UniqueStringsRoundTrip(f.elements);
  }

  lemma NormalizeCharacterFiltersIdempotent(v: Json)
    ensures NormalizeCharacterFilters(EncodeCharacterFilters(NormalizeCharacterFilters(v)))
         == NormalizeCharacterFilters(v)
  {
    CharacterFiltersRoundTrip(NormalizeCharacterFilters(v));
  }

  /** The rarity facet is filtered but not de-duplicated. */
  lemma RaritiesKeepDuplicates()
    ensures NormalizeCharacterFilters(JObj(map["rarities" := JArr([JNum(5.0), JNum(5.0), JNum(3.0)])])).rarities == [5, 5]
  {
    var rs := [JNum(5.0), JNum(5.0), JNum(3.0)];
    var v := JObj(map["rarities" := JArr(rs)]);
    assert Get(v, "rarities") == Some(JArr(rs));
    assert Rarities(rs[2..]) == [];
    assert Rarities(rs[1..]) == [5];
    assert Rarities(rs) == [5, 5];
  }

  /** A string facet, by contrast, keeps one copy of each value. */
  lemma StringFacetsDropDuplicates(w: string)
    ensures UniqueStrings(Some(JArr([JStr(w), JStr(w)]))) == [w]
  {
    var r := UniqueStrings(Some(JArr([JStr(w), JStr(w)])));
    assert w in r;
    assert forall i :: 0 <= i < |r| ==> r[i] == w;
  }

  predicate IsShape(s: string) { s == "single" || s == "multi" }

  predicate IsLength(s: string) { s == "short" || s == "medium" || s == "long" }

  predicate WellFormedBossFilters(f: BossFilters) {
    && NoDups(f.groups)
    && NoDups(f.nameShapes)
    && NoDups(f.nameLengths)
    && (forall i :: 0 <= i < |f.nameShapes| ==> IsShape(f.nameShapes[i]))
    && (forall i :: 0 <= i < |f.nameLengths| ==> IsLength(f.nameLengths[i]))
  }

  /** Filtering a duplicate-free list keeps it duplicate-free. */
  lemma {:induction false} FilterKeepsNoDups<T>(xs: seq<T>, p: T -> bool)
    requires NoDups(xs)
    ensures NoDups(Filter(xs, p))
  {
    if |xs| > 0 {
      FilterKeepsNoDups(xs[1..], p);
      assert xs[0] !in xs[1..];
    }
  }

  /** `normalizeBossFilters`. */
  function NormalizeBossFilters(v: Json): (f: BossFilters)
    ensures WellFormedBossFilters(f)
    ensures forall s :: s in f.nameShapes <==> s in {"single", "multi"} && s in UniqueStrings(Get(v, "nameShapes"))
    ensures forall s :: s in f.nameLengths <==> s in {"short", "medium", "long"} && s in UniqueStrings(Get(v, "nameLengths"))
    ensures AsString(Get(v, "search")).Some? ==> f.search == AsString(Get(v, "search")).value
    ensures AsString(Get(v, "search")).None? ==> f.search == ""
    ensures f.viewMode == ViewModeOf(Get(v, "viewMode"))
    ensures f.groups == UniqueStrings(Get(v, "groups"))
    ensures f.nameShapes == Filter(UniqueStrings(Get(v, "nameShapes")), IsShape)
    ensures f.nameLengths == Filter(UniqueStrings(Get(v, "nameLengths")), IsLength)
    ensures !v.JObj? ==> f == DefaultBossFilters
  {
    var shapes := UniqueStrings(Get(v, "nameShapes"));
    var lengths := UniqueStrings(Get(v, "nameLengths"));
    FilterKeepsNoDups(shapes, IsShape);
    FilterKeepsNoDups(lengths, IsLength);
    BossFilters(
      AsString(Get(v, "search")).GetOr(""),
      ViewModeOf(Get(v, "viewMode")),
      UniqueStrings(Get(v, "groups")),
      Filter(shapes, IsShape),
      Filter(lengths, IsLength))
  }

  function EncodeBossFilters(f: BossFilters): Json {
    JObj(map[
      "search" := JStr(f.search),
      "viewMode" := JStr(ViewModeName(f.viewMode)),
      "groups" := JArr(Strs(f.groups)),
      "nameShapes" := JArr(Strs(f.nameShapes)),
      "nameLengths" := JArr(Strs(f.nameLengths))])
  }

  lemma BossFiltersRoundTrip(f: BossFilters)
    requires WellFormedBossFilters(f)
    ensures NormalizeBossFilters(EncodeBossFilters(f)) == f
  {
    var v := EncodeBossFilters(f);
    var search, mode := Get(v, "search"), Get(v, "viewMode");
    var groups, shapes, lengths := Get(v, "groups"), Get(v, "nameShapes"), Get(v, "nameLengths");
    assert search == Some(JStr(f.search)) && mode == Some(JStr(ViewModeName(f.viewMode)));
    assert groups == Some(JArr(Strs(f.groups)));
    assert shapes == Some(JArr(Strs(f.nameShapes)));
    assert lengths == Some(JArr(Strs(f.nameLengths)));
    UniqueStringsRoundTrip(f.groups);
    UniqueStringsRoundTrip(f.nameShapes);
    UniqueStringsRoundTrip(f.nameLengths);
    FilterAll(f.nameShapes, IsShape);
    FilterAll(f.nameLengths, IsLength);
  }

  lemma NormalizeBossFiltersIdempotent(v: Json)
    ensures NormalizeBossFilters(EncodeBossFilters(NormalizeBossFilters(v))) == NormalizeBossFilters(v)
  {
    BossFiltersRoundTrip(NormalizeBossFilters(v));
  }

  function StageFilterOf(x: Option<Json>): (s: StageFilter)
    ensures s == OnlyStage(Characters) <==> x == Some(JStr("characters"))
    ensures s == OnlyStage(Bosses) <==> x == Some(JStr("bosses"))
  {
    if x == Some(JStr("characters")) then OnlyStage(Characters)
    else if x == Some(JStr("bosses")) then OnlyStage(Bosses)
    else AllStages
  }

  function StageFilterName(s: StageFilter): string {
    match s
    case AllStages => "all"
    case OnlyStage(st) => StageName(st)
  }

  /** `normalizeHistoryFilters`. */
  function NormalizeHistoryFilters(v: Json): (f: HistoryFilters)
    ensures AsString(Get(v, "from")).Some? ==> f.from == AsString(Get(v, "from")).value
    ensures AsString(Get(v, "from")).None? ==> f.from == ""
    ensures AsString(Get(v, "to")).Some? ==> f.to == AsString(Get(v, "to")).value
    ensures AsString(Get(v, "to")).None? ==> f.to == ""
    ensures f.stage == StageFilterOf(Get(v, "stage"))
    ensures !v.JObj? ==> f == DefaultHistoryFilters
  {
    HistoryFilters(
      AsString(Get(v, "from")).GetOr(""),
      AsString(Get(v, "to")).GetOr(""),
      StageFilterOf(Get(v, "stage")))
  }

  function EncodeHistoryFilters(f: HistoryFilters): Json {
    JObj(map[
      "from" := JStr(f.from),
      "to" := JStr(f.to),
      "stage" := JStr(StageFilterName(f.stage))])
  }

  /** Every history filter state survives a save and reload, so decoding is
      idempotent. */
  lemma HistoryFiltersRoundTrip(f: HistoryFilters)
    ensures NormalizeHistoryFilters(EncodeHistoryFilters(f)) == f
  {
    var v := EncodeHistoryFilters(f);
    assert Get(v, "stage") == Some(JStr(StageFilterName(f.stage)));
  }
}
