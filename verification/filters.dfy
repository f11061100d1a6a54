/** The filter engine: which catalogue items a filter state lets through.
    An empty facet list restricts nothing; the free-text search is trimmed,
    case-folded and matched as a substring of the display name. */
module Filters {
  import opened Wrappers
  import opened Text
  import opened Seqs
  import opened Catalog

  datatype ViewMode = Cards | List

  datatype CharacterFilters = CharacterFilters(
    search: string,
    viewMode: ViewMode,
    rarities: seq<int>,
    weapons: seq<string>,
    elements: seq<string>)

  datatype BossFilters = BossFilters(
    search: string,
    viewMode: ViewMode,
    groups: seq<string>,
    nameShapes: seq<string>,
    nameLengths: seq<string>)

  const DefaultCharacterFilters := CharacterFilters("", Cards, [], [], [])
  const DefaultBossFilters := BossFilters("", Cards, [], [], [])

  /** A facet list lets `v` through when it is empty or names `v`. */
  predicate Admits<T(==)>(facet: seq<T>, v: T) {
    |facet| == 0 || v in facet
  }

  /** The search box lets `name` through. */
  predicate SearchAdmits(search: string, name: string) {
    var q := Lower(Trim(search));
    |q| == 0 || Contains(Lower(name), q)
  }

  /** A boss name is "multi" when it has more than one whitespace-separated
      word, "single" otherwise. */
  function NameShape(name: string): (r: string)
    ensures r == "single" || r == "multi"
    ensures r == "multi" <==> exists i :: 0 <= i < |Trim(name)| && IsSpace(Trim(name)[i])
  {
    ManyWordsIffInnerSpace(Trim(name));
    if |Words(Trim(name))| > 1 then "multi" else "single"
  }

  /** A boss name is "short" up to 10 UTF-16 code units once trimmed,
      "medium" up to 18, "long" beyond. */
  function NameLength(name: string): (r: string)
    ensures r == "short" <==> Utf16Length(Trim(name)) <= 10
    ensures r == "medium" <==> 11 <= Utf16Length(Trim(name)) <= 18
    ensures r == "long" <==> Utf16Length(Trim(name)) > 18
  {
    var n := Utf16Length(Trim(name));
    if n <= 10 then "short"
    else if n <= 18 then "medium"
    else "long"
  }

  function MatchesCharacter(item: Item, f: CharacterFilters, lang: Lang): (r: bool)
    ensures |f.rarities| == |f.weapons| == |f.elements| == 0 && |Trim(f.search)| == 0 ==> r
    ensures |f.rarities| > 0 && !(item.rarity.Some? && item.rarity.value in f.rarities) ==> !r
    ensures |f.weapons| > 0 && item.weapon !in f.weapons ==> !r
    ensures |f.elements| > 0 && item.element !in f.elements ==> !r
    ensures r ==> SearchAdmits(f.search, ItemName(item, lang))
    ensures ((|f.rarities| == 0 || (item.rarity.Some? && item.rarity.value in f.rarities))
             && Admits(f.weapons, item.weapon) && Admits(f.elements, item.element)
             && SearchAdmits(f.search, ItemName(item, lang))) ==> r
  {
    if |f.rarities| > 0 && !(item.rarity.Some? && item.rarity.value in f.rarities) then false
    else if !Admits(f.weapons, item.weapon) then false
    else if !Admits(f.elements, item.element) then false
    else SearchAdmits(f.search, ItemName(item, lang))
  }

  function MatchesBoss(item: Item, f: BossFilters, lang: Lang): (r: bool)
    ensures |f.groups| == |f.nameShapes| == |f.nameLengths| == 0 && |Trim(f.search)| == 0 ==> r
    ensures |f.groups| > 0 && item.group !in f.groups ==> !r
    ensures |f.nameShapes| > 0 && NameShape(ItemName(item, lang)) !in f.nameShapes ==> !r
    ensures |f.nameLengths| > 0 && NameLength(ItemName(item, lang)) !in f.nameLengths ==> !r
    ensures r ==> SearchAdmits(f.search, ItemName(item, lang))
    ensures (Admits(f.groups, item.group)
             && Admits(f.nameShapes, NameShape(ItemName(item, lang)))
             && Admits(f.nameLengths, NameLength(ItemName(item, lang)))
             && SearchAdmits(f.search, ItemName(item, lang))) ==> r
  {
    if !Admits(f.groups, item.group) then false
    else
      var name := ItemName(item, lang);
      if !Admits(f.nameShapes, NameShape(name)) then false
      else if !Admits(f.nameLengths, NameLength(name)) then false
      else SearchAdmits(f.search, name)
  }

  /** The default character filters show the whole roster. */
  lemma DefaultsShowAllCharacters(item: Item, lang: Lang)
    ensures MatchesCharacter(item, DefaultCharacterFilters, lang)
  {
  }

  /** The default boss filters show every boss. */
  lemma DefaultsShowAllBosses(item: Item, lang: Lang)
    ensures MatchesBoss(item, DefaultBossFilters, lang)
  {
  }

  /** Clearing a facet never hides an item that was shown. */
  lemma ClearingFacetWidens(item: Item, f: CharacterFilters, lang: Lang)
    requires MatchesCharacter(item, f, lang)
    ensures MatchesCharacter(item, f.(rarities := []), lang)
    ensures MatchesCharacter(item, f.(weapons := []), lang)
    ensures MatchesCharacter(item, f.(elements := []), lang)
  {
  }

  /** `toggleFilterArray`: removes every copy of `v` when present, appends
      it otherwise. */
  function ToggleFacet<T(==)>(facet: seq<T>, v: T): (r: seq<T>)
    ensures v in r <==> v !in facet
    ensures forall i :: 0 <= i < |facet| && facet[i] != v ==> facet[i] in r
    ensures forall i :: 0 <= i < |r| && r[i] != v ==> r[i] in facet
  {
    if v in facet then Filter(facet, e => e != v) else facet + [v]
  }

  /** Toggling a chip on and off again restores the facet list. */
  lemma ToggleTwiceRestores<T>(facet: seq<T>, v: T)
    requires v !in facet
    ensures ToggleFacet(ToggleFacet(facet, v), v) == facet
  {
    var once := facet + [v];
    FilterAppend(facet, [v], e => e != v);
    FilterAll(facet, e => e != v);
  }
}
