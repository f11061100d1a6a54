/** The pool manager: the selected-id sets, their bulk operations, the
    pruning or seeding done when a catalogue arrives, and the effective
    roll pool (filtered view intersected with the selection). */
module Pool {
  import opened Seqs
  import opened Catalog
  import opened Filters

  /** Clicking one card: selects it if unselected, deselects it otherwise. */
  function Toggle(sel: set<string>, id: string): (r: set<string>)
    ensures id in r <==> id !in sel
    ensures forall x :: x != id ==> (x in r <==> x in sel)
  {
    if id in sel then sel - {id} else sel + {id}
  }

  lemma ToggleTwice(sel: set<string>, id: string)
    ensures Toggle(Toggle(sel, id), id) == sel
  {
  }

  /** Characters shown by the current filters, in catalogue order. */
  function VisibleCharacters(all: seq<Item>, f: CharacterFilters, lang: Lang): (r: seq<Item>)
    ensures IsSubseq(r, all)
    ensures forall i :: 0 <= i < |r| ==> MatchesCharacter(r[i], f, lang)
    ensures forall i :: 0 <= i < |all| && MatchesCharacter(all[i], f, lang) ==> all[i] in r
  {
    Filter(all, (x: Item) => MatchesCharacter(x, f, lang))
  }

  /** Bosses shown by the current filters, in catalogue order. */
  function VisibleBosses(all: seq<Item>, f: BossFilters, lang: Lang): (r: seq<Item>)
    ensures IsSubseq(r, all)
    ensures forall i :: 0 <= i < |r| ==> MatchesBoss(r[i], f, lang)
    ensures forall i :: 0 <= i < |all| && MatchesBoss(all[i], f, lang) ==> all[i] in r
  {
    Filter(all, (x: Item) => MatchesBoss(x, f, lang))
  }

  /** "Select visible": adds every visible id, touches nothing else. */
  function SelectVisible(sel: set<string>, visible: seq<Item>): (r: set<string>)
    ensures sel <= r
    ensures forall i :: 0 <= i < |visible| ==> visible[i].id in r
    ensures forall x :: x !in IdSet(visible) ==> (x in r <==> x in sel)
  {
    sel + IdSet(visible)
  }

  /** "Deselect visible": removes every visible id, touches nothing else. */
  function DeselectVisible(sel: set<string>, visible: seq<Item>): (r: set<string>)
    ensures r <= sel
    ensures forall i :: 0 <= i < |visible| ==> visible[i].id !in r
    ensures forall x :: x !in IdSet(visible) ==> (x in r <==> x in sel)
  {
    set x | x in sel && x !in IdSet(visible)
  }

  /** "Select all": exactly the catalogue's ids. */
  function SelectAll(all: seq<Item>): (r: set<string>)
    ensures forall i :: 0 <= i < |all| ==> all[i].id in r
    ensures forall x :: x in r ==> exists i :: 0 <= i < |all| && all[i].id == x
  {
    IdSet(all)
  }

  /** "Deselect all". */
  function DeselectAll(sel: set<string>): (r: set<string>)
    ensures |r| == 0
  {
    {}
  }

  /** Catalogue load: with no persisted selection every loaded id becomes
      selected; otherwise the persisted selection loses the ids the
      catalogue no longer has and gains none. */
  function OnCatalogLoad(prev: set<string>, hasPersisted: bool, catalog: seq<Item>): (r: set<string>)
    ensures r <= IdSet(catalog)
    ensures !hasPersisted ==> r == IdSet(catalog)
    ensures hasPersisted ==> r <= prev && forall x :: x in prev && x in IdSet(catalog) ==> x in r
  {
    if !hasPersisted then IdSet(catalog) else set x | x in prev && x in IdSet(catalog)
  }

  /** Reloading the same catalogue prunes nothing further. */
  lemma OnCatalogLoadStable(prev: set<string>, hasPersisted: bool, catalog: seq<Item>)
    ensures var once := OnCatalogLoad(prev, hasPersisted, catalog);
            OnCatalogLoad(once, true, catalog) == once
  {
  }

  /** The persisted selection {a, b} meets a catalogue with ids [b, c]. */
  lemma PruneScenario(b: Item, c: Item)
    requires b.id == "b" && c.id == "c"
    ensures OnCatalogLoad({"a", "b"}, true, [b, c]) == {"b"}
  {
    assert [b, c][0].id == "b";
    assert "b" in IdSet([b, c]);
    assert "a" !in IdSet([b, c]);
  }

  /** The items a roll may draw: filtered items whose id is selected, in
      catalogue order. */
  function EffectivePool(filtered: seq<Item>, sel: set<string>): (r: seq<Item>)
    ensures IsSubseq(r, filtered)
    ensures forall i :: 0 <= i < |r| ==> r[i].id in sel
    ensures forall i :: 0 <= i < |filtered| && filtered[i].id in sel ==> filtered[i] in r
  {
    Filter(filtered, (x: Item) => x.id in sel)
  }

  /** After "select visible", the pool is the whole filtered view. */
  lemma SelectVisibleFillsPool(sel: set<string>, visible: seq<Item>)
    ensures EffectivePool(visible, SelectVisible(sel, visible)) == visible
  {
    FilterAll(visible, (x: Item) => x.id in SelectVisible(sel, visible));
  }

  /** After "deselect visible", the pool is empty. */
  lemma DeselectVisibleEmptiesPool(sel: set<string>, visible: seq<Item>)
    ensures EffectivePool(visible, DeselectVisible(sel, visible)) == []
  {
  }
}
