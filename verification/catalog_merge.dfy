/** How the catalogue loader combines what its sources return: localized
    boss names, boss records listed twice under one id, the character
    metadata index, and the final character list. */
module CatalogMerge {
  import opened Wrappers
  import opened Seqs
  import opened Catalog
  import opened CatalogText

  /** A localized name that says something the English one does not. */
  predicate Translated(name: string, english: string) {
    name != "" && name != english
  }

  /** `pickLocalizedName`: a real translation wins, the left one first;
      otherwise whichever name is non-empty. */
  function PickLocalizedName(left: string, right: string, english: string): (r: string)
    ensures r == left || r == right || r == english
    ensures Translated(left, english) ==> r == left
    ensures Translated(r, english) <==> Translated(left, english) || Translated(right, english)
    ensures r == "" <==> left == "" && right == "" && english == ""
  {
    if Translated(left, english) then left
    else if Translated(right, english) then right
    else Or(Or(left, right), english)
  }

  /** Fallback lists are kept as `uniqueUrls` leaves them. */
  predicate UrlList(urls: seq<string>) {
    NoDups(urls) && "" !in urls
  }

  /** `mergeBossEntries`: the earlier record keeps its name, image and
      splash when it has them; the later record supplies every other field;
      fallback URLs of both are pooled. */
  function MergeBossEntries(base: Item, cand: Item): (r: Item)
    ensures r.id == cand.id && r.rarity == cand.rarity && r.weapon == cand.weapon
    ensures r.element == cand.element && r.group == cand.group
    ensures base.name != "" ==> r.name == base.name
    ensures base.name == "" ==> r.name == cand.name
    ensures base.image != "" ==> r.image == base.image
    ensures base.image == "" ==> r.image == cand.image
    ensures base.splash != "" ==> r.splash == base.splash
    ensures base.splash == "" && cand.splash != "" ==> r.splash == cand.splash
    ensures base.splash == "" && cand.splash == "" ==> r.splash == r.image
    ensures r.nameRu == PickLocalizedName(base.nameRu, cand.nameRu, r.name)
    ensures r.nameZh == PickLocalizedName(base.nameZh, cand.nameZh, r.name)
    ensures r.nameJa == PickLocalizedName(base.nameJa, cand.nameJa, r.name)
    ensures r.nameKo == PickLocalizedName(base.nameKo, cand.nameKo, r.name)
    ensures r.imageFallbacks == UniqueUrls(base.imageFallbacks + cand.imageFallbacks)
    ensures r.splashFallbacks == UniqueUrls(base.splashFallbacks + cand.splashFallbacks)
    ensures UrlList(r.imageFallbacks) && UrlList(r.splashFallbacks)
    ensures forall u :: u in r.imageFallbacks <==> u != "" && (u in base.imageFallbacks || u in cand.imageFallbacks)
    ensures forall u :: u in r.splashFallbacks <==> u != "" && (u in base.splashFallbacks || u in cand.splashFallbacks)
  {
    var name := Or(base.name, cand.name);
    cand.(
      name := name,
      nameRu := PickLocalizedName(base.nameRu, cand.nameRu, name),
      nameZh := PickLocalizedName(base.nameZh, cand.nameZh, name),
      nameJa := PickLocalizedName(base.nameJa, cand.nameJa, name),
      nameKo := PickLocalizedName(base.nameKo, cand.nameKo, name),
      image := Or(base.image, cand.image),
      splash := Or(Or(Or(base.splash, cand.splash), base.image), cand.image),
      imageFallbacks := UniqueUrls(base.imageFallbacks + cand.imageFallbacks),
      splashFallbacks := UniqueUrls(base.splashFallbacks + cand.splashFallbacks))
  }

  /** A record that merging has nothing more to fill in: unique fallback
      lists, a splash whenever there is an image, and every localized name
      present whenever the English one is. */
  predicate Settled(b: Item) {
    && UrlList(b.imageFallbacks) && UrlList(b.splashFallbacks)
    && (b.image != "" ==> b.splash != "")
    && (b.name != "" ==> b.nameRu != "" && b.nameZh != "" && b.nameJa != "" && b.nameKo != "")
  }

  lemma UniqueUrlsOfDoubled(f: seq<string>)
    requires UrlList(f)
    ensures UniqueUrls(f + f) == f
  {
    var p := (u: string) => u != "";
    FilterAll(f + f, p);
    DedupeAbsorbs(f, f);
    DedupeOfDistinct(f);
  }

  /** Meeting the same settled record twice leaves it as it was. */
  lemma MergeWithSelf(b: Item)
    requires Settled(b)
    ensures MergeBossEntries(b, b) == b
  {
    UniqueUrlsOfDoubled(b.imageFallbacks);
    UniqueUrlsOfDoubled(b.splashFallbacks);
  }

  /** Pooling a duplicate-free URL list with more URLs keeps it, in its
      order, at the front. */
  lemma UniqueUrlsKeepsFront(a: seq<string>, b: seq<string>)
    requires UrlList(a)
    ensures a <= UniqueUrls(a + b)
  {
    var p := (u: string) => u != "";
    FilterAppend(a, b, p);
    FilterAll(a, p);
    DedupePrefix(a, Filter(b, p));
    DedupeOfDistinct(a);
  }

  /** Merging never discards or reorders the earlier record's fallback
      URLs: they come first, and the later record's new ones follow. */
  lemma MergeKeepsBaseFallbacks(base: Item, cand: Item)
    requires UrlList(base.imageFallbacks) && UrlList(base.splashFallbacks)
    ensures base.imageFallbacks <= MergeBossEntries(base, cand).imageFallbacks
    ensures base.splashFallbacks <= MergeBossEntries(base, cand).splashFallbacks
  {
    UniqueUrlsKeepsFront(base.imageFallbacks, cand.imageFallbacks);
    UniqueUrlsKeepsFront(base.splashFallbacks, cand.splashFallbacks);
  }

  predicate HasId(id: string) { id != "" }

  /** The ids `dedupeById` keeps, in input order with repeats. */
  function KeptIds(items: seq<Item>): (r: seq<string>)
    ensures forall id :: id in r ==> id != "" && exists i :: 0 <= i < |items| && items[i].id == id
    decreases |items|
  {
    if |items| == 0 then []
    else
      var last := items[|items| - 1];
      KeptIds(items[..|items| - 1]) + (if last.id != "" then [last.id] else [])
  }

  /** The kept ids are the non-empty ones. */
  lemma {:induction false} KeptIdsAreNonEmptyIds(items: seq<Item>)
    ensures KeptIds(items) == Filter(Ids(items), HasId)
    decreases |items|
  {
    if |items| > 0 {
      var init := items[..|items| - 1];
      var it := items[|items| - 1];
      KeptIdsAreNonEmptyIds(init);
      IdsLast(items);
      FilterAppend(Ids(init), [it.id], HasId);
      if it.id == "" {
        KeptIdsLastSkipped(items);
        assert Filter([it.id], HasId) == [];
      } else {
        KeptIdsLastKept(items);
        assert Filter([it.id], HasId) == [it.id];
      }
    }
  }

  lemma IdsLast(items: seq<Item>)
    requires |items| > 0
    ensures Ids(items) == Ids(items[..|items| - 1]) + [items[|items| - 1].id]
  {
  }

  /** Merges `it` into the record at `k`, which carries the same id. */
  function MergeAt(r: seq<Item>, k: nat, it: Item): (r': seq<Item>)
    requires k < |r| && r[k].id == it.id
    ensures Ids(r') == Ids(r)
    ensures |r'| == |r| && r'[k] == MergeBossEntries(r[k], it)
    ensures forall j :: 0 <= j < |r| && j != k ==> r'[j] == r[j]
  {
    var r' := r[k := MergeBossEntries(r[k], it)];
    assert Ids(r') == Ids(r);
    r'
  }

  lemma IdsSnoc(r: seq<Item>, m: Item)
    ensures Ids(r + [m]) == Ids(r) + [m.id]
  {
  }

  lemma KeptIdsLastSkipped(items: seq<Item>)
    requires |items| > 0 && items[|items| - 1].id == ""
    ensures KeptIds(items) == KeptIds(items[..|items| - 1])
  {
  }

  lemma KeptIdsLastKept(items: seq<Item>)
    requires |items| > 0 && items[|items| - 1].id != ""
    ensures KeptIds(items) == KeptIds(items[..|items| - 1]) + [items[|items| - 1].id]
  {
  }

  /** `dedupeById`: records without an id are dropped; the first record
      with an id holds its place, and each later one with that id is merged
      into it. The records come out one per id, in the order in which the
      ids first appear, as a `Map` enumerates its keys. */
  function DedupeById(items: seq<Item>): (r: seq<Item>)
    ensures Ids(r) == Dedupe(KeptIds(items))
    decreases |items|
  {
    if |items| == 0 then []
    else
      var init := items[..|items| - 1];
      var r := DedupeById(init);
      var it := items[|items| - 1];
      if it.id == "" then
        KeptIdsLastSkipped(items);
        r
      else
        KeptIdsLastKept(items);
        DedupeSnoc(KeptIds(init), it.id);
        if it.id in Ids(r) then MergeAt(r, IndexOf(Ids(r), it.id), it)
        else
          IdsSnoc(r, it);
          r + [it]
  }

  /** One step of `dedupeById` keeps every record of another id, and
      appends a record whose id is new. */
  lemma DedupeByIdLastRecords(items: seq<Item>)
    requires |items| > 0
    ensures var r := DedupeById(items[..|items| - 1]);
            var it := items[|items| - 1];
            && (forall m :: 0 <= m < |r| && r[m].id != it.id ==> r[m] in DedupeById(items))
            && (it.id != "" && it.id !in Ids(r) ==> DedupeById(items) == r + [it])
  {
    var r := DedupeById(items[..|items| - 1]);
    var it := items[|items| - 1];
    forall m | 0 <= m < |r| && r[m].id != it.id
      ensures r[m] in DedupeById(items)
    {
      if it.id != "" && it.id in Ids(r) {
        var k := IndexOf(Ids(r), it.id);
        assert DedupeById(items)[m] == r[m];
      } else if it.id != "" {
        assert DedupeById(items)[m] == r[m];
      }
    }
  }

  /** A record's id is new when no earlier record has it. */
  lemma NewIdNotKept(items: seq<Item>, id: string)
    requires forall j :: 0 <= j < |items| ==> items[j].id != id
    ensures id !in Ids(DedupeById(items))
  {
    var ids := Ids(DedupeById(items));
    forall k | 0 <= k < |ids|
      ensures ids[k] != id
    {
      assert ids[k] in KeptIds(items);
    }
  }

  /** A last record whose id is new comes through unchanged. */
  lemma NewLastKept(items: seq<Item>)
    requires |items| > 0 && items[|items| - 1].id != ""
    requires forall j :: 0 <= j < |items| - 1 ==> items[j].id != items[|items| - 1].id
    ensures items[|items| - 1] in DedupeById(items)
  {
    var init := items[..|items| - 1];
    var it := items[|items| - 1];
    var r := DedupeById(init);
    NewIdNotKept(init, it.id);
    DedupeByIdLastRecords(items);
    assert (r + [it])[|r|] == it;
  }

  /** A record kept before the last one comes through when the last one
      has another id. */
  lemma EarlierRecordKept(items: seq<Item>, x: Item)
    requires |items| > 0 && x in DedupeById(items[..|items| - 1])
    requires x.id != items[|items| - 1].id
    ensures x in DedupeById(items)
  {
    var r := DedupeById(items[..|items| - 1]);
    var m :| 0 <= m < |r| && r[m] == x;
    DedupeByIdLastRecords(items);
  }

  /** A record whose id no other record shares comes through unchanged. */
  lemma {:induction false} DedupeByIdKeepsUnique(items: seq<Item>, i: nat)
    requires i < |items| && items[i].id != ""
    requires forall j :: 0 <= j < |items| && items[j].id == items[i].id ==> j == i
    ensures items[i] in DedupeById(items)
    decreases |items|
  {
    var init := items[..|items| - 1];
    if i == |items| - 1 {
      NewLastKept(items);
    } else {
      assert forall j :: 0 <= j < |init| ==> init[j] == items[j];
      DedupeByIdKeepsUnique(init, i);
      EarlierRecordKept(items, items[i]);
    }
  }

  /** The records carrying `id`, in input order. */
  function WithId(items: seq<Item>, id: string): (r: seq<Item>)
    ensures forall i :: 0 <= i < |r| ==> r[i].id == id
    decreases |items|
  {
    if |items| == 0 then []
    else
      var last := items[|items| - 1];
      WithId(items[..|items| - 1], id) + (if last.id == id then [last] else [])
  }

  /** No record carries `id`, so its run is empty. */
  lemma {:induction false} WithIdEmpty(items: seq<Item>, id: string)
    requires forall i :: 0 <= i < |items| ==> items[i].id != id
    ensures WithId(items, id) == []
    decreases |items|
  {
    if |items| > 0 {
      var init := items[..|items| - 1];
      assert forall i :: 0 <= i < |init| ==> init[i] == items[i];
      WithIdEmpty(init, id);
    }
  }

  /** The record a run of same-id records folds into: the first one, with
      each later one merged into it in turn. */
  function MergeAll(rs: seq<Item>): (r: Item)
    requires |rs| > 0
    ensures r.id == rs[|rs| - 1].id
    decreases |rs|
  {
    if |rs| == 1 then rs[0]
    else MergeBossEntries(MergeAll(rs[..|rs| - 1]), rs[|rs| - 1])
  }

  /** Merging one more record into the fold of a run is the fold of the
      longer run. */
  lemma MergeAllSnoc(rs: seq<Item>, it: Item)
    requires |rs| > 0
    ensures MergeAll(rs + [it]) == MergeBossEntries(MergeAll(rs), it)
  {
    assert (rs + [it])[..|rs|] == rs;
  }

  /** Each record of `r` is the fold of the records of `items` with its id. */
  predicate FoldsRuns(items: seq<Item>, r: seq<Item>) {
    forall k :: 0 <= k < |r| ==> FoldOfRun(items, r[k])
  }

  /** `x` is the fold of the records of `items` with its id. */
  predicate FoldOfRun(items: seq<Item>, x: Item) {
    |WithId(items, x.id)| > 0 && x == MergeAll(WithId(items, x.id))
  }

  /** No record has an id that the deduplicated list lacks. */
  lemma AbsentIdHasNoRecords(items: seq<Item>, id: string)
    requires id != "" && id !in Ids(DedupeById(items))
    ensures WithId(items, id) == []
  {
    forall j | 0 <= j < |items| && items[j].id != ""
      ensures items[j].id in Ids(DedupeById(items))
    {
      RecordIdListed(items, j);
    }
    WithIdEmpty(items, id);
  }

  /** Every non-empty input id is among the output ids. */
  lemma RecordIdListed(items: seq<Item>, j: nat)
    requires j < |items| && items[j].id != ""
    ensures items[j].id in Ids(DedupeById(items))
  {
    var kept := KeptIds(items);
    KeptIdsAreNonEmptyIds(items);
    assert Ids(items)[j] == items[j].id;
    assert items[j].id in kept;
    var i := IndexOf(kept, items[j].id);
    assert kept[i] in Dedupe(kept);
  }

  /** One step of `dedupeById` on a last record without an id. */
  lemma DedupeByIdSkipStep(items: seq<Item>)
    requires |items| > 0 && items[|items| - 1].id == ""
    ensures DedupeById(items) == DedupeById(items[..|items| - 1])
  {
  }

  /** One step of `dedupeById` on a last record whose id is kept already. */
  lemma DedupeByIdMergeStep(items: seq<Item>)
    requires |items| > 0
    requires var it := items[|items| - 1];
             it.id != "" && it.id in Ids(DedupeById(items[..|items| - 1]))
    ensures var r0, it := DedupeById(items[..|items| - 1]), items[|items| - 1];
            DedupeById(items) == MergeAt(r0, IndexOf(Ids(r0), it.id), it)
  {
  }

  /** One step of `dedupeById` on a last record with a new id. */
  lemma DedupeByIdNewStep(items: seq<Item>)
    requires |items| > 0
    requires var it := items[|items| - 1];
             it.id != "" && it.id !in Ids(DedupeById(items[..|items| - 1]))
    ensures DedupeById(items) == DedupeById(items[..|items| - 1]) + [items[|items| - 1]]
  {
  }

  /** The run of `id` grows by the last record exactly when it has `id`. */
  lemma WithIdStep(items: seq<Item>, id: string)
    requires |items| > 0
    ensures var init, last := items[..|items| - 1], items[|items| - 1];
            && (last.id != id ==> WithId(items, id) == WithId(init, id))
            && (last.id == id ==> WithId(items, id) == WithId(init, id) + [last])
            && (last.id == id && WithId(init, id) == [] ==> WithId(items, id) == [last])
  {
    var init, last := items[..|items| - 1], items[|items| - 1];
    if last.id != id {
      assert WithId(init, id) + [] == WithId(init, id);
    } else {
      assert [] + [last] == [last];
    }
  }

  /** A run the last record does not join is the run before it. */
  lemma RunUnchanged(items: seq<Item>, x: Item)
    requires |items| > 0 && x.id != items[|items| - 1].id
    requires FoldOfRun(items[..|items| - 1], x)
    ensures FoldOfRun(items, x)
  {
    WithIdStep(items, x.id);
  }

  /** The run the last record joins folds it into the run's record. */
  lemma RunExtended(items: seq<Item>, x: Item)
    requires |items| > 0 && x.id == items[|items| - 1].id
    requires FoldOfRun(items[..|items| - 1], x)
    ensures |WithId(items, x.id)| > 0
    ensures MergeBossEntries(x, items[|items| - 1]) == MergeAll(WithId(items, x.id))
  {
    WithIdStep(items, x.id);
    MergeAllSnoc(WithId(items[..|items| - 1], x.id), items[|items| - 1]);
  }

  /** A last record whose id has no run yet starts one. */
  lemma RunStarted(items: seq<Item>)
    requires |items| > 0
    requires WithId(items[..|items| - 1], items[|items| - 1].id) == []
    ensures var it := items[|items| - 1];
            FoldOfRun(items, it)
  {
    WithIdStep(items, items[|items| - 1].id);
  }

  /** A last record without an id changes no run. */
  lemma FoldsRunsSkip(items: seq<Item>)
    requires |items| > 0 && items[|items| - 1].id == ""
    requires FoldsRuns(items[..|items| - 1], DedupeById(items[..|items| - 1]))
    ensures FoldsRuns(items, DedupeById(items))
  {
    var init := items[..|items| - 1];
    var r := DedupeById(init);
    DedupeByIdSkipStep(items);
    assert DedupeById(items) == r;
    forall k | 0 <= k < |r|
      ensures FoldOfRun(items, r[k])
    {
      assert Ids(r)[k] in KeptIds(init);
      RunUnchanged(items, r[k]);
    }
  }

  /** A last record with a known id is merged into its run's record. */
  lemma FoldsRunsMerge(items: seq<Item>)
    requires |items| > 0
    requires var it := items[|items| - 1];
             it.id != "" && it.id in Ids(DedupeById(items[..|items| - 1]))
    requires FoldsRuns(items[..|items| - 1], DedupeById(items[..|items| - 1]))
    ensures FoldsRuns(items, DedupeById(items))
  {
    var r := DedupeById(items);
    forall k | 0 <= k < |r|
      ensures FoldOfRun(items, r[k])
    {
      MergedRunAt(items, k);
    }
  }

  /** One record after a merging step: the merged one or an untouched one. */
  lemma MergedRunAt(items: seq<Item>, k: nat)
    requires |items| > 0
    requires var it := items[|items| - 1];
             it.id != "" && it.id in Ids(DedupeById(items[..|items| - 1]))
    requires FoldsRuns(items[..|items| - 1], DedupeById(items[..|items| - 1]))
    requires k < |DedupeById(items)|
    ensures FoldOfRun(items, DedupeById(items)[k])
  {
    var init := items[..|items| - 1];
    var it := items[|items| - 1];
    var r0 := DedupeById(init);
    var p := IndexOf(Ids(r0), it.id);
    DedupeByIdMergeStep(items);
    assert |DedupeById(items)| == |r0|;
    if k == p {
      assert DedupeById(items)[k] == MergeBossEntries(r0[p], it);
      RunExtended(items, r0[p]);
    } else {
      assert DedupeById(items)[k] == r0[k] && Ids(r0)[k] != Ids(r0)[p];
      RunUnchanged(items, r0[k]);
    }
  }

  /** A last record with a new id starts a run of its own. */
  lemma FoldsRunsNew(items: seq<Item>)
    requires |items| > 0
    requires var it := items[|items| - 1];
             it.id != "" && it.id !in Ids(DedupeById(items[..|items| - 1]))
    requires FoldsRuns(items[..|items| - 1], DedupeById(items[..|items| - 1]))
    ensures FoldsRuns(items, DedupeById(items))
  {
    var r := DedupeById(items);
    forall k | 0 <= k < |r|
      ensures FoldOfRun(items, r[k])
    {
      NewRunAt(items, k);
    }
  }

  /** One record after a step that appends a new id. */
  lemma NewRunAt(items: seq<Item>, k: nat)
    requires |items| > 0
    requires var it := items[|items| - 1];
             it.id != "" && it.id !in Ids(DedupeById(items[..|items| - 1]))
    requires FoldsRuns(items[..|items| - 1], DedupeById(items[..|items| - 1]))
    requires k < |DedupeById(items)|
    ensures FoldOfRun(items, DedupeById(items)[k])
  {
    var init := items[..|items| - 1];
    var it := items[|items| - 1];
    var r0 := DedupeById(init);
    DedupeByIdNewStep(items);
    if k < |r0| {
      assert DedupeById(items)[k] == r0[k];
      KeptRunAt(items, k);
    } else {
      assert |DedupeById(items)| == |r0| + 1;
      assert k == |r0| && (r0 + [it])[|r0|] == it;
      AbsentIdHasNoRecords(init, it.id);
      RunStarted(items);
    }
  }

  /** A record kept before a new id arrives still folds its run. */
  lemma KeptRunAt(items: seq<Item>, k: nat)
    requires |items| > 0
    requires var r0 := DedupeById(items[..|items| - 1]);
             k < |r0| && items[|items| - 1].id !in Ids(r0) && FoldsRuns(items[..|items| - 1], r0)
    ensures var x := DedupeById(items[..|items| - 1])[k];
            FoldOfRun(items, x)
  {
    var r0 := DedupeById(items[..|items| - 1]);
    assert Ids(r0)[k] == r0[k].id;
    RunUnchanged(items, r0[k]);
  }

  /** Every record `dedupeById` returns is the fold of all the records
      with its id: the first one, with each later one merged into it. */
  lemma {:induction false} DedupeByIdMerges(items: seq<Item>)
    ensures FoldsRuns(items, DedupeById(items))
    decreases |items|
  {
    if |items| > 0 {
      var init := items[..|items| - 1];
      var it := items[|items| - 1];
      DedupeByIdMerges(init);
      if it.id == "" {
        FoldsRunsSkip(items);
      } else if it.id in Ids(DedupeById(init)) {
        FoldsRunsMerge(items);
      } else {
        FoldsRunsNew(items);
      }
    }
  }

  /** One entry of the character metadata index. */
  datatype Meta = Meta(rarity: int, element: string, weapon: string, region: string)

  const DefaultMeta: Meta := Meta(4, "NONE", "WEAPON_SWORD_ONE_HAND", "Unknown")

  /** One `[categoryKey, ids]` pair of the index's categories; `None` when
      the value is not an array. */
  datatype Category = Category(key: string, ids: Option<seq<string>>)

  /** What membership in one category tells about a character. */
  function ApplyCategory(m: Meta, key: string): (r: Meta)
    ensures r.region == m.region
    ensures r.rarity in {4, 5, m.rarity}
  {
    var m1 := if key == "5" || key == "4" then m.(rarity := if key == "5" then 5 else 4) else m;
    var m2 := if "ELEMENT_" <= key then m1.(element := key[|"ELEMENT_"|..]) else m1;
    if "WEAPON_" <= key then m2.(weapon := key) else m2
  }

  /** A rarity key sets the rarity, an element key the element with its
      prefix dropped, a weapon key the weapon; any other key changes nothing. */
  lemma ApplyCategoryEffect(m: Meta, key: string)
    ensures var r := ApplyCategory(m, key);
      && r.rarity == (if key == "5" then 5 else if key == "4" then 4 else m.rarity)
      && r.element == (if "ELEMENT_" <= key then key[|"ELEMENT_"|..] else m.element)
      && r.weapon == (if "WEAPON_" <= key then key else m.weapon)
      && (key !in {"4", "5"} && !("ELEMENT_" <= key) && !("WEAPON_" <= key) ==> r == m)
  {
  }

  /** Being listed twice in one category is the same as once. */
  lemma ApplyCategoryTwice(m: Meta, key: string)
    ensures ApplyCategory(ApplyCategory(m, key), key) == ApplyCategory(m, key)
  {
  }

  function Lookup(m: map<string, Meta>, id: string): Meta {
    if id in m then m[id] else DefaultMeta
  }

  /** The inner loop over one category's ids. */
  function AddCategory(m: map<string, Meta>, key: string, ids: seq<string>): (r: map<string, Meta>)
    ensures forall id :: id in r <==> id in m || id in ids
    ensures forall id :: id in r && id !in ids ==> r[id] == m[id]
    ensures forall id :: id in ids ==> r[id] == ApplyCategory(Lookup(m, id), key)
    decreases |ids|
  {
    if |ids| == 0 then m
    else
      var id := ids[0];
      var m' := m[id := ApplyCategory(Lookup(m, id), key)];
      ApplyCategoryTwice(Lookup(m, id), key);
      AddCategory(m', key, ids[1..])
  }

  predicate ListedIn(c: Category, id: string) {
    c.ids.Some? && id in c.ids.value
  }

  /** `extractCharacterMeta`, over the categories in enumeration order. */
  function ExtractCharacterMeta(cats: seq<Category>): (r: map<string, Meta>)
    ensures forall id :: id in r <==> exists i :: 0 <= i < |cats| && ListedIn(cats[i], id)
    decreases |cats|
  {
    if |cats| == 0 then map[]
    else
      var init := cats[..|cats| - 1];
      var c := cats[|cats| - 1];
      var m := ExtractCharacterMeta(init);
      assert forall i :: 0 <= i < |init| ==> init[i] == cats[i];
      match c.ids
      case None => m
      case Some(ids) => AddCategory(m, c.key, ids)
  }

  /** The metadata of one character on its own: the default, updated by
      each category listing the character, in order. */
  function MetaOf(cats: seq<Category>, id: string): (r: Meta)
    ensures r.region == "Unknown"
    ensures r.rarity == 4 || r.rarity == 5
    ensures (forall i :: 0 <= i < |cats| ==> !ListedIn(cats[i], id)) ==> r == DefaultMeta
    decreases |cats|
  {
    if |cats| == 0 then DefaultMeta
    else
      var init := cats[..|cats| - 1];
      var c := cats[|cats| - 1];
      assert forall i :: 0 <= i < |init| ==> init[i] == cats[i];
      if ListedIn(c, id) then ApplyCategory(MetaOf(init, id), c.key)
      else MetaOf(init, id)
  }

  /** The index agrees with the per-character reading. */
  lemma {:induction false} ExtractMatchesMetaOf(cats: seq<Category>, id: string)
    requires id in ExtractCharacterMeta(cats)
    ensures ExtractCharacterMeta(cats)[id] == MetaOf(cats, id)
    decreases |cats|
  {
    var init := cats[..|cats| - 1];
    var c := cats[|cats| - 1];
    var m := ExtractCharacterMeta(init);
    assert forall i :: 0 <= i < |init| ==> init[i] == cats[i];
    if id in m {
      ExtractMatchesMetaOf(init, id);
    } else {
      assert MetaOf(init, id) == DefaultMeta;
    }
  }

  /** A character's rarity is the one named by the last rarity category
      listing it. */
  lemma {:induction false} RarityFromLastListing(cats: seq<Category>, id: string, i: nat)
    requires i < |cats| && ListedIn(cats[i], id) && (cats[i].key == "4" || cats[i].key == "5")
    requires forall j :: i < j < |cats| && ListedIn(cats[j], id) ==> cats[j].key != "4" && cats[j].key != "5"
    ensures MetaOf(cats, id).rarity == (if cats[i].key == "5" then 5 else 4)
    decreases |cats|
  {
    var init := cats[..|cats| - 1];
    assert forall j :: 0 <= j < |init| ==> init[j] == cats[j];
    if i < |cats| - 1 {
      RarityFromLastListing(init, id, i);
    }
  }

  /** The name maps of the other languages, keyed by character id. */
  datatype NameMaps = NameMaps(
    ru: map<string, string>, zh: map<string, string>,
    ja: map<string, string>, ko: map<string, string>)

  /** `getNameFromMap`. */
  function NameFromMap(names: map<string, string>, id: string, fallback: string): (r: string)
    ensures id in names && names[id] != "" ==> r == names[id]
    ensures (id !in names || names[id] == "") ==> r == fallback
  {
    if id in names then Or(names[id], fallback) else fallback
  }

  /** One English name-map entry with the image URLs its image record
      offers, in the order the candidate lists name them; an absent field
      is the empty string. */
  datatype CharacterSource = CharacterSource(
    id: string, nameEn: string, imageUrls: seq<string>, splashUrls: seq<string>)

  /** The first of a candidate list, or the empty string. */
  function Head(urls: seq<string>): string {
    if |urls| > 0 then urls[0] else ""
  }

  /** The candidates after the first (`slice(1)`). */
  function Tail(urls: seq<string>): seq<string> {
    if |urls| > 0 then urls[1..] else []
  }

  /** The first usable URL of a candidate list, and the usable URLs after
      it, each once. */
  lemma CandidatesSplit(urls: seq<string>)
    ensures var c := UniqueUrls(urls);
            && (|c| > 0 ==> c == [Head(c)] + Tail(c))
            && (Head(c) == "" <==> forall u :: u in urls ==> u == "")
            && (Head(c) != "" ==> Head(c) in urls && Head(c) !in Tail(c))
            && "" !in Tail(c) && NoDups(Tail(c))
  {
    var c := UniqueUrls(urls);
    if |c| > 0 {
      assert c == [c[0]] + Tail(c);
      assert c[0] in c;
    }
  }

  /** The first usable URL is the first non-empty candidate: every
      candidate before it is empty. */
  lemma HeadIsFirstUsable(urls: seq<string>)
    ensures var h := Head(UniqueUrls(urls));
            h != "" ==> h in urls && forall k :: 0 <= k < IndexOf(urls, h) ==> urls[k] == ""
  {
    var c := UniqueUrls(urls);
    if |c| > 0 {
      assert c[0] in c;
    }
  }

  /** The record `mapCharacters` builds for one character. The splash
      candidates end with the image candidates. */
  function BuildCharacter(src: CharacterSource, names: NameMaps, meta: map<string, Meta>): (r: Item)
    ensures r.id == src.id && r.name == src.nameEn
    ensures src.id in meta && meta[src.id].rarity != 0 ==> r.rarity == Some(meta[src.id].rarity)
    ensures src.id !in meta ==> r.rarity == Some(4) && r.element == "NONE" && r.weapon == "WEAPON_SWORD_ONE_HAND"
    ensures r.image == "" <==> forall u :: u in src.imageUrls ==> u == ""
    ensures r.image != "" ==> r.splash != ""
    ensures r.image != "" ==> r.image in src.imageUrls && r.image !in r.imageFallbacks
    ensures "" !in r.imageFallbacks && NoDups(r.imageFallbacks)
    ensures r.image != "" ==> forall k :: 0 <= k < IndexOf(src.imageUrls, r.image) ==> src.imageUrls[k] == ""
    ensures r.imageFallbacks == Tail(UniqueUrls(src.imageUrls))
    ensures var splashes := UniqueUrls(src.splashUrls + UniqueUrls(src.imageUrls));
            && (Head(splashes) != "" ==> r.splash == Head(splashes))
            && (Head(splashes) == "" ==> r.splash == r.image)
            && r.splashFallbacks == Tail(splashes)
    ensures r.nameRu == NameFromMap(names.ru, src.id, src.nameEn)
    ensures r.nameZh == NameFromMap(names.zh, src.id, src.nameEn)
    ensures r.nameJa == NameFromMap(names.ja, src.id, src.nameEn)
    ensures r.nameKo == NameFromMap(names.ko, src.id, src.nameEn)
    ensures src.id in meta && meta[src.id].rarity == 0 ==> r.rarity == Some(4)
    ensures src.id in meta && meta[src.id].element != "" ==> r.element == meta[src.id].element
    ensures src.id in meta && meta[src.id].element == "" ==> r.element == "NONE"
    ensures src.id in meta && meta[src.id].weapon != "" ==> r.weapon == meta[src.id].weapon
    ensures src.id in meta && meta[src.id].weapon == "" ==> r.weapon == "WEAPON_SWORD_ONE_HAND"
  {
    var imgs := UniqueUrls(src.imageUrls);
    var splashes := UniqueUrls(src.splashUrls + imgs);
    var m := Lookup(meta, src.id);
    CandidatesSplit(src.imageUrls);
    HeadIsFirstUsable(src.imageUrls);
    Item(
      id := src.id,
      name := src.nameEn,
      nameRu := NameFromMap(names.ru, src.id, src.nameEn),
      nameZh := NameFromMap(names.zh, src.id, src.nameEn),
      nameJa := NameFromMap(names.ja, src.id, src.nameEn),
      nameKo := NameFromMap(names.ko, src.id, src.nameEn),
      rarity := Some(if m.rarity != 0 then m.rarity else 4),
      weapon := Or(m.weapon, "WEAPON_SWORD_ONE_HAND"),
      element := Or(m.element, "NONE"),
      group := "",
      image := Head(imgs),
      imageFallbacks := Tail(imgs),
      splash := Or(Head(splashes), Head(imgs)),
      splashFallbacks := Tail(splashes))
  }

  function RarityKey(item: Item): int {
    item.rarity.GetOr(0)
  }

  /** Non-increasing in `key`. */
  predicate SortedDesc<T>(s: seq<T>, key: T -> int) {
    forall i, j :: 0 <= i < j < |s| ==> key(s[i]) >= key(s[j])
  }

  lemma ConsSorted<T>(h: T, t: seq<T>, key: T -> int)
    requires SortedDesc(t, key)
    requires forall k :: 0 <= k < |t| ==> key(h) >= key(t[k])
    ensures SortedDesc([h] + t, key)
  {
    var s := [h] + t;
    forall i, j | 0 <= i < j < |s| ensures key(s[i]) >= key(s[j]) {
      if i == 0 {
        assert s[j] == t[j - 1];
      } else {
        assert s[i] == t[i - 1] && s[j] == t[j - 1];
      }
    }
  }

  /** Every element of a permutation of `s` plus `x` is bounded like them. */
  lemma BoundedByMultiset<T>(t: seq<T>, s: seq<T>, x: T, key: T -> int, b: int)
    requires multiset(t) == multiset(s) + multiset{x}
    requires key(x) <= b && forall k :: 0 <= k < |s| ==> key(s[k]) <= b
    ensures forall k :: 0 <= k < |t| ==> key(t[k]) <= b
  {
    forall k | 0 <= k < |t| ensures key(t[k]) <= b {
      assert t[k] in multiset(t);
      if t[k] != x {
        assert t[k] in multiset(s);
      }
    }
  }

  /** Places `x` after every element whose key is at least its own. */
  function Insert<T(==)>(x: T, s: seq<T>, key: T -> int): (r: seq<T>)
    requires SortedDesc(s, key)
    ensures SortedDesc(r, key)
    ensures multiset(r) == multiset(s) + multiset{x}
  {
    if |s| == 0 then [x]
    else
      var tail := s[1..];
      assert s == [s[0]] + tail;
      assert forall k :: 0 <= k < |tail| ==> key(tail[k]) <= key(s[0]);
      if key(s[0]) >= key(x) then
        var t := Insert(x, tail, key);
        BoundedByMultiset(t, tail, x, key, key(s[0]));
        ConsSorted(s[0], t, key);
        [s[0]] + t
      else
        ConsSorted(x, s, key);
        [x] + s
  }

  /** Insertion sort by a key, highest key first; equal keys keep their
      order. */
  function SortDesc<T(==)>(s: seq<T>, key: T -> int): (r: seq<T>)
    ensures SortedDesc(r, key)
    ensures multiset(r) == multiset(s)
  {
    if |s| == 0 then []
    else
      assert s == s[..|s| - 1] + [s[|s| - 1]];
      Insert(s[|s| - 1], SortDesc(s[..|s| - 1], key), key)
  }

  function HasImage(item: Item): bool { item.image != "" }

  /** One record per English name-map entry, in name-map order. */
  function BuiltCharacters(sources: seq<CharacterSource>, names: NameMaps, cats: seq<Category>): (r: seq<Item>)
    ensures |r| == |sources|
    ensures forall i :: 0 <= i < |sources| ==> r[i] == BuildCharacter(sources[i], names, ExtractCharacterMeta(cats))
  {
    var meta := ExtractCharacterMeta(cats);
    seq(|sources|, i requires 0 <= i < |sources| => BuildCharacter(sources[i], names, meta))
  }

  /** `mapCharacters`: the built records without those no image was found
      for, reordered by rarity, highest first. */
  function MapCharacters(sources: seq<CharacterSource>, names: NameMaps, cats: seq<Category>): (r: seq<Item>)
    ensures SortedDesc(r, RarityKey)
    ensures multiset(r) == multiset(Filter(BuiltCharacters(sources, names, cats), HasImage))
    ensures forall i :: 0 <= i < |r| ==> r[i].image != ""
    ensures |r| <= |sources|
  {
    var built := BuiltCharacters(sources, names, cats);
    var pictured := Filter(built, HasImage);
    var r := SortDesc(pictured, RarityKey);
    assert |r| == |multiset(r)| == |pictured|;
    forall i | 0 <= i < |r| ensures r[i].image != "" {
      assert r[i] in multiset(pictured);
    }
    r
  }

  /** A built character comes out exactly when it has an image. */
  lemma MapCharactersKeepsPictured(sources: seq<CharacterSource>, names: NameMaps, cats: seq<Category>, i: nat)
    requires i < |sources|
    ensures var item := BuildCharacter(sources[i], names, ExtractCharacterMeta(cats));
            item in MapCharacters(sources, names, cats) <==> item.image != ""
  {
    var built := BuiltCharacters(sources, names, cats);
    var item := built[i];
    var r := MapCharacters(sources, names, cats);
    if item.image != "" {
      assert item in Filter(built, HasImage);
      assert item in multiset(r);
    } else {
      assert item !in multiset(Filter(built, HasImage));
    }
  }
}
