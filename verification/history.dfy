/** The history ledger: roll outcomes, newest first, capped at the history
    limit, with single and bulk deletion and a stage and date-range view
    that leaves the ledger untouched. Timestamps are read through `parse`,
    the engine's `Date.parse` (`None` for NaN). */
module History {
  import opened Wrappers
  import opened Text
  import opened Seqs
  import opened Catalog

  datatype Stage = Characters | Bosses

  datatype StageFilter = AllStages | OnlyStage(stage: Stage)

  /** One roll outcome, with the winner's names, rarity and group copied
      at roll time so that the entry outlives catalogue changes. */
  datatype Entry = Entry(
    id: string,
    stage: Stage,
    itemId: string,
    itemName: string,
    itemNameRu: string,
    rarity: Option<int>,
    group: string,
    timestamp: string)

  datatype HistoryFilters = HistoryFilters(from: string, to: string, stage: StageFilter)

  const DefaultHistoryFilters := HistoryFilters("", "", AllStages)

  function StageName(s: Stage): string {
    match s
    case Characters => "characters"
    case Bosses => "bosses"
  }

  /** The entry built when a roll completes. `nowMs` is `Date.now()`,
      `timestamp` is `new Date().toISOString()` and `suffix` is the six
      random base-36 characters of the id. */
  function NewEntry(stage: Stage, winner: Item, timestamp: string, nowMs: int, suffix: string): (e: Entry)
    ensures e.stage == stage && e.itemId == winner.id && e.timestamp == timestamp
    ensures e.itemName == (if winner.name != "" then winner.name else winner.id)
    ensures e.itemNameRu in {winner.nameRu, winner.name, winner.id}
    ensures winner.nameRu != "" ==> e.itemNameRu == winner.nameRu
    ensures winner.nameRu == "" ==> e.itemNameRu == e.itemName
    ensures e.itemNameRu == "" ==> winner.nameRu == "" && winner.name == "" && winner.id == ""
    ensures e.rarity.Some? <==> winner.rarity.Some? && winner.rarity.value != 0
    ensures e.rarity.Some? ==> e.rarity == winner.rarity
    ensures e.group == winner.group
  {
    Entry(
      StageName(stage) + "-" + winner.id + "-" + IntToString(nowMs) + "-" + suffix,
      stage,
      winner.id,
      Or(winner.name, winner.id),
      Or(winner.nameRu, Or(winner.name, winner.id)),
      if winner.rarity.Some? && winner.rarity.value != 0 then winner.rarity else None,
      winner.group,
      timestamp)
  }

  /** Roll completion: the new entry goes first and the ledger is cut back
      to `limit`; at the limit exactly the oldest entry falls off. */
  function Append(ledger: seq<Entry>, e: Entry, limit: nat): (r: seq<Entry>)
    ensures |r| <= limit
    ensures limit > 0 ==> |r| > 0 && r[0] == e
    ensures r <= [e] + ledger
    ensures |ledger| < limit ==> r == [e] + ledger
    ensures 0 < limit <= |ledger| ==> r == [e] + ledger[..limit - 1]
  {
    Take([e] + ledger, limit)
  }

  /** The history limit changed: keep the newest `limit` entries. */
  function Retruncate(ledger: seq<Entry>, limit: nat): (r: seq<Entry>)
    ensures r <= ledger
    ensures |r| <= limit
    ensures |ledger| <= limit ==> r == ledger
  {
    Take(ledger, limit)
  }

  /** Two limit changes in a row leave what the smaller limit alone leaves. */
  lemma RetruncateTwice(ledger: seq<Entry>, a: nat, b: nat)
    ensures Retruncate(Retruncate(ledger, a), b) == Retruncate(ledger, if a < b then a else b)
  {
  }

  /** `deleteHistoryEntry`: removes every entry carrying `id`, keeps the rest
      in order. */
  function DeleteEntry(ledger: seq<Entry>, id: string): (r: seq<Entry>)
    ensures IsSubseq(r, ledger)
    ensures forall i :: 0 <= i < |r| ==> r[i].id != id
    ensures forall i :: 0 <= i < |ledger| && ledger[i].id != id ==> ledger[i] in r
    ensures forall x :: multiset(r)[x] == if x.id != id then multiset(ledger)[x] else 0
  {
    FilterCount(ledger, (e: Entry) => e.id != id);
    Filter(ledger, (e: Entry) => e.id != id)
  }

  lemma DeleteEntryIdempotent(ledger: seq<Entry>, id: string)
    ensures DeleteEntry(DeleteEntry(ledger, id), id) == DeleteEntry(ledger, id)
  {
    FilterAll(DeleteEntry(ledger, id), (e: Entry) => e.id != id);
  }

  /** `clearAllHistory`. */
  function Clear(ledger: seq<Entry>): (r: seq<Entry>)
    ensures |r| == 0
  {
    []
  }

  /** Lower bound of the date range: the start of the `from` day, or none
      when the field is empty or does not parse (a NaN bound compares false
      and so excludes nothing). */
  function FromBound(f: HistoryFilters, parse: string -> Option<int>): Option<int> {
    if f.from == "" then None else parse(f.from + "T00:00:00")
  }

  /** Upper bound: the last millisecond of the `to` day. */
  function ToBound(f: HistoryFilters, parse: string -> Option<int>): Option<int> {
    if f.to == "" then None else parse(f.to + "T23:59:59.999")
  }

  predicate InView(e: Entry, f: HistoryFilters, parse: string -> Option<int>) {
    var ts := parse(e.timestamp);
    var lo := FromBound(f, parse);
    var hi := ToBound(f, parse);
    && (f.stage.AllStages? || f.stage.stage == e.stage)
    && ts.Some?
    && (lo.None? || lo.value <= ts.value)
    && (hi.None? || ts.value <= hi.value)
  }

  /** The filtered history shown to the user. */
  function View(ledger: seq<Entry>, f: HistoryFilters, parse: string -> Option<int>): (r: seq<Entry>)
    ensures IsSubseq(r, ledger)
    ensures forall i :: 0 <= i < |r| ==>
      && (f.stage == AllStages || f.stage == OnlyStage(r[i].stage))
      && parse(r[i].timestamp).Some?
      && (FromBound(f, parse).Some? ==> FromBound(f, parse).value <= parse(r[i].timestamp).value)
      && (ToBound(f, parse).Some? ==> parse(r[i].timestamp).value <= ToBound(f, parse).value)
    ensures forall i :: 0 <= i < |ledger| && InView(ledger[i], f, parse) ==> ledger[i] in r
    ensures forall x :: multiset(r)[x] == if InView(x, f, parse) then multiset(ledger)[x] else 0
  {
    FilterCount(ledger, (e: Entry) => InView(e, f, parse));
    Filter(ledger, (e: Entry) => InView(e, f, parse))
  }

  function ViewIds(ledger: seq<Entry>, f: HistoryFilters, parse: string -> Option<int>): set<string> {
    var v := View(ledger, f, parse);
    set i | 0 <= i < |v| :: v[i].id
  }

  /** `deleteFilteredHistory`: drops every entry whose id appears in the
      current view. */
  function DeleteViewed(ledger: seq<Entry>, f: HistoryFilters, parse: string -> Option<int>): (r: seq<Entry>)
    ensures IsSubseq(r, ledger)
    ensures forall i :: 0 <= i < |ledger| && ledger[i].id !in ViewIds(ledger, f, parse) ==> ledger[i] in r
    ensures forall i :: 0 <= i < |r| ==> r[i].id !in ViewIds(ledger, f, parse)
    ensures forall x :: multiset(r)[x] == if x.id !in ViewIds(ledger, f, parse) then multiset(ledger)[x] else 0
  {
    var ids := ViewIds(ledger, f, parse);
    FilterCount(ledger, (e: Entry) => e.id !in ids);
    Filter(ledger, (e: Entry) => e.id !in ids)
  }

  /** After deleting the filtered entries, the same filter shows nothing. */
  lemma DeleteViewedEmptiesView(ledger: seq<Entry>, f: HistoryFilters, parse: string -> Option<int>)
    ensures View(DeleteViewed(ledger, f, parse), f, parse) == []
  {
  }
}
