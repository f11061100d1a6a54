/** Decoding the persisted history slice and fitting it into the cookie
    budget. `parse` is the engine's `Date.parse`; `encodedLength` is
    `encodeURIComponent(JSON.stringify(entries)).length`; neither is defined
    by the model. */
module HistoryCodec {
  import opened Wrappers
  import opened Text
  import opened Seqs
  import opened Json
  import opened Catalog
  import opened History

  /** Cookie budget for the history slice, in encoded characters. */
  const CookieHistorySizeLimit: nat := 3300

  /** What every decoded entry satisfies. */
  predicate ValidEntry(e: Entry, parse: string -> Option<int>) {
    && e.itemId != ""
    && e.timestamp != ""
    && parse(e.timestamp).Some?
    && (e.rarity.None? || e.rarity.value == 4 || e.rarity.value == 5)
  }

  function StageOf(x: Option<Json>): (r: Option<Stage>)
    ensures r.Some? ==> x == Some(JStr(StageName(r.value)))
    ensures x == Some(JStr("characters")) ==> r == Some(Characters)
    ensures x == Some(JStr("bosses")) ==> r == Some(Bosses)
  {
    if x == Some(JStr("characters")) then Some(Characters)
    else if x == Some(JStr("bosses")) then Some(Bosses)
    else None
  }

  /** `entry.rarity === 4 || entry.rarity === 5 ? entry.rarity : null`. */
  function RarityOf(x: Option<Json>): (r: Option<int>)
    ensures r.Some? ==> r.value == 4 || r.value == 5
    ensures r == Some(4) <==> x == Some(JNum(4.0))
    ensures r == Some(5) <==> x == Some(JNum(5.0))
  {
    if x == Some(JNum(4.0)) then Some(4)
    else if x == Some(JNum(5.0)) then Some(5)
    else None
  }

  /** The elements the decoder keeps: objects with a known stage, a
      non-empty string item id and a non-empty string timestamp that
      parses. */
  predicate Accepted(x: Json, parse: string -> Option<int>) {
    && x.JObj?
    && StageOf(Get(x, "stage")).Some?
    && AsString(Get(x, "itemId")).Some? && AsString(Get(x, "itemId")).value != ""
    && AsString(Get(x, "timestamp")).Some? && AsString(Get(x, "timestamp")).value != ""
    && parse(AsString(Get(x, "timestamp")).value).Some?
  }

  /** One element of the stored array: dropped unless it is an object with
      a known stage, a non-empty item id and a timestamp that parses. A
      missing id is regenerated from the stage, item id, parsed time and
      `suffix`, the random part. */
  function NormalizeEntry(x: Json, parse: string -> Option<int>, suffix: string): (r: Option<Entry>)
    ensures r.Some? <==> Accepted(x, parse)
    ensures r.Some? ==> ValidEntry(r.value, parse)
    ensures r.Some? ==> Some(JStr(r.value.itemId)) == Get(x, "itemId")
    ensures r.Some? ==> Some(JStr(r.value.timestamp)) == Get(x, "timestamp")
    ensures r.Some? ==> Some(JStr(StageName(r.value.stage))) == Get(x, "stage")
    ensures r.Some? && AsString(Get(x, "id")).Some? ==> r.value.id == AsString(Get(x, "id")).value
    ensures r.Some? ==> r.value.rarity == RarityOf(Get(x, "rarity"))
    ensures r.Some? ==> r.value.itemName == AsString(Get(x, "itemName")).GetOr("")
    ensures r.Some? ==> r.value.itemNameRu == AsString(Get(x, "itemNameRu")).GetOr("")
    ensures r.Some? ==> r.value.group == AsString(Get(x, "group")).GetOr("")
  {
    if !(x.JObj? || x.JArr?) then None
    else
      var stage := StageOf(Get(x, "stage"));
      var itemId := AsString(Get(x, "itemId")).GetOr("");
      var ts := AsString(Get(x, "timestamp")).GetOr("");
      if stage.None? || itemId == "" || ts == "" || parse(ts).None? then None
      else
        var id := match AsString(Get(x, "id"))
          case Some(s) => s
          case None => StageName(stage.value) + "-" + itemId + "-" + IntToString(parse(ts).value) + "-" + suffix;
        Some(Entry(
          id,
          stage.value,
          itemId,
          AsString(Get(x, "itemName")).GetOr(""),
          AsString(Get(x, "itemNameRu")).GetOr(""),
          RarityOf(Get(x, "rarity")),
          AsString(Get(x, "group")).GetOr(""),
          ts))
  }

  /** How many elements of the stored array the decoder keeps. */
  function CountAccepted(xs: seq<Json>, parse: string -> Option<int>): nat {
    if |xs| == 0 then 0 else (if Accepted(xs[0], parse) then 1 else 0) + CountAccepted(xs[1..], parse)
  }

  /** The elements from position `k` of the stored array on; `suffix(i)`
      is the random id part drawn for element `i`. */
  function NormalizeList(xs: seq<Json>, k: nat, parse: string -> Option<int>, suffix: nat -> string): (r: seq<Entry>)
    ensures |r| == CountAccepted(xs, parse)
    ensures |r| <= |xs|
    ensures forall i :: 0 <= i < |r| ==> ValidEntry(r[i], parse)
  {
    if |xs| == 0 then []
    else KeepValid(NormalizeEntry(xs[0], parse, suffix(k)), NormalizeList(xs[1..], k + 1, parse, suffix))
  }

  /** Prepends the decoded element when it was kept. */
  function KeepValid(head: Option<Entry>, rest: seq<Entry>): (r: seq<Entry>)
    ensures |r| == (if head.Some? then 1 else 0) + |rest|
  {
    match head
    case Some(e) => [e] + rest
    case None => rest
  }

  /** Keeping a head in front of a concatenation. */
  lemma KeepValidAppend(head: Option<Entry>, ra: seq<Entry>, rb: seq<Entry>)
    ensures KeepValid(head, ra + rb) == KeepValid(head, ra) + rb
  {
    if head.Some? {
      assert [head.value] + (ra + rb) == ([head.value] + ra) + rb;
    }
  }

  /** What `KeepValid` keeps: the head when there is one, and all the rest. */
  lemma KeepValidKeeps(head: Option<Entry>, rest: seq<Entry>, e: Entry)
    requires head == Some(e) || e in rest
    ensures e in KeepValid(head, rest)
  {
  }

  /** Every element the decoder accepts reaches the result. */
  lemma AcceptedEntryKept(xs: seq<Json>, i: nat, k: nat, parse: string -> Option<int>, suffix: nat -> string)
    requires i < |xs| && Accepted(xs[i], parse)
    ensures NormalizeEntry(xs[i], parse, suffix(k + i)).value in NormalizeList(xs, k, parse, suffix)
  {
    var a, b := xs[..i], xs[i..];
    assert xs == a + b;
    NormalizeListAppend(a, b, k, parse, suffix);
    var head := NormalizeEntry(b[0], parse, suffix(k + i));
    var rest := NormalizeList(b[1..], k + i + 1, parse, suffix);
    assert NormalizeList(b, k + i, parse, suffix) == KeepValid(head, rest);
    KeepValidKeeps(head, rest, head.value);
  }

  /** `normalizeHistoryEntries`. */
  function NormalizeHistoryEntries(v: Json, parse: string -> Option<int>, suffix: nat -> string): (r: seq<Entry>)
    ensures !v.JArr? ==> r == []
    ensures v.JArr? ==> |r| <= |v.items| && |r| == CountAccepted(v.items, parse)
    ensures forall i :: 0 <= i < |r| ==> ValidEntry(r[i], parse)
    ensures v.JArr? ==> forall i :: 0 <= i < |v.items| && Accepted(v.items[i], parse) ==>
      NormalizeEntry(v.items[i], parse, suffix(i)).value in r
  {
    if v.JArr? then
      var r := NormalizeList(v.items, 0, parse, suffix);
      forall i | 0 <= i < |v.items| && Accepted(v.items[i], parse)
        ensures NormalizeEntry(v.items[i], parse, suffix(i)).value in r
      {
        AcceptedEntryKept(v.items, i, 0, parse, suffix);
      }
      r
    else []
  }

  /** Decoding works element by element: the entries kept from a
      concatenation are those kept from each part, in input order. */
  lemma {:induction false} NormalizeListAppend(a: seq<Json>, b: seq<Json>, k: nat, parse: string -> Option<int>, suffix: nat -> string)
    ensures NormalizeList(a + b, k, parse, suffix)
         == NormalizeList(a, k, parse, suffix) + NormalizeList(b, k + |a|, parse, suffix)
  {
    if |a| == 0 {
      assert a + b == b;
    } else {
      AppendHead(a, b);
      NormalizeListAppend(a[1..], b, k + 1, parse, suffix);
      var head := NormalizeEntry(a[0], parse, suffix(k));
      var ra, rb := NormalizeList(a[1..], k + 1, parse, suffix), NormalizeList(b, k + |a|, parse, suffix);
      KeepValidAppend(head, ra, rb);
    }
  }

  /** The compact object written for one entry. */
  function EncodeEntry(e: Entry): Json {
    JObj(map[
      "id" := JStr(e.id),
      "stage" := JStr(StageName(e.stage)),
      "itemId" := JStr(e.itemId),
      "itemName" := JStr(e.itemName),
      "itemNameRu" := JStr(e.itemNameRu),
      "rarity" := (if e.rarity.Some? then JNum(e.rarity.value as real) else JNull),
      "group" := JStr(e.group),
      "timestamp" := JStr(e.timestamp)])
  }

  function EncodeHistory(es: seq<Entry>): (v: Json)
    ensures v.JArr? && |v.items| == |es|
    ensures forall i :: 0 <= i < |es| ==> v.items[i] == EncodeEntry(es[i])
  {
    JArr(seq(|es|, i requires 0 <= i < |es| => EncodeEntry(es[i])))
  }

  lemma EntryRoundTrip(e: Entry, parse: string -> Option<int>, suffix: string)
    requires ValidEntry(e, parse)
    ensures NormalizeEntry(EncodeEntry(e), parse, suffix) == Some(e)
  {
    var x := EncodeEntry(e);
    assert Get(x, "id") == Some(JStr(e.id));
    assert Get(x, "stage") == Some(JStr(StageName(e.stage)));
    assert Get(x, "itemId") == Some(JStr(e.itemId));
    assert Get(x, "itemName") == Some(JStr(e.itemName));
    assert Get(x, "itemNameRu") == Some(JStr(e.itemNameRu));
    assert Get(x, "group") == Some(JStr(e.group));
    assert Get(x, "timestamp") == Some(JStr(e.timestamp));
    assert Get(x, "rarity") == Some(if e.rarity.Some? then JNum(e.rarity.value as real) else JNull);
  }

  /** A saved ledger of valid entries reloads unchanged. */
  lemma {:induction false} HistoryRoundTrip(es: seq<Entry>, parse: string -> Option<int>, suffix: nat -> string)
    requires forall i :: 0 <= i < |es| ==> ValidEntry(es[i], parse)
    ensures NormalizeHistoryEntries(EncodeHistory(es), parse, suffix) == es
  {
    HistoryListRoundTrip(es, 0, parse, suffix);
  }

  lemma {:induction false} HistoryListRoundTrip(es: seq<Entry>, k: nat, parse: string -> Option<int>, suffix: nat -> string)
    requires forall i :: 0 <= i < |es| ==> ValidEntry(es[i], parse)
    ensures NormalizeList(EncodeHistory(es).items, k, parse, suffix) == es
  {
    if |es| > 0 {
      var xs := EncodeHistory(es).items;
      assert xs[1..] == EncodeHistory(es[1..]).items;
      EntryRoundTrip(es[0], parse, suffix(k));
      HistoryListRoundTrip(es[1..], k + 1, parse, suffix);
    }
  }

  /** Decoding a saved ledger again changes nothing. */
  lemma NormalizeHistoryIdempotent(v: Json, parse: string -> Option<int>, suffix: nat -> string)
    ensures var h := NormalizeHistoryEntries(v, parse, suffix);
            NormalizeHistoryEntries(EncodeHistory(h), parse, suffix) == h
  {
    HistoryRoundTrip(NormalizeHistoryEntries(v, parse, suffix), parse, suffix);
  }

  /** An entry recorded at roll completion survives a reload, provided the
      winner has an id, the clock's timestamp parses, and the rarity is a
      catalogue rarity. */
  lemma NewEntrySurvivesReload(stage: Stage, winner: Item, timestamp: string, nowMs: int, sfx: string,
                               parse: string -> Option<int>, suffix: nat -> string)
    requires winner.id != "" && timestamp != "" && parse(timestamp).Some?
    requires winner.rarity in {None, Some(4), Some(5)}
    ensures var e := NewEntry(stage, winner, timestamp, nowMs, sfx);
            NormalizeHistoryEntries(EncodeHistory([e]), parse, suffix) == [e]
  {
    HistoryRoundTrip([NewEntry(stage, winner, timestamp, nowMs, sfx)], parse, suffix);
  }

  /** What `trimHistoryForCookie` keeps: the longest prefix of the ledger
      whose encoding fits the budget, or nothing when not even one entry
      fits. The three properties below determine it uniquely. */
  function CookiePrefix(entries: seq<Entry>, encodedLength: seq<Entry> -> nat): (r: seq<Entry>)
    ensures r <= entries
    ensures |r| == 0 || encodedLength(r) <= CookieHistorySizeLimit
    ensures forall k :: |r| < k <= |entries| ==> encodedLength(entries[..k]) > CookieHistorySizeLimit
    decreases |entries|
  {
    if |entries| == 0 || encodedLength(entries) <= CookieHistorySizeLimit then entries
    else
      var init := entries[..|entries| - 1];
      var r := CookiePrefix(init, encodedLength);
      assert forall k :: |r| < k < |entries| ==> entries[..k] == init[..k];
      assert entries[..|entries|] == entries;
      r
  }

  /** A ledger that already fits is written whole. */
  lemma CookiePrefixOfFitting(entries: seq<Entry>, encodedLength: seq<Entry> -> nat)
    requires encodedLength(entries) <= CookieHistorySizeLimit
    ensures CookiePrefix(entries, encodedLength) == entries
  {
  }

  /** Trimming what was already trimmed changes nothing, so a ledger read
      back from the cookie is written back unchanged. */
  lemma CookiePrefixIdempotent(entries: seq<Entry>, encodedLength: seq<Entry> -> nat)
    ensures var r := CookiePrefix(entries, encodedLength);
            CookiePrefix(r, encodedLength) == r
  {
    var r := CookiePrefix(entries, encodedLength);
    if |r| > 0 {
      CookiePrefixOfFitting(r, encodedLength);
    }
  }

  /** `trimHistoryForCookie` as the loop the source runs: drop entries
      from the end until the encoding fits the budget; if not even one
      entry fits, store nothing. */
  method TrimForCookie(entries: seq<Entry>, encodedLength: seq<Entry> -> nat) returns (r: seq<Entry>)
    ensures r <= entries
    ensures |r| == 0 || encodedLength(r) <= CookieHistorySizeLimit
    ensures forall k :: |r| < k <= |entries| ==> encodedLength(entries[..k]) > CookieHistorySizeLimit
    ensures r == CookiePrefix(entries, encodedLength)
  {
    var next := entries;
    while |next| > 0
      invariant next <= entries
      invariant forall k :: |next| < k <= |entries| ==> encodedLength(entries[..k]) > CookieHistorySizeLimit
      invariant CookiePrefix(next, encodedLength) == CookiePrefix(entries, encodedLength)
      decreases |next|
    {
      if encodedLength(next) <= CookieHistorySizeLimit {
        return next;
      }
      assert next == entries[..|next|];
      next := next[..|next| - 1];
    }
    return [];
  }
}
