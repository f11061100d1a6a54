/** Building the application's first state from the saved cookie slices,
    and saving that state back. */
module Boot {
  import opened Wrappers
  import opened Seqs
  import opened Json
  import opened Catalog
  import opened Filters
  import opened History
  import opened SettingsCodec
  import opened FilterCodec
  import opened HistoryCodec

  /** The parsed cookie slices. `None` stands for a cookie that is absent,
      empty or not valid JSON; the reader then falls back to a default. */
  datatype Cookies = Cookies(
    settings: Option<Json>,
    ui: Option<Json>,
    characterFilters: Option<Json>,
    bossFilters: Option<Json>,
    selectedIds: Option<Json>,
    history: Option<Json>,
    historyFilters: Option<Json>)

  const SectionIds: seq<string> :=
    ["dashboard", "characters", "characterPool", "bosses", "bossPool", "history", "settings"]

  const DefaultSection: string := "dashboard"

  datatype BootState = BootState(
    lang: Lang,
    theme: Theme,
    settings: Settings,
    activeSection: string,
    rollOrder: Option<Stage>,
    characterFilters: CharacterFilters,
    bossFilters: BossFilters,
    selectedCharacters: seq<string>,
    selectedBosses: seq<string>,
    hasCharacterSelection: bool,
    hasBossSelection: bool,
    history: seq<Entry>,
    historyFilters: HistoryFilters)

  /** `readCookieJson`: the parsed cookie, or the fallback. */
  function ReadCookieJson(c: Option<Json>, fallback: Json): Json {
    c.GetOr(fallback)
  }

  const EmptyObject: Json := JObj(map[])

  /** `LANGS.includes(value) ? value : "ru"`. */
  function LangOf(x: Option<Json>): (l: Lang)
    ensures x == Some(JStr(LangCode(l))) || (l == Ru && forall k: Lang :: x != Some(JStr(LangCode(k))))
  {
    if x == Some(JStr("en")) then En
    else if x == Some(JStr("zh")) then Zh
    else if x == Some(JStr("ja")) then Ja
    else if x == Some(JStr("ko")) then Ko
    else Ru
  }

  /** `THEMES.includes(value) ? value : "dark"`. */
  function ThemeOf(x: Option<Json>): (t: Theme)
    ensures x == Some(JStr(ThemeName(t))) || (t == Dark && forall k: Theme :: x != Some(JStr(ThemeName(k))))
  {
    if x == Some(JStr("light")) then Light else Dark
  }

  /** `SECTION_IDS.includes(value) ? value : "dashboard"`. */
  function SectionOf(x: Option<Json>): (s: string)
    ensures s in SectionIds
    ensures x.Some? && x.value.JStr? && x.value.s in SectionIds ==> s == x.value.s
    ensures !(x.Some? && x.value.JStr? && x.value.s in SectionIds) ==> s == DefaultSection
  {
    match AsString(x)
    case Some(s) => if s in SectionIds then s else DefaultSection
    case None => DefaultSection
  }

  /** The settings slice; with no cookie, the defaults. */
  function SettingsOf(c: Option<Json>, numStr: string -> Option<real>): (r: Settings)
    ensures WellFormed(r)
    ensures c.None? ==> r == DefaultSettings
  {
    var v := ReadCookieJson(c, EmptyObject);
    assert c.None? ==> forall k :: Get(v, k).None?;
    NormalizeSettings(v, numStr)
  }

  /** The ledger slice, cut to the configured length. */
  function HistoryOf(c: Option<Json>, limit: nat, parse: string -> Option<int>, suffix: nat -> string): (r: seq<Entry>)
    ensures |r| <= limit
    ensures forall i :: 0 <= i < |r| ==> ValidEntry(r[i], parse)
    ensures c.None? ==> r == []
  {
    var all := NormalizeHistoryEntries(ReadCookieJson(c, JArr([])), parse, suffix);
    var r := Take(all, limit);
    assert forall i :: 0 <= i < |r| ==> r[i] == all[i];
    r
  }

  /** A property of a cookie object; `null` and non-objects have none. */
  function Prop(c: Option<Json>, key: string): (r: Option<Json>)
    ensures c.None? ==> r.None?
  {
    Get(ReadCookieJson(c, EmptyObject), key)
  }

  /** The first state, reading every property of a `null` cookie as
      absent, the way the normalizers already treat it. */
  function LoadInitialState(c: Cookies, numStr: string -> Option<real>,
                            parse: string -> Option<int>, suffix: nat -> string): (r: BootState)
    ensures WellFormed(r.settings)
    ensures |r.history| <= r.settings.historyLimit
    ensures forall i :: 0 <= i < |r.history| ==> ValidEntry(r.history[i], parse)
    ensures r.activeSection in SectionIds
    ensures NoDups(r.selectedCharacters) && NoDups(r.selectedBosses)
  {
    var settings := SettingsOf(c.settings, numStr);
    var chars, bosses := Prop(c.selectedIds, "characters"), Prop(c.selectedIds, "bosses");
    BootState(
      lang := LangOf(Prop(c.settings, "lang")),
      theme := ThemeOf(Prop(c.settings, "theme")),
      settings := settings,
      activeSection := SectionOf(Prop(c.ui, "activeSection")),
      rollOrder := StageOf(Prop(c.ui, "rollOrder")),
      characterFilters := CharacterFiltersOf(c.characterFilters),
      bossFilters := BossFiltersOf(c.bossFilters),
      selectedCharacters := UniqueStrings(chars),
      selectedBosses := UniqueStrings(bosses),
      hasCharacterSelection := AsArray(chars).Some?,
      hasBossSelection := AsArray(bosses).Some?,
      history := HistoryOf(c.history, settings.historyLimit, parse, suffix),
      historyFilters := NormalizeHistoryFilters(
        ReadCookieJson(c.historyFilters, EncodeHistoryFilters(DefaultHistoryFilters))))
  }

  /** Each missing cookie leaves its slice of the state at the defaults. */
  lemma MissingCookieDefaults(c: Cookies, numStr: string -> Option<real>,
                              parse: string -> Option<int>, suffix: nat -> string)
    ensures var r := LoadInitialState(c, numStr, parse, suffix);
      && (c.settings.None? ==> r.lang == Ru && r.theme == Dark && r.settings == DefaultSettings)
      && (c.ui.None? ==> r.activeSection == DefaultSection && r.rollOrder.None?)
      && (c.selectedIds.None? ==> !r.hasCharacterSelection && !r.hasBossSelection)
      && (c.selectedIds.None? ==> r.selectedCharacters == [] && r.selectedBosses == [])
      && (c.history.None? ==> r.history == [])
  {
  }

  function CharacterFiltersOf(c: Option<Json>): CharacterFilters {
    NormalizeCharacterFilters(ReadCookieJson(c, EncodeCharacterFilters(DefaultCharacterFilters)))
  }

  function BossFiltersOf(c: Option<Json>): BossFilters {
    NormalizeBossFilters(ReadCookieJson(c, EncodeBossFilters(DefaultBossFilters)))
  }

  /** With no cookies at all, start-up shows the defaults. */
  lemma NoCookiesGiveDefaults(numStr: string -> Option<real>, parse: string -> Option<int>, suffix: nat -> string)
    ensures var r := LoadInitialState(Cookies(None, None, None, None, None, None, None), numStr, parse, suffix);
            && r.characterFilters == DefaultCharacterFilters
            && r.bossFilters == DefaultBossFilters
            && r.historyFilters == DefaultHistoryFilters
  {
    CharacterFiltersRoundTrip(DefaultCharacterFilters);
    BossFiltersRoundTrip(DefaultBossFilters);
    HistoryFiltersRoundTrip(DefaultHistoryFilters);
  }

  /** A property read on a parsed cookie: reading from `null` throws. */
  function ReadProperty(v: Json, key: string): (r: Result<Option<Json>>)
    ensures r.Failure? <==> v.JNull?
    ensures r.Success? ==> r.value == Get(v, key)
  {
    if v.JNull? then Failure("TypeError: cannot read properties of null") else Success(Get(v, key))
  }

  /** `loadInitialState` as written: the settings, ui and selection
      cookies are read with plain property access, so a cookie holding
      `null` makes start-up throw. */
  function LoadInitialStateAsWritten(c: Cookies, numStr: string -> Option<real>,
                                     parse: string -> Option<int>, suffix: nat -> string): (r: Result<BootState>)
    ensures r.Failure? <==> c.settings == Some(JNull) || c.ui == Some(JNull) || c.selectedIds == Some(JNull)
  {
    var settingsCookie := ReadCookieJson(c.settings, EmptyObject);
    var uiCookie := ReadCookieJson(c.ui, EmptyObject);
    var selectedCookie := ReadCookieJson(c.selectedIds, EmptyObject);
    var lang := ReadProperty(settingsCookie, "lang");
    var ui := ReadProperty(uiCookie, "activeSection");
    var sel := ReadProperty(selectedCookie, "characters");
    if lang.Failure? then Failure(lang.error)
    else if ui.Failure? then Failure(ui.error)
    else if sel.Failure? then Failure(sel.error)
    else Success(LoadInitialState(c, numStr, parse, suffix))
  }

  /** A cookie holding `null` stops start-up in the code as written. */
  lemma NullSettingsCookieThrows(c: Cookies, numStr: string -> Option<real>,
                                 parse: string -> Option<int>, suffix: nat -> string)
    requires c.settings == Some(JNull)
    ensures LoadInitialStateAsWritten(c, numStr, parse, suffix).Failure?
    ensures LoadInitialState(c, numStr, parse, suffix).settings == DefaultSettings
  {
  }

  /** In the corrected loader a settings cookie holding `null` starts up
      exactly as a missing one does. */
  lemma NullSettingsLikeMissing(c: Cookies, numStr: string -> Option<real>,
                                parse: string -> Option<int>, suffix: nat -> string)
    ensures LoadInitialState(c.(settings := Some(JNull)), numStr, parse, suffix)
         == LoadInitialState(c.(settings := None), numStr, parse, suffix)
  {
    assert SettingsOf(Some(JNull), numStr) == SettingsOf(None, numStr);
  }

  /** The same for the ui cookie. */
  lemma NullUiLikeMissing(c: Cookies, numStr: string -> Option<real>,
                          parse: string -> Option<int>, suffix: nat -> string)
    ensures LoadInitialState(c.(ui := Some(JNull)), numStr, parse, suffix)
         == LoadInitialState(c.(ui := None), numStr, parse, suffix)
  {
  }

  /** The same for the selection cookie. */
  lemma NullSelectionLikeMissing(c: Cookies, numStr: string -> Option<real>,
                                 parse: string -> Option<int>, suffix: nat -> string)
    ensures LoadInitialState(c.(selectedIds := Some(JNull)), numStr, parse, suffix)
         == LoadInitialState(c.(selectedIds := None), numStr, parse, suffix)
  {
  }

  /** What the persistence effects write for a state. The ledger goes
      through `trimHistoryForCookie` first, so the history cookie holds the
      longest prefix of it that fits the cookie budget; the ledger in
      memory keeps every entry. */
  function SaveCookies(s: BootState, encodedLength: seq<Entry> -> nat): (r: Cookies)
    ensures r.history.Some? && r.history.value.JArr?
    ensures var saved := r.history.value.items;
            && |saved| <= |s.history|
            && (forall i :: 0 <= i < |saved| ==> saved[i] == EncodeEntry(s.history[i]))
            && (|saved| == 0 || encodedLength(s.history[..|saved|]) <= CookieHistorySizeLimit)
            && (forall k :: |saved| < k <= |s.history| ==> encodedLength(s.history[..k]) > CookieHistorySizeLimit)
  {
    var kept := CookiePrefix(s.history, encodedLength);
    assert s.history[..|kept|] == kept;
    Cookies(
      settings := Some(EncodeSettings(s.settings, s.lang, s.theme)),
      ui := Some(JObj(map[
        "activeSection" := JStr(s.activeSection),
        "rollOrder" := if s.rollOrder.Some? then JStr(StageName(s.rollOrder.value)) else JNull])),
      characterFilters := Some(EncodeCharacterFilters(s.characterFilters)),
      bossFilters := Some(EncodeBossFilters(s.bossFilters)),
      selectedIds := Some(JObj(map[
        "characters" := JArr(Strs(s.selectedCharacters)),
        "bosses" := JArr(Strs(s.selectedBosses))])),
      history := Some(EncodeHistory(kept)),
      historyFilters := Some(EncodeHistoryFilters(s.historyFilters)))
  }

  /** The states the application can hold once its selections exist. */
  predicate Restorable(s: BootState, parse: string -> Option<int>) {
    && WellFormed(s.settings)
    && s.activeSection in SectionIds
    && WellFormedCharacterFilters(s.characterFilters)
    && WellFormedBossFilters(s.bossFilters)
    && NoDups(s.selectedCharacters) && NoDups(s.selectedBosses)
    && s.hasCharacterSelection && s.hasBossSelection
    && |s.history| <= s.settings.historyLimit
    && (forall i :: 0 <= i < |s.history| ==> ValidEntry(s.history[i], parse))
  }

  lemma SettingsSliceRestored(s: BootState, numStr: string -> Option<real>, encodedLength: seq<Entry> -> nat)
    requires WellFormed(s.settings)
    ensures SettingsOf(SaveCookies(s, encodedLength).settings, numStr) == s.settings
  {
    SettingsRoundTrip(s.settings, s.lang, s.theme, numStr);
  }

  lemma LanguageAndThemeRestored(s: BootState, encodedLength: seq<Entry> -> nat)
    ensures var c := SaveCookies(s, encodedLength);
            && LangOf(Prop(c.settings, "lang")) == s.lang
            && ThemeOf(Prop(c.settings, "theme")) == s.theme
  {
    var c := SaveCookies(s, encodedLength);
    assert Prop(c.settings, "lang") == Some(JStr(LangCode(s.lang)));
    assert Prop(c.settings, "theme") == Some(JStr(ThemeName(s.theme)));
  }

  lemma UiSliceRestored(s: BootState, encodedLength: seq<Entry> -> nat)
    requires s.activeSection in SectionIds
    ensures var c := SaveCookies(s, encodedLength);
            && SectionOf(Prop(c.ui, "activeSection")) == s.activeSection
            && StageOf(Prop(c.ui, "rollOrder")) == s.rollOrder
  {
    var c := SaveCookies(s, encodedLength);
    assert Prop(c.ui, "activeSection") == Some(JStr(s.activeSection));
    assert Prop(c.ui, "rollOrder") == Some(if s.rollOrder.Some? then JStr(StageName(s.rollOrder.value)) else JNull);
  }

  lemma SelectionSliceRestored(s: BootState, encodedLength: seq<Entry> -> nat)
    requires NoDups(s.selectedCharacters) && NoDups(s.selectedBosses)
    ensures var c := SaveCookies(s, encodedLength);
            && UniqueStrings(Prop(c.selectedIds, "characters")) == s.selectedCharacters
            && UniqueStrings(Prop(c.selectedIds, "bosses")) == s.selectedBosses
            && AsArray(Prop(c.selectedIds, "characters")).Some?
            && AsArray(Prop(c.selectedIds, "bosses")).Some?
  {
    var c := SaveCookies(s, encodedLength);
    UniqueStringsRoundTrip(s.selectedCharacters);
    UniqueStringsRoundTrip(s.selectedBosses);
    assert Prop(c.selectedIds, "characters") == Some(JArr(Strs(s.selectedCharacters)));
    assert Prop(c.selectedIds, "bosses") == Some(JArr(Strs(s.selectedBosses)));
  }

  /** The ledger comes back as the history cookie holds it: the longest
      prefix that fits the budget. */
  lemma HistorySliceRestored(s: BootState, encodedLength: seq<Entry> -> nat,
                             parse: string -> Option<int>, suffix: nat -> string)
    requires |s.history| <= s.settings.historyLimit
    requires forall i :: 0 <= i < |s.history| ==> ValidEntry(s.history[i], parse)
    ensures HistoryOf(SaveCookies(s, encodedLength).history, s.settings.historyLimit, parse, suffix)
         == CookiePrefix(s.history, encodedLength)
  {
    var kept := CookiePrefix(s.history, encodedLength);
    assert forall i :: 0 <= i < |kept| ==> kept[i] == s.history[i];
    HistoryRoundTrip(kept, parse, suffix);
  }

  /** Saving a state and starting again from the saved cookies gives the
      same state back, except that the ledger is cut to what the history
      cookie could hold. */
  lemma ReloadRestoresState(s: BootState, numStr: string -> Option<real>, encodedLength: seq<Entry> -> nat,
                            parse: string -> Option<int>, suffix: nat -> string)
    requires Restorable(s, parse)
    ensures LoadInitialState(SaveCookies(s, encodedLength), numStr, parse, suffix)
         == s.(history := CookiePrefix(s.history, encodedLength))
  {
    SettingsSliceRestored(s, numStr, encodedLength);
    LanguageAndThemeRestored(s, encodedLength);
    UiSliceRestored(s, encodedLength);
    SelectionSliceRestored(s, encodedLength);
    HistorySliceRestored(s, encodedLength, parse, suffix);
    CharacterFiltersRoundTrip(s.characterFilters);
    BossFiltersRoundTrip(s.bossFilters);
    HistoryFiltersRoundTrip(s.historyFilters);
  }

  /** When the whole ledger fits the history cookie, a reload restores
      the state exactly. */
  lemma ReloadWithinBudget(s: BootState, numStr: string -> Option<real>, encodedLength: seq<Entry> -> nat,
                           parse: string -> Option<int>, suffix: nat -> string)
    requires Restorable(s, parse)
    requires encodedLength(s.history) <= CookieHistorySizeLimit
    ensures LoadInitialState(SaveCookies(s, encodedLength), numStr, parse, suffix) == s
  {
    ReloadRestoresState(s, numStr, encodedLength, parse, suffix);
    CookiePrefixOfFitting(s.history, encodedLength);
  }

  /** Cutting the ledger to the cookie budget keeps a state restorable. */
  lemma TrimKeepsRestorable(s: BootState, encodedLength: seq<Entry> -> nat, parse: string -> Option<int>)
    requires Restorable(s, parse)
    ensures Restorable(s.(history := CookiePrefix(s.history, encodedLength)), parse)
  {
    var kept := CookiePrefix(s.history, encodedLength);
    assert forall i :: 0 <= i < |kept| ==> kept[i] == s.history[i];
  }

  /** After one reload nothing more is lost: the state a reload produces
      survives every further save and reload. */
  lemma ReloadIsStable(s: BootState, numStr: string -> Option<real>, encodedLength: seq<Entry> -> nat,
                       parse: string -> Option<int>, suffix: nat -> string)
    requires Restorable(s, parse)
    ensures var once := LoadInitialState(SaveCookies(s, encodedLength), numStr, parse, suffix);
            LoadInitialState(SaveCookies(once, encodedLength), numStr, parse, suffix) == once
  {
    ReloadRestoresState(s, numStr, encodedLength, parse, suffix);
    var kept := CookiePrefix(s.history, encodedLength);
    var once := s.(history := kept);
    TrimKeepsRestorable(s, encodedLength, parse);
    ReloadRestoresState(once, numStr, encodedLength, parse, suffix);
    CookiePrefixIdempotent(s.history, encodedLength);
    assert once.(history := CookiePrefix(once.history, encodedLength)) == once;
  }
}
