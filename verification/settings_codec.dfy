/** Decoding the persisted settings slice. Every field is coerced on its
    own: a missing or ill-typed field takes its default, never the whole
    slice. Legacy boolean sound flags become volumes. */
module SettingsCodec {
  import opened Wrappers
  import opened Json
  import opened Catalog

  datatype RollSpeed = Normal | Long | Epic

  datatype Theme = Light | Dark

  datatype Settings = Settings(
    musicVolume: real,
    uiVolume: real,
    tickVolume: real,
    splashEnabled: bool,
    splashEffects: bool,
    rollSpeed: RollSpeed,
    historyLimit: int)

  const DefaultMusicVolume: real := 0.42
  const DefaultUiVolume: real := 0.45
  const DefaultTickVolume: real := 0.5
  const DefaultHistoryLimit: int := 60

  const DefaultSettings :=
    Settings(DefaultMusicVolume, DefaultUiVolume, DefaultTickVolume, true, true, Long, DefaultHistoryLimit)

  /** The invariant every decoded settings value keeps. */
  predicate WellFormed(s: Settings) {
    && 0.0 <= s.musicVolume <= 1.0
    && 0.0 <= s.uiVolume <= 1.0
    && 0.0 <= s.tickVolume <= 1.0
    && s.historyLimit in {30, 60, 90}
  }

  /** Spin duration in milliseconds for each speed. */
  function RollDuration(speed: RollSpeed): (ms: nat)
    ensures 7400 <= ms <= 11200
    ensures speed == Normal ==> ms == 7400
    ensures speed == Long ==> ms == 9200
    ensures speed == Epic ==> ms == 11200
  {
    match speed
    case Normal => 7400
    case Long => 9200
    case Epic => 11200
  }

  function SpeedName(speed: RollSpeed): string {
    match speed
    case Normal => "normal"
    case Long => "long"
    case Epic => "epic"
  }

  /** `ROLL_SPEEDS.includes(x)`: strict equality with one of the names. */
  function ParseSpeed(x: Option<Json>): (r: Option<RollSpeed>)
    ensures r.Some? <==> x in {Some(JStr("normal")), Some(JStr("long")), Some(JStr("epic"))}
    ensures r.Some? ==> x == Some(JStr(SpeedName(r.value)))
  {
    if x == Some(JStr("normal")) then Some(Normal)
    else if x == Some(JStr("long")) then Some(Long)
    else if x == Some(JStr("epic")) then Some(Epic)
    else None
  }

  /** `clampHistoryLimit`: the coerced number when it is one of the offered
      limits, otherwise the default 60. */
  function ClampHistoryLimit(x: Option<Json>, numStr: string -> Option<real>): (r: int)
    ensures r in {30, 60, 90}
    ensures ToNumber(x, numStr) in {Some(30.0), Some(60.0), Some(90.0)} ==> Some(r as real) == ToNumber(x, numStr)
    ensures ToNumber(x, numStr) !in {Some(30.0), Some(60.0), Some(90.0)} ==> r == DefaultHistoryLimit
  {
    var n := ToNumber(x, numStr);
    if n == Some(30.0) then 30
    else if n == Some(60.0) then 60
    else if n == Some(90.0) then 90
    else DefaultHistoryLimit
  }

  /** `clampVolume`: a finite number is clamped into [0, 1]; anything that
      coerces to NaN or an infinity yields `fallback`. */
  function ClampVolume(x: Option<Json>, fallback: real, numStr: string -> Option<real>): (r: real)
    ensures ToNumber(x, numStr).None? ==> r == fallback
    ensures ToNumber(x, numStr).Some? ==> 0.0 <= r <= 1.0
    ensures ToNumber(x, numStr).Some? && 0.0 <= ToNumber(x, numStr).value <= 1.0 ==> r == ToNumber(x, numStr).value
    ensures ToNumber(x, numStr).Some? && ToNumber(x, numStr).value < 0.0 ==> r == 0.0
    ensures ToNumber(x, numStr).Some? && ToNumber(x, numStr).value > 1.0 ==> r == 1.0
  {
    match ToNumber(x, numStr)
    case None => fallback
    case Some(n) => if n > 1.0 then 1.0 else if n < 0.0 then 0.0 else n
  }

  /** `normalizeSettings`. */
  function NormalizeSettings(v: Json, numStr: string -> Option<real>): (s: Settings)
    ensures WellFormed(s)
    ensures s.historyLimit == ClampHistoryLimit(Get(v, "historyLimit"), numStr)
    ensures Get(v, "historyLimit").None? ==> s.historyLimit == DefaultHistoryLimit
    ensures ParseSpeed(Get(v, "rollSpeed")).Some? ==> s.rollSpeed == ParseSpeed(Get(v, "rollSpeed")).value
    ensures ParseSpeed(Get(v, "rollSpeed")).None? ==> s.rollSpeed == Long
    ensures AsBool(Get(v, "splashEnabled")).Some? ==> s.splashEnabled == AsBool(Get(v, "splashEnabled")).value
    ensures AsBool(Get(v, "splashEnabled")).None? ==> s.splashEnabled
    ensures AsBool(Get(v, "splashEffects")).Some? ==> s.splashEffects == AsBool(Get(v, "splashEffects")).value
    ensures AsBool(Get(v, "splashEffects")).None? ==> s.splashEffects
    ensures ToNumber(Get(v, "musicVolume"), numStr).Some? ==> s.musicVolume == ClampVolume(Get(v, "musicVolume"), 0.0, numStr)
    ensures ToNumber(Get(v, "uiVolume"), numStr).Some? ==> s.uiVolume == ClampVolume(Get(v, "uiVolume"), 0.0, numStr)
    ensures ToNumber(Get(v, "tickVolume"), numStr).Some? ==> s.tickVolume == ClampVolume(Get(v, "tickVolume"), 0.0, numStr)
    ensures AsBool(Get(v, "soundEnabled")) == Some(false) && ToNumber(Get(v, "uiVolume"), numStr).None? ==> s.uiVolume == 0.0
    ensures AsBool(Get(v, "soundEnabled")) == Some(false) && ToNumber(Get(v, "tickVolume"), numStr).None? ==> s.tickVolume == 0.0
    ensures AsBool(Get(v, "soundEnabled")) != Some(false) && ToNumber(Get(v, "uiVolume"), numStr).None? ==> s.uiVolume == DefaultUiVolume
    ensures AsBool(Get(v, "soundEnabled")) != Some(false) && ToNumber(Get(v, "tickVolume"), numStr).None? ==> s.tickVolume == DefaultTickVolume
    ensures AsBool(Get(v, "backgroundMusicEnabled")) == Some(false) && ToNumber(Get(v, "musicVolume"), numStr).None? ==> s.musicVolume == 0.0
    ensures AsBool(Get(v, "backgroundMusicEnabled")) != Some(false) && ToNumber(Get(v, "musicVolume"), numStr).None? ==> s.musicVolume == DefaultMusicVolume
    ensures !v.JObj? ==> s == DefaultSettings
  {
    var legacySound := AsBool(Get(v, "soundEnabled"));
    var legacyMusic := AsBool(Get(v, "backgroundMusicEnabled"));
    var defaultUi := if legacySound == Some(false) then 0.0 else DefaultUiVolume;
    var defaultTick := if legacySound == Some(false) then 0.0 else DefaultTickVolume;
    var defaultMusic := if legacyMusic == Some(false) then 0.0 else DefaultMusicVolume;
    Settings(
      ClampVolume(Get(v, "musicVolume"), defaultMusic, numStr),
      ClampVolume(Get(v, "uiVolume"), defaultUi, numStr),
      ClampVolume(Get(v, "tickVolume"), defaultTick, numStr),
      AsBool(Get(v, "splashEnabled")).GetOr(true),
      AsBool(Get(v, "splashEffects")).GetOr(true),
      ParseSpeed(Get(v, "rollSpeed")).GetOr(Long),
      ClampHistoryLimit(Get(v, "historyLimit"), numStr))
  }

  function LangCode(l: Lang): string {
    match l
    case Ru => "ru"
    case En => "en"
    case Zh => "zh"
    case Ja => "ja"
    case Ko => "ko"
  }

  function ThemeName(t: Theme): string {
    match t
    case Light => "light"
    case Dark => "dark"
  }

  /** The object written to the settings slice: language, theme and every
      settings field. */
  function EncodeSettings(s: Settings, lang: Lang, theme: Theme): (v: Json)
    ensures v.JObj?
  {
    JObj(map[
      "lang" := JStr(LangCode(lang)),
      "theme" := JStr(ThemeName(theme)),
      "musicVolume" := JNum(s.musicVolume),
      "uiVolume" := JNum(s.uiVolume),
      "tickVolume" := JNum(s.tickVolume),
      "splashEnabled" := JBool(s.splashEnabled),
      "splashEffects" := JBool(s.splashEffects),
      "rollSpeed" := JStr(SpeedName(s.rollSpeed)),
      "historyLimit" := JNum(s.historyLimit as real)])
  }

  /** Writing well-formed settings and reading them back gives them back. */
  lemma SettingsRoundTrip(s: Settings, lang: Lang, theme: Theme, numStr: string -> Option<real>)
    requires WellFormed(s)
    ensures NormalizeSettings(EncodeSettings(s, lang, theme), numStr) == s
  {
    var v := EncodeSettings(s, lang, theme);
    assert Get(v, "rollSpeed") == Some(JStr(SpeedName(s.rollSpeed)));
    assert Get(v, "historyLimit") == Some(JNum(s.historyLimit as real));
  }

  /** Decoding is idempotent: decoding what was saved changes nothing. */
  lemma NormalizeSettingsIdempotent(v: Json, lang: Lang, theme: Theme, numStr: string -> Option<real>)
    ensures NormalizeSettings(EncodeSettings(NormalizeSettings(v, numStr), lang, theme), numStr)
         == NormalizeSettings(v, numStr)
  {
    SettingsRoundTrip(NormalizeSettings(v, numStr), lang, theme, numStr);
  }
}
