/*
 * The settings document of the main window (module/timer_window.py):
 * its defaults, the key backfill and shortcut merge of `load_settings`,
 * the field-by-field repair of `_validate_and_fix_settings`, the
 * per-entry rules of `_normalize_countdown_presets`, and the startup-mode
 * override of the constructor.
 */
module SettingsStore {
  import opened PyJson
  import opened SettingsText
  import Constants

  /** The settings dict: key to JSON value. */
  type Settings = map<string, Json>

  /** A JSON document as `json.load` returns it: every object has distinct keys. */
  predicate ParsedJson(j: Json)
  {
    match j
    case JList(items) => forall i :: 0 <= i < |items| ==> ParsedJson(items[i])
    case JObj(fields) => DistinctKeys(fields) && forall i :: 0 <= i < |fields| ==> ParsedJson(fields[i].1)
    case _ => true
  }

  /** A JSON object as a map; an earlier entry wins, as `Get` does. */
  function ToMap(fields: seq<(string, Json)>): (m: Settings)
    ensures m.Keys == KeySet(fields)
    ensures forall k :: k in m ==> Get(fields, k) == Some(m[k])
  {
    if |fields| == 0 then map[] else ToMap(fields[1..])[fields[0].0 := fields[0].1]
  }

  // ---------------------------------------------------------------------
  // Defaults
  // ---------------------------------------------------------------------

  /**
   * `default_settings` of `load_settings`. The dict's insertion order only
   * decides the key order of the written file, which is not modelled.
   */
  function DefaultSettings(): Settings
  {
    map[
      "font_family" := JStr("Consolas"),
      "font_size" := JInt(96),
      "text_color" := JStr("#E0E0E0"),
      "bg_color" := JStr("#1E1E1E"),
      "bg_opacity" := JInt(200),
      "night_mode" := JBool(false),
      "timer_mode" := JStr("倒计时"),
      "timer_mode_key" := JStr("countdown"),
      "countdown_hours" := JInt(0),
      "countdown_minutes" := JInt(25),
      "countdown_seconds" := JInt(0),
      "countdown_action" := JStr("beep"),
      "countdown_action_key" := JStr("beep"),
      "sound_file" := JStr("sounds/Alarm01.wav"),
      "sound_volume" := JInt(80),
      "enable_windows_toast" := JBool(true),
      "theme_mode" := JStr("auto"),
      "theme_color" := JStr("#0078D4"),
      "language" := JStr("zh_CN"),
      "clock_format_24h" := JBool(true),
      "clock_show_seconds" := JBool(true),
      "clock_show_date" := JBool(false),
      "clock_show_am_pm" := JBool(true),
      "clock_am_pm_style" := JStr("zh"),
      "clock_am_pm_position" := JStr("before"),
      "startup_mode_behavior" := JStr("restore"),
      "startup_fixed_mode_key" := JStr("countdown"),
      "shortcuts" := JObj(Constants.DefaultShortcutsJson()),
      "countdown_presets" := JList(Constants.DefaultCountdownPresets())
    ]
  }

  // ---------------------------------------------------------------------
  // Backfill and shortcut merge (load_settings)
  // ---------------------------------------------------------------------

  /** `for key, value in defaults.items(): if key not in settings: settings[key] = value`. */
  function Backfill(s: Settings, defaults: Settings): (r: Settings)
    ensures r.Keys == s.Keys + defaults.Keys
    ensures forall k :: k in s ==> r[k] == s[k]
    ensures forall k :: k in defaults && k !in s ==> r[k] == defaults[k]
  {
    map k | k in s.Keys + defaults.Keys :: if k in s then s[k] else defaults[k]
  }

  /** `merged = dict(DEFAULT_SHORTCUTS); merged.update(stored)`. */
  function UpdateInto(acc: seq<(string, Json)>, stored: seq<(string, Json)>): (r: seq<(string, Json)>)
    ensures KeySet(r) == KeySet(acc) + KeySet(stored)
    decreases |stored|
  {
    if |stored| == 0 then acc else UpdateInto(Put(acc, stored[0].0, stored[0].1), stored[1..])
  }

  /** The merged shortcuts: stored chords win, defaults fill the rest. */
  function MergeShortcuts(stored: seq<(string, Json)>): seq<(string, Json)>
  {
    UpdateInto(Constants.DefaultShortcutsJson(), stored)
  }

  /** With distinct stored keys, `update` gives every stored value and keeps the others. */
  lemma {:induction false} UpdateIntoLookup(acc: seq<(string, Json)>, stored: seq<(string, Json)>, k: string)
    requires DistinctKeys(stored)
    ensures Get(UpdateInto(acc, stored), k) == if Get(stored, k).Some? then Get(stored, k) else Get(acc, k)
    decreases |stored|
  {
    if |stored| > 0 {
      DistinctHead(stored);
      UpdateIntoLookup(Put(acc, stored[0].0, stored[0].1), stored[1..], k);
      GetCons(stored[0], stored[1..], k);
      assert stored == [stored[0]] + stored[1..];
      if k == stored[0].0 {
        assert Get(stored[1..], k) == None;
      }
    }
  }

  /** Every default action keeps a chord after the merge; stored chords override. */
  lemma MergeShortcutsLookup(stored: seq<(string, Json)>, k: string)
    requires DistinctKeys(stored)
    ensures Get(MergeShortcuts(stored), k) ==
      if Get(stored, k).Some? then Get(stored, k) else Get(Constants.DefaultShortcutsJson(), k)
    ensures KeySet(MergeShortcuts(stored)) == KeySet(Constants.DefaultShortcutsJson()) + KeySet(stored)
  {
    UpdateIntoLookup(Constants.DefaultShortcutsJson(), stored, k);
  }

  /** `update` keeps distinct keys distinct. */
  lemma {:induction false} UpdateIntoDistinct(acc: seq<(string, Json)>, stored: seq<(string, Json)>)
    requires DistinctKeys(acc)
    ensures DistinctKeys(UpdateInto(acc, stored))
    decreases |stored|
  {
    if |stored| > 0 {
      PutDistinct(acc, stored[0].0, stored[0].1);
      UpdateIntoDistinct(Put(acc, stored[0].0, stored[0].1), stored[1..]);
    }
  }

  /** `dict(DEFAULT_SHORTCUTS)` merged with the stored value, or the defaults when it is not a dict. */
  function ShortcutsAfterLoad(stored: Option<Json>): Json
  {
    if stored.Some? && stored.value.JObj? then JObj(MergeShortcuts(stored.value.fields))
    else JObj(Constants.DefaultShortcutsJson())
  }

  // ---------------------------------------------------------------------
  // _validate_and_fix_settings
  // ---------------------------------------------------------------------

  /** `isinstance(v, int) and lo <= v <= hi`, for a JSON integer; a boolean counts as not an int (see README). */
  predicate IntIn(v: Json, lo: int, hi: int)
  {
    v.JInt? && lo <= v.i <= hi
  }

  /** `v in options` for string options. */
  predicate OneOf(v: Json, options: seq<string>)
  {
    v.JStr? && v.s in options
  }

  const ThemeModes: seq<string> := ["auto", "light", "dark"]
  const Languages: seq<string> := ["zh_CN", "en_US"]
  const StartupBehaviors: seq<string> := ["restore", "fixed"]


  /** `a` and `b` agree on every key outside `ks`. */
  ghost predicate SameOutside(a: Settings, b: Settings, ks: set<string>)
  {
    forall k :: k !in ks ==> (k in a <==> k in b) && (k in a ==> a[k] == b[k])
  }

  lemma SameOutsideStep(a: Settings, b: Settings, c: Settings, ks: set<string>, k: string)
    requires SameOutside(b, a, ks) && SameOutside(c, b, {k})
    ensures SameOutside(c, a, ks + {k})
  {
  }

  lemma SameOutsideTrans(a: Settings, b: Settings, c: Settings, k1: set<string>, k2: set<string>)
    requires SameOutside(b, a, k1) && SameOutside(c, b, k2)
    ensures SameOutside(c, a, k1 + k2)
  {
  }

  /** Agreeing outside one present key is being the other dict with that key set. */
  lemma SameOutsideOne(a: Settings, b: Settings, k: string)
    requires SameOutside(a, b, {k}) && k in a
    ensures a == b[k := a[k]]
  {
  }

  lemma GetOrOutside(a: Settings, b: Settings, ks: set<string>, k: string, d: Json)
    requires SameOutside(a, b, ks) && k !in ks
    ensures GetOr(a, k, d) == GetOr(b, k, d)
  {
  }

  /** `isinstance(v, int) and v >= 0`, for a JSON integer; a boolean counts as not an int (see README). */
  predicate NonNeg(v: Json)
  {
    v.JInt? && v.i >= 0
  }

  /** One round of the non-negative loop: a value that is not a JSON integer, or is negative, becomes 0. */
  function ResetNegative(s: Settings, k: string): (r: (Settings, bool))
    ensures SameOutside(r.0, s, {k})
    ensures NonNeg(GetOr(r.0, k, JInt(0)))
    ensures GetOr(r.0, k, JInt(0)) == if NonNeg(GetOr(s, k, JInt(0))) then GetOr(s, k, JInt(0)) else JInt(0)
    ensures r.1 <==> !NonNeg(GetOr(s, k, JInt(0)))
    ensures !r.1 ==> r.0 == s
  {
    if NonNeg(GetOr(s, k, JInt(0))) then (s, false) else (s[k := JInt(0)], true)
  }

  /** One round of the colour loop: a value that is not colour-shaped gets the key's default. */
  function ResetColour(s: Settings, k: string, default: string): (r: (Settings, bool))
    requires ColourShaped(JStr(default))
    ensures SameOutside(r.0, s, {k})
    ensures ColourShaped(GetOr(r.0, k, JStr("#000000")))
    ensures GetOr(r.0, k, JNull) ==
      if ColourShaped(GetOr(s, k, JStr("#000000"))) then GetOr(s, k, JNull) else JStr(default)
    ensures r.1 <==> !ColourShaped(GetOr(s, k, JStr("#000000")))
    ensures !r.1 ==> r.0 == s
  {
    if ColourShaped(GetOr(s, k, JStr("#000000"))) then (s, false) else (s[k := JStr(default)], true)
  }

  /** `if settings.get(k, 0) > hi: settings[k] = hi`, applied after the non-negative check. */
  function Cap(s: Settings, k: string, hi: int): (r: (Settings, bool))
    requires NonNeg(GetOr(s, k, JInt(0))) && hi >= 0
    ensures SameOutside(r.0, s, {k})
    ensures GetOr(r.0, k, JInt(0)) == if GetOr(s, k, JInt(0)).i > hi then JInt(hi) else GetOr(s, k, JInt(0))
    ensures r.1 <==> GetOr(s, k, JInt(0)).i > hi
    ensures !r.1 ==> r.0 == s
  {
    var v := GetOr(s, k, JInt(0));
    if v.i > hi then (s[k := JInt(hi)], true) else (s, false)
  }

  // The validator in four groups of consecutive checks; each group touches only its own keys.

  const DisplayKeys: set<string> := {"font_size", "bg_opacity", "timer_mode_key"}
  const CountdownKeySet: set<string> := {"countdown_hours", "countdown_minutes", "countdown_seconds"}
  const ColourKeys: set<string> := {"text_color", "bg_color", "theme_mode", "theme_color", "language"}
  const BehaviourKeys: set<string> := {"countdown_action_key", "sound_volume", "enable_windows_toast", "startup_mode_behavior"}

  /** The keys the validator may rewrite. */
  const ValidatedKeys: set<string> := DisplayKeys + CountdownKeySet + ColourKeys + BehaviourKeys

  predicate DisplayValid(s: Settings)
  {
    IntIn(GetOr(s, "font_size", JInt(96)), 12, 500)
    && IntIn(GetOr(s, "bg_opacity", JInt(200)), 0, 255)
    && OneOf(GetOr(s, "timer_mode_key", JNull), ModeKeys)
  }

  predicate CountdownValid(s: Settings)
  {
    IntIn(GetOr(s, "countdown_hours", JInt(0)), 0, 99)
    && IntIn(GetOr(s, "countdown_minutes", JInt(0)), 0, 59)
    && IntIn(GetOr(s, "countdown_seconds", JInt(0)), 0, 59)
  }

  predicate AppearanceValid(s: Settings)
  {
    ColourShaped(GetOr(s, "text_color", JStr("#000000")))
    && ColourShaped(GetOr(s, "bg_color", JStr("#000000")))
    && OneOf(GetOr(s, "theme_mode", JStr("auto")), ThemeModes)
    && ColourShaped(GetOr(s, "theme_color", JStr("#0078D4")))
    && OneOf(GetOr(s, "language", JNull), Languages)
  }

  predicate BehaviourValid(s: Settings)
  {
    OneOf(GetOr(s, "countdown_action_key", JNull), ActionKeys)
    && IntIn(GetOr(s, "sound_volume", JInt(80)), 0, 100)
    && GetOr(s, "enable_windows_toast", JBool(true)).JBool?
    && OneOf(GetOr(s, "startup_mode_behavior", JNull), StartupBehaviors)
  }

  /** Everything `_validate_and_fix_settings` checks holds. */
  predicate Validated(s: Settings)
  {
    DisplayValid(s) && CountdownValid(s) && AppearanceValid(s) && BehaviourValid(s)
  }

  /** Font size, opacity and mode key: an invalid value is reset to its default, never clamped. */
  function FixDisplay(s: Settings): (Settings, bool)
  {
    var f1 := !IntIn(GetOr(s, "font_size", JInt(96)), 12, 500);
    var s1 := if f1 then s["font_size" := JInt(96)] else s;
    var f2 := !IntIn(GetOr(s1, "bg_opacity", JInt(200)), 0, 255);
    var s2 := if f2 then s1["bg_opacity" := JInt(200)] else s1;
    var f3 := !OneOf(GetOr(s2, "timer_mode_key", JNull), ModeKeys);
    var s3 := if f3 then s2["timer_mode_key" := JStr("countdown")] else s2;
    (s3, f1 || f2 || f3)
  }

  lemma FixDisplayRepairs(s: Settings)
    ensures SameOutside(FixDisplay(s).0, s, DisplayKeys)
    ensures DisplayValid(FixDisplay(s).0)
    ensures FixDisplay(s).1 <==> !DisplayValid(s)
    ensures !FixDisplay(s).1 ==> FixDisplay(s).0 == s
    ensures GetOr(FixDisplay(s).0, "font_size", JInt(96)) ==
      if IntIn(GetOr(s, "font_size", JInt(96)), 12, 500) then GetOr(s, "font_size", JInt(96)) else JInt(96)
    ensures GetOr(FixDisplay(s).0, "bg_opacity", JInt(200)) ==
      if IntIn(GetOr(s, "bg_opacity", JInt(200)), 0, 255) then GetOr(s, "bg_opacity", JInt(200)) else JInt(200)
  {
  }

  /** The countdown fields: a non-integer or negative value becomes 0, a value above the cap becomes the cap. */
  function FixCountdown(s: Settings): (Settings, bool)
  {
    var H, M, S := "countdown_hours", "countdown_minutes", "countdown_seconds";
    var (s1, f1) := ResetNegative(s, H);
    var (s2, f2) := ResetNegative(s1, M);
    var (s3, f3) := ResetNegative(s2, S);
    GetOrOutside(s2, s1, {M}, H, JInt(0));
    GetOrOutside(s3, s2, {S}, H, JInt(0));
    GetOrOutside(s3, s2, {S}, M, JInt(0));
    var (s4, f4) := Cap(s3, H, 99);
    GetOrOutside(s4, s3, {H}, M, JInt(0));
    GetOrOutside(s4, s3, {H}, S, JInt(0));
    var (s5, f5) := Cap(s4, M, 59);
    GetOrOutside(s5, s4, {M}, S, JInt(0));
    var (s6, f6) := Cap(s5, S, 59);
    (s6, f1 || f2 || f3 || f4 || f5 || f6)
  }

  lemma FixCountdownRepairs(s: Settings)
    ensures SameOutside(FixCountdown(s).0, s, CountdownKeySet)
    ensures CountdownValid(FixCountdown(s).0)
    ensures FixCountdown(s).1 <==> !CountdownValid(s)
    ensures !FixCountdown(s).1 ==> FixCountdown(s).0 == s
    ensures var h := GetOr(s, "countdown_hours", JInt(0));
      GetOr(FixCountdown(s).0, "countdown_hours", JInt(0)) == if !NonNeg(h) then JInt(0) else if h.i > 99 then JInt(99) else h
  {
    var H, M, S := "countdown_hours", "countdown_minutes", "countdown_seconds";
    var (s1, f1) := ResetNegative(s, H);
    var (s2, f2) := ResetNegative(s1, M);
    var (s3, f3) := ResetNegative(s2, S);
    GetOrOutside(s2, s1, {M}, H, JInt(0));
    GetOrOutside(s3, s2, {S}, H, JInt(0));
    GetOrOutside(s3, s2, {S}, M, JInt(0));
    GetOrOutside(s1, s, {H}, M, JInt(0));
    GetOrOutside(s1, s, {H}, S, JInt(0));
    GetOrOutside(s2, s1, {M}, S, JInt(0));
    var (s4, f4) := Cap(s3, H, 99);
    GetOrOutside(s4, s3, {H}, M, JInt(0));
    GetOrOutside(s4, s3, {H}, S, JInt(0));
    var (s5, f5) := Cap(s4, M, 59);
    GetOrOutside(s5, s4, {M}, H, JInt(0));
    GetOrOutside(s5, s4, {M}, S, JInt(0));
    var (s6, f6) := Cap(s5, S, 59);
    GetOrOutside(s6, s5, {S}, H, JInt(0));
    GetOrOutside(s6, s5, {S}, M, JInt(0));
    SameOutsideStep(s, s1, s2, {H}, M);
    SameOutsideStep(s, s2, s3, {H, M}, S);
    SameOutsideStep(s, s3, s4, {H, M, S}, H);
    SameOutsideStep(s, s4, s5, {H, M, S}, M);
    SameOutsideStep(s, s5, s6, {H, M, S}, S);
    assert {H} + {M} == {H, M} && {H, M} + {S} == {H, M, S} && {H, M, S} + {H} == {H, M, S};
    assert FixCountdown(s) == (s6, f1 || f2 || f3 || f4 || f5 || f6);
  }

  /** Text and background colours, theme and language. */
  function FixAppearance(s: Settings): (Settings, bool)
  {
    var (s7, f7) := ResetColour(s, "text_color", "#E0E0E0");
    var (s8, f8) := ResetColour(s7, "bg_color", "#1E1E1E");
    var f9 := !OneOf(GetOr(s8, "theme_mode", JStr("auto")), ThemeModes);
    var s9 := if f9 then s8["theme_mode" := JStr("auto")] else s8;
    var f10 := !ColourShaped(GetOr(s9, "theme_color", JStr("#0078D4")));
    var s10 := if f10 then s9["theme_color" := JStr("#0078D4")] else s9;
    var f11 := !OneOf(GetOr(s10, "language", JNull), Languages);
    var s11 := if f11 then s10["language" := JStr("zh_CN")] else s10;
    (s11, f7 || f8 || f9 || f10 || f11)
  }

  lemma FixAppearanceRepairs(s: Settings)
    ensures SameOutside(FixAppearance(s).0, s, ColourKeys)
    ensures AppearanceValid(FixAppearance(s).0)
    ensures FixAppearance(s).1 <==> !AppearanceValid(s)
    ensures !FixAppearance(s).1 ==> FixAppearance(s).0 == s
    ensures GetOr(FixAppearance(s).0, "text_color", JNull) ==
      if ColourShaped(GetOr(s, "text_color", JStr("#000000"))) then GetOr(s, "text_color", JNull) else JStr("#E0E0E0")
  {
  }

  /** Finish action key (derived again from the free text), volume, toast switch and startup behaviour. */
  function FixBehaviour(s: Settings): (Settings, bool)
  {
    var f12 := !OneOf(GetOr(s, "countdown_action_key", JNull), ActionKeys);
    var s12 := if f12 then s["countdown_action_key" := JStr(DeriveActionKey(GetOr(s, "countdown_action", JStr(""))))] else s;
    var f13 := !IntIn(GetOr(s12, "sound_volume", JInt(80)), 0, 100);
    var s13 := if f13 then s12["sound_volume" := JInt(80)] else s12;
    var f14 := !GetOr(s13, "enable_windows_toast", JBool(true)).JBool?;
    var s14 := if f14 then s13["enable_windows_toast" := JBool(true)] else s13;
    var f15 := !OneOf(GetOr(s14, "startup_mode_behavior", JNull), StartupBehaviors);
    var s15 := if f15 then s14["startup_mode_behavior" := JStr("restore")] else s14;
    (s15, f12 || f13 || f14 || f15)
  }

  lemma FixBehaviourRepairs(s: Settings)
    ensures SameOutside(FixBehaviour(s).0, s, BehaviourKeys)
    ensures BehaviourValid(FixBehaviour(s).0)
    ensures FixBehaviour(s).1 <==> !BehaviourValid(s)
    ensures !FixBehaviour(s).1 ==> FixBehaviour(s).0 == s
    ensures GetOr(FixBehaviour(s).0, "countdown_action_key", JNull) ==
      if OneOf(GetOr(s, "countdown_action_key", JNull), ActionKeys) then GetOr(s, "countdown_action_key", JNull)
      else JStr(DeriveActionKey(GetOr(s, "countdown_action", JStr(""))))
  {
  }

  /**
   * `_validate_and_fix_settings` as a function of the settings: the new
   * settings and whether anything was fixed. The checks run in the source's
   * order.
   */
  function FixSettings(s: Settings): (Settings, bool)
  {
    var (a, fa) := FixDisplay(s);
    var (b, fb) := FixCountdown(a);
    var (c, fc) := FixAppearance(b);
    var (d, fd) := FixBehaviour(c);
    (d, fa || fb || fc || fd)
  }

  lemma KeyGroupsDisjoint()
    ensures CountdownKeySet !! DisplayKeys && ColourKeys !! DisplayKeys && ColourKeys !! CountdownKeySet
    ensures BehaviourKeys !! DisplayKeys && BehaviourKeys !! CountdownKeySet && BehaviourKeys !! ColourKeys
  {
  }

  // A group's checks read only the group's keys.

  lemma DisplayValidOutside(a: Settings, b: Settings, ks: set<string>)
    requires SameOutside(a, b, ks) && ks !! DisplayKeys
    ensures DisplayValid(a) == DisplayValid(b)
  {
    GetOrOutside(a, b, ks, "font_size", JInt(96));
    GetOrOutside(a, b, ks, "bg_opacity", JInt(200));
    GetOrOutside(a, b, ks, "timer_mode_key", JNull);
  }

  lemma CountdownValidOutside(a: Settings, b: Settings, ks: set<string>)
    requires SameOutside(a, b, ks) && ks !! CountdownKeySet
    ensures CountdownValid(a) == CountdownValid(b)
  {
    GetOrOutside(a, b, ks, "countdown_hours", JInt(0));
    GetOrOutside(a, b, ks, "countdown_minutes", JInt(0));
    GetOrOutside(a, b, ks, "countdown_seconds", JInt(0));
  }

  lemma AppearanceValidOutside(a: Settings, b: Settings, ks: set<string>)
    requires SameOutside(a, b, ks) && ks !! ColourKeys
    ensures AppearanceValid(a) == AppearanceValid(b)
  {
    GetOrOutside(a, b, ks, "text_color", JStr("#000000"));
    GetOrOutside(a, b, ks, "bg_color", JStr("#000000"));
    GetOrOutside(a, b, ks, "theme_mode", JStr("auto"));
    GetOrOutside(a, b, ks, "theme_color", JStr("#0078D4"));
    GetOrOutside(a, b, ks, "language", JNull);
  }

  lemma BehaviourValidOutside(a: Settings, b: Settings, ks: set<string>)
    requires SameOutside(a, b, ks) && ks !! BehaviourKeys
    ensures BehaviourValid(a) == BehaviourValid(b)
  {
    GetOrOutside(a, b, ks, "countdown_action_key", JNull);
    GetOrOutside(a, b, ks, "sound_volume", JInt(80));
    GetOrOutside(a, b, ks, "enable_windows_toast", JBool(true));
    GetOrOutside(a, b, ks, "startup_mode_behavior", JNull);
  }

  /** The four groups of `FixSettings` and the states between them. */
  lemma FixSettingsStages(s: Settings) returns (a: Settings, b: Settings, c: Settings)
    ensures a == FixDisplay(s).0 && b == FixCountdown(a).0 && c == FixAppearance(b).0
    ensures FixSettings(s) == (FixBehaviour(c).0, FixDisplay(s).1 || FixCountdown(a).1 || FixAppearance(b).1 || FixBehaviour(c).1)
  {
    a := FixDisplay(s).0;
    b := FixCountdown(a).0;
    c := FixAppearance(b).0;
  }

  /** The four groups' contracts at the stages of one run. */
  lemma FixSettingsRepairs(s: Settings) returns (a: Settings, b: Settings, c: Settings)
    ensures a == FixDisplay(s).0 && b == FixCountdown(a).0 && c == FixAppearance(b).0
    ensures FixSettings(s) == (FixBehaviour(c).0, FixDisplay(s).1 || FixCountdown(a).1 || FixAppearance(b).1 || FixBehaviour(c).1)
    ensures SameOutside(a, s, DisplayKeys) && DisplayValid(a) && (FixDisplay(s).1 <==> !DisplayValid(s))
    ensures SameOutside(b, a, CountdownKeySet) && CountdownValid(b) && (FixCountdown(a).1 <==> !CountdownValid(a))
    ensures SameOutside(c, b, ColourKeys) && AppearanceValid(c) && (FixAppearance(b).1 <==> !AppearanceValid(b))
    ensures SameOutside(FixBehaviour(c).0, c, BehaviourKeys) && BehaviourValid(FixBehaviour(c).0)
    ensures FixBehaviour(c).1 <==> !BehaviourValid(c)
    ensures !FixDisplay(s).1 ==> a == s
    ensures !FixCountdown(a).1 ==> b == a
    ensures !FixAppearance(b).1 ==> c == b
    ensures !FixBehaviour(c).1 ==> FixBehaviour(c).0 == c
  {
    a, b, c := FixSettingsStages(s);
    FixDisplayRepairs(s);
    FixCountdownRepairs(a);
    FixAppearanceRepairs(b);
    FixBehaviourRepairs(c);
  }

  /** After `_validate_and_fix_settings` every checked field is valid. */
  lemma FixSettingsSound(s: Settings)
    ensures Validated(FixSettings(s).0)
  {
    var a, b, c := FixSettingsRepairs(s);
    var d := FixBehaviour(c).0;
    KeyGroupsDisjoint();
    DisplayValidOutside(b, a, CountdownKeySet);
    DisplayValidOutside(c, b, ColourKeys);
    DisplayValidOutside(d, c, BehaviourKeys);
    CountdownValidOutside(c, b, ColourKeys);
    CountdownValidOutside(d, c, BehaviourKeys);
    AppearanceValidOutside(d, c, BehaviourKeys);
  }

  /** `fixed` is set exactly when some field was invalid; nothing changes otherwise. */
  lemma FixSettingsReportsExactly(s: Settings)
    ensures FixSettings(s).1 <==> !Validated(s)
    ensures !FixSettings(s).1 ==> FixSettings(s).0 == s
  {
    var a, b, c := FixSettingsRepairs(s);
    KeyGroupsDisjoint();
    CountdownValidOutside(a, s, DisplayKeys);
    AppearanceValidOutside(a, s, DisplayKeys);
    AppearanceValidOutside(b, a, CountdownKeySet);
    BehaviourValidOutside(a, s, DisplayKeys);
    BehaviourValidOutside(b, a, CountdownKeySet);
    BehaviourValidOutside(c, b, ColourKeys);
  }

  /** Keys the validator does not check are left alone. */
  lemma FixSettingsFrame(s: Settings)
    ensures SameOutside(FixSettings(s).0, s, ValidatedKeys)
  {
    var a, b, c := FixSettingsRepairs(s);
    SameOutsideTrans(s, a, b, DisplayKeys, CountdownKeySet);
    SameOutsideTrans(s, b, c, DisplayKeys + CountdownKeySet, ColourKeys);
    SameOutsideTrans(s, c, FixBehaviour(c).0, DisplayKeys + CountdownKeySet + ColourKeys, BehaviourKeys);
  }

  /** A second validation reports no fix and changes nothing. */
  lemma FixSettingsIdempotent(s: Settings)
    ensures FixSettings(FixSettings(s).0) == (FixSettings(s).0, false)
  {
    FixSettingsSound(s);
    FixSettingsReportsExactly(FixSettings(s).0);
  }

  /** Keys outside the validated ones do not affect validity. */
  lemma ValidatedOutside(a: Settings, b: Settings, ks: set<string>)
    requires SameOutside(a, b, ks) && ks !! ValidatedKeys
    ensures Validated(a) == Validated(b)
  {
    DisplayValidOutside(a, b, ks);
    CountdownValidOutside(a, b, ks);
    AppearanceValidOutside(a, b, ks);
    BehaviourValidOutside(a, b, ks);
  }

  // ---------------------------------------------------------------------
  // _normalize_countdown_presets
  // ---------------------------------------------------------------------

  /** The `id` of a preset when it is a string. */
  function PresetId(p: Json): Option<string>
  {
    match Field(p, "id")
    case Some(JStr(id)) => Some(id)
    case _ => None
  }

  /** `isinstance(preset_id, str) and preset_id.strip()`. */
  predicate IdOk(p: Json)
  {
    PresetId(p).Some? && NonBlank(PresetId(p).value)
  }

  /** A preset list the normaliser leaves alone: non-empty, all dicts, ids present and distinct. */
  predicate WellFormedList(items: seq<Json>)
  {
    |items| > 0
    && (forall i :: 0 <= i < |items| ==> items[i].JObj? && IdOk(items[i]))
    && (forall i, j :: 0 <= i < j < |items| ==> PresetId(items[i]) != PresetId(items[j]))
  }

  predicate WellFormedPresets(presets: Option<Json>)
  {
    presets.Some? && presets.value.JList? && WellFormedList(presets.value.items)
  }

  /** `source`: the stored list when it is a non-empty list, the built-in presets otherwise. */
  function SourceList(presets: Option<Json>): (r: seq<Json>)
  {
    if presets.Some? && presets.value.JList? && presets.value.items != [] then presets.value.items
    else Constants.DefaultCountdownPresets()
  }

  /** The dict entries of a list, in order (`if not isinstance(entry, dict): continue`). */
  function Dicts(items: seq<Json>): (r: seq<Json>)
    ensures |r| <= |items|
    ensures forall k :: 0 <= k < |r| ==> r[k].JObj? && r[k] in items
  {
    if |items| == 0 then []
    else
      var front := Dicts(items[..|items| - 1]);
      var last := items[|items| - 1];
      assert forall x :: x in items[..|items| - 1] ==> x in items;
      front + (if last.JObj? then [last] else [])
  }

  /** The label stored under `label`: the current language's, else the first one. */
  function PrimaryLabel(labels: seq<(string, string)>, lang: string): string
  {
    if Get(labels, lang).Some? then Get(labels, lang).value
    else if labels != [] then labels[0].1
    else []
  }

  /** `name_key` stripped when it is a string, empty otherwise. */
  function NameKeyOf(entry: Json): string
  {
    match Field(entry, "name_key")
    case Some(JStr(s)) => Strip(s)
    case _ => []
  }

  /** The labels of a normalised entry: cleaned `labels`, plus the legacy `label` under the current language if that slot is free. */
  function EntryLabels(entry: Json, lang: string): (r: seq<(string, string)>)
    ensures CleanLabelMap(r)
  {
    var labels := PresetLabels(entry);
    match LegacyLabel(entry)
    case Some(t) =>
      StripIdempotent(Field(entry, "label").value.s);
      if lang in KeySet(labels) then labels
      else
        PutClean(labels, lang, t);
        SetDefault(labels, lang, t)
    case None => labels
  }

  /** The entry `_normalize_countdown_presets` builds from one dict, given its final id. */
  function NormalizeEntry(entry: Json, id: string, lang: string): Json
  {
    var labels := EntryLabels(entry, lang);
    JObj(EntryFields(id, PresetHms(entry), PrimaryLabel(labels, lang), labels, NameKeyOf(entry)))
  }

  /** The fields of a normalised entry, in the order the normaliser writes them. */
  function EntryFields(id: string, hms: (int, int, int), primary: string, labels: seq<(string, string)>,
                       nameKey: string): seq<(string, Json)>
  {
    var t3 := if nameKey != [] then [("name_key", JStr(nameKey))] else [];
    var t2 := (if labels != [] then [("labels", LabelsJson(labels))] else []) + t3;
    var t1 := (if primary != [] then [("label", JStr(primary))] else []) + t2;
    [("id", JStr(id))] + ([("mode", JStr("countdown"))] + ([("hours", JInt(hms.0))]
      + ([("minutes", JInt(hms.1))] + ([("seconds", JInt(hms.2))] + t1))))
  }

  /** Looking a key up in a normalised entry. */
  lemma NormalizeEntryGet(entry: Json, id: string, lang: string, k: string)
    ensures var hms := PresetHms(entry);
      var labels := EntryLabels(entry, lang);
      var primary := PrimaryLabel(labels, lang);
      var nameKey := NameKeyOf(entry);
      Field(NormalizeEntry(entry, id, lang), k) ==
        if k == "id" then Some(JStr(id))
        else if k == "mode" then Some(JStr("countdown"))
        else if k == "hours" then Some(JInt(hms.0))
        else if k == "minutes" then Some(JInt(hms.1))
        else if k == "seconds" then Some(JInt(hms.2))
        else if k == "label" && primary != [] then Some(JStr(primary))
        else if k == "labels" && labels != [] then Some(LabelsJson(labels))
        else if k == "name_key" && nameKey != [] then Some(JStr(nameKey))
        else None
  {
    var labels := EntryLabels(entry, lang);
    EntryFieldsGet(id, PresetHms(entry), PrimaryLabel(labels, lang), labels, NameKeyOf(entry), k);
  }

  lemma EntryFieldsGet(id: string, hms: (int, int, int), primary: string, labels: seq<(string, string)>,
                       nameKey: string, k: string)
    ensures Get(EntryFields(id, hms, primary, labels, nameKey), k) ==
        if k == "id" then Some(JStr(id))
        else if k == "mode" then Some(JStr("countdown"))
        else if k == "hours" then Some(JInt(hms.0))
        else if k == "minutes" then Some(JInt(hms.1))
        else if k == "seconds" then Some(JInt(hms.2))
        else if k == "label" && primary != [] then Some(JStr(primary))
        else if k == "labels" && labels != [] then Some(LabelsJson(labels))
        else if k == "name_key" && nameKey != [] then Some(JStr(nameKey))
        else None
  {
    var t3 := if nameKey != [] then [("name_key", JStr(nameKey))] else [];
    var t2 := (if labels != [] then [("labels", LabelsJson(labels))] else []) + t3;
    var t1 := (if primary != [] then [("label", JStr(primary))] else []) + t2;
    var h5 := [("seconds", JInt(hms.2))] + t1;
    var h4 := [("minutes", JInt(hms.1))] + h5;
    var h3 := [("hours", JInt(hms.0))] + h4;
    var h2 := [("mode", JStr("countdown"))] + h3;
    GetCons(("id", JStr(id)), h2, k);
    GetCons(("mode", JStr("countdown")), h3, k);
    GetCons(("hours", JInt(hms.0)), h4, k);
    GetCons(("minutes", JInt(hms.1)), h5, k);
    GetCons(("seconds", JInt(hms.2)), t1, k);
    if primary != [] {
      GetCons(("label", JStr(primary)), t2, k);
    }
    if labels != [] {
      GetCons(("labels", LabelsJson(labels)), t3, k);
    }
    if nameKey != [] {
      GetCons(("name_key", JStr(nameKey)), [], k);
    }
  }

  /** A normalised entry has the given id, mode `countdown`, clamped fields, and its labels. */
  lemma NormalizeEntryFields(entry: Json, id: string, lang: string)
    ensures var r := NormalizeEntry(entry, id, lang);
      PresetId(r) == Some(id)
      && Field(r, "mode") == Some(JStr("countdown"))
      && Field(r, "hours") == Some(JInt(ClampInt(GetField(entry, "hours"), 0, 99)))
      && Field(r, "minutes") == Some(JInt(ClampInt(GetField(entry, "minutes"), 0, 59)))
      && Field(r, "seconds") == Some(JInt(ClampInt(GetField(entry, "seconds"), 0, 59)))
      && Field(r, "labels") == (if EntryLabels(entry, lang) != [] then Some(LabelsJson(EntryLabels(entry, lang))) else None)
      && Field(r, "label") == (if PrimaryLabel(EntryLabels(entry, lang), lang) != [] then Some(JStr(PrimaryLabel(EntryLabels(entry, lang), lang))) else None)
  {
    NormalizeEntryGet(entry, id, lang, "id");
    NormalizeEntryGet(entry, id, lang, "mode");
    NormalizeEntryGet(entry, id, lang, "hours");
    NormalizeEntryGet(entry, id, lang, "minutes");
    NormalizeEntryGet(entry, id, lang, "seconds");
    NormalizeEntryGet(entry, id, lang, "labels");
    NormalizeEntryGet(entry, id, lang, "label");
  }

  /** A normalised entry carries its id and is a valid preset. */
  lemma NormalizeEntryValid(entry: Json, id: string, lang: string)
    ensures PresetId(NormalizeEntry(entry, id, lang)) == Some(id) && ValidPreset(NormalizeEntry(entry, id, lang))
  {
    NormalizeEntryFields(entry, id, lang);
  }

  /** The legacy `label` lands under the current language unless that language already has a label. */
  lemma EntryLabelsFold(entry: Json, lang: string)
    ensures Get(EntryLabels(entry, lang), lang) ==
      if Get(PresetLabels(entry), lang).Some? then Get(PresetLabels(entry), lang) else LegacyLabel(entry)
    ensures forall j :: j != lang ==> Get(EntryLabels(entry, lang), j) == Get(PresetLabels(entry), j)
  {
  }

  /** The stored `label` is the current language's label when there is one. */
  lemma PrimaryLabelPrefersLanguage(labels: seq<(string, string)>, lang: string)
    requires CleanLabelMap(labels)
    ensures Get(labels, lang).Some? ==> PrimaryLabel(labels, lang) == Get(labels, lang).value
    ensures PrimaryLabel(labels, lang) == [] <==> labels == []
  {
    if labels != [] && Get(labels, lang).None? {
      assert labels[0] in labels;
    }
    if Get(labels, lang).Some? {
      GetIsValue(labels, lang);
    }
  }

  /** The id oracle standing in for `uuid`: it never returns an id already taken, nor a blank one. */
  ghost predicate FreshIdOracle(freshId: (set<string>, string) -> string)
  {
    forall seen, base :: freshId(seen, base) !in seen && NonBlank(freshId(seen, base))
  }

  /**
   * The id of one entry: a missing or blank id is replaced by a fresh
   * `preset_...` id, and an id already seen gets a fresh suffix; the flag
   * says whether either happened.
   */
  function AssignId(entry: Json, seen: set<string>, freshId: (set<string>, string) -> string): (r: (string, bool))
    requires FreshIdOracle(freshId)
    ensures r.0 !in seen && NonBlank(r.0)
    ensures r.1 <==> !(IdOk(entry) && PresetId(entry).value !in seen)
    ensures !r.1 ==> r.0 == PresetId(entry).value
  {
    var id0 := if IdOk(entry) then PresetId(entry).value else freshId(seen, "preset");
    var id1 := if id0 in seen then freshId(seen, id0) else id0;
    (id1, !IdOk(entry) || id0 in seen)
  }

  /** The ids of the entries so far are pairwise distinct and non-blank. */
  predicate IdsDistinct(items: seq<Json>)
  {
    (forall i :: 0 <= i < |items| ==> IdOk(items[i]))
    && forall i, j :: 0 <= i < j < |items| ==> PresetId(items[i]) != PresetId(items[j])
  }

  /** Every entry has mode `countdown` and in-range integer fields. */
  predicate ValidPreset(p: Json)
  {
    p.JObj?
    && Field(p, "mode") == Some(JStr("countdown"))
    && (match Field(p, "hours") case Some(JInt(h)) => 0 <= h <= 99 case _ => false)
    && (match Field(p, "minutes") case Some(JInt(m)) => 0 <= m <= 59 case _ => false)
    && (match Field(p, "seconds") case Some(JInt(s)) => 0 <= s <= 59 case _ => false)
  }

  /** A string with no whitespace at either end strips to itself. */
  lemma StripKeeps(s: string)
    requires s != [] && !IsSpace(s[0]) && !IsSpace(s[|s| - 1])
    ensures Strip(s) == s && NonBlank(s)
  {
    assert TrimLeft(s) == s;
  }

  /** One built-in preset is a valid entry carrying its table id. */
  lemma BuiltinEntryValid(i: int)
    requires 0 <= i < |Constants.BuiltinPresets|
    ensures var d := Constants.DefaultCountdownPresets()[i];
      d.JObj? && ValidPreset(d) && PresetId(d) == Some(Constants.BuiltinPresets[i].0) && IdOk(d)
  {
    var (id, nk, h, m, s) := Constants.BuiltinPresets[i];
    assert Constants.DefaultCountdownPresets()[i] == Constants.Builtin(id, nk, h, m, s);
    Constants.BuiltinGet(id, nk, h, m, s, "id");
    Constants.BuiltinGet(id, nk, h, m, s, "mode");
    Constants.BuiltinGet(id, nk, h, m, s, "hours");
    Constants.BuiltinGet(id, nk, h, m, s, "minutes");
    Constants.BuiltinGet(id, nk, h, m, s, "seconds");
    Constants.BuiltinDurationsInRange();
    BuiltinIdNonBlank(i);
  }

  lemma BuiltinIdNonBlank(i: int)
    requires 0 <= i < |Constants.BuiltinPresets|
    ensures NonBlank(Constants.BuiltinPresets[i].0)
  {
    var id := Constants.BuiltinPresets[i].0;
    assert id != [] && !IsSpace(id[0]) && !IsSpace(id[|id| - 1]);
    StripKeeps(id);
  }

  /** The built-in presets are valid entries with distinct, non-blank ids. */
  lemma DefaultPresetsWellFormed()
    ensures WellFormedList(Constants.DefaultCountdownPresets())
    ensures forall i :: 0 <= i < |Constants.DefaultCountdownPresets()| ==> ValidPreset(Constants.DefaultCountdownPresets()[i])
    ensures forall i :: 0 <= i < |Constants.DefaultCountdownPresets()| ==>
      PresetId(Constants.DefaultCountdownPresets()[i]) == Some(Constants.BuiltinPresets[i].0)
  {
    var d := Constants.DefaultCountdownPresets();
    forall i | 0 <= i < |d|
      ensures d[i].JObj? && ValidPreset(d[i]) && PresetId(d[i]) == Some(Constants.BuiltinPresets[i].0) && IdOk(d[i])
    {
      BuiltinEntryValid(i);
    }
    Constants.BuiltinIdsDistinct();
  }

  /** Taking one more element of the source list. */
  lemma DictsSnoc(items: seq<Json>, i: int)
    requires 0 <= i < |items|
    ensures Dicts(items[..i + 1]) == Dicts(items[..i]) + (if items[i].JObj? then [items[i]] else [])
  {
    assert items[..i + 1][..i] == items[..i];
  }

  /** A non-dict entry spoils the source for good. */
  lemma CleanSourceStuck(src: seq<Json>, i: int)
    requires 0 <= i < |src| && !src[i].JObj?
    ensures !CleanSource(src[..i + 1])
  {
    assert src[..i + 1][i] == src[i];
  }

  /** A source list whose entries are all dicts with distinct non-blank ids. */
  predicate CleanSource(items: seq<Json>)
  {
    (forall k :: 0 <= k < |items| ==> items[k].JObj?) && IdsDistinct(items)
  }

  lemma {:induction false} DictsOfClean(items: seq<Json>)
    requires forall k :: 0 <= k < |items| ==> items[k].JObj?
    ensures Dicts(items) == items
  {
    if |items| > 0 {
      DictsOfClean(items[..|items| - 1]);
      assert items[..|items| - 1] + [items[|items| - 1]] == items;
    }
  }

  /** The loop's output so far is the given dicts normalised under the given ids. */
  ghost predicate EntriesMatch(dicts: seq<Json>, normalized: seq<Json>, ids: seq<string>, lang: string)
  {
    |normalized| == |ids| == |dicts|
    && forall k :: 0 <= k < |normalized| ==> normalized[k] == NormalizeEntry(dicts[k], ids[k], lang)
  }

  lemma EntriesMatchSnoc(dicts: seq<Json>, normalized: seq<Json>, ids: seq<string>, lang: string, x: Json, id: string)
    requires EntriesMatch(dicts, normalized, ids, lang)
    ensures EntriesMatch(dicts + [x], normalized + [NormalizeEntry(x, id, lang)], ids + [id], lang)
  {
    var e := NormalizeEntry(x, id, lang);
    var d, n, i := dicts + [x], normalized + [e], ids + [id];
    forall k | 0 <= k < |n| ensures n[k] == NormalizeEntry(d[k], i[k], lang) {
      if k < |normalized| {
        assert n[k] == normalized[k] && d[k] == dicts[k] && i[k] == ids[k];
      }
    }
  }

  /** What the normaliser's loop keeps true about ids, validity and the `changed` flag. */
  ghost predicate NormInv(src: seq<Json>, dicts: seq<Json>, normalized: seq<Json>, ids: seq<string>,
                          seen: set<string>, changed: bool, listGiven: bool)
  {
    |normalized| == |ids| == |dicts|
    && (forall k :: 0 <= k < |normalized| ==> PresetId(normalized[k]) == Some(ids[k]))
    && (forall k :: 0 <= k < |normalized| ==> ValidPreset(normalized[k]))
    && IdsDistinct(normalized)
    && (forall x :: x in seen <==> x in ids)
    && (changed <==> !listGiven || !CleanSource(src))
    && (IdsDistinct(dicts) ==> forall k :: 0 <= k < |ids| ==> PresetId(dicts[k]) == Some(ids[k]))
  }

  /** A new entry keeps the ids distinct when its id is fresh. */
  lemma AppendFreshId(normalized: seq<Json>, ids: seq<string>, e: Json, id: string)
    requires |normalized| == |ids| && IdsDistinct(normalized)
    requires forall k :: 0 <= k < |normalized| ==> PresetId(normalized[k]) == Some(ids[k])
    requires id !in ids && PresetId(e) == Some(id) && NonBlank(id)
    ensures IdsDistinct(normalized + [e])
  {
    var n := normalized + [e];
    forall i, j | 0 <= i < j < |n| ensures PresetId(n[i]) != PresetId(n[j]) {
      if j == |normalized| {
        assert ids[i] in ids;
      }
    }
  }

  /** Whether the source so far is clean, one entry further. */
  lemma CleanSourceSnoc(src: seq<Json>, i: int, ids: seq<string>)
    requires 0 <= i < |src|
    requires CleanSource(src[..i]) ==> |ids| == i && forall k :: 0 <= k < i ==> PresetId(src[k]) == Some(ids[k])
    ensures CleanSource(src[..i + 1]) <==>
      CleanSource(src[..i]) && src[i].JObj? && IdOk(src[i]) && PresetId(src[i]).value !in ids
  {
    var p := src[..i + 1];
    var q := src[..i];
    assert forall k :: 0 <= k < i ==> p[k] == q[k] == src[k];
    assert p[i] == src[i];
    if CleanSource(q) && src[i].JObj? && IdOk(src[i]) && PresetId(src[i]).value !in ids {
      forall k | 0 <= k < |p| ensures p[k].JObj? && IdOk(p[k]) {
        if k < i {
          assert p[k] == q[k];
        }
      }
      forall a, b | 0 <= a < b < |p| ensures PresetId(p[a]) != PresetId(p[b]) {
        if b == i {
          assert ids[a] in ids;
        } else {
          assert PresetId(q[a]) != PresetId(q[b]);
        }
      }
      assert CleanSource(p);
    }
    if CleanSource(p) {
      assert forall k :: 0 <= k < |q| ==> q[k].JObj? && IdOk(q[k]);
      assert forall a, b :: 0 <= a < b < |q| ==> PresetId(q[a]) == PresetId(p[a]) != PresetId(p[b]) == PresetId(q[b]);
      assert CleanSource(q);
      assert src[i].JObj? && IdOk(src[i]);
      forall k | 0 <= k < |ids| ensures ids[k] != PresetId(src[i]).value {
        assert PresetId(p[k]) != PresetId(p[i]);
      }
    }
  }

  /** One dict entry of the normaliser's loop, for an entry `e` that carries the assigned id. */
  lemma NormalizeStep(src: seq<Json>, i: int, dicts: seq<Json>, normalized: seq<Json>, ids: seq<string>,
                      seen: set<string>, changed: bool, listGiven: bool,
                      id: string, idChanged: bool, e: Json)
    requires 0 <= i < |src| && src[i].JObj?
    requires NormInv(src[..i], dicts, normalized, ids, seen, changed, listGiven)
    requires dicts == Dicts(src[..i])
    requires id !in seen && NonBlank(id)
    requires idChanged <==> !(IdOk(src[i]) && PresetId(src[i]).value !in seen)
    requires !idChanged ==> id == PresetId(src[i]).value
    requires PresetId(e) == Some(id) && ValidPreset(e)
    ensures NormInv(src[..i + 1], dicts + [src[i]], normalized + [e], ids + [id],
                    seen + {id}, changed || idChanged, listGiven)
  {
    AppendFreshId(normalized, ids, e, id);
    AppendEntry(normalized, ids, e, id);
    StepClean(src, i, dicts, ids, seen, changed, listGiven, idChanged);
    StepDictIds(dicts, ids, src[i], id, seen, idChanged);
  }

  /** The appended entry carries its id and is valid, like every entry before it. */
  lemma AppendEntry(normalized: seq<Json>, ids: seq<string>, e: Json, id: string)
    requires |normalized| == |ids|
    requires forall k :: 0 <= k < |normalized| ==> PresetId(normalized[k]) == Some(ids[k]) && ValidPreset(normalized[k])
    requires PresetId(e) == Some(id) && ValidPreset(e)
    ensures forall k :: 0 <= k < |normalized| + 1 ==>
      PresetId((normalized + [e])[k]) == Some((ids + [id])[k]) && ValidPreset((normalized + [e])[k])
  {
  }

  /** `changed` keeps recording whether the source so far is anything but clean. */
  lemma StepClean(src: seq<Json>, i: int, dicts: seq<Json>, ids: seq<string>,
                  seen: set<string>, changed: bool, listGiven: bool, idChanged: bool)
    requires 0 <= i < |src| && src[i].JObj?
    requires |ids| == |dicts| && dicts == Dicts(src[..i])
    requires IdsDistinct(dicts) ==> forall k :: 0 <= k < |ids| ==> PresetId(dicts[k]) == Some(ids[k])
    requires forall x :: x in seen <==> x in ids
    requires changed <==> !listGiven || !CleanSource(src[..i])
    requires idChanged <==> !(IdOk(src[i]) && PresetId(src[i]).value !in seen)
    ensures changed || idChanged <==> !listGiven || !CleanSource(src[..i + 1])
  {
    if CleanSource(src[..i]) {
      DictsOfClean(src[..i]);
    }
    CleanSourceSnoc(src, i, ids);
  }

  /** While the dicts read so far have distinct ids, the assigned ids are those ids. */
  lemma StepDictIds(dicts: seq<Json>, ids: seq<string>, entry: Json, id: string, seen: set<string>, idChanged: bool)
    requires |ids| == |dicts|
    requires IdsDistinct(dicts) ==> forall k :: 0 <= k < |ids| ==> PresetId(dicts[k]) == Some(ids[k])
    requires forall x :: x in seen <==> x in ids
    requires idChanged <==> !(IdOk(entry) && PresetId(entry).value !in seen)
    requires !idChanged ==> id == PresetId(entry).value
    ensures IdsDistinct(dicts + [entry]) ==>
      forall k :: 0 <= k < |ids| + 1 ==> PresetId((dicts + [entry])[k]) == Some((ids + [id])[k])
  {
    var d := dicts + [entry];
    if IdsDistinct(d) {
      IdsDistinctPrefix(dicts, entry);
      forall k | 0 <= k < |ids| ensures ids[k] != PresetId(entry).value {
        assert PresetId(d[k]) != PresetId(d[|dicts|]);
      }
      assert !idChanged;
    }
  }

  /** One dict entry of the normaliser's loop: its id assigned, the entry normalised and appended. */
  lemma NormalizeDictStep(src: seq<Json>, i: int, dicts: seq<Json>, normalized: seq<Json>, ids: seq<string>,
                          seen: set<string>, changed: bool, listGiven: bool, lang: string,
                          freshId: (set<string>, string) -> string, id: string, idChanged: bool)
    requires FreshIdOracle(freshId)
    requires 0 <= i < |src| && src[i].JObj?
    requires NormInv(src[..i], dicts, normalized, ids, seen, changed, listGiven)
    requires EntriesMatch(dicts, normalized, ids, lang)
    requires dicts == Dicts(src[..i])
    requires (id, idChanged) == AssignId(src[i], seen, freshId)
    ensures NormInv(src[..i + 1], dicts + [src[i]], normalized + [NormalizeEntry(src[i], id, lang)], ids + [id],
                    seen + {id}, changed || idChanged, listGiven)
    ensures EntriesMatch(dicts + [src[i]], normalized + [NormalizeEntry(src[i], id, lang)], ids + [id], lang)
  {
    var e := NormalizeEntry(src[i], id, lang);
    NormalizeEntryValid(src[i], id, lang);
    NormalizeStep(src, i, dicts, normalized, ids, seen, changed, listGiven, id, idChanged, e);
    EntriesMatchSnoc(dicts, normalized, ids, lang, src[i], id);
  }

  lemma IdsDistinctPrefix(dicts: seq<Json>, x: Json)
    requires IdsDistinct(dicts + [x])
    ensures IdsDistinct(dicts) && IdOk(x)
  {
    var d := dicts + [x];
    assert forall k :: 0 <= k < |dicts| ==> d[k] == dicts[k];
    assert d[|dicts|] == x;
  }

  /** A non-dict entry of the normaliser's loop. */
  lemma NormalizeSkip(src: seq<Json>, i: int, dicts: seq<Json>, normalized: seq<Json>, ids: seq<string>,
                      seen: set<string>, changed: bool, listGiven: bool)
    requires 0 <= i < |src| && !src[i].JObj?
    requires NormInv(src[..i], dicts, normalized, ids, seen, changed, listGiven)
    ensures NormInv(src[..i + 1], dicts, normalized, ids, seen, true, listGiven)
  {
    CleanSourceStuck(src, i);
  }

  /** What the loop's invariant gives once every entry of the source has been seen. */
  lemma NormalizeFinish(presets: Option<Json>, dicts: seq<Json>, normalized: seq<Json>, ids: seq<string>,
                        seen: set<string>, changed: bool, listGiven: bool, lang: string)
    requires listGiven == (presets.Some? && presets.value.JList? && presets.value.items != [])
    requires dicts == Dicts(SourceList(presets))
    requires NormInv(SourceList(presets), dicts, normalized, ids, seen, changed, listGiven)
    requires EntriesMatch(dicts, normalized, ids, lang)
    ensures |normalized| == |dicts|
    ensures |normalized| > 0 ==> WellFormedList(normalized)
    ensures forall k :: 0 <= k < |normalized| ==> ValidPreset(normalized[k])
    ensures |normalized| > 0 ==> (changed <==> !WellFormedPresets(presets))
    ensures |normalized| == 0 ==> !WellFormedPresets(presets)
    ensures forall k :: 0 <= k < |dicts| ==> normalized[k] == NormalizeEntry(dicts[k], PresetId(normalized[k]).value, lang)
    ensures IdsDistinct(dicts) ==> forall k :: 0 <= k < |dicts| ==> PresetId(normalized[k]) == PresetId(dicts[k])
  {
    var src := SourceList(presets);
    if CleanSource(src) {
      DictsOfClean(src);
    }
    WellFormedIsClean(presets);
    if |normalized| > 0 {
      assert normalized[0] in normalized;
      NormalizedWellFormed(normalized);
    }
    FinishIds(dicts, normalized, ids, lang);
  }

  /** Each entry was normalised under its own id, which is the stored one when the stored ids were distinct. */
  lemma FinishIds(dicts: seq<Json>, normalized: seq<Json>, ids: seq<string>, lang: string)
    requires EntriesMatch(dicts, normalized, ids, lang)
    requires forall k :: 0 <= k < |normalized| ==> PresetId(normalized[k]) == Some(ids[k])
    requires IdsDistinct(dicts) ==> forall k :: 0 <= k < |ids| ==> PresetId(dicts[k]) == Some(ids[k])
    ensures forall k :: 0 <= k < |dicts| ==> normalized[k] == NormalizeEntry(dicts[k], PresetId(normalized[k]).value, lang)
    ensures IdsDistinct(dicts) ==> forall k :: 0 <= k < |dicts| ==> PresetId(normalized[k]) == PresetId(dicts[k])
  {
  }

  /** Stored presets are well formed exactly when they are a non-empty list that is a clean source. */
  lemma WellFormedIsClean(presets: Option<Json>)
    ensures WellFormedPresets(presets) <==>
      (presets.Some? && presets.value.JList? && presets.value.items != []) && CleanSource(SourceList(presets))
  {
  }

  lemma NormalizedWellFormed(normalized: seq<Json>)
    requires |normalized| > 0 && IdsDistinct(normalized)
    requires forall k :: 0 <= k < |normalized| ==> ValidPreset(normalized[k])
    ensures WellFormedList(normalized)
  {
  }

  /** The loop's state after some of the source entries: the entries built, the `changed` flag, the ids seen and, in order, the ids assigned. */
  datatype ScanState = ScanState(normalized: seq<Json>, changed: bool, seen: set<string>, ids: seq<string>)

  /** The loop's invariant, for the state after the first `i` source entries. */
  ghost predicate ScanInv(src: seq<Json>, i: int, s: ScanState, listGiven: bool, lang: string)
    requires 0 <= i <= |src|
  {
    NormInv(src[..i], Dicts(src[..i]), s.normalized, s.ids, s.seen, s.changed, listGiven)
    && EntriesMatch(Dicts(src[..i]), s.normalized, s.ids, lang)
  }

  /** One more entry read: a dict is appended under its assigned id, anything else only sets `changed`. */
  predicate Stepped(entry: Json, s: ScanState, t: ScanState, lang: string, freshId: (set<string>, string) -> string)
    requires FreshIdOracle(freshId)
  {
    var a := AssignId(entry, s.seen, freshId);
    && (entry.JObj? ==> forall l :: l == lang ==> t.normalized == s.normalized + [NormalizeEntry(entry, a.0, l)])
    && (entry.JObj? ==> t.changed == (s.changed || a.1) && t.seen == s.seen + {a.0} && t.ids == s.ids + [a.0])
    && (!entry.JObj? ==> t.normalized == s.normalized && t.changed && t.seen == s.seen && t.ids == s.ids)
  }

  /** Reading one more entry keeps the invariant. */
  lemma ScanInvStep(src: seq<Json>, k: int, s: ScanState, t: ScanState, listGiven: bool, lang: string,
                    freshId: (set<string>, string) -> string)
    requires FreshIdOracle(freshId)
    requires 0 <= k < |src|
    requires ScanInv(src, k, s, listGiven, lang)
    requires Stepped(src[k], s, t, lang, freshId)
    ensures ScanInv(src, k + 1, t, listGiven, lang)
  {
    DictsSnoc(src, k);
    if src[k].JObj? {
      var a := AssignId(src[k], s.seen, freshId);
      NormalizeDictStep(src, k, Dicts(src[..k]), s.normalized, s.ids, s.seen, s.changed, listGiven, lang, freshId, a.0, a.1);
    } else {
      NormalizeSkip(src, k, Dicts(src[..k]), s.normalized, s.ids, s.seen, s.changed, listGiven);
      assert Dicts(src[..k]) + [] == Dicts(src[..k]);
    }
  }

  /** What the invariant gives once every source entry has been read. */
  lemma ScanResult(presets: Option<Json>, lang: string, src: seq<Json>, listGiven: bool, s: ScanState)
    requires src == SourceList(presets)
    requires listGiven == (presets.Some? && presets.value.JList? && presets.value.items != [])
    requires ScanInv(src, |src|, s, listGiven, lang)
    ensures var dicts := Dicts(src);
      && |s.normalized| == |dicts|
      && (|s.normalized| > 0 ==> WellFormedList(s.normalized))
      && (forall k :: 0 <= k < |s.normalized| ==> ValidPreset(s.normalized[k]))
      && (|s.normalized| > 0 ==> (s.changed <==> !WellFormedPresets(presets)))
      && (|s.normalized| == 0 ==> !WellFormedPresets(presets))
      && (forall k :: 0 <= k < |dicts| ==> s.normalized[k] == NormalizeEntry(dicts[k], PresetId(s.normalized[k]).value, lang))
      && (IdsDistinct(dicts) ==> forall k :: 0 <= k < |dicts| ==> PresetId(s.normalized[k]) == PresetId(dicts[k]))
  {
    assert src[..|src|] == src;
    NormalizeFinish(presets, Dicts(src), s.normalized, s.ids, s.seen, s.changed, listGiven, lang);
  }

  /** The loop body: reads the entry at `i`, giving a dict a fresh id when its own is missing or taken. */
  method ScanOne(src: seq<Json>, i: int, listGiven: bool, lang: string, freshId: (set<string>, string) -> string,
                 normalized: seq<Json>, changed: bool, seen: set<string>, ghost ids: seq<string>)
    returns (normalized': seq<Json>, changed': bool, seen': set<string>, ghost ids': seq<string>, next: int)
    requires FreshIdOracle(freshId)
    requires 0 <= i < |src|
    ensures next == i + 1
    requires ScanInv(src, i, ScanState(normalized, changed, seen, ids), listGiven, lang)
    ensures Stepped(src[i], ScanState(normalized, changed, seen, ids), ScanState(normalized', changed', seen', ids'), lang, freshId)
    ensures ScanInv(src, next, ScanState(normalized', changed', seen', ids'), listGiven, lang)
  {
    next := i + 1;
    var entry := src[i];
    if entry.JObj? {
      var a := AssignId(entry, seen, freshId);
      var e := BuildEntry(entry, a.0, lang);
      normalized', changed', seen', ids' := normalized + [e], changed || a.1, seen + {a.0}, ids + [a.0];
    } else {
      normalized', changed', seen', ids' := normalized, true, seen, ids;
    }
    ScanInvStep(src, i, ScanState(normalized, changed, seen, ids), ScanState(normalized', changed', seen', ids'), listGiven, lang, freshId);
  }

  method BuildEntry(entry: Json, id: string, lang: string) returns (e: Json)
    ensures PresetId(e) == Some(id) && ValidPreset(e)
    ensures forall l :: l == lang ==> e == NormalizeEntry(entry, id, l)
  {
    e := NormalizeEntry(entry, id, lang);
    NormalizeEntryValid(entry, id, lang);
  }

  /** Falls back to the defaults when no dict was read; the stored presets are then unclean. */
  method FinishScan(presets: Option<Json>, lang: string, src: seq<Json>, listGiven: bool,
                    scanned: seq<Json>, scanChanged: bool, ghost s: ScanState)
    returns (normalized: seq<Json>, changed: bool)
    requires src == SourceList(presets)
    requires listGiven == (presets.Some? && presets.value.JList? && presets.value.items != [])
    requires s.normalized == scanned && s.changed == scanChanged
    requires ScanInv(src, |src|, s, listGiven, lang)
    ensures WellFormedList(normalized)
    ensures forall k :: 0 <= k < |normalized| ==> ValidPreset(normalized[k])
    ensures changed <==> !WellFormedPresets(presets)
    ensures var dicts := Dicts(SourceList(presets));
      |dicts| > 0 ==> (|normalized| == |dicts|
        && forall k :: 0 <= k < |dicts| ==> normalized[k] == NormalizeEntry(dicts[k], PresetId(normalized[k]).value, lang))
    ensures Dicts(SourceList(presets)) == [] ==> normalized == Constants.DefaultCountdownPresets()
    ensures var dicts := Dicts(SourceList(presets));
      |dicts| > 0 && IdsDistinct(dicts) ==> forall k :: 0 <= k < |dicts| ==> PresetId(normalized[k]) == PresetId(dicts[k])
  {
    ScanResult(presets, lang, src, listGiven, s);
    normalized, changed := scanned, scanChanged;
    if |normalized| == 0 {
      normalized := Constants.DefaultCountdownPresets();
      changed := true;
      DefaultPresetsWellFormed();
    }
  }

  /**
   * `normalized` is a list `_normalize_countdown_presets` returns for the
   * stored `presets` under language `lang`: well formed and valid, one
   * entry per stored dict, built by `NormalizeEntry` under its final id
   * (the built-in presets when there is no dict), and the stored ids kept
   * when they are distinct. Only the fresh ids are left open.
   */
  predicate NormalizedFrom(presets: Option<Json>, lang: string, normalized: seq<Json>)
  {
    && WellFormedList(normalized)
    && (forall k :: 0 <= k < |normalized| ==> ValidPreset(normalized[k]))
    && var dicts := Dicts(SourceList(presets));
    && (|dicts| > 0 ==> (|normalized| == |dicts|
         && forall k :: 0 <= k < |dicts| ==> normalized[k] == NormalizeEntry(dicts[k], PresetId(normalized[k]).value, lang)))
    && (dicts == [] ==> normalized == Constants.DefaultCountdownPresets())
    && (|dicts| > 0 && IdsDistinct(dicts) ==> forall k :: 0 <= k < |dicts| ==> PresetId(normalized[k]) == PresetId(dicts[k]))
  }

  /**
   * `_normalize_countdown_presets`: the normalised preset list and whether
   * it differs in structure from the stored one.
   */
  method NormalizeCountdownPresets(presets: Option<Json>, lang: string, freshId: (set<string>, string) -> string)
    returns (normalized: seq<Json>, changed: bool)
    requires FreshIdOracle(freshId)
    ensures NormalizedFrom(presets, lang, normalized)
    ensures changed <==> !WellFormedPresets(presets)
  {
    var src := SourceList(presets);
    var listGiven := presets.Some? && presets.value.JList? && presets.value.items != [];
    var scanned, scanChanged, s := ScanSource(src, listGiven, lang, freshId);
    normalized, changed := FinishScan(presets, lang, src, listGiven, scanned, scanChanged, s);
  }

  /** The loop over the source list: every entry read, the invariant holding at the end. */
  method ScanSource(src: seq<Json>, listGiven: bool, lang: string, freshId: (set<string>, string) -> string)
    returns (normalized: seq<Json>, changed: bool, ghost s: ScanState)
    requires FreshIdOracle(freshId)
    ensures s.normalized == normalized && s.changed == changed
    ensures ScanInv(src, |src|, s, listGiven, lang)
  {
    changed := !listGiven;
    normalized := [];
    var seen: set<string> := {};
    ghost var ids: seq<string> := [];
    NormalizeStart(src, listGiven);
    var i := 0;
    while i < |src|
      invariant 0 <= i <= |src|
      invariant ScanInv(src, i, ScanState(normalized, changed, seen, ids), listGiven, lang)
    {
      normalized, changed, seen, ids, i := ScanOne(src, i, listGiven, lang, freshId, normalized, changed, seen, ids);
    }
    s := ScanState(normalized, changed, seen, ids);
  }

  /** Before the loop nothing has been read and `changed` only says whether a list was given. */
  lemma NormalizeStart(src: seq<Json>, listGiven: bool)
    ensures Dicts(src[..0]) == []
    ensures NormInv(src[..0], [], [], [], {}, !listGiven, listGiven)
  {
    assert src[..0] == [];
  }

  // ---------------------------------------------------------------------
  // load_settings and the constructor's startup block
  // ---------------------------------------------------------------------

  /** After the backfill `timer_mode_key` is always present, so the migration that derives it never runs. */
  lemma ModeKeyMigrationUnreachable(s: Settings)
    ensures "timer_mode_key" in DefaultSettings()
    ensures "timer_mode_key" in Backfill(s, DefaultSettings())
  {
  }

  /** The text key naming a mode (`key_to_text`). */
  function ModeTextKey(key: string): string
  {
    if key == "countup" then "count_up_mode" else if key == "clock" then "clock_mode" else "countdown_mode"
  }

  /**
   * The constructor's startup block: with behaviour `fixed` the stored
   * fixed mode key (or `countdown` when it is not a mode key) becomes the
   * current mode, together with its translated text.
   */
  function StartupOverride(s: Settings, tr: string -> string): (r: Settings)
    ensures GetOr(s, "startup_mode_behavior", JStr("restore")) != JStr("fixed") ==> r == s
    ensures GetOr(s, "startup_mode_behavior", JStr("restore")) == JStr("fixed") ==>
      "timer_mode_key" in r && OneOf(r["timer_mode_key"], ModeKeys)
      && (OneOf(GetOr(s, "startup_fixed_mode_key", JStr("countdown")), ModeKeys) ==>
            r["timer_mode_key"] == GetOr(s, "startup_fixed_mode_key", JStr("countdown")))
      && "timer_mode" in r && r["timer_mode"] == JStr(tr(ModeTextKey(r["timer_mode_key"].s)))
    ensures SameOutside(r, s, {"timer_mode_key", "timer_mode"})
  {
    if GetOr(s, "startup_mode_behavior", JStr("restore")) == JStr("fixed") then
      var fixed := GetOr(s, "startup_fixed_mode_key", JStr("countdown"));
      var key := if OneOf(fixed, ModeKeys) then fixed.s else "countdown";
      s["timer_mode_key" := JStr(key)]["timer_mode" := JStr(tr(ModeTextKey(key)))]
    else s
  }

  /** The startup override leaves the presets alone. */
  lemma StartupKeepsPresets(s: Settings, tr: string -> string, k: string)
    requires k in s && k != "timer_mode_key" && k != "timer_mode"
    ensures k in StartupOverride(s, tr) && StartupOverride(s, tr)[k] == s[k]
  {
  }

  /** The startup override keeps validated settings valid. */
  lemma StartupKeepsValidated(s: Settings, tr: string -> string)
    requires Validated(s)
    ensures Validated(StartupOverride(s, tr))
  {
    var r := StartupOverride(s, tr);
    var ks := {"timer_mode_key", "timer_mode"};
    assert GetOr(r, "timer_mode_key", JNull) == GetOr(s, "timer_mode_key", JNull) || OneOf(GetOr(r, "timer_mode_key", JNull), ModeKeys);
    GetOrOutside(r, s, ks, "font_size", JInt(96));
    GetOrOutside(r, s, ks, "bg_opacity", JInt(200));
    CountdownValidOutside(r, s, ks);
    AppearanceValidOutside(r, s, ks);
    BehaviourValidOutside(r, s, ks);
  }
}
