/**
 * What the settings dialog reads from and writes back to the window's
 * settings: the choice boxes and their keys, the shortcut editors, and the
 * bulk write of `apply_settings`.
 */
module DialogSettings {
  import opened PyJson
  import opened SettingsText
  import opened SettingsStore
  import TimerWindowModel
  import Constants

  // ---------------------------------------------------------------------
  // Choice boxes: index <-> stored key
  // ---------------------------------------------------------------------

  /** `{'countup': 0, 'countdown': 1, 'clock': 2}.get(key, 1)`. */
  function ModeIndexOf(key: Json): (r: int)
    ensures 0 <= r < |ModeKeys|
    ensures key.JStr? && key.s in ModeKeys ==> ModeKeys[r] == key.s
    ensures !(key.JStr? && key.s in ModeKeys) ==> r == 1
  {
    if key == JStr("countup") then 0 else if key == JStr("clock") then 2 else 1
  }

  /** `{0: 'countup', 1: 'countdown', 2: 'clock'}.get(index, 'countdown')`. */
  function ModeKeyForIndex(i: int): (r: string)
    ensures r in ModeKeys
    ensures 0 <= i < |ModeKeys| ==> r == ModeKeys[i]
    ensures !(0 <= i < |ModeKeys|) ==> r == "countdown"
  {
    if i == 0 then "countup" else if i == 2 then "clock" else "countdown"
  }

  /** Reading a mode key into the box and writing the box back are inverse. */
  lemma ModeIndexRoundTrip(i: int, key: string)
    ensures 0 <= i < |ModeKeys| ==> ModeIndexOf(JStr(ModeKeyForIndex(i))) == i
    ensures key in ModeKeys ==> ModeKeyForIndex(ModeIndexOf(JStr(key))) == key
  {
  }

  /**
   * The mode box's initial index: the stored `timer_mode_key`, or when it is
   * falsy the key derived from the display text `timer_mode`.
   */
  function DialogModeIndex(s: Settings): (r: int)
    ensures 0 <= r < |ModeKeys|
    ensures OneOf(GetOr(s, "timer_mode_key", JNull), ModeKeys) ==> ModeKeys[r] == GetOr(s, "timer_mode_key", JNull).s
  {
    var key := GetOr(s, "timer_mode_key", JNull);
    ModeIndexOf(if Truthy(key) then key else JStr(DeriveModeKey(GetOr(s, "timer_mode", JStr("")))))
  }

  /** The startup-mode box's initial index, from `startup_fixed_mode_key`. */
  function FixedModeIndex(s: Settings): (r: int)
    ensures 0 <= r < |ModeKeys|
    ensures OneOf(GetOr(s, "startup_fixed_mode_key", JStr("countdown")), ModeKeys) ==>
      ModeKeys[r] == GetOr(s, "startup_fixed_mode_key", JStr("countdown")).s
  {
    ModeIndexOf(GetOr(s, "startup_fixed_mode_key", JStr("countdown")))
  }

  /** The countdown action box: index 0, 1 and 2 stand for beep, flash and both. */
  function ActionKeyForIndex(i: int): (r: string)
    ensures r in ActionKeys
    ensures 0 <= i < |ActionKeys| ==> r == ActionKeys[i]
  {
    if i == 1 then "flash" else if i == 2 then "beep_flash" else "beep"
  }

  /** The language box shows `简体中文` for `zh_CN` and `English` for everything else. */
  function LanguageText(s: Settings): (r: string)
    ensures r == "简体中文" <==> GetOr(s, "language", JStr("zh_CN")) == JStr("zh_CN")
  {
    if GetOr(s, "language", JStr("zh_CN")) == JStr("zh_CN") then "简体中文" else "English"
  }

  /** The language `apply_settings` stores for the box's text. */
  function LanguageForText(t: string): (r: string)
    ensures r in Languages
    ensures r == "zh_CN" <==> t == "简体中文"
  {
    if t == "简体中文" then "zh_CN" else "en_US"
  }

  /** A supported language survives being shown in the box and written back. */
  lemma LanguageRoundTrip(s: Settings)
    requires OneOf(GetOr(s, "language", JStr("zh_CN")), Languages)
    ensures JStr(LanguageForText(LanguageText(s))) == GetOr(s, "language", JStr("zh_CN"))
  {
  }

  /** The AM/PM style box: index 0 for `en`, 1 for anything else. */
  function AmPmStyleIndex(s: Settings): (r: int)
    ensures r == 0 <==> GetOr(s, "clock_am_pm_style", JStr("zh")) == JStr("en")
  {
    if GetOr(s, "clock_am_pm_style", JStr("zh")) == JStr("en") then 0 else 1
  }

  function AmPmStyleForIndex(i: int): (r: string)
    ensures r == "en" <==> i == 0
    ensures r != "en" ==> r == "zh"
  {
    if i == 0 then "en" else "zh"
  }

  /** The AM/PM position box: index 0 for `before`, 1 for anything else. */
  function AmPmPositionIndex(s: Settings): (r: int)
    ensures r == 0 <==> GetOr(s, "clock_am_pm_position", JStr("before")) == JStr("before")
  {
    if GetOr(s, "clock_am_pm_position", JStr("before")) == JStr("before") then 0 else 1
  }

  function AmPmPositionForIndex(i: int): (r: string)
    ensures r == "before" <==> i == 0
    ensures r != "before" ==> r == "after"
  {
    if i == 0 then "before" else "after"
  }

  /** The clock format box: index 0 (24-hour) when `clock_format_24h` is truthy. */
  function ClockFormatIndex(s: Settings): (r: int)
    ensures r == 0 <==> Truthy(GetOr(s, "clock_format_24h", JBool(true)))
    ensures r == 0 || r == 1
  {
    if Truthy(GetOr(s, "clock_format_24h", JBool(true))) then 0 else 1
  }

  /** The startup behaviour box: index 0 for `restore`, 1 for anything else. */
  function BehaviorIndex(s: Settings): (r: int)
    ensures r == 0 <==> GetOr(s, "startup_mode_behavior", JStr("restore")) == JStr("restore")
  {
    if GetOr(s, "startup_mode_behavior", JStr("restore")) == JStr("restore") then 0 else 1
  }

  function BehaviorForIndex(i: int): (r: string)
    ensures r in StartupBehaviors
    ensures r == "restore" <==> i == 0
  {
    if i == 0 then "restore" else "fixed"
  }

  // ---------------------------------------------------------------------
  // Shortcut editors
  // ---------------------------------------------------------------------

  /** No non-empty key sequence is bound twice. */
  ghost predicate NoClash(edits: seq<(string, string)>)
  {
    forall i, j :: 0 <= i < j < |edits| && edits[i].1 != [] ==> edits[i].1 != edits[j].1
  }

  /** A conflict report `(name, earlier name, sequence)` names two editors holding the same sequence. */
  ghost predicate IsConflict(edits: seq<(string, string)>, c: (string, string, string))
  {
    exists i, j :: 0 <= i < j < |edits| && edits[j].1 != [] && edits[i].1 == edits[j].1
      && c == (edits[j].0, edits[i].0, edits[j].1)
  }

  /** What the validation loop has learnt about the first `n` editors. */
  ghost predicate UsedFaithful(edits: seq<(string, string)>, n: int, used: map<string, string>)
    requires 0 <= n <= |edits|
  {
    (forall c :: c in used ==> c != [] && exists i :: 0 <= i < n && edits[i] == (used[c], c))
    && forall i :: 0 <= i < n && edits[i].1 != [] ==> edits[i].1 in used
  }

  /** Every report names a real conflict. */
  ghost predicate AllConflicts(edits: seq<(string, string)>, conflicts: seq<(string, string, string)>)
  {
    forall k :: 0 <= k < |conflicts| ==> IsConflict(edits, conflicts[k])
  }

  /** The state of the validation loop after the first `n` editors. */
  ghost predicate Scanned(edits: seq<(string, string)>, n: int, used: map<string, string>,
                          conflicts: seq<(string, string, string)>)
    requires 0 <= n <= |edits|
  {
    UsedFaithful(edits, n, used)
    && (NoClash(edits[..n]) <==> conflicts == [])
    && AllConflicts(edits, conflicts)
  }

  /**
   * `_validate_shortcuts`: the dialog may be applied exactly when no two
   * editors hold the same non-empty key sequence; every reported conflict
   * names a later editor and the first one holding its sequence.
   */
  method ValidateShortcuts(edits: seq<(string, string)>) returns (ok: bool, conflicts: seq<(string, string, string)>)
    ensures ok <==> NoClash(edits)
    ensures ok <==> conflicts == []
    ensures forall k :: 0 <= k < |conflicts| ==> IsConflict(edits, conflicts[k])
  {
    var used: map<string, string> := map[];
    conflicts := [];
    var n := 0;
    while n < |edits|
      invariant 0 <= n <= |edits|
      invariant Scanned(edits, n, used, conflicts)
    {
      var (name, chord) := edits[n];
      if chord != [] {
        if chord in used {
          ClashStep(edits, n, used, conflicts);
          conflicts := conflicts + [(name, used[chord], chord)];
        } else {
          FreshStep(edits, n, used, conflicts);
          used := used[chord := name];
        }
      } else {
        EmptyStep(edits, n, used, conflicts);
      }
      n := n + 1;
    }
    assert edits[..n] == edits;
    ok := conflicts == [];
  }

  /** An editor whose sequence an earlier one holds is reported. */
  lemma ClashStep(edits: seq<(string, string)>, n: int, used: map<string, string>, conflicts: seq<(string, string, string)>)
    requires 0 <= n < |edits| && Scanned(edits, n, used, conflicts)
    requires edits[n].1 != [] && edits[n].1 in used
    ensures Scanned(edits, n + 1, used, conflicts + [(edits[n].0, used[edits[n].1], edits[n].1)])
  {
    var c := edits[n].1;
    var i :| 0 <= i < n && edits[i] == (used[c], c);
    assert edits[..n + 1][i] == edits[i] && edits[..n + 1][n] == edits[n];
    assert IsConflict(edits, (edits[n].0, used[c], c));
    var cs := conflicts + [(edits[n].0, used[c], c)];
    forall k | 0 <= k < |cs|
      ensures IsConflict(edits, cs[k])
    {
      if k < |conflicts| {
        assert cs[k] == conflicts[k];
      }
    }
  }

  /** A first holder of its sequence is remembered; nothing is reported. */
  lemma FreshStep(edits: seq<(string, string)>, n: int, used: map<string, string>, conflicts: seq<(string, string, string)>)
    requires 0 <= n < |edits| && Scanned(edits, n, used, conflicts)
    requires edits[n].1 != [] && edits[n].1 !in used
    ensures Scanned(edits, n + 1, used[edits[n].1 := edits[n].0], conflicts)
  {
    PrefixClash(edits, n);
  }

  /** An empty editor is skipped. */
  lemma EmptyStep(edits: seq<(string, string)>, n: int, used: map<string, string>, conflicts: seq<(string, string, string)>)
    requires 0 <= n < |edits| && Scanned(edits, n, used, conflicts)
    requires edits[n].1 == []
    ensures Scanned(edits, n + 1, used, conflicts)
  {
    PrefixClash(edits, n);
  }

  /** One more editor adds a clash only when its sequence is non-empty and held before. */
  lemma PrefixClash(edits: seq<(string, string)>, n: int)
    requires 0 <= n < |edits|
    ensures NoClash(edits[..n + 1]) <==>
      NoClash(edits[..n]) && (edits[n].1 == [] || forall i :: 0 <= i < n ==> edits[i].1 != edits[n].1)
  {
    var p := edits[..n + 1];
    if NoClash(edits[..n]) && (edits[n].1 == [] || forall i :: 0 <= i < n ==> edits[i].1 != edits[n].1) {
      forall i, j | 0 <= i < j < |p| && p[i].1 != []
        ensures p[i].1 != p[j].1
      {
        if j < n {
          assert edits[..n][i] == p[i] && edits[..n][j] == p[j];
        }
      }
    }
    if NoClash(p) {
      forall i, j | 0 <= i < j < n && edits[..n][i].1 != []
        ensures edits[..n][i].1 != edits[..n][j].1
      {
        assert p[i] == edits[..n][i] && p[j] == edits[..n][j];
      }
      if edits[n].1 != [] {
        forall i | 0 <= i < n
          ensures edits[i].1 != edits[n].1
        {
          assert p[i] == edits[i] && p[n] == edits[n];
        }
      }
    }
  }

  /** The built-in shortcuts pass the dialog's conflict check. */
  lemma DefaultShortcutsPass()
    ensures NoClash(Constants.DefaultShortcuts)
  {
    Constants.DefaultChordsDistinct();
  }

  /** The chord stored for an editor: its own, or the built-in one when it is empty. */
  function SavedChord(name: string, chord: string): (r: string)
    ensures chord != [] ==> r == chord
    ensures chord == [] && Get(Constants.DefaultShortcuts, name).Some? ==> r == Get(Constants.DefaultShortcuts, name).value
    ensures chord == [] && Get(Constants.DefaultShortcuts, name).None? ==> r == []
  {
    if chord != [] then chord
    else match Get(Constants.DefaultShortcuts, name) case Some(d) => d case None => ""
  }

  /** The shortcut dict after the first `|edits|` editors have been stored into `base`. */
  function ShortcutsSaved(base: seq<(string, Json)>, edits: seq<(string, string)>): seq<(string, Json)>
    decreases |edits|
  {
    if edits == [] then base
    else
      var last := edits[|edits| - 1];
      Put(ShortcutsSaved(base, edits[..|edits| - 1]), last.0, JStr(SavedChord(last.0, last.1)))
  }

  /**
   * The stored shortcuts: an editor's key maps to its chord (the built-in
   * one when it is empty); every other key keeps its old value.
   */
  lemma {:induction false} ShortcutsSavedLookup(base: seq<(string, Json)>, edits: seq<(string, string)>, k: string)
    requires DistinctKeys(edits)
    ensures Get(ShortcutsSaved(base, edits), k) ==
      match Get(edits, k)
      case Some(chord) => Some(JStr(SavedChord(k, chord)))
      case None => Get(base, k)
    decreases |edits|
  {
    if edits != [] {
      var init := edits[..|edits| - 1];
      var last := edits[|edits| - 1];
      ShortcutsSavedLookup(base, init, k);
      assert init + [last] == edits;
      GetAppend(init, [last], k);
      if k == last.0 {
        NotInKeySet(init, k);
      }
    }
  }

  /** `dict(settings.get('shortcuts', {}))`; `None` is the error of a value that is not a dict. */
  function ShortcutsBase(s: Settings): (r: Option<seq<(string, Json)>>)
    ensures "shortcuts" !in s ==> r == Some([])
    ensures r.Some? <==> GetOr(s, "shortcuts", JObj([])).JObj?
  {
    match GetOr(s, "shortcuts", JObj([]))
    case JObj(f) => Some(f)
    case _ => None
  }

  /** The shortcut loop of `apply_settings`. */
  method SaveShortcuts(base: seq<(string, Json)>, edits: seq<(string, string)>) returns (saved: seq<(string, Json)>)
    ensures saved == ShortcutsSaved(base, edits)
  {
    saved := base;
    var n := 0;
    while n < |edits|
      invariant 0 <= n <= |edits|
      invariant saved == ShortcutsSaved(base, edits[..n])
    {
      var (name, chord) := edits[n];
      var stored := if chord != [] then chord else match Get(Constants.DefaultShortcuts, name) case Some(d) => d case None => "";
      assert edits[..n + 1][..n] == edits[..n];
      saved := Put(saved, name, JStr(stored));
      n := n + 1;
    }
    assert edits[..n] == edits;
  }

  // ---------------------------------------------------------------------
  // apply_settings
  // ---------------------------------------------------------------------

  /** The widgets `apply_settings` reads. */
  datatype DialogForm = DialogForm(
    opacity: int, nightMode: bool, modeIndex: int, modeText: string,
    hours: int, minutes: int, seconds: int, actionIndex: int, actionText: string,
    clockFormatIndex: int, showSeconds: bool, showDate: bool, showAmPm: bool,
    amPmStyleIndex: int, amPmPositionIndex: int, languageText: string,
    autoStart: bool, rounded: bool, radius: int, enableSound: bool, enablePopup: bool,
    behaviorIndex: int, fixedIndex: int, fontSize: int)

  /** The keys `apply_settings` copies from plain widgets. */
  const PlainKeys: set<string> := {
    "bg_opacity", "night_mode", "countdown_hours", "countdown_minutes", "countdown_seconds",
    "clock_show_seconds", "clock_show_date", "clock_show_am_pm", "auto_start_timer",
    "rounded_corners", "corner_radius", "enable_sound", "enable_popup", "font_size"}

  /** The keys `apply_settings` derives from a choice box's index or text. */
  const ChoiceKeys: set<string> := {
    "timer_mode_key", "clock_format_24h", "clock_am_pm_style", "clock_am_pm_position",
    "language", "startup_mode_behavior", "startup_fixed_mode_key"}

  /** The display texts, the presets and the shortcuts. */
  const OtherKeys: set<string> := {"countdown_presets", "timer_mode", "countdown_action", "shortcuts"}

  /** The keys `apply_settings` writes. */
  const WrittenKeys: set<string> := PlainKeys + ChoiceKeys + OtherKeys

  function PlainValues(form: DialogForm): (m: map<string, Json>)
    ensures m.Keys == PlainKeys
  {
    map[
      "bg_opacity" := JInt(form.opacity),
      "night_mode" := JBool(form.nightMode),
      "countdown_hours" := JInt(form.hours),
      "countdown_minutes" := JInt(form.minutes),
      "countdown_seconds" := JInt(form.seconds),
      "clock_show_seconds" := JBool(form.showSeconds),
      "clock_show_date" := JBool(form.showDate),
      "clock_show_am_pm" := JBool(form.showAmPm),
      "auto_start_timer" := JBool(form.autoStart),
      "rounded_corners" := JBool(form.rounded),
      "corner_radius" := JInt(form.radius),
      "enable_sound" := JBool(form.enableSound),
      "enable_popup" := JBool(form.enablePopup),
      "font_size" := JInt(form.fontSize)
    ]
  }

  /** The keys the choice boxes map to. */
  function ChoiceValues(form: DialogForm): (m: map<string, Json>)
    ensures m.Keys == ChoiceKeys
    ensures m["timer_mode_key"] == JStr(ModeKeyForIndex(form.modeIndex))
    ensures m["clock_format_24h"] == JBool(form.clockFormatIndex == 0)
    ensures m["clock_am_pm_style"] == JStr(AmPmStyleForIndex(form.amPmStyleIndex))
    ensures m["clock_am_pm_position"] == JStr(AmPmPositionForIndex(form.amPmPositionIndex))
    ensures m["language"] == JStr(LanguageForText(form.languageText))
    ensures m["startup_mode_behavior"] == JStr(BehaviorForIndex(form.behaviorIndex))
    ensures m["startup_fixed_mode_key"] == JStr(ModeKeyForIndex(form.fixedIndex))
  {
    map[
      "timer_mode_key" := JStr(ModeKeyForIndex(form.modeIndex)),
      "clock_format_24h" := JBool(form.clockFormatIndex == 0),
      "clock_am_pm_style" := JStr(AmPmStyleForIndex(form.amPmStyleIndex)),
      "clock_am_pm_position" := JStr(AmPmPositionForIndex(form.amPmPositionIndex)),
      "language" := JStr(LanguageForText(form.languageText)),
      "startup_mode_behavior" := JStr(BehaviorForIndex(form.behaviorIndex)),
      "startup_fixed_mode_key" := JStr(ModeKeyForIndex(form.fixedIndex))
    ]
  }

  /** The presets, the display texts and the shortcuts. */
  function OtherValues(form: DialogForm, presets: seq<Json>, shortcuts: seq<(string, Json)>): (m: map<string, Json>)
    ensures m.Keys == OtherKeys
    ensures m["countdown_presets"] == JList(presets) && m["shortcuts"] == JObj(shortcuts)
    ensures m["countdown_action"] == JStr(form.actionText) && m["timer_mode"] == JStr(form.modeText)
  {
    map[
      "countdown_presets" := JList(presets),
      "timer_mode" := JStr(form.modeText),
      "countdown_action" := JStr(form.actionText),
      "shortcuts" := JObj(shortcuts)
    ]
  }

  /** The settings after `apply_settings` as written, before the window applies them. */
  function DialogWrites(s: Settings, form: DialogForm, presets: seq<Json>, shortcuts: seq<(string, Json)>): (r: Settings)
    ensures r.Keys == s.Keys + WrittenKeys
  {
    s + PlainValues(form) + OtherValues(form, presets, shortcuts) + ChoiceValues(form)
  }

  /** The display texts, the presets and the shortcuts are no choice keys, and the action key is not written. */
  lemma GroupsDisjoint()
    ensures forall k :: k in OtherKeys ==> k !in ChoiceKeys
    ensures "countdown_action_key" !in WrittenKeys
  {
  }

  /**
   * The choice boxes land on their keys, and every key the dialog does not
   * write is left as it was; in particular `countdown_action_key`.
   */
  lemma DialogWritesKeys(s: Settings, form: DialogForm, presets: seq<Json>, shortcuts: seq<(string, Json)>)
    ensures var r := DialogWrites(s, form, presets, shortcuts);
      && r["timer_mode_key"] == JStr(ModeKeyForIndex(form.modeIndex))
      && r["startup_fixed_mode_key"] == JStr(ModeKeyForIndex(form.fixedIndex))
      && r["clock_format_24h"] == JBool(form.clockFormatIndex == 0)
      && r["clock_am_pm_style"] == JStr(AmPmStyleForIndex(form.amPmStyleIndex))
      && r["clock_am_pm_position"] == JStr(AmPmPositionForIndex(form.amPmPositionIndex))
      && r["language"] == JStr(LanguageForText(form.languageText))
      && r["startup_mode_behavior"] == JStr(BehaviorForIndex(form.behaviorIndex))
      && r["countdown_action"] == JStr(form.actionText)
      && r["countdown_presets"] == JList(presets)
      && r["shortcuts"] == JObj(shortcuts)
      && forall k :: k in s && k !in WrittenKeys ==> r[k] == s[k]
  {
    GroupsDisjoint();
    assert "countdown_action" in OtherKeys && "countdown_presets" in OtherKeys && "shortcuts" in OtherKeys;
  }

  /**
   * Opening the dialog and applying it without touching the choice boxes
   * leaves every canonical choice key as it was.
   */
  lemma UntouchedChoicesKept(s: Settings, form: DialogForm, presets: seq<Json>, shortcuts: seq<(string, Json)>)
    requires form.modeIndex == DialogModeIndex(s) && form.fixedIndex == FixedModeIndex(s)
    requires form.languageText == LanguageText(s) && form.amPmStyleIndex == AmPmStyleIndex(s)
    requires form.amPmPositionIndex == AmPmPositionIndex(s) && form.behaviorIndex == BehaviorIndex(s)
    requires form.clockFormatIndex == ClockFormatIndex(s)
    ensures var r := DialogWrites(s, form, presets, shortcuts);
      && (OneOf(GetOr(s, "timer_mode_key", JNull), ModeKeys) ==> r["timer_mode_key"] == s["timer_mode_key"])
      && (OneOf(GetOr(s, "startup_fixed_mode_key", JNull), ModeKeys) ==> r["startup_fixed_mode_key"] == s["startup_fixed_mode_key"])
      && (OneOf(GetOr(s, "language", JNull), Languages) ==> r["language"] == s["language"])
      && (OneOf(GetOr(s, "clock_am_pm_style", JNull), ["en", "zh"]) ==> r["clock_am_pm_style"] == s["clock_am_pm_style"])
      && (OneOf(GetOr(s, "clock_am_pm_position", JNull), ["before", "after"]) ==>
            r["clock_am_pm_position"] == s["clock_am_pm_position"])
      && (OneOf(GetOr(s, "startup_mode_behavior", JNull), StartupBehaviors) ==>
            r["startup_mode_behavior"] == s["startup_mode_behavior"])
      && (GetOr(s, "clock_format_24h", JNull).JBool? ==> r["clock_format_24h"] == s["clock_format_24h"])
  {
    DialogWritesKeys(s, form, presets, shortcuts);
    ModesKept(s, form);
    ClockChoicesKept(s, form);
  }

  /** The mode boxes and the language box give back a canonical stored key. */
  lemma ModesKept(s: Settings, form: DialogForm)
    requires form.modeIndex == DialogModeIndex(s) && form.fixedIndex == FixedModeIndex(s)
    requires form.languageText == LanguageText(s)
    ensures OneOf(GetOr(s, "timer_mode_key", JNull), ModeKeys) ==> JStr(ModeKeyForIndex(form.modeIndex)) == s["timer_mode_key"]
    ensures OneOf(GetOr(s, "startup_fixed_mode_key", JNull), ModeKeys) ==>
      JStr(ModeKeyForIndex(form.fixedIndex)) == s["startup_fixed_mode_key"]
    ensures OneOf(GetOr(s, "language", JNull), Languages) ==> JStr(LanguageForText(form.languageText)) == s["language"]
  {
  }

  /** The clock boxes and the startup behaviour box give back a canonical stored value. */
  lemma ClockChoicesKept(s: Settings, form: DialogForm)
    requires form.amPmStyleIndex == AmPmStyleIndex(s) && form.amPmPositionIndex == AmPmPositionIndex(s)
    requires form.behaviorIndex == BehaviorIndex(s) && form.clockFormatIndex == ClockFormatIndex(s)
    ensures OneOf(GetOr(s, "clock_am_pm_style", JNull), ["en", "zh"]) ==>
      JStr(AmPmStyleForIndex(form.amPmStyleIndex)) == s["clock_am_pm_style"]
    ensures OneOf(GetOr(s, "clock_am_pm_position", JNull), ["before", "after"]) ==>
      JStr(AmPmPositionForIndex(form.amPmPositionIndex)) == s["clock_am_pm_position"]
    ensures OneOf(GetOr(s, "startup_mode_behavior", JNull), StartupBehaviors) ==>
      JStr(BehaviorForIndex(form.behaviorIndex)) == s["startup_mode_behavior"]
    ensures GetOr(s, "clock_format_24h", JNull).JBool? ==> JBool(form.clockFormatIndex == 0) == s["clock_format_24h"]
  {
  }

  /**
   * As written, the action the finish handler takes is untouched by the
   * dialog: it follows the stored `countdown_action_key`, which the dialog
   * never rewrites, whatever the box shows.
   */
  lemma ActionChoiceIgnored(s: Settings, form: DialogForm, presets: seq<Json>, shortcuts: seq<(string, Json)>)
    requires OneOf(GetOr(s, "countdown_action_key", JNull), ActionKeys)
    ensures TimerWindowModel.FinishActionKey(DialogWrites(s, form, presets, shortcuts)) == s["countdown_action_key"].s
  {
    var r := DialogWrites(s, form, presets, shortcuts);
    DialogWritesKeys(s, form, presets, shortcuts);
    GroupsDisjoint();
    assert r["countdown_action_key"] == s["countdown_action_key"];
    assert GetOr(r, "countdown_action_key", JNull) == GetOr(s, "countdown_action_key", JNull);
  }

  /** With the default key `beep` stored, choosing "flash" in the dialog still beeps. */
  lemma ActionChoiceIgnoredExample(s: Settings, form: DialogForm, presets: seq<Json>, shortcuts: seq<(string, Json)>)
    requires GetOr(s, "countdown_action_key", JNull) == JStr("beep") && form.actionIndex == 1
    ensures ActionKeyForIndex(form.actionIndex) == "flash"
    ensures TimerWindowModel.FinishActionKey(DialogWrites(s, form, presets, shortcuts)) == "beep"
  {
    ActionChoiceIgnored(s, form, presets, shortcuts);
  }

  /** `apply_settings` with the chosen action's key stored beside its text. */
  function DialogWritesFixed(s: Settings, form: DialogForm, presets: seq<Json>, shortcuts: seq<(string, Json)>): (r: Settings)
    ensures r.Keys == s.Keys + WrittenKeys + {"countdown_action_key"}
  {
    DialogWrites(s, form, presets, shortcuts)["countdown_action_key" := JStr(ActionKeyForIndex(form.actionIndex))]
  }

  /** With the key stored, the finish handler does what the dialog shows. */
  lemma ActionChoiceTakesEffect(s: Settings, form: DialogForm, presets: seq<Json>, shortcuts: seq<(string, Json)>)
    ensures TimerWindowModel.FinishActionKey(DialogWritesFixed(s, form, presets, shortcuts)) == ActionKeyForIndex(form.actionIndex)
    ensures forall k :: k != "countdown_action_key" ==>
      (k in DialogWritesFixed(s, form, presets, shortcuts) <==> k in DialogWrites(s, form, presets, shortcuts))
  {
    var r := DialogWritesFixed(s, form, presets, shortcuts);
    assert GetOr(r, "countdown_action_key", JNull) == JStr(ActionKeyForIndex(form.actionIndex));
  }
}
