/*
 * The main window of module/timer_window.py. Its handlers are first given
 * as pure functions on a `View` of the window's state (the settings dict,
 * the counter, the flash state, the label text, the tray icon and the
 * events handed to the toolkit), and the properties are proved about those
 * functions; the class `TimerWindow` then carries the same state in fields
 * and each of its methods is proved to perform its function's step. The
 * file system, the sound files, the toast library and the wall clock are
 * parameters; the uuid-based ids come from an oracle.
 */
module TimerWindowModel {
  import opened PyJson
  import opened SettingsText
  import opened SettingsStore
  import opened TimerCore
  import Constants

  /** What reading `timer_settings.json` gives: no file, a read or parse error, or a parsed document. */
  datatype StoredFile = Missing | Unreadable | Parsed(doc: Json)

  /** The side effects handed to the toolkit. */
  datatype Event =
    | PlaySound(file: string)
    | SystemBeep
    | Popup(title: string, text: string)
    | TrayMessage(title: string, text: string)
    | Toast(title: string, text: string)

  /** How a toolkit callback ended: normally, or with an exception escaping it. */
  datatype Outcome = Done | Raised(error: string)

  /** A stored document as `json.load` gives it. */
  predicate DocOk(file: StoredFile)
  {
    file.Parsed? ==> ParsedJson(file.doc)
  }

  const PresetsKey: string := "countdown_presets"

  lemma PresetsNotValidated()
    ensures PresetsKey !in ValidatedKeys
  {
  }

  /** `settings.get('countdown_presets')`. */
  function PresetsOf(s: Settings): Option<Json>
  {
    if PresetsKey in s then Some(s[PresetsKey]) else None
  }

  /** `settings.get('language', 'zh_CN')` as the normaliser uses it. */
  function LanguageOf(s: Settings): string
  {
    match GetOr(s, "language", JStr("zh_CN"))
    case JStr(l) => l
    case _ => "zh_CN"
  }

  /** `settings.get('timer_mode_key')`. */
  function ModeKeyOf(s: Settings): Json
  {
    GetOr(s, "timer_mode_key", JNull)
  }

  // ---------------------------------------------------------------------
  // load_settings
  // ---------------------------------------------------------------------

  /** A stored dict after the backfill, the first shortcut merge and the two key migrations. */
  function Migrated(doc: Settings, defaults: Settings): Settings
  {
    var s1 := Backfill(doc, defaults);
    var s2 := s1["shortcuts" := ShortcutsAfterLoad(if "shortcuts" in s1 then Some(s1["shortcuts"]) else None)];
    var s3 := if "timer_mode_key" in s2 then s2
              else s2["timer_mode_key" := JStr(DeriveModeKey(GetOr(s2, "timer_mode", JStr(""))))];
    if OneOf(GetOr(s3, "countdown_action_key", JNull), ActionKeys) then s3
    else s3["countdown_action_key" := JStr(DeriveActionKey(GetOr(s3, "countdown_action", JStr(""))))]
  }

  /** The dict `load_settings` starts from: the stored dict, or the defaults when there is none. */
  function BaseDocument(file: StoredFile): Settings
  {
    if file.Parsed? && file.doc.JObj? then Migrated(ToMap(file.doc.fields), DefaultSettings()) else DefaultSettings()
  }

  /**
   * The settings `load_settings` holds before the preset pass: the migrated
   * stored dict, or the defaults when there is no file, it cannot be read or
   * parsed, or it is not a dict; then the shortcuts are merged once more.
   */
  function ReadDocument(file: StoredFile): Settings
  {
    Remerged(BaseDocument(file))
  }

  /** The second shortcut merge of `load_settings`. */
  function Remerged(base: Settings): Settings
  {
    base["shortcuts" := ShortcutsAfterLoad(Some(GetOr(base, "shortcuts", JObj([]))))]
  }

  /** The second merge reads and writes only the shortcuts: dicts that agree outside other keys still agree after it. */
  lemma RemergedOutside(a: Settings, b: Settings, ks: set<string>)
    requires SameOutside(a, b, ks) && "shortcuts" !in ks
    ensures SameOutside(Remerged(a), Remerged(b), ks)
  {
    GetOrOutside(a, b, ks, "shortcuts", JObj([]));
  }

  /** A dict agreeing with the base document outside the presets agrees with the read document once merged again. */
  lemma ReadDocumentOutside(file: StoredFile, s: Settings)
    requires SameOutside(s, BaseDocument(file), {PresetsKey})
    ensures forall f :: f == file ==> SameOutside(Remerged(s), ReadDocument(f), {PresetsKey})
  {
    RemergedOutside(s, BaseDocument(file), {PresetsKey});
  }

  /** No stored dict: the defaults, merged again, are the read document. */
  lemma ReadUnparsedOutside(file: StoredFile)
    requires !(file.Parsed? && file.doc.JObj?)
    ensures forall f :: f == file ==> SameOutside(Remerged(DefaultSettings()), ReadDocument(f), {PresetsKey})
  {
    ReadDocumentOutside(file, DefaultSettings());
  }

  /** The presets of `after` are a list the normaliser returns for the presets of `before`, under the language of `before`. */
  predicate PresetsNormalizedFrom(before: Settings, after: Settings)
  {
    PresetsKey in after && after[PresetsKey].JList?
    && NormalizedFrom(PresetsOf(before), LanguageOf(before), after[PresetsKey].items)
  }

  /** The key migration of a stored dict saves at once: its action key is not canonical after the backfill. */
  predicate ActionKeyMigrates(doc: Settings, defaults: Settings)
  {
    !OneOf(GetOr(Backfill(doc, defaults), "countdown_action_key", JNull), ActionKeys)
  }

  /** Reading the file saves it, and so normalises its presets, before `load_settings` normalises them itself. */
  predicate ReadSaves(file: StoredFile)
  {
    file.Parsed? && file.doc.JObj? && ActionKeyMigrates(ToMap(file.doc.fields), DefaultSettings())
  }

  /** The presets once the file is read: the file's own, or one pass of the normaliser over them when reading saved them. */
  ghost predicate ReadPresets(file: StoredFile, s: Settings)
  {
    PresetsAfterRead(ReadDocument(file), ReadSaves(file), s)
  }

  /** The presets of `s` are those of `doc`, or one pass of the normaliser over them when `saved`. */
  predicate PresetsAfterRead(doc: Settings, saved: bool, s: Settings)
  {
    if saved && !WellFormedPresets(PresetsOf(doc)) then PresetsNormalizedFrom(doc, s)
    else PresetsOf(s) == PresetsOf(doc)
  }

  /**
   * The presets `load_settings` stores for `file`: one pass of the
   * normaliser over the file's presets or, when reading the file has
   * already saved (and so normalised) them, a second pass over that
   * first result. The normaliser is not idempotent (a label kept only
   * for another language is copied to the current one on a second pass),
   * so the two cases differ.
   */
  ghost predicate LoadedPresets(file: StoredFile, p: Json)
  {
    PresetsLoaded(ReadDocument(file), ReadSaves(file), p)
  }

  /** `p` is one pass of the normaliser over the presets of `doc` or, when `saved` left them not well formed, a second pass over a first. */
  ghost predicate PresetsLoaded(doc: Settings, saved: bool, p: Json)
  {
    p.JList? &&
    if saved && !WellFormedPresets(PresetsOf(doc)) then
      exists mid :: NormalizedFrom(PresetsOf(doc), LanguageOf(doc), mid) && NormalizedFrom(Some(JList(mid)), LanguageOf(doc), p.items)
    else NormalizedFrom(PresetsOf(doc), LanguageOf(doc), p.items)
  }

  /** The second merge keeps the presets and the language, and so whether one dict's presets are the normaliser's output for the other's. */
  lemma RemergedPresets(before: Settings, after: Settings)
    ensures PresetsOf(Remerged(after)) == PresetsOf(after) && LanguageOf(Remerged(after)) == LanguageOf(after)
    ensures PresetsNormalizedFrom(before, after) ==> PresetsNormalizedFrom(Remerged(before), Remerged(after))
  {
    assert GetOr(Remerged(after), "language", JStr("zh_CN")) == GetOr(after, "language", JStr("zh_CN"));
    assert GetOr(Remerged(before), "language", JStr("zh_CN")) == GetOr(before, "language", JStr("zh_CN"));
  }

  /** The presets of the base document, or one pass of the normaliser over them when reading saves, merged again, are the presets of the read file. */
  lemma ReadPresetsFromBase(file: StoredFile, s: Settings)
    requires PresetsAfterRead(BaseDocument(file), ReadSaves(file), s)
    ensures forall f :: f == file ==> ReadPresets(f, Remerged(s))
  {
    RemergedPresets(BaseDocument(file), s);
    RemergedPresets(BaseDocument(file), BaseDocument(file));
  }

  /** What agrees with the base document outside the presets, merged again, is the read document, presets as `ReadPresets` says. */
  lemma ReadFromBase(file: StoredFile, s: Settings)
    requires SameOutside(s, BaseDocument(file), {PresetsKey})
    requires PresetsAfterRead(BaseDocument(file), ReadSaves(file), s)
    ensures forall f :: f == file ==> SameOutside(Remerged(s), ReadDocument(f), {PresetsKey})
    ensures forall f :: f == file ==> ReadPresets(f, Remerged(s))
  {
    ReadDocumentOutside(file, s);
    ReadPresetsFromBase(file, s);
  }

  /** A stored dict: the base document is the migrated dict, and reading saves exactly when its action key migrates. */
  lemma BaseIsMigrated(file: StoredFile)
    requires file.Parsed? && file.doc.JObj?
    ensures BaseDocument(file) == Migrated(ToMap(file.doc.fields), DefaultSettings())
    ensures ReadSaves(file) == ActionKeyMigrates(ToMap(file.doc.fields), DefaultSettings())
  {
  }

  /** No stored dict: the defaults, merged again, are the read document, presets included. */
  lemma ReadUnparsedPresets(file: StoredFile)
    requires !(file.Parsed? && file.doc.JObj?)
    ensures forall f :: f == file ==> SameOutside(Remerged(DefaultSettings()), ReadDocument(f), {PresetsKey})
    ensures forall f :: f == file ==> ReadPresets(f, Remerged(DefaultSettings()))
  {
    ReadUnparsedOutside(file);
    assert !ReadSaves(file);
    ReadPresetsFromBase(file, DefaultSettings());
  }

  /** Normalising the presets once the file is read gives the presets `load_settings` stores. */
  lemma LoadedFromRead(file: StoredFile, read: Settings, s: Settings)
    requires forall f :: f == file ==> SameOutside(read, ReadDocument(f), {PresetsKey}) && ReadPresets(f, read)
    requires PresetsNormalizedFrom(read, s)
    ensures forall f :: f == file ==> LoadedPresets(f, s[PresetsKey])
  {
    forall f | f == file
      ensures LoadedPresets(f, s[PresetsKey])
    {
      LoadedFromDocument(ReadDocument(f), ReadSaves(f), read, s);
    }
  }

  /** One normaliser pass over presets read from `doc` gives `PresetsLoaded`. */
  lemma LoadedFromDocument(doc: Settings, saved: bool, read: Settings, s: Settings)
    requires SameOutside(read, doc, {PresetsKey}) && PresetsAfterRead(doc, saved, read)
    requires PresetsNormalizedFrom(read, s)
    ensures PresetsLoaded(doc, saved, s[PresetsKey])
  {
    assert LanguageOf(read) == LanguageOf(doc) by {
      assert GetOr(read, "language", JStr("zh_CN")) == GetOr(doc, "language", JStr("zh_CN"));
    }
    if saved && !WellFormedPresets(PresetsOf(doc)) {
      var mid := read[PresetsKey].items;
      assert PresetsOf(read) == Some(JList(mid));
      assert NormalizedFrom(PresetsOf(doc), LanguageOf(doc), mid);
    }
  }

  /**
   * The migration keeps every stored value except the shortcuts dict
   * (merged) and an action key that is not canonical (derived again); it
   * adds the default for every missing key.
   */
  lemma MigratedKeeps(doc: Settings, defaults: Settings)
    requires "timer_mode_key" in defaults
    ensures Migrated(doc, defaults).Keys == doc.Keys + defaults.Keys + {"shortcuts", "countdown_action_key"}
    ensures forall k :: k in doc && k != "shortcuts" && k != "countdown_action_key" ==> Migrated(doc, defaults)[k] == doc[k]
    ensures forall k :: k in Migrated(doc, defaults) && k !in doc && k != "shortcuts" && k != "countdown_action_key" ==>
      Migrated(doc, defaults)[k] == defaults[k]
    ensures OneOf(Migrated(doc, defaults)["countdown_action_key"], ActionKeys)
  {
  }

  /**
   * After loading, every default key is present; a stored value is kept
   * unless it is the shortcuts dict or a non-canonical action key; every
   * other added value is the default.
   */
  lemma ReadDocumentKeys(file: StoredFile)
    ensures DefaultSettings().Keys <= ReadDocument(file).Keys
    ensures file.Parsed? && file.doc.JObj? ==>
      var doc := ToMap(file.doc.fields);
      (forall k :: k in doc && k != "shortcuts" && k != "countdown_action_key" ==> ReadDocument(file)[k] == doc[k])
      && (forall k :: k in ReadDocument(file) && k !in doc && k != "shortcuts" && k != "countdown_action_key" ==>
            ReadDocument(file)[k] == DefaultSettings()[k])
      && OneOf(ReadDocument(file)["countdown_action_key"], ActionKeys)
    ensures !(file.Parsed? && file.doc.JObj?) ==>
      forall k :: k in ReadDocument(file) && k != "shortcuts" ==> ReadDocument(file)[k] == DefaultSettings()[k]
  {
    if file.Parsed? && file.doc.JObj? {
      ModeKeyMigrationUnreachable(ToMap(file.doc.fields));
      var _ := RemergedMigratedKeeps(ToMap(file.doc.fields), DefaultSettings());
    } else {
      RemergeKeeps(DefaultSettings());
    }
  }

  /** The second shortcut merge touches only the shortcuts. */
  lemma RemergeKeeps(base: Settings)
    ensures Remerged(base).Keys == base.Keys + {"shortcuts"}
    ensures forall k :: k in base && k != "shortcuts" ==> Remerged(base)[k] == base[k]
  {
  }

  lemma RemergedMigratedKeeps(doc: Settings, defaults: Settings) returns (r: Settings)
    requires "timer_mode_key" in defaults
    ensures r.Keys == doc.Keys + defaults.Keys + {"countdown_action_key", "shortcuts"}
    ensures forall k :: k in doc && k != "shortcuts" && k != "countdown_action_key" ==> r[k] == doc[k]
    ensures forall k :: k in r && k !in doc && k != "shortcuts" && k != "countdown_action_key" ==> r[k] == defaults[k]
    ensures OneOf(r["countdown_action_key"], ActionKeys)
    ensures r == Remerged(Migrated(doc, defaults))
  {
    MigratedKeeps(doc, defaults);
    r := RemergedFrom(doc, defaults, Migrated(doc, defaults));
  }

  /** `RemergedMigratedKeeps` for any dict with the migrated dict's keys and values. */
  lemma RemergedFrom(doc: Settings, defaults: Settings, m: Settings) returns (r: Settings)
    requires m.Keys == doc.Keys + defaults.Keys + {"shortcuts", "countdown_action_key"}
    requires forall k :: k in doc && k != "shortcuts" && k != "countdown_action_key" ==> m[k] == doc[k]
    requires forall k :: k in m && k !in doc && k != "shortcuts" && k != "countdown_action_key" ==> m[k] == defaults[k]
    requires OneOf(m["countdown_action_key"], ActionKeys)
    ensures r.Keys == doc.Keys + defaults.Keys + {"countdown_action_key", "shortcuts"}
    ensures forall k :: k in doc && k != "shortcuts" && k != "countdown_action_key" ==> r[k] == doc[k]
    ensures forall k :: k in r && k !in doc && k != "shortcuts" && k != "countdown_action_key" ==> r[k] == defaults[k]
    ensures OneOf(r["countdown_action_key"], ActionKeys)
    ensures r == Remerged(m)
  {
    RemergeKeeps(m);
    r := Remerged(m);
  }

  lemma DefaultShortcutKeysDistinct()
    ensures DistinctKeys(Constants.DefaultShortcutsJson())
  {
    Constants.DefaultChordsDistinct();
  }

  /** Merging an already merged dict changes no lookup. */
  lemma MergeTwice(stored: seq<(string, Json)>, k: string)
    requires DistinctKeys(stored)
    ensures Get(MergeShortcuts(MergeShortcuts(stored)), k) ==
      if Get(stored, k).Some? then Get(stored, k) else Get(Constants.DefaultShortcutsJson(), k)
  {
    DefaultShortcutKeysDistinct();
    UpdateIntoDistinct(Constants.DefaultShortcutsJson(), stored);
    MergeShortcutsLookup(stored, k);
    MergeShortcutsLookup(MergeShortcuts(stored), k);
  }

  /** Where a successful lookup found its value. */
  lemma {:induction false} GetIndex<V>(a: seq<(string, V)>, k: string) returns (i: int)
    requires Get(a, k).Some?
    ensures 0 <= i < |a| && a[i] == (k, Get(a, k).value)
  {
    if a[0].0 == k {
      i := 0;
    } else {
      var j := GetIndex(a[1..], k);
      i := j + 1;
    }
  }

  /** The shortcuts object of a parsed document has distinct keys. */
  lemma ParsedShortcutsDistinct(fields: seq<(string, Json)>)
    requires ParsedJson(JObj(fields)) && Get(fields, "shortcuts").Some? && Get(fields, "shortcuts").value.JObj?
    ensures DistinctKeys(Get(fields, "shortcuts").value.fields)
  {
    var i := GetIndex(fields, "shortcuts");
    assert ParsedJson(fields[i].1);
  }

  /** After loading, `shortcuts` is a dict holding a chord for each of the six actions. */
  lemma ReadDocumentShortcutsComplete(file: StoredFile)
    ensures ReadDocument(file)["shortcuts"].JObj?
    ensures KeySet(Constants.DefaultShortcutsJson()) <= KeySet(ReadDocument(file)["shortcuts"].fields)
  {
  }

  /** A chord stored in the file for an action is the one the loaded settings hold. */
  lemma ReadDocumentShortcutsStored(file: StoredFile, k: string)
    requires DocOk(file) && file.Parsed? && file.doc.JObj?
    requires Get(file.doc.fields, "shortcuts").Some? && Get(file.doc.fields, "shortcuts").value.JObj?
    requires Get(Get(file.doc.fields, "shortcuts").value.fields, k).Some?
    ensures Get(ReadDocument(file)["shortcuts"].fields, k) == Get(Get(file.doc.fields, "shortcuts").value.fields, k)
  {
    var fields := file.doc.fields;
    var stored := Get(fields, "shortcuts").value.fields;
    ParsedShortcutsDistinct(fields);
    var doc := ToMap(fields);
    assert doc["shortcuts"] == JObj(stored);
    assert BaseDocument(file)["shortcuts"] == JObj(MergeShortcuts(stored));
    MergeTwice(stored, k);
  }

  // ---------------------------------------------------------------------
  // Startup as written: the validation fix raises before the save timer exists
  // ---------------------------------------------------------------------

  /** The outcome of constructing the window. */
  datatype Construction = Constructed(settings: Settings) | ConstructionRaised(error: string)

  /**
   * The validation step of the constructor as written: it runs inside
   * `load_settings`, before `_save_timer` is created, and when it fixes
   * anything its unguarded `save_settings(immediate=True)` calls
   * `self._save_timer.stop()`, which raises AttributeError out of the
   * constructor.
   */
  function ValidateAtStartupAsWritten(loaded: Settings): (r: Construction)
    ensures r.Constructed? ==> r.settings == loaded
  {
    var (fixedSettings, fixed) := FixSettings(loaded);
    FixSettingsReportsExactly(loaded);
    if fixed then ConstructionRaised("AttributeError") else Constructed(fixedSettings)
  }

  /** As written, the window cannot be constructed whenever a loaded setting needs a fix. */
  lemma StartupAsWrittenRaises(loaded: Settings)
    ensures ValidateAtStartupAsWritten(loaded).ConstructionRaised? <==> !Validated(loaded)
  {
    FixSettingsReportsExactly(loaded);
  }

  /** A settings file holding only `{"bg_opacity": 300}` aborts startup, whatever the preset pass gives. */
  lemma OpacityOutOfRangeAbortsStartup(presets: Json)
    ensures ValidateAtStartupAsWritten(ReadDocument(Parsed(JObj([("bg_opacity", JInt(300))])))[PresetsKey := presets]).ConstructionRaised?
  {
    var fields := [("bg_opacity", JInt(300))];
    var doc := ToMap(fields);
    assert Get(fields, "bg_opacity") == Some(JInt(300));
    ModeKeyMigrationUnreachable(doc);
    MigratedKeeps(doc, DefaultSettings());
    var loaded := ReadDocument(Parsed(JObj(fields)))[PresetsKey := presets];
    assert GetOr(loaded, "bg_opacity", JInt(200)) == JInt(300);
    StartupAsWrittenRaises(loaded);
  }

  // ---------------------------------------------------------------------
  // What the handlers read
  // ---------------------------------------------------------------------

  /** The action key `on_countdown_finished` acts on: the stored key, or one derived from the text. */
  function FinishActionKey(s: Settings): (r: string)
    ensures r in ActionKeys
    ensures OneOf(GetOr(s, "countdown_action_key", JNull), ActionKeys) ==> r == GetOr(s, "countdown_action_key", JNull).s
  {
    var k := GetOr(s, "countdown_action_key", JNull);
    if OneOf(k, ActionKeys) then k.s else DeriveActionKey(GetOr(s, "countdown_action", JStr("")))
  }

  predicate StartsFlash(key: string)
  {
    key == "flash" || key == "beep_flash"
  }

  predicate PlaysSound(s: Settings, key: string)
  {
    Truthy(GetOr(s, "enable_sound", JBool(true))) && (key == "beep" || key == "beep_flash")
  }

  /**
   * The sound of the finish handler: the configured file when it exists, a
   * system beep when no file is set or it is missing. `None` is the
   * TypeError of a truthy `sound_file` that is not a string.
   */
  function SoundEvents(s: Settings, soundExists: string -> bool): Option<seq<Event>>
  {
    if !PlaysSound(s, FinishActionKey(s)) then Some([])
    else
      var file := GetOr(s, "sound_file", JStr(""));
      if !Truthy(file) then Some([SystemBeep])
      else if !file.JStr? then None
      else if soundExists(file.s) then Some([PlaySound(file.s)])
      else Some([SystemBeep])
  }

  /** The pop-up (or the tray message when pop-ups are off) and the toast. */
  function NoticeEvents(s: Settings, toaster: bool, tr: string -> string): seq<Event>
  {
    var title := tr("countdown_finished");
    var msg := tr("countdown_finished_msg");
    [if Truthy(GetOr(s, "enable_popup", JBool(true))) then Popup(title, msg) else TrayMessage(title, msg)]
    + (if Truthy(GetOr(s, "enable_windows_toast", JBool(true))) && toaster then [Toast("DesktopTimer", title + "\n" + msg)] else [])
  }

  /** Everything `on_countdown_finished` hands to the toolkit, or `None` when it raises. */
  function FinishEvents(s: Settings, soundExists: string -> bool, toaster: bool, tr: string -> string): Option<seq<Event>>
  {
    var sound := SoundEvents(s, soundExists);
    if sound.None? then None else Some(sound.value + NoticeEvents(s, toaster, tr))
  }

  /**
   * The dispatch of the finish handler: `flash` plays nothing; `beep` and
   * `beep_flash` sound once when sound is enabled; the user is always told
   * once, by pop-up or by tray message, before any toast.
   */
  lemma FinishDispatch(s: Settings, soundExists: string -> bool, toaster: bool, tr: string -> string)
    requires var f := GetOr(s, "sound_file", JStr("")); !Truthy(f) || f.JStr?
    ensures var key := FinishActionKey(s);
      var r := FinishEvents(s, soundExists, toaster, tr);
      var n := |NoticeEvents(s, toaster, tr)|;
      r.Some? && |r.value| == n + (if PlaysSound(s, key) then 1 else 0)
      && (PlaysSound(s, key) ==> r.value[0].PlaySound? || r.value[0].SystemBeep?)
      && (key == "flash" ==> r.value == NoticeEvents(s, toaster, tr))
      && (r.value[|r.value| - n].Popup? || r.value[|r.value| - n].TrayMessage?)
      && (r.value[|r.value| - n].Popup? <==> Truthy(GetOr(s, "enable_popup", JBool(true))))
      && (n == 2 <==> Truthy(GetOr(s, "enable_windows_toast", JBool(true))) && toaster)
  {
  }

  /** A truthy `sound_file` that is not a string makes the handler raise before it flashes or notifies. */
  lemma FinishRaisesOnNonStringSound(s: Settings, soundExists: string -> bool, toaster: bool, tr: string -> string)
    requires PlaysSound(s, FinishActionKey(s))
    requires GetOr(s, "sound_file", JStr("")) == JInt(1)
    ensures FinishEvents(s, soundExists, toaster, tr).None?
  {
  }

  /**
   * `ensure_sounds_folder` on the settings. When `sound_file` is unset or
   * names no existing file, the file `pick` that `random.choice` drew from
   * the sounds folder is stored and the settings are to be saved; `None`
   * means the folder holds no audio file, and nothing changes. A truthy
   * `sound_file` that is no string makes the path check raise. The second
   * component says whether the settings are saved.
   */
  function SoundPicked(s: Settings, soundExists: string -> bool, pick: Option<string>): (r: (Settings, bool, Outcome))
    ensures var f := GetOr(s, "sound_file", JStr(""));
      && (r.2.Raised? <==> Truthy(f) && !f.JStr?)
      && (r.2.Raised? ==> r.2 == Raised("TypeError"))
      && (r.1 <==> r.2.Done? && pick.Some? && (!Truthy(f) || !soundExists(f.s)))
      && (r.1 ==> r.0 == s["sound_file" := JStr(pick.value)])
      && (!r.1 ==> r.0 == s)
  {
    var f := GetOr(s, "sound_file", JStr(""));
    if Truthy(f) && !f.JStr? then (s, false, Raised("TypeError"))
    else if (!Truthy(f) || !soundExists(f.s)) && pick.Some? then (s["sound_file" := JStr(pick.value)], true, Done)
    else (s, false, Done)
  }

  /** A stored pick that names an existing file is the sound the finish handler plays. */
  lemma PickedSoundPlays(s: Settings, soundExists: string -> bool, pick: Option<string>)
    requires SoundPicked(s, soundExists, pick).1
    requires pick.value != [] && soundExists(pick.value)
    requires PlaysSound(s, FinishActionKey(s))
    ensures SoundEvents(SoundPicked(s, soundExists, pick).0, soundExists) == Some([PlaySound(pick.value)])
  {
    var t := SoundPicked(s, soundExists, pick).0;
    assert GetOr(t, "countdown_action_key", JNull) == GetOr(s, "countdown_action_key", JNull);
    assert GetOr(t, "countdown_action", JNull) == GetOr(s, "countdown_action", JNull);
    assert FinishActionKey(t) == FinishActionKey(s);
    assert GetOr(t, "enable_sound", JBool(true)) == GetOr(s, "enable_sound", JBool(true));
  }

  /** Once a pick naming an existing file is stored, the next start keeps it whatever it draws. */
  lemma SoundPickedSettles(s: Settings, soundExists: string -> bool, pick: Option<string>, next: Option<string>)
    requires SoundPicked(s, soundExists, pick).1
    requires pick.value != [] && soundExists(pick.value)
    ensures var t := SoundPicked(s, soundExists, pick).0;
      SoundPicked(t, soundExists, next) == (t, false, Done)
  {
  }

  /** Storing the pick keeps validated settings validated: `sound_file` is not among the checked keys. */
  lemma SoundPickedKeepsValidated(s: Settings, soundExists: string -> bool, pick: Option<string>)
    requires Validated(s)
    ensures Validated(SoundPicked(s, soundExists, pick).0)
  {
    if SoundPicked(s, soundExists, pick).1 {
      var t := s["sound_file" := JStr(pick.value)];
      SoundFileNotValidated();
      assert SameOutside(t, s, {"sound_file"});
      ValidatedOutside(t, s, {"sound_file"});
    }
  }

  /** `sound_file` is not among the keys the validator checks. */
  lemma SoundFileNotValidated()
    ensures {"sound_file"} !! ValidatedKeys
  {
  }

  /** `hex_to_rgb` of a settings value: a non-string has no `lstrip` (AttributeError), bad digits are a ValueError. */
  function ColourFault(v: Json): Option<string>
  {
    if !v.JStr? then Some("AttributeError")
    else if HexToRgb(v.s).None? then Some("ValueError")
    else None
  }

  /**
   * Why `apply_settings` raises: a colour key missing (KeyError); in night
   * mode a text colour `adjust_brightness` cannot read or an opacity `min`
   * cannot compare; a background colour `hex_to_rgb` cannot read.
   */
  function ApplyFault(s: Settings): Option<string>
  {
    if "text_color" !in s || "bg_color" !in s || "bg_opacity" !in s || "night_mode" !in s then Some("KeyError")
    else if Truthy(s["night_mode"]) && ColourFault(s["text_color"]).Some? then ColourFault(s["text_color"])
    else if Truthy(s["night_mode"]) && !(s["bg_opacity"].JInt? || s["bg_opacity"].JBool? || s["bg_opacity"].JFloat?) then Some("TypeError")
    else ColourFault(s["bg_color"])
  }

  /** Why the red restyle of `flash_window` raises: a missing or unreadable background colour, or no opacity. */
  function RestyleFault(s: Settings): Option<string>
  {
    if "bg_color" !in s then Some("KeyError")
    else if ColourFault(s["bg_color"]).Some? then ColourFault(s["bg_color"])
    else if "bg_opacity" !in s then Some("KeyError")
    else None
  }

  /**
   * The validator accepts a background colour `apply_settings` cannot read
   * (such as "#GGGGGG"): settings that pass every check can still make it raise.
   */
  lemma ValidatedCanStillFault(s: Settings, c: string)
    requires Validated(s)
    requires |c| == 7 && c[0] == '#' && 'G' <= c[1] <= 'Z' && 'G' <= c[2] <= 'Z'
    ensures Validated(s["bg_color" := JStr(c)])
    ensures ApplyFault(s["bg_color" := JStr(c)]).Some?
    ensures RestyleFault(s["bg_color" := JStr(c)]).Some?
  {
    ColourCheckAdmitsNonHex(c);
    ValidatedWithShapedBg(s, JStr(c));
    BadBackgroundFaults(s["bg_color" := JStr(c)]);
  }

  /** Validity does not look past the shape of the background colour. */
  lemma ValidatedWithShapedBg(s: Settings, c: Json)
    requires Validated(s) && ColourShaped(c)
    ensures Validated(s["bg_color" := c])
  {
    var t := s["bg_color" := c];
    assert SameOutside(t, s, {"bg_color"});
    KeyGroupsDisjoint();
    DisplayValidOutside(t, s, {"bg_color"});
    CountdownValidOutside(t, s, {"bg_color"});
    BehaviourValidOutside(t, s, {"bg_color"});
    GetOrOutside(t, s, {"bg_color"}, "text_color", JStr("#000000"));
    GetOrOutside(t, s, {"bg_color"}, "theme_mode", JStr("auto"));
    GetOrOutside(t, s, {"bg_color"}, "theme_color", JStr("#0078D4"));
    GetOrOutside(t, s, {"bg_color"}, "language", JNull);
  }

  /** An unreadable background colour makes both `apply_settings` and the red restyle raise. */
  lemma BadBackgroundFaults(s: Settings)
    requires "bg_color" in s && ColourFault(s["bg_color"]).Some?
    ensures ApplyFault(s).Some? && RestyleFault(s).Some?
  {
  }

  /**
   * The configured countdown in seconds, `h * 3600 + m * 60 + s`, with the
   * minutes default the caller uses when the key is missing
   * (`reset_timer` 0, `apply_settings` 25).
   */
  function CountdownTotal(s: Settings, minutesDefault: int): (r: int)
    requires CountdownValid(s) && 0 <= minutesDefault <= 59
    ensures 0 <= r <= 99 * 3600 + 59 * 60 + 59
  {
    var h := GetOr(s, "countdown_hours", JInt(0)).i;
    var m := GetOr(s, "countdown_minutes", JInt(minutesDefault)).i;
    var sec := GetOr(s, "countdown_seconds", JInt(0)).i;
    assert 0 <= h * 3600 <= 99 * 3600;
    assert 0 <= m * 60 <= 59 * 60;
    h * 3600 + m * 60 + sec
  }

  /**
   * With `countdown_minutes` missing, `apply_settings` starts the countdown
   * 25 minutes longer than `reset_timer` does; with it present they agree.
   */
  lemma MinutesDefaultsDiffer(s: Settings)
    requires CountdownValid(s)
    ensures "countdown_minutes" !in s ==> CountdownTotal(s, 25) == CountdownTotal(s, 0) + 1500
    ensures "countdown_minutes" in s ==> CountdownTotal(s, 25) == CountdownTotal(s, 0)
  {
  }

  // ---------------------------------------------------------------------
  // The label's normal style and the red test of `flash_window`
  // ---------------------------------------------------------------------

  /** Python's `str()` of a value the style formats; `show` renders a float, a list or a dict. */
  function StyleText(v: Json, show: Json -> string): string
  {
    match v
    case JNull => "None"
    case JBool(b) => if b then "True" else "False"
    case JInt(i) => IntText(i)
    case JStr(t) => t
    case _ => show(v)
  }

  /** `int(c * 0.6)`, the product taken exactly and truncated toward zero. */
  function Dim(c: int): int
  {
    if c >= 0 then c * 3 / 5 else -((-c) * 3 / 5)
  }

  /** `adjust_brightness(color, 0.6)` on the components `hex_to_rgb` read: `#` and hex digits only. */
  function Dimmed(rgb: (int, int, int)): (r: string)
    ensures |r| >= 7 && r[0] == '#'
    ensures forall c :: c in r ==> c == '#' || c == '-' || IsHexDigit(c)
  {
    "#" + Hex02(Dim(rgb.0)) + Hex02(Dim(rgb.1)) + Hex02(Dim(rgb.2))
  }

  /** The text colour of the style: the dimmed colour in night mode, the stored value otherwise. */
  function ShownText(s: Settings, show: Json -> string): string
    requires "night_mode" in s && "text_color" in s
    requires Truthy(s["night_mode"]) ==> s["text_color"].JStr? && HexToRgb(s["text_color"].s).Some?
  {
    if Truthy(s["night_mode"]) then Dimmed(HexToRgb(s["text_color"].s).value) else StyleText(s["text_color"], show)
  }

  /** The opacity of the style: `min(bg_opacity, 150)` in night mode. */
  function ShownOpacity(s: Settings): Json
    requires ApplyFault(s).None?
  {
    var o := s["bg_opacity"];
    if !Truthy(s["night_mode"]) then o
    else match o
      case JInt(i) => if 150 < i then JInt(150) else o
      case JFloat(x) => if 150.0 < x then JInt(150) else o
      case _ => o
  }

  /** The radius of the style: `corner_radius` (15 when missing) with rounded corners, 0 without. */
  function ShownRadius(s: Settings): Json
  {
    if Truthy(GetOr(s, "rounded_corners", JBool(true))) then GetOr(s, "corner_radius", JInt(15)) else JInt(0)
  }

  /** `n` blanks: the indentation of the style's lines. */
  function Spaces(n: nat): (r: string)
    ensures |r| == n && forall c :: c in r ==> c == ' '
  {
    seq(n, _ => ' ')
  }

  /**
   * The layout of the label's style as `apply_settings` writes it, with
   * slots for the text colour, the background's three components, the
   * opacity and the radius; character for character except the comment
   * after the padding, which holds no ASCII letter and so no part of
   * `color: red`. One style line per row, each piece joined to the rest
   * on its right.
   */
  function StyleShape(text: string, r: string, g: string, b: string, opacity: string, radius: string): string
  {
    "\n" + (Spaces(12) + ("QLabel {" + (
    "\n" + (Spaces(16) + ("color: " + (text + (";" + (
    "\n" + (Spaces(16) + ("background-color: rgba(" + (r + (", " + (g + (", " + (b + (", " + (opacity + (");" + (
    "\n" + (Spaces(16) + ("border-radius: " + (radius + ("px;" + (
    "\n" + (Spaces(16) + ("padding: " + ("30px 60px" + (";  /*  */" + (
    "\n" + (Spaces(12) + ("}" + (
    "\n" + Spaces(8)))))))))))))))))))))))))))))))))
  }

  /** The label's normal style outside full screen. */
  function NormalStyle(s: Settings, show: Json -> string): string
    requires ApplyFault(s).None?
  {
    var rgb := HexToRgb(s["bg_color"].s).value;
    StyleShape(ShownText(s, show), IntText(rgb.0), IntText(rgb.1), IntText(rgb.2),
               StyleText(ShownOpacity(s), show), StyleText(ShownRadius(s), show))
  }

  /** The red test of `flash_window` after `apply_settings`: `'color: red' in self.time_label.styleSheet()`. */
  predicate StyleSaysRed(s: Settings, show: Json -> string)
    requires ApplyFault(s).None?
  {
    Occurs(NormalStyle(s, show), "color: red")
  }

  /** The red test as the windows hold it: `StyleSaysRed` wherever the style can be built, false elsewhere. */
  function RedTest(show: Json -> string): (r: Settings -> bool)
    ensures forall s :: ApplyFault(s).None? ==> (r(s) <==> StyleSaysRed(s, show))
    ensures forall s :: ApplyFault(s).Some? ==> !r(s)
  {
    s => ApplyFault(s).None? && StyleSaysRed(s, show)
  }

  /**
   * Settings whose normal style cannot hold `color: red`: a text colour
   * written with `#` and hex digits, an integer opacity, and square
   * corners or an integer radius.
   */
  predicate PlainStyle(s: Settings)
  {
    && "text_color" in s && s["text_color"].JStr? && (forall c :: c in s["text_color"].s ==> c == '#' || IsHexDigit(c))
    && "bg_opacity" in s && s["bg_opacity"].JInt?
    && ShownRadius(s).JInt?
  }

  /** Prepending a piece without `r`, or without `e` and not ending in `r`, adds no `re`. */
  lemma NoRedPrepend(a: string, b: string)
    requires NoPair(b, 'r', 'e')
    requires 'r' !in a || ('e' !in a && (a == [] || a[|a| - 1] != 'r'))
    ensures NoPair(a + b, 'r', 'e')
  {
    NoPairWithout(a, 'r', 'e');
    NoPairAppend(a, b, 'r', 'e');
  }

  /** `border-radius: ` adds no `re`: its `e` follows a `d`. */
  lemma BorderNoRed(w: string)
    requires NoPair(w, 'r', 'e')
    ensures NoPair("border-radius: " + w, 'r', 'e')
  {
    NoRedPrepend("r-radius: ", w);
    NoRedPrepend("e", "r-radius: " + w);
    NoRedPrepend("bord", "e" + ("r-radius: " + w));
    assert "border-radius: " + w == "bord" + ("e" + ("r-radius: " + w));
  }

  /** A line break and its indentation add no `re`. */
  lemma LineBreakNoRed(n: nat, w: string)
    requires NoPair(w, 'r', 'e')
    ensures NoPair("\n" + (Spaces(n) + w), 'r', 'e')
  {
    NoRedPrepend(Spaces(n), w);
    NoRedPrepend("\n", Spaces(n) + w);
  }

  /** The line opening the rule adds no `re`. */
  lemma LabelLineNoRed(w: string)
    requires NoPair(w, 'r', 'e')
    ensures NoPair("QLabel {" + w, 'r', 'e')
  {
    NoRedPrepend("QLabel {", w);
  }

  /** The text colour line adds no `re` when the colour holds no `r`. */
  lemma ColorLineNoRed(text: string, w: string)
    requires 'r' !in text && NoPair(w, 'r', 'e')
    ensures NoPair("color: " + (text + (";" + w)), 'r', 'e')
  {
    NoRedPrepend(";", w);
    NoRedPrepend(text, ";" + w);
    NoRedPrepend("color: ", text + (";" + w));
  }

  /** A comma and a value without `r` add no `re`. */
  lemma CommaValueNoRed(v: string, w: string)
    requires 'r' !in v && NoPair(w, 'r', 'e')
    ensures NoPair(", " + (v + w), 'r', 'e')
  {
    NoRedPrepend(v, w);
    NoRedPrepend(", ", v + w);
  }

  /** The background's four values, joined by commas, add no `re` when they hold no `r`. */
  lemma RgbaValuesNoRed(r: string, g: string, b: string, opacity: string, w: string)
    requires 'r' !in r && 'r' !in g && 'r' !in b && 'r' !in opacity && NoPair(w, 'r', 'e')
    ensures NoPair(r + (", " + (g + (", " + (b + (", " + (opacity + (");" + w))))))), 'r', 'e')
  {
    NoRedPrepend(");", w);
    CommaValueNoRed(opacity, ");" + w);
    CommaValueNoRed(b, ", " + (opacity + (");" + w)));
    CommaValueNoRed(g, ", " + (b + (", " + (opacity + (");" + w)))));
    NoRedPrepend(r, ", " + (g + (", " + (b + (", " + (opacity + (");" + w)))))));
  }

  /** `background-color: rgba(` adds no `re`: it has no `e`. */
  lemma RgbaNoRed(w: string)
    requires NoPair(w, 'r', 'e')
    ensures NoPair("background-color: rgba(" + w, 'r', 'e')
  {
    NoRedPrepend("r: rgba(", w);
    NoRedPrepend("background-colo", "r: rgba(" + w);
    assert "background-color: rgba(" + w == "background-colo" + ("r: rgba(" + w);
  }

  /** The background line adds no `re` when its values hold no `r`. */
  lemma BackgroundLineNoRed(r: string, g: string, b: string, opacity: string, w: string)
    requires 'r' !in r && 'r' !in g && 'r' !in b && 'r' !in opacity && NoPair(w, 'r', 'e')
    ensures NoPair("background-color: rgba(" + (r + (", " + (g + (", " + (b + (", " + (opacity + (");" + w)))))))), 'r', 'e')
  {
    RgbaValuesNoRed(r, g, b, opacity, w);
    RgbaNoRed(r + (", " + (g + (", " + (b + (", " + (opacity + (");" + w))))))));
  }

  /** The radius line adds no `re` when the radius holds no `r`. */
  lemma RadiusLineNoRed(radius: string, w: string)
    requires 'r' !in radius && NoPair(w, 'r', 'e')
    ensures NoPair("border-radius: " + (radius + ("px;" + w)), 'r', 'e')
  {
    NoRedPrepend("px;", w);
    NoRedPrepend(radius, "px;" + w);
    BorderNoRed(radius + ("px;" + w));
  }

  /** The padding line adds no `re`. */
  lemma PaddingLineNoRed(w: string)
    requires NoPair(w, 'r', 'e')
    ensures NoPair("padding: " + ("30px 60px" + (";  /*  */" + w)), 'r', 'e')
  {
    NoRedPrepend(";  /*  */", w);
    NoRedPrepend("30px 60px", ";  /*  */" + w);
    NoRedPrepend("padding: ", "30px 60px" + (";  /*  */" + w));
  }

  /** The closing brace adds no `re`. */
  lemma CloseLineNoRed(w: string)
    requires NoPair(w, 'r', 'e')
    ensures NoPair("}" + w, 'r', 'e')
  {
    NoRedPrepend("}", w);
  }

  /** Slots without the letter `r` give a style without `color: red`. */
  lemma StyleShapeNotRed(text: string, r: string, g: string, b: string, opacity: string, radius: string)
    requires 'r' !in text && 'r' !in r && 'r' !in g && 'r' !in b && 'r' !in opacity && 'r' !in radius
    ensures !Contains(StyleShape(text, r, g, b, opacity, radius), "color: red")
  {
    var w := Spaces(8);
    NoPairWithout(w, 'r', 'e');
    LineBreakNoRed(0, w);
    assert Spaces(0) + w == w;
    w := "\n" + w;
    CloseLineNoRed(w); w := "}" + w;
    LineBreakNoRed(12, w); w := "\n" + (Spaces(12) + w);
    PaddingLineNoRed(w); w := "padding: " + ("30px 60px" + (";  /*  */" + w));
    LineBreakNoRed(16, w); w := "\n" + (Spaces(16) + w);
    RadiusLineNoRed(radius, w); w := "border-radius: " + (radius + ("px;" + w));
    LineBreakNoRed(16, w); w := "\n" + (Spaces(16) + w);
    BackgroundLineNoRed(r, g, b, opacity, w);
    w := "background-color: rgba(" + (r + (", " + (g + (", " + (b + (", " + (opacity + (");" + w))))))));
    LineBreakNoRed(16, w); w := "\n" + (Spaces(16) + w);
    ColorLineNoRed(text, w); w := "color: " + (text + (";" + w));
    LineBreakNoRed(16, w); w := "\n" + (Spaces(16) + w);
    LabelLineNoRed(w); w := "QLabel {" + w;
    LineBreakNoRed(12, w); w := "\n" + (Spaces(12) + w);
    if Contains(w, "color: red") {
      ContainsPair(w, "color: red", 7);
    }
  }

  /** A radius holding `color: red` puts it in the style. */
  lemma StyleShapeRadiusRed(text: string, r: string, g: string, b: string, opacity: string, radius: string)
    requires Contains(radius, "color: red")
    ensures Contains(StyleShape(text, r, g, b, opacity, radius), "color: red")
  {
    var w := "px;" + ("\n" + (Spaces(16) + ("padding: " + ("30px 60px" + (";  /*  */" + ("\n" + (Spaces(12) + ("}" + ("\n" + Spaces(8))))))))));
    ContainsInLeft(radius, w, "color: red"); w := radius + w;
    ContainsInRight("border-radius: ", w, "color: red"); w := "border-radius: " + w;
    ContainsInRight(Spaces(16), w, "color: red"); w := Spaces(16) + w;
    ContainsInRight("\n", w, "color: red"); w := "\n" + w;
    ContainsInRight(");", w, "color: red"); w := ");" + w;
    ContainsInRight(opacity, w, "color: red"); w := opacity + w;
    ContainsInRight(", ", w, "color: red"); w := ", " + w;
    ContainsInRight(b, w, "color: red"); w := b + w;
    ContainsInRight(", ", w, "color: red"); w := ", " + w;
    ContainsInRight(g, w, "color: red"); w := g + w;
    ContainsInRight(", ", w, "color: red"); w := ", " + w;
    ContainsInRight(r, w, "color: red"); w := r + w;
    ContainsInRight("background-color: rgba(", w, "color: red"); w := "background-color: rgba(" + w;
    ContainsInRight(Spaces(16), w, "color: red"); w := Spaces(16) + w;
    ContainsInRight("\n", w, "color: red"); w := "\n" + w;
    ContainsInRight(";", w, "color: red"); w := ";" + w;
    ContainsInRight(text, w, "color: red"); w := text + w;
    ContainsInRight("color: ", w, "color: red"); w := "color: " + w;
    ContainsInRight(Spaces(16), w, "color: red"); w := Spaces(16) + w;
    ContainsInRight("\n", w, "color: red"); w := "\n" + w;
    ContainsInRight("QLabel {", w, "color: red"); w := "QLabel {" + w;
    ContainsInRight(Spaces(12), w, "color: red"); w := Spaces(12) + w;
    ContainsInRight("\n", w, "color: red"); w := "\n" + w;
  }

  /** `color: ` followed by a text starting with `red` reads `color: red`. */
  lemma ColorRed(text: string, w: string)
    requires StartsWith(text, "red")
    ensures Contains("color: " + (text + w), "color: red")
  {
    assert ("color: " + (text + w))[..10] == "color: red";
    ContainsAt("color: " + (text + w), "color: red", 0);
  }

  /** A text colour starting with `red` completes the `color: ` before it. */
  lemma StyleShapeTextRed(text: string, r: string, g: string, b: string, opacity: string, radius: string)
    requires StartsWith(text, "red")
    ensures Contains(StyleShape(text, r, g, b, opacity, radius), "color: red")
  {
    var w := text + (";" + ("\n" + (Spaces(16) + ("background-color: rgba(" + (r + (", " + (g + (", " + (b + (", " + (opacity + (");" + ("\n" + (Spaces(16) + ("border-radius: " + (radius + ("px;" + ("\n" + (Spaces(16) + ("padding: " + ("30px 60px" + (";  /*  */" + ("\n" + (Spaces(12) + ("}" + ("\n" + Spaces(8)))))))))))))))))))))))))));
    ColorRed(text, ";" + ("\n" + (Spaces(16) + ("background-color: rgba(" + (r + (", " + (g + (", " + (b + (", " + (opacity + (");" + ("\n" + (Spaces(16) + ("border-radius: " + (radius + ("px;" + ("\n" + (Spaces(16) + ("padding: " + ("30px 60px" + (";  /*  */" + ("\n" + (Spaces(12) + ("}" + ("\n" + Spaces(8)))))))))))))))))))))))))));
    w := "color: " + w;
    ContainsInRight(Spaces(16), w, "color: red"); w := Spaces(16) + w;
    ContainsInRight("\n", w, "color: red"); w := "\n" + w;
    ContainsInRight("QLabel {", w, "color: red"); w := "QLabel {" + w;
    ContainsInRight(Spaces(12), w, "color: red"); w := Spaces(12) + w;
    ContainsInRight("\n", w, "color: red"); w := "\n" + w;
  }

  /** With plain settings the text colour of the style holds no `r`. */
  lemma PlainTextNoR(s: Settings, show: Json -> string)
    requires ApplyFault(s).None? && PlainStyle(s)
    ensures 'r' !in ShownText(s, show)
  {
    if Truthy(s["night_mode"]) {
      NightTextNoR(s, show);
    } else {
      DayTextShown(s, show);
      HexTextNoR(s["text_color"].s);
    }
  }

  /** In night mode the text colour of the style is the dimmed colour, which holds no `r`. */
  lemma NightTextNoR(s: Settings, show: Json -> string)
    requires ApplyFault(s).None? && Truthy(s["night_mode"])
    ensures 'r' !in ShownText(s, show)
  {
    HexTextNoR(Dimmed(HexToRgb(s["text_color"].s).value));
  }

  /** A colour written with `#`, a sign and hex digits holds no `r`. */
  lemma HexTextNoR(t: string)
    requires forall c :: c in t ==> c == '#' || c == '-' || IsHexDigit(c)
    ensures 'r' !in t
  {
    assert !IsHexDigit('r');
  }

  /** With plain settings the opacity and the radius of the style are integers. */
  lemma PlainNumbers(s: Settings, show: Json -> string)
    requires ApplyFault(s).None? && PlainStyle(s)
    ensures ShownOpacity(s).JInt? && StyleText(ShownOpacity(s), show) == IntText(ShownOpacity(s).i)
    ensures ShownRadius(s).JInt? && StyleText(ShownRadius(s), show) == IntText(ShownRadius(s).i)
  {
  }

  /** A number's text holds no `r`. */
  lemma IntTextNoR(n: int)
    ensures 'r' !in IntText(n)
  {
  }

  /** With plain settings the normal style never passes the red test, so the label can alternate. */
  lemma PlainStyleNotRed(s: Settings, show: Json -> string)
    requires ApplyFault(s).None? && PlainStyle(s)
    ensures !StyleSaysRed(s, show)
  {
    OccursIsContains(NormalStyle(s, show), "color: red");
    var rgb := HexToRgb(s["bg_color"].s).value;
    PlainTextNoR(s, show);
    PlainNumbers(s, show);
    IntTextNoR(rgb.0);
    IntTextNoR(rgb.1);
    IntTextNoR(rgb.2);
    IntTextNoR(ShownOpacity(s).i);
    IntTextNoR(ShownRadius(s).i);
    StyleShapeNotRed(ShownText(s, show), IntText(rgb.0), IntText(rgb.1), IntText(rgb.2),
                     StyleText(ShownOpacity(s), show), StyleText(ShownRadius(s), show));
  }

  /** A string radius holding `color: red` makes the normal style pass the red test. */
  lemma RadiusTextLooksRed(s: Settings, show: Json -> string, radius: string)
    requires ApplyFault(s).None? && ShownRadius(s) == JStr(radius) && Contains(radius, "color: red")
    ensures StyleSaysRed(s, show)
  {
    OccursIsContains(NormalStyle(s, show), "color: red");
    var rgb := HexToRgb(s["bg_color"].s).value;
    StyleShapeRadiusRed(ShownText(s, show), IntText(rgb.0), IntText(rgb.1), IntText(rgb.2),
                        StyleText(ShownOpacity(s), show), radius);
  }

  /** `0px; color: red` holds `color: red`. */
  lemma RedRadiusText()
    ensures Contains("0px; color: red", "color: red")
  {
    assert "0px; color: red"[5..] == "color: red";
    ContainsAt("0px; color: red", "color: red", 5);
  }

  /** The settings `{"corner_radius": "0px; color: red"}` with rounded corners: the style always reads as red. */
  lemma RedRadiusExample(s: Settings, show: Json -> string)
    requires ApplyFault(s).None? && "corner_radius" in s && s["corner_radius"] == JStr("0px; color: red")
    requires Truthy(GetOr(s, "rounded_corners", JBool(true)))
    ensures StyleSaysRed(s, show)
  {
    RedRadiusText();
    RadiusTextLooksRed(s, show, "0px; color: red");
  }

  /** In day mode a string text colour is written into the style as it is. */
  lemma DayTextShown(s: Settings, show: Json -> string)
    requires "night_mode" in s && "text_color" in s && !Truthy(s["night_mode"]) && s["text_color"].JStr?
    ensures ShownText(s, show) == s["text_color"].s
  {
  }

  /** A day-mode text colour starting with `red` makes the normal style pass the red test. */
  lemma RedTextLooksRed(s: Settings, show: Json -> string)
    requires ApplyFault(s).None? && !Truthy(s["night_mode"])
    requires s["text_color"].JStr? && StartsWith(s["text_color"].s, "red")
    ensures StyleSaysRed(s, show)
  {
    OccursIsContains(NormalStyle(s, show), "color: red");
    var rgb := HexToRgb(s["bg_color"].s).value;
    DayTextShown(s, show);
    StyleShapeTextRed(ShownText(s, show), IntText(rgb.0), IntText(rgb.1), IntText(rgb.2),
                      StyleText(ShownOpacity(s), show), StyleText(ShownRadius(s), show));
  }

  // ---------------------------------------------------------------------
  // The handlers as functions on the window's state
  // ---------------------------------------------------------------------

  /**
   * The part of the window's state its handlers change; `red` is whether
   * the label's style sheet holds `color: red`, the test `flash_window` makes.
   */
  datatype View = View(
    settings: Settings,
    elapsed: int,
    running: bool,
    flashing: bool,
    flashCount: int,
    red: bool,
    flashTimer: bool,
    display: string,
    icon: Icon,
    events: seq<Event>)

  /**
   * What the window reads from its surroundings: the translator, the
   * sound-file check, the toast library, the wall clock, and whether the
   * normal style `apply_settings` writes for given settings passes the red
   * test of `flash_window` (the window's constructor fixes it to
   * `StyleSaysRed`).
   */
  datatype Env = Env(tr: string -> string, soundExists: string -> bool, toaster: bool, now: WallClock, looksRed: Settings -> bool)

  /** `update_tray_icon`. */
  function RefreshIcon(v: View): View
  {
    v.(icon := TrayIconFor(v.flashing, v.running, v.elapsed))
  }

  /** The mode-key fallback: a falsy `timer_mode_key` is derived from the mode text and stored. */
  function WithModeKey(v: View): View
  {
    if Truthy(ModeKeyOf(v.settings)) then v
    else v.(settings := v.settings["timer_mode_key" := JStr(DeriveModeKey(GetOr(v.settings, "timer_mode", JStr(""))))])
  }

  /**
   * `on_countdown_finished`: a non-canonical action key is derived and
   * stored; then the sound, the flashing, the notices and the icon.
   */
  function Finished(v: View, env: Env): (View, Outcome)
  {
    var key := FinishActionKey(v.settings);
    var w := if OneOf(GetOr(v.settings, "countdown_action_key", JNull), ActionKeys) then v
             else v.(settings := v.settings["countdown_action_key" := JStr(key)]);
    match SoundEvents(v.settings, env.soundExists)
    case None => (w, Raised("TypeError"))
    case Some(sound) =>
      var f := if StartsFlash(key) then w.(flashing := true, flashCount := 0, flashTimer := true) else w;
      (RefreshIcon(f.(events := f.events + sound + NoticeEvents(v.settings, env.toaster, env.tr))), Done)
  }

  /**
   * `update_time`: clock mode shows the clock; otherwise a running counter
   * ticks, a countdown reaching zero stops and runs the finish handler, and
   * the label shows `HH:MM:SS`.
   */
  function UpdatedTime(v: View, env: Env): (View, Outcome)
  {
    var u := WithModeKey(v);
    var key := ModeKeyOf(u.settings);
    if key == JStr("clock") then (u.(display := ClockDisplay(u.settings, env.now)), Done)
    else
      var t := Tick(Counter(u.elapsed, u.running), key == JStr("countdown"));
      var w := u.(elapsed := t.0.elapsed, running := t.0.running);
      var f := if t.1 then Finished(w, env) else (w, Done);
      if f.1.Raised? then f else (f.0.(display := FormatHms(f.0.elapsed)), Done)
  }

  /** `toggle_pause`. */
  function TogglePaused(v: View, env: Env): View
  {
    var running := !v.running;
    RefreshIcon(v.(running := running,
                   events := v.events + [TrayMessage(env.tr("app_name"), env.tr(if running then "timer_continued" else "timer_paused"))]))
  }

  /** `reset_timer`: back to the configured countdown (minutes default 0) or to zero, stopped. */
  function ResetView(v: View, env: Env): View
    requires CountdownValid(v.settings)
  {
    var u := WithModeKey(v);
    assert CountdownValid(u.settings);
    var e := if ModeKeyOf(u.settings) == JStr("countdown") then CountdownTotal(u.settings, 0) else 0;
    var w := UpdatedTime(u.(elapsed := e, running := false), env).0;
    RefreshIcon(w.(events := w.events + [TrayMessage(env.tr("app_name"), env.tr("timer_reset"))]))
  }

  /**
   * `apply_settings`: a colour it cannot read raises; otherwise the normal
   * style, the counter restarted from the settings (minutes default 25)
   * unless `preserveElapsed`, `update_time`, and the icon.
   */
  function Applied(v: View, env: Env, preserveElapsed: bool): (View, Outcome)
    requires CountdownValid(v.settings)
  {
    match ApplyFault(v.settings)
    case Some(e) => (v, Raised(e))
    case None =>
      var u := WithModeKey(v.(red := env.looksRed(v.settings)));
      assert CountdownValid(u.settings);
      var e := if preserveElapsed then u.elapsed
               else if ModeKeyOf(u.settings) == JStr("countdown") then CountdownTotal(u.settings, 25) else 0;
      var r := UpdatedTime(u.(elapsed := e), env);
      if r.1.Raised? then r else (RefreshIcon(r.0), Done)
  }

  /**
   * `flash_window`: while flashing the label alternates between the red
   * style and `apply_settings` and the count advances, stopping at
   * `FLASH_COUNT_MAX`; when not flashing the flash timer stops and the
   * settings are applied.
   */
  function Flashed(v: View, env: Env): (View, Outcome)
    requires CountdownValid(v.settings)
  {
    if v.flashing then
      var r := if v.red then Applied(v, env, false)
               else if RestyleFault(v.settings).Some? then (v, Raised(RestyleFault(v.settings).value))
               else (v.(red := true), Done);
      if r.1.Raised? then r else (FlashCounted(r.0), Done)
    else Applied(v.(flashTimer := false), env, false)
  }

  /** The count half of `flash_window`: one more flash; at `FLASH_COUNT_MAX` the flashing stops and the icon is updated. */
  function FlashCounted(w: View): View
  {
    if w.flashCount + 1 >= Constants.FlashCountMax then RefreshIcon(w.(flashing := false, flashCount := 0))
    else w.(flashCount := w.flashCount + 1)
  }

  /** The settings `quick_countdown` stores. */
  function QuickSettings(s: Settings, modeText: string, h: int, m: int, sec: int): Settings
  {
    s["timer_mode" := JStr(modeText)]["timer_mode_key" := JStr("countdown")]
     ["countdown_hours" := JInt(h)]["countdown_minutes" := JInt(m)]["countdown_seconds" := JInt(sec)]
  }

  /** The tray message of `quick_countdown`. */
  function CountdownSetText(h: nat, m: nat, sec: nat, tr: string -> string): string
  {
    DecimalString(h) + " " + tr("hours") + " " + DecimalString(m) + " " + tr("minutes") + " "
    + DecimalString(sec) + " " + tr("seconds")
  }

  /** `quick_countdown` (its callers clamp the fields): store, reset, tell the tray. */
  function QuickCountdownView(v: View, env: Env, h: nat, m: nat, sec: nat): View
    requires h <= 99 && m <= 59 && sec <= 59
  {
    var w := ResetView(v.(settings := QuickSettings(v.settings, env.tr("countdown_mode"), h, m, sec)), env);
    w.(events := w.events + [TrayMessage(env.tr("countdown_set"), CountdownSetText(h, m, sec, env.tr))])
  }

  /** The settings a mode switch stores. */
  function ModeSettings(s: Settings, modeText: string, key: string): Settings
  {
    s["timer_mode" := JStr(modeText)]["timer_mode_key" := JStr(key)]
  }

  /** `switch_to_count_up` and `switch_to_clock_mode`: store the mode, reset. */
  function SwitchedView(v: View, env: Env, key: string): View
    requires CountdownValid(v.settings)
  {
    var s := ModeSettings(v.settings, env.tr(if key == "clock" then "clock_mode" else "count_up_mode"), key);
    assert CountdownValid(s);
    ResetView(v.(settings := s), env)
  }

  // ---------------------------------------------------------------------
  // Properties of the handlers
  // ---------------------------------------------------------------------

  /** The counter after `update_time`: clock mode leaves it alone, the other modes tick. */
  function Advance(s: Settings, c: Counter): (Counter, bool)
  {
    if ModeKeyOf(s) == JStr("clock") then (c, false) else Tick(c, ModeKeyOf(s) == JStr("countdown"))
  }

  /** The label text of `update_time`. */
  function DisplayFor(s: Settings, now: WallClock, elapsed: int): string
  {
    if ModeKeyOf(s) == JStr("clock") then ClockDisplay(s, now) else FormatHms(elapsed)
  }

  /**
   * The two keys the handlers fall back on are set: the mode key is truthy
   * and the action key canonical, so neither fallback stores anything.
   */
  predicate KeysSettled(s: Settings)
  {
    Truthy(ModeKeyOf(s)) && OneOf(GetOr(s, "countdown_action_key", JNull), ActionKeys)
  }

  /** Validated settings have both keys set. */
  lemma ValidatedKeysSettled(s: Settings)
    requires Validated(s)
    ensures KeysSettled(s)
  {
  }

  /** In clock mode `update_time` only shows the clock: the counter stays where it is. */
  lemma UpdatedTimeClock(v: View, env: Env)
    requires KeysSettled(v.settings) && ModeKeyOf(v.settings) == JStr("clock")
    ensures UpdatedTime(v, env).0 == v.(display := ClockDisplay(v.settings, env.now))
    ensures UpdatedTime(v, env).1 == Done
  {
  }

  /**
   * In the counting modes, unless a countdown reaches zero, `update_time`
   * moves the counter as `Tick` does and shows it as `HH:MM:SS`.
   */
  lemma UpdatedTimeCounts(v: View, env: Env)
    requires KeysSettled(v.settings) && ModeKeyOf(v.settings) != JStr("clock")
    requires !Tick(Counter(v.elapsed, v.running), ModeKeyOf(v.settings) == JStr("countdown")).1
    ensures var a := Tick(Counter(v.elapsed, v.running), ModeKeyOf(v.settings) == JStr("countdown"));
      UpdatedTime(v, env).0 == v.(elapsed := a.0.elapsed, running := a.0.running, display := FormatHms(a.0.elapsed))
      && UpdatedTime(v, env).1 == Done
  {
  }

  /**
   * A countdown reaching zero stops at zero and runs the finish handler;
   * `update_time` raises exactly when the handler does, and otherwise shows
   * `00:00:00`.
   */
  lemma UpdatedTimeFinishes(v: View, env: Env)
    requires KeysSettled(v.settings) && ModeKeyOf(v.settings) != JStr("clock")
    requires Tick(Counter(v.elapsed, v.running), ModeKeyOf(v.settings) == JStr("countdown")).1
    ensures var w := v.(elapsed := 0, running := false);
      UpdatedTime(v, env).1 == Finished(w, env).1
      && (UpdatedTime(v, env).1 == Done ==> UpdatedTime(v, env).0 == Finished(w, env).0.(display := FormatHms(0)))
  {
  }

  /**
   * The finish handler's effects: `flash` and `beep_flash` start the flash
   * timer from a zero count, the events are exactly `FinishEvents`, the
   * counter and the settings of validated settings are untouched, and it
   * raises exactly when `FinishEvents` does.
   */
  lemma FinishedEffects(v: View, env: Env)
    requires KeysSettled(v.settings)
    ensures var r := Finished(v, env).0;
      r.settings == v.settings && r.elapsed == v.elapsed && r.running == v.running && r.display == v.display
    ensures FinishEvents(v.settings, env.soundExists, env.toaster, env.tr).None? <==> Finished(v, env).1.Raised?
    ensures FinishEvents(v.settings, env.soundExists, env.toaster, env.tr).None? ==> Finished(v, env).0 == v
    ensures var r := Finished(v, env).0;
      var fx := FinishEvents(v.settings, env.soundExists, env.toaster, env.tr);
      var key := FinishActionKey(v.settings);
      fx.Some? ==>
        r.events == v.events + fx.value
        && (StartsFlash(key) ==> r.flashing && r.flashCount == 0 && r.flashTimer)
        && (!StartsFlash(key) ==> r.flashing == v.flashing && r.flashCount == v.flashCount && r.flashTimer == v.flashTimer)
        && r.icon == TrayIconFor(r.flashing, r.running, r.elapsed)
  {
    var key := FinishActionKey(v.settings);
    assert OneOf(GetOr(v.settings, "countdown_action_key", JNull), ActionKeys);
    var sound := SoundEvents(v.settings, env.soundExists);
    if sound.Some? {
      var f := if StartsFlash(key) then v.(flashing := true, flashCount := 0, flashTimer := true) else v;
      assert Finished(v, env).0 == RefreshIcon(f.(events := f.events + sound.value + NoticeEvents(v.settings, env.toaster, env.tr)));
    }
  }

  /** With both keys settled `update_time` stores nothing: the settings stay as they are. */
  lemma UpdatedTimeKeepsSettings(v: View, env: Env)
    requires KeysSettled(v.settings)
    ensures UpdatedTime(v, env).0.settings == v.settings
  {
    var t := Tick(Counter(v.elapsed, v.running), ModeKeyOf(v.settings) == JStr("countdown"));
    if ModeKeyOf(v.settings) != JStr("clock") && t.1 {
      FinishedEffects(v.(elapsed := t.0.elapsed, running := t.0.running), env);
    }
  }

  /** A stopped counter never reaches the finish handler, so `update_time` cannot raise on it. */
  lemma StoppedUpdateIsDone(v: View, env: Env)
    requires !v.running
    ensures UpdatedTime(v, env).1 == Done
    ensures UpdatedTime(v, env).0.elapsed == v.elapsed && !UpdatedTime(v, env).0.running
  {
  }

  /**
   * `reset_timer` stops the counter at the configured countdown (or zero in
   * the other modes), shows it, announces the reset and updates the icon.
   */
  lemma ResetViewState(v: View, env: Env)
    requires CountdownValid(v.settings) && KeysSettled(v.settings)
    ensures var r := ResetView(v, env);
      var e := if ModeKeyOf(v.settings) == JStr("countdown") then CountdownTotal(v.settings, 0) else 0;
      r.settings == v.settings && !r.running && r.elapsed == e
      && r.display == DisplayFor(v.settings, env.now, e)
      && r.events == v.events + [TrayMessage(env.tr("app_name"), env.tr("timer_reset"))]
      && r.icon == TrayIconFor(v.flashing, false, e)
      && r.flashing == v.flashing && r.flashCount == v.flashCount && r.flashTimer == v.flashTimer
  {
    var e := if ModeKeyOf(v.settings) == JStr("countdown") then CountdownTotal(v.settings, 0) else 0;
    var u := v.(elapsed := e, running := false);
    if ModeKeyOf(v.settings) == JStr("clock") {
      UpdatedTimeClock(u, env);
    } else {
      UpdatedTimeCounts(u, env);
    }
  }

  /** `toggle_pause` twice is the identity on the counter and the icon, with two tray messages. */
  lemma TogglePausedTwice(v: View, env: Env)
    ensures var r := TogglePaused(TogglePaused(v, env), env);
      r.running == v.running && r.elapsed == v.elapsed && r.settings == v.settings
      && r.icon == TrayIconFor(v.flashing, v.running, v.elapsed)
      && |r.events| == |v.events| + 2
  {
  }

  /** When `apply_settings` cannot read a colour it raises before changing anything. */
  lemma AppliedFaultChangesNothing(v: View, env: Env, preserveElapsed: bool)
    requires CountdownValid(v.settings) && ApplyFault(v.settings).Some?
    ensures Applied(v, env, preserveElapsed).0 == v
    ensures Applied(v, env, preserveElapsed).1 == Raised(ApplyFault(v.settings).value)
  {
  }

  /** Without a fault, `apply_settings` is `update_time` from the restarted counter, then the icon. */
  lemma AppliedRunsUpdate(v: View, env: Env, preserveElapsed: bool)
    requires CountdownValid(v.settings) && KeysSettled(v.settings) && ApplyFault(v.settings).None?
    ensures var r := UpdatedTime(v.(red := env.looksRed(v.settings), elapsed := RestartValue(v, preserveElapsed)), env);
      Applied(v, env, preserveElapsed).1 == r.1
      && Applied(v, env, preserveElapsed).0 == if r.1.Raised? then r.0 else RefreshIcon(r.0)
  {
    var red := env.looksRed(v.settings);
    assert WithModeKey(v.(red := red)) == v.(red := red);
  }

  /** Where `apply_settings` restarts the counter: from the settings (the 25-minute default) or where it was. */
  function RestartValue(v: View, preserveElapsed: bool): int
    requires CountdownValid(v.settings)
  {
    if preserveElapsed then v.elapsed
    else if ModeKeyOf(v.settings) == JStr("countdown") then CountdownTotal(v.settings, 25) else 0
  }

  /**
   * `r` is what `apply_settings` may leave: the settings kept, the normal
   * style (which passes the red test as `looksRed` says), the counter
   * restarted and moved as in `update_time`, nothing else changed unless a
   * countdown finished, and after a normal end the label and the icon
   * showing the new state.
   */
  ghost predicate Restarted(v: View, env: Env, preserveElapsed: bool, r: (View, Outcome))
    requires CountdownValid(v.settings)
  {
    var a := Advance(v.settings, Counter(RestartValue(v, preserveElapsed), v.running));
    r.0.settings == v.settings && r.0.red == env.looksRed(v.settings) && r.0.elapsed == a.0.elapsed && r.0.running == a.0.running
    && (!a.1 ==> r.1 == Done && r.0.events == v.events && r.0.flashing == v.flashing
                 && r.0.flashCount == v.flashCount && r.0.flashTimer == v.flashTimer)
    && (r.1 == Done ==> r.0.display == DisplayFor(v.settings, env.now, a.0.elapsed)
                        && r.0.icon == TrayIconFor(r.0.flashing, r.0.running, r.0.elapsed))
  }

  lemma AppliedRestartsClock(v: View, env: Env, preserveElapsed: bool)
    requires CountdownValid(v.settings) && KeysSettled(v.settings) && ApplyFault(v.settings).None?
    requires ModeKeyOf(v.settings) == JStr("clock")
    ensures Restarted(v, env, preserveElapsed, Applied(v, env, preserveElapsed))
  {
    AppliedRunsUpdate(v, env, preserveElapsed);
    UpdatedTimeClock(v.(red := env.looksRed(v.settings), elapsed := RestartValue(v, preserveElapsed)), env);
  }

  lemma AppliedRestartsCounting(v: View, env: Env, preserveElapsed: bool)
    requires CountdownValid(v.settings) && KeysSettled(v.settings) && ApplyFault(v.settings).None?
    requires ModeKeyOf(v.settings) != JStr("clock")
    requires !Tick(Counter(RestartValue(v, preserveElapsed), v.running), ModeKeyOf(v.settings) == JStr("countdown")).1
    ensures Restarted(v, env, preserveElapsed, Applied(v, env, preserveElapsed))
  {
    AppliedRunsUpdate(v, env, preserveElapsed);
    UpdatedTimeCounts(v.(red := env.looksRed(v.settings), elapsed := RestartValue(v, preserveElapsed)), env);
  }

  lemma AppliedRestartsFinishing(v: View, env: Env, preserveElapsed: bool)
    requires CountdownValid(v.settings) && KeysSettled(v.settings) && ApplyFault(v.settings).None?
    requires ModeKeyOf(v.settings) != JStr("clock")
    requires Tick(Counter(RestartValue(v, preserveElapsed), v.running), ModeKeyOf(v.settings) == JStr("countdown")).1
    ensures Restarted(v, env, preserveElapsed, Applied(v, env, preserveElapsed))
  {
    var u := v.(red := env.looksRed(v.settings), elapsed := RestartValue(v, preserveElapsed));
    AppliedRunsUpdate(v, env, preserveElapsed);
    UpdatedTimeFinishes(u, env);
    FinishedEffects(u.(elapsed := 0, running := false), env);
  }

  /**
   * Otherwise `apply_settings` restores the normal style and restarts the
   * counter from the settings (the 25-minute default) unless told to keep
   * it; the counter then moves as in `update_time`.
   */
  lemma AppliedRestarts(v: View, env: Env, preserveElapsed: bool)
    requires CountdownValid(v.settings) && KeysSettled(v.settings) && ApplyFault(v.settings).None?
    ensures Restarted(v, env, preserveElapsed, Applied(v, env, preserveElapsed))
  {
    if ModeKeyOf(v.settings) == JStr("clock") {
      AppliedRestartsClock(v, env, preserveElapsed);
    } else if !Tick(Counter(RestartValue(v, preserveElapsed), v.running), ModeKeyOf(v.settings) == JStr("countdown")).1 {
      AppliedRestartsCounting(v, env, preserveElapsed);
    } else {
      AppliedRestartsFinishing(v, env, preserveElapsed);
    }
  }

  /** `r` ends normally, keeps the settings and the stopped counter, and moves the flash state as `FlashStep` does. */
  ghost predicate FollowsFlashStep(v: View, r: (View, Outcome))
  {
    r.1 == Done && r.0.settings == v.settings && !r.0.running
    && Flash(r.0.flashing, r.0.flashCount, r.0.red) == FlashStep(Flash(v.flashing, v.flashCount, v.red))
    && r.0.flashTimer == (v.flashing && v.flashTimer)
  }

  /** From the normal style the label turns red and the count advances, ending the flashing at `FLASH_COUNT_MAX`. */
  lemma FlashedToRed(v: View, env: Env)
    requires CountdownValid(v.settings) && v.flashing && !v.red && RestyleFault(v.settings).None?
    ensures Flashed(v, env).0 == FlashCounted(v.(red := true))
    ensures Flashed(v, env).1 == Done
  {
  }

  /** From red the settings are applied, then the count advances as from the normal style. */
  lemma FlashedFromRedApplies(v: View, env: Env)
    requires CountdownValid(v.settings) && v.flashing && v.red
    ensures var r := Applied(v, env, false);
      Flashed(v, env).1 == r.1
      && Flashed(v, env).0 == if r.1.Raised? then r.0 else FlashCounted(r.0)
  {
  }

  /** When not flashing the flash timer stops and the settings are applied. */
  lemma FlashedIdleApplies(v: View, env: Env)
    requires CountdownValid(v.settings) && !v.flashing
    ensures Flashed(v, env).0 == Applied(v.(flashTimer := false), env, false).0
    ensures Flashed(v, env).1 == Applied(v.(flashTimer := false), env, false).1
  {
  }

  lemma FlashedFromRed(v: View, env: Env)
    requires CountdownValid(v.settings) && KeysSettled(v.settings) && !v.running
    requires ApplyFault(v.settings).None? && !env.looksRed(v.settings) && v.flashing && v.red
    ensures FollowsFlashStep(v, Flashed(v, env))
  {
    AppliedRestarts(v, env, false);
  }

  lemma FlashedIdle(v: View, env: Env)
    requires CountdownValid(v.settings) && KeysSettled(v.settings) && !v.running
    requires ApplyFault(v.settings).None? && !env.looksRed(v.settings) && !v.flashing
    ensures FollowsFlashStep(v, Flashed(v, env))
  {
    AppliedRestarts(v.(flashTimer := false), env, false);
  }

  /**
   * On a stopped counter with readable colours whose normal style does not
   * pass the red test (`PlainStyleNotRed` gives one such case), the flash state follows `FlashStep` exactly: the
   * window flashes `FLASH_COUNT_MAX` times and stops, alternating between
   * red and the normal style; when not flashing the flash timer stops.
   * `FlashedOnRedStyle` is the other case.
   */
  lemma FlashedFollowsFlashStep(v: View, env: Env)
    requires CountdownValid(v.settings) && KeysSettled(v.settings) && !v.running
    requires ApplyFault(v.settings).None? && RestyleFault(v.settings).None? && !env.looksRed(v.settings)
    ensures FollowsFlashStep(v, Flashed(v, env))
  {
    if !v.flashing {
      FlashedIdle(v, env);
    } else if v.red {
      FlashedFromRed(v, env);
    } else {
      FlashedToRed(v, env);
    }
  }

  /**
   * When the normal style itself passes the red test (a radius such as
   * `0px; color: red`, or a text colour starting with `red`), every firing
   * from the normal style applies the settings again and the label stays
   * in the normal style: the count advances to `FLASH_COUNT_MAX` with no
   * red phase, and the counter restarts from the settings each time.
   */
  lemma FlashedOnRedStyle(v: View, env: Env)
    requires CountdownValid(v.settings) && KeysSettled(v.settings) && !v.running
    requires ApplyFault(v.settings).None? && env.looksRed(v.settings) && v.flashing && v.red
    ensures var r := Flashed(v, env);
      r.1 == Done && r.0.settings == v.settings && !r.0.running && r.0.red
      && r.0.elapsed == Advance(v.settings, Counter(RestartValue(v, false), false)).0.elapsed
      && r.0.flashing == FlashStep(Flash(v.flashing, v.flashCount, v.red)).flashing
      && r.0.flashCount == FlashStep(Flash(v.flashing, v.flashCount, v.red)).count
  {
    var a := Applied(v, env, false);
    AppliedRestarts(v, env, false);
    assert a.1 == Done && a.0.flashing && a.0.flashCount == v.flashCount && a.0.red;
    assert Flashed(v, env) == (FlashCounted(a.0), Done);
  }

  /** A restyle fault leaves the flash state where it was, so flashing never ends. */
  lemma FlashedStuckOnRestyleFault(v: View, env: Env)
    requires CountdownValid(v.settings) && v.flashing && !v.red && RestyleFault(v.settings).Some?
    ensures Flashed(v, env).0 == v
    ensures Flashed(v, env).1 == Raised(RestyleFault(v.settings).value)
  {
  }

  /** Changing the mode keeps the settings valid. */
  lemma ValidatedAfterModeChange(s: Settings, text: string, key: string)
    requires Validated(s) && key in ModeKeys
    ensures Validated(ModeSettings(s, text, key))
  {
    var t := ModeSettings(s, text, key);
    var ks := {"timer_mode", "timer_mode_key"};
    assert SameOutside(t, s, ks);
    GetOrOutside(t, s, ks, "font_size", JInt(96));
    GetOrOutside(t, s, ks, "bg_opacity", JInt(200));
    KeyGroupsDisjoint();
    CountdownValidOutside(t, s, ks);
    AppearanceValidOutside(t, s, ks);
    BehaviourValidOutside(t, s, ks);
  }

  /** Storing in-range countdown fields keeps the settings valid. */
  lemma ValidatedAfterQuick(s: Settings, text: string, h: int, m: int, sec: int)
    requires Validated(s) && 0 <= h <= 99 && 0 <= m <= 59 && 0 <= sec <= 59
    ensures Validated(QuickSettings(s, text, h, m, sec))
  {
    var t0 := ModeSettings(s, text, "countdown");
    ValidatedAfterModeChange(s, text, "countdown");
    var t := QuickSettings(s, text, h, m, sec);
    assert t == t0["countdown_hours" := JInt(h)]["countdown_minutes" := JInt(m)]["countdown_seconds" := JInt(sec)];
    assert SameOutside(t, t0, CountdownKeySet);
    KeyGroupsDisjoint();
    DisplayValidOutside(t, t0, CountdownKeySet);
    AppearanceValidOutside(t, t0, CountdownKeySet);
    BehaviourValidOutside(t, t0, CountdownKeySet);
  }

  /** The settings `quick_countdown` stores select the countdown and hold its duration. */
  lemma QuickSettingsRead(s: Settings, modeText: string, h: nat, m: nat, sec: nat)
    requires KeysSettled(s) && h <= 99 && m <= 59 && sec <= 59
    ensures var q := QuickSettings(s, modeText, h, m, sec);
      KeysSettled(q) && CountdownValid(q) && ModeKeyOf(q) == JStr("countdown")
      && CountdownTotal(q, 0) == h * 3600 + m * 60 + sec
  {
  }

  /**
   * `quick_countdown(h, m, s)` leaves a stopped countdown of exactly
   * `h * 3600 + m * 60 + s` seconds on the label and announces it after
   * the reset message.
   */
  lemma QuickCountdownSets(v: View, env: Env, h: nat, m: nat, sec: nat)
    requires KeysSettled(v.settings) && h <= 99 && m <= 59 && sec <= 59
    ensures QuickCountdownView(v, env, h, m, sec).settings == QuickSettings(v.settings, env.tr("countdown_mode"), h, m, sec)
    ensures !QuickCountdownView(v, env, h, m, sec).running
    ensures QuickCountdownView(v, env, h, m, sec).elapsed == h * 3600 + m * 60 + sec
    ensures QuickCountdownView(v, env, h, m, sec).display == FormatHms(h * 3600 + m * 60 + sec)
    ensures QuickCountdownView(v, env, h, m, sec).events
      == v.events + [TrayMessage(env.tr("app_name"), env.tr("timer_reset")),
                     TrayMessage(env.tr("countdown_set"), CountdownSetText(h, m, sec, env.tr))]
  {
    var s := QuickSettings(v.settings, env.tr("countdown_mode"), h, m, sec);
    QuickSettingsRead(v.settings, env.tr("countdown_mode"), h, m, sec);
    QuickResetState(v.(settings := s), env, h * 3600 + m * 60 + sec);
  }

  /** The reset inside `quick_countdown`, on settings holding a countdown of `total` seconds. */
  lemma QuickResetState(u: View, env: Env, total: int)
    requires KeysSettled(u.settings) && CountdownValid(u.settings) && ModeKeyOf(u.settings) == JStr("countdown")
    requires CountdownTotal(u.settings, 0) == total
    ensures ResetView(u, env).settings == u.settings && !ResetView(u, env).running
    ensures ResetView(u, env).elapsed == total && ResetView(u, env).display == FormatHms(total)
    ensures ResetView(u, env).events == u.events + [TrayMessage(env.tr("app_name"), env.tr("timer_reset"))]
  {
    ResetViewState(u, env);
  }

  /** A mode switch stores the mode, keeps the settings valid, and leaves a stopped zero counter. */
  lemma SwitchedViewState(v: View, env: Env, key: string)
    requires Validated(v.settings) && (key == "countup" || key == "clock")
    ensures var r := SwitchedView(v, env, key);
      r.settings == ModeSettings(v.settings, env.tr(if key == "clock" then "clock_mode" else "count_up_mode"), key)
      && !r.running && r.elapsed == 0
      && r.display == (if key == "clock" then ClockDisplay(r.settings, env.now) else FormatHms(0))
  {
    var s := ModeSettings(v.settings, env.tr(if key == "clock" then "clock_mode" else "count_up_mode"), key);
    ValidatedAfterModeChange(v.settings, env.tr(if key == "clock" then "clock_mode" else "count_up_mode"), key);
    ValidatedKeysSettled(s);
    ResetViewState(v.(settings := s), env);
  }

  /** The startup block keeps the presets, so it can be applied to the loaded document with its presets replaced. */
  lemma StartupAfterLoad(file: StoredFile, loaded: Settings, tr: string -> string)
    requires PresetsKey in loaded
    requires forall f :: f == file ==> loaded == FixSettings(ReadDocument(f)[PresetsKey := loaded[PresetsKey]]).0
    ensures PresetsKey in StartupOverride(loaded, tr) && StartupOverride(loaded, tr)[PresetsKey] == loaded[PresetsKey]
    ensures forall f :: f == file ==>
      StartupOverride(loaded, tr) == StartupOverride(FixSettings(ReadDocument(f)[PresetsKey := StartupOverride(loaded, tr)[PresetsKey]]).0, tr)
  {
    StartupKeepsPresets(loaded, tr, PresetsKey);
    forall f | f == file
      ensures StartupOverride(loaded, tr) == StartupOverride(FixSettings(ReadDocument(f)[PresetsKey := StartupOverride(loaded, tr)[PresetsKey]]).0, tr)
    {
      StartupOnFixed(ReadDocument(f), loaded, tr);
    }
  }

  /** The same for any document that the loaded settings are the fixed form of. */
  lemma StartupOnFixed(doc: Settings, loaded: Settings, tr: string -> string)
    requires PresetsKey in loaded && loaded == FixSettings(doc[PresetsKey := loaded[PresetsKey]]).0
    ensures StartupOverride(loaded, tr) == StartupOverride(FixSettings(doc[PresetsKey := StartupOverride(loaded, tr)[PresetsKey]]).0, tr)
  {
    StartupKeepsPresets(loaded, tr, PresetsKey);
  }

  // ---------------------------------------------------------------------
  // The window
  // ---------------------------------------------------------------------

  class TimerWindow {
    /**
     * The attributes the handlers change — the settings dict,
     * `elapsed_seconds`, `is_running`, `is_flashing`, `flash_count`, the
     * label's style and text, the flash timer, the tray icon and what the
     * window has shown or played — kept together as one `View`.
     */
    var view: View
    /** `_pending_save` and the single-shot save timer. */
    var save: SaveState
    /** The settings file as last written. */
    var savedFile: Option<Settings>
    /** How the closing `apply_settings` of the constructor ended. */
    var startupOutcome: Outcome
    /** How the constructor's `ensure_sounds_folder` ended (`Done` when it did not run). */
    var soundsOutcome: Outcome
    /** The settings as the constructor loaded them, before `apply_settings`. */
    ghost var loaded: Settings
    /** Whether writing the settings file succeeds. */
    const diskWritable: bool
    /** The wall clock clock mode shows. */
    const now: WallClock
    /** The translator. */
    const tr: string -> string
    /** The id source standing in for `uuid`. */
    const freshId: (set<string>, string) -> string
    /** Whether a sound file path names an existing file. */
    const soundExists: string -> bool
    /** Whether the toast library is available. */
    const toasterAvailable: bool
    /** Python's `str()` of a float, a list or a dict written into the label's style. */
    const show: Json -> string
    /** `'color: red' in` the normal style `apply_settings` writes for given settings. */
    const looksRed: Settings -> bool

    function Surroundings(): Env
    {
      Env(tr, soundExists, toasterAvailable, now, looksRed)
    }

    /** The settings stay validated: every handler reads them. */
    ghost predicate Valid()
      reads this`view
    {
      Validated(view.settings) && FreshIdOracle(freshId)
    }

    /**
     * Construction with the save machinery created before `load_settings`,
     * the order the startup block evidently intends (the order as written
     * is `ValidateAtStartupAsWritten`): the settings are the loaded
     * document, validated, with the startup mode applied; the counter starts at zero and runs
     * when `auto_start_timer` is set; `apply_settings` then runs, and
     * `ensure_sounds_folder` after it.
     */
    constructor (file: StoredFile, tr: string -> string, freshId: (set<string>, string) -> string,
                 soundExists: string -> bool, toasterAvailable: bool, diskWritable: bool, now: WallClock,
                 show: Json -> string, pick: Option<string>)
      requires FreshIdOracle(freshId)
      ensures Valid()
      ensures PresetsKey in view.settings && view.settings[PresetsKey].JList? && WellFormedList(view.settings[PresetsKey].items)
      ensures PresetsKey in loaded && loaded[PresetsKey] == view.settings[PresetsKey]
      ensures forall f :: f == file ==> loaded == StartupOverride(FixSettings(ReadDocument(f)[PresetsKey := loaded[PresetsKey]]).0, tr)
      ensures forall f :: f == file ==> LoadedPresets(f, loaded[PresetsKey])
      ensures view.settings == if startupOutcome.Done? then SoundPicked(loaded, soundExists, pick).0 else loaded
      ensures soundsOutcome == if startupOutcome.Done? then SoundPicked(loaded, soundExists, pick).2 else Done
      ensures save.pending ==> !diskWritable || save.armed
      ensures forall s :: ApplyFault(s).None? ==> (looksRed(s) <==> StyleSaysRed(s, show))
    {
      this.tr := tr;
      this.freshId := freshId;
      this.soundExists := soundExists;
      this.toasterAvailable := toasterAvailable;
      this.diskWritable := diskWritable;
      this.now := now;
      this.show := show;
      looksRed := RedTest(show);
      view := View(map[], 0, false, false, 0, false, false, "", StopIcon, []);
      save := SaveState(false, false, 0);
      savedFile := None;
      startupOutcome := Done;
      soundsOutcome := Done;
      loaded := map[];
      new;
      Start(file, pick);
    }

    /** The constructor's work once the fields exist: loading, the startup block, `apply_settings` and `ensure_sounds_folder`. */
    method Start(file: StoredFile, pick: Option<string>)
      requires FreshIdOracle(freshId) && !save.pending
      modifies this`view, this`save, this`savedFile, this`startupOutcome, this`soundsOutcome, this`loaded
      ensures Valid()
      ensures PresetsKey in view.settings && view.settings[PresetsKey].JList? && WellFormedList(view.settings[PresetsKey].items)
      ensures PresetsKey in loaded && loaded[PresetsKey] == view.settings[PresetsKey]
      ensures forall f :: f == file ==> loaded == StartupOverride(FixSettings(ReadDocument(f)[PresetsKey := loaded[PresetsKey]]).0, tr)
      ensures forall f :: f == file ==> LoadedPresets(f, loaded[PresetsKey])
      ensures view.settings == if startupOutcome.Done? then SoundPicked(loaded, soundExists, pick).0 else loaded
      ensures soundsOutcome == if startupOutcome.Done? then SoundPicked(loaded, soundExists, pick).2 else old(soundsOutcome)
      ensures save.pending ==> !diskWritable || save.armed
    {
      LoadAtStartup(file);
      loaded := view.settings;
      ApplyAndPickSound(pick);
    }

    /**
     * The end of the constructor: `apply_settings`, then, when it returned,
     * `ensure_sounds_folder` with the drawn `pick`.
     */
    method ApplyAndPickSound(pick: Option<string>)
      requires Valid()
      modifies this`view, this`save, this`savedFile, this`startupOutcome, this`soundsOutcome
      ensures Valid()
      ensures var p := SoundPicked(old(view.settings), soundExists, pick);
        && view.settings == (if startupOutcome.Done? then p.0 else old(view.settings))
        && soundsOutcome == (if startupOutcome.Done? then p.2 else old(soundsOutcome))
        && save == (if startupOutcome.Done? && p.1 then Save(old(save), false, diskWritable) else old(save))
      ensures startupOutcome == Applied(old(view), Surroundings(), false).1
      ensures savedFile == old(savedFile)
    {
      startupOutcome := ApplySettings(false);
      PickSoundIfStarted(pick);
    }

    /** `ensure_sounds_folder` runs only when `apply_settings` returned. */
    method PickSoundIfStarted(pick: Option<string>)
      requires Valid()
      modifies this`view, this`save, this`savedFile, this`soundsOutcome
      ensures Valid()
      ensures var p := SoundPicked(old(view.settings), soundExists, pick);
        && view.settings == (if startupOutcome.Done? then p.0 else old(view.settings))
        && soundsOutcome == (if startupOutcome.Done? then p.2 else old(soundsOutcome))
        && save == (if startupOutcome.Done? && p.1 then Save(old(save), false, diskWritable) else old(save))
      ensures savedFile == old(savedFile)
    {
      if startupOutcome.Done? {
        soundsOutcome := EnsureSoundsFolder(pick);
      }
    }

    /**
     * `ensure_sounds_folder`: when `sound_file` is unset or names no
     * existing file, the drawn `pick` is stored and a deferred save is
     * scheduled.
     */
    method EnsureSoundsFolder(pick: Option<string>) returns (out: Outcome)
      requires Valid()
      modifies this`view, this`save, this`savedFile
      ensures Valid()
      ensures var r := SoundPicked(old(view.settings), soundExists, pick);
        view == old(view).(settings := r.0) && out == r.2
        && save == (if r.1 then Save(old(save), false, diskWritable) else old(save))
        && savedFile == old(savedFile)
    {
      SoundPickedKeepsValidated(view.settings, soundExists, pick);
      var f := GetOr(view.settings, "sound_file", JStr(""));
      if Truthy(f) && !f.JStr? {
        return Raised("TypeError");
      }
      if (!Truthy(f) || !soundExists(f.s)) && pick.Some? {
        view := view.(settings := view.settings["sound_file" := JStr(pick.value)]);
        SaveSettings(false);
      }
      out := Done;
    }

    /**
     * The constructor up to `apply_settings`: `load_settings`, then the
     * startup block, and the counter at zero, running when
     * `auto_start_timer` is set.
     */
    method LoadAtStartup(file: StoredFile)
      requires FreshIdOracle(freshId) && !save.pending
      modifies this`view, this`save, this`savedFile
      ensures Valid()
      ensures PresetsKey in view.settings && view.settings[PresetsKey].JList? && WellFormedList(view.settings[PresetsKey].items)
      ensures forall f :: f == file ==> view.settings == StartupOverride(FixSettings(ReadDocument(f)[PresetsKey := view.settings[PresetsKey]]).0, tr)
      ensures forall f :: f == file ==> LoadedPresets(f, view.settings[PresetsKey])
      ensures view.elapsed == 0 && view.running == Truthy(GetOr(view.settings, "auto_start_timer", JBool(false)))
      ensures save.pending ==> !diskWritable
    {
      LoadSettings(file);
      ghost var loaded := view.settings;
      StartupKeepsValidated(loaded, tr);
      StartupAfterLoad(file, loaded, tr);
      var s := StartupOverride(view.settings, tr);
      view := view.(settings := s, elapsed := 0, running := Truthy(GetOr(s, "auto_start_timer", JBool(false))));
    }

    // -------------------------------------------------------------------
    // Settings persistence
    // -------------------------------------------------------------------

    /** `ensure_presets_normalized`: stores the normalised presets when they changed. */
    method EnsurePresetsNormalized() returns (changed: bool)
      requires FreshIdOracle(freshId)
      modifies this`view
      ensures view == old(view).(settings := view.settings)
      ensures changed <==> !WellFormedPresets(PresetsOf(old(view.settings)))
      ensures !changed ==> view == old(view)
      ensures SameOutside(view.settings, old(view.settings), {PresetsKey})
      ensures WellFormedPresets(PresetsOf(view.settings))
      ensures changed ==> PresetsNormalizedFrom(old(view.settings), view.settings)
    {
      var normalized, ch := NormalizeCountdownPresets(PresetsOf(view.settings), LanguageOf(view.settings), freshId);
      if ch {
        view := view.(settings := view.settings[PresetsKey := JList(normalized)]);
      }
      changed := ch;
    }

    /**
     * `_do_save_settings`: nothing when no save is pending; otherwise the
     * presets are normalised and the settings written, and the flag clears
     * only when the write succeeds.
     */
    method DoSaveSettings()
      requires FreshIdOracle(freshId)
      modifies this`view, this`save, this`savedFile
      ensures view == old(view).(settings := view.settings)
      ensures save == DoSave(old(save), diskWritable)
      ensures !old(save.pending) ==> view == old(view)
      ensures SameOutside(view.settings, old(view.settings), {PresetsKey})
      ensures old(save.pending) ==> WellFormedPresets(PresetsOf(view.settings))
      ensures WellFormedPresets(PresetsOf(old(view.settings))) ==> view == old(view)
      ensures old(save.pending) && !WellFormedPresets(PresetsOf(old(view.settings))) ==> PresetsNormalizedFrom(old(view.settings), view.settings)
      ensures savedFile == if old(save.pending) && diskWritable then Some(view.settings) else old(savedFile)
    {
      if !save.pending {
        return;
      }
      var changed := EnsurePresetsNormalized();
      if diskWritable {
        savedFile := Some(view.settings);
        save := save.(pending := false, writes := save.writes + 1);
      }
    }

    /** `save_settings(immediate)`. */
    method SaveSettings(immediate: bool)
      requires FreshIdOracle(freshId)
      modifies this`view, this`save, this`savedFile
      ensures view == old(view).(settings := view.settings)
      ensures save == Save(old(save), immediate, diskWritable)
      ensures !immediate ==> view == old(view)
      ensures SameOutside(view.settings, old(view.settings), {PresetsKey})
      ensures immediate ==> WellFormedPresets(PresetsOf(view.settings))
      ensures WellFormedPresets(PresetsOf(old(view.settings))) ==> view == old(view)
      ensures immediate && !WellFormedPresets(PresetsOf(old(view.settings))) ==> PresetsNormalizedFrom(old(view.settings), view.settings)
      ensures savedFile == if immediate && diskWritable then Some(view.settings) else old(savedFile)
    {
      save := SaveState(true, false, save.writes);
      if immediate {
        DoSaveSettings();
      } else {
        save := save.(armed := true);
      }
    }

    /** The single-shot save timer fires. */
    method OnSaveTimerFired()
      requires FreshIdOracle(freshId) && save.armed
      modifies this`view, this`save, this`savedFile
      ensures view == old(view).(settings := view.settings)
      ensures save == Fire(old(save), diskWritable)
      ensures SameOutside(view.settings, old(view.settings), {PresetsKey})
      ensures !old(save.pending) ==> view == old(view)
      ensures old(save.pending) ==> WellFormedPresets(PresetsOf(view.settings))
      ensures WellFormedPresets(PresetsOf(old(view.settings))) ==> view == old(view)
      ensures old(save.pending) && !WellFormedPresets(PresetsOf(old(view.settings))) ==> PresetsNormalizedFrom(old(view.settings), view.settings)
      ensures savedFile == if old(save.pending) && diskWritable then Some(view.settings) else old(savedFile)
    {
      save := save.(armed := false);
      DoSaveSettings();
    }

    /** `_validate_and_fix_settings`: the settings become `FixSettings` of themselves; a fix is saved at once. */
    method ValidateAndFixSettings()
      requires FreshIdOracle(freshId)
      modifies this`view, this`save, this`savedFile
      ensures view == old(view).(settings := view.settings)
      ensures Validated(view.settings)
      ensures forall s :: s == old(view.settings) ==>
        SameOutside(view.settings, FixSettings(s).0, {PresetsKey})
        && (WellFormedPresets(PresetsOf(s)) ==> view.settings == FixSettings(s).0 && PresetsOf(view.settings) == PresetsOf(s))
        && save == (if FixSettings(s).1 then Save(old(save), true, diskWritable) else old(save))
        && savedFile == (if FixSettings(s).1 && diskWritable then Some(view.settings) else old(savedFile))
    {
      ghost var s0 := view.settings;
      var fixedSettings, fixed := Fixed(view.settings);
      PresetsNotValidated();
      view := view.(settings := fixedSettings);
      if fixed {
        SaveValidated();
      }
    }

    /** The immediate save after a fix: it touches only the presets, so the settings stay validated. */
    method SaveValidated()
      requires FreshIdOracle(freshId) && Validated(view.settings)
      modifies this`view, this`save, this`savedFile
      ensures view == old(view).(settings := view.settings)
      ensures Validated(view.settings)
      ensures SameOutside(view.settings, old(view.settings), {PresetsKey})
      ensures WellFormedPresets(PresetsOf(old(view.settings))) ==> view == old(view)
      ensures save == Save(old(save), true, diskWritable)
      ensures savedFile == if diskWritable then Some(view.settings) else old(savedFile)
    {
      ghost var s0 := view.settings;
      SaveSettings(true);
      PresetsNotValidated();
      ValidatedOutside(view.settings, s0, {PresetsKey});
    }

    static method Fixed(s: Settings) returns (r: Settings, fixed: bool)
      ensures Validated(r) && SameOutside(r, s, ValidatedKeys)
      ensures forall t :: t == s ==> r == FixSettings(t).0 && fixed == FixSettings(t).1
    {
      r, fixed := FixSettings(s).0, FixSettings(s).1;
      FixSettingsSound(s);
      FixSettingsFrame(s);
    }

    /** The backfill loop of `load_settings`: every default key missing from the stored dict is added. */
    static method BackfillDefaults(doc: Settings, defaults: Settings) returns (filled: Settings)
      ensures filled == Backfill(doc, defaults)
      ensures forall k :: k in doc ==> filled[k] == doc[k]
    {
      filled := doc;
      var todo := defaults.Keys;
      while todo != {}
        invariant todo <= defaults.Keys
        invariant filled.Keys == doc.Keys + (defaults.Keys - todo)
        invariant forall k :: k in filled ==> filled[k] == if k in doc then doc[k] else defaults[k]
        decreases todo
      {
        var key :| key in todo;
        if key !in filled {
          filled := filled[key := defaults[key]];
        }
        todo := todo - {key};
      }
    }

    /** The stored dict: backfilled from the defaults, shortcuts merged, keys migrated. */
    method MigrateStored(doc: Settings, defaults: Settings)
      requires FreshIdOracle(freshId) && "timer_mode_key" in defaults
      modifies this`view, this`save, this`savedFile
      ensures view == old(view).(settings := view.settings)
      ensures SameOutside(view.settings, Migrated(doc, defaults), {PresetsKey})
      ensures PresetsAfterRead(Migrated(doc, defaults), ActionKeyMigrates(doc, defaults), view.settings)
      ensures save.pending ==> old(save.pending) || !diskWritable
      ensures !old(save.pending) && !diskWritable ==> savedFile == old(savedFile)
    {
      var s, keyMissing := MigratedDict(doc, defaults);
      view := view.(settings := s);
      if keyMissing {
        SaveSettings(true);
      }
    }

    /** The backfill, the shortcut merge and the action-key migration; `keyMissing` says whether the key was migrated. */
    static method MigratedDict(doc: Settings, defaults: Settings) returns (s: Settings, keyMissing: bool)
      requires "timer_mode_key" in defaults
      ensures s == Migrated(doc, defaults)
      ensures keyMissing == ActionKeyMigrates(doc, defaults)
    {
      s := BackfillDefaults(doc, defaults);
      s := s["shortcuts" := ShortcutsAfterLoad(if "shortcuts" in s then Some(s["shortcuts"]) else None)];
      // The mode-key migration never runs: the backfill has just stored `timer_mode_key`.
      keyMissing := !OneOf(GetOr(s, "countdown_action_key", JNull), ActionKeys);
      if keyMissing {
        s := s["countdown_action_key" := JStr(DeriveActionKey(GetOr(s, "countdown_action", JStr(""))))];
      }
    }

    /** The dict `load_settings` reads: the stored one, or the defaults; shortcuts merged once more. */
    method ReadSettingsFile(file: StoredFile)
      requires FreshIdOracle(freshId)
      modifies this`view, this`save, this`savedFile
      ensures view == old(view).(settings := view.settings)
      ensures forall f :: f == file ==> SameOutside(view.settings, ReadDocument(f), {PresetsKey})
      ensures forall f :: f == file ==> ReadPresets(f, view.settings)
      ensures save.pending ==> old(save.pending) || !diskWritable
      ensures !old(save.pending) && !diskWritable ==> savedFile == old(savedFile)
    {
      if file.Parsed? && file.doc.JObj? {
        ReadStoredDict(file);
      } else {
        ReadDefaults(file);
      }
    }

    /** The file holds a dict: it is migrated, then its shortcuts are merged once more. */
    method ReadStoredDict(file: StoredFile)
      requires file.Parsed? && file.doc.JObj?
      requires FreshIdOracle(freshId)
      modifies this`view, this`save, this`savedFile
      ensures view == old(view).(settings := view.settings)
      ensures forall f :: f == file ==> SameOutside(view.settings, ReadDocument(f), {PresetsKey})
      ensures forall f :: f == file ==> ReadPresets(f, view.settings)
      ensures save.pending ==> old(save.pending) || !diskWritable
      ensures !old(save.pending) && !diskWritable ==> savedFile == old(savedFile)
    {
      ModeKeyMigrationUnreachable(ToMap(file.doc.fields));
      MigrateStored(ToMap(file.doc.fields), DefaultSettings());
      BaseIsMigrated(file);
      ReadFromBase(file, view.settings);
      view := view.(settings := Remerged(view.settings));
    }

    /** No readable dict: the defaults stand in, and their shortcuts are merged once more. */
    method ReadDefaults(file: StoredFile)
      requires !(file.Parsed? && file.doc.JObj?)
      requires FreshIdOracle(freshId)
      modifies this`view, this`save, this`savedFile
      ensures view == old(view).(settings := view.settings)
      ensures forall f :: f == file ==> SameOutside(view.settings, ReadDocument(f), {PresetsKey})
      ensures forall f :: f == file ==> ReadPresets(f, view.settings)
      ensures save.pending ==> old(save.pending) || !diskWritable
      ensures !old(save.pending) && !diskWritable ==> savedFile == old(savedFile)
    {
      ReadUnparsedPresets(file);
      view := view.(settings := Remerged(DefaultSettings()));
    }

    /**
     * `load_settings` with the save machinery in place: the stored dict,
     * the preset normalisation and the validation. The result is the
     * validated document with the normalised presets.
     */
    method LoadSettings(file: StoredFile)
      requires FreshIdOracle(freshId) && !save.pending
      modifies this`view, this`save, this`savedFile
      ensures view == old(view).(settings := view.settings)
      ensures PresetsKey in view.settings && view.settings[PresetsKey].JList? && WellFormedList(view.settings[PresetsKey].items)
      ensures forall f :: f == file ==> view.settings == FixSettings(ReadDocument(f)[PresetsKey := view.settings[PresetsKey]]).0
      ensures forall f :: f == file ==> LoadedPresets(f, view.settings[PresetsKey])
      ensures Validated(view.settings)
      ensures save.pending ==> !diskWritable
    {
      LoadStoredSettings(file);
      ValidateAndFixSettings();
    }

    /** The part of `load_settings` before the validation: the dict read, its presets normalised and saved when they changed. */
    method LoadStoredSettings(file: StoredFile)
      requires FreshIdOracle(freshId) && !save.pending
      modifies this`view, this`save, this`savedFile
      ensures view == old(view).(settings := view.settings)
      ensures WellFormedPresets(PresetsOf(view.settings))
      ensures forall f :: f == file ==> view.settings == ReadDocument(f)[PresetsKey := view.settings[PresetsKey]]
      ensures forall f :: f == file ==> LoadedPresets(f, view.settings[PresetsKey])
      ensures save.pending ==> !diskWritable
    {
      ReadSettingsFile(file);
      ghost var read := view.settings;
      var changed := NormalizeLoadedPresets();
      LoadedFromRead(file, read, view.settings);
      if changed {
        SaveSettings(true);
      }
      forall f | f == file
        ensures view.settings == ReadDocument(f)[PresetsKey := view.settings[PresetsKey]]
      {
        SameOutsideStep(ReadDocument(f), read, view.settings, {PresetsKey}, PresetsKey);
        assert {PresetsKey} + {PresetsKey} == {PresetsKey};
        SameOutsideOne(view.settings, ReadDocument(f), PresetsKey);
      }
    }

    /** The preset pass of `load_settings`: the normalised presets are stored; `changed` says whether they differ. */
    method NormalizeLoadedPresets() returns (changed: bool)
      requires FreshIdOracle(freshId)
      modifies this`view
      ensures view == old(view).(settings := view.settings)
      ensures WellFormedPresets(PresetsOf(view.settings))
      ensures view.settings == old(view.settings)[PresetsKey := view.settings[PresetsKey]]
      ensures PresetsNormalizedFrom(old(view.settings), view.settings)
      ensures changed <==> !WellFormedPresets(PresetsOf(old(view.settings)))
    {
      var normalized;
      normalized, changed := NormalizeCountdownPresets(PresetsOf(view.settings), LanguageOf(view.settings), freshId);
      view := view.(settings := view.settings[PresetsKey := JList(normalized)]);
    }

    // -------------------------------------------------------------------
    // The counter
    // -------------------------------------------------------------------

    /** `settings.get('timer_mode_key')`, derived from the mode text and stored when it is falsy. */
    method ModeKey() returns (key: Json)
      modifies this`view
      ensures view == WithModeKey(old(view))
      ensures key == ModeKeyOf(view.settings)
    {
      key := ModeKeyOf(view.settings);
      if !Truthy(key) {
        key := JStr(DeriveModeKey(GetOr(view.settings, "timer_mode", JStr(""))));
        view := view.(settings := view.settings["timer_mode_key" := key]);
      }
    }

    /** `update_tray_icon`. */
    method UpdateTrayIcon()
      modifies this`view
      ensures view == RefreshIcon(old(view))
    {
      view := view.(icon := TrayIconFor(view.flashing, view.running, view.elapsed));
    }

    /** `on_countdown_finished`. */
    method OnCountdownFinished() returns (out: Outcome)
      modifies this`view
      ensures view == Finished(old(view), Surroundings()).0
      ensures out == Finished(old(view), Surroundings()).1
    {
      var key := GetOr(view.settings, "countdown_action_key", JNull);
      var sound := SoundEvents(view.settings, soundExists);
      var notices := NoticeEvents(view.settings, toasterAvailable, tr);
      if !OneOf(key, ActionKeys) {
        key := JStr(DeriveActionKey(GetOr(view.settings, "countdown_action", JStr(""))));
        view := view.(settings := view.settings["countdown_action_key" := key]);
      }
      if sound.None? {
        return Raised("TypeError");
      }
      view := view.(events := view.events + sound.value);
      if StartsFlash(key.s) {
        view := view.(flashing := true, flashCount := 0, flashTimer := true);
      }
      view := view.(events := view.events + notices);
      UpdateTrayIcon();
      out := Done;
    }

    /** `update_time`. */
    method UpdateTime() returns (out: Outcome)
      modifies this`view
      ensures view == UpdatedTime(old(view), Surroundings()).0
      ensures out == UpdatedTime(old(view), Surroundings()).1
    {
      var key := ModeKey();
      out := Done;
      if key == JStr("clock") {
        view := view.(display := ClockDisplay(view.settings, now));
      } else {
        var t := Tick(Counter(view.elapsed, view.running), key == JStr("countdown"));
        view := view.(elapsed := t.0.elapsed, running := t.0.running);
        if t.1 {
          out := OnCountdownFinished();
          if out.Raised? {
            return;
          }
        }
        view := view.(display := FormatHms(view.elapsed));
      }
    }

    /** `toggle_pause`. */
    method TogglePause()
      modifies this`view
      ensures view == TogglePaused(old(view), Surroundings())
    {
      var running := !view.running;
      view := view.(running := running,
                    events := view.events + [TrayMessage(tr("app_name"), tr(if running then "timer_continued" else "timer_paused"))]);
      UpdateTrayIcon();
    }

    /** `reset_timer`. */
    method ResetTimer()
      requires Valid()
      modifies this`view
      ensures Valid()
      ensures view == ResetView(old(view), Surroundings())
    {
      ValidatedKeysSettled(view.settings);
      ResetViewState(view, Surroundings());
      var key := ModeKey();
      view := view.(elapsed := if key == JStr("countdown") then CountdownTotal(view.settings, 0) else 0, running := false);
      var out := UpdateTime();
      view := view.(events := view.events + [TrayMessage(tr("app_name"), tr("timer_reset"))]);
      UpdateTrayIcon();
    }

    /** `quick_countdown(h, m, s)`; both callers clamp the fields into range first. */
    method QuickCountdown(h: nat, m: nat, sec: nat)
      requires Valid() && h <= 99 && m <= 59 && sec <= 59
      modifies this`view, this`save, this`savedFile
      ensures Valid()
      ensures view == QuickCountdownView(old(view), Surroundings(), h, m, sec)
      ensures save == Save(old(save), false, diskWritable) && savedFile == old(savedFile)
    {
      ValidatedAfterQuick(view.settings, tr("countdown_mode"), h, m, sec);
      view := view.(settings := QuickSettings(view.settings, tr("countdown_mode"), h, m, sec));
      ghost var u := view;
      SaveSettings(false);
      assert save == Save(old(save), false, diskWritable) && savedFile == old(savedFile);
      ResetTimer();
      assert view == ResetView(u, Surroundings());
      view := view.(events := view.events + [TrayMessage(tr("countdown_set"), CountdownSetText(h, m, sec, tr))]);
    }

    /** `switch_to_count_up` (`key == "countup"`) and `switch_to_clock_mode` (`key == "clock"`). */
    method SwitchMode(key: string)
      requires Valid() && (key == "countup" || key == "clock")
      modifies this`view, this`save, this`savedFile
      ensures Valid()
      ensures view == SwitchedView(old(view), Surroundings(), key)
      ensures save == Save(old(save), false, diskWritable) && savedFile == old(savedFile)
    {
      var text := tr(if key == "clock" then "clock_mode" else "count_up_mode");
      ValidatedAfterModeChange(view.settings, text, key);
      view := view.(settings := ModeSettings(view.settings, text, key));
      SaveSettings(false);
      ResetTimer();
    }

    /** `apply_settings(preserve_elapsed)`. */
    method ApplySettings(preserveElapsed: bool) returns (out: Outcome)
      requires Valid()
      modifies this`view
      ensures Valid() && view.settings == old(view.settings)
      ensures view == Applied(old(view), Surroundings(), preserveElapsed).0
      ensures out == Applied(old(view), Surroundings(), preserveElapsed).1
    {
      ValidatedKeysSettled(view.settings);
      var fault := ApplyFault(view.settings);
      if fault.Some? {
        return Raised(fault.value);
      }
      AppliedRunsUpdate(view, Surroundings(), preserveElapsed);
      RestartCounter(preserveElapsed);
      UpdatedTimeKeepsSettings(view, Surroundings());
      out := UpdateTime();
      if out.Raised? {
        return;
      }
      UpdateTrayIcon();
    }

    /** The middle of `apply_settings`: the normal style, then the counter back to the settings' value unless kept. */
    method RestartCounter(preserveElapsed: bool)
      requires Valid()
      modifies this`view
      ensures view == old(view).(red := looksRed(old(view).settings), elapsed := RestartValue(old(view), preserveElapsed))
    {
      ValidatedKeysSettled(view.settings);
      view := view.(red := looksRed(view.settings));
      var key := ModeKey();
      if !preserveElapsed {
        view := view.(elapsed := if key == JStr("countdown") then CountdownTotal(view.settings, 25) else 0);
      }
    }

    /** `flash_window`, the slot of the flash timer. */
    method FlashWindow() returns (out: Outcome)
      requires Valid()
      modifies this`view
      ensures Valid()
      ensures view == Flashed(old(view), Surroundings()).0
      ensures out == Flashed(old(view), Surroundings()).1
    {
      ghost var v0 := view;
      ghost var env := Surroundings();
      if view.flashing {
        if view.red {
          FlashedFromRedApplies(v0, env);
          out := ApplySettings(false);
        } else {
          var fault := RestyleFault(view.settings);
          if fault.Some? {
            FlashedStuckOnRestyleFault(v0, env);
            return Raised(fault.value);
          }
          FlashedToRed(v0, env);
          view := view.(red := true);
          out := Done;
        }
        if out.Raised? {
          return;
        }
        if view.flashCount + 1 >= Constants.FlashCountMax {
          view := view.(flashing := false, flashCount := 0);
          UpdateTrayIcon();
        } else {
          view := view.(flashCount := view.flashCount + 1);
        }
      } else {
        FlashedIdleApplies(v0, env);
        view := view.(flashTimer := false);
        out := ApplySettings(false);
      }
    }
  }
}
