/*
 * The earlier single-file generation of the timer (desktop_timer.py): its
 * translator, its key-backfilling settings load, and a window whose
 * handlers recognise the mode and the finish action by substring tests on
 * translated display text rather than by stored keys. The tick, the flash
 * machine and the tray icon are the ones of TimerCore.
 */
module LegacyTimer {
  import opened PyJson
  import opened SettingsText
  import opened SettingsStore
  import opened TimerCore
  import TW = TimerWindowModel

  // ---------------------------------------------------------------------
  // L18n
  // ---------------------------------------------------------------------

  /** The translator: a language code and the document its language file held. */
  class L18n {
    var langCode: string
    var translations: Json

    /** `__init__`: loads the language file of `langCode`. */
    constructor (langCode: string, file: TW.StoredFile)
      ensures this.langCode == langCode
      ensures translations == Translations(file)
    {
      this.langCode := langCode;
      translations := Translations(file);
    }

    /** `load`: the parsed file, or no translations when it cannot be read or parsed. */
    method Load(file: TW.StoredFile)
      modifies this
      ensures translations == Translations(file) && langCode == old(langCode)
    {
      match file {
        case Parsed(doc) => translations := doc;
        case _ => translations := JObj([]);
      }
    }

    /**
     * `tr`: the translation stored for `key`, or `key` itself when there is
     * none; `None` is the AttributeError of a file whose top level is not
     * an object.
     */
    function Tr(key: string): (r: Option<Json>)
      reads this
      ensures translations.JObj? && Get(translations.fields, key).None? ==> r == Some(JStr(key))
      ensures translations.JObj? && Get(translations.fields, key).Some? ==> r == Get(translations.fields, key)
      ensures r.None? <==> !translations.JObj?
    {
      match translations
      case JObj(fields) => (match Get(fields, key) case Some(v) => Some(v) case None => Some(JStr(key)))
      case _ => None
    }
  }

  /** What `load` leaves in `translations`. */
  function Translations(file: TW.StoredFile): (r: Json)
    ensures !file.Parsed? ==> r == JObj([])
  {
    match file
    case Parsed(doc) => doc
    case _ => JObj([])
  }

  /** Without a readable language file every key translates to itself. */
  lemma UnreadableLanguageIsIdentity(t: L18n, key: string)
    requires t.translations == Translations(TW.Missing) || t.translations == Translations(TW.Unreadable)
    ensures t.Tr(key) == Some(JStr(key))
  {
  }

  // ---------------------------------------------------------------------
  // load_settings
  // ---------------------------------------------------------------------

  /** The defaults of the earlier generation, in their declared order. */
  const LegacyDefaults: seq<(string, Json)> := [
    ("font_family", JStr("Consolas")),
    ("font_size", JInt(96)),
    ("text_color", JStr("#E0E0E0")),
    ("bg_color", JStr("#1E1E1E")),
    ("bg_opacity", JInt(200)),
    ("night_mode", JBool(false)),
    ("timer_mode", JStr("正计时")),
    ("countdown_hours", JInt(0)),
    ("countdown_minutes", JInt(25)),
    ("countdown_seconds", JInt(0)),
    ("countdown_action", JStr("提示音+闪烁")),
    ("language", JStr("zh_CN")),
    ("auto_start_timer", JBool(false)),
    ("rounded_corners", JBool(true)),
    ("corner_radius", JInt(15)),
    ("enable_sound", JBool(true)),
    ("enable_popup", JBool(true)),
    ("sound_file", JStr(""))
  ]

  /** The loaded dict after the first `|d|` defaults have been backfilled. */
  function Backfilled(f: seq<(string, Json)>, d: seq<(string, Json)>): seq<(string, Json)>
    decreases |d|
  {
    if d == [] then f
    else
      var p := Backfilled(f, d[..|d| - 1]);
      var last := d[|d| - 1];
      if last.0 in KeySet(p) then p else p + [last]
  }

  /**
   * Backfilling keeps every stored value and its position, adds exactly the
   * missing defaults after them, and a key present in neither stays absent.
   */
  lemma {:induction false} BackfilledLookup(f: seq<(string, Json)>, d: seq<(string, Json)>, k: string)
    ensures Get(Backfilled(f, d), k) == if Get(f, k).Some? then Get(f, k) else Get(d, k)
    ensures KeySet(Backfilled(f, d)) == KeySet(f) + KeySet(d)
    ensures |f| <= |Backfilled(f, d)| && Backfilled(f, d)[..|f|] == f
    decreases |d|
  {
    if d != [] {
      var init := d[..|d| - 1];
      var last := d[|d| - 1];
      BackfilledLookup(f, init, k);
      BackfilledLookup(f, init, last.0);
      assert init + [last] == d;
      GetAppend(init, [last], k);
      KeySetAppend(init, [last]);
      var p := Backfilled(f, init);
      if last.0 !in KeySet(p) {
        GetAppend(p, [last], k);
        KeySetAppend(p, [last]);
        assert (p + [last])[..|f|] == p[..|f|];
      }
    }
  }

  lemma {:induction false} KeySetAppend<V>(a: seq<(string, V)>, b: seq<(string, V)>)
    ensures KeySet(a + b) == KeySet(a) + KeySet(b)
    decreases |a|
  {
    if |a| > 0 {
      assert (a + b)[1..] == a[1..] + b;
      KeySetAppend(a[1..], b);
    } else {
      assert a + b == b;
    }
  }

  /** The backfill loop of `load_settings` on a loaded dict. */
  method BackfillDefaults(loaded: seq<(string, Json)>) returns (r: seq<(string, Json)>)
    ensures r == Backfilled(loaded, LegacyDefaults)
  {
    r := loaded;
    var n := 0;
    while n < |LegacyDefaults|
      invariant 0 <= n <= |LegacyDefaults|
      invariant r == Backfilled(loaded, LegacyDefaults[..n])
    {
      var (key, value) := LegacyDefaults[n];
      assert LegacyDefaults[..n + 1][..n] == LegacyDefaults[..n];
      if key !in KeySet(r) {
        r := r + [(key, value)];
      }
      n := n + 1;
    }
    assert LegacyDefaults[..n] == LegacyDefaults;
  }

  /** Every key of `defaults` is among the elements (a list) or is a substring (a string) of `doc`. */
  predicate HoldsAllKeys(doc: Json, defaults: seq<(string, Json)>)
  {
    match doc
    case JList(items) => forall i :: 0 <= i < |defaults| ==> JStr(defaults[i].0) in items
    case JStr(t) => forall i :: 0 <= i < |defaults| ==> Contains(t, defaults[i].0)
    case _ => false
  }

  /**
   * `self.settings` after `load_settings` with the given defaults: a dict
   * gets the missing defaults; a missing, unreadable or unparsable file
   * gives the defaults; any other document raises on the first missing key
   * (a list or string cannot take `settings[key] = value`, a number cannot
   * answer `in`) and also gives the defaults, except a list or string that
   * already "holds" every key, which is kept as it is.
   */
  function LoadedDoc(file: TW.StoredFile, defaults: seq<(string, Json)>): (r: Json)
    ensures !file.Parsed? ==> r == JObj(defaults)
    ensures file.Parsed? && file.doc.JObj? ==> r == JObj(Backfilled(file.doc.fields, defaults))
    ensures file.Parsed? && !file.doc.JObj? ==> r == (if HoldsAllKeys(file.doc, defaults) then file.doc else JObj(defaults))
  {
    match file
    case Parsed(JObj(fields)) => JObj(Backfilled(fields, defaults))
    case Parsed(doc) => if HoldsAllKeys(doc, defaults) then doc else JObj(defaults)
    case _ => JObj(defaults)
  }

  /**
   * The settings the window starts with; `None` is the AttributeError
   * `__init__` raises on `settings.get` when the loaded document is no dict.
   */
  function StartSettings(file: TW.StoredFile, defaults: seq<(string, Json)>): Option<Settings>
  {
    match LoadedDoc(file, defaults)
    case JObj(fields) => Some(ToMap(fields))
    case _ => None
  }

  /**
   * After loading, every default key is present; a stored dict keeps its
   * values; a missing or unreadable file gives exactly the defaults.
   */
  lemma LoadedSettings(file: TW.StoredFile, defaults: seq<(string, Json)>, k: string)
    requires StartSettings(file, defaults).Some?
    ensures var s := StartSettings(file, defaults).value;
      && (Get(defaults, k).Some? ==> k in s)
      && (file.Parsed? && file.doc.JObj? && Get(file.doc.fields, k).Some? ==>
            k in s && s[k] == Get(file.doc.fields, k).value)
      && (!file.Parsed? && k in s ==> Some(s[k]) == Get(defaults, k))
  {
    if file.Parsed? && file.doc.JObj? {
      BackfilledLookup(file.doc.fields, defaults, k);
    }
  }

  /** A document that is no dict and misses a key falls back to the defaults, so the window starts. */
  lemma NonDictFallsBack(doc: Json, defaults: seq<(string, Json)>)
    requires !doc.JObj? && !HoldsAllKeys(doc, defaults)
    ensures StartSettings(TW.Parsed(doc), defaults) == Some(ToMap(defaults))
  {
  }

  // ---------------------------------------------------------------------
  // Text tests on translated display text
  // ---------------------------------------------------------------------

  /** `needle in hay` for a string needle; `None` is the TypeError of a value `in` cannot search. */
  function PyIn(needle: string, hay: Json): (r: Option<bool>)
    ensures hay.JStr? ==> r == Some(Contains(hay.s, needle))
    ensures r.None? <==> !(hay.JStr? || hay.JList? || hay.JObj?)
  {
    match hay
    case JStr(t) => Some(Contains(t, needle))
    case JList(items) => Some(JStr(needle) in items)
    case JObj(fields) => Some(needle in KeySet(fields))
    case _ => None
  }

  /** `a in hay or b in hay`, evaluated left to right. */
  function EitherIn(a: string, b: string, hay: Json): (r: Option<bool>)
    ensures r.None? <==> PyIn(a, hay).None?
    ensures r.Some? ==> (r.value <==> PyIn(a, hay).value || PyIn(b, hay).value)
  {
    match PyIn(a, hay)
    case None => None
    case Some(true) => Some(true)
    case Some(false) => PyIn(b, hay)
  }

  /** The mode test: the mode text contains the translated countdown name or `倒计时`. */
  function IsCountdownMode(mode: Json, tr: string -> string): Option<bool>
  {
    EitherIn(tr("countdown_mode"), "倒计时", mode)
  }

  lemma ContainsSelf(t: string)
    ensures Contains(t, t)
  {
    assert t[..|t|] == t;
  }

  /** A one-character needle is found exactly when the text holds that character. */
  lemma {:induction false} ContainsChar(t: string, c: char)
    ensures Contains(t, [c]) <==> c in t
    decreases |t|
  {
    if |t| > 0 {
      ContainsChar(t[1..], c);
      assert t == [t[0]] + t[1..];
    }
  }

  /** The text `quick_countdown` stores is recognised as a countdown under every translation. */
  lemma QuickModeIsCountdown(tr: string -> string)
    ensures IsCountdownMode(JStr(tr("countdown_mode")), tr) == Some(true)
  {
    ContainsSelf(tr("countdown_mode"));
  }

  /** A number as Python arithmetic uses it: an int, or a bool as 0 or 1. */
  function NumberOf(v: Json): (r: Option<int>)
    ensures v.JInt? ==> r == Some(v.i)
    ensures r.Some? <==> v.JInt? || v.JBool?
  {
    match v
    case JInt(i) => Some(i)
    case JBool(b) => Some(if b then 1 else 0)
    case _ => None
  }

  /** `h * 3600 + m * 60 + s`; `None` when a value is no number and the handler raises. */
  function TotalOf(h: Json, m: Json, s: Json): (r: Option<int>)
    ensures h.JInt? && m.JInt? && s.JInt? ==> r == Some(h.i * 3600 + m.i * 60 + s.i)
    ensures r.Some? <==> NumberOf(h).Some? && NumberOf(m).Some? && NumberOf(s).Some?
  {
    match (NumberOf(h), NumberOf(m), NumberOf(s))
    case (Some(a), Some(b), Some(c)) => Some(a * 3600 + b * 60 + c)
    case _ => None
  }

  // ---------------------------------------------------------------------
  // The settings dialog's size box
  // ---------------------------------------------------------------------

  /**
   * The size box's initial index for `font_size`: up to 60 small, up to 80
   * medium, up to 100 large, else extra large; `None` is the TypeError of a
   * value that cannot be compared with a number.
   */
  function SizeIndex(v: Json): (r: Option<int>)
    ensures r.Some? ==> 0 <= r.value < 4
    ensures v.JInt? ==> r.Some?
    ensures v.JInt? ==> (r.value == 0 <==> v.i <= 60) && (r.value == 1 <==> 60 < v.i <= 80)
    ensures v.JInt? ==> (r.value == 2 <==> 80 < v.i <= 100) && (r.value == 3 <==> 100 < v.i)
  {
    match v
    case JInt(n) => Some(if n <= 60 then 0 else if n <= 80 then 1 else if n <= 100 then 2 else 3)
    case JBool(b) => Some(0)
    case JFloat(x) => Some(if x <= 60.0 then 0 else if x <= 80.0 then 1 else if x <= 100.0 then 2 else 3)
    case _ => None
  }

  /**
   * `apply_settings` as written: the first size whose translated name or
   * Chinese word the selected text contains wins, small, medium, large,
   * extra large in that order; no match leaves `font_size` alone (`None`).
   */
  function FontSizeForTextAsWritten(text: string, tr: string -> string): (r: Option<int>)
    ensures r.Some? ==> r.value in {60, 72, 96, 120}
    ensures Contains(text, "小") ==> r == Some(60)
    ensures r.None? ==> !Contains(text, "大")
  {
    if Contains(text, tr("size_small")) || Contains(text, "小") then Some(60)
    else if Contains(text, tr("size_medium")) || Contains(text, "中") then Some(72)
    else if Contains(text, tr("size_large")) || Contains(text, "大") then Some(96)
    else if Contains(text, tr("size_extra_large")) || Contains(text, "超大") then Some(120)
    else None
  }

  /**
   * As written, choosing "超大" (extra large) stores the large size: the
   * test for "大" comes first and "超大" contains it.
   */
  lemma ExtraLargeUnreachable(tr: string -> string)
    requires !Contains("超大", tr("size_small")) && !Contains("超大", tr("size_medium"))
    ensures FontSizeForTextAsWritten("超大", tr) == Some(96)
  {
    ContainsChar("超大", '大');
    ContainsChar("超大", '小');
    ContainsChar("超大", '中');
  }

  /** The size the box's entries stand for: small 60, medium 72, large 96, extra large 120. */
  function FontSizeForIndex(i: int): (r: int)
    requires 0 <= i < 4
    ensures SizeIndex(JInt(r)) == Some(i)
  {
    if i == 0 then 60 else if i == 1 then 72 else if i == 2 then 96 else 120
  }

  /** Every entry of the size box reopens as itself, and every font size falls in the bucket it reopens as. */
  lemma SizeRoundTrip(i: int, n: int)
    requires 0 <= i < 4
    ensures SizeIndex(JInt(FontSizeForIndex(i))) == Some(i)
    ensures SizeIndex(JInt(FontSizeForIndex(SizeIndex(JInt(n)).value))) == SizeIndex(JInt(n))
  {
  }

  // ---------------------------------------------------------------------
  // The handlers, on the window's attributes
  // ---------------------------------------------------------------------

  /**
   * What the window reads from its surroundings: the translator, the
   * sound-file check, `fdOpen`, whether a file descriptor is open, the
   * toast library, whether the settings file can be written, and
   * `looksRed`, whether the normal style `apply_settings` writes for the
   * given settings holds `color: red` (the window's constructor fixes it
   * to `TW.RedTest`).
   */
  datatype Host = Host(tr: string -> string, soundExists: string -> bool, fdOpen: int -> bool, toaster: bool,
                       diskWritable: bool, looksRed: Settings -> bool)

  /** The range of a C `int`, the file descriptors `os.stat` takes. */
  const IntMin: int := -0x8000_0000
  const IntMax: int := 0x7FFF_FFFF

  /**
   * `os.path.exists` on a `sound_file` value: a string is a path; an
   * integer is a file descriptor, which exists while it is open (a bool is
   * the integer 0 or 1). `None` when the call raises (`ExistsError`).
   */
  function PathExists(f: Json, h: Host): Option<bool>
  {
    match f
    case JStr(path) => Some(h.soundExists(path))
    case JBool(b) => Some(h.fdOpen(if b then 1 else 0))
    case JInt(n) => if IntMin <= n <= IntMax then Some(h.fdOpen(n)) else None
    case _ => None
  }

  /** What `os.path.exists` raises: OverflowError for a descriptor beyond a C `int`, TypeError for a value of no path type. */
  function ExistsError(f: Json): string
  {
    if f.JInt? then "OverflowError" else "TypeError"
  }

  /** `play_sound` on a value that exists: a path plays; `QUrl.fromLocalFile` raises on a descriptor, and `play_sound` catches that with a beep. */
  function PlayedSound(f: Json): TW.Event
  {
    if f.JStr? then TW.PlaySound(f.s) else TW.SystemBeep
  }

  /** Why `apply_settings` raises: the font keys first, then the colour faults of the later generation. */
  function ApplyFault(s: Settings): (r: Option<string>)
    ensures "font_family" !in s || "font_size" !in s ==> r == Some("KeyError")
    ensures "font_family" in s && "font_size" in s ==> r == TW.ApplyFault(s)
  {
    if "font_family" !in s || "font_size" !in s then Some("KeyError") else TW.ApplyFault(s)
  }

  /**
   * The counter value `apply_settings` resets to: the countdown total in a
   * mode whose text names a countdown, zero in any other; `None` when a key
   * is missing or a value cannot be searched or added up.
   */
  function AppliedElapsed(s: Settings, tr: string -> string): (r: Option<int>)
    ensures r.Some? ==> "timer_mode" in s && IsCountdownMode(s["timer_mode"], tr).Some?
    ensures r.Some? && !IsCountdownMode(s["timer_mode"], tr).value ==> r == Some(0)
  {
    if "timer_mode" !in s then None
    else match IsCountdownMode(s["timer_mode"], tr)
      case None => None
      case Some(false) => Some(0)
      case Some(true) =>
        if "countdown_hours" !in s || "countdown_minutes" !in s || "countdown_seconds" !in s then None
        else TotalOf(s["countdown_hours"], s["countdown_minutes"], s["countdown_seconds"])
  }

  /** Which error `apply_settings` raises when `AppliedElapsed` has no value: a missing key, or a value it cannot search or add up. */
  function ElapsedError(s: Settings, tr: string -> string): (r: string)
    ensures r == "KeyError" || r == "TypeError"
    ensures "timer_mode" !in s ==> r == "KeyError"
    ensures "timer_mode" in s && IsCountdownMode(s["timer_mode"], tr).None? ==> r == "TypeError"
  {
    if "timer_mode" !in s then "KeyError"
    else if IsCountdownMode(s["timer_mode"], tr) == Some(true)
            && ("countdown_hours" !in s || "countdown_minutes" !in s || "countdown_seconds" !in s) then "KeyError"
    else "TypeError"
  }

  /** The counter value `reset_timer` resets to: missing values count as 0 and a missing mode as a countdown. */
  function ResetElapsed(s: Settings, tr: string -> string): (r: Option<int>)
    ensures "timer_mode" !in s ==> r == TotalOf(GetOr(s, "countdown_hours", JInt(0)), GetOr(s, "countdown_minutes", JInt(0)),
                                                GetOr(s, "countdown_seconds", JInt(0)))
  {
    match IsCountdownMode(GetOr(s, "timer_mode", JStr("倒计时")), tr)
    case None => None
    case Some(false) => Some(0)
    case Some(true) =>
      TotalOf(GetOr(s, "countdown_hours", JInt(0)), GetOr(s, "countdown_minutes", JInt(0)), GetOr(s, "countdown_seconds", JInt(0)))
  }

  /**
   * The sound of the finish handler and how it ended: a set sound file
   * that exists is handed to `play_sound` whatever the action; otherwise a
   * beep when the action text names one. It raises when `os.path.exists`
   * does, or when `in` cannot search the action.
   */
  function FinishSound(s: Settings, action: Json, h: Host): (TW.Outcome, seq<TW.Event>)
  {
    if !Truthy(GetOr(s, "enable_sound", JBool(true))) then (TW.Done, [])
    else
      var file := GetOr(s, "sound_file", JStr(""));
      var found := if Truthy(file) then PathExists(file, h) else Some(false);
      if found.None? then (TW.Raised(ExistsError(file)), [])
      else if found.value then (TW.Done, [PlayedSound(file)])
      else match EitherIn(h.tr("beep"), "提示音", action)
        case None => (TW.Raised("TypeError"), [])
        case Some(b) => (TW.Done, if b then [TW.SystemBeep] else [])
  }

  /** The pop-up (or the tray message when pop-ups are off) and the toast. */
  function FinishNotices(s: Settings, h: Host): seq<TW.Event>
  {
    var title := h.tr("countdown_finished");
    var msg := h.tr("countdown_finished_msg");
    [if Truthy(GetOr(s, "enable_popup", JBool(true))) then TW.Popup(title, msg) else TW.TrayMessage(title, msg)]
    + (if h.toaster then [TW.Toast("DesktopTimer", title + "\n" + msg)] else [])
  }

  /**
   * `on_countdown_finished`: the sound, the flashing when the action text
   * names it, the notices and the icon; a failed text test or sound file
   * raises and ends the handler there.
   */
  function Finished(v: TW.View, h: Host): (r: (TW.View, TW.Outcome))
    ensures r.0.settings == v.settings && r.0.elapsed == v.elapsed && r.0.running == v.running && r.0.display == v.display
    ensures r.0.red == v.red
  {
    if "countdown_action" !in v.settings then (v, TW.Raised("KeyError"))
    else
      var action := v.settings["countdown_action"];
      var sound := FinishSound(v.settings, action, h);
      if sound.0.Raised? then (v, sound.0)
      else
        var u := v.(events := v.events + sound.1);
        match EitherIn(h.tr("flash"), "闪烁", action)
        case None => (u, TW.Raised("TypeError"))
        case Some(fl) =>
          var w := if fl then u.(flashing := true, flashCount := 0, flashTimer := true) else u;
          (TW.RefreshIcon(w.(events := w.events + FinishNotices(w.settings, h))), TW.Done)
  }

  /**
   * `update_time`: a running counter ticks, down when the mode text names a
   * countdown; a countdown reaching zero stops and runs the finish handler;
   * the label shows the counter as `HH:MM:SS`.
   */
  function Updated(v: TW.View, h: Host): (r: (TW.View, TW.Outcome))
    ensures r.0.settings == v.settings && r.0.red == v.red
  {
    if !v.running then (v.(display := FormatHms(v.elapsed)), TW.Done)
    else if "timer_mode" !in v.settings then (v, TW.Raised("KeyError"))
    else match IsCountdownMode(v.settings["timer_mode"], h.tr)
      case None => (v, TW.Raised("TypeError"))
      case Some(countdown) =>
        var f := Counting(v, h, countdown);
        if f.1.Raised? then f else (f.0.(display := FormatHms(f.0.elapsed)), TW.Done)
  }

  /** The counting part of `update_time` on a running counter: one `Tick`, and the finish handler when it finishes. */
  function Counting(v: TW.View, h: Host, countdown: bool): (r: (TW.View, TW.Outcome))
    ensures r.0.settings == v.settings && r.0.red == v.red
  {
    var t := Tick(Counter(v.elapsed, true), countdown);
    var u := v.(elapsed := t.0.elapsed, running := t.0.running);
    if t.1 then Finished(u, h) else (u, TW.Done)
  }

  /**
   * `apply_settings`: the style is restored (or the handler raises on a
   * key or colour it cannot use), the counter goes back to the countdown
   * total or zero, and the label is refreshed, which ticks once more while
   * the counter runs.
   */
  function Applied(v: TW.View, h: Host): (r: (TW.View, TW.Outcome))
    ensures r.0.settings == v.settings
  {
    match ApplyFault(v.settings)
    case Some(e) => (v, TW.Raised(e))
    case None =>
      var u := v.(red := h.looksRed(v.settings));
      match AppliedElapsed(v.settings, h.tr)
      case None => (u, TW.Raised(ElapsedError(v.settings, h.tr)))
      case Some(e) => Updated(u.(elapsed := e), h)
  }

  /** The count half of `flash_window`: one more toggle; at `FLASH_COUNT_MAX` the flashing stops. */
  function Counted(w: TW.View): TW.View
  {
    if w.flashCount + 1 >= Constants.FlashCountMax then w.(flashing := false, flashCount := 0)
    else w.(flashCount := w.flashCount + 1)
  }

  /**
   * `flash_window`: while flashing, a red label gets the normal style back
   * and any other turns red, then the toggle is counted; once flashing is
   * over the flash timer stops and the normal style comes back.
   */
  function Flashed(v: TW.View, h: Host): (r: (TW.View, TW.Outcome))
    ensures r.0.settings == v.settings
  {
    if v.flashing then
      var r := if v.red then Applied(v, h)
               else match TW.RestyleFault(v.settings)
                 case Some(e) => (v, TW.Raised(e))
                 case None => (v.(red := true), TW.Done);
      if r.1.Raised? then r else (Counted(r.0), TW.Done)
    else Applied(v.(flashTimer := false), h)
  }

  /** `toggle_pause`: the counter starts or stops, the tray says which, the icon follows. */
  function Toggled(v: TW.View, h: Host): (r: TW.View)
    ensures r.running == !v.running
    ensures r.settings == v.settings && r.elapsed == v.elapsed && r.flashing == v.flashing && r.display == v.display
    ensures r.events == v.events + [TW.TrayMessage(h.tr("app_name"), h.tr(if r.running then "timer_continued" else "timer_paused"))]
    ensures r.icon == TrayIconFor(r.flashing, r.running, r.elapsed)
  {
    var u := v.(running := !v.running);
    TW.RefreshIcon(u.(events := u.events + [TW.TrayMessage(h.tr("app_name"), h.tr(if u.running then "timer_continued" else "timer_paused"))]))
  }

  /** `reset_timer`: back to the configured countdown or to zero, stopped, the label refreshed, the tray told and the icon updated. */
  function Reset(v: TW.View, h: Host): (r: (TW.View, TW.Outcome))
    ensures r.0.settings == v.settings
  {
    match ResetElapsed(v.settings, h.tr)
    case None => (v, TW.Raised("TypeError"))
    case Some(e) =>
      var u := Updated(v.(elapsed := e, running := false), h);
      if u.1.Raised? then u
      else (TW.RefreshIcon(u.0.(events := u.0.events + [TW.TrayMessage(h.tr("app_name"), h.tr("timer_reset"))])), TW.Done)
  }

  /** The settings `quick_countdown` stores: the translated countdown name and the three values. */
  function QuickSettings(s: Settings, h: Host, hours: int, minutes: int, seconds: int): Settings
  {
    s["timer_mode" := JStr(h.tr("countdown_mode"))]["countdown_hours" := JInt(hours)]
     ["countdown_minutes" := JInt(minutes)]["countdown_seconds" := JInt(seconds)]
  }

  /** The tray text of `quick_countdown`: `"{h} hours {m} minutes {s} seconds"` with translated unit names. */
  function QuickText(h: Host, hours: int, minutes: int, seconds: int): string
  {
    IntText(hours) + " " + h.tr("hours") + " " + IntText(minutes) + " " + h.tr("minutes") + " " + IntText(seconds) + " " + h.tr("seconds")
  }

  /** `quick_countdown` on the window's attributes: store, reset, and announce the new countdown. */
  function Quick(v: TW.View, h: Host, hours: int, minutes: int, seconds: int): (r: (TW.View, TW.Outcome))
    ensures r.0.settings == QuickSettings(v.settings, h, hours, minutes, seconds)
  {
    var u := Reset(v.(settings := QuickSettings(v.settings, h, hours, minutes, seconds)), h);
    if u.1.Raised? then u
    else (u.0.(events := u.0.events + [TW.TrayMessage(h.tr("countdown_set"), QuickText(h, hours, minutes, seconds))]), TW.Done)
  }

  /** `switch_to_count_up` on the window's attributes: store the translated count-up name and reset. */
  function SwitchedToCountUp(v: TW.View, h: Host): (r: (TW.View, TW.Outcome))
    ensures r.0.settings == v.settings["timer_mode" := JStr(h.tr("count_up_mode"))]
  {
    Reset(v.(settings := v.settings["timer_mode" := JStr(h.tr("count_up_mode"))]), h)
  }

  // ---------------------------------------------------------------------
  // What the handlers promise
  // ---------------------------------------------------------------------

  /**
   * A running counter follows `Tick`: a countdown ends stopped at zero, the
   * label shows the new value, and only a finished countdown adds events.
   */
  lemma UpdatedTicks(v: TW.View, h: Host)
    requires v.running && "timer_mode" in v.settings && IsCountdownMode(v.settings["timer_mode"], h.tr).Some?
    ensures var t := Tick(Counter(v.elapsed, true), IsCountdownMode(v.settings["timer_mode"], h.tr).value);
      var r := Updated(v, h);
      && r.0.elapsed == t.0.elapsed && r.0.running == t.0.running
      && (r.1.Done? ==> r.0.display == FormatHms(t.0.elapsed))
      && (!t.1 ==> r.1.Done? && r.0 == v.(elapsed := t.0.elapsed, running := t.0.running, display := FormatHms(t.0.elapsed)))
      && (t.1 ==> r.0.elapsed == 0 && !r.0.running)
  {
  }

  /**
   * A tick on a stopped counter neither moves it nor finishes: the counter,
   * the flash state and the events stay as they were, and the label reads
   * back as the (non-negative) counter.
   */
  lemma UpdatedStopped(v: TW.View, h: Host)
    requires !v.running && v.elapsed >= 0
    ensures var r := Updated(v, h);
      && r.1.Done? && r.0.elapsed == v.elapsed && !r.0.running
      && r.0.events == v.events && FlashOf(r.0) == FlashOf(v)
      && ReadsBackAs(r.0.display, v.elapsed)
  {
    FormatHmsReadsBack(v.elapsed);
  }

  /**
   * The finish handler plays the sound, starts flashing when the action
   * text names it (the count restarting at zero and the flash timer
   * running), shows the notices and sets the icon.
   */
  lemma FinishedDispatch(v: TW.View, h: Host)
    requires "countdown_action" in v.settings
    ensures var a := v.settings["countdown_action"];
      var r := Finished(v, h);
      var sound := FinishSound(v.settings, a, h);
      var fl := EitherIn(h.tr("flash"), "闪烁", a);
      && (sound.0.Raised? ==> r == (v, sound.0))
      && (r.1.Done? <==> sound.0.Done? && fl.Some?)
      && (r.1.Done? ==>
            && r.0.events == v.events + sound.1 + FinishNotices(v.settings, h)
            && (r.0.flashing <==> fl.value || v.flashing)
            && (fl.value ==> r.0.flashCount == 0 && r.0.flashTimer)
            && (!fl.value ==> r.0.flashCount == v.flashCount && r.0.flashTimer == v.flashTimer)
            && r.0.icon == TrayIconFor(r.0.flashing, r.0.running, r.0.elapsed))
  {
  }

  /** A sound file that exists plays even when the action only flashes. */
  lemma SoundFilePlaysForAnyAction(s: Settings, action: Json, h: Host)
    requires Truthy(GetOr(s, "enable_sound", JBool(true)))
    requires GetOr(s, "sound_file", JStr("")).JStr? && GetOr(s, "sound_file", JStr("")).s != []
    requires h.soundExists(GetOr(s, "sound_file", JStr("")).s)
    ensures FinishSound(s, action, h) == (TW.Done, [TW.PlaySound(GetOr(s, "sound_file", JStr("")).s)])
  {
  }

  /**
   * A truthy `sound_file` that is no string: an open file descriptor
   * (`true` is descriptor 1) beeps whatever the action; a closed one is
   * treated as a missing file; an integer beyond a C `int` raises
   * OverflowError, and a float, list or dict TypeError.
   */
  lemma DescriptorSoundFile(s: Settings, action: Json, h: Host)
    requires Truthy(GetOr(s, "enable_sound", JBool(true)))
    requires var f := GetOr(s, "sound_file", JStr("")); Truthy(f) && !f.JStr?
    ensures var f := GetOr(s, "sound_file", JStr(""));
      var fd := if f.JBool? then 1 else if f.JInt? then f.i else 0;
      var r := FinishSound(s, action, h);
      && ((f.JBool? || f.JInt?) && IntMin <= fd <= IntMax && h.fdOpen(fd) ==> r == (TW.Done, [TW.SystemBeep]))
      && ((f.JBool? || f.JInt?) && IntMin <= fd <= IntMax && !h.fdOpen(fd) ==> r == FinishSound(s["sound_file" := JStr("")], action, h))
      && (f.JInt? && !(IntMin <= fd <= IntMax) ==> r == (TW.Raised("OverflowError"), []))
      && (f.JFloat? || f.JList? || f.JObj? ==> r == (TW.Raised("TypeError"), []))
  {
    var f := GetOr(s, "sound_file", JStr(""));
    var t := s["sound_file" := JStr("")];
    assert GetOr(t, "enable_sound", JBool(true)) == GetOr(s, "enable_sound", JBool(true));
    assert GetOr(t, "sound_file", JStr("")) == JStr("");
  }

  /**
   * `ensure_sounds_folder` of this window on the settings: when
   * `sound_file` is unset or does not exist, the drawn `pick` is stored
   * and the settings are to be saved (`None`: the folder holds no audio
   * file). The existence check is `os.path.exists` itself, so an integer
   * is checked as a file descriptor; the check raises as `PathExists` says.
   */
  function SoundPicked(s: Settings, h: Host, pick: Option<string>): (r: (Settings, bool, TW.Outcome))
    ensures var f := GetOr(s, "sound_file", JStr(""));
      && (r.2.Raised? <==> Truthy(f) && PathExists(f, h).None?)
      && (r.2.Raised? ==> r.2 == TW.Raised(ExistsError(f)) && r.0 == s)
      && (r.1 <==> r.2.Done? && pick.Some? && (!Truthy(f) || !PathExists(f, h).value))
      && (r.1 ==> r.0 == s["sound_file" := JStr(pick.value)])
      && (!r.1 ==> r.0 == s)
  {
    var f := GetOr(s, "sound_file", JStr(""));
    var found := if Truthy(f) then PathExists(f, h) else Some(false);
    if found.None? then (s, false, TW.Raised(ExistsError(f)))
    else if !found.value && pick.Some? then (s["sound_file" := JStr(pick.value)], true, TW.Done)
    else (s, false, TW.Done)
  }

  /**
   * Both windows pick alike except on a truthy integer or bool
   * `sound_file`, which only this window checks as a file descriptor (the
   * later one raises TypeError on it).
   */
  lemma SoundPickedAgrees(s: Settings, h: Host, pick: Option<string>)
    ensures var f := GetOr(s, "sound_file", JStr(""));
      !(Truthy(f) && (f.JInt? || f.JBool?)) <==> SoundPicked(s, h, pick) == TW.SoundPicked(s, h.soundExists, pick)
  {
    var f := GetOr(s, "sound_file", JStr(""));
    if Truthy(f) && (f.JInt? || f.JBool?) {
      assert TW.SoundPicked(s, h.soundExists, pick).2 == TW.Raised("TypeError");
      if PathExists(f, h).Some? {
        assert SoundPicked(s, h, pick).2.Done?;
      } else {
        assert SoundPicked(s, h, pick).2 == TW.Raised("OverflowError");
      }
    }
  }

  /** The flash state of a view. */
  function FlashOf(v: TW.View): Flash
  {
    Flash(v.flashing, v.flashCount, v.red)
  }

  /** Settings under which `apply_settings` restores a normal, non-red style and resets the counter. */
  predicate Restorable(s: Settings, h: Host)
  {
    ApplyFault(s).None? && TW.RestyleFault(s).None? && AppliedElapsed(s, h.tr).Some? && !h.looksRed(s)
  }

  /**
   * On a stopped counter with settings the style restore can use, one
   * firing of the flash timer follows `FlashStep` exactly, keeps the counter
   * stopped, and stops the flash timer once flashing is over.
   */
  lemma FlashedFollowsFlashStep(v: TW.View, h: Host)
    requires !v.running && Restorable(v.settings, h)
    ensures Flashed(v, h).1.Done?
    ensures FlashOf(Flashed(v, h).0) == FlashStep(FlashOf(v))
    ensures !Flashed(v, h).0.running
    ensures Flashed(v, h).0.flashTimer == (v.flashing && v.flashTimer)
  {
    if v.flashing && !v.red {
      FlashedToRed(v, h);
    } else {
      var u := if v.flashing then v else v.(flashTimer := false);
      AppliedStopped(u, h);
    }
  }

  /**
   * When the normal style itself passes the red test (a radius such as
   * `0px; color: red`, or a day-mode text colour starting with `red`), a
   * firing on the red label applies the settings again and the label stays
   * red: only the count moves on, toward `FLASH_COUNT_MAX`.
   */
  lemma FlashedOnRedStyle(v: TW.View, h: Host)
    requires !v.running && v.flashing && v.red
    requires ApplyFault(v.settings).None? && AppliedElapsed(v.settings, h.tr).Some? && h.looksRed(v.settings)
    ensures var r := Flashed(v, h);
      && r.1.Done? && !r.0.running && r.0.red && r.0.settings == v.settings
      && r.0.elapsed == AppliedElapsed(v.settings, h.tr).value
      && r.0.flashing == FlashStep(FlashOf(v)).flashing && r.0.flashCount == FlashStep(FlashOf(v)).count
  {
    AppliedStopped(v, h);
  }

  /** On a stopped counter with usable settings, `apply_settings` sets the style, the counter value and the label, and returns. */
  lemma AppliedStopped(v: TW.View, h: Host)
    requires !v.running && ApplyFault(v.settings).None? && AppliedElapsed(v.settings, h.tr).Some?
    ensures var e := AppliedElapsed(v.settings, h.tr).value;
      Applied(v, h) == (v.(red := h.looksRed(v.settings), elapsed := e, display := FormatHms(e)), TW.Done)
  {
  }

  /** `vs` is a run of flash-timer firings: each view is what the previous firing left. */
  ghost predicate FlashRun(vs: seq<TW.View>, h: Host)
  {
    forall i {:trigger Flashed(vs[i], h)} :: 0 <= i < |vs| - 1 ==> vs[i + 1] == Flashed(vs[i], h).0
  }

  /** `w` is one `FlashStep` on from `u`, with the counter stopped and the settings kept. */
  ghost predicate StepsFrom(u: TW.View, w: TW.View)
  {
    !w.running && w.settings == u.settings && FlashOf(w) == FlashStep(FlashOf(u))
  }

  /** Along a chain of single steps the flash state is `FlashSteps` of the first. */
  lemma {:induction false} StepRunFollows(vs: seq<TW.View>)
    requires |vs| > 0
    requires forall i {:trigger StepsFrom(vs[i], vs[i + 1])} :: 0 <= i < |vs| - 1 ==> StepsFrom(vs[i], vs[i + 1])
    ensures forall k :: 0 <= k < |vs| ==> vs[k].settings == vs[0].settings && FlashOf(vs[k]) == FlashSteps(FlashOf(vs[0]), k)
  {
    if |vs| > 1 {
      var n := |vs| - 1;
      var us := vs[..n];
      assert forall i :: 0 <= i < |us| - 1 ==> StepsFrom(us[i], us[i + 1]) by {
        forall i | 0 <= i < |us| - 1 ensures StepsFrom(us[i], us[i + 1]) {
          assert us[i + 1] == vs[i + 1] && us[i] == vs[i];
          assert StepsFrom(vs[i], vs[i + 1]);
        }
      }
      StepRunFollows(us);
      var last := n - 1;
      assert StepsFrom(vs[last], vs[last + 1]);
      assert us[last] == vs[last];
      FlashStepsSnoc(FlashOf(vs[0]), n - 1);
      forall k | 0 <= k < |vs|
        ensures vs[k].settings == vs[0].settings && FlashOf(vs[k]) == FlashSteps(FlashOf(vs[0]), k)
      {
        if k < n {
          assert us[k] == vs[k];
        }
      }
    }
  }

  /** Over a run of firings on a stopped counter with usable settings, each firing makes one `FlashStep`. */
  lemma {:induction false} FlashRunSteps(vs: seq<TW.View>, h: Host)
    requires |vs| > 0 && !vs[0].running && Restorable(vs[0].settings, h) && FlashRun(vs, h)
    ensures forall i {:trigger StepsFrom(vs[i], vs[i + 1])} :: 0 <= i < |vs| - 1 ==> StepsFrom(vs[i], vs[i + 1])
  {
    if |vs| > 1 {
      var n := |vs| - 1;
      var us := vs[..n];
      assert FlashRun(us, h) by {
        forall i | 0 <= i < |us| - 1 ensures us[i + 1] == Flashed(us[i], h).0 {
          assert us[i + 1] == vs[i + 1] && us[i] == vs[i];
          assert vs[i + 1] == Flashed(vs[i], h).0;
        }
      }
      FlashRunSteps(us, h);
      StepRunFollows(us);
      var last := n - 1;
      assert us[last] == vs[last];
      assert !vs[last].running by {
        if last > 0 {
          var p := last - 1;
          assert StepsFrom(us[p], us[p + 1]);
        }
      }
      assert vs[last + 1] == Flashed(vs[last], h).0;
      FlashedFollowsFlashStep(vs[last], h);
      assert StepsFrom(vs[last], vs[last + 1]);
      StepChainSnoc(vs);
    }
  }

  /** A chain of steps extended by one step at its end. */
  lemma StepChainSnoc(vs: seq<TW.View>)
    requires |vs| > 1
    requires var us := vs[..|vs| - 1];
      forall i {:trigger StepsFrom(us[i], us[i + 1])} :: 0 <= i < |us| - 1 ==> StepsFrom(us[i], us[i + 1])
    requires StepsFrom(vs[|vs| - 2], vs[|vs| - 1])
    ensures forall i {:trigger StepsFrom(vs[i], vs[i + 1])} :: 0 <= i < |vs| - 1 ==> StepsFrom(vs[i], vs[i + 1])
  {
    var us := vs[..|vs| - 1];
    forall i | 0 <= i < |vs| - 1 ensures StepsFrom(vs[i], vs[i + 1]) {
      if i < |vs| - 2 {
        assert us[i] == vs[i] && us[i + 1] == vs[i + 1];
        assert StepsFrom(us[i], us[i + 1]);
      }
    }
  }

  /**
   * Flashing started by a finished countdown goes on for five firings,
   * alternating red and the normal style, and the sixth ends it with the
   * count back at zero and the normal style shown.
   */
  lemma LegacyFlashEndsAfterMax(vs: seq<TW.View>, h: Host)
    requires |vs| == Constants.FlashCountMax + 1 && FlashRun(vs, h)
    requires !vs[0].running && Restorable(vs[0].settings, h) && FlashOf(vs[0]) == Flash(true, 0, false)
    ensures forall k | 0 <= k < Constants.FlashCountMax :: FlashOf(vs[k]) == Flash(true, k, k % 2 == 1)
    ensures FlashOf(vs[Constants.FlashCountMax]) == Flash(false, 0, false)
  {
    FlashRunSteps(vs, h);
    StepRunFollows(vs);
    forall k | 0 <= k < Constants.FlashCountMax
      ensures FlashOf(vs[k]) == Flash(true, k, k % 2 == 1)
    {
      FlashingBeforeMax(k);
    }
    FlashEndsAfterMax();
  }

  /**
   * While the background colour or opacity cannot be used, a firing from
   * the normal style raises and leaves the view as it was, so the next
   * firing does the same and the flashing never ends.
   */
  lemma FlashedStuckOnRestyleFault(v: TW.View, h: Host)
    requires v.flashing && !v.red && TW.RestyleFault(v.settings).Some?
    ensures Flashed(v, h) == (v, TW.Raised(TW.RestyleFault(v.settings).value))
    ensures FlashOf(Flashed(v, h).0) == FlashOf(v) && Flashed(v, h).0.flashing
  {
  }

  /** Toggling twice restores the running flag and reports both changes. */
  lemma ToggledTwice(v: TW.View, h: Host)
    ensures Toggled(Toggled(v, h), h).running == v.running
    ensures |Toggled(Toggled(v, h), h).events| == |v.events| + 2
  {
  }

  /**
   * `reset_timer` with a readable mode and countdown stops the counter at the
   * countdown total (or zero), shows it, and tells the tray.
   */
  lemma ResetStops(v: TW.View, h: Host)
    requires ResetElapsed(v.settings, h.tr).Some?
    ensures var r := Reset(v, h);
      && r.1.Done? && !r.0.running && r.0.elapsed == ResetElapsed(v.settings, h.tr).value
      && r.0.display == FormatHms(r.0.elapsed)
      && r.0.events == v.events + [TW.TrayMessage(h.tr("app_name"), h.tr("timer_reset"))]
      && r.0.icon == TrayIconFor(v.flashing, false, r.0.elapsed)
      && r.0.flashing == v.flashing && r.0.flashCount == v.flashCount && r.0.red == v.red
  {
    var e := ResetElapsed(v.settings, h.tr).value;
    var u := v.(elapsed := e, running := false);
    var w := u.(display := FormatHms(e));
    assert Reset(v, h) == (TW.RefreshIcon(w.(events := w.events + [TW.TrayMessage(h.tr("app_name"), h.tr("timer_reset"))])), TW.Done);
  }

  /**
   * `quick_countdown` always sets up the countdown it was given, whatever
   * the language: the stored mode text is recognised as a countdown, the
   * counter shows the total and is stopped.
   */
  lemma QuickCountdownSetsTotal(v: TW.View, h: Host, hours: int, minutes: int, seconds: int)
    ensures var r := Quick(v, h, hours, minutes, seconds);
      && r.1.Done? && !r.0.running && r.0.elapsed == hours * 3600 + minutes * 60 + seconds
      && r.0.display == FormatHms(r.0.elapsed)
      && r.0.events == v.events + [TW.TrayMessage(h.tr("app_name"), h.tr("timer_reset")),
                                   TW.TrayMessage(h.tr("countdown_set"), QuickText(h, hours, minutes, seconds))]
  {
    var u := v.(settings := QuickSettings(v.settings, h, hours, minutes, seconds));
    QuickResets(v, h, hours, minutes, seconds);
    ResetStops(u, h);
  }

  /** The reset inside `quick_countdown` goes back to the total just stored. */
  lemma QuickResets(v: TW.View, h: Host, hours: int, minutes: int, seconds: int)
    ensures var u := v.(settings := QuickSettings(v.settings, h, hours, minutes, seconds));
      && ResetElapsed(u.settings, h.tr) == Some(hours * 3600 + minutes * 60 + seconds)
      && Reset(u, h).1.Done?
      && Quick(v, h, hours, minutes, seconds)
         == (Reset(u, h).0.(events := Reset(u, h).0.events + [TW.TrayMessage(h.tr("countdown_set"), QuickText(h, hours, minutes, seconds))]), TW.Done)
  {
    var s := QuickSettings(v.settings, h, hours, minutes, seconds);
    QuickModeIsCountdown(h.tr);
    assert ResetElapsed(s, h.tr) == Some(hours * 3600 + minutes * 60 + seconds);
    ResetStops(v.(settings := s), h);
  }

  /** Switching to counting up resets to zero when the count-up name does not name a countdown. */
  lemma SwitchedToCountUpZero(v: TW.View, h: Host)
    requires !Contains(h.tr("count_up_mode"), h.tr("countdown_mode")) && !Contains(h.tr("count_up_mode"), "倒计时")
    ensures var r := SwitchedToCountUp(v, h); r.1.Done? && r.0.elapsed == 0 && !r.0.running && r.0.display == FormatHms(0)
  {
    var s := v.settings["timer_mode" := JStr(h.tr("count_up_mode"))];
    assert ResetElapsed(s, h.tr) == Some(0);
    ResetStops(v.(settings := s), h);
  }

  /** From red the style is restored, then the toggle is counted. */
  lemma FlashedFromRed(v: TW.View, h: Host)
    requires v.flashing && v.red
    ensures var r := Applied(v, h); Flashed(v, h) == if r.1.Raised? then r else (Counted(r.0), TW.Done)
  {
  }

  /** When not flashing the flash timer stops and the style is restored. */
  lemma FlashedIdle(v: TW.View, h: Host)
    requires !v.flashing
    ensures Flashed(v, h) == Applied(v.(flashTimer := false), h)
  {
  }

  /** From the normal style the label turns red, unless the background colour or opacity cannot be used. */
  lemma FlashedToRed(v: TW.View, h: Host)
    requires v.flashing && !v.red
    ensures Flashed(v, h) == match TW.RestyleFault(v.settings)
      case Some(e) => (v, TW.Raised(e))
      case None => (Counted(v.(red := true)), TW.Done)
  {
  }

  // ---------------------------------------------------------------------
  // The window
  // ---------------------------------------------------------------------

  /** The main window of the earlier generation. */
  class LegacyWindow {
    /** The attributes the handlers change, kept together as one view. */
    var view: TW.View
    /** The settings file as last written. */
    var savedFile: Option<Settings>
    /** How the closing `apply_settings` of the constructor ended. */
    var started: TW.Outcome
    /** How the constructor's `ensure_sounds_folder` ended (`Done` when it did not run). */
    var sounds: TW.Outcome
    const host: Host

    /**
     * `__init__` on the loaded settings: a stopped or auto-started counter
     * at zero, no flashing, the tray showing the play icon, then
     * `apply_settings`, then, when that returned, `ensure_sounds_folder`
     * with the drawn `pick`. `show` is `str()` on the values the style
     * writes that are no integer or string; the red test follows from it.
     */
    constructor (s: Settings, host: Host, show: Json -> string, pick: Option<string>)
      ensures this.host == host.(looksRed := this.host.looksRed)
      ensures forall t :: TW.ApplyFault(t).None? ==> (this.host.looksRed(t) <==> TW.StyleSaysRed(t, show))
      ensures var init := TW.View(s, 0, Truthy(GetOr(s, "auto_start_timer", JBool(false))), false, 0, false, false, "", PlayIcon, []);
        var a := Applied(init, this.host);
        var p := SoundPicked(a.0.settings, this.host, pick);
        && started == a.1
        && view == (if a.1.Done? then a.0.(settings := p.0) else a.0)
        && sounds == (if a.1.Done? then p.2 else TW.Done)
        && savedFile == (if a.1.Done? && p.1 && host.diskWritable then Some(p.0) else None)
    {
      var h := host.(looksRed := TW.RedTest(show));
      this.host := h;
      var init := TW.View(s, 0, Truthy(GetOr(s, "auto_start_timer", JBool(false))), false, 0, false, false, "", PlayIcon, []);
      var a := Applied(init, h);
      view := a.0;
      started := a.1;
      savedFile := None;
      sounds := TW.Done;
      new;
      PickSoundIfStarted(pick);
    }

    /** `ensure_sounds_folder` runs only when `apply_settings` returned. */
    method PickSoundIfStarted(pick: Option<string>)
      modifies this`view, this`savedFile, this`sounds
      ensures var r := SoundPicked(old(view.settings), host, pick);
        && view == (if started.Done? then old(view).(settings := r.0) else old(view))
        && sounds == (if started.Done? then r.2 else old(sounds))
        && savedFile == (if started.Done? && r.1 && host.diskWritable then Some(r.0) else old(savedFile))
    {
      if started.Done? {
        sounds := EnsureSoundsFolder(pick);
      }
    }

    /**
     * `ensure_sounds_folder`: when `sound_file` is unset or names no
     * existing file, the drawn `pick` is stored and the settings are saved.
     */
    method EnsureSoundsFolder(pick: Option<string>) returns (out: TW.Outcome)
      modifies this`view, this`savedFile
      ensures var r := SoundPicked(old(view.settings), host, pick);
        view == old(view).(settings := r.0) && out == r.2
        && savedFile == (if r.1 && host.diskWritable then Some(r.0) else old(savedFile))
    {
      var f := GetOr(view.settings, "sound_file", JStr(""));
      var found := if Truthy(f) then PathExists(f, host) else Some(false);
      if found.None? {
        return TW.Raised(ExistsError(f));
      }
      if !found.value && pick.Some? {
        view := view.(settings := view.settings["sound_file" := JStr(pick.value)]);
        SaveSettings();
      }
      out := TW.Done;
    }

    /** `save_settings`: the dict is written; a failed write is reported and ignored. */
    method SaveSettings()
      modifies this`savedFile
      ensures savedFile == if host.diskWritable then Some(view.settings) else old(savedFile)
    {
      if host.diskWritable {
        savedFile := Some(view.settings);
      }
    }

    /** `update_tray_icon`. */
    method UpdateTrayIcon()
      modifies this`view
      ensures view == TW.RefreshIcon(old(view))
    {
      if view.flashing {
        view := view.(icon := InfoIcon);
      } else if view.running {
        view := view.(icon := PlayIcon);
      } else if view.elapsed == 0 {
        view := view.(icon := StopIcon);
      } else {
        view := view.(icon := PauseIcon);
      }
    }

    /** `on_countdown_finished`. */
    method OnCountdownFinished() returns (out: TW.Outcome)
      modifies this`view
      ensures (view, out) == Finished(old(view), host)
    {
      if "countdown_action" !in view.settings {
        return TW.Raised("KeyError");
      }
      var action := view.settings["countdown_action"];
      var sound := FinishSound(view.settings, action, host);
      if sound.0.Raised? {
        return sound.0;
      }
      view := view.(events := view.events + sound.1);
      var flash := EitherIn(host.tr("flash"), "闪烁", action);
      if flash.None? {
        return TW.Raised("TypeError");
      }
      if flash.value {
        view := view.(flashing := true, flashCount := 0, flashTimer := true);
      }
      view := view.(events := view.events + FinishNotices(view.settings, host));
      UpdateTrayIcon();
      out := TW.Done;
    }

    /** `update_time`. */
    method UpdateTime() returns (out: TW.Outcome)
      modifies this`view
      ensures (view, out) == Updated(old(view), host)
    {
      if !view.running {
        view := view.(display := FormatHms(view.elapsed));
        return TW.Done;
      }
      if "timer_mode" !in view.settings {
        return TW.Raised("KeyError");
      }
      var countdown := IsCountdownMode(view.settings["timer_mode"], host.tr);
      if countdown.None? {
        return TW.Raised("TypeError");
      }
      out := StepCounter(countdown.value);
      if out.Raised? {
        return;
      }
      view := view.(display := FormatHms(view.elapsed));
    }

    /** The counting part of `update_time`: down or up by one; a countdown reaching zero stops and finishes. */
    method StepCounter(countdown: bool) returns (out: TW.Outcome)
      requires view.running
      modifies this`view
      ensures (view, out) == Counting(old(view), host, countdown)
    {
      if countdown {
        view := view.(elapsed := view.elapsed - 1);
        if view.elapsed <= 0 {
          view := view.(elapsed := 0, running := false);
          out := OnCountdownFinished();
          return;
        }
      } else {
        view := view.(elapsed := view.elapsed + 1);
      }
      out := TW.Done;
    }

    /** `apply_settings`. */
    method ApplySettings() returns (out: TW.Outcome)
      modifies this`view
      ensures (view, out) == Applied(old(view), host)
    {
      var fault := ApplyFault(view.settings);
      if fault.Some? {
        return TW.Raised(fault.value);
      }
      view := view.(red := host.looksRed(view.settings));
      var total := AppliedElapsed(view.settings, host.tr);
      if total.None? {
        return TW.Raised(ElapsedError(view.settings, host.tr));
      }
      view := view.(elapsed := total.value);
      out := UpdateTime();
    }

    /** `flash_window`. */
    method FlashWindow() returns (out: TW.Outcome)
      modifies this`view
      ensures (view, out) == Flashed(old(view), host)
    {
      if view.flashing {
        if view.red {
          FlashedFromRed(view, host);
          out := ApplySettings();
          if out.Raised? {
            return;
          }
          CountFlash();
        } else {
          FlashedToRed(view, host);
          var fault := TW.RestyleFault(view.settings);
          if fault.Some? {
            return TW.Raised(fault.value);
          }
          view := view.(red := true);
          CountFlash();
          out := TW.Done;
        }
      } else {
        FlashedIdle(view, host);
        view := view.(flashTimer := false);
        out := ApplySettings();
      }
    }

    /** The count half of `flash_window`. */
    method CountFlash()
      modifies this`view
      ensures view == Counted(old(view))
    {
      view := view.(flashCount := view.flashCount + 1);
      if view.flashCount >= Constants.FlashCountMax {
        view := view.(flashing := false, flashCount := 0);
      }
    }

    /** `toggle_pause`. */
    method TogglePause()
      modifies this`view
      ensures view == Toggled(old(view), host)
    {
      view := view.(running := !view.running);
      var text := if view.running then "timer_continued" else "timer_paused";
      view := view.(events := view.events + [TW.TrayMessage(host.tr("app_name"), host.tr(text))]);
      UpdateTrayIcon();
    }

    /** `reset_timer`. */
    method ResetTimer() returns (out: TW.Outcome)
      modifies this`view
      ensures (view, out) == Reset(old(view), host)
    {
      var total := ResetElapsed(view.settings, host.tr);
      if total.None? {
        return TW.Raised("TypeError");
      }
      view := view.(elapsed := total.value, running := false);
      out := UpdateTime();
      if out.Raised? {
        return;
      }
      view := view.(events := view.events + [TW.TrayMessage(host.tr("app_name"), host.tr("timer_reset"))]);
      UpdateTrayIcon();
    }

    /** `quick_countdown`: store the countdown, save, reset, announce. */
    method QuickCountdown(hours: int, minutes: int, seconds: int) returns (out: TW.Outcome)
      modifies this`view, this`savedFile
      ensures (view, out) == Quick(old(view), host, hours, minutes, seconds)
      ensures savedFile == if host.diskWritable then Some(view.settings) else old(savedFile)
    {
      view := view.(settings := QuickSettings(view.settings, host, hours, minutes, seconds));
      SaveSettings();
      out := ResetTimer();
      if out.Raised? {
        return;
      }
      view := view.(events := view.events + [TW.TrayMessage(host.tr("countdown_set"), QuickText(host, hours, minutes, seconds))]);
    }

    /** `switch_to_count_up`: store the count-up name, save, reset. */
    method SwitchToCountUp() returns (out: TW.Outcome)
      modifies this`view, this`savedFile
      ensures (view, out) == SwitchedToCountUp(old(view), host)
      ensures savedFile == if host.diskWritable then Some(view.settings) else old(savedFile)
    {
      view := view.(settings := view.settings["timer_mode" := JStr(host.tr("count_up_mode"))]);
      SaveSettings();
      out := ResetTimer();
    }
  }
}
