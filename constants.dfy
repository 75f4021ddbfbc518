/*
 * The application's built-in data: default shortcut chords, the built-in
 * countdown presets and the timer constants.
 */
module Constants {
  import opened PyJson

  /** The six shortcut actions with their default chords, in declaration order. */
  const DefaultShortcuts: seq<(string, string)> := [
    ("pause_resume", "Ctrl+Space"),
    ("reset", "Ctrl+R"),
    ("show_hide", "Ctrl+H"),
    ("open_settings", "Ctrl+,"),
    ("lock_unlock", "Ctrl+L"),
    ("toggle_fullscreen", "F11")
  ]

  /** The default shortcuts as the JSON object stored under `shortcuts`. */
  function DefaultShortcutsJson(): (r: seq<(string, Json)>)
    ensures |r| == |DefaultShortcuts|
    ensures forall i :: 0 <= i < |r| ==> r[i] == (DefaultShortcuts[i].0, JStr(DefaultShortcuts[i].1))
  {
    seq(|DefaultShortcuts|, i requires 0 <= i < |DefaultShortcuts| =>
      (DefaultShortcuts[i].0, JStr(DefaultShortcuts[i].1)))
  }

  /** One built-in preset, with its keys in the literal's order. */
  function Builtin(id: string, nameKey: Option<string>, h: int, m: int, s: int): Json
  {
    JObj([("id", JStr(id))]
         + (if nameKey.Some? then [("name_key", JStr(nameKey.value))] else [])
         + [("mode", JStr("countdown")), ("hours", JInt(h)), ("minutes", JInt(m)), ("seconds", JInt(s))])
  }

  /** The built-in presets as plain tuples (id, name key, hours, minutes, seconds). */
  const BuiltinPresets: seq<(string, Option<string>, int, int, int)> := [
    ("builtin_pomodoro", Some("pomodoro"), 0, 25, 0),
    ("builtin_short_break", Some("short_break"), 0, 5, 0),
    ("builtin_long_break", Some("long_break"), 0, 15, 0),
    ("builtin_10m", None, 0, 10, 0),
    ("builtin_20m", None, 0, 20, 0),
    ("builtin_30m", None, 0, 30, 0),
    ("builtin_45m", None, 0, 45, 0),
    ("builtin_1h", None, 1, 0, 0),
    ("builtin_1h30", None, 1, 30, 0),
    ("builtin_2h", None, 2, 0, 0),
    ("builtin_3h", None, 3, 0, 0)
  ]

  /** `DEFAULT_COUNTDOWN_PRESETS` as JSON objects. */
  function DefaultCountdownPresets(): (r: seq<Json>)
    ensures |r| == |BuiltinPresets|
    ensures forall i :: 0 <= i < |r| ==>
      r[i] == Builtin(BuiltinPresets[i].0, BuiltinPresets[i].1, BuiltinPresets[i].2, BuiltinPresets[i].3, BuiltinPresets[i].4)
  {
    seq(|BuiltinPresets|, i requires 0 <= i < |BuiltinPresets| =>
      Builtin(BuiltinPresets[i].0, BuiltinPresets[i].1, BuiltinPresets[i].2, BuiltinPresets[i].3, BuiltinPresets[i].4))
  }

  // TimerConstants
  const TimerUpdateInterval: int := 1000
  const FlashInterval: int := 500
  const FlashCountMax: int := 6
  const NotificationDurationShort: int := 3
  const NotificationDurationLong: int := 5
  const TrayMessageDuration: int := 1000

  /** Looking a key up in a built-in preset. */
  lemma BuiltinGet(id: string, nameKey: Option<string>, h: int, m: int, s: int, k: string)
    ensures Field(Builtin(id, nameKey, h, m, s), k) ==
      if k == "id" then Some(JStr(id))
      else if k == "name_key" && nameKey.Some? then Some(JStr(nameKey.value))
      else if k == "mode" then Some(JStr("countdown"))
      else if k == "hours" then Some(JInt(h))
      else if k == "minutes" then Some(JInt(m))
      else if k == "seconds" then Some(JInt(s))
      else None
  {
    var t3 := [("seconds", JInt(s))];
    var t2 := [("minutes", JInt(m))] + t3;
    var t1 := [("hours", JInt(h))] + t2;
    var tail := [("mode", JStr("countdown"))] + t1;
    GetCons(("seconds", JInt(s)), [], k);
    GetCons(("minutes", JInt(m)), t3, k);
    GetCons(("hours", JInt(h)), t2, k);
    GetCons(("mode", JStr("countdown")), t1, k);
    var fields := Builtin(id, nameKey, h, m, s).fields;
    if nameKey.Some? {
      var t0 := [("name_key", JStr(nameKey.value))] + tail;
      assert fields == [("id", JStr(id))] + t0;
      GetCons(("name_key", JStr(nameKey.value)), tail, k);
      GetCons(("id", JStr(id)), t0, k);
    } else {
      assert fields == [("id", JStr(id))] + tail;
      GetCons(("id", JStr(id)), tail, k);
    }
  }

  /** The built-in preset ids are pairwise distinct. */
  lemma BuiltinIdsDistinct()
    ensures forall i, j :: 0 <= i < j < |BuiltinPresets| ==> BuiltinPresets[i].0 != BuiltinPresets[j].0
  {
  }

  /** Every built-in preset has a duration the normaliser leaves alone and a positive total. */
  lemma BuiltinDurationsInRange()
    ensures forall i :: 0 <= i < |BuiltinPresets| ==>
      var (_, _, h, m, s) := BuiltinPresets[i];
      0 <= h <= 99 && 0 <= m <= 59 && 0 <= s <= 59 && h * 3600 + m * 60 + s > 0
  {
  }

  /** The six default chords are non-empty and pairwise distinct. */
  lemma DefaultChordsDistinct()
    ensures |DefaultShortcuts| == 6
    ensures forall i :: 0 <= i < |DefaultShortcuts| ==> DefaultShortcuts[i].1 != []
    ensures forall i, j :: 0 <= i < j < |DefaultShortcuts| ==> DefaultShortcuts[i].1 != DefaultShortcuts[j].1
    ensures forall i, j :: 0 <= i < j < |DefaultShortcuts| ==> DefaultShortcuts[i].0 != DefaultShortcuts[j].0
  {
  }
}
