/*
 * The settings dialog (module/settings_dialog.py): the preset list it edits
 * in place, the preset editor's validation and label merge, the shortcut
 * conflict check, the serialisation of the edited presets and the keys
 * `apply_settings` writes into the window's settings.
 */
module SettingsDialogModel {
  import opened PyJson
  import opened SettingsText
  import opened SettingsStore
  import Constants
  import TimerWindowModel
  import DialogSettings

  // ---------------------------------------------------------------------
  // Languages
  // ---------------------------------------------------------------------

  /** `_find_other_language`: the first code of the language table that differs from the current one, else the current one. */
  function FindOtherLanguage(codes: seq<string>, current: string): (r: string)
    ensures r != current ==> exists i :: 0 <= i < |codes| && codes[i] == r && forall j :: 0 <= j < i ==> codes[j] == current
    ensures r == current ==> forall i :: 0 <= i < |codes| ==> codes[i] == current
  {
    if |codes| == 0 then current
    else if codes[0] != current then codes[0]
    else
      var r := FindOtherLanguage(codes[1..], current);
      assert r != current ==> exists i :: 0 <= i < |codes| && codes[i] == r && forall j :: 0 <= j < i ==> codes[j] == current by {
        if r != current {
          var i :| 0 <= i < |codes[1..]| && codes[1..][i] == r && forall j :: 0 <= j < i ==> codes[1..][j] == current;
          forall j | 0 <= j < i + 1 ensures codes[j] == current {
            if j > 0 {
              assert codes[j] == codes[1..][j - 1];
            }
          }
        }
      }
      assert r == current ==> forall i :: 0 <= i < |codes| ==> codes[i] == current by {
        if r == current {
          forall i | 0 <= i < |codes| ensures codes[i] == current {
            if i > 0 {
              assert codes[i] == codes[1..][i - 1];
            }
          }
        }
      }
      r
  }

  /** With the two shipped languages, each is the other's other language. */
  lemma OtherLanguageSwaps(a: string, b: string)
    requires a != b
    ensures FindOtherLanguage([a, b], a) == b
    ensures FindOtherLanguage([a, b], FindOtherLanguage([a, b], a)) == a
  {
    assert [a, b][1..] == [b];
  }

  // ---------------------------------------------------------------------
  // Durations as the dialog reads them
  // ---------------------------------------------------------------------

  /** `max(0, min(hi, int(preset.get(k, 0))))`: unlike `_clamp_int` there is no fallback, so `int()` raising gives None. */
  function DialogField(preset: Json, k: string, hi: int): (r: Option<int>)
    requires 0 <= hi
    ensures r.Some? <==> PyInt(GetField(preset, k)).Some?
    ensures r.Some? ==> r.value == ClampInt(GetField(preset, k), 0, hi)
  {
    match PyInt(GetField(preset, k))
    case Some(v) => Some(if v > hi then hi else if v < 0 then 0 else v)
    case None => None
  }

  /** The clamped hours, minutes and seconds the dialog's helpers compute; None when one `int()` raises. */
  function DialogHms(preset: Json): (r: Option<(int, int, int)>)
    ensures r.Some? ==> r.value == PresetHms(preset)
    ensures r.None? <==> PyInt(GetField(preset, "hours")).None? || PyInt(GetField(preset, "minutes")).None?
                         || PyInt(GetField(preset, "seconds")).None?
  {
    var h, m, s := DialogField(preset, "hours", 99), DialogField(preset, "minutes", 59), DialogField(preset, "seconds", 59);
    if h.Some? && m.Some? && s.Some? then Some((h.value, m.value, s.value)) else None
  }

  /** `_format_preset_duration` of the dialog: the window's text whenever the fields convert. */
  function DialogPresetDuration(preset: Json): (r: Option<string>)
    ensures r.Some? <==> DialogHms(preset).Some?
    ensures r.Some? ==> r.value == FormatPresetDuration(preset)
  {
    if DialogHms(preset).Some? then Some(FormatPresetDuration(preset)) else None
  }

  /** `_format_duration_text` of the dialog: the window's text whenever the fields convert. */
  function DialogDurationText(preset: Json, lang: string, tr: string -> string): (r: Option<string>)
    ensures r.Some? <==> DialogHms(preset).Some?
    ensures r.Some? ==> r.value == PresetDurationText(preset, lang, tr)
  {
    if DialogHms(preset).Some? then Some(PresetDurationText(preset, lang, tr)) else None
  }

  /** The dialog and the window show the same duration for a preset whose fields are integers. */
  lemma DialogDurationAgrees(preset: Json)
    requires preset.JObj?
    requires forall k :: k in {"hours", "minutes", "seconds"} && Field(preset, k).Some? ==> Field(preset, k).value.JInt?
    ensures DialogHms(preset) == Some(PresetHms(preset))
  {
    assert PyInt(GetField(preset, "hours")).Some?;
    assert PyInt(GetField(preset, "minutes")).Some?;
    assert PyInt(GetField(preset, "seconds")).Some?;
  }

  /**
   * `_resolve_preset_label` of the dialog: the stored `label` stripped,
   * else the translated name key when a translation exists, else the
   * duration text (None when `int()` raises there).
   */
  function DialogPresetLabel(preset: Json, lang: string, tr: string -> string): (r: Option<string>)
    ensures LegacyLabel(preset).Some? ==> r == LegacyLabel(preset)
    ensures LegacyLabel(preset).None? && HasTranslatedName(preset, tr) ==> r == Some(tr(Field(preset, "name_key").value.s))
    ensures LegacyLabel(preset).None? && !HasTranslatedName(preset, tr) ==> r == DialogDurationText(preset, lang, tr)
    ensures r.Some? ==> r.value != []
  {
    match LegacyLabel(preset)
    case Some(l) => Some(l)
    case None =>
      if HasTranslatedName(preset, tr) then Some(tr(Field(preset, "name_key").value.s))
      else DialogDurationText(preset, lang, tr)
  }

  // ---------------------------------------------------------------------
  // Serialisation of one preset
  // ---------------------------------------------------------------------

  /** `preset.get('id') or f"preset_{uuid...}"`: a falsy or missing id is replaced by a new one. */
  function SerialId(preset: Json, newId: string): Json
  {
    match Field(preset, "id")
    case Some(v) => if Truthy(v) then v else JStr(newId)
    case None => JStr(newId)
  }

  /** The stripped `name_key` when it is a non-blank string. */
  function CleanNameKey(preset: Json): Option<string>
  {
    match Field(preset, "name_key")
    case Some(JStr(nk)) => if NonBlank(nk) then Some(Strip(nk)) else None
    case _ => None
  }

  /**
   * One entry of `_serialize_presets`: id, mode `countdown`, clamped fields,
   * the stripped `label` and `name_key`, the cleaned `labels`, and the
   * current language's label over `label`; None when `int()` raises.
   */
  function SerializeEntry(preset: Json, lang: string, newId: string): (r: Option<Json>)
    ensures r.Some? <==> DialogHms(preset).Some?
  {
    match DialogHms(preset)
    case None => None
    case Some(hms) => Some(JObj(SerialFields(preset, hms, lang, newId)))
  }

  /** The fields of a serialised entry, in the order `_serialize_presets` writes them. */
  function SerialFields(preset: Json, hms: (int, int, int), lang: string, newId: string): seq<(string, Json)>
  {
    var f0 := [("id", SerialId(preset, newId)), ("mode", JStr("countdown")),
               ("hours", JInt(hms.0)), ("minutes", JInt(hms.1)), ("seconds", JInt(hms.2))];
    var f1 := if LegacyLabel(preset).Some? then Put(f0, "label", JStr(LegacyLabel(preset).value)) else f0;
    var f2 := if CleanNameKey(preset).Some? then Put(f1, "name_key", JStr(CleanNameKey(preset).value)) else f1;
    var labels := PresetLabels(preset);
    var f3 := if labels != [] then Put(f2, "labels", LabelsJson(labels)) else f2;
    if Get(labels, lang).Some? then Put(f3, "label", JStr(Get(labels, lang).value)) else f3
  }

  /** Looking a key up in a serialised entry. */
  lemma SerializeEntryGet(preset: Json, lang: string, newId: string, k: string)
    requires DialogHms(preset).Some?
    ensures var hms := DialogHms(preset).value;
      var labels := PresetLabels(preset);
      Field(SerializeEntry(preset, lang, newId).value, k) ==
        if k == "id" then Some(SerialId(preset, newId))
        else if k == "mode" then Some(JStr("countdown"))
        else if k == "hours" then Some(JInt(hms.0))
        else if k == "minutes" then Some(JInt(hms.1))
        else if k == "seconds" then Some(JInt(hms.2))
        else if k == "label" && Get(labels, lang).Some? then Some(JStr(Get(labels, lang).value))
        else if k == "label" && LegacyLabel(preset).Some? then Some(JStr(LegacyLabel(preset).value))
        else if k == "name_key" && CleanNameKey(preset).Some? then Some(JStr(CleanNameKey(preset).value))
        else if k == "labels" && labels != [] then Some(LabelsJson(labels))
        else None
  {
    var hms := DialogHms(preset).value;
    var f0 := [("id", SerialId(preset, newId)), ("mode", JStr("countdown")),
               ("hours", JInt(hms.0)), ("minutes", JInt(hms.1)), ("seconds", JInt(hms.2))];
    FirstFiveGet(SerialId(preset, newId), hms, k);
  }

  /** Lookups in the five fixed leading fields. */
  lemma FirstFiveGet(id: Json, hms: (int, int, int), k: string)
    ensures Get([("id", id), ("mode", JStr("countdown")), ("hours", JInt(hms.0)), ("minutes", JInt(hms.1)), ("seconds", JInt(hms.2))], k) ==
      if k == "id" then Some(id)
      else if k == "mode" then Some(JStr("countdown"))
      else if k == "hours" then Some(JInt(hms.0))
      else if k == "minutes" then Some(JInt(hms.1))
      else if k == "seconds" then Some(JInt(hms.2))
      else None
  {
    var t4 := [("seconds", JInt(hms.2))];
    var t3 := [("minutes", JInt(hms.1))] + t4;
    var t2 := [("hours", JInt(hms.0))] + t3;
    var t1 := [("mode", JStr("countdown"))] + t2;
    assert [("id", id), ("mode", JStr("countdown")), ("hours", JInt(hms.0)), ("minutes", JInt(hms.1)), ("seconds", JInt(hms.2))]
      == [("id", id)] + t1;
    GetCons(("id", id), t1, k);
    GetCons(("mode", JStr("countdown")), t2, k);
    GetCons(("hours", JInt(hms.0)), t3, k);
    GetCons(("minutes", JInt(hms.1)), t4, k);
    GetCons(("seconds", JInt(hms.2)), [], k);
  }

  /** Python dict equality: the same value under every key, whatever the insertion order. */
  ghost predicate SameDict(a: Json, b: Json)
  {
    a.JObj? && b.JObj? && forall k :: Field(a, k) == Field(b, k)
  }

  /** A clean label value is non-blank and strips to itself. */
  lemma CleanValue(t: string)
    requires t != [] && Strip(t) == t
    ensures NonBlank(t) && CleanText(Some(JStr(t))) == Some(t)
  {
    NonBlankStrip(t);
  }

  /** The label lookups of an entry whose `labels` is a stored clean map. */
  lemma StoredLabels(p: Json, labels: seq<(string, string)>)
    requires CleanLabelMap(labels)
    requires Field(p, "labels") == (if labels != [] then Some(LabelsJson(labels)) else None)
    ensures PresetLabels(p) == labels
  {
    if labels != [] {
      CleanLabelsOfLabelsJson(labels);
    }
  }

  /**
   * Serialising an entry the normaliser built gives back the same dict:
   * opening the dialog and applying it without edits stores the presets
   * the window already had.
   */
  lemma SerializeEntryFields(id: string, hms: (int, int, int), primary: string, labels: seq<(string, string)>,
                             nameKey: string, lang: string, newId: string)
    requires NonBlank(id)
    requires 0 <= hms.0 <= 99 && 0 <= hms.1 <= 59 && 0 <= hms.2 <= 59
    requires CleanLabelMap(labels) && primary == PrimaryLabel(labels, lang)
    requires Strip(nameKey) == nameKey
    ensures var p := JObj(EntryFields(id, hms, primary, labels, nameKey));
      SerializeEntry(p, lang, newId).Some? && SameDict(SerializeEntry(p, lang, newId).value, p)
  {
    var p := JObj(EntryFields(id, hms, primary, labels, nameKey));
    EntryReadByDialog(id, hms, primary, labels, nameKey, lang, newId);
    forall k
      ensures Field(p, k) == EntryLookup(id, hms, primary, labels, nameKey, k)
    {
      EntryFieldsGet(id, hms, primary, labels, nameKey, k);
    }
    SerializeSameDict(p, lang, newId, id, hms, primary, labels, nameKey);
  }

  /** The value a normalised entry holds under `k`. */
  function EntryLookup(id: string, hms: (int, int, int), primary: string, labels: seq<(string, string)>,
                       nameKey: string, k: string): Option<Json>
  {
    if k == "id" then Some(JStr(id))
    else if k == "mode" then Some(JStr("countdown"))
    else if k == "hours" then Some(JInt(hms.0))
    else if k == "minutes" then Some(JInt(hms.1))
    else if k == "seconds" then Some(JInt(hms.2))
    else if k == "label" && primary != [] then Some(JStr(primary))
    else if k == "labels" && labels != [] then Some(LabelsJson(labels))
    else if k == "name_key" && nameKey != [] then Some(JStr(nameKey))
    else None
  }

  /** Key by key, an entry read as a normalised one serialises to the same dict. */
  lemma SerializeSameDict(p: Json, lang: string, newId: string, id: string, hms: (int, int, int), primary: string,
                          labels: seq<(string, string)>, nameKey: string)
    requires p.JObj?
    requires forall k :: Field(p, k) == EntryLookup(id, hms, primary, labels, nameKey, k)
    requires DialogHms(p) == Some(hms) && SerialId(p, newId) == JStr(id) && PresetLabels(p) == labels
    requires LegacyLabel(p) == (if primary != [] then Some(primary) else None)
    requires CleanNameKey(p) == (if nameKey != [] then Some(nameKey) else None)
    requires primary == PrimaryLabel(labels, lang)
    ensures SerializeEntry(p, lang, newId).Some? && SameDict(SerializeEntry(p, lang, newId).value, p)
  {
    forall k
      ensures Field(SerializeEntry(p, lang, newId).value, k) == Field(p, k)
    {
      SerializeSameKey(p, lang, newId, id, hms, primary, labels, nameKey, k);
    }
  }

  lemma SerializeSameKey(p: Json, lang: string, newId: string, id: string, hms: (int, int, int), primary: string,
                         labels: seq<(string, string)>, nameKey: string, k: string)
    requires Field(p, k) == EntryLookup(id, hms, primary, labels, nameKey, k)
    requires DialogHms(p) == Some(hms) && SerialId(p, newId) == JStr(id) && PresetLabels(p) == labels
    requires LegacyLabel(p) == (if primary != [] then Some(primary) else None)
    requires CleanNameKey(p) == (if nameKey != [] then Some(nameKey) else None)
    requires primary == PrimaryLabel(labels, lang)
    ensures SerializeEntry(p, lang, newId).Some? && Field(SerializeEntry(p, lang, newId).value, k) == Field(p, k)
  {
    SerializeEntryGet(p, lang, newId, k);
    PrimaryLabelPrefersLanguage(labels, lang);
    SameKeyFromParts(k, Field(SerializeEntry(p, lang, newId).value, k), SerialId(p, newId), LegacyLabel(p), CleanNameKey(p),
                     id, hms, primary, labels, nameKey, lang);
  }

  /** The serialised value under `k`, read off the dialog's readers, is the value a normalised entry stores. */
  lemma SameKeyFromParts(k: string, got: Option<Json>, sid: Json, legacy: Option<string>, cleanKey: Option<string>,
                         id: string, hms: (int, int, int), primary: string, labels: seq<(string, string)>,
                         nameKey: string, lang: string)
    requires sid == JStr(id)
    requires legacy == (if primary != [] then Some(primary) else None)
    requires cleanKey == (if nameKey != [] then Some(nameKey) else None)
    requires Get(labels, lang).Some? ==> primary == Get(labels, lang).value
    requires primary == [] <==> labels == []
    requires got ==
        if k == "id" then Some(sid)
        else if k == "mode" then Some(JStr("countdown"))
        else if k == "hours" then Some(JInt(hms.0))
        else if k == "minutes" then Some(JInt(hms.1))
        else if k == "seconds" then Some(JInt(hms.2))
        else if k == "label" && Get(labels, lang).Some? then Some(JStr(Get(labels, lang).value))
        else if k == "label" && legacy.Some? then Some(JStr(legacy.value))
        else if k == "name_key" && cleanKey.Some? then Some(JStr(cleanKey.value))
        else if k == "labels" && labels != [] then Some(LabelsJson(labels))
        else None
    ensures got == EntryLookup(id, hms, primary, labels, nameKey, k)
  {
  }

  /** What the dialog's readers see in an entry the normaliser built. */
  lemma EntryReadByDialog(id: string, hms: (int, int, int), primary: string, labels: seq<(string, string)>,
                          nameKey: string, lang: string, newId: string)
    requires NonBlank(id)
    requires 0 <= hms.0 <= 99 && 0 <= hms.1 <= 59 && 0 <= hms.2 <= 59
    requires CleanLabelMap(labels) && primary == PrimaryLabel(labels, lang)
    requires Strip(nameKey) == nameKey
    ensures var p := JObj(EntryFields(id, hms, primary, labels, nameKey));
      && DialogHms(p) == Some(hms)
      && SerialId(p, newId) == JStr(id)
      && LegacyLabel(p) == (if primary != [] then Some(primary) else None)
      && CleanNameKey(p) == (if nameKey != [] then Some(nameKey) else None)
      && PresetLabels(p) == labels
  {
    EntryFieldsStored(id, hms, primary, labels, nameKey);
    ReadStoredEntry(JObj(EntryFields(id, hms, primary, labels, nameKey)), id, hms, primary, labels, nameKey, lang, newId);
  }

  /** The stored fields of an entry the normaliser built, key by key. */
  lemma EntryFieldsStored(id: string, hms: (int, int, int), primary: string, labels: seq<(string, string)>, nameKey: string)
    ensures var p := JObj(EntryFields(id, hms, primary, labels, nameKey));
      && Field(p, "id") == Some(JStr(id))
      && Field(p, "hours") == Some(JInt(hms.0)) && Field(p, "minutes") == Some(JInt(hms.1))
      && Field(p, "seconds") == Some(JInt(hms.2))
      && Field(p, "label") == (if primary != [] then Some(JStr(primary)) else None)
      && Field(p, "labels") == (if labels != [] then Some(LabelsJson(labels)) else None)
      && Field(p, "name_key") == (if nameKey != [] then Some(JStr(nameKey)) else None)
  {
    EntryFieldsGet(id, hms, primary, labels, nameKey, "id");
    EntryFieldsGet(id, hms, primary, labels, nameKey, "hours");
    EntryFieldsGet(id, hms, primary, labels, nameKey, "minutes");
    EntryFieldsGet(id, hms, primary, labels, nameKey, "seconds");
    EntryFieldsGet(id, hms, primary, labels, nameKey, "label");
    EntryFieldsGet(id, hms, primary, labels, nameKey, "labels");
    EntryFieldsGet(id, hms, primary, labels, nameKey, "name_key");
  }

  /** The dialog's readers on any dict holding a normalised entry's stored fields. */
  lemma ReadStoredEntry(p: Json, id: string, hms: (int, int, int), primary: string, labels: seq<(string, string)>,
                        nameKey: string, lang: string, newId: string)
    requires p.JObj? && NonBlank(id)
    requires 0 <= hms.0 <= 99 && 0 <= hms.1 <= 59 && 0 <= hms.2 <= 59
    requires CleanLabelMap(labels) && primary == PrimaryLabel(labels, lang)
    requires Strip(nameKey) == nameKey
    requires Field(p, "id") == Some(JStr(id))
    requires Field(p, "hours") == Some(JInt(hms.0)) && Field(p, "minutes") == Some(JInt(hms.1))
    requires Field(p, "seconds") == Some(JInt(hms.2))
    requires Field(p, "label") == (if primary != [] then Some(JStr(primary)) else None)
    requires Field(p, "labels") == (if labels != [] then Some(LabelsJson(labels)) else None)
    requires Field(p, "name_key") == (if nameKey != [] then Some(JStr(nameKey)) else None)
    ensures DialogHms(p) == Some(hms) && SerialId(p, newId) == JStr(id)
    ensures LegacyLabel(p) == (if primary != [] then Some(primary) else None)
    ensures CleanNameKey(p) == (if nameKey != [] then Some(nameKey) else None)
    ensures PresetLabels(p) == labels
  {
    ReadDurationsAndId(p, id, hms, newId);
    ReadLabels(p, primary, labels, nameKey, lang);
  }

  /** The dialog reads back the durations and the id an entry stores. */
  lemma ReadDurationsAndId(p: Json, id: string, hms: (int, int, int), newId: string)
    requires p.JObj? && NonBlank(id)
    requires 0 <= hms.0 <= 99 && 0 <= hms.1 <= 59 && 0 <= hms.2 <= 59
    requires Field(p, "id") == Some(JStr(id))
    requires Field(p, "hours") == Some(JInt(hms.0)) && Field(p, "minutes") == Some(JInt(hms.1))
    requires Field(p, "seconds") == Some(JInt(hms.2))
    ensures DialogHms(p) == Some(hms) && SerialId(p, newId) == JStr(id)
  {
  }

  /** The dialog reads back the cleaned label, `name_key` and labels an entry stores. */
  lemma ReadLabels(p: Json, primary: string, labels: seq<(string, string)>, nameKey: string, lang: string)
    requires p.JObj?
    requires CleanLabelMap(labels) && primary == PrimaryLabel(labels, lang)
    requires Strip(nameKey) == nameKey
    requires Field(p, "label") == (if primary != [] then Some(JStr(primary)) else None)
    requires Field(p, "labels") == (if labels != [] then Some(LabelsJson(labels)) else None)
    requires Field(p, "name_key") == (if nameKey != [] then Some(JStr(nameKey)) else None)
    ensures LegacyLabel(p) == (if primary != [] then Some(primary) else None)
    ensures CleanNameKey(p) == (if nameKey != [] then Some(nameKey) else None)
    ensures PresetLabels(p) == labels
  {
    if primary != [] {
      PrimaryLabelClean(labels, lang);
      CleanValue(primary);
    }
    if nameKey != [] {
      CleanValue(nameKey);
    }
    StoredLabels(p, labels);
  }

  /** The primary label of a clean label map is itself clean. */
  lemma PrimaryLabelClean(labels: seq<(string, string)>, lang: string)
    requires CleanLabelMap(labels) && PrimaryLabel(labels, lang) != []
    ensures Strip(PrimaryLabel(labels, lang)) == PrimaryLabel(labels, lang)
  {
    PrimaryLabelPrefersLanguage(labels, lang);
    LabelValuesClean(labels, lang);
    if Get(labels, lang).None? {
      assert labels[0] in labels;
    }
  }

  /** Every entry `ensure_presets_normalized` leaves serialises back to itself. */
  lemma SerializeNormalized(entry: Json, id: string, lang: string, newId: string)
    requires NonBlank(id)
    ensures SerializeEntry(NormalizeEntry(entry, id, lang), lang, newId).Some?
    ensures SameDict(SerializeEntry(NormalizeEntry(entry, id, lang), lang, newId).value, NormalizeEntry(entry, id, lang))
  {
    var labels := EntryLabels(entry, lang);
    var nk := NameKeyOf(entry);
    assert Strip(nk) == nk by {
      match Field(entry, "name_key")
      case Some(JStr(s)) => StripIdempotent(s);
      case _ =>
    }
    SerializeEntryFields(id, PresetHms(entry), PrimaryLabel(labels, lang), labels, nk, lang, newId);
  }

  /**
   * A serialised entry is a valid preset whose `labels` are the cleaned
   * input labels and whose `label` is the current language's label when
   * there is one.
   */
  lemma SerializeEntryValid(preset: Json, lang: string, newId: string)
    requires DialogHms(preset).Some?
    ensures var r := SerializeEntry(preset, lang, newId).value;
      ValidPreset(r)
      && PresetLabels(r) == PresetLabels(preset)
      && (Get(PresetLabels(preset), lang).Some? ==> LabelForLanguage(r, lang) == Get(PresetLabels(preset), lang))
      && (Field(preset, "id").Some? && Truthy(Field(preset, "id").value) ==> Field(r, "id") == Field(preset, "id"))
  {
    var r := SerializeEntry(preset, lang, newId).value;
    SerializeEntryGet(preset, lang, newId, "mode");
    SerializeEntryGet(preset, lang, newId, "hours");
    SerializeEntryGet(preset, lang, newId, "minutes");
    SerializeEntryGet(preset, lang, newId, "seconds");
    SerializeEntryGet(preset, lang, newId, "labels");
    SerializeEntryGet(preset, lang, newId, "id");
    StoredLabels(r, PresetLabels(preset));
  }

  // ---------------------------------------------------------------------
  // The preset editor
  // ---------------------------------------------------------------------

  /** `PresetEditorDialog._result`: the spin values, the label and the labels (empty for `None`). */
  datatype EditorResult = EditorResult(hours: int, minutes: int, seconds: int, labelValue: Option<string>,
                                       labels: seq<(string, string)>)

  /** `_extract_legacy_label`: the stored `label` stripped, else the resolved label stripped. */
  function ExtractLegacyLabel(initial: Json, resolvedLabel: Option<string>): (r: Option<string>)
    ensures r.Some? ==> r.value != [] && Strip(r.value) == r.value
    ensures LegacyLabel(initial).Some? ==> r == LegacyLabel(initial)
    ensures LegacyLabel(initial).None? ==>
      r == (if resolvedLabel.Some? && NonBlank(resolvedLabel.value) then Some(Strip(resolvedLabel.value)) else None)
  {
    var stored := LegacyLabel(initial);
    if stored.Some? then
      StripIdempotent(Field(initial, "label").value.s);
      stored
    else if resolvedLabel.Some? && NonBlank(resolvedLabel.value) then
      NonBlankStrip(resolvedLabel.value);
      StripIdempotent(resolvedLabel.value);
      Some(Strip(resolvedLabel.value))
    else None
  }

  /** The first entry whose language part matches and whose text is non-blank, stripped. */
  function FirstCleanWithPrefix(raw: seq<(string, Json)>, short: string): (r: Option<string>)
    ensures FirstCleanFound(raw, short, r)
  {
    if |raw| == 0 then None
    else if LanguagePrefix(raw[0].0) == short && CleanText(Some(raw[0].1)).Some? then
      assert FirstCleanFound(raw, short, CleanText(Some(raw[0].1))) by {
        assert FirstCleanAt(raw, short, 0);
      }
      CleanText(Some(raw[0].1))
    else
      var r := FirstCleanWithPrefix(raw[1..], short);
      FirstCleanShift(raw, short, r);
      r
  }

  /** Entry `i` is the earliest same-family entry with clean text. */
  ghost predicate FirstCleanAt(raw: seq<(string, Json)>, short: string, i: int)
  {
    0 <= i < |raw| && LanguagePrefix(raw[i].0) == short && CleanText(Some(raw[i].1)).Some?
    && forall j :: 0 <= j < i && LanguagePrefix(raw[j].0) == short ==> CleanText(Some(raw[j].1)).None?
  }

  /** `r` is the clean text of the earliest same-family entry, or None when no such entry has clean text. */
  ghost predicate FirstCleanFound(raw: seq<(string, Json)>, short: string, r: Option<string>)
  {
    && (r.Some? ==> exists i :: FirstCleanAt(raw, short, i) && CleanText(Some(raw[i].1)) == r)
    && (r.None? ==> forall i :: 0 <= i < |raw| && LanguagePrefix(raw[i].0) == short ==> CleanText(Some(raw[i].1)).None?)
  }

  /** A search result for the tail is one for the whole list when the head does not qualify. */
  lemma FirstCleanShift(raw: seq<(string, Json)>, short: string, r: Option<string>)
    requires |raw| > 0 && !(LanguagePrefix(raw[0].0) == short && CleanText(Some(raw[0].1)).Some?)
    requires FirstCleanFound(raw[1..], short, r)
    ensures FirstCleanFound(raw, short, r)
  {
    if r.Some? {
      var i :| FirstCleanAt(raw[1..], short, i) && CleanText(Some(raw[1..][i].1)) == r;
      assert raw[i + 1] == raw[1..][i];
      forall j | 0 <= j < i + 1 && LanguagePrefix(raw[j].0) == short ensures CleanText(Some(raw[j].1)).None? {
        if j > 0 { assert raw[j] == raw[1..][j - 1]; }
      }
      assert FirstCleanAt(raw, short, i + 1);
    } else {
      forall i | 0 <= i < |raw| && LanguagePrefix(raw[i].0) == short ensures CleanText(Some(raw[i].1)).None? {
        if i > 0 { assert raw[i] == raw[1..][i - 1]; }
      }
    }
  }

  /** Over stored clean labels the dialog's family scan is the window's. */
  lemma {:induction false} FirstCleanOfStored(l: seq<(string, string)>, short: string)
    requires forall x :: x in l ==> x.1 != [] && Strip(x.1) == x.1
    ensures FirstCleanWithPrefix(LabelFields(l), short) == FirstWithPrefix(l, short)
  {
    if |l| > 0 {
      assert l[0] in l;
      NonBlankStrip(l[0].1);
      assert CleanText(Some(JStr(l[0].1))) == Some(l[0].1);
      assert LabelFields(l)[1..] == LabelFields(l[1..]);
      forall x | x in l[1..] ensures x.1 != [] && Strip(x.1) == x.1 {
        assert x in l;
      }
      FirstCleanOfStored(l[1..], short);
    }
  }

  /**
   * `_get_existing_label`: from the editor's clean labels, or the initial
   * preset's raw `labels` when those are empty: the exact language, then
   * the same language family, then the legacy label.
   */
  function GetExistingLabel(existing: seq<(string, string)>, initial: Json, legacy: Option<string>, lang: string): (r: Option<string>)
    requires CleanLabelMap(existing)
    ensures Get(existing, lang).Some? ==> r == Get(existing, lang)
    ensures existing != [] && Get(existing, lang).None? ==>
      r == (if FirstWithPrefix(existing, LanguagePrefix(lang)).Some? then FirstWithPrefix(existing, LanguagePrefix(lang)) else legacy)
    ensures existing == [] && Field(initial, "labels").Some? && Field(initial, "labels").value.JObj? ==>
      var raw := Field(initial, "labels").value.fields;
      r == (if CleanText(Get(raw, lang)).Some? then CleanText(Get(raw, lang))
            else if FirstCleanWithPrefix(raw, LanguagePrefix(lang)).Some? then FirstCleanWithPrefix(raw, LanguagePrefix(lang))
            else legacy)
    ensures existing == [] && !(Field(initial, "labels").Some? && Field(initial, "labels").value.JObj?) ==> r == legacy
  {
    FirstCleanOfStored(existing, LanguagePrefix(lang));
    var source := if existing != [] then Some(LabelFields(existing))
                  else if Field(initial, "labels").Some? && Field(initial, "labels").value.JObj? then Some(Field(initial, "labels").value.fields)
                  else None;
    match source
    case None => legacy
    case Some(raw) =>
      if CleanText(Get(raw, lang)).Some? then
        assert existing != [] ==> CleanText(Get(raw, lang)) == Get(existing, lang) by {
          if existing != [] {
            LabelFieldsGet(existing, lang);
          }
        }
        CleanText(Get(raw, lang))
      else if FirstCleanWithPrefix(raw, LanguagePrefix(lang)).Some? then
        assert existing != [] ==> Get(existing, lang).None? by {
          if existing != [] {
            LabelFieldsGet(existing, lang);
          }
        }
        FirstCleanWithPrefix(raw, LanguagePrefix(lang))
      else
        assert existing != [] ==> Get(existing, lang).None? by {
          if existing != [] {
            LabelFieldsGet(existing, lang);
          }
        }
        legacy
  }

  /**
   * The editor pre-fills a language's name with what the main window shows
   * for that language, whenever the preset has a label in that language's
   * family (the window's last resort, the first label, is not used).
   */
  lemma ExistingLabelIsShownLabel(preset: Json, legacy: Option<string>, lang: string)
    requires PresetLabels(preset) != []
    requires Get(PresetLabels(preset), lang).Some? || FirstWithPrefix(PresetLabels(preset), LanguagePrefix(lang)).Some?
    ensures GetExistingLabel(PresetLabels(preset), preset, legacy, lang) == LabelForLanguage(preset, lang)
  {
    assert CleanLabelMap(PresetLabels(preset));
  }

  /**
   * Without per-language labels, the settings list and the main window
   * show the same name for a preset with integer fields.
   */
  lemma DialogAgreesWithWindow(preset: Json, lang: string, tr: string -> string)
    requires preset.JObj? && PresetLabels(preset) == []
    requires forall k :: k in {"hours", "minutes", "seconds"} && Field(preset, k).Some? ==> Field(preset, k).value.JInt?
    ensures DialogPresetLabel(preset, lang, tr) == Some(ResolvePresetLabel(preset, lang, tr))
  {
    DialogDurationAgrees(preset);
  }

  /**
   * The editor's fallback name, built from the name the settings list
   * shows, is that name stripped (None when it is blank or when `int()`
   * raised while computing it).
   */
  lemma LegacyLabelIsListedName(preset: Json, lang: string, tr: string -> string)
    ensures var shown := DialogPresetLabel(preset, lang, tr);
      ExtractLegacyLabel(preset, shown) == (if shown.Some? && NonBlank(shown.value) then Some(Strip(shown.value)) else None)
  {
    var stored := LegacyLabel(preset);
    if stored.Some? {
      StripIdempotent(Field(preset, "label").value.s);
      NonBlankStrip(Field(preset, "label").value.s);
      NonBlankStrip(stored.value);
    }
  }

  /** A clean map stored as JSON and read back key by key gives its values, which are clean. */
  lemma {:induction false} LabelFieldsGet(l: seq<(string, string)>, k: string)
    requires CleanLabelMap(l)
    ensures Get(LabelFields(l), k) == (if Get(l, k).Some? then Some(JStr(Get(l, k).value)) else None)
    ensures CleanText(Get(LabelFields(l), k)) == Get(l, k)
  {
    if |l| > 0 {
      assert forall x :: x in l[1..] ==> x in l;
      assert CleanLabelMap(l[1..]) by {
        forall i, j | 0 <= i < j < |l[1..]| ensures l[1..][i].0 != l[1..][j].0 {
          assert l[1..][i] == l[i + 1] && l[1..][j] == l[j + 1];
        }
      }
      LabelFieldsGet(l[1..], k);
      if l[0].0 == k {
        assert l[0] in l;
        CleanValue(l[0].1);
      }
    }
  }

  /**
   * The labels the editor starts from: the typed name under the current
   * language, then the second name under the other language when its box
   * is checked, or that language dropped when it is not.
   */
  function FormLabels(name: string, checked: bool, alt: string, cur: string, other: string): (r: seq<(string, string)>)
    requires name == [] || Strip(name) == name
    requires alt == [] || Strip(alt) == alt
    ensures CleanLabelMap(r)
  {
    var first: seq<(string, string)> := if name != [] then [(cur, name)] else [];
    if checked && alt != [] then
      PutClean(first, other, alt);
      Put(first, other, alt)
    else if checked then first
    else if other == cur then []
    else first
  }

  /**
   * One existing raw label merged into the editor's labels: the current
   * language only when no name was typed, the other language only when its
   * box is checked, every other language when its slot is still free.
   */
  function MergeOne(acc: seq<(string, string)>, key: string, text: Json, nameGiven: bool, cur: string, other: string,
                    checked: bool): (r: seq<(string, string)>)
    requires CleanLabelMap(acc)
    ensures CleanLabelMap(r)
  {
    var t := CleanText(Some(text));
    CleanTextClean(Some(text));
    if t.None? then acc
    else if key == cur then (if !nameGiven then CleanPut(acc, cur, t.value) else acc)
    else if key == other && !checked then acc
    else CleanSetDefault(acc, key, t.value)
  }

  /** `labels.setdefault(k, v)` for a clean value, on a clean map. */
  function CleanSetDefault(acc: seq<(string, string)>, k: string, v: string): (r: seq<(string, string)>)
    requires CleanLabelMap(acc) && v != [] && Strip(v) == v
    ensures CleanLabelMap(r) && r == SetDefault(acc, k, v)
  {
    PutClean(acc, k, v);
    SetDefault(acc, k, v)
  }

  /** `labels[k] = v` for a clean value, on a clean map. */
  function CleanPut(acc: seq<(string, string)>, k: string, v: string): (r: seq<(string, string)>)
    requires CleanLabelMap(acc) && v != [] && Strip(v) == v
    ensures CleanLabelMap(r) && r == Put(acc, k, v)
  {
    PutClean(acc, k, v);
    Put(acc, k, v)
  }

  /** What `_clean_labels` keeps of a value is non-blank and stripped. */
  lemma CleanTextClean(v: Option<Json>)
    ensures CleanText(v).Some? ==> CleanText(v).value != [] && Strip(CleanText(v).value) == CleanText(v).value
  {
    if CleanText(v).Some? {
      StripIdempotent(v.value.s);
      NonBlankStrip(v.value.s);
    }
  }

  /** The merge loop of `accept` over the initial preset's raw `labels`. */
  function MergeExisting(acc: seq<(string, string)>, raw: seq<(string, Json)>, nameGiven: bool, cur: string, other: string,
                         checked: bool): (r: seq<(string, string)>)
    requires CleanLabelMap(acc)
    ensures CleanLabelMap(r)
    decreases |raw|
  {
    if |raw| == 0 then acc
    else MergeExisting(MergeOne(acc, raw[0].0, raw[0].1, nameGiven, cur, other, checked), raw[1..], nameGiven, cur, other, checked)
  }

  /** Key by key, what one merge step keeps. */
  lemma MergeOneLookup(acc: seq<(string, string)>, key: string, text: Json, nameGiven: bool, cur: string, other: string,
                       checked: bool, k: string)
    requires CleanLabelMap(acc)
    ensures Get(MergeOne(acc, key, text, nameGiven, cur, other, checked), k) ==
      if k != key || CleanText(Some(text)).None? then Get(acc, k)
      else if k == cur then (if !nameGiven then CleanText(Some(text)) else Get(acc, k))
      else if k == other && !checked then Get(acc, k)
      else if Get(acc, k).Some? then Get(acc, k)
      else CleanText(Some(text))
  {
    var t := CleanText(Some(text));
    if t.Some? && key != cur && !(key == other && !checked) && key !in KeySet(acc) {
      GetAppend(acc, [(key, t.value)], k);
    }
  }

  /** Key by key, what the merge keeps: typed names win, existing labels fill free slots. */
  lemma {:induction false} MergeLookup(acc: seq<(string, string)>, raw: seq<(string, Json)>, nameGiven: bool, cur: string,
                                       other: string, checked: bool, k: string)
    requires CleanLabelMap(acc) && DistinctKeys(raw)
    ensures Get(MergeExisting(acc, raw, nameGiven, cur, other, checked), k) ==
      if k == cur then (if !nameGiven && CleanText(Get(raw, cur)).Some? then CleanText(Get(raw, cur)) else Get(acc, cur))
      else if k == other && !checked then Get(acc, other)
      else if Get(acc, k).Some? then Get(acc, k)
      else CleanText(Get(raw, k))
    decreases |raw|
  {
    if |raw| > 0 {
      DistinctHead(raw);
      assert raw == [raw[0]] + raw[1..];
      GetCons(raw[0], raw[1..], k);
      var acc' := MergeOne(acc, raw[0].0, raw[0].1, nameGiven, cur, other, checked);
      assert MergeExisting(acc, raw, nameGiven, cur, other, checked) == MergeExisting(acc', raw[1..], nameGiven, cur, other, checked);
      MergeOneLookup(acc, raw[0].0, raw[0].1, nameGiven, cur, other, checked, k);
      MergeLookup(acc', raw[1..], nameGiven, cur, other, checked, k);
      if k == raw[0].0 {
        assert Get(raw[1..], k) == None;
      }
    }
  }

  /** The labels `accept` builds from the form and the initial preset. */
  function EditorLabels(initial: Json, cur: string, other: string, name: string, checked: bool, alt: string): (r: seq<(string, string)>)
    ensures CleanLabelMap(r)
  {
    var n := Strip(name);
    var a := Strip(alt);
    StripIdempotent(name);
    StripIdempotent(alt);
    MergeExisting(FormLabels(n, checked, a, cur, other), ExistingRaw(initial), n != [], cur, other, checked)
  }

  /** `self._initial.get('labels')` when it is a dict, else no entries. */
  function ExistingRaw(initial: Json): seq<(string, Json)>
  {
    if Field(initial, "labels").Some? && Field(initial, "labels").value.JObj? then Field(initial, "labels").value.fields else []
  }

  /**
   * What the editor's labels hold: the typed name under the current
   * language, the second name under the other language exactly when its box
   * is checked, and every other language's existing label carried over.
   */
  lemma EditorLabelsLookup(initial: Json, cur: string, other: string, name: string, checked: bool, alt: string)
    requires DistinctKeys(ExistingRaw(initial)) && cur != other
    ensures var r := EditorLabels(initial, cur, other, name, checked, alt);
      && (NonBlank(name) ==> Get(r, cur) == Some(Strip(name)))
      && (!NonBlank(name) ==> Get(r, cur) == CleanText(Get(ExistingRaw(initial), cur)))
      && (checked && NonBlank(alt) ==> Get(r, other) == Some(Strip(alt)))
      && (!checked ==> Get(r, other) == None)
      && forall k :: k != cur && k != other ==> Get(r, k) == CleanText(Get(ExistingRaw(initial), k))
  {
    var n := Strip(name);
    var a := Strip(alt);
    StripIdempotent(name);
    StripIdempotent(alt);
    NonBlankStrip(name);
    NonBlankStrip(alt);
    var f := FormLabels(n, checked, a, cur, other);
    var raw := ExistingRaw(initial);
    FormLabelsLookup(n, checked, a, cur, other);
    MergeLookup(f, raw, n != [], cur, other, checked, cur);
    MergeLookup(f, raw, n != [], cur, other, checked, other);
    forall k | k != cur && k != other
      ensures Get(EditorLabels(initial, cur, other, name, checked, alt), k) == CleanText(Get(raw, k))
    {
      MergeLookup(f, raw, n != [], cur, other, checked, k);
    }
  }

  /** The form's labels key by key. */
  lemma FormLabelsLookup(name: string, checked: bool, alt: string, cur: string, other: string)
    requires name == [] || Strip(name) == name
    requires alt == [] || Strip(alt) == alt
    requires cur != other
    ensures var f := FormLabels(name, checked, alt, cur, other);
      && Get(f, cur) == (if name != [] then Some(name) else None)
      && Get(f, other) == (if checked && alt != [] then Some(alt) else None)
      && forall k :: k != cur && k != other ==> Get(f, k) == None
  {
  }

  /** `label_value`: none when auto-naming leaves no labels, else the current language's label or the first one. */
  function EditorLabelValue(labels: seq<(string, string)>, cur: string): Option<string>
  {
    if labels == [] then None else Some(PrimaryLabel(labels, cur))
  }

  /** The merge loop of `accept`, over the raw entries in order. */
  method MergeExistingLabels(labels0: seq<(string, string)>, raw: seq<(string, Json)>, nameGiven: bool, cur: string,
                             other: string, checked: bool) returns (labels: seq<(string, string)>)
    requires CleanLabelMap(labels0)
    ensures CleanLabelMap(labels)
    ensures labels == MergeExisting(labels0, raw, nameGiven, cur, other, checked)
  {
    labels := labels0;
    var i := 0;
    while i < |raw|
      invariant 0 <= i <= |raw|
      invariant CleanLabelMap(labels)
      invariant MergeExisting(labels, raw[i..], nameGiven, cur, other, checked) == MergeExisting(labels0, raw, nameGiven, cur, other, checked)
    {
      MergeExistingStep(labels, raw, i, nameGiven, cur, other, checked);
      labels := MergeEntry(labels, raw[i].0, raw[i].1, nameGiven, cur, other, checked);
      i := i + 1;
    }
    assert raw[i..] == [];
  }

  /** One pass of the merge loop's body. */
  method MergeEntry(labels0: seq<(string, string)>, key: string, text: Json, nameGiven: bool, cur: string, other: string,
                    checked: bool) returns (labels: seq<(string, string)>)
    requires CleanLabelMap(labels0)
    ensures labels == MergeOne(labels0, key, text, nameGiven, cur, other, checked)
  {
    labels := labels0;
    var t := CleanText(Some(text));
    if key == cur {
      if !nameGiven && t.Some? {
        labels := Put(labels, cur, t.value);
      }
    } else if key == other && !checked {
    } else if t.Some? {
      labels := SetDefault(labels, key, t.value);
    }
  }

  /** Taking one entry off the front of the merge. */
  lemma MergeExistingStep(labels: seq<(string, string)>, raw: seq<(string, Json)>, i: int, nameGiven: bool, cur: string,
                          other: string, checked: bool)
    requires CleanLabelMap(labels) && 0 <= i < |raw|
    ensures MergeExisting(labels, raw[i..], nameGiven, cur, other, checked)
      == MergeExisting(MergeOne(labels, raw[i].0, raw[i].1, nameGiven, cur, other, checked), raw[i + 1..], nameGiven, cur, other, checked)
  {
    assert raw[i..][1..] == raw[i + 1..];
  }

  /**
   * `_apply_label_result`: non-empty labels are stored with the primary
   * label beside them; otherwise `labels` is dropped and `label` is the
   * result's label or dropped too.
   */
  function ApplyLabelResult(entry: seq<(string, Json)>, data: EditorResult, cur: string): (r: seq<(string, Json)>)
  {
    var labels := if data.labels != [] then CleanLabels(Some(LabelsJson(data.labels))) else [];
    if labels != [] then
      var e := Put(entry, "labels", LabelsJson(labels));
      var primary := PrimaryLabel(labels, cur);
      if primary != [] then Put(e, "label", JStr(primary)) else e
    else
      var e := Remove(entry, "labels");
      if data.labelValue.Some? && data.labelValue.value != [] then Put(e, "label", JStr(data.labelValue.value))
      else Remove(e, "label")
  }

  /**
   * After `_apply_label_result` the window reads back exactly the result's
   * labels, shows the current language's label when there is one, shows no
   * label at all for an auto-named result, and every other key is untouched.
   */
  lemma AppliedLabels(entry: seq<(string, Json)>, data: EditorResult, cur: string)
    requires CleanLabelMap(data.labels)
    ensures var r := JObj(ApplyLabelResult(entry, data, cur));
      && PresetLabels(r) == data.labels
      && (Get(data.labels, cur).Some? ==> LabelForLanguage(r, cur) == Get(data.labels, cur))
      && (data.labels != [] ==> Field(r, "label") == Some(JStr(PrimaryLabel(data.labels, cur))))
      && (data.labels == [] && data.labelValue.None? ==> LabelForLanguage(r, cur) == None)
      && forall k :: k != "label" && k != "labels" ==> Field(r, k) == Get(entry, k)
  {
    var r := JObj(ApplyLabelResult(entry, data, cur));
    if data.labels != [] {
      CleanLabelsOfLabelsJson(data.labels);
      PrimaryLabelPrefersLanguage(data.labels, cur);
    }
    StoredLabels(r, data.labels);
  }

  /**
   * A name typed into the editor is what the main window shows for the
   * preset in that language once the result is applied.
   */
  lemma TypedNameShown(entry: seq<(string, Json)>, initial: Json, cur: string, other: string, name: string, checked: bool,
                       alt: string, h: int, m: int, s: int)
    requires DistinctKeys(ExistingRaw(initial)) && cur != other && NonBlank(name)
    ensures var labels := EditorLabels(initial, cur, other, name, checked, alt);
      var data := EditorResult(h, m, s, EditorLabelValue(labels, cur), labels);
      LabelForLanguage(JObj(ApplyLabelResult(entry, data, cur)), cur) == Some(Strip(name))
  {
    var labels := EditorLabels(initial, cur, other, name, checked, alt);
    EditorLabelsLookup(initial, cur, other, name, checked, alt);
    AppliedLabels(entry, EditorResult(h, m, s, EditorLabelValue(labels, cur), labels), cur);
  }

  /** `PresetEditorDialog`: the preset being edited, the languages, and the result once accepted. */
  class PresetEditor {
    const initial: Json
    const resolvedLabel: Option<string>
    const currentLang: string
    const otherLang: string
    const allowAutoName: bool
    const existingLabels: seq<(string, string)>
    const legacyLabel: Option<string>
    var result: Option<EditorResult>

    /** `__init__` up to the form: the cleaned existing labels and the legacy label. */
    constructor (initial: Json, resolvedLabel: Option<string>, currentLang: string, otherLang: string, allowAutoName: bool,
                 existing: Option<Json>)
      ensures this.initial == initial && this.resolvedLabel == resolvedLabel
      ensures this.currentLang == currentLang && this.otherLang == otherLang && this.allowAutoName == allowAutoName
      ensures existingLabels == CleanLabels(if existing.Some? && existing.value.JObj? then existing else Field(initial, "labels"))
      ensures CleanLabelMap(existingLabels)
      ensures legacyLabel == ExtractLegacyLabel(initial, resolvedLabel)
      ensures result == None
    {
      this.initial := initial;
      this.resolvedLabel := resolvedLabel;
      this.currentLang := currentLang;
      this.otherLang := otherLang;
      this.allowAutoName := allowAutoName;
      existingLabels := CleanLabels(if existing.Some? && existing.value.JObj? then existing else Field(initial, "labels"));
      legacyLabel := ExtractLegacyLabel(initial, resolvedLabel);
      result := None;
    }

    /**
     * `accept`: rejects a zero duration, a missing name (unless auto-naming,
     * an existing current-language label or the second name stands in), a
     * checked but blank second name, and an empty label set without
     * auto-naming; otherwise stores the result.
     */
    method Accept(name: string, checked: bool, alt: string, h: int, m: int, s: int) returns (accepted: bool)
      requires 0 <= h <= 99 && 0 <= m <= 59 && 0 <= s <= 59
      modifies this
      ensures !accepted ==> result == old(result)
      ensures accepted <==>
        && h * 3600 + m * 60 + s > 0
        && (NonBlank(name) || allowAutoName || CleanText(Get(ExistingRaw(initial), currentLang)).Some? || checked)
        && (!checked || NonBlank(alt))
        && (EditorLabels(initial, currentLang, otherLang, name, checked, alt) != [] || allowAutoName)
      ensures accepted ==> var labels := EditorLabels(initial, currentLang, otherLang, name, checked, alt);
        result == Some(EditorResult(h, m, s, EditorLabelValue(labels, currentLang), labels))
    {
      NonBlankStrip(name);
      NonBlankStrip(alt);
      StripIdempotent(name);
      StripIdempotent(alt);
      var n := Strip(name);
      if h * 3600 + m * 60 + s <= 0 {
        return false;
      }
      var raw := ExistingRaw(initial);
      var existingPrimary := Get(raw, currentLang);
      var hasExistingPrimary := existingPrimary.Some? && existingPrimary.value.JStr? && NonBlank(existingPrimary.value.s);
      if n == [] && !allowAutoName && !hasExistingPrimary && !checked {
        return false;
      }
      var a := Strip(alt);
      if checked && a == [] {
        return false;
      }
      var labels := FormLabels(n, checked, a, currentLang, otherLang);
      labels := MergeExistingLabels(labels, raw, n != [], currentLang, otherLang, checked);
      if labels == [] && !allowAutoName {
        return false;
      }
      result := Some(EditorResult(h, m, s, EditorLabelValue(labels, currentLang), labels));
      accepted := true;
    }
  }

  // ---------------------------------------------------------------------
  // The preset list the dialog edits
  // ---------------------------------------------------------------------

  /** `f"preset_{uuid.uuid4().hex[:8]}"`, the hex digits standing for the random part. */
  function NewPresetId(hex: string): (r: string)
    ensures NonBlank(r)
  {
    var r := "preset_" + hex;
    assert !IsSpace(r[0]);
    r
  }

  /** The dicts `_load_preset_snapshot` copies: those of the stored list, or the built-in presets when there are none. */
  function SnapshotBase(presets: Option<Json>): (r: seq<Json>)
    ensures forall i :: 0 <= i < |r| ==> r[i].JObj?
  {
    var dicts := if presets.Some? && presets.value.JList? then Dicts(presets.value.items) else [];
    if dicts != [] then dicts else Constants.DefaultCountdownPresets()
  }

  /** One snapshot entry: `mode` defaulted, a missing or blank id replaced by a new one. */
  function SnapshotEntry(e: Json, hex: string): (r: Json)
    requires e.JObj?
    ensures r.JObj? && IdOk(r) && "mode" in KeySet(r.fields)
    ensures forall k :: k != "mode" && k != "id" ==> Field(r, k) == Field(e, k)
  {
    var f := SetDefault(e.fields, "mode", JStr("countdown"));
    if IdOk(JObj(f)) then JObj(f) else JObj(Put(f, "id", JStr(NewPresetId(hex))))
  }

  /** `_load_preset_snapshot`: a private copy of the window's presets for the dialog to edit. */
  method LoadPresetSnapshot(presets: Option<Json>, newHex: nat -> string) returns (snapshot: seq<Json>)
    ensures |snapshot| == |SnapshotBase(presets)|
    ensures forall i :: 0 <= i < |snapshot| ==> snapshot[i] == SnapshotEntry(SnapshotBase(presets)[i], newHex(i))
    ensures forall i :: 0 <= i < |snapshot| ==> snapshot[i].JObj? && IdOk(snapshot[i])
  {
    var base := CopyDicts(presets);
    snapshot := base;
    var i := 0;
    while i < |snapshot|
      invariant 0 <= i <= |snapshot| == |base|
      invariant SnapshotPrefix(snapshot, base, newHex, i)
    {
      var entry := SnapshotOne(snapshot[i], newHex(i));
      snapshot := snapshot[i := entry];
      i := i + 1;
    }
  }

  /** The first loop of `_load_preset_snapshot`: the dict entries, or the defaults when there are none. */
  method CopyDicts(presets: Option<Json>) returns (base: seq<Json>)
    ensures base == SnapshotBase(presets)
  {
    base := [];
    if presets.Some? && presets.value.JList? {
      var items := presets.value.items;
      var i := 0;
      while i < |items|
        invariant 0 <= i <= |items|
        invariant base == Dicts(items[..i])
      {
        DictsSnoc(items, i);
        if items[i].JObj? {
          base := base + [items[i]];
        }
        i := i + 1;
      }
      assert items[..i] == items;
    }
    if base == [] {
      base := Constants.DefaultCountdownPresets();
    }
  }

  /** The first `i` entries are finished snapshot entries, the rest still the copied dicts. */
  ghost predicate SnapshotPrefix(s: seq<Json>, base: seq<Json>, newHex: nat -> string, i: int)
    requires |s| == |base| && 0 <= i <= |s|
    requires forall k :: 0 <= k < |base| ==> base[k].JObj?
  {
    (forall k :: 0 <= k < i ==> s[k] == SnapshotEntry(base[k], newHex(k)))
    && forall k :: i <= k < |s| ==> s[k] == base[k]
  }

  /** One pass of the second loop of `_load_preset_snapshot`. */
  method SnapshotOne(e: Json, hex: string) returns (r: Json)
    requires e.JObj?
    ensures r == SnapshotEntry(e, hex)
  {
    var entry := SetDefault(e.fields, "mode", JStr("countdown"));
    var presetId := Get(entry, "id");
    if !(presetId.Some? && presetId.value.JStr? && NonBlank(presetId.value.s)) {
      entry := Put(entry, "id", JStr(NewPresetId(hex)));
    }
    r := JObj(entry);
  }

  /** A list of dicts is its own list of dicts. */
  lemma {:induction false} DictsOfObjects(items: seq<Json>)
    requires forall i :: 0 <= i < |items| ==> items[i].JObj?
    ensures Dicts(items) == items
    decreases |items|
  {
    if |items| > 0 {
      DictsOfObjects(items[..|items| - 1]);
      assert items[..|items| - 1] + [items[|items| - 1]] == items;
    }
  }

  /**
   * The snapshot of a normalised preset list is the list itself: every
   * entry is a dict with a mode and a usable id already.
   */
  lemma SnapshotOfNormalized(items: seq<Json>, newHex: nat -> string)
    requires items != []
    requires forall i :: 0 <= i < |items| ==> ValidPreset(items[i]) && IdOk(items[i])
    ensures SnapshotBase(Some(JList(items))) == items
    ensures forall i :: 0 <= i < |items| ==> SnapshotEntry(items[i], newHex(i)) == items[i]
  {
    DictsOfObjects(items);
    forall i | 0 <= i < |items|
      ensures SnapshotEntry(items[i], newHex(i)) == items[i]
    {
      assert "mode" in KeySet(items[i].fields);
    }
  }

  /** The fields of a freshly added preset, before its labels. */
  function NewEntryFields(id: string, data: EditorResult): seq<(string, Json)>
  {
    [("id", JStr(id)), ("mode", JStr("countdown")), ("hours", JInt(data.hours)), ("minutes", JInt(data.minutes)),
     ("seconds", JInt(data.seconds))]
  }

  /** `edit_selected_preset` on one entry: new durations, the labels applied, a falsy `name_key` dropped. */
  function EditedEntry(preset: Json, data: EditorResult, cur: string): (r: Json)
    requires preset.JObj?
    ensures r.JObj?
  {
    var allowAuto := Field(preset, "name_key").Some? && Truthy(Field(preset, "name_key").value);
    var f := Put(Put(Put(preset.fields, "hours", JInt(data.hours)), "minutes", JInt(data.minutes)), "seconds", JInt(data.seconds));
    var g := ApplyLabelResult(f, data, cur);
    JObj(if allowAuto then g else Remove(g, "name_key"))
  }

  /** The new preset `add_preset` appends is valid, carries its id and exactly the editor's labels. */
  lemma AddedEntry(id: string, data: EditorResult, cur: string)
    requires 0 <= data.hours <= 99 && 0 <= data.minutes <= 59 && 0 <= data.seconds <= 59
    requires CleanLabelMap(data.labels)
    ensures var r := JObj(ApplyLabelResult(NewEntryFields(id, data), data, cur));
      ValidPreset(r) && PresetId(r) == Some(id) && PresetLabels(r) == data.labels
  {
    var e := NewEntryFields(id, data);
    AppliedLabels(e, data, cur);
    FirstFiveGet(JStr(id), (data.hours, data.minutes, data.seconds), "id");
    FirstFiveGet(JStr(id), (data.hours, data.minutes, data.seconds), "mode");
    FirstFiveGet(JStr(id), (data.hours, data.minutes, data.seconds), "hours");
    FirstFiveGet(JStr(id), (data.hours, data.minutes, data.seconds), "minutes");
    FirstFiveGet(JStr(id), (data.hours, data.minutes, data.seconds), "seconds");
    AddedFromParts(e, JObj(ApplyLabelResult(e, data, cur)), id, data);
  }

  /** The last step of `AddedEntry`, with the entry's field lists kept abstract. */
  lemma AddedFromParts(e: seq<(string, Json)>, r: Json, id: string, data: EditorResult)
    requires 0 <= data.hours <= 99 && 0 <= data.minutes <= 59 && 0 <= data.seconds <= 59
    requires r.JObj?
    requires Get(e, "id") == Some(JStr(id)) && Get(e, "mode") == Some(JStr("countdown"))
    requires Get(e, "hours") == Some(JInt(data.hours)) && Get(e, "minutes") == Some(JInt(data.minutes))
    requires Get(e, "seconds") == Some(JInt(data.seconds))
    requires forall k :: k != "label" && k != "labels" ==> Field(r, k) == Get(e, k)
    ensures ValidPreset(r) && PresetId(r) == Some(id)
  {
    assert Field(r, "id") == Get(e, "id");
    assert Field(r, "mode") == Get(e, "mode");
    assert Field(r, "hours") == Get(e, "hours");
    assert Field(r, "minutes") == Get(e, "minutes");
    assert Field(r, "seconds") == Get(e, "seconds");
  }

  /**
   * Editing keeps the preset's id and mode, takes the editor's durations and
   * labels, and keeps `name_key` exactly when it was truthy.
   */
  lemma EditedEntryFields(preset: Json, data: EditorResult, cur: string)
    requires preset.JObj? && CleanLabelMap(data.labels)
    ensures var r := EditedEntry(preset, data, cur);
      && Field(r, "id") == Field(preset, "id")
      && Field(r, "mode") == Field(preset, "mode")
      && Field(r, "hours") == Some(JInt(data.hours))
      && Field(r, "minutes") == Some(JInt(data.minutes))
      && Field(r, "seconds") == Some(JInt(data.seconds))
      && PresetLabels(r) == data.labels
      && (Field(r, "name_key").Some? <==> Field(preset, "name_key").Some? && Truthy(Field(preset, "name_key").value))
  {
    var f := Put(Put(Put(preset.fields, "hours", JInt(data.hours)), "minutes", JInt(data.minutes)), "seconds", JInt(data.seconds));
    var g := ApplyLabelResult(f, data, cur);
    AppliedLabels(f, data, cur);
    EditedFromParts(preset, f, g, EditedEntry(preset, data, cur), data);
  }

  /** The last step of `EditedEntryFields`, with the entry's intermediate field lists kept abstract. */
  lemma EditedFromParts(preset: Json, f: seq<(string, Json)>, g: seq<(string, Json)>, r: Json, data: EditorResult)
    requires preset.JObj?
    requires r == JObj(if Field(preset, "name_key").Some? && Truthy(Field(preset, "name_key").value) then g
                       else Remove(g, "name_key"))
    requires Get(f, "hours") == Some(JInt(data.hours)) && Get(f, "minutes") == Some(JInt(data.minutes))
    requires Get(f, "seconds") == Some(JInt(data.seconds))
    requires Get(f, "id") == Field(preset, "id") && Get(f, "mode") == Field(preset, "mode")
    requires Get(f, "name_key") == Field(preset, "name_key")
    requires forall k :: k != "label" && k != "labels" ==> Get(g, k) == Get(f, k)
    requires PresetLabels(JObj(g)) == data.labels
    ensures && Field(r, "id") == Field(preset, "id")
            && Field(r, "mode") == Field(preset, "mode")
            && Field(r, "hours") == Some(JInt(data.hours))
            && Field(r, "minutes") == Some(JInt(data.minutes))
            && Field(r, "seconds") == Some(JInt(data.seconds))
            && PresetLabels(r) == data.labels
            && (Field(r, "name_key").Some? <==> Field(preset, "name_key").Some? && Truthy(Field(preset, "name_key").value))
  {
    assert Field(r, "labels") == Get(g, "labels");
    if !(Field(preset, "name_key").Some? && Truthy(Field(preset, "name_key").value)) {
      assert "name_key" !in KeySet(r.fields);
    }
  }

  /** The list with the entries at `i` and `j` exchanged. */
  function Swapped(s: seq<Json>, i: int, j: int): (r: seq<Json>)
    requires 0 <= i < |s| && 0 <= j < |s|
    ensures |r| == |s| && r[i] == s[j] && r[j] == s[i]
    ensures forall k :: 0 <= k < |s| && k != i && k != j ==> r[k] == s[k]
    ensures multiset(r) == multiset(s)
  {
    s[i := s[j]][j := s[i]]
  }

  /** Moving a preset one way and back restores the list. */
  lemma SwapTwice(s: seq<Json>, i: int, j: int)
    requires 0 <= i < |s| && 0 <= j < |s|
    ensures Swapped(Swapped(s, i, j), j, i) == s
  {
  }

  /** `SettingsDialog`: the dialog's copy of the presets and the list's selected row. */
  class SettingsDialog {
    var presetData: seq<Json>
    var row: int
    const currentLang: string
    const otherLang: string

    ghost predicate Valid()
      reads this
    {
      forall i :: 0 <= i < |presetData| ==> presetData[i].JObj?
    }

    /** `__init__`: the languages and the preset snapshot; nothing is selected yet. */
    constructor (settings: Settings, newHex: nat -> string)
      ensures Valid()
      ensures currentLang == TimerWindowModel.LanguageOf(settings)
      ensures otherLang == FindOtherLanguage(Languages, currentLang)
      ensures |presetData| == |SnapshotBase(TimerWindowModel.PresetsOf(settings))|
      ensures forall i :: 0 <= i < |presetData| ==>
        presetData[i] == SnapshotEntry(SnapshotBase(TimerWindowModel.PresetsOf(settings))[i], newHex(i))
      ensures row == -1
    {
      currentLang := TimerWindowModel.LanguageOf(settings);
      otherLang := FindOtherLanguage(Languages, TimerWindowModel.LanguageOf(settings));
      var snapshot := LoadPresetSnapshot(TimerWindowModel.PresetsOf(settings), newHex);
      presetData := snapshot;
      row := -1;
    }

    /** `_get_selected_preset_index`: the current row when it is inside the list, else -1. */
    function SelectedIndex(): (r: int)
      reads this
      ensures -1 <= r < |presetData|
      ensures r != -1 <==> 0 <= row < |presetData|
      ensures r != -1 ==> r == row
    {
      if 0 <= row < |presetData| then row else -1
    }

    /** `add_preset`: an accepted editor result becomes a new preset at the end, and is selected. */
    method AddPreset(data: Option<EditorResult>, hex: string)
      requires Valid()
      modifies this
      ensures Valid()
      ensures data.None? ==> presetData == old(presetData) && row == old(row)
      ensures data.Some? ==>
        && presetData == old(presetData) + [JObj(ApplyLabelResult(NewEntryFields(NewPresetId(hex), data.value), data.value, currentLang))]
        && row == |presetData| - 1
    {
      if data.Some? {
        var entry := NewEntryFields(NewPresetId(hex), data.value);
        entry := ApplyLabelResult(entry, data.value, currentLang);
        presetData := presetData + [JObj(entry)];
        row := |presetData| - 1;
      }
    }

    /** `edit_selected_preset`: the selected preset takes the editor's result; the others are untouched. */
    method EditSelected(data: Option<EditorResult>)
      requires Valid()
      modifies this
      ensures Valid()
      ensures old(SelectedIndex()) == -1 || data.None? ==> presetData == old(presetData) && row == old(row)
      ensures old(SelectedIndex()) != -1 && data.Some? ==>
        && presetData == old(presetData)[old(SelectedIndex()) := EditedEntry(old(presetData)[old(SelectedIndex())], data.value, currentLang)]
        && row == old(SelectedIndex())
    {
      var index := SelectedIndex();
      if index == -1 || data.None? {
        return;
      }
      var preset := presetData[index];
      presetData := presetData[index := EditedEntry(preset, data.value, currentLang)];
      row := index;
    }

    /** `remove_selected_preset`: on confirmation exactly the selected preset is dropped; the list loses its selection. */
    method RemoveSelected(confirmed: bool)
      requires Valid()
      modifies this
      ensures Valid()
      ensures old(SelectedIndex()) == -1 || !confirmed ==> presetData == old(presetData) && row == old(row)
      ensures old(SelectedIndex()) != -1 && confirmed ==>
        && presetData == old(presetData)[..old(SelectedIndex())] + old(presetData)[old(SelectedIndex()) + 1..]
        && multiset(presetData) + multiset{old(presetData)[old(SelectedIndex())]} == multiset(old(presetData))
        && row == -1
    {
      var index := SelectedIndex();
      if index == -1 || !confirmed {
        return;
      }
      assert presetData == presetData[..index] + [presetData[index]] + presetData[index + 1..];
      presetData := presetData[..index] + presetData[index + 1..];
      row := -1;
    }

    /** `move_selected_preset`: the selected preset swaps with its neighbour at `offset`, and stays selected. */
    method MoveSelected(offset: int)
      requires Valid()
      modifies this
      ensures Valid()
      ensures var i := old(SelectedIndex());
        i == -1 || !(0 <= i + offset < |old(presetData)|) ==> presetData == old(presetData) && row == old(row)
      ensures var i := old(SelectedIndex());
        i != -1 && 0 <= i + offset < |old(presetData)| ==>
          presetData == Swapped(old(presetData), i, i + offset) && row == i + offset
    {
      var index := SelectedIndex();
      if index == -1 {
        return;
      }
      var newIndex := index + offset;
      if !(0 <= newIndex < |presetData|) {
        return;
      }
      presetData := Swapped(presetData, index, newIndex);
      row := newIndex;
    }

    /** `reset_presets`: on confirmation the built-in presets replace the list. */
    method ResetPresets(confirmed: bool)
      requires Valid()
      modifies this
      ensures Valid()
      ensures !confirmed ==> presetData == old(presetData) && row == old(row)
      ensures confirmed ==> presetData == Constants.DefaultCountdownPresets() && row == -1
    {
      if !confirmed {
        return;
      }
      presetData := Constants.DefaultCountdownPresets();
      row := -1;
    }

    /**
     * `_serialize_presets`: one serialised entry per preset, the built-in
     * presets for an empty list; None when an `int()` raises.
     */
    method SerializePresets(newHex: nat -> string) returns (r: Option<seq<Json>>)
      ensures r.None? <==> exists k :: 0 <= k < |presetData| && DialogHms(presetData[k]).None?
      ensures r.Some? ==> SerializedAs(presetData, currentLang, newHex, r.value)
    {
      var serialized: seq<Json> := [];
      var i := 0;
      while i < |presetData|
        invariant 0 <= i <= |presetData|
        invariant |serialized| == i
        invariant SerializedPrefix(presetData, currentLang, newHex, serialized)
      {
        var entry := SerializeOne(presetData[i], currentLang, NewPresetId(newHex(i)));
        if entry.None? {
          return None;
        }
        SerializedSnoc(presetData, currentLang, newHex, serialized, entry.value);
        serialized := serialized + [entry.value];
        i := i + 1;
      }
      if serialized == [] {
        serialized := Constants.DefaultCountdownPresets();
      }
      r := Some(serialized);
    }

    /**
     * `apply_settings`, with the chosen action's key stored beside its text:
     * it raises (None) when a preset's duration does not convert or the
     * stored shortcuts are not a dict, and otherwise writes the form, the
     * serialised presets and the saved shortcuts.
     */
    method ApplySettings(s: Settings, form: DialogSettings.DialogForm, edits: seq<(string, string)>, newHex: nat -> string)
      returns (r: Option<Settings>)
      ensures r.None? <==>
        (exists k :: 0 <= k < |presetData| && DialogHms(presetData[k]).None?) || DialogSettings.ShortcutsBase(s).None?
      ensures r.Some? ==> exists presets ::
        && SerializedAs(presetData, currentLang, newHex, presets)
        && r.value == DialogSettings.DialogWritesFixed(s, form, presets,
                        DialogSettings.ShortcutsSaved(DialogSettings.ShortcutsBase(s).value, edits))
    {
      var presets := SerializePresets(newHex);
      if presets.None? {
        return None;
      }
      var base := DialogSettings.ShortcutsBase(s);
      if base.None? {
        return None;
      }
      var saved := DialogSettings.SaveShortcuts(base.value, edits);
      r := Some(DialogSettings.DialogWritesFixed(s, form, presets.value, saved));
    }

    /**
     * `accept_settings`: a shortcut conflict keeps the dialog open and writes
     * nothing; otherwise the settings are applied.
     */
    method AcceptSettings(s: Settings, form: DialogSettings.DialogForm, edits: seq<(string, string)>, newHex: nat -> string)
      returns (r: AcceptOutcome)
      ensures r.Rejected? <==> !DialogSettings.NoClash(edits)
      ensures r.Rejected? ==> r.conflicts != []
      ensures r.AcceptRaised? <==>
        && DialogSettings.NoClash(edits)
        && ((exists k :: 0 <= k < |presetData| && DialogHms(presetData[k]).None?) || DialogSettings.ShortcutsBase(s).None?)
      ensures r.Accepted? ==> exists presets ::
        && SerializedAs(presetData, currentLang, newHex, presets)
        && r.settings == DialogSettings.DialogWritesFixed(s, form, presets,
                           DialogSettings.ShortcutsSaved(DialogSettings.ShortcutsBase(s).value, edits))
    {
      var ok, conflicts := DialogSettings.ValidateShortcuts(edits);
      if !ok {
        return Rejected(conflicts);
      }
      var applied := ApplySettings(s, form, edits, newHex);
      if applied.None? {
        return AcceptRaised;
      }
      r := Accepted(applied.value);
    }
  }

  /** How `accept_settings` ends. */
  datatype AcceptOutcome = Rejected(conflicts: seq<(string, string, string)>) | Accepted(settings: Settings) | AcceptRaised

  /**
   * `_serialize_presets`: one serialised entry per preset, in order, or the
   * built-in presets when the list is empty.
   */
  ghost predicate SerializedAs(items: seq<Json>, lang: string, newHex: nat -> string, out: seq<Json>)
  {
    (items != [] ==>
      |out| == |items| && forall k :: 0 <= k < |items| ==> SerializeEntry(items[k], lang, NewPresetId(newHex(k))) == Some(out[k]))
    && (items == [] ==> out == Constants.DefaultCountdownPresets())
  }

  /** The first `|out|` presets serialise, in order, to `out`. */
  ghost predicate SerializedPrefix(items: seq<Json>, lang: string, newHex: nat -> string, out: seq<Json>)
  {
    |out| <= |items|
    && forall k :: 0 <= k < |out| ==> SerializeEntry(items[k], lang, NewPresetId(newHex(k))) == Some(out[k])
  }

  lemma SerializedSnoc(items: seq<Json>, lang: string, newHex: nat -> string, out: seq<Json>, e: Json)
    requires SerializedPrefix(items, lang, newHex, out) && |out| < |items|
    requires SerializeEntry(items[|out|], lang, NewPresetId(newHex(|out|))) == Some(e)
    ensures SerializedPrefix(items, lang, newHex, out + [e])
  {
    var out' := out + [e];
    forall k | 0 <= k < |out'|
      ensures SerializeEntry(items[k], lang, NewPresetId(newHex(k))) == Some(out'[k])
    {
      if k < |out| {
        assert out'[k] == out[k];
      }
    }
  }

  /** The body of the serialisation loop for one preset. */
  method SerializeOne(preset: Json, lang: string, newId: string) returns (entry: Option<Json>)
    ensures entry == SerializeEntry(preset, lang, newId)
  {
    entry := SerializeEntry(preset, lang, newId);
  }

  /**
   * Opening the dialog on presets `ensure_presets_normalized` produced and
   * applying it unchanged: the snapshot is the list itself, and every entry
   * serialises to the same dict.
   */
  lemma DialogRoundTrip(items: seq<Json>, dicts: seq<Json>, lang: string, newHex: nat -> string)
    requires items != [] && |dicts| == |items|
    requires forall k :: 0 <= k < |items| ==> IdOk(items[k]) && items[k] == NormalizeEntry(dicts[k], PresetId(items[k]).value, lang)
    ensures SnapshotBase(Some(JList(items))) == items
    ensures forall k :: 0 <= k < |items| ==> SnapshotEntry(items[k], newHex(k)) == items[k]
    ensures forall k :: 0 <= k < |items| ==>
      SerializeEntry(items[k], lang, NewPresetId(newHex(k))).Some?
      && SameDict(SerializeEntry(items[k], lang, NewPresetId(newHex(k))).value, items[k])
  {
    forall k | 0 <= k < |items|
      ensures ValidPreset(items[k])
      ensures SerializeEntry(items[k], lang, NewPresetId(newHex(k))).Some?
      ensures SameDict(SerializeEntry(items[k], lang, NewPresetId(newHex(k))).value, items[k])
    {
      NormalizeEntryValid(dicts[k], PresetId(items[k]).value, lang);
      SerializeNormalized(dicts[k], PresetId(items[k]).value, lang, NewPresetId(newHex(k)));
    }
    SnapshotOfNormalized(items, newHex);
  }
}
