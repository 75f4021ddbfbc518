/*
 * The pure text helpers of the main window (module/timer_window.py):
 * Python's `int()` as `_clamp_int` uses it, the legacy-text classifiers
 * `derive_mode_key` / `derive_action_key`, preset label cleaning and
 * resolution, the duration and clock formats, and `hex_to_rgb`.
 */
module SettingsText {
  import opened PyJson

  // ---------------------------------------------------------------------
  // Decimal and hexadecimal digits
  // ---------------------------------------------------------------------

  predicate IsDigit(c: char) { '0' <= c <= '9' }

  predicate AllDigits(s: string) { forall i :: 0 <= i < |s| ==> IsDigit(s[i]) }

  function DigitValue(c: char): nat
    requires IsDigit(c)
  {
    c as int - '0' as int
  }

  function DigitChar(d: nat): (c: char)
    requires d < 10
    ensures IsDigit(c) && DigitValue(c) == d
  {
    ('0' as int + d) as char
  }

  /** The value of a run of decimal digits, most significant first. */
  function DigitsValue(s: string): nat
    requires AllDigits(s)
  {
    if |s| == 0 then 0 else DigitsValue(s[..|s| - 1]) * 10 + DigitValue(s[|s| - 1])
  }

  /** `str(n)` for a non-negative integer. */
  function DecimalString(n: nat): (r: string)
    ensures |r| >= 1 && AllDigits(r)
  {
    if n < 10 then [DigitChar(n)] else DecimalString(n / 10) + [DigitChar(n % 10)]
  }

  /** Reading a printed number back gives the number. */
  lemma {:induction false} DecimalRoundTrip(n: nat)
    ensures DigitsValue(DecimalString(n)) == n
    ensures |DecimalString(n)| == 1 || DecimalString(n)[0] != '0'
  {
    if n >= 10 {
      DecimalRoundTrip(n / 10);
      var r := DecimalString(n);
      assert r[..|r| - 1] == DecimalString(n / 10);
    }
  }

  /** A printed number below 100 has at most two digits. */
  lemma DecimalShort(n: nat)
    ensures n < 10 ==> |DecimalString(n)| == 1
    ensures 10 <= n < 100 ==> |DecimalString(n)| == 2
  {
  }

  /** `f"{n:02d}"` for a non-negative integer. */
  function Pad2(n: nat): (r: string)
    ensures |r| >= 2 && AllDigits(r)
    ensures n < 100 ==> |r| == 2
    ensures DigitsValue(r) == n
  {
    DecimalRoundTrip(n);
    DecimalShort(n);
    if n < 10 then
      var d := DecimalString(n);
      assert ("0" + d)[..1] == "0";
      "0" + d
    else DecimalString(n)
  }

  predicate IsHexDigit(c: char)
  {
    ('0' <= c <= '9') || ('a' <= c <= 'f') || ('A' <= c <= 'F')
  }

  function HexDigitValue(c: char): (v: nat)
    requires IsHexDigit(c)
    ensures v < 16
  {
    if '0' <= c <= '9' then c as int - '0' as int
    else if 'a' <= c <= 'f' then c as int - 'a' as int + 10
    else c as int - 'A' as int + 10
  }

  // ---------------------------------------------------------------------
  // Python int()
  // ---------------------------------------------------------------------

  /** Digit runs in base 10 or 16. */
  predicate AllDigitsIn(s: string, base16: bool)
  {
    forall i :: 0 <= i < |s| ==> if base16 then IsHexDigit(s[i]) else IsDigit(s[i])
  }

  function DigitsValueIn(s: string, base16: bool): nat
    requires AllDigitsIn(s, base16)
  {
    if |s| == 0 then 0
    else
      var c := s[|s| - 1];
      DigitsValueIn(s[..|s| - 1], base16) * (if base16 then 16 else 10)
        + (if base16 then HexDigitValue(c) else DigitValue(c))
  }

  /**
   * `int(text)` / `int(text, 16)` for a string: surrounding whitespace is
   * ignored, an optional sign, then at least one digit. `None` is the
   * ValueError Python raises.
   */
  function ParseIntText(text: string, base16: bool): (r: Option<int>)
    ensures r.Some? ==> NonBlank(text)
  {
    var t := Strip(text);
    var signed := |t| > 0 && (t[0] == '+' || t[0] == '-');
    var digits := if signed then t[1..] else t;
    if |digits| > 0 && AllDigitsIn(digits, base16) then
      var v: int := DigitsValueIn(digits, base16);
      Some(if signed && t[0] == '-' then -v else v)
    else None
  }

  /** A run of decimal digits has the same value for both digit readers. */
  lemma {:induction false} DigitsValueInDecimal(s: string)
    requires AllDigits(s)
    ensures AllDigitsIn(s, false) && DigitsValueIn(s, false) == DigitsValue(s)
  {
    if |s| > 0 {
      DigitsValueInDecimal(s[..|s| - 1]);
    }
  }

  /** `int(t)` of an unsigned digit run with nothing to strip is its value. */
  lemma ParseUnsigned(t: string, base16: bool)
    requires Strip(t) == t && |t| > 0 && t[0] != '+' && t[0] != '-' && AllDigitsIn(t, base16)
    ensures ParseIntText(t, base16) == Some(DigitsValueIn(t, base16))
  {
  }

  /** `int("-" + digits)` with nothing to strip is minus the digits' value. */
  lemma ParseNegative(t: string, base16: bool)
    requires Strip(t) == t && |t| > 1 && t[0] == '-' && AllDigitsIn(t[1..], base16)
    ensures ParseIntText(t, base16) == Some(-(DigitsValueIn(t[1..], base16) as int))
  {
  }

  /** `int(str(n))` is `n`. */
  lemma ParseIntReadsDecimal(n: nat)
    ensures ParseIntText(DecimalString(n), false) == Some(n)
  {
    var d := DecimalString(n);
    DecimalRoundTrip(n);
    DigitsValueInDecimal(d);
    assert IsDigit(d[0]) && IsDigit(d[|d| - 1]);
    NoSpaceUnstripped(d);
    ParseUnsigned(d, false);
  }

  /** `int("-" + str(n))` is `-n`. */
  lemma ParseIntReadsNegated(n: nat)
    ensures ParseIntText("-" + DecimalString(n), false) == Some(-(n as int))
  {
    var d := DecimalString(n);
    DecimalRoundTrip(n);
    DigitsValueInDecimal(d);
    var m := "-" + d;
    assert m[1..] == d && m[|m| - 1] == d[|d| - 1];
    assert IsDigit(d[|d| - 1]);
    NoSpaceUnstripped(m);
    ParseNegative(m, false);
  }

  /** Python truncates a float toward zero in `int(x)`. */
  function TruncReal(x: real): int
  {
    if x >= 0.0 then x.Floor else -((-x).Floor)
  }

  /** `int(value)` for a JSON value; `None` is the TypeError or ValueError. */
  function PyInt(v: Json): Option<int>
  {
    match v
    case JInt(i) => Some(i)
    case JBool(b) => Some(if b then 1 else 0)
    case JFloat(x) => Some(TruncReal(x))
    case JStr(s) => ParseIntText(s, false)
    case _ => None
  }

  /** `_clamp_int`: `int(value)` clamped into [lo, hi]; unconvertible values give `lo`. */
  function ClampInt(v: Json, lo: int, hi: int): (r: int)
    ensures lo <= hi ==> lo <= r <= hi
    ensures PyInt(v).None? ==> r == lo
    ensures PyInt(v).Some? && lo <= PyInt(v).value <= hi ==> r == PyInt(v).value
    ensures PyInt(v).Some? && PyInt(v).value > hi && lo <= hi ==> r == hi
    ensures PyInt(v).Some? && PyInt(v).value < lo ==> r == lo
    ensures lo > hi ==> r == lo
  {
    var iv := match PyInt(v) case Some(x) => x case None => lo;
    if iv > hi then (if lo > hi then lo else hi) else if iv < lo then lo else iv
  }

  /** Clamping an in-range integer changes nothing; clamping is idempotent. */
  lemma ClampIntStable(v: Json, lo: int, hi: int)
    requires lo <= hi
    ensures ClampInt(JInt(ClampInt(v, lo, hi)), lo, hi) == ClampInt(v, lo, hi)
  {
  }

  // ---------------------------------------------------------------------
  // Legacy text to keys
  // ---------------------------------------------------------------------

  const ModeKeys: seq<string> := ["countup", "countdown", "clock"]
  const ActionKeys: seq<string> := ["beep", "flash", "beep_flash"]

  predicate CountUpText(s: string)
  {
    Contains(Lower(s), "count up") || Contains(Lower(s), "正计时")
  }

  predicate ClockText(s: string)
  {
    Contains(Lower(s), "clock") || Contains(Lower(s), "时钟")
  }

  /** `derive_mode_key`: the mode key a (possibly localized) mode text names. */
  function DeriveModeKey(modeText: Json): (r: string)
    ensures r in ModeKeys
    ensures !modeText.JStr? ==> r == "countdown"
    ensures modeText.JStr? ==>
      (r == "countup" <==> CountUpText(modeText.s))
      && (r == "clock" <==> !CountUpText(modeText.s) && ClockText(modeText.s))
      && (r == "countdown" <==> !CountUpText(modeText.s) && !ClockText(modeText.s))
  {
    if !modeText.JStr? then "countdown"
    else if CountUpText(modeText.s) then "countup"
    else if ClockText(modeText.s) then "clock"
    else "countdown"
  }

  predicate HasBeepWord(s: string)
  {
    Contains(Lower(s), "beep") || Contains(Lower(s), "sound") || Contains(s, "提示音") || Contains(s, "铃声")
  }

  predicate HasFlashWord(s: string)
  {
    Contains(Lower(s), "flash") || Contains(s, "闪烁")
  }

  /** The keyword classification that `derive_action_key` applies to free text. */
  function ClassifyAction(s: string): string
  {
    if HasBeepWord(s) && HasFlashWord(s) then "beep_flash"
    else if HasFlashWord(s) then "flash"
    else "beep"
  }

  /** `derive_action_key`: the finish-action key a (possibly localized) action text names. */
  function DeriveActionKey(actionText: Json): (r: string)
    ensures r in ActionKeys
    ensures !actionText.JStr? ==> r == "beep"
    ensures actionText.JStr? && actionText.s in ActionKeys ==> r == actionText.s
    ensures actionText.JStr? && actionText.s !in ActionKeys ==>
      (r == "beep_flash" <==> HasBeepWord(actionText.s) && HasFlashWord(actionText.s))
      && (r == "flash" <==> !HasBeepWord(actionText.s) && HasFlashWord(actionText.s))
  {
    if !actionText.JStr? then "beep"
    else if actionText.s in ActionKeys then actionText.s
    else ClassifyAction(actionText.s)
  }

  /** Deriving from a derived key gives the same key. */
  lemma DeriveActionKeyIdempotent(v: Json)
    ensures DeriveActionKey(JStr(DeriveActionKey(v))) == DeriveActionKey(v)
  {
  }

  // ---------------------------------------------------------------------
  // Preset labels
  // ---------------------------------------------------------------------

  /** A label map whose values are non-blank and already stripped. */
  predicate CleanLabelMap(l: seq<(string, string)>)
  {
    DistinctKeys(l) && forall x :: x in l ==> x.1 != [] && Strip(x.1) == x.1
  }

  /** What `_clean_labels` keeps of one raw entry: a stripped, non-blank string. */
  function CleanText(v: Option<Json>): Option<string>
  {
    if v.Some? && v.value.JStr? && NonBlank(v.value.s) then Some(Strip(v.value.s)) else None
  }

  /** `labels[k] = v` for a clean value keeps the map clean. */
  lemma PutClean(acc: seq<(string, string)>, k: string, v: string)
    requires CleanLabelMap(acc) && v != [] && Strip(v) == v
    ensures CleanLabelMap(Put(acc, k, v))
  {
    PutDistinct(acc, k, v);
    PutElements(acc, k, v);
  }

  function CleanInto(acc: seq<(string, string)>, raw: seq<(string, Json)>): (r: seq<(string, string)>)
    requires CleanLabelMap(acc)
    ensures CleanLabelMap(r)
    decreases |raw|
  {
    if |raw| == 0 then acc
    else
      var k := raw[0].0;
      var v := raw[0].1;
      if v.JStr? && NonBlank(v.s) then
        var t := Strip(v.s);
        StripIdempotent(v.s);
        PutClean(acc, k, t);
        CleanInto(Put(acc, k, t), raw[1..])
      else CleanInto(acc, raw[1..])
  }

  /** `_clean_labels`: only string-keyed, non-blank string entries survive, stripped. */
  function CleanLabels(raw: Option<Json>): (r: seq<(string, string)>)
    ensures CleanLabelMap(r)
    ensures raw.None? || !raw.value.JObj? ==> r == []
  {
    if raw.Some? && raw.value.JObj? then CleanInto([], raw.value.fields) else []
  }

  /** With distinct raw keys, each cleaned entry is exactly the raw entry stripped. */
  /** The rest of a dict's entries avoid the keys so far, together with the first entry's key. */
  lemma TailFresh(raw: seq<(string, Json)>, ks: set<string>, ks': set<string>)
    requires |raw| > 0
    requires forall i :: 0 <= i < |raw| ==> raw[i].0 !in ks
    requires DistinctKeys(raw) && ks' <= ks + {raw[0].0}
    ensures forall i :: 0 <= i < |raw[1..]| ==> raw[1..][i].0 !in ks'
  {
    forall i | 0 <= i < |raw[1..]| ensures raw[1..][i].0 !in ks' {
      assert raw[1..][i] == raw[i + 1];
    }
  }

  lemma {:induction false} CleanIntoLookup(acc: seq<(string, string)>, raw: seq<(string, Json)>, k: string)
    requires CleanLabelMap(acc) && DistinctKeys(raw)
    requires forall i :: 0 <= i < |raw| ==> raw[i].0 !in KeySet(acc)
    ensures Get(CleanInto(acc, raw), k) == if k in KeySet(acc) then Get(acc, k) else CleanText(Get(raw, k))
    decreases |raw|
  {
    if |raw| > 0 {
      var k0 := raw[0].0;
      var v := raw[0].1;
      DistinctHead(raw);
      GetCons(raw[0], raw[1..], k);
      assert raw == [raw[0]] + raw[1..];
      assert k0 !in KeySet(acc);
      if v.JStr? && NonBlank(v.s) {
        var t := Strip(v.s);
        StripIdempotent(v.s);
        PutClean(acc, k0, t);
        var acc' := Put(acc, k0, t);
        assert CleanInto(acc, raw) == CleanInto(acc', raw[1..]);
        TailFresh(raw, KeySet(acc), KeySet(acc'));
        CleanIntoLookup(acc', raw[1..], k);
      } else {
        assert CleanInto(acc, raw) == CleanInto(acc, raw[1..]);
        TailFresh(raw, KeySet(acc), KeySet(acc));
        CleanIntoLookup(acc, raw[1..], k);
        if k == k0 {
          assert Get(raw[1..], k) == None;
        }
      }
    }
  }

  /** `_clean_labels` read back key by key. */
  lemma CleanLabelsLookup(fields: seq<(string, Json)>, k: string)
    requires DistinctKeys(fields)
    ensures Get(CleanLabels(Some(JObj(fields))), k) == CleanText(Get(fields, k))
  {
    CleanIntoLookup([], fields, k);
  }

  /** A clean label map as the entries of a JSON object. */
  function LabelFields(l: seq<(string, string)>): (r: seq<(string, Json)>)
    ensures |r| == |l|
  {
    if |l| == 0 then [] else [(l[0].0, JStr(l[0].1))] + LabelFields(l[1..])
  }

  /** The label map as the JSON object stored in a preset. */
  function LabelsJson(l: seq<(string, string)>): Json
  {
    JObj(LabelFields(l))
  }

  /** Storing a clean label map and cleaning it again gives it back. */
  lemma CleanLabelsOfLabelsJson(l: seq<(string, string)>)
    requires CleanLabelMap(l)
    ensures CleanLabels(Some(LabelsJson(l))) == l
  {
    CleanIntoAppends([], l);
    assert [] + l == l;
  }

  lemma {:induction false} CleanIntoAppends(acc: seq<(string, string)>, l: seq<(string, string)>)
    requires CleanLabelMap(acc + l)
    ensures CleanLabelMap(acc)
    ensures CleanInto(acc, LabelFields(l)) == acc + l
    decreases |l|
  {
    assert forall x :: x in acc ==> x in acc + l;
    assert DistinctKeys(acc) by {
      forall i, j | 0 <= i < j < |acc| ensures acc[i].0 != acc[j].0 {
        assert (acc + l)[i] == acc[i] && (acc + l)[j] == acc[j];
      }
    }
    if |l| > 0 {
      var (k, v) := l[0];
      assert acc + [l[0]] + l[1..] == acc + l by {
        assert l == [l[0]] + l[1..];
      }
      assert (acc + l)[|acc|] == l[0];
      assert l[0] in acc + l;
      NonBlankStrip(v);
      forall i | 0 <= i < |acc| ensures acc[i].0 != k {
        assert (acc + l)[i] == acc[i];
      }
      NotInKeySet(acc, k);
      assert Put(acc, k, v) == acc + [l[0]];
      CleanIntoAppends(acc + [l[0]], l[1..]);
    }
  }

  /** The first label whose language part matches (`key.split('_')[0] == lang_short`). */
  function FirstWithPrefix(l: seq<(string, string)>, short: string): (r: Option<string>)
    ensures r.Some? ==> exists i :: 0 <= i < |l| && LanguagePrefix(l[i].0) == short && l[i].1 == r.value
                                 && forall j :: 0 <= j < i ==> LanguagePrefix(l[j].0) != short
    ensures r.None? ==> forall i :: 0 <= i < |l| ==> LanguagePrefix(l[i].0) != short
  {
    if |l| == 0 then None
    else if LanguagePrefix(l[0].0) == short then Some(l[0].1)
    else
      var r := FirstWithPrefix(l[1..], short);
      assert r.Some? ==> exists i :: 1 <= i < |l| && LanguagePrefix(l[i].0) == short && l[i].1 == r.value
                                     && forall j :: 0 <= j < i ==> LanguagePrefix(l[j].0) != short by {
        if r.Some? {
          var i :| 0 <= i < |l[1..]| && LanguagePrefix(l[1..][i].0) == short && l[1..][i].1 == r.value
                   && forall j :: 0 <= j < i ==> LanguagePrefix(l[1..][j].0) != short;
          assert l[i + 1] == l[1..][i];
          forall j | 0 <= j < i + 1 ensures LanguagePrefix(l[j].0) != short {
            if j > 0 { assert l[j] == l[1..][j - 1]; }
          }
        }
      }
      r
  }

  /** The cleaned `labels` of a preset. */
  function PresetLabels(preset: Json): seq<(string, string)>
  {
    CleanLabels(Field(preset, "labels"))
  }

  /** The cleaned legacy `label` of a preset. */
  function LegacyLabel(preset: Json): Option<string>
  {
    CleanText(Field(preset, "label"))
  }

  /** `_get_label_for_language`: exact language, then same language family, then any label, then `label`. */
  function LabelForLanguage(preset: Json, lang: string): (r: Option<string>)
    ensures r.Some? ==> r.value != [] && Strip(r.value) == r.value
    ensures r.None? <==> PresetLabels(preset) == [] && LegacyLabel(preset).None?
    ensures Get(PresetLabels(preset), lang).Some? ==> r == Get(PresetLabels(preset), lang)
    ensures PresetLabels(preset) != [] && Get(PresetLabels(preset), lang).None? ==>
      r == (if FirstWithPrefix(PresetLabels(preset), LanguagePrefix(lang)).Some?
            then FirstWithPrefix(PresetLabels(preset), LanguagePrefix(lang))
            else Some(PresetLabels(preset)[0].1))
    ensures PresetLabels(preset) == [] ==> r == LegacyLabel(preset)
  {
    var labels := PresetLabels(preset);
    if labels != [] then
      LabelValuesClean(labels, lang);
      if Get(labels, lang).Some? then Get(labels, lang)
      else if FirstWithPrefix(labels, LanguagePrefix(lang)).Some? then FirstWithPrefix(labels, LanguagePrefix(lang))
      else
        assert labels[0] in labels;
        Some(labels[0].1)
    else
      var t := LegacyLabel(preset);
      assert t.Some? ==> Strip(t.value) == t.value by {
        if t.Some? {
          StripIdempotent(Field(preset, "label").value.s);
        }
      }
      t
  }

  /** A found lookup comes from an entry with that key. */
  lemma {:induction false} GetWitness(l: seq<(string, string)>, k: string)
    requires Get(l, k).Some?
    ensures exists i :: 0 <= i < |l| && l[i].0 == k && l[i].1 == Get(l, k).value
  {
    if l[0].0 != k {
      GetWitness(l[1..], k);
      var i :| 0 <= i < |l[1..]| && l[1..][i].0 == k && l[1..][i].1 == Get(l[1..], k).value;
      assert l[i + 1] == l[1..][i];
    }
  }

  /**
   * Which label `_get_label_for_language` picks when a preset has labels:
   * the entry for the language itself; failing that, the earliest entry of
   * the same language family; failing that, the first entry.
   */
  lemma LabelForLanguageChosen(preset: Json, lang: string)
    requires PresetLabels(preset) != []
    ensures var l := PresetLabels(preset);
      var r := LabelForLanguage(preset, lang);
      r.Some? &&
      (exists i :: 0 <= i < |l| && r.value == l[i].1 &&
         (l[i].0 == lang
          || ((forall j :: 0 <= j < |l| ==> l[j].0 != lang)
              && LanguagePrefix(l[i].0) == LanguagePrefix(lang)
              && (forall j :: 0 <= j < i ==> LanguagePrefix(l[j].0) != LanguagePrefix(lang)))
          || (i == 0 && forall j :: 0 <= j < |l| ==> LanguagePrefix(l[j].0) != LanguagePrefix(lang))))
  {
    var l := PresetLabels(preset);
    if Get(l, lang).Some? {
      GetWitness(l, lang);
    } else {
      forall j | 0 <= j < |l| ensures l[j].0 != lang {
        if l[j].0 == lang {
          assert l[j] in l;
          InKeySet(l, l[j]);
        }
      }
    }
  }

  /** Every label a lookup can return is clean. */
  lemma LabelValuesClean(labels: seq<(string, string)>, lang: string)
    requires CleanLabelMap(labels)
    ensures Get(labels, lang).Some? ==> Get(labels, lang).value != [] && Strip(Get(labels, lang).value) == Get(labels, lang).value
    ensures FirstWithPrefix(labels, LanguagePrefix(lang)).Some? ==>
      FirstWithPrefix(labels, LanguagePrefix(lang)).value != []
      && Strip(FirstWithPrefix(labels, LanguagePrefix(lang)).value) == FirstWithPrefix(labels, LanguagePrefix(lang)).value
  {
    if Get(labels, lang).Some? {
      GetIsValue(labels, lang);
    }
    var f := FirstWithPrefix(labels, LanguagePrefix(lang));
    if f.Some? {
      var i :| 0 <= i < |labels| && LanguagePrefix(labels[i].0) == LanguagePrefix(lang) && labels[i].1 == f.value;
      assert labels[i] in labels;
    }
  }

  lemma {:induction false} GetIsValue<V>(a: seq<(string, V)>, k: string)
    requires Get(a, k).Some?
    ensures exists i :: 0 <= i < |a| && a[i] == (k, Get(a, k).value)
  {
    if a[0].0 != k {
      GetIsValue(a[1..], k);
      var i :| 0 <= i < |a[1..]| && a[1..][i] == (k, Get(a[1..], k).value);
      assert a[i + 1] == a[1..][i];
    }
  }

  // ---------------------------------------------------------------------
  // Durations
  // ---------------------------------------------------------------------

  /** The clamped (hours, minutes, seconds) of a preset, as both formatters read them. */
  function PresetHms(preset: Json): (r: (int, int, int))
    ensures 0 <= r.0 <= 99 && 0 <= r.1 <= 59 && 0 <= r.2 <= 59
  {
    (ClampInt(GetField(preset, "hours"), 0, 99),
     ClampInt(GetField(preset, "minutes"), 0, 59),
     ClampInt(GetField(preset, "seconds"), 0, 59))
  }

  /** `preset.get(k, 0)`. */
  function GetField(preset: Json, k: string): Json
  {
    match Field(preset, k) case Some(v) => v case None => JInt(0)
  }

  /** `_format_preset_duration`: zero-padded HH:MM:SS of the clamped fields. */
  function FormatPresetDuration(preset: Json): (r: string)
    ensures |r| == 8 && r[2] == ':' && r[5] == ':'
    ensures AllDigits(r[..2]) && AllDigits(r[3..5]) && AllDigits(r[6..])
    ensures DigitsValue(r[..2]) == PresetHms(preset).0
    ensures DigitsValue(r[3..5]) == PresetHms(preset).1
    ensures DigitsValue(r[6..]) == PresetHms(preset).2
  {
    var (h, m, s) := PresetHms(preset);
    var a, b, c := Pad2(h), Pad2(m), Pad2(s);
    assert |a| == 2 && |b| == 2 && |c| == 2;
    var r := a + ":" + b + ":" + c;
    assert r[..2] == a;
    assert r[3..5] == b;
    assert r[6..] == c;
    r
  }

  /** `f"{value}{unit}"` (Chinese) or `f"{value} {unit}"` for a positive component. */
  function DurationPart(value: nat, unit: string, zh: bool): (r: string)
    ensures r != [] && StartsWith(r, DecimalString(value))
  {
    DecimalString(value) + (if zh then "" else " ") + unit
  }

  /** The parts of the duration text: one per positive component, in h, m, s order. */
  function DurationParts(h: int, m: int, s: int, zh: bool, tr: string -> string): (r: seq<string>)
    ensures |r| == (if h > 0 then 1 else 0) + (if m > 0 then 1 else 0) + (if s > 0 then 1 else 0)
    ensures forall x :: x in r ==> x != []
    ensures h > 0 ==> r[0] == DurationPart(h, tr("hours"), zh)
    ensures h <= 0 && m > 0 ==> r[0] == DurationPart(m, tr("minutes"), zh)
    ensures h <= 0 && m <= 0 && s > 0 ==> r[0] == DurationPart(s, tr("seconds"), zh)
  {
    (if h > 0 then [DurationPart(h, tr("hours"), zh)] else [])
    + (if m > 0 then [DurationPart(m, tr("minutes"), zh)] else [])
    + (if s > 0 then [DurationPart(s, tr("seconds"), zh)] else [])
  }

  /**
   * `_format_duration_text`: the positive components with their translated
   * units, joined without a separator for Chinese and with spaces otherwise;
   * all zero gives "0" and the seconds unit.
   */
  function FormatDurationText(h: int, m: int, s: int, lang: string, tr: string -> string): (r: string)
    ensures h <= 0 && m <= 0 && s <= 0 ==>
      r == "0" + (if StartsWith(lang, "zh") then "" else " ") + tr("seconds")
    ensures h > 0 && m <= 0 && s <= 0 ==>
      r == DecimalString(h) + (if StartsWith(lang, "zh") then "" else " ") + tr("hours")
    ensures h > 0 ==> StartsWith(r, DecimalString(h))
    ensures r != []
  {
    var zh := StartsWith(lang, "zh");
    var parts := DurationParts(h, m, s, zh, tr);
    if parts == [] then "0" + (if zh then "" else " ") + tr("seconds")
    else
      assert parts[0] in parts;
      JoinStarts(parts, if zh then "" else " ");
      Join(parts, if zh then "" else " ")
  }

  /** A component's piece of the text: empty when the component is not positive. */
  function Piece(value: int, unit: string, zh: bool): (r: string)
    ensures value <= 0 <==> r == []
  {
    if value > 0 then DurationPart(value, unit, zh) else []
  }

  /**
   * The duration text spelt out without lists: the pieces of the positive
   * components in h, m, s order, with the separator ("" for Chinese, " "
   * otherwise) exactly between two present pieces.
   */
  lemma DurationTextSpeltOut(h: int, m: int, s: int, lang: string, tr: string -> string)
    requires h > 0 || m > 0 || s > 0
    ensures var zh := StartsWith(lang, "zh");
      var sep := if zh then "" else " ";
      FormatDurationText(h, m, s, lang, tr)
        == Piece(h, tr("hours"), zh) + (if h > 0 && (m > 0 || s > 0) then sep else "")
           + Piece(m, tr("minutes"), zh) + (if m > 0 && s > 0 then sep else "")
           + Piece(s, tr("seconds"), zh)
  {
    var zh := StartsWith(lang, "zh");
    var sep := if zh then "" else " ";
    var a, b, c := Piece(h, tr("hours"), zh), Piece(m, tr("minutes"), zh), Piece(s, tr("seconds"), zh);
    assert DurationParts(h, m, s, zh, tr) == Present(a) + Present(b) + Present(c);
    JoinPresent(a, b, c, sep);
  }

  /** The one-element list of a non-empty text, or nothing. */
  function Present(x: string): (r: seq<string>)
    ensures x == [] <==> r == []
  {
    if x == [] then [] else [x]
  }

  /** Joining the non-empty texts of three puts the separator exactly between two present ones. */
  lemma JoinPresent(a: string, b: string, c: string, sep: string)
    ensures Join(Present(a) + Present(b) + Present(c), sep)
      == a + (if a != [] && (b != [] || c != []) then sep else "") + b + (if b != [] && c != [] then sep else "") + c
  {
    var x := if a != [] && (b != [] || c != []) then sep else "";
    var y := if b != [] && c != [] then sep else "";
    JoinPresentTwo(b, c, sep);
    JoinPresentHead(a, Present(b) + Present(c), sep);
    assert Present(a) + Present(b) + Present(c) == Present(a) + (Present(b) + Present(c));
    if a == [] {
      assert a + x == [];
    } else if b == [] && c == [] {
      assert a + x + b + y + c == a;
    } else {
      Associative(a + sep, b + y, c);
      Associative(a + sep, b, y);
    }
  }

  lemma Associative(x: string, y: string, z: string)
    ensures x + (y + z) == x + y + z
  {
  }

  /** Joining a present first text in front of the rest. */
  lemma JoinPresentHead(a: string, rest: seq<string>, sep: string)
    ensures Join(Present(a) + rest, sep)
      == if a == [] then Join(rest, sep) else if rest == [] then a else a + sep + Join(rest, sep)
  {
    if a == [] {
      assert Present(a) + rest == rest;
    } else if rest == [] {
      assert Present(a) + rest == [a];
    } else {
      var parts := Present(a) + rest;
      assert parts == [a] + rest && parts[1..] == rest;
    }
  }

  /** Joining the non-empty texts of two puts the separator between them only when both are present. */
  lemma JoinPresentTwo(b: string, c: string, sep: string)
    ensures Join(Present(b) + Present(c), sep) == b + (if b != [] && c != [] then sep else "") + c
  {
    if b != [] && c != [] {
      assert Present(b) + Present(c) == [b, c];
      JoinTwo(b, c, sep);
    } else if b != [] {
      assert Present(b) + Present(c) == [b];
    } else if c != [] {
      assert Present(b) + Present(c) == [c];
    } else {
      assert Present(b) + Present(c) == [];
    }
  }

  lemma JoinTwo(x: string, y: string, sep: string)
    ensures Join([x, y], sep) == x + sep + y
  {
    assert [x, y][1..] == [y];
  }

  lemma JoinThree(x: string, y: string, z: string, sep: string)
    ensures Join([x, y, z], sep) == x + sep + y + sep + z
  {
    assert [x, y, z][1..] == [y, z];
    JoinTwo(y, z, sep);
  }

  /** Chinese text has no separator: the positive pieces are simply concatenated. */
  lemma ChineseDurationConcatenates(h: int, m: int, s: int, lang: string, tr: string -> string)
    requires StartsWith(lang, "zh") && (h > 0 || m > 0 || s > 0)
    ensures FormatDurationText(h, m, s, lang, tr) == Piece(h, tr("hours"), true) + Piece(m, tr("minutes"), true) + Piece(s, tr("seconds"), true)
  {
    DurationTextSpeltOut(h, m, s, lang, tr);
  }

  /** A join starts with its first part. */
  lemma JoinStarts(parts: seq<string>, sep: string)
    requires |parts| > 0
    ensures StartsWith(Join(parts, sep), parts[0])
  {
    if |parts| > 1 {
      assert Join(parts, sep) == parts[0] + (sep + Join(parts[1..], sep));
    }
  }

  /** The window's text for a preset without a usable label. */
  function PresetDurationText(preset: Json, lang: string, tr: string -> string): (r: string)
    ensures r != []
  {
    var (h, m, s) := PresetHms(preset);
    FormatDurationText(h, m, s, lang, tr)
  }

  /**
   * `_resolve_preset_label` of the main window: a label for the language,
   * else the translated name key when a translation exists, else the duration.
   */
  function ResolvePresetLabel(preset: Json, lang: string, tr: string -> string): (r: string)
    ensures r != []
    ensures LabelForLanguage(preset, lang).Some? ==> r == LabelForLanguage(preset, lang).value
    ensures LabelForLanguage(preset, lang).None? && HasTranslatedName(preset, tr) ==> r == tr(Field(preset, "name_key").value.s)
    ensures LabelForLanguage(preset, lang).None? && !HasTranslatedName(preset, tr) ==> r == PresetDurationText(preset, lang, tr)
  {
    match LabelForLanguage(preset, lang)
    case Some(l) => l
    case None =>
      if HasTranslatedName(preset, tr) then tr(Field(preset, "name_key").value.s)
      else PresetDurationText(preset, lang, tr)
  }

  /** `name_key` is a non-empty string whose translation is non-empty and differs from it. */
  predicate HasTranslatedName(preset: Json, tr: string -> string)
  {
    var nk := Field(preset, "name_key");
    nk.Some? && nk.value.JStr? && nk.value.s != [] && tr(nk.value.s) != [] && tr(nk.value.s) != nk.value.s
  }

  /** The three fields of `a:bb:cc` read back by position from the end. */
  lemma ColonFields(a: string, b: string, c: string)
    requires |b| == 2 && |c| == 2
    ensures var r := a + ":" + b + ":" + c;
      |r| == |a| + 6 && r[|r| - 3] == ':' && r[|r| - 6] == ':'
      && r[..|r| - 6] == a && r[|r| - 5..|r| - 3] == b && r[|r| - 2..] == c
  {
  }

  /**
   * `r` has the shape `H..H:MM:SS` (at least two hour digits) and its three digit
   * fields, read as hours, minutes and seconds, give `total` seconds.
   */
  predicate ReadsBackAs(r: string, total: int)
  {
    |r| >= 8 && r[|r| - 3] == ':' && r[|r| - 6] == ':'
    && AllDigits(r[..|r| - 6]) && AllDigits(r[|r| - 5..|r| - 3]) && AllDigits(r[|r| - 2..])
    && DigitsValue(r[..|r| - 6]) * 3600 + DigitsValue(r[|r| - 5..|r| - 3]) * 60 + DigitsValue(r[|r| - 2..]) == total
  }

  /** Three digit fields joined by colons read back as hours, minutes and seconds. */
  lemma ColonFieldsValue(hh: string, mm: string, ss: string)
    requires |hh| >= 2 && |mm| == 2 && |ss| == 2 && AllDigits(hh) && AllDigits(mm) && AllDigits(ss)
    ensures ReadsBackAs(hh + ":" + mm + ":" + ss, DigitsValue(hh) * 3600 + DigitsValue(mm) * 60 + DigitsValue(ss))
  {
    ColonFields(hh, mm, ss);
  }

  /**
   * The timer display `f'{h:02d}:{m:02d}:{s:02d}'` of `abs(elapsed)`:
   * hours are unbounded, minutes and seconds two digits each.
   */
  function FormatHms(elapsed: int): string
  {
    var a := if elapsed < 0 then -elapsed else elapsed;
    Pad2(a / 3600) + ":" + Pad2((a % 3600) / 60) + ":" + Pad2(a % 60)
  }

  /** The display reads back: its three digit fields give `abs(elapsed)` as seconds. */
  lemma FormatHmsReadsBack(elapsed: int)
    ensures ReadsBackAs(FormatHms(elapsed), if elapsed < 0 then -elapsed else elapsed)
  {
    var a := if elapsed < 0 then -elapsed else elapsed;
    var h, m, s := a / 3600, (a % 3600) / 60, a % 60;
    HmsSplit(a);
    var hh, mm, ss := Pad2(h), Pad2(m), Pad2(s);
    ColonFieldsValue(hh, mm, ss);
  }

  /** Hours, minutes and seconds recombine to the total. */
  lemma HmsSplit(a: nat)
    ensures (a / 3600) * 3600 + ((a % 3600) / 60) * 60 + a % 60 == a
  {
    var h, r := a / 3600, a % 3600;
    var m, s := r / 60, r % 60;
    assert a == h * 3600 + r && 0 <= r < 3600;
    assert r == m * 60 + s && 0 <= s < 60;
    RemainderOf60(a, h * 60 + m, s);
  }

  /** A remainder below 60 is the remainder modulo 60. */
  lemma RemainderOf60(n: int, q: int, s: int)
    requires 0 <= s < 60 && n == q * 60 + s
    ensures n % 60 == s
  {
  }

  // ---------------------------------------------------------------------
  // Colours
  // ---------------------------------------------------------------------

  /** Python slicing `s[i:j]`, which clamps the bounds. */
  function Slice(s: string, i: nat, j: nat): string
  {
    if i >= |s| then [] else if j >= |s| then s[i..] else if i <= j then s[i..j] else []
  }

  /** `s.lstrip('#')`. */
  function LStripHash(s: string): (r: string)
    ensures r == [] || r[0] != '#'
    ensures |r| <= |s| && r == s[|s| - |r|..]
  {
    if |s| > 0 && s[0] == '#' then LStripHash(s[1..]) else s
  }

  /** `hex_to_rgb`: three `int(..., 16)` conversions; `None` is the ValueError. */
  function HexToRgb(color: string): (r: Option<(int, int, int)>)
  {
    var h := LStripHash(color);
    var r := ParseIntText(Slice(h, 0, 2), true);
    var g := ParseIntText(Slice(h, 2, 4), true);
    var b := ParseIntText(Slice(h, 4, 6), true);
    if r.Some? && g.Some? && b.Some? then Some((r.value, g.value, b.value)) else None
  }

  /** Two lower-case hex digits for a byte (`f"{v:02x}"`). */
  function Hex2(v: nat): (r: string)
    requires v < 256
    ensures |r| == 2 && IsHexDigit(r[0]) && IsHexDigit(r[1])
  {
    [HexChar(v / 16), HexChar(v % 16)]
  }

  /** `f'{n}'` for an integer. */
  function IntText(n: int): (r: string)
    ensures n >= 0 ==> r == DecimalString(n)
    ensures n < 0 ==> r == "-" + DecimalString(-n)
    ensures forall c :: c in r ==> c == '-' || '0' <= c <= '9'
  {
    if n < 0 then "-" + DecimalString(-n) else DecimalString(n)
  }

  /** The lower-case hex digits of `n` (`f"{n:x}"`). */
  function HexString(n: nat): (r: string)
    ensures |r| >= 1 && forall c :: c in r ==> IsHexDigit(c)
  {
    if n < 16 then [HexChar(n)] else HexString(n / 16) + [HexChar(n % 16)]
  }

  /** `f"{v:02x}"`: at least two characters, the sign counting towards the width. */
  function Hex02(v: int): (r: string)
    ensures |r| >= 2
    ensures forall c :: c in r ==> c == '-' || IsHexDigit(c)
  {
    if v < 0 then "-" + HexString(-v) else if v < 16 then "0" + HexString(v) else HexString(v)
  }

  /** A byte's `f"{v:02x}"` is its two hex digits. */
  lemma Hex02OfByte(v: nat)
    requires v < 256
    ensures Hex02(v) == Hex2(v)
  {
    if v >= 16 {
      assert HexString(v / 16) == [HexChar(v / 16)];
    }
  }

  function HexChar(d: nat): (c: char)
    requires d < 16
    ensures IsHexDigit(c) && HexDigitValue(c) == d
  {
    if d < 10 then ('0' as int + d) as char else ('a' as int + d - 10) as char
  }

  /** A byte written as two hex digits parses back. */
  lemma Hex2Parses(v: nat)
    requires v < 256
    ensures ParseIntText(Hex2(v), true) == Some(v)
  {
    var s := Hex2(v);
    assert !IsSpace(s[0]) && !IsSpace(s[1]);
    assert TrimLeft(s) == s;
    assert TrimRight(s) == s;
    assert Strip(s) == s;
    assert AllDigitsIn(s, true);
    assert s[..1][..0] == [];
    assert DigitsValueIn(s[..1], true) == HexDigitValue(s[0]);
    assert DigitsValueIn(s, true) == HexDigitValue(s[0]) * 16 + HexDigitValue(s[1]);
  }

  /** `#rrggbb` colours read back to their components. */
  lemma HexToRgbRoundTrip(r: nat, g: nat, b: nat)
    requires r < 256 && g < 256 && b < 256
    ensures HexToRgb("#" + Hex2(r) + Hex2(g) + Hex2(b)) == Some((r, g, b))
  {
    var h := Hex2(r) + Hex2(g) + Hex2(b);
    assert "#" + Hex2(r) + Hex2(g) + Hex2(b) == "#" + h;
    assert ("#" + h)[1..] == h;
    assert h[0] != '#';
    assert LStripHash(h) == h;
    assert LStripHash("#" + h) == h;
    assert h[0..2] == Hex2(r);
    assert h[2..4] == Hex2(g);
    assert h[4..] == Hex2(b);
    Hex2Parses(r);
    Hex2Parses(g);
    Hex2Parses(b);
  }

  /** The colour check of the settings validator: `#` and seven characters. */
  predicate ColourShaped(v: Json)
  {
    v.JStr? && StartsWith(v.s, "#") && |v.s| == 7
  }

  /** The check does not look at the digits: "#" and six characters pass it, and `hex_to_rgb`
      rejects them when the first pair is not hexadecimal (for instance "#GGGGGG"). */
  lemma ColourCheckAdmitsNonHex(c: string)
    requires |c| == 7 && c[0] == '#'
    requires 'G' <= c[1] <= 'Z' && 'G' <= c[2] <= 'Z'
    ensures ColourShaped(JStr(c))
    ensures HexToRgb(c) == None
  {
    assert c[..1] == "#";
    HashStripped(c);
    assert Slice(c[1..], 0, 2) == c[1..3];
    PairNotHex(c[1..3]);
  }

  /** One leading `#` is stripped when the next character is not another. */
  lemma HashStripped(c: string)
    requires |c| >= 2 && c[0] == '#' && c[1] != '#'
    ensures LStripHash(c) == c[1..]
  {
    assert LStripHash(c[1..]) == c[1..];
  }

  /** Two letters past `F` are not a base-16 number. */
  lemma PairNotHex(t: string)
    requires |t| == 2 && 'G' <= t[0] <= 'Z' && 'G' <= t[1] <= 'Z'
    ensures ParseIntText(t, true) == None
  {
    NoSpaceUnstripped(t);
    assert !IsHexDigit(t[0]);
  }

  /** Text that neither starts nor ends with whitespace is its own `strip()`. */
  lemma NoSpaceUnstripped(t: string)
    requires |t| > 0 && !IsSpace(t[0]) && !IsSpace(t[|t| - 1])
    ensures Strip(t) == t
  {
    assert TrimLeft(t) == t;
  }

  // ---------------------------------------------------------------------
  // Clock mode
  // ---------------------------------------------------------------------

  /** The AM/PM marker: `PM`/`AM` for style `en`, 下午/上午 otherwise. */
  function AmPmIndicator(hour: int, style: Json): (r: string)
    ensures style == JStr("en") ==> (r == "PM" <==> hour >= 12) && (r == "AM" <==> hour < 12)
    ensures style != JStr("en") ==> (r == "下午" <==> hour >= 12) && (r == "上午" <==> hour < 12)
  {
    var pm := hour >= 12;
    if style == JStr("en") then (if pm then "PM" else "AM") else (if pm then "下午" else "上午")
  }

  /** The marker goes before the time for position `before`, after it otherwise. */
  function WithIndicator(indicator: string, time: string, position: Json): (r: string)
    ensures position == JStr("before") ==> r == indicator + " " + time
    ensures position != JStr("before") ==> r == time + " " + indicator
  {
    if position == JStr("before") then indicator + " " + time else time + " " + indicator
  }
}
