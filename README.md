# DesktopTimer, modelled in Dafny

DesktopTimer is a small always-on-top desktop window. It counts up, counts
down or shows the wall clock. Everything it does is driven by one settings
dictionary that is read from and written back to a JSON file.

This project models the parts of the program that decide what the window
does:

- **The current window (`module/timer_window.py`).** This covers:
  - loading the settings file: backfilling defaults, merging the shortcuts, migrating old keys and normalising the countdown presets;
  - the validator that repairs out-of-range values;
  - the debounced save;
  - the one-second tick;
  - the countdown-finished dispatch (sound, flashing, notices);
  - the flash timer;
  - pause, reset, quick countdown, the mode switches and the tray icon.
- **The settings dialog (`module/settings_dialog.py`).** This covers:
  - its private copy of the preset list (add, edit, remove, move, reset, serialise);
  - the preset editor and its label merge;
  - the shortcut conflict check;
  - the combo boxes that map stored keys to indexes and back;
  - what `apply_settings` writes into the settings.
- **The constants (`module/constants.py`):** the default shortcuts, the built-in presets, and the flash interval and count.
- **The older single-file generation of the timer (`desktop_timer.py`).** This covers:
  - its `L18n` translator;
  - its settings loading;
  - its handlers, which detect the mode and the finish action by substring tests on translated text;
  - the size box of its settings dialog.

Python values are modelled as a `Json` datatype (module `PyJson`). A dict
is a list of key/value pairs in insertion order, and `Get` finds the first
occurrence of a key, as `dict.get` does.

The modules are:

- `Constants`: the constant tables.
- `PyJson`: the JSON values and the Python dict and string operations the code uses.
- `SettingsText`: integer parsing, clamping, key derivation, label cleaning, duration and clock text, and colour parsing.
- `SettingsStore`: the settings dict — defaults, backfill, the validator, and preset normalisation.
- `TimerCore`: the counter tick, the flash state machine, the save debounce and the clock text.
- `TimerWindowModel`: the window as a class, with the handlers as functions on one `View` record.
- `SettingsDialogModel`: the dialog's preset list and the preset editor.
- `DialogSettings`: the combo boxes, the shortcut check and what the dialog writes.
- `LegacyTimer`: the older generation in `desktop_timer.py`.

The handlers are written as functions from the window's attributes to the
new attributes. Each class method states that its new state is that
function of its old state. The lemmas then state what the functions
promise.

Input and output are parameters of the model rather than calls:

- the settings file that was read;
- whether a write succeeds;
- the translator;
- the wall clock;
- whether a sound file exists;
- whether the toast library is present;
- the random part of new preset ids.

## Model

| member | source | states |
|---|---|---|
| Constants.DefaultShortcutsJson | module/constants.py:1-8 | the entries are the table's actions bound to its chords, in the table's order |
| Constants.DefaultCountdownPresets | module/constants.py:10-22 | the eleven built-in presets, in table order |
| Constants.BuiltinGet | module/constants.py:10-22 | a built-in preset's id, mode, hours, minutes, seconds and name key, read back by key |
| Constants.BuiltinIdsDistinct | module/constants.py:10-22 | the built-in preset ids are pairwise distinct |
| Constants.BuiltinDurationsInRange | module/constants.py:10-22 | every built-in preset's fields lie in the clamp ranges and its total is positive |
| Constants.DefaultChordsDistinct | module/constants.py:1-8 | the six default chords are non-empty and pairwise distinct |
| PyJson.Get | module/timer_window.py:313-315 | `d.get(k)` is the value of the first entry with key `k`, and is None exactly when `k` is absent |
| PyJson.GetFirst | module/timer_window.py:313-315 | with distinct keys, the lookup of an entry's key is that entry's value |
| PyJson.Put | module/timer_window.py:313-315 | after `d[k] = v`, `k` holds `v`, every other key keeps its value, and the key set grows by `k` only |
| PyJson.PutDistinct | module/timer_window.py:313-315 | storing a key keeps the keys distinct |
| PyJson.SetDefault | module/timer_window.py:522-524 | `setdefault` stores only when the key is absent and never changes a present value |
| PyJson.Remove | module/settings_dialog.py:1502 | `pop(k, None)` leaves `k` absent and keeps every other key's value |
| PyJson.Strip | module/timer_window.py:604-614 | `strip()` has no whitespace at either end and is no longer than the input |
| PyJson.StripIdempotent | module/timer_window.py:604-614 | stripping twice is stripping once |
| PyJson.TrimLeft | module/timer_window.py:604-614 | `lstrip()` removes exactly the leading whitespace |
| PyJson.TrimRight | module/timer_window.py:604-614 | `rstrip()` removes exactly the trailing whitespace |
| PyJson.NonBlankStrip | module/timer_window.py:519-521 | `s.strip()` is empty exactly when `s` is all whitespace |
| PyJson.Lower | module/timer_window.py:184-208 | `lower()` keeps the length and maps each character by ASCII case folding |
| PyJson.HeadBefore | module/timer_window.py:585-601 | `split('_')[0]` is a prefix without underscores, and is followed by an underscore or the end |
| PyJson.Join | module/timer_window.py:561-583 | `sep.join` of a single part is that part |
| PyJson.OccursIsContains | module/timer_window.py:1252 | `sub in s` holds exactly when `sub` starts at some position of `s` |
| SettingsText.DecimalString | module/timer_window.py:555-559 | `str(n)` is a non-empty digit string |
| SettingsText.DecimalRoundTrip | module/timer_window.py:555-559 | reading `str(n)` back as digits gives `n` |
| SettingsText.Pad2 | module/timer_window.py:555-559 | `f"{n:02d}"` has at least two digits, exactly two below 100, and reads back as `n` |
| SettingsText.ParseIntText | module/timer_window.py:41-47 | `int(text)` succeeds only on text that is not blank |
| SettingsText.ParseIntReadsDecimal | module/timer_window.py:41-47 | `int(str(n))` is `n` |
| SettingsText.ParseUnsigned | module/timer_window.py:41-47 | `int(digits)` with no sign and nothing to strip is the digits' value |
| SettingsText.ParseIntReadsNegated | module/timer_window.py:41-47 | `int("-" + str(n))` is `-n` |
| SettingsText.ParseNegative | module/timer_window.py:41-47 | `int("-" + digits)` with nothing to strip is minus the digits' value |
| SettingsText.ClampInt | module/timer_window.py:41-47 | the result is in `[lo, hi]`; an integer in range is kept, one above gives `hi`, one below gives `lo`, and an unconvertible value gives `lo` |
| SettingsText.ClampIntStable | module/timer_window.py:41-47 | clamping an in-range integer changes nothing, and clamping is idempotent |
| SettingsText.DeriveModeKey | module/timer_window.py:184-208 | the result is one of `countup`, `countdown` or `clock`; a count-up word gives countup, a clock word gives clock, and anything else gives countdown |
| SettingsText.DeriveActionKey | module/timer_window.py:211-228 | the result is one of `beep`, `flash` or `beep_flash`, chosen by which of the beep and flash words occur |
| SettingsText.DeriveActionKeyIdempotent | module/timer_window.py:211-228 | deriving from a derived key gives that key back |
| SettingsText.CleanLabels | module/timer_window.py:604-614 | only string keys with non-blank string values survive, stripped; a non-dict gives the empty map |
| SettingsText.CleanLabelsLookup | module/timer_window.py:604-614 | key by key, the cleaned value is the first such entry's stripped text |
| SettingsText.CleanLabelsOfLabelsJson | module/timer_window.py:604-614 | cleaning a stored clean label map gives it back |
| SettingsText.FirstWithPrefix | module/timer_window.py:594-597 | the earliest label whose language part matches (no earlier entry matches); None exactly when no label matches |
| SettingsText.LabelForLanguage | module/timer_window.py:585-601 | the exact language's label; else the earliest same-family label; else the first label; with no clean labels, the stripped `label`; None exactly when neither exists |
| SettingsText.LabelForLanguageChosen | module/timer_window.py:585-601 | with labels present, the result is the value of an entry that is the language's own, or (none being) the earliest of its family, or (no family member) the first entry |
| SettingsText.LabelValuesClean | module/timer_window.py:585-601 | every label a lookup can return is non-blank and stripped |
| SettingsText.PresetHms | module/timer_window.py:555-559 | hours, minutes and seconds clamped to 99, 59 and 59 |
| SettingsText.FormatPresetDuration | module/timer_window.py:555-559 | `HH:MM:SS` whose digit groups read back as the clamped hours, minutes and seconds |
| SettingsText.DurationParts | module/timer_window.py:561-583 | one part per positive component, in h, m, s order, each the number followed by its translated unit |
| SettingsText.FormatDurationText | module/timer_window.py:561-583 | the positive parts joined by "" for zh* and " " otherwise; all zero gives "0" and the seconds unit |
| SettingsText.DurationPart | module/timer_window.py:568-581 | a non-empty piece starting with the number |
| SettingsText.Piece | module/timer_window.py:568-581 | the piece is empty exactly when the value is not positive |
| SettingsText.JoinPresent | module/timer_window.py:561-583 | joining the non-empty pieces puts one separator between neighbours only |
| SettingsText.DurationTextSpeltOut | module/timer_window.py:561-583 | the general result: each positive component's piece in order, with the separator exactly between two present pieces |
| SettingsText.ChineseDurationConcatenates | module/timer_window.py:561-583 | for Chinese the pieces are concatenated without a separator |
| SettingsText.PresetDurationText | module/timer_window.py:616-626 | the duration text used when a preset has no usable label |
| SettingsText.ResolvePresetLabel | module/timer_window.py:616-626 | the language label when there is one; else the name key's translation when it is non-empty and differs from the key; else the duration text; never empty |
| SettingsText.FormatHmsReadsBack | module/timer_window.py:1157-1161 | the `HH:MM:SS` display reads back as `abs(elapsed)` seconds |
| SettingsText.HexToRgbRoundTrip | module/timer_window.py:895-898 | `#rrggbb` written from three bytes parses back to those bytes |
| SettingsText.LStripHash | module/timer_window.py:895-898 | `lstrip('#')` is a suffix of the input that does not start with `#` |
| SettingsText.Hex2 | module/timer_window.py:900-904 | `{v:02x}` is exactly two hex digits |
| SettingsText.Hex2Parses | module/timer_window.py:895-904 | `int(f"{v:02x}", 16)` is `v` |
| SettingsText.ColourCheckAdmitsNonHex | module/timer_window.py:426-431 | the validator accepts "#" plus any six characters, and `hex_to_rgb` rejects "#GGGGGG" |
| SettingsText.AmPmIndicator | module/timer_window.py:1106-1110 | `PM` or `AM` for style `en`, 下午 or 上午 otherwise, chosen by `hour >= 12` |
| SettingsText.WithIndicator | module/timer_window.py:1111-1112 | the indicator goes before the time for `before`, after it otherwise, separated by a space |
| SettingsStore.ToMap | module/timer_window.py:254-383 | a JSON object read as a map, where the first entry of each key wins |
| SettingsStore.Backfill | module/timer_window.py:313-315 | every default key is present; stored values are kept; missing keys get their defaults |
| SettingsStore.UpdateInto | module/timer_window.py:317-322 | `merged.update(stored)` has exactly the keys of the defaults and of the stored dict |
| SettingsStore.UpdateIntoLookup | module/timer_window.py:317-322 | the lookup in the merged shortcuts is the stored chord, else the default one |
| SettingsStore.MergeShortcutsLookup | module/timer_window.py:365-370 | every default action keeps a chord after the merge, and stored chords override |
| SettingsStore.ResetNegative | module/timer_window.py:408-412 | a countdown field that is not a non-negative int becomes 0, and nothing else changes |
| SettingsStore.ResetColour | module/timer_window.py:426-431 | a colour that is not `#` plus six characters gets the key's default |
| SettingsStore.Cap | module/timer_window.py:415-423 | a field above its cap becomes the cap; nothing else changes |
| SettingsStore.FixSettingsSound | module/timer_window.py:385-477 | after the validator every checked field is valid |
| SettingsStore.FixSettingsReportsExactly | module/timer_window.py:385-477 | `fixed` is set exactly when some field was invalid, and valid settings come back unchanged |
| SettingsStore.FixSettingsFrame | module/timer_window.py:385-477 | keys the validator does not check keep their values |
| SettingsStore.FixSettingsIdempotent | module/timer_window.py:385-477 | a second validation reports nothing and changes nothing |
| SettingsStore.FixDisplayRepairs | module/timer_window.py:389-405 | font size, opacity and mode key become valid, each reset to its default only when invalid; `fixed` exactly when one was |
| SettingsStore.FixCountdownRepairs | module/timer_window.py:407-423 | negative or non-integer fields become 0, too large ones the bound; `fixed` exactly when one was invalid |
| SettingsStore.FixAppearanceRepairs | module/timer_window.py:425-447 | colours, theme and language become valid, a colour of the wrong shape its default; `fixed` exactly when one was invalid |
| SettingsStore.FixBehaviourRepairs | module/timer_window.py:449-472 | action key, volume, toast flag and startup behaviour become valid, the action key derived from the text; `fixed` exactly when one was invalid |
| SettingsStore.FixSettingsRepairs | module/timer_window.py:385-477 | the validator runs its four groups in order, each making its keys valid and reporting exactly when one was not |
| SettingsStore.Dicts | module/timer_window.py:494-497 | a sub-list of the stored items, every one a dict |
| SettingsStore.EntryLabels | module/timer_window.py:512-524 | a clean label map (non-blank stripped texts, distinct keys) |
| SettingsStore.NormalizeEntryFields | module/timer_window.py:508-538 | a normalised entry has the assigned id, mode `countdown`, the clamped fields and its labels |
| SettingsStore.NormalizeEntryValid | module/timer_window.py:508-538 | a normalised entry is a valid preset carrying its id |
| SettingsStore.EntryLabelsFold | module/timer_window.py:519-522 | the legacy `label` lands under the current language unless that language already has one |
| SettingsStore.PrimaryLabelPrefersLanguage | module/timer_window.py:524-527 | the stored `label` is the current language's label when there is one |
| SettingsStore.AssignId | module/timer_window.py:499-506 | a missing or blank id gets a fresh one, and an id seen before gets a fresh suffix; the result is unseen and non-blank, and the flag says whether it changed |
| SettingsStore.DefaultPresetsWellFormed | module/timer_window.py:479-480 | the built-in presets are valid entries with distinct, non-blank ids |
| SettingsStore.NormalizeCountdownPresets | module/timer_window.py:482-545 | the result is `NormalizedFrom` the stored value: a non-empty list of valid presets with distinct ids; with dicts stored, one `NormalizeEntry` of each dict in order, keeping every stored id when those are distinct; the defaults when none is stored. `changed` is false exactly when the stored list was already clean |
| SettingsStore.NormalizedWellFormed | module/timer_window.py:482-545 | an already well-formed list comes back unchanged with `changed` false |
| SettingsStore.ScanOne | module/timer_window.py:494-539 | one pass of the loop keeps the scan invariant |
| SettingsStore.ScanSource | module/timer_window.py:492-539 | the loop reads every entry and ends with the scan invariant over the whole list |
| SettingsStore.BuildEntry | module/timer_window.py:508-539 | the entry built is `NormalizeEntry`, valid and carrying its id |
| SettingsStore.FinishScan | module/timer_window.py:541-545 | a well-formed list of valid presets, the defaults when no dict was found, `changed` exactly when the input was not well formed |
| SettingsStore.ModeKeyMigrationUnreachable | module/timer_window.py:325-331 | after the backfill `timer_mode_key` is always present, so its migration never runs |
| SettingsStore.StartupOverride | module/timer_window.py:122-137 | with behaviour `fixed`, the stored fixed key (or `countdown` when it is not a mode key) becomes the mode, with its translated text; otherwise nothing changes |
| SettingsStore.StartupKeepsPresets | module/timer_window.py:122-137 | the startup block leaves the presets alone |
| SettingsStore.StartupKeepsValidated | module/timer_window.py:122-137 | the startup block keeps validated settings valid |
| TimerCore.TrayIconFor | module/timer_window.py:1609-1632 | the info icon while flashing, else play while running, stop when stopped at zero, pause when stopped elsewhere |
| TimerCore.Tick | module/timer_window.py:1143-1155 | a running countdown goes down by one and stops at zero, firing the finish handler; a count-up goes up by one; a stopped counter stays |
| TimerCore.RunStopped | module/timer_window.py:1143-1155 | a stopped counter never moves and never finishes |
| TimerCore.CountdownBeforeZero | module/timer_window.py:1143-1155 | a countdown from `n` is still running after fewer than `n` ticks |
| TimerCore.CountdownFinishesOnce | module/timer_window.py:1143-1155 | a countdown from `n >= 1` reaches zero after exactly `n` ticks, stops, and fires the finish handler exactly once |
| TimerCore.CountUpRuns | module/timer_window.py:1153-1154 | a running count-up adds one per tick and never finishes |
| TimerCore.FlashStep | module/timer_window.py:1248-1275 | one flash firing toggles between red and the normal style; after `FLASH_COUNT_MAX` toggles flashing ends with the count at zero |
| TimerCore.FlashingBeforeMax | module/timer_window.py:1248-1275 | before six toggles the window keeps flashing, and is red on odd steps |
| TimerCore.FlashEndsAfterMax | module/constants.py:33-36 | a flash started by the finish handler ends after exactly six toggles, back in the normal style |
| TimerCore.DoSave | module/timer_window.py:664-683 | nothing happens when no save is pending; the flag clears only on a successful write |
| TimerCore.Save | module/timer_window.py:646-662 | the immediate path writes at once; the deferred one leaves the flag set and re-arms the timer |
| TimerCore.Fire | module/timer_window.py:664-683 | firing disarms the single-shot timer |
| TimerCore.DeferredSavesArm | module/timer_window.py:658-662 | a burst of deferred saves leaves one armed timer and no write |
| TimerCore.DebounceWritesOnce | module/timer_window.py:646-683 | however many deferred saves come in a burst, firing writes the file exactly once |
| TimerCore.FailedWriteRetried | module/timer_window.py:664-683 | a failed write keeps the flag set until a later write succeeds |
| TimerCore.ClockDisplayShows | module/timer_window.py:1088-1141 | the clock text ends with the configured time: 24-hour, or 12-hour with the marker before or after; the date comes first when shown |
| TimerWindowModel.PresetsNotValidated | module/timer_window.py:385-477 | the presets key is not among the keys the validator checks |
| TimerWindowModel.MigratedKeeps | module/timer_window.py:313-341 | the keys are exactly the stored ones, the defaults, the shortcuts and the action key; migration keeps every stored value except the merged shortcuts and a non-canonical action key, and adds the defaults for missing keys |
| TimerWindowModel.RemergedMigratedKeeps | module/timer_window.py:313-368 | after the second shortcut merge the keys are exactly the stored ones, the defaults, the shortcuts and the action key; every stored value outside those two is kept, every added one is the default, and the action key is canonical |
| TimerWindowModel.ReadDocumentKeys | module/timer_window.py:303-370 | after loading, every default key is present and stored values are kept, except the shortcuts and a non-canonical action key |
| TimerWindowModel.RemergeKeeps | module/timer_window.py:365-370 | the second shortcut merge touches only `shortcuts` |
| TimerWindowModel.MergeTwice | module/timer_window.py:365-370 | merging an already merged dict changes no lookup |
| TimerWindowModel.ReadDocumentShortcutsComplete | module/timer_window.py:317-322 | after loading, `shortcuts` is a dict holding a chord for each of the six actions |
| TimerWindowModel.ReadDocumentShortcutsStored | module/timer_window.py:317-322 | a chord stored in the file for an action is the one loaded |
| TimerWindowModel.ValidateAtStartupAsWritten | module/timer_window.py:475-477 | as written, a startup that gets through keeps the loaded settings unchanged |
| TimerWindowModel.StartupAsWrittenRaises | module/timer_window.py:120 | as written, construction raises exactly when the loaded settings are not valid |
| TimerWindowModel.OpacityOutOfRangeAbortsStartup | module/timer_window.py:396-399 | a file holding only `{"bg_opacity": 300}` aborts startup |
| TimerWindowModel.FinishActionKey | module/timer_window.py:1172-1175 | always one of beep, flash, beep_flash, and the stored key whenever that is one of them |
| TimerWindowModel.FinishDispatch | module/timer_window.py:1170-1246 | `flash` plays nothing; `beep` and `beep_flash` sound once when sound is on; the user is told once, by pop-up or tray, before any toast |
| TimerWindowModel.FinishRaisesOnNonStringSound | module/timer_window.py:1179-1183 | a truthy non-string `sound_file` raises before flashing or notifying |
| TimerWindowModel.ValidatedCanStillFault | module/timer_window.py:426-431 | validated settings can still make `apply_settings` raise on a colour such as "#GGGGGG" |
| TimerWindowModel.ValidatedWithShapedBg | module/timer_window.py:426-431 | any background of the accepted shape keeps the settings validated |
| TimerWindowModel.ValidatedKeysSettled | module/timer_window.py:385-477 | validated settings hold every key the window reads |
| TimerWindowModel.BadBackgroundFaults | module/timer_window.py:895-898 | an unreadable background colour makes both `apply_settings` and the red restyle raise |
| TimerWindowModel.CountdownTotal | module/timer_window.py:1302-1327 | between 0 and 99:59:59 in seconds for in-range fields |
| TimerWindowModel.MinutesDefaultsDiffer | module/timer_window.py:800-893 | with `countdown_minutes` missing, `apply_settings` starts 25 minutes longer than `reset_timer`; when it is present they agree |
| TimerWindowModel.UpdatedTimeClock | module/timer_window.py:1088-1141 | in clock mode `update_time` only shows the clock |
| TimerWindowModel.UpdatedTimeCounts | module/timer_window.py:1143-1161 | outside a finishing countdown, the counter moves as `Tick` does and shows as `HH:MM:SS` |
| TimerWindowModel.UpdatedTimeFinishes | module/timer_window.py:1145-1150 | a countdown reaching zero stops at zero and runs the finish handler, raising exactly when it does |
| TimerWindowModel.FinishedEffects | module/timer_window.py:1170-1246 | `flash` and `beep_flash` start the flash timer from zero; the events are exactly the finish events; the counter and validated settings are untouched |
| TimerWindowModel.UpdatedTimeKeepsSettings | module/timer_window.py:1078-1081 | with both keys settled `update_time` stores nothing |
| TimerWindowModel.StoppedUpdateIsDone | module/timer_window.py:1143-1161 | a stopped counter never reaches the finish handler |
| TimerWindowModel.ResetViewState | module/timer_window.py:1302-1327 | reset stops the counter at the configured countdown (or zero), shows it, announces it and updates the icon |
| TimerWindowModel.QuickResetState | module/timer_window.py:1329-1343 | after a quick countdown is stored, reset stops at its total, shows it and announces the reset |
| TimerWindowModel.TogglePausedTwice | module/timer_window.py:1277-1300 | two toggles restore the counter and icon, with two tray messages |
| TimerWindowModel.AppliedFaultChangesNothing | module/timer_window.py:800-893 | a colour fault raises before anything changes |
| TimerWindowModel.AppliedRunsUpdate | module/timer_window.py:800-893 | without a fault, `apply_settings` is `update_time` from the restarted counter, then the icon |
| TimerWindowModel.AppliedRestarts | module/timer_window.py:800-893 | the normal style returns and the counter restarts from the settings unless told to keep it, then moves as in `update_time` |
| TimerWindowModel.AppliedRestartsClock | module/timer_window.py:866-893 | the restart in clock mode |
| TimerWindowModel.AppliedRestartsCounting | module/timer_window.py:866-893 | the restart when the first tick does not finish |
| TimerWindowModel.AppliedRestartsFinishing | module/timer_window.py:866-893 | the restart when the first tick finishes the countdown |
| TimerWindowModel.FlashedFromRed | module/timer_window.py:1250-1268 | from red, when the normal style does not pass the red test, the flash state follows `FlashStep` |
| TimerWindowModel.FlashedIdle | module/timer_window.py:1269-1275 | when not flashing, and the normal style does not pass the red test, the flash state follows `FlashStep` |
| TimerWindowModel.FlashedFollowsFlashStep | module/timer_window.py:1248-1275 | on readable colours, with a normal style that does not pass the red test, the flash state follows `FlashStep` exactly |
| TimerWindowModel.FlashedOnRedStyle | module/timer_window.py:1248-1256 | when the normal style passes the red test, a firing on the red label applies the settings again: the label stays red, the count moves on as in `FlashStep`, and the counter restarts |
| TimerWindowModel.FlashedStuckOnRestyleFault | module/timer_window.py:1248-1275 | a restyle fault leaves the flash state where it was, so flashing never ends |
| TimerWindowModel.Dimmed | module/timer_window.py:900-904 | `adjust_brightness` writes `#` and hex digits (a sign only for a negative component), at least seven characters |
| TimerWindowModel.StyleShapeNotRed | module/timer_window.py:857-864 | with no `r` in the text colour, the components, the opacity and the radius, the style sheet does not hold `color: red` |
| TimerWindowModel.StyleShapeRadiusRed | module/timer_window.py:857-864 | a radius holding `color: red` puts it in the style sheet |
| TimerWindowModel.StyleShapeTextRed | module/timer_window.py:857-864 | a text colour starting with `red` completes `color: red` in the style sheet |
| TimerWindowModel.PlainStyleNotRed | module/timer_window.py:837-864 | with a `#`-hex text colour, an integer opacity and square corners or an integer radius, the normal style fails the red test of `flash_window` |
| TimerWindowModel.RadiusTextLooksRed | module/timer_window.py:854-864 | a string radius holding `color: red` makes the normal style pass the red test |
| TimerWindowModel.RedRadiusExample | module/timer_window.py:854 | the settings `{"corner_radius": "0px; color: red"}` with rounded corners make the normal style pass the red test |
| TimerWindowModel.RedTextLooksRed | module/timer_window.py:837-864 | a day-mode text colour starting with `red` makes the normal style pass the red test |
| TimerWindowModel.SoundPicked | module/timer_window.py:685-708 | a truthy non-string `sound_file` raises TypeError; the pick is stored, and a save scheduled, exactly when `sound_file` is unset or names no file and a pick was drawn; otherwise nothing changes |
| TimerWindowModel.PickedSoundPlays | module/timer_window.py:685-708 | a stored pick naming an existing file is the sound the finish handler plays |
| TimerWindowModel.SoundPickedSettles | module/timer_window.py:685-708 | once such a pick is stored, the next start keeps it whatever it draws |
| TimerWindowModel.SoundPickedKeepsValidated | module/timer_window.py:685-708 | storing the pick keeps validated settings validated |
| TimerWindowModel.ValidatedAfterModeChange | module/timer_window.py:1581-1593 | changing the mode keeps the settings valid |
| TimerWindowModel.ValidatedAfterQuick | module/timer_window.py:1329-1343 | storing in-range countdown fields keeps the settings valid |
| TimerWindowModel.QuickSettingsRead | module/timer_window.py:1329-1343 | the stored settings select the countdown and hold its duration |
| TimerWindowModel.QuickCountdownSets | module/timer_window.py:1329-1343 | `quick_countdown(h, m, s)` leaves a stopped countdown of `h*3600+m*60+s` seconds on the label and announces it after the reset message |
| TimerWindowModel.SwitchedViewState | module/timer_window.py:1581-1593 | a mode switch stores the mode, keeps the settings valid, and leaves a stopped zero counter |
| TimerWindowModel.StartupAfterLoad | module/timer_window.py:120-137 | the startup block keeps the presets, so it applies to the loaded document with its presets replaced |
| TimerWindowModel.StartupOnFixed | module/timer_window.py:120-137 | the same holds for any document whose fixed form is the loaded settings |
| TimerWindowModel.TimerWindow.constructor | module/timer_window.py:113-169 | the corrected order: the settings are the loaded, validated document with the startup mode applied and, when `apply_settings` returned, the sound pick of `ensure_sounds_folder`; the loaded presets are `LoadedPresets` of the file, the normaliser's output for its presets; the red test is `StyleSaysRed` |
| TimerWindowModel.TimerWindow.Start | module/timer_window.py:120-169 | the loaded settings are the validated document with the startup mode applied, and their presets are `LoadedPresets` of the file; the final settings and the sound outcome are those of `SoundPicked` on them exactly when `apply_settings` returned; a pending save is armed unless the disk is unwritable |
| TimerWindowModel.TimerWindow.ApplyAndPickSound | module/timer_window.py:168-169 | `apply_settings`, whose outcome is that of `Applied` on the loaded state, then `ensure_sounds_folder` only when it returned |
| TimerWindowModel.TimerWindow.PickSoundIfStarted | module/timer_window.py:168-169 | a raised `apply_settings` leaves the settings, the save state and the sound outcome as they were; otherwise they follow `SoundPicked` |
| TimerWindowModel.TimerWindow.EnsureSoundsFolder | module/timer_window.py:685-708 | the settings become `SoundPicked` of the old ones, with a deferred save when the pick is stored |
| TimerWindowModel.TimerWindow.LoadAtStartup | module/timer_window.py:120-141 | `load_settings`, the startup block, and the counter at zero, running when `auto_start_timer` is set; the presets are `LoadedPresets` of the file |
| TimerWindowModel.TimerWindow.EnsurePresetsNormalized | module/timer_window.py:547-553 | `changed` exactly when the presets were not well formed; then they become the normaliser's output for the old ones under the stored language (`PresetsNormalizedFrom`); otherwise nothing changes; nothing outside the presets ever changes |
| TimerWindowModel.TimerWindow.DoSaveSettings | module/timer_window.py:664-683 | nothing happens without a pending save; otherwise presets that were not well formed become the normaliser's output for them, the settings are written, and the flag clears only on success |
| TimerWindowModel.TimerWindow.SaveSettings | module/timer_window.py:646-662 | the save state becomes `Save` of the old one; an immediate save replaces presets that were not well formed by the normaliser's output for them and writes the settings; a deferred one changes no settings |
| TimerWindowModel.TimerWindow.OnSaveTimerFired | module/timer_window.py:664-683 | the save state becomes `Fire` of the old one; with a save pending, presets that were not well formed become the normaliser's output for them and the settings are written; well-formed presets leave the view as it was |
| TimerWindowModel.TimerWindow.ValidateAndFixSettings | module/timer_window.py:385-477 | the settings become `FixSettings` of themselves, and a fix is saved at once |
| TimerWindowModel.TimerWindow.SaveValidated | module/timer_window.py:476-477 | the save after a fix touches only the presets, so the settings stay validated; the save state becomes `Save` of the old one |
| TimerWindowModel.TimerWindow.MigrateStored | module/timer_window.py:313-341 | outside the presets, the settings are the backfilled, merged and migrated dict; its presets are the stored ones, or the normaliser's output for them when the action-key migration saved |
| TimerWindowModel.TimerWindow.MigratedDict | module/timer_window.py:312-340 | the dict is `Migrated` of the stored one, and the action key is migrated exactly when `ActionKeyMigrates` |
| TimerWindowModel.TimerWindow.ReadSettingsFile | module/timer_window.py:303-370 | outside the presets, the settings are `ReadDocument` of the file; the presets are `ReadPresets`: the file's own, or the normaliser's output for them when reading saved |
| TimerWindowModel.TimerWindow.ReadStoredDict | module/timer_window.py:303-358 | a stored dict: outside the presets the settings are `ReadDocument` of the file; the presets are `ReadPresets` of the file |
| TimerWindowModel.TimerWindow.ReadDefaults | module/timer_window.py:359-370 | no readable dict: the settings are `ReadDocument` of the file, the defaults, presets included |
| TimerWindowModel.TimerWindow.LoadStoredSettings | module/timer_window.py:303-380 | the settings are `ReadDocument` of the file with well-formed presets, which are `LoadedPresets` of the file: one normaliser pass over its presets, or a second pass over the first when reading saved |
| TimerWindowModel.TimerWindow.BackfillDefaults | module/timer_window.py:313-315 | every stored value is kept and exactly the missing defaults are added |
| TimerWindowModel.TimerWindow.Fixed | module/timer_window.py:385-477 | validated settings that differ from the input only on the checked keys |
| TimerWindowModel.TimerWindow.LoadSettings | module/timer_window.py:254-383 | the result is the validated document with the presets `LoadedPresets` gives for the file |
| TimerWindowModel.TimerWindow.NormalizeLoadedPresets | module/timer_window.py:372-380 | the presets become the normaliser's output for the old ones (`PresetsNormalizedFrom`), nothing else changes, and `changed` says whether the old ones were not well formed |
| TimerWindowModel.LoadedFromRead | module/timer_window.py:372-380 | normalising the presets of the read file gives `LoadedPresets`: one pass over the file's presets, or a second pass over the first when reading saved them |
| TimerWindowModel.TimerWindow.ModeKey | module/timer_window.py:1078-1081 | the stored mode key, or the key derived from the text, which is then stored |
| TimerWindowModel.TimerWindow.UpdateTrayIcon | module/timer_window.py:1609-1632 | the icon becomes `TrayIconFor` of the window's state |
| TimerWindowModel.TimerWindow.OnCountdownFinished | module/timer_window.py:1170-1246 | the new state and outcome are `Finished` of the old state |
| TimerWindowModel.TimerWindow.UpdateTime | module/timer_window.py:1075-1168 | the new state and outcome are `UpdatedTime` of the old state |
| TimerWindowModel.TimerWindow.TogglePause | module/timer_window.py:1277-1300 | the new state is `TogglePaused` of the old one |
| TimerWindowModel.TimerWindow.ResetTimer | module/timer_window.py:1302-1327 | the new state is `ResetView` of the old one |
| TimerWindowModel.TimerWindow.QuickCountdown | module/timer_window.py:1329-1343 | the new state is the quick-countdown view of the old one, and the settings stay valid |
| TimerWindowModel.TimerWindow.SwitchMode | module/timer_window.py:1581-1593 | the new state is the switched view, and the settings stay valid |
| TimerWindowModel.TimerWindow.ApplySettings | module/timer_window.py:800-893 | the new state and outcome are `Applied` of the old state |
| TimerWindowModel.TimerWindow.RestartCounter | module/timer_window.py:837-882 | the style's red flag becomes the red test of the settings and the counter restarts from the settings (the countdown total, else 0) unless it is kept; nothing else in the view changes |
| TimerWindowModel.TimerWindow.FlashWindow | module/timer_window.py:1248-1275 | the new state and outcome are `Flashed` of the old state |
| SettingsDialogModel.FindOtherLanguage | module/settings_dialog.py:87-91 | the first language code different from the current one, else the current one |
| SettingsDialogModel.OtherLanguageSwaps | module/settings_dialog.py:87-91 | with the two shipped languages, each is the other's other language |
| SettingsDialogModel.DialogField | module/settings_dialog.py:746-750 | the value clamped to `[0, hi]`, and None exactly when `int()` raises |
| SettingsDialogModel.DialogHms | module/settings_dialog.py:746-750 | the clamped fields, or None when one `int()` raises |
| SettingsDialogModel.DialogPresetDuration | module/settings_dialog.py:746-750 | the dialog's duration is the window's whenever the fields convert |
| SettingsDialogModel.DialogDurationText | module/settings_dialog.py:752-774 | the dialog's duration text is the window's whenever the fields convert |
| SettingsDialogModel.DialogDurationAgrees | module/settings_dialog.py:746-774 | the dialog and the window show the same duration for integer fields |
| SettingsDialogModel.DialogPresetLabel | module/settings_dialog.py:776-785 | the stripped `label`; else the name key's translation when it is non-empty and differs from the key; else the duration text (None when `int()` raises) |
| SettingsDialogModel.DialogAgreesWithWindow | module/settings_dialog.py:776-785 | for a preset without per-language labels and with integer fields, the settings list shows the same name as the main window |
| SettingsDialogModel.SerializeEntry | module/settings_dialog.py:1287-1312 | an entry exactly when the three duration fields convert with `int()` |
| SettingsDialogModel.SerializeEntryGet | module/settings_dialog.py:1287-1312 | key by key: id, mode `countdown`, the clamped fields, the current language's label or the stripped `label`, the stripped name key, the cleaned labels |
| SettingsDialogModel.SerializeEntryFields | module/settings_dialog.py:1287-1312 | serialising an entry the normaliser built gives back the same dict |
| SettingsDialogModel.EntryReadByDialog | module/settings_dialog.py:1287-1312 | the dialog reads back the durations, id, label, name key and labels a normalised entry stores |
| SettingsDialogModel.ReadDurationsAndId | module/settings_dialog.py:1290-1296 | the dialog reads stored in-range durations and a non-blank id back unchanged |
| SettingsDialogModel.ReadLabels | module/settings_dialog.py:1297-1308 | the dialog reads a stored label, name key and clean labels back unchanged |
| SettingsDialogModel.SerializeNormalized | module/settings_dialog.py:1287-1312 | every entry `ensure_presets_normalized` leaves serialises back to itself |
| SettingsDialogModel.SerializeEntryValid | module/settings_dialog.py:1287-1312 | a serialised entry is a valid preset whose labels are the cleaned input labels |
| SettingsDialogModel.ExtractLegacyLabel | module/settings_dialog.py:1569-1575 | the stripped `label`; else the stripped resolved label when it is non-blank; else None |
| SettingsDialogModel.LegacyLabelIsListedName | module/settings_dialog.py:1569-1575 | built from the name the settings list shows, the editor's fallback is that name stripped, None when it is blank or missing |
| SettingsDialogModel.GetExistingLabel | module/settings_dialog.py:1577-1589 | from the editor's labels (or, when empty, the preset's raw `labels` object): the exact language's clean label, else the earliest clean same-family label, else the legacy label; the legacy label when neither source is a dict |
| SettingsDialogModel.ExistingLabelIsShownLabel | module/settings_dialog.py:1577-1589 | when a preset has a label in the language's family, the editor pre-fills the name the main window shows for that language |
| SettingsDialogModel.FirstCleanWithPrefix | module/settings_dialog.py:1583-1588 | the clean text of the earliest same-family key whose text is non-blank; None exactly when every same-family text is blank or not a string |
| SettingsDialogModel.FormLabels | module/settings_dialog.py:1492-1502 | a clean label map |
| SettingsDialogModel.FormLabelsLookup | module/settings_dialog.py:1492-1502 | the typed name under the current language, the second name under the other only when checked, nothing else |
| SettingsDialogModel.MergeExisting | module/settings_dialog.py:1504-1515 | a clean label map |
| SettingsDialogModel.MergeLookup | module/settings_dialog.py:1504-1515 | key by key, what the merge keeps |
| SettingsDialogModel.MergeOneLookup | module/settings_dialog.py:1505-1515 | key by key, what one merge step keeps: only the entry's own key can change, and only as `MergeLookup` says |
| SettingsDialogModel.EditorLabels | module/settings_dialog.py:1492-1515 | a clean label map |
| SettingsDialogModel.EditorLabelsLookup | module/settings_dialog.py:1492-1515 | the typed name, the second name when checked, and every other language's existing clean label |
| SettingsDialogModel.MergeExistingLabels | module/settings_dialog.py:1504-1515 | the loop computes `MergeExisting` |
| SettingsDialogModel.MergeEntry | module/settings_dialog.py:1505-1515 | one pass of the merge loop is `MergeOne` |
| SettingsDialogModel.MergeOne | module/settings_dialog.py:1505-1515 | one merge step keeps the label map clean |
| SettingsDialogModel.AppliedLabels | module/settings_dialog.py:127-142 | after `_apply_label_result` the window reads back exactly the result's labels |
| SettingsDialogModel.TypedNameShown | module/settings_dialog.py:127-142 | a typed name is what the main window shows for that language |
| SettingsDialogModel.PresetEditor.constructor | module/settings_dialog.py:1373-1474 | the cleaned existing labels and the legacy label |
| SettingsDialogModel.PresetEditor.Accept | module/settings_dialog.py:1476-1534 | rejects a zero duration, a missing name and a blank checked second name; otherwise the result holds the durations and `EditorLabels` |
| SettingsDialogModel.NewPresetId | module/settings_dialog.py:93-113 | a non-blank id |
| SettingsDialogModel.LoadPresetSnapshot | module/settings_dialog.py:93-113 | a private copy of the dict entries, with `mode` defaulted and blank ids replaced |
| SettingsDialogModel.SnapshotBase | module/settings_dialog.py:94-107 | every snapshot entry is a dict |
| SettingsDialogModel.SnapshotEntry | module/settings_dialog.py:108-112 | a dict with a mode and a non-blank id, every other key as stored |
| SettingsDialogModel.CopyDicts | module/settings_dialog.py:94-107 | the loop copies the dict entries, or the defaults |
| SettingsDialogModel.SnapshotOne | module/settings_dialog.py:108-112 | one pass of the fixing loop is `SnapshotEntry` |
| SettingsDialogModel.SnapshotOfNormalized | module/settings_dialog.py:93-113 | the snapshot of a normalised list is that list |
| SettingsDialogModel.EditedEntry | module/settings_dialog.py:844-875 | the edited entry is a dict |
| SettingsDialogModel.AddedEntry | module/settings_dialog.py:819-842 | a new preset is valid, carries its id and exactly the editor's labels |
| SettingsDialogModel.EditedEntryFields | module/settings_dialog.py:844-875 | editing keeps id and mode, takes the durations and labels, and keeps a truthy `name_key` |
| SettingsDialogModel.Swapped | module/settings_dialog.py:893-905 | entries `i` and `j` exchanged, everything else in place, same multiset |
| SettingsDialogModel.SwapTwice | module/settings_dialog.py:893-905 | moving a preset one way and back restores the list |
| SettingsDialogModel.SettingsDialog.constructor | module/settings_dialog.py:55-75 | the languages and the snapshot, with nothing selected |
| SettingsDialogModel.SettingsDialog.SelectedIndex | module/settings_dialog.py:799-805 | the current row when it is inside the list, else -1 |
| SettingsDialogModel.SettingsDialog.AddPreset | module/settings_dialog.py:819-842 | an accepted result is appended and selected; the rest is unchanged |
| SettingsDialogModel.SettingsDialog.EditSelected | module/settings_dialog.py:844-875 | only the selected preset changes, to `EditedEntry` |
| SettingsDialogModel.SettingsDialog.RemoveSelected | module/settings_dialog.py:877-891 | on confirmation exactly the selected index is dropped |
| SettingsDialogModel.SettingsDialog.MoveSelected | module/settings_dialog.py:893-905 | the selected preset swaps with its neighbour and stays selected; the multiset is kept |
| SettingsDialogModel.SettingsDialog.ResetPresets | module/settings_dialog.py:907-919 | on confirmation the built-in presets replace the list |
| SettingsDialogModel.SettingsDialog.SerializePresets | module/settings_dialog.py:1287-1312 | one serialised entry per preset, the built-ins for an empty list, None when `int()` raises |
| SettingsDialogModel.SerializeOne | module/settings_dialog.py:1290-1309 | one pass of the loop is `SerializeEntry` |
| SettingsDialogModel.SettingsDialog.ApplySettings | module/settings_dialog.py:1314-1361 | the corrected write: the dialog's values, with the chosen action's key stored beside its text |
| SettingsDialogModel.SettingsDialog.AcceptSettings | module/settings_dialog.py:1363-1369 | a shortcut conflict writes nothing; otherwise the settings are applied |
| SettingsDialogModel.DialogRoundTrip | module/settings_dialog.py:93-113 | opening and applying the dialog unchanged serialises every normalised preset to itself |
| DialogSettings.ModeIndexOf | module/settings_dialog.py:512-520 | the index of a mode key, 1 for anything else |
| DialogSettings.ModeKeyForIndex | module/settings_dialog.py:1321 | the mode key of an index, `countdown` for anything else |
| DialogSettings.ModeIndexRoundTrip | module/settings_dialog.py:512-520 | reading a mode key into the box and writing it back are inverse |
| DialogSettings.DialogModeIndex | module/settings_dialog.py:512-520 | an index into the mode box, selecting the stored `timer_mode_key` when it is canonical |
| DialogSettings.FixedModeIndex | module/settings_dialog.py:988-995 | an index into the startup-mode box, selecting the stored fixed mode when it is canonical |
| DialogSettings.ActionKeyForIndex | module/settings_dialog.py:559-565 | an action key; index 0, 1 and 2 stand for beep, flash and both |
| DialogSettings.LanguageText | module/settings_dialog.py:951-954 | `简体中文` for `zh_CN`, `English` otherwise |
| DialogSettings.LanguageForText | module/settings_dialog.py:1314-1361 | the language stored for the box's text |
| DialogSettings.LanguageRoundTrip | module/settings_dialog.py:951-954 | a supported language survives the box |
| DialogSettings.AmPmStyleIndex | module/settings_dialog.py:619-625 | index 0 for `en`, 1 otherwise |
| DialogSettings.AmPmStyleForIndex | module/settings_dialog.py:1327-1342 | `en` exactly for index 0, `zh` otherwise |
| DialogSettings.AmPmPositionIndex | module/settings_dialog.py:634-640 | index 0 for `before`, 1 otherwise |
| DialogSettings.AmPmPositionForIndex | module/settings_dialog.py:1327-1342 | `before` exactly for index 0, `after` otherwise |
| DialogSettings.ClockFormatIndex | module/settings_dialog.py:581-586 | index 0 exactly when `clock_format_24h` is truthy |
| DialogSettings.BehaviorIndex | module/settings_dialog.py:975-980 | index 0 for `restore`, 1 otherwise |
| DialogSettings.BehaviorForIndex | module/settings_dialog.py:1327-1342 | a startup behaviour, `restore` exactly for index 0 |
| DialogSettings.ValidateShortcuts | module/settings_dialog.py:1250-1285 | the dialog passes exactly when no two editors hold the same non-empty sequence |
| DialogSettings.ClashStep | module/settings_dialog.py:1250-1285 | a sequence already held records one conflict against its holder |
| DialogSettings.FreshStep | module/settings_dialog.py:1250-1285 | a new sequence is recorded as held |
| DialogSettings.EmptyStep | module/settings_dialog.py:1250-1285 | an empty sequence is skipped |
| DialogSettings.PrefixClash | module/settings_dialog.py:1250-1285 | one more editor adds a clash only when its sequence is non-empty and held before |
| DialogSettings.DefaultShortcutsPass | module/settings_dialog.py:1250-1285 | the built-in shortcuts pass the check |
| DialogSettings.SavedChord | module/settings_dialog.py:1345-1350 | an editor's chord, or the built-in one when it is empty |
| DialogSettings.ShortcutsSavedLookup | module/settings_dialog.py:1345-1350 | an editor's key maps to its chord, and every other key keeps its value |
| DialogSettings.ShortcutsBase | module/settings_dialog.py:1345 | `dict(settings.get('shortcuts', {}))`: the stored entries of a dict, an empty dict when the key is missing, and None for a non-dict value, on most of which `dict()` raises; the window always holds a dict here |
| DialogSettings.SaveShortcuts | module/settings_dialog.py:1345-1350 | the loop stores exactly the saved chords |
| DialogSettings.PlainValues | module/settings_dialog.py:1314-1342 | exactly the keys the plain widgets write |
| DialogSettings.ChoiceValues | module/settings_dialog.py:1321-1342 | the keys the choice boxes write |
| DialogSettings.OtherValues | module/settings_dialog.py:1314-1350 | the presets, the display texts and the shortcuts |
| DialogSettings.DialogWrites | module/settings_dialog.py:1314-1361 | the stored keys plus the keys the dialog writes |
| DialogSettings.DialogWritesKeys | module/settings_dialog.py:1314-1361 | the choice boxes land on their keys, and every unwritten key, `countdown_action_key` included, is kept |
| DialogSettings.UntouchedChoicesKept | module/settings_dialog.py:1314-1361 | applying without touching the choice boxes keeps every canonical choice key |
| DialogSettings.ModesKept | module/settings_dialog.py:1321 | the mode and language boxes give back a canonical stored key |
| DialogSettings.ClockChoicesKept | module/settings_dialog.py:1327-1342 | the clock and startup-behaviour boxes give back a canonical stored value |
| DialogSettings.ActionChoiceIgnored | module/settings_dialog.py:1325 | as written, the finish action follows the stored key, whatever the dialog chose |
| DialogSettings.ActionChoiceIgnoredExample | module/settings_dialog.py:1325 | with `beep` stored, choosing "flash" still beeps |
| DialogSettings.DialogWritesFixed | module/settings_dialog.py:1325 | the corrected write also stores the action's key |
| DialogSettings.ActionChoiceTakesEffect | module/settings_dialog.py:1325 | with the key stored, the finish handler does what the dialog shows |
| LegacyTimer.L18n.constructor | desktop_timer.py:61-64 | the translations are those of the language file |
| LegacyTimer.L18n.Load | desktop_timer.py:66-73 | the translations of the file, the language code kept |
| LegacyTimer.Translations | desktop_timer.py:66-73 | a missing or unreadable file gives no translations |
| LegacyTimer.L18n.Tr | desktop_timer.py:75-76 | the stored translation, else the key itself; None when the file's top level is no object |
| LegacyTimer.UnreadableLanguageIsIdentity | desktop_timer.py:66-76 | without a readable file every key translates to itself |
| LegacyTimer.BackfilledLookup | desktop_timer.py:941-943 | stored values and their positions are kept, exactly the missing defaults are added, and other keys stay absent |
| LegacyTimer.BackfillDefaults | desktop_timer.py:941-943 | the loop computes the backfill |
| LegacyTimer.LoadedDoc | desktop_timer.py:916-951 | a dict gets the missing defaults; a missing or unreadable file gives the defaults |
| LegacyTimer.LoadedSettings | desktop_timer.py:916-951 | every default key is present, a stored dict keeps its values, and no file gives exactly the defaults |
| LegacyTimer.NonDictFallsBack | desktop_timer.py:938-947 | a non-dict document that misses a key falls back to the defaults |
| LegacyTimer.PyIn | desktop_timer.py:1215 | `needle in hay` for strings, lists and dicts; None is the TypeError |
| LegacyTimer.EitherIn | desktop_timer.py:1215 | `a in hay or b in hay`, evaluated left to right |
| LegacyTimer.QuickModeIsCountdown | desktop_timer.py:1379-1392 | the text `quick_countdown` stores is recognised as a countdown under every translation |
| LegacyTimer.TotalOf | desktop_timer.py:1355-1377 | `h*3600 + m*60 + s` for integers, None exactly when one value is not an int or a bool (a float is left out) |
| LegacyTimer.NumberOf | desktop_timer.py:1355-1377 | an integer is its own value; exactly ints and bools have one (a float is left out) |
| SettingsText.IntText | desktop_timer.py:1379-1392 | `str(n)`: the decimal digits, with a minus sign for a negative `n` |
| SettingsText.HexString | module/timer_window.py:900-904 | `f"{n:x}"`: at least one character, all lower-case hex digits |
| SettingsText.Hex02 | module/timer_window.py:900-904 | `f"{v:02x}"`: at least two characters, hex digits and a sign |
| SettingsText.Hex02OfByte | module/timer_window.py:900-904 | for a byte, `f"{v:02x}"` is its two hex digits |
| LegacyTimer.SizeIndex | desktop_timer.py:264-272 | up to 60 small, up to 80 medium, up to 100 large, else extra large; None for a value that cannot be compared |
| LegacyTimer.FontSizeForTextAsWritten | desktop_timer.py:862-870 | as written, one of 60, 72, 96, 120; 60 for any text containing "小"; a text with "大" always gets a size |
| LegacyTimer.ExtraLargeUnreachable | desktop_timer.py:862-870 | as written, choosing "超大" stores 96 |
| LegacyTimer.FontSizeForIndex | desktop_timer.py:264-272 | small 60, medium 72, large 96, extra large 120, each reopening as its own entry |
| LegacyTimer.SizeRoundTrip | desktop_timer.py:264-272 | every entry reopens as itself |
| LegacyTimer.ApplyFault | desktop_timer.py:1055-1102 | a missing font key raises first, then the colour faults |
| LegacyTimer.AppliedElapsed | desktop_timer.py:1088-1096 | a value only when the mode is present and `in` can test it; zero when it names no countdown |
| LegacyTimer.ElapsedError | desktop_timer.py:1088-1092 | without a counter value, KeyError for a missing mode (or a missing countdown field under a countdown mode) and TypeError otherwise |
| LegacyTimer.ResetElapsed | desktop_timer.py:1355-1377 | with no mode stored, the countdown total with missing values as 0 |
| LegacyTimer.Finished | desktop_timer.py:1235-1300 | the finish handler leaves settings, counter, label and colour as they were |
| LegacyTimer.Updated | desktop_timer.py:1211-1233 | a tick never changes the settings or the colour |
| LegacyTimer.Counting | desktop_timer.py:1213-1222 | the counting step never changes the settings or the colour |
| LegacyTimer.Applied | desktop_timer.py:1055-1102 | `apply_settings` never changes the settings |
| LegacyTimer.Flashed | desktop_timer.py:1302-1328 | a flash step never changes the settings |
| LegacyTimer.Toggled | desktop_timer.py:1330-1353 | the counter starts or stops, the tray says which, and the icon follows |
| LegacyTimer.Reset | desktop_timer.py:1355-1377 | reset never changes the settings |
| LegacyTimer.Quick | desktop_timer.py:1379-1392 | the settings store the given countdown and the countdown mode |
| LegacyTimer.SwitchedToCountUp | desktop_timer.py:1494-1498 | the settings store the count-up mode name |
| LegacyTimer.UpdatedTicks | desktop_timer.py:1211-1233 | a running counter follows `Tick`, and only a finished countdown adds events |
| LegacyTimer.UpdatedStopped | desktop_timer.py:1211-1233 | a tick on a stopped counter finishes nothing and keeps the counter, flash state and events; the label reads back as the counter |
| LegacyTimer.FinishedDispatch | desktop_timer.py:1235-1300 | a raise of the sound step (as `os.path.exists` raises on the sound file, or the action cannot be searched) leaves the view as it was; otherwise sound, flashing from count zero, notices and icon, in that order |
| LegacyTimer.SoundFilePlaysForAnyAction | desktop_timer.py:1235-1300 | an existing sound file plays even when the action only flashes |
| LegacyTimer.DescriptorSoundFile | desktop_timer.py:1239-1246 | an integer or `true` sound file is a file descriptor: open, it beeps whatever the action; closed, it acts as an unset file; beyond a C `int`, OverflowError; a float, list or dict, TypeError |
| LegacyTimer.FlashedFollowsFlashStep | desktop_timer.py:1302-1328 | with a normal style that does not pass the red test, one firing follows `FlashStep` and keeps the counter stopped |
| LegacyTimer.FlashedOnRedStyle | desktop_timer.py:1302-1306 | when the normal style passes the red test, a firing on the red label applies the settings again: the label stays red and only the count moves on |
| LegacyTimer.AppliedStopped | desktop_timer.py:1055-1102 | on a stopped counter with usable settings, `apply_settings` sets the red flag from the style, the counter value and its label, and returns |
| LegacyTimer.ToggledTwice | desktop_timer.py:1330-1353 | toggling twice restores the running flag and reports both changes |
| LegacyTimer.ResetStops | desktop_timer.py:1355-1377 | reset stops at the countdown total (or zero), shows it and tells the tray |
| LegacyTimer.QuickCountdownSetsTotal | desktop_timer.py:1379-1392 | the given countdown is set up under every language |
| LegacyTimer.SwitchedToCountUpZero | desktop_timer.py:1494-1498 | switching to count-up resets to zero |
| LegacyTimer.QuickResets | desktop_timer.py:1379-1392 | a quick countdown is storing the settings, a reset, and one extra tray message |
| LegacyTimer.StepRunFollows | desktop_timer.py:1302-1328 | along a chain of single flash steps the flash state after k steps is `FlashSteps` of the first, with the settings kept |
| LegacyTimer.FlashRunSteps | desktop_timer.py:1302-1328 | on a stopped counter with usable settings whose normal style does not pass the red test, every firing in a run of `flash_window` calls is one `FlashStep` and keeps the counter stopped |
| LegacyTimer.LegacyFlashEndsAfterMax | desktop_timer.py:1302-1325 | with a normal style that does not pass the red test, from a fresh flash, after k < 6 firings it is still flashing with count k, red exactly for odd k; after the sixth, flashing has ended with the count at 0 and the normal style |
| LegacyTimer.FlashedStuckOnRestyleFault | desktop_timer.py:1308-1320 | with an unusable background colour or opacity a firing from the normal style raises and leaves the view unchanged, so flashing never ends |
| LegacyTimer.LegacyWindow.constructor | desktop_timer.py:882-902 | a stopped or auto-started counter at zero with the play icon `init_tray` sets (desktop_timer.py:1115-1121), then `apply_settings`, then, when it returned, the sound pick of `ensure_sounds_folder` (`LegacyTimer.SoundPicked`); the red test is `StyleSaysRed` |
| LegacyTimer.LegacyWindow.PickSoundIfStarted | desktop_timer.py:901-902 | a raised `apply_settings` leaves the view, the written file and the sound outcome as they were; otherwise they follow `LegacyTimer.SoundPicked` |
| LegacyTimer.LegacyWindow.EnsureSoundsFolder | desktop_timer.py:961-975 | the settings become `LegacyTimer.SoundPicked` of the old ones, and are written at once when the pick is stored |
| LegacyTimer.SoundPicked | desktop_timer.py:961-975 | the pick is stored exactly when the check returns, a pick exists, and `sound_file` is falsy or does not exist; the check raises exactly when `os.path.exists` does |
| LegacyTimer.SoundPickedAgrees | desktop_timer.py:967-975 | the two windows' picks agree exactly unless `sound_file` is a truthy int or bool |
| LegacyTimer.LegacyWindow.SaveSettings | desktop_timer.py:953-959 | the dict is written when the disk is writable, and a failure is ignored |
| LegacyTimer.LegacyWindow.UpdateTrayIcon | desktop_timer.py:1511-1532 | the icon follows the window's state |
| LegacyTimer.LegacyWindow.OnCountdownFinished | desktop_timer.py:1235-1300 | the new state is `Finished` of the old |
| LegacyTimer.LegacyWindow.UpdateTime | desktop_timer.py:1211-1233 | the new state is `Updated` of the old |
| LegacyTimer.LegacyWindow.StepCounter | desktop_timer.py:1213-1222 | the new state is `Counting` of the old |
| LegacyTimer.LegacyWindow.ApplySettings | desktop_timer.py:1055-1102 | the new state is `Applied` of the old |
| LegacyTimer.LegacyWindow.FlashWindow | desktop_timer.py:1302-1328 | the new state is `Flashed` of the old |
| LegacyTimer.LegacyWindow.CountFlash | desktop_timer.py:1318-1328 | the count half of `flash_window` |
| LegacyTimer.LegacyWindow.TogglePause | desktop_timer.py:1330-1353 | the new state is `Toggled` of the old |
| LegacyTimer.LegacyWindow.ResetTimer | desktop_timer.py:1355-1377 | the new state is `Reset` of the old |
| LegacyTimer.LegacyWindow.QuickCountdown | desktop_timer.py:1379-1392 | the new state is `Quick` of the old, and the file is saved |
| LegacyTimer.LegacyWindow.SwitchToCountUp | desktop_timer.py:1494-1498 | the new state is `SwitchedToCountUp` of the old, and the file is saved |

## Left out

- **The Qt event loop and widgets.** Layout, geometry, fonts, `adjustSize`, fullscreen, lock, drag, the theme and dark-mode styles, the system tray menu, and the audio player are not modelled. The window's observable effects are recorded as a list of events.
- **Nested event loop in the finish handler.** `msg.exec()` in `on_countdown_finished` (module/timer_window.py:1170-1246) runs a nested event loop. The flash timer and other slots can therefore run before it returns. The model completes the handler in one step, so "flashing with count 0 on return" holds only in the model.
- **Exceptions escaping a slot.** An exception escaping a PyQt slot ends the program. The model records it as the outcome `Raised` and keeps the state the handler had reached.
- **Non-string `language`.** `LanguageOf` falls back to `zh_CN` for a value that is not a string. Python keys labels by the raw value, and raises TypeError on an unhashable one. The validator resets any other value, so only settings read before validation are affected.
- **Non-string `sound_file` during loading.** A truthy `sound_file` that is not a string makes `os.path.isabs` raise inside `load_settings` (module/timer_window.py:344-358). The whole load then falls back to the defaults. The model keeps the stored value and converts no paths; absolute-to-relative path conversion is left out because it depends on the file system. In the order as written, the conversion's `save_settings(immediate=True)` (module/timer_window.py:354) runs before `_save_timer` exists. Its AttributeError is caught at line 359, so an absolute sound path inside `sounds` discards the whole stored dict for the defaults. In the corrected order that save succeeds.
- **SettingsText.ParseIntText and PyInt model part of `int()`.** Underscores between digits, non-ASCII Unicode digits and OverflowError on an infinite float are not modelled. Values are typed JSON: a boolean is never an integer. Python's `isinstance(x, int)` accepts `True`/`False`, so the source keeps, for example, `{"bg_opacity": true}` (module/timer_window.py:396-399); the model's `SettingsStore.IntIn` and `SettingsStore.NonNeg` treat it as a non-integer, reset it to the default and report a fix.
- **PyJson.Lower folds ASCII letters only.** Python's `str.lower` folds all of Unicode. The mode and action words it is used on are ASCII or Chinese.
- **SettingsStore.ToMap keeps the first value of a repeated key.** `json.load` keeps the last. Parsed settings objects are assumed to have distinct keys.
- **Dict key order.** Dicts keep insertion order. Only `Get`, `Put` and `SetDefault` order and the first-value fallback `next(iter(labels.values()))` are modelled. JSON serialisation order and the order of the file's keys are not.
- **Files and processes.** The settings file is a parameter that is missing, unreadable or parsed. Writes succeed or fail by a parameter. The directory creation, the paths, `get_language`, `_load_lang_json` and the other languages' JSON files are not part of this model.
- **Randomness and time.** `uuid4` is a parameter function that returns an unused id. The wall clock is a parameter, and the timers are modelled as firings.
- **Toasts.** The toast library's presence is a parameter; toast failures are swallowed in the source and are not modelled.
- **TimerWindowModel.TimerWindow.constructor models the corrected order.** The save machinery exists before `load_settings`. The order as written is `ValidateAtStartupAsWritten` (see "## Findings").
- **SettingsDialogModel.SettingsDialog.ApplySettings stores the chosen action's key beside its text.** The as-written write is `DialogSettings.DialogWrites` (see "## Findings").
- **Other settings dialog operations.** These are not modelled:
  - `_preview_language_change`;
  - `apply_selected_preset_to_timer`;
  - the message boxes;
  - the colour pickers, the sound-file browser and the theme page;
  - `PresetEditorDialog.get_result`'s fallback when the editor is closed without `accept`.
- **Dialog details.**
  - The conflicts list holds the raw action names.
  - After `clear()` the selected row is -1.
  - The `countdown_action` box's initial index is the last matching entry.
  - An unhashable `timer_mode_key` raises in the mode box; the model derives from the text instead.
  - A raise from the shortcut loop loses the partial writes before it; the model reports it as None.
- **The legacy settings dialog.** Only its size box and the mode-text tests are modelled; the other widgets write their values directly.
- **LegacyTimer handler details.**
  - The translator is a `string -> string` parameter, so non-string translations are not modelled.
  - `QFont` type errors on a non-string family or a non-integer size are not modelled.
  - A float or string countdown field is reported as a TypeError when the total is taken, with the old counter kept. In the source a float total is accepted. A running countdown from a float total of at most 1 then reaches 0 and finishes without raising (desktop_timer.py:1217-1220). Any other float counter fails the `:02d` format of the label with ValueError. A string field raises at the `+` of the total.
  - The `pause_action` menu text in `toggle_pause` is not modelled.
  - `play_sound`'s checks are folded into the `soundExists` parameter.
- **LegacyTimer.Reset keeps `is_running` when it raises.** With a float countdown field the source has already stopped the counter (desktop_timer.py:1365) when the label's format raises. The model raises earlier, at the total, and keeps the running flag.
- **File descriptors.** The legacy window's `os.path.exists` reads an integer or boolean `sound_file` as a file descriptor. Whether it is open is the parameter `fdOpen`, and `os.stat`'s other outcomes on a descriptor are folded into it.
- **The style sheet's exact text.** `StyleSaysRed` builds the style of `apply_settings` outside full screen. Full screen forces opacity 255, square corners and no padding, and is not modelled. The comment after the padding is left out: it holds no ASCII letter, so it cannot take part in `color: red`. `int(c * 0.6)` is taken exactly on the integer components. `str()` of a float, list, dict or null written into the style is the parameter `show`.
- **The red test is a parameter of the handlers.** `Env.looksRed` and `Host.looksRed` stand for the test. Both windows' constructors fix it to `StyleSaysRed` of the settings, and their contracts say so. Lemmas about single firings assume one answer of the test, and `PlainStyleNotRed`, `RadiusTextLooksRed` and `RedTextLooksRed` decide it for given settings.
- **The sound pick.** The sounds folder's creation, its scan and `random.choice` are the parameter `pick`, the file drawn or None for an empty folder. The relative-path conversion of the later window is folded into `pick` and `soundExists`.
- **LegacyTimer.ApplyFault omits the font's type.** It does not check the font family's or size's type.
- **Logging.** The logging calls are not modelled.

## Findings

| source | as written | input that shows it | evidently intended | confidence | as-written member | corrected member |
|---|---|---|---|---|---|---|
| module/timer_window.py:120 | `load_settings` runs `_validate_and_fix_settings`, whose fix path calls `save_settings(immediate=True)`, and that calls `self._save_timer.stop()` before `_save_timer` is created at lines 153-157 | a settings file `{"bg_opacity": 300}` | the save machinery exists before any fix is saved, so invalid values are repaired and startup continues | not executed | TimerWindowModel.ValidateAtStartupAsWritten, TimerWindowModel.StartupAsWrittenRaises, TimerWindowModel.OpacityOutOfRangeAbortsStartup | TimerWindowModel.TimerWindow.constructor |
| module/settings_dialog.py:1325 | `apply_settings` writes the chosen action's text to `countdown_action` but leaves `countdown_action_key`, which the finish handler reads first, unchanged | stored key `beep`; choose "flash" in the dialog | the chosen action's key is stored too, so the finish handler does what the dialog shows | not executed | DialogSettings.ActionChoiceIgnored, DialogSettings.ActionChoiceIgnoredExample | DialogSettings.DialogWritesFixed, DialogSettings.ActionChoiceTakesEffect |
| desktop_timer.py:862-870 | the size text is checked for '大' before '超大', and "超大" contains '大' | choose "超大" (extra large) with the Chinese translations | extra large stores 120 | not executed | LegacyTimer.FontSizeForTextAsWritten, LegacyTimer.ExtraLargeUnreachable | LegacyTimer.FontSizeForIndex, LegacyTimer.SizeRoundTrip |
