/*
 * The state machine under the main window (module/timer_window.py) as
 * pure functions: the 1 s tick of the counter modes, the bounded flash
 * counter, the tray-icon choice, the debounced-save flag protocol and the
 * clock-mode text. The window class applies these to its fields.
 */
module TimerCore {
  import opened PyJson
  import opened SettingsText
  import opened SettingsStore
  import Constants

  // ---------------------------------------------------------------------
  // Tray icon
  // ---------------------------------------------------------------------

  /** The Qt standard icons the tray shows. */
  datatype Icon = InfoIcon | PlayIcon | StopIcon | PauseIcon

  /** `update_tray_icon`: flashing first, then running, then whether the counter is at zero. */
  function TrayIconFor(flashing: bool, running: bool, elapsed: int): (r: Icon)
    ensures r == InfoIcon <==> flashing
    ensures r == PlayIcon <==> !flashing && running
    ensures r == StopIcon <==> !flashing && !running && elapsed == 0
    ensures r == PauseIcon <==> !flashing && !running && elapsed != 0
  {
    if flashing then InfoIcon else if running then PlayIcon else if elapsed == 0 then StopIcon else PauseIcon
  }

  // ---------------------------------------------------------------------
  // The counter tick (update_time outside clock mode)
  // ---------------------------------------------------------------------

  /** `elapsed_seconds` and `is_running`. */
  datatype Counter = Counter(elapsed: int, running: bool)

  /**
   * One tick. A running countdown goes down by one and, on reaching zero
   * or below, is clamped to zero and stopped, with `finished` reporting
   * that `on_countdown_finished` runs; a running count-up goes up by one;
   * a stopped counter is left alone.
   */
  function Tick(c: Counter, countdown: bool): (r: (Counter, bool))
    ensures r.1 ==> c.running && countdown && r.0 == Counter(0, false)
    ensures !c.running ==> r.0 == c
    ensures r.0.running ==> r.0.elapsed == (if countdown then c.elapsed - 1 else c.elapsed + 1) && c.running
    ensures countdown && c.running ==> (r.1 <==> c.elapsed <= 1)
  {
    if !c.running then (c, false)
    else if countdown then
      if c.elapsed - 1 <= 0 then (Counter(0, false), true) else (Counter(c.elapsed - 1, true), false)
    else (Counter(c.elapsed + 1, true), false)
  }

  /** `n` ticks: the final counter and how many times the countdown finished. */
  function Run(c: Counter, countdown: bool, n: nat): (Counter, nat)
    decreases n
  {
    if n == 0 then (c, 0)
    else
      var (c1, fin) := Tick(c, countdown);
      var (c2, k) := Run(c1, countdown, n - 1);
      (c2, k + if fin then 1 else 0)
  }

  /** A stopped counter stays where it is and never finishes. */
  lemma {:induction false} RunStopped(c: Counter, countdown: bool, n: nat)
    requires !c.running
    ensures Run(c, countdown, n) == (c, 0)
    decreases n
  {
    if n > 0 {
      RunStopped(c, countdown, n - 1);
    }
  }

  /** A countdown started at `n` seconds is still running after fewer than `n` ticks. */
  lemma {:induction false} CountdownBeforeZero(n: int, k: nat)
    requires k < n
    ensures Run(Counter(n, true), true, k) == (Counter(n - k, true), 0)
    decreases k
  {
    if k > 0 {
      CountdownBeforeZero(n - 1, k - 1);
    }
  }

  /**
   * A countdown started at `n >= 1` seconds reaches zero after exactly `n`
   * ticks, stops, and fires the finish handler exactly once however many
   * more ticks follow.
   */
  lemma {:induction false} CountdownFinishesOnce(n: int, extra: nat)
    requires n >= 1
    ensures Run(Counter(n, true), true, n + extra) == (Counter(0, false), 1)
    decreases n
  {
    if n == 1 {
      RunStopped(Counter(0, false), true, extra);
    } else {
      CountdownFinishesOnce(n - 1, extra);
    }
  }

  /** A running count-up adds one per tick and never finishes. */
  lemma {:induction false} CountUpRuns(e: int, n: nat)
    ensures Run(Counter(e, true), false, n) == (Counter(e + n, true), 0)
    decreases n
  {
    if n > 0 {
      CountUpRuns(e + 1, n - 1);
    }
  }

  // ---------------------------------------------------------------------
  // Flashing (flash_window)
  // ---------------------------------------------------------------------

  /** `is_flashing`, `flash_count` and whether the label currently has the red style. */
  datatype Flash = Flash(flashing: bool, count: int, red: bool)

  /**
   * One firing of the flash timer that gets through the restyle: the label
   * toggles between red and the normal style, and after `FLASH_COUNT_MAX`
   * toggles flashing ends with the count back at zero. When not flashing
   * the timer is stopped and the normal style restored.
   */
  function FlashStep(f: Flash): (r: Flash)
    ensures !f.flashing ==> r == Flash(false, f.count, false)
    ensures f.flashing ==> r.red == !f.red
    ensures f.flashing ==> (r.flashing <==> f.count + 1 < Constants.FlashCountMax)
    ensures f.flashing ==> r.count == if r.flashing then f.count + 1 else 0
  {
    if !f.flashing then Flash(false, f.count, false)
    else if f.count + 1 >= Constants.FlashCountMax then Flash(false, 0, !f.red)
    else Flash(true, f.count + 1, !f.red)
  }

  function FlashSteps(f: Flash, n: nat): Flash
    decreases n
  {
    if n == 0 then f else FlashSteps(FlashStep(f), n - 1)
  }

  /** While fewer than six toggles have happened the window keeps flashing, red on every odd step. */
  lemma {:induction false} FlashingBeforeMax(k: nat)
    requires k < Constants.FlashCountMax
    ensures FlashSteps(Flash(true, 0, false), k) == Flash(true, k, k % 2 == 1)
    decreases k
  {
    if k > 0 {
      FlashingBeforeMax(k - 1);
      FlashStepsSnoc(Flash(true, 0, false), k - 1);
    }
  }

  lemma {:induction false} FlashStepsSnoc(f: Flash, n: nat)
    ensures FlashSteps(f, n + 1) == FlashStep(FlashSteps(f, n))
    decreases n
  {
    if n > 0 {
      FlashStepsSnoc(FlashStep(f), n - 1);
    }
  }

  /**
   * A flash started by the finish handler ends after exactly six toggles
   * (three red phases at `FLASH_INTERVAL` ms each): flashing is off, the
   * count is back at zero and the normal style is shown.
   */
  lemma FlashEndsAfterMax()
    ensures Constants.FlashCountMax == 6 && Constants.FlashInterval == 500
    ensures FlashSteps(Flash(true, 0, false), Constants.FlashCountMax) == Flash(false, 0, false)
  {
    FlashingBeforeMax(5);
    FlashStepsSnoc(Flash(true, 0, false), 5);
  }

  // ---------------------------------------------------------------------
  // Debounced saving (save_settings / _do_save_settings)
  // ---------------------------------------------------------------------

  /** `_pending_save`, whether the single-shot save timer is armed, and how many writes succeeded. */
  datatype SaveState = SaveState(pending: bool, armed: bool, writes: nat)

  /** `_do_save_settings`: nothing when no save is pending; the flag clears only when the write succeeds. */
  function DoSave(st: SaveState, writeOk: bool): (r: SaveState)
    ensures !st.pending ==> r == st
    ensures st.pending && writeOk ==> r == SaveState(false, st.armed, st.writes + 1)
    ensures st.pending && !writeOk ==> r == st
  {
    if !st.pending then st
    else if writeOk then SaveState(false, st.armed, st.writes + 1)
    else st
  }

  /**
   * `save_settings(immediate)`: both paths set the flag and stop the timer;
   * the immediate path writes at once, the deferred one re-arms the timer.
   */
  function Save(st: SaveState, immediate: bool, writeOk: bool): (r: SaveState)
    ensures !immediate ==> r == SaveState(true, true, st.writes)
    ensures immediate ==> !r.armed
    ensures immediate && writeOk ==> r == SaveState(false, false, st.writes + 1)
    ensures immediate && !writeOk ==> r == SaveState(true, false, st.writes)
  {
    if immediate then DoSave(SaveState(true, false, st.writes), writeOk)
    else SaveState(true, true, st.writes)
  }

  /** The single-shot timer fires. */
  function Fire(st: SaveState, writeOk: bool): (r: SaveState)
    requires st.armed
    ensures !r.armed
  {
    DoSave(st.(armed := false), writeOk)
  }

  /** `n` deferred saves in a row. */
  function DeferredSaves(st: SaveState, n: nat): SaveState
    decreases n
  {
    if n == 0 then st else DeferredSaves(Save(st, false, true), n - 1)
  }

  /** A burst of deferred saves leaves one armed timer and no write yet. */
  lemma {:induction false} DeferredSavesArm(st: SaveState, n: nat)
    requires n >= 1
    ensures DeferredSaves(st, n) == SaveState(true, true, st.writes)
    decreases n
  {
    if n > 1 {
      DeferredSavesArm(Save(st, false, true), n - 1);
    }
  }

  /** However many deferred saves come in a burst, the timer firing writes the file exactly once. */
  lemma DebounceWritesOnce(st: SaveState, n: nat)
    requires n >= 1
    ensures DeferredSaves(st, n).armed
    ensures Fire(DeferredSaves(st, n), true) == SaveState(false, false, st.writes + 1)
    ensures Fire(DeferredSaves(st, n), false) == SaveState(true, false, st.writes)
  {
    DeferredSavesArm(st, n);
  }

  /** A failed write is retried by the next save: the flag stays set until a write succeeds. */
  lemma FailedWriteRetried(st: SaveState)
    ensures Save(Save(st, true, false), true, true) == SaveState(false, false, st.writes + 1)
    ensures DoSave(DoSave(st, false), true) == DoSave(st, true)
  {
  }

  // ---------------------------------------------------------------------
  // Clock mode text
  // ---------------------------------------------------------------------

  /**
   * The wall clock as Qt formats it: the date, the 24-hour and 12-hour
   * times with and without seconds, and the hour of the day.
   */
  datatype WallClock = WallClock(date: string, hms24: string, hm24: string, hms12: string, hm12: string, hour: int)

  predicate EndsWith(s: string, t: string)
  {
    |t| <= |s| && s[|s| - |t|..] == t
  }

  /**
   * The clock-mode text. In 12-hour mode the AM/PM marker is placed next to
   * the time, so when the date is shown it comes first and the marker never
   * precedes it.
   */
  function ClockDisplay(s: Settings, now: WallClock): string
  {
    var showDate := Truthy(GetOr(s, "clock_show_date", JBool(false)));
    var secs := Truthy(GetOr(s, "clock_show_seconds", JBool(true)));
    var time :=
      if Truthy(GetOr(s, "clock_format_24h", JBool(true))) then (if secs then now.hms24 else now.hm24)
      else
        var base := if secs then now.hms12 else now.hm12;
        if Truthy(GetOr(s, "clock_show_am_pm", JBool(true))) then
          WithIndicator(AmPmIndicator(now.hour, GetOr(s, "clock_am_pm_style", JStr("zh"))), base,
                        GetOr(s, "clock_am_pm_position", JStr("before")))
        else base;
    if showDate then now.date + " " + time else time
  }

  /**
   * The clock shows the configured time text at its end: 24-hour time, or
   * 12-hour time with the AM/PM marker before or after it when the marker
   * is on; the date comes first when it is shown.
   */
  lemma ClockDisplayShows(s: Settings, now: WallClock)
    ensures var time24 := if Truthy(GetOr(s, "clock_show_seconds", JBool(true))) then now.hms24 else now.hm24;
      Truthy(GetOr(s, "clock_format_24h", JBool(true))) ==> EndsWith(ClockDisplay(s, now), time24)
    ensures Truthy(GetOr(s, "clock_show_date", JBool(false))) ==> StartsWith(ClockDisplay(s, now), now.date + " ")
    ensures var time12 := if Truthy(GetOr(s, "clock_show_seconds", JBool(true))) then now.hms12 else now.hm12;
      var marker := AmPmIndicator(now.hour, GetOr(s, "clock_am_pm_style", JStr("zh")));
      !Truthy(GetOr(s, "clock_format_24h", JBool(true))) ==>
        if Truthy(GetOr(s, "clock_show_am_pm", JBool(true)))
        then EndsWith(ClockDisplay(s, now), WithIndicator(marker, time12, GetOr(s, "clock_am_pm_position", JStr("before"))))
        else EndsWith(ClockDisplay(s, now), time12)
  {
    var r := ClockDisplay(s, now);
    if Truthy(GetOr(s, "clock_show_date", JBool(false))) {
      assert r[..|now.date + " "|] == now.date + " ";
    }
  }
}
