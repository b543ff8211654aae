/**
 * The focus timer of the dashboard as a pure state machine.
 *
 * A `TimerState` holds the eight pieces of component state the timer
 * handlers read and write (the stored focus length, the mode, the seconds
 * left, the running flag, the length of the current phase, the overlay flag,
 * the editor flag and the editor's text). Every handler is a function from
 * the state before to the state after; the class `Timer.FocusTimer` performs
 * the same updates field by field and is proved against these functions.
 *
 * The two copies of the component differ in one place: the modular build
 * (App.tsx) also rewrites the editor text when a phase completes, the
 * single-file build (index.tsx) does not. The flag `resetEdit` selects the
 * modular behaviour.
 */
module TimerSpec {
  import opened Wrappers
  import opened Decimal

  /** Length of the short break, in seconds (five minutes). */
  const BreakSeconds: int := 5 * 60
  /** Focus length used when no preference is stored, in seconds. */
  const DefaultSavedSeconds: int := 1500
  /** Minutes used when the editor text is empty or reads as zero. */
  const DefaultEditMinutes: int := 25
  /** The editor accepts at most this many digits. */
  const MaxEditDigits: int := 3

  datatype Mode = Focus | ShortBreak | LongBreak

  datatype TimerState = TimerState(
    savedDuration: int,   // the focus length preference, in seconds
    mode: Mode,
    timeLeft: int,        // seconds left in the current phase
    active: bool,         // the countdown is running
    duration: int,        // length of the current phase, in seconds
    fullScreen: bool,     // the full-screen overlay is shown
    editing: bool,        // the minutes editor is open
    editText: string      // the editor's text
  )

  /** A focus length the editor can produce: a whole number of minutes from 1 to 999. */
  predicate ValidDuration(d: int) {
    60 <= d <= 999 * 60 && d % 60 == 0
  }

  /** Text the editor's input filter lets through: zero to three ASCII digits. */
  predicate AcceptedEditText(text: string) {
    |text| <= MaxEditDigits && AllDigits(text)
  }

  /** What every reachable state satisfies. */
  ghost predicate Inv(s: TimerState) {
    && ValidDuration(s.savedDuration)
    && s.mode != LongBreak
    && (s.mode == Focus ==> s.duration == s.savedDuration)
    && (s.mode == ShortBreak ==> s.duration == BreakSeconds || s.duration == s.savedDuration)
    && 0 <= s.timeLeft <= s.duration
    && AcceptedEditText(s.editText)
  }

  /** Whole minutes of `seconds`, as the editor shows them. */
  function MinutesText(seconds: int): (text: string)
    ensures 0 <= seconds ==> AllDigits(text) && ParseInt(text) == Some(seconds / 60)
  {
    ParseIntOfIntToString(seconds / 60);
    IntToString(seconds / 60)
  }

  /** Up to 999 minutes and 59 seconds show as at most three digits. */
  lemma MinutesTextAccepted(seconds: int)
    ensures 0 <= seconds <= 999 * 60 + 59 ==> AcceptedEditText(MinutesText(seconds))
  {
    if 0 <= seconds <= 999 * 60 + 59 {
      NatToStringLength(seconds / 60, 3);
    }
  }

  /**
   * The state at start-up. `stored` is the persisted focus length, absent
   * when nothing was stored.
   */
  function Initial(stored: Option<int>): (s: TimerState)
    requires stored.Some? ==> ValidDuration(stored.value)
    ensures Inv(s)
    ensures s.mode == Focus && !s.active && !s.fullScreen && !s.editing
    ensures s.timeLeft == s.duration == s.savedDuration
    ensures stored.None? ==> s.savedDuration == DefaultSavedSeconds
    ensures stored.Some? ==> s.savedDuration == stored.value
    ensures s.editText == MinutesText(s.savedDuration)
  {
    var saved := stored.GetOr(DefaultSavedSeconds);
    MinutesTextAccepted(saved);
    TimerState(saved, Focus, saved, false, saved, false, false, MinutesText(saved))
  }

  /** One firing of the one-second interval callback. */
  function Tick(s: TimerState): (r: TimerState)
    ensures Inv(s) ==> Inv(r)
    ensures s.timeLeft >= 0 ==> r.timeLeft >= 0
    ensures r.timeLeft == s.timeLeft - 1 || r == s
    ensures r.timeLeft < s.timeLeft <==> s.active && s.timeLeft > 0
    ensures r.(timeLeft := s.timeLeft) == s
  {
    if s.active && s.timeLeft > 0 then s.(timeLeft := s.timeLeft - 1) else s
  }

  /**
   * Phase completion (also the skip button): focus is followed by a short
   * break, anything else by focus at the current preference; the new phase
   * starts full and paused.
   */
  function Complete(s: TimerState, resetEdit: bool): (r: TimerState)
    ensures Inv(s) ==> Inv(r)
    ensures !r.active && r.timeLeft == r.duration
    ensures s.mode == Focus ==> r.mode == ShortBreak && r.duration == BreakSeconds
    ensures s.mode != Focus ==> r.mode == Focus && r.duration == s.savedDuration
    ensures r.savedDuration == s.savedDuration
    ensures r.fullScreen == s.fullScreen && r.editing == s.editing
    ensures resetEdit ==> r.editText == MinutesText(r.duration)
    ensures !resetEdit ==> r.editText == s.editText
  {
    var isFocus := s.mode == Focus;
    var nextMode := if isFocus then ShortBreak else Focus;
    var nextDuration := if isFocus then BreakSeconds else s.savedDuration;
    var r := s.(mode := nextMode, duration := nextDuration, timeLeft := nextDuration, active := false);
    if resetEdit then
      MinutesTextAccepted(nextDuration);
      r.(editText := MinutesText(nextDuration))
    else r
  }

  /**
   * The countdown effect when it does not arm the interval: completion runs
   * when the countdown is running and has reached zero.
   */
  function Settle(s: TimerState, resetEdit: bool): (r: TimerState)
    ensures Inv(s) ==> Inv(r)
    ensures r != s ==> s.active && s.timeLeft == 0
    ensures s.active && s.timeLeft == 0 ==> r == Complete(s, resetEdit)
  {
    if s.active && s.timeLeft > 0 then s
    else if s.timeLeft == 0 && s.active then Complete(s, resetEdit)
    else s
  }

  /** The overlay's play/pause button: flips the running flag only. */
  function ToggleActive(s: TimerState): (r: TimerState)
    ensures Inv(s) ==> Inv(r)
    ensures r.active == !s.active
    ensures r.(active := s.active) == s
  {
    s.(active := !s.active)
  }

  /**
   * The dashboard's play button: flips the running flag, and opens the
   * overlay when the timer was stopped.
   */
  function Play(s: TimerState): (r: TimerState)
    ensures Inv(s) ==> Inv(r)
    ensures r.active == !s.active
    ensures r.fullScreen == (s.fullScreen || !s.active)
    ensures r.(active := s.active, fullScreen := s.fullScreen) == s
  {
    s.(fullScreen := if !s.active then true else s.fullScreen, active := !s.active)
  }

  /** The status card's button: shows the overlay. */
  function OpenOverlay(s: TimerState): (r: TimerState)
    ensures Inv(s) ==> Inv(r)
    ensures r.fullScreen && r.(fullScreen := s.fullScreen) == s
  {
    s.(fullScreen := true)
  }

  /** The overlay's close button: hides the overlay and changes nothing else. */
  function ExitOverlay(s: TimerState): (r: TimerState)
    ensures Inv(s) ==> Inv(r)
    ensures !r.fullScreen && r.(fullScreen := s.fullScreen) == s
  {
    s.(fullScreen := false)
  }

  /** Clicking the clock: opens the editor on the whole minutes left. */
  function BeginEdit(s: TimerState): (r: TimerState)
    ensures Inv(s) ==> Inv(r)
    ensures r.editing && r.editText == MinutesText(s.timeLeft)
    ensures r.(editing := s.editing, editText := s.editText) == s
  {
    MinutesTextAccepted(s.timeLeft);
    s.(editing := true, editText := MinutesText(s.timeLeft))
  }

  /** A change in the editor: kept only when it is zero to three digits. */
  function TypeEdit(s: TimerState, text: string): (r: TimerState)
    ensures Inv(s) ==> Inv(r)
    ensures AcceptedEditText(text) ==> r.editText == text
    ensures !AcceptedEditText(text) ==> r.editText == s.editText
    ensures r.(editText := s.editText) == s
  {
    if AcceptedEditText(text) then s.(editText := text) else s
  }

  /**
   * The minutes the editor text stands for: the parsed number, or 25 when
   * it parses as NaN (empty text) or as zero.
   */
  function EditedMinutes(text: string): (m: int)
    ensures 1 <= m
    ensures |text| <= MaxEditDigits ==> m <= 999
    ensures ParseInt(text).Some? && ParseInt(text).value != 0 ==> m == ParseInt(text).value
    ensures ParseInt(text).None? || ParseInt(text).value == 0 ==> m == DefaultEditMinutes
  {
    match ParseInt(text)
    case None => DefaultEditMinutes
    case Some(v) => if v == 0 then DefaultEditMinutes else v
  }

  /**
   * Leaving the editor: the preference, the phase length and the seconds
   * left all become the edited minutes times 60; mode and running flag stay.
   */
  function SaveEdit(s: TimerState): (r: TimerState)
    ensures Inv(s) ==> Inv(r)
    ensures !r.editing
    ensures r.savedDuration == r.duration == r.timeLeft == EditedMinutes(s.editText) * 60
    ensures AcceptedEditText(s.editText) ==> ValidDuration(r.savedDuration)
    ensures r.mode == s.mode && r.active == s.active
    ensures r.fullScreen == s.fullScreen && r.editText == s.editText
  {
    var seconds := EditedMinutes(s.editText) * 60;
    s.(editing := false, savedDuration := seconds, duration := seconds, timeLeft := seconds)
  }

  /** The inputs the timer reacts to. */
  datatype Event =
    | Second            // the interval callback fires
    | Effect            // the countdown effect runs without arming the interval
    | Skip              // the overlay's skip button
    | OverlayToggle     // the overlay's play/pause button
    | PlayButton        // the dashboard's play button
    | StatusButton      // the status card's button
    | CloseOverlay      // the overlay's close button
    | ClickClock        // clicking the clock to edit
    | Type(text: string)
    | Commit            // blur or Enter in the editor

  function Step(s: TimerState, e: Event, resetEdit: bool): (r: TimerState)
    ensures Inv(s) ==> Inv(r)
  {
    match e
    case Second => Tick(s)
    case Effect => Settle(s, resetEdit)
    case Skip => Complete(s, resetEdit)
    case OverlayToggle => ToggleActive(s)
    case PlayButton => Play(s)
    case StatusButton => OpenOverlay(s)
    case CloseOverlay => ExitOverlay(s)
    case ClickClock => BeginEdit(s)
    case Type(text) => TypeEdit(s, text)
    case Commit => SaveEdit(s)
  }

  function Run(s: TimerState, events: seq<Event>, resetEdit: bool): TimerState
    decreases |events|
  {
    if events == [] then s else Run(Step(s, events[0], resetEdit), events[1..], resetEdit)
  }

  /** Every event sequence keeps the invariant. */
  lemma {:induction false} RunPreservesInv(s: TimerState, events: seq<Event>, resetEdit: bool)
    requires Inv(s)
    ensures Inv(Run(s, events, resetEdit))
    decreases |events|
  {
    if events != [] {
      RunPreservesInv(Step(s, events[0], resetEdit), events[1..], resetEdit);
    }
  }

  /**
   * From start-up, whatever happens: never a long break, never a negative or
   * overfull countdown, and the preference is always a positive whole number
   * of minutes.
   */
  lemma Reachable(stored: Option<int>, events: seq<Event>, resetEdit: bool)
    requires stored.Some? ==> ValidDuration(stored.value)
    ensures var s := Run(Initial(stored), events, resetEdit);
      && s.mode != LongBreak
      && 0 <= s.timeLeft <= s.duration
      && ValidDuration(s.savedDuration)
  {
    RunPreservesInv(Initial(stored), events, resetEdit);
  }

  /** `n` firings of the interval callback. */
  function Ticks(s: TimerState, n: nat): TimerState
    decreases n
  {
    if n == 0 then s else Ticks(Tick(s), n - 1)
  }

  /** A running countdown with at least `n` seconds left loses exactly `n`. */
  lemma {:induction false} TicksCountDown(s: TimerState, n: nat)
    requires s.active && n <= s.timeLeft
    ensures Ticks(s, n) == s.(timeLeft := s.timeLeft - n)
    decreases n
  {
    if n > 0 {
      TicksCountDown(Tick(s), n - 1);
    }
  }

  /** A stopped countdown does not move, however many callbacks fire. */
  lemma {:induction false} TicksWhilePaused(s: TimerState, n: nat)
    requires !s.active
    ensures Ticks(s, n) == s
    decreases n
  {
    if n > 0 {
      TicksWhilePaused(Tick(s), n - 1);
    }
  }

  /**
   * Skipping is the same transition as running down to zero: a running
   * phase skipped at any moment ends in exactly the state reached by letting
   * it count down and complete.
   */
  lemma SkipMatchesNaturalCompletion(s: TimerState, resetEdit: bool)
    requires s.active && s.timeLeft >= 0
    ensures Complete(s, resetEdit) == Settle(Ticks(s, s.timeLeft), resetEdit)
  {
    TicksCountDown(s, s.timeLeft);
    var z := Ticks(s, s.timeLeft);
    assert z == s.(timeLeft := 0);
    assert Complete(z, resetEdit) == Complete(s, resetEdit);
  }

  /**
   * A focus phase followed by a break returns to a fresh, paused focus phase
   * at the current preference.
   */
  lemma FocusBreakCycle(s: TimerState, resetEdit: bool)
    requires Inv(s) && s.mode == Focus
    ensures var r := Complete(Complete(s, resetEdit), resetEdit);
      && r.mode == Focus && !r.active
      && r.duration == r.timeLeft == s.savedDuration == s.duration
      && r.savedDuration == s.savedDuration
  {
  }

  /**
   * Opening the editor and leaving it without typing rounds the countdown
   * down to whole minutes, or resets it to 25 minutes when under a minute
   * was left.
   */
  lemma EditWithoutTyping(s: TimerState)
    requires Inv(s)
    ensures var r := SaveEdit(BeginEdit(s));
      && r.timeLeft == r.duration == r.savedDuration
      && r.timeLeft == (if s.timeLeft >= 60 then s.timeLeft / 60 * 60 else DefaultEditMinutes * 60)
      && r.timeLeft >= s.timeLeft - 59
  {
    ParseIntOfNatToString(s.timeLeft / 60);
  }

  /**
   * An editor left open across the end of a focus phase: the modular build
   * rewrites its text to the break's minutes, so leaving the editor then makes
   * five minutes the focus length; the single-file build keeps what was typed.
   */
  lemma EditOpenAcrossCompletion(s: TimerState)
    requires s.mode == Focus && s.editing
    ensures SaveEdit(Complete(s, true)).savedDuration == BreakSeconds
    ensures SaveEdit(Complete(s, false)).savedDuration == EditedMinutes(s.editText) * 60
  {
    assert Complete(s, true).editText == MinutesText(BreakSeconds);
    assert ParseInt(MinutesText(BreakSeconds)) == Some(5);
  }

  /**
   * Typing an accepted number of minutes and leaving the editor sets the
   * preference, the phase length and the countdown to that many minutes.
   */
  lemma EditMinutes(s: TimerState, m: nat)
    requires 1 <= m <= 999
    ensures var r := SaveEdit(TypeEdit(BeginEdit(s), NatToString(m)));
      && r.savedDuration == r.duration == r.timeLeft == m * 60
      && r.mode == s.mode && r.active == s.active
  {
    NatToStringLength(m, 3);
    ParseIntOfNatToString(m);
  }

  /**
   * A session from an empty store: edit the focus length to 10 minutes,
   * start, run down, take the break, run it down, and land on a paused
   * 10-minute focus phase (the edited preference survives the cycle).
   */
  lemma FreshSessionScenario(resetEdit: bool)
    ensures var s0 := Initial(None);
      var s1 := SaveEdit(TypeEdit(BeginEdit(s0), "10"));
      var s2 := Play(s1);
      var s3 := Settle(Ticks(s2, 600), resetEdit);
      var s4 := Settle(Ticks(ToggleActive(s3), 300), resetEdit);
      && s0.savedDuration == 1500
      && s1.mode == Focus && s1.duration == 600 && s1.timeLeft == 600
      && s2.active && s2.fullScreen
      && s3.mode == ShortBreak && s3.duration == 300 && s3.timeLeft == 300 && !s3.active
      && s4.mode == Focus && s4.duration == 600 && s4.timeLeft == 600 && !s4.active
      && s4.savedDuration == 600
  {
    var s0 := Initial(None);
    var typed := TypeEdit(BeginEdit(s0), "10");
    assert typed.editText == NatToString(10);
    ParseIntOfNatToString(10);
    var s1 := SaveEdit(typed);
    var s2 := Play(s1);
    TicksCountDown(s2, 600);
    var s3 := Settle(Ticks(s2, 600), resetEdit);
    TicksCountDown(ToggleActive(s3), 300);
  }
}
