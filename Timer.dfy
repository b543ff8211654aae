/**
 * The timer handlers of the dashboard component as a class whose fields are
 * the component's timer state. Each method updates the fields the handler
 * sets and is proved to reach the state `TimerSpec` prescribes, keeping the
 * invariant `TimerSpec.Inv`.
 */
module Timer {
  import opened Wrappers
  import TimerSpec

  class FocusTimer {
    /** True for the modular build, which also rewrites the editor text on completion. */
    const resetEdit: bool

    var savedDuration: int
    var mode: TimerSpec.Mode
    var timeLeft: int
    var active: bool
    var duration: int
    var fullScreen: bool
    var editing: bool
    var editText: string

    /** The abstract value of the fields. */
    function State(): TimerSpec.TimerState
      reads this
    {
      TimerSpec.TimerState(savedDuration, mode, timeLeft, active, duration, fullScreen, editing, editText)
    }

    ghost predicate Valid()
      reads this
    {
      TimerSpec.Inv(State())
    }

    /** Mounting the component; `stored` is the persisted focus length, if any. */
    constructor (stored: Option<int>, resetEdit: bool)
      requires stored.Some? ==> TimerSpec.ValidDuration(stored.value)
      ensures Valid() && State() == TimerSpec.Initial(stored)
      ensures this.resetEdit == resetEdit
    {
      this.resetEdit := resetEdit;
      var saved := stored.GetOr(TimerSpec.DefaultSavedSeconds);
      savedDuration := saved;
      mode := TimerSpec.Focus;
      timeLeft := saved;
      active := false;
      duration := saved;
      fullScreen := false;
      editing := false;
      editText := TimerSpec.MinutesText(saved);
    }

    /** The one-second interval callback. */
    method Tick()
      requires Valid()
      modifies this
      ensures Valid() && State() == TimerSpec.Tick(old(State()))
    {
      if active && timeLeft > 0 {
        timeLeft := timeLeft - 1;
      }
      assert State() == TimerSpec.Tick(old(State()));
    }

    /** Phase completion; also what the skip button runs. */
    method Complete()
      requires Valid()
      modifies this
      ensures Valid() && State() == TimerSpec.Complete(old(State()), resetEdit)
    {
      ghost var target := TimerSpec.Complete(State(), resetEdit);
      var isFocus := mode == TimerSpec.Focus;
      var nextMode := if isFocus then TimerSpec.ShortBreak else TimerSpec.Focus;
      var nextDuration := if isFocus then TimerSpec.BreakSeconds else savedDuration;
      mode := nextMode;
      duration := nextDuration;
      timeLeft := nextDuration;
      if resetEdit {
        editText := TimerSpec.MinutesText(nextDuration);
      }
      active := false;
      assert State() == target;
    }

    /** The countdown effect: completes a running phase that has reached zero. */
    method Settle()
      requires Valid()
      modifies this
      ensures Valid() && State() == TimerSpec.Settle(old(State()), resetEdit)
    {
      if active && timeLeft > 0 {
        // the interval is armed; Tick does the counting
      } else if timeLeft == 0 && active {
        Complete();
      }
      assert State() == TimerSpec.Settle(old(State()), resetEdit);
    }

    /** The overlay's play/pause button. */
    method ToggleActive()
      requires Valid()
      modifies this
      ensures Valid() && State() == TimerSpec.ToggleActive(old(State()))
    {
      active := !active;
      assert State() == TimerSpec.ToggleActive(old(State()));
    }

    /** The dashboard's play button. */
    method Play()
      requires Valid()
      modifies this
      ensures Valid() && State() == TimerSpec.Play(old(State()))
    {
      if !active {
        fullScreen := true;
      }
      active := !active;
      assert State() == TimerSpec.Play(old(State()));
    }

    /** The status card's button. */
    method OpenOverlay()
      requires Valid()
      modifies this
      ensures Valid() && State() == TimerSpec.OpenOverlay(old(State()))
    {
      fullScreen := true;
      assert State() == TimerSpec.OpenOverlay(old(State()));
    }

    /** The overlay's close button. */
    method ExitOverlay()
      requires Valid()
      modifies this
      ensures Valid() && State() == TimerSpec.ExitOverlay(old(State()))
    {
      fullScreen := false;
      assert State() == TimerSpec.ExitOverlay(old(State()));
    }

    /** Clicking the clock to edit it. */
    method BeginEdit()
      requires Valid()
      modifies this
      ensures Valid() && State() == TimerSpec.BeginEdit(old(State()))
    {
      editing := true;
      editText := TimerSpec.MinutesText(timeLeft);
      assert State() == TimerSpec.BeginEdit(old(State()));
    }

    /** A change event from the minutes editor. */
    method TypeEdit(text: string)
      requires Valid()
      modifies this
      ensures Valid() && State() == TimerSpec.TypeEdit(old(State()), text)
    {
      if TimerSpec.AcceptedEditText(text) {
        editText := text;
      }
      assert State() == TimerSpec.TypeEdit(old(State()), text);
    }

    /** Blur or Enter in the minutes editor. */
    method SaveEdit()
      requires Valid()
      modifies this
      ensures Valid() && State() == TimerSpec.SaveEdit(old(State()))
    {
      editing := false;
      var m := TimerSpec.EditedMinutes(editText);
      var seconds := m * 60;
      savedDuration := seconds;
      duration := seconds;
      timeLeft := seconds;
      assert State() == TimerSpec.SaveEdit(old(State()));
    }
  }
}
