/**
  The interaction state machine of the countdown timer.

  The state is the four scalars the C file keeps as statics: the dialled
  duration, the elapsed progress, the minute/second granularity and the
  running flag. Each button handler and the one-second callback is a pure
  function from a state to the next state together with the effects the
  handler has on the screen, the tick scheduler and the vibration motor.
  A tick may arrive in any state: the reset path forgets the pending
  callback without cancelling it.
 */
module Timer {
  import opened Options
  import AmountText

  /** Longest duration the buttons can dial in: one hour, in seconds. */
  const MaxAmount: int := 3600
  const MinuteStep: int := 60
  const SecondStep: int := 1
  /** The vibration enqueued on completion, segment durations in milliseconds. */
  const CompletionPattern: seq<nat> := [100, 500, 100, 500, 100]
  /** The label the reset path writes. */
  const ResetLabel: string := "00 : 00"

  datatype State = State(amount: int, progress: int, minuteMode: bool, activated: bool)

  /**
    What a handler does outside the four fields:
    - `labelText`: text written into the duration label, if any;
    - `labelHidden`: visibility given to the label, if changed;
    - `schedulesTick`: a new one-second callback is registered;
    - `releasesTick`: the handle of a callback that may still be pending is
      overwritten without being cancelled (the tick handler also clears the
      handle; while a single callback chain is pending, that is the handle
      of the callback now running);
    - `redraws`: the progress surface is marked dirty;
    - `vibration`: the vibration pattern enqueued, if any.
   */
  datatype Effects = Effects(
    labelText: Option<string>,
    labelHidden: Option<bool>,
    schedulesTick: bool,
    releasesTick: bool,
    redraws: bool,
    vibration: Option<seq<nat>>)

  const NoEffects: Effects := Effects(None, None, false, false, false, None)

  datatype Outcome = Outcome(next: State, effects: Effects)

  datatype Event = SelectPress | SelectHold | UpPress | DownPress | TickFired

  /** The state the window is loaded with. */
  function Init(): (s: State)
    ensures Valid(s) && !s.activated && !s.minuteMode
    ensures AmountText.Text(s.amount) == ResetLabel
  {
    State(0, 0, false, false)
  }

  /**
    The states the handlers keep to: a duration within [0, `MaxAmount`],
    a progress within the same range, and while running a positive
    duration that the progress has not passed.
   */
  predicate Valid(s: State) {
    && 0 <= s.amount <= MaxAmount
    && 0 <= s.progress <= MaxAmount
    && (s.activated ==> 0 < s.amount && s.progress <= s.amount)
  }

  /** How far one UP or DOWN press moves the duration before clamping. */
  function StepSize(minuteMode: bool): (d: int)
    ensures d > 0
    ensures minuteMode ==> d == MinuteStep
    ensures !minuteMode ==> d == SecondStep
  {
    if minuteMode then MinuteStep else SecondStep
  }

  /**
    The shared stop path: the timer stops and the duration and the
    granularity go back to their defaults while the progress is kept; the
    label is shown again reading the zero duration.
   */
  function Reset(s: State): (o: Outcome)
    ensures o.next == s.(amount := 0, minuteMode := false, activated := false)
    ensures o.effects.labelText == Some(AmountText.Text(o.next.amount))
    ensures o.effects.labelHidden == Some(false)
    ensures o.effects.releasesTick && !o.effects.schedulesTick && o.effects.vibration.None?
    ensures !o.effects.redraws
  {
    assert AmountText.Text(0) == ResetLabel by {
      AmountText.TextSplit(0);
    }
    Outcome(s.(amount := 0, minuteMode := false, activated := false),
            Effects(Some(ResetLabel), Some(false), false, true, false, None))
  }

  /** A short SELECT press: toggles the granularity while idle, stops the timer while running. */
  function Select(s: State): (o: Outcome)
    ensures !s.activated ==> o.next == s.(minuteMode := !s.minuteMode) && o.effects == NoEffects
    ensures s.activated ==> !o.next.activated && !o.next.minuteMode && o.next.amount == 0
    ensures s.activated ==> o.next.progress == s.progress
    ensures s.activated ==> o.effects.labelText == Some(AmountText.Text(0))
    ensures s.activated ==> o == Reset(s)
  {
    if s.activated then Reset(s) else Outcome(s.(minuteMode := !s.minuteMode), NoEffects)
  }

  /** UP: while idle, adds one step to the duration and caps it at `MaxAmount`. */
  function Up(s: State): (o: Outcome)
    ensures s.activated ==> o == Outcome(s, NoEffects)
    ensures !s.activated ==> o.next == s.(amount := o.next.amount)
    ensures !s.activated ==> o.next.amount <= MaxAmount
    ensures !s.activated && o.next.amount < MaxAmount ==> o.next.amount == s.amount + StepSize(s.minuteMode)
    ensures !s.activated && o.next.amount == MaxAmount ==> s.amount + StepSize(s.minuteMode) >= MaxAmount
    ensures !s.activated ==> o.effects == NoEffects.(labelText := Some(AmountText.Text(o.next.amount)))
    ensures 0 <= s.amount <= MaxAmount ==> 0 <= o.next.amount <= MaxAmount
  {
    if s.activated then Outcome(s, NoEffects)
    else
      var raised := s.amount + StepSize(s.minuteMode);
      var amount := if raised >= MaxAmount then MaxAmount else raised;
      Outcome(s.(amount := amount), NoEffects.(labelText := Some(AmountText.Text(amount))))
  }

  /** DOWN: while idle, takes one step off the duration and floors it at zero. */
  function Down(s: State): (o: Outcome)
    ensures s.activated ==> o == Outcome(s, NoEffects)
    ensures !s.activated ==> o.next == s.(amount := o.next.amount)
    ensures !s.activated ==> 0 <= o.next.amount
    ensures !s.activated && 0 < o.next.amount ==> o.next.amount == s.amount - StepSize(s.minuteMode)
    ensures !s.activated && o.next.amount == 0 ==> s.amount - StepSize(s.minuteMode) <= 0
    ensures !s.activated ==> o.effects == NoEffects.(labelText := Some(AmountText.Text(o.next.amount)))
    ensures 0 <= s.amount <= MaxAmount ==> 0 <= o.next.amount <= MaxAmount
  {
    if s.activated then Outcome(s, NoEffects)
    else
      var lowered := s.amount - StepSize(s.minuteMode);
      var amount := if lowered < 0 then 0 else lowered;
      Outcome(s.(amount := amount), NoEffects.(labelText := Some(AmountText.Text(amount))))
  }

  /**
    A long SELECT press: starts a countdown from zero progress, but only
    when idle with a positive duration; it then hides the label and
    registers the first tick.
   */
  function Start(s: State): (o: Outcome)
    ensures o.next.activated != s.activated <==> !s.activated && s.amount > 0
    ensures !s.activated && s.amount > 0 ==> o.next == s.(activated := true, progress := 0)
    ensures !s.activated && s.amount > 0 ==>
      o.effects == NoEffects.(labelHidden := Some(true), schedulesTick := true, releasesTick := true)
    ensures s.activated || s.amount <= 0 ==> o == Outcome(s, NoEffects)
  {
    if s.activated || s.amount <= 0 then Outcome(s, NoEffects)
    else Outcome(s.(activated := true, progress := 0),
                 NoEffects.(labelHidden := Some(true), schedulesTick := true, releasesTick := true))
  }

  /** Completion: stops the timer and vibrates when running, does nothing otherwise. */
  function Complete(s: State): (o: Outcome)
    ensures !s.activated ==> o == Outcome(s, NoEffects)
    ensures s.activated ==> o.next == Reset(s).next
    ensures s.activated ==> o.effects.vibration == Some(CompletionPattern)
    ensures s.activated ==> o.effects.labelText == Some(AmountText.Text(0))
    ensures s.activated ==> o.effects == Reset(s).effects.(vibration := Some(CompletionPattern))
    ensures !o.effects.schedulesTick
  {
    if !s.activated then Outcome(s, NoEffects)
    else
      var stop := Reset(s);
      Outcome(stop.next, stop.effects.(vibration := Some(CompletionPattern)))
  }

  /**
    The one-second callback: counts one second while the progress is below
    the duration and registers the next tick, and completes otherwise.
   */
  function Tick(s: State): (o: Outcome)
    ensures s.progress < s.amount ==> o.next == s.(progress := s.progress + 1)
    ensures s.progress < s.amount ==> o.effects == NoEffects.(schedulesTick := true, redraws := true)
    ensures s.progress >= s.amount && !s.activated ==> o == Outcome(s, NoEffects)
    ensures s.progress >= s.amount ==> o == Complete(s)
    ensures s.progress >= s.amount && s.activated ==>
      o.next == s.(amount := 0, minuteMode := false, activated := false)
    ensures s.progress >= s.amount && s.activated ==>
      o.effects.vibration == Some(CompletionPattern) && !o.effects.schedulesTick
    ensures o.effects.vibration.Some? <==> s.activated && s.progress >= s.amount
  {
    if s.progress >= s.amount then Complete(s)
    else Outcome(s.(progress := s.progress + 1), NoEffects.(schedulesTick := true, redraws := true))
  }

  /** Dispatches an event to its handler; every handler keeps `Valid`. */
  function Step(s: State, e: Event): (o: Outcome)
    ensures Valid(s) ==> Valid(o.next)
    ensures o.effects.labelText.Some? ==> o.effects.labelText.value == AmountText.Text(o.next.amount)
    ensures o.effects.labelText.None? ==> o.next.amount == s.amount
    ensures o.effects.labelHidden.Some? ==> o.effects.labelHidden.value == o.next.activated
    ensures o.effects.labelHidden.None? ==> o.next.activated == s.activated
    ensures o.next.activated && !s.activated ==> e == SelectHold && o.next.progress == 0
  {
    match e
    case SelectPress => Select(s)
    case SelectHold => Start(s)
    case UpPress => Up(s)
    case DownPress => Down(s)
    case TickFired => Tick(s)
  }

  /** The state after `k` ticks and no other event. */
  function Ticks(s: State, k: nat): State
    decreases k
  {
    if k == 0 then s else Ticks(Tick(s).next, k - 1)
  }

  /** How many of those `k` ticks enqueue the completion vibration. */
  function Buzzes(s: State, k: nat): nat
    decreases k
  {
    if k == 0 then 0 else (if Tick(s).effects.vibration.Some? then 1 else 0) + Buzzes(Tick(s).next, k - 1)
  }

  /** Ticks that find the progress below the duration only count it up, one each, and never vibrate. */
  lemma {:induction false} TicksCount(s: State, k: nat)
    requires s.progress + k <= s.amount
    ensures Ticks(s, k) == s.(progress := s.progress + k)
    ensures Buzzes(s, k) == 0
    decreases k
  {
    if k > 0 {
      TicksCount(s.(progress := s.progress + 1), k - 1);
    }
  }

  /**
    A countdown started on a duration of `n` seconds runs through `n` silent
    ticks, each adding one to the progress, and completes on tick `n + 1`:
    that tick vibrates once and stops the timer.
   */
  lemma {:induction false} CompletesOnTickAfterAmount(s: State)
    requires !s.activated && s.amount > 0
    ensures var started := Start(s).next;
      && started.activated && started.progress == 0
      && (forall k :: 0 <= k <= s.amount ==> Ticks(started, k).activated && Ticks(started, k).progress == k)
      && Buzzes(started, s.amount) == 0
      && Buzzes(started, s.amount + 1) == 1
      && !Ticks(started, s.amount + 1).activated
      && Ticks(started, s.amount + 1).amount == 0
  {
    var started := Start(s).next;
    forall k | 0 <= k <= s.amount
      ensures Ticks(started, k).activated && Ticks(started, k).progress == k
    {
      TicksCount(started, k);
    }
    TicksCount(started, s.amount);
    var last := Ticks(started, s.amount);
    assert last.progress == last.amount && last.activated;
    TicksAfter(started, s.amount);
    BuzzesAfter(started, s.amount);
  }

  /** One more tick after `k` is a tick applied to the state after `k`. */
  lemma {:induction false} TicksAfter(s: State, k: nat)
    ensures Ticks(s, k + 1) == Tick(Ticks(s, k)).next
    decreases k
  {
    if k > 0 {
      TicksAfter(Tick(s).next, k - 1);
    }
  }

  /** The vibrations of `k + 1` ticks are those of `k` ticks plus that of the last one. */
  lemma {:induction false} BuzzesAfter(s: State, k: nat)
    ensures Buzzes(s, k + 1) == Buzzes(s, k) + (if Tick(Ticks(s, k)).effects.vibration.Some? then 1 else 0)
    decreases k
  {
    if k > 0 {
      BuzzesAfter(Tick(s).next, k - 1);
    }
  }

  /** Two idle SELECT presses leave the state as it was. */
  lemma SelectTwiceIdle(s: State)
    requires !s.activated
    ensures Select(Select(s).next) == Outcome(s, NoEffects)
  {
  }

  /** DOWN undoes an UP that was not capped. */
  lemma DownUndoesUp(s: State)
    requires !s.activated && 0 <= s.amount
    requires s.amount + StepSize(s.minuteMode) <= MaxAmount
    ensures Down(Up(s).next).next == s
  {
  }

  /** UP undoes a DOWN that was not floored. */
  lemma UpUndoesDown(s: State)
    requires !s.activated && s.amount <= MaxAmount
    requires s.amount - StepSize(s.minuteMode) >= 0
    ensures Up(Down(s).next).next == s
  {
  }
}
