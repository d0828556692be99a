/**
  The one-second callbacks the timer has registered and not yet received.

  Each registration adds a pending callback and each delivered tick uses
  one up; a tick can only be delivered while one is pending. The C code
  overwrites the handle of a pending callback without cancelling it when
  the timer is reset or started, so that callback still fires later.
  `cancels` selects between that behaviour (false) and the corrected one
  in which overwriting the handle cancels the callback first (true).

  Cancelling is modelled as dropping every pending callback, while
  `app_timer_cancel` on the one handle held cancels only the callback that
  handle names. The two agree wherever at most one callback is pending,
  which the corrected behaviour keeps to from the loaded window on
  (`CorrectedKeepsSingleChain`); from a machine already holding several
  pending callbacks the corrected lemmas below are stronger than the C
  code with cancelling would give.
 */
module Schedule {
  import opened Options
  import Timer

  datatype Machine = Machine(state: Timer.State, pending: nat)

  /** The loaded window: nothing registered yet. */
  function Load(): (m: Machine)
    ensures m.pending == 0 && !m.state.activated
  {
    Machine(Timer.Init(), 0)
  }

  /** Delivers an event; `None` when it is a tick and no callback is pending. */
  function Deliver(m: Machine, e: Timer.Event, cancels: bool): (r: Option<Machine>)
    ensures r.None? <==> e == Timer.TickFired && m.pending == 0
    ensures r.Some? ==> r.value.state == Timer.Step(m.state, e).next
    ensures r.Some? && !cancels && e != Timer.TickFired ==> r.value.pending >= m.pending
  {
    if e == Timer.TickFired && m.pending == 0 then None
    else
      var o := Timer.Step(m.state, e);
      var left := if e == Timer.TickFired then m.pending - 1 else m.pending;
      var kept := if cancels && o.effects.releasesTick then 0 else left;
      Some(Machine(o.next, kept + if o.effects.schedulesTick then 1 else 0))
  }

  /** A sequence of events delivered in order; `None` once an undeliverable tick comes up. */
  function DeliverAll(m: Machine, events: seq<Timer.Event>, cancels: bool): Option<Machine>
    decreases |events|
  {
    if |events| == 0 then Some(m)
    else
      match Deliver(m, events[0], cancels)
      case None => None
      case Some(n) => DeliverAll(n, events[1..], cancels)
  }

  /** One callback chain while running and none while idle. */
  predicate SingleChain(m: Machine) {
    m.pending == if m.state.activated then 1 else 0
  }

  /** With cancelling, every event keeps a single chain. */
  lemma CorrectedStepKeepsSingleChain(m: Machine, e: Timer.Event)
    requires SingleChain(m)
    requires Deliver(m, e, true).Some?
    ensures SingleChain(Deliver(m, e, true).value)
  {
  }

  /** With cancelling, every run from a single chain keeps a single chain. */
  lemma {:induction false} CorrectedKeepsSingleChain(m: Machine, events: seq<Timer.Event>)
    requires SingleChain(m)
    requires DeliverAll(m, events, true).Some?
    ensures SingleChain(DeliverAll(m, events, true).value)
    decreases |events|
  {
    if |events| > 0 {
      CorrectedStepKeepsSingleChain(m, events[0]);
      CorrectedKeepsSingleChain(Deliver(m, events[0], true).value, events[1..]);
    }
  }

  /**
    With cancelling, a tick only arrives while the timer runs, so it never
    redraws the progress surface after the surface was destroyed.
   */
  lemma CorrectedTicksOnlyWhileRunning(events: seq<Timer.Event>)
    requires DeliverAll(Load(), events, true).Some?
    ensures var m := DeliverAll(Load(), events, true).value;
      Deliver(m, Timer.TickFired, true).Some? ==> m.state.activated
    ensures var m := DeliverAll(Load(), events, true).value;
      Timer.Tick(m.state).effects.redraws && m.pending > 0 ==> m.state.activated
  {
    CorrectedKeepsSingleChain(Load(), events);
  }

  /** Dial, start, reset, dial, start. */
  const RestartRun: seq<Timer.Event> :=
    [Timer.UpPress, Timer.SelectHold, Timer.SelectPress, Timer.UpPress, Timer.SelectHold]

  /** Dial, start, reset, dial again before the first tick. */
  const StaleRun: seq<Timer.Event> :=
    [Timer.UpPress, Timer.SelectHold, Timer.SelectPress, Timer.UpPress]

  /**
    As written: from any idle window (the loaded one included), dial a
    duration, start, reset with a short press, dial again and start again,
    all before the first tick. The forgotten callback is still pending next
    to the new one, so two chains tick at once and the countdown runs at
    double speed.
   */
  lemma AsWrittenRestartRunsTwoChains(m: Machine)
    requires Timer.Valid(m.state) && !m.state.activated
    ensures var r := DeliverAll(m, RestartRun, false);
      r.Some? && r.value.state.activated && r.value.pending == m.pending + 2
  {
    var m3 := StaleRunPrefix(m, false);
    assert RestartRun[3..] == [Timer.UpPress, Timer.SelectHold];
    RestartTail(m3, false);
  }

  /** With cancelling, the same run leaves one chain behind the restarted timer. */
  lemma CorrectedRestartRunsOneChain(m: Machine)
    requires Timer.Valid(m.state) && !m.state.activated
    ensures var r := DeliverAll(m, RestartRun, true);
      r.Some? && r.value.state.activated && r.value.pending == 1
  {
    var m3 := StaleRunPrefix(m, true);
    assert RestartRun[3..] == [Timer.UpPress, Timer.SelectHold];
    RestartTail(m3, true);
  }

  /**
    As written: from any idle window, dial, start, reset and dial one second
    again before the first tick. The forgotten callback then fires while the
    timer is idle, finds the progress below the new duration, counts it up
    and marks the destroyed progress surface dirty.
   */
  lemma AsWrittenStaleTickRedrawsWhileIdle(m: Machine)
    requires Timer.Valid(m.state) && !m.state.activated
    ensures var r := DeliverAll(m, StaleRun, false);
      && r.Some? && !r.value.state.activated
      && Deliver(r.value, Timer.TickFired, false).Some?
      && Timer.Tick(r.value.state).effects.redraws
  {
    var m3 := StaleRunPrefix(m, false);
    assert StaleRun[3..] == [Timer.UpPress];
  }

  /** With cancelling, after the same run no tick can arrive. */
  lemma CorrectedStaleRunHasNoTick(m: Machine)
    requires Timer.Valid(m.state) && !m.state.activated
    ensures var r := DeliverAll(m, StaleRun, true);
      r.Some? && Deliver(r.value, Timer.TickFired, true).None?
  {
    var m3 := StaleRunPrefix(m, true);
    assert StaleRun[3..] == [Timer.UpPress];
  }

  /**
    Dialling and starting from an idle timer below the cap registers one
    more callback; with cancelling, starting first cancels what was pending.
   */
  lemma RestartTail(m3: Machine, cancels: bool)
    requires !m3.state.activated && 0 <= m3.state.amount < Timer.MaxAmount
    ensures var r := DeliverAll(m3, [Timer.UpPress, Timer.SelectHold], cancels);
      r.Some? && r.value.state.activated && r.value.pending == if cancels then 1 else m3.pending + 1
  {
    var m4 := Deliver(m3, Timer.UpPress, cancels).value;
    assert m4.state.amount > 0 && !m4.state.activated && m4.pending == m3.pending;
    var m5 := Deliver(m4, Timer.SelectHold, cancels).value;
    assert m5.state.activated && m5.pending == if cancels then 1 else m3.pending + 1;
    assert [Timer.UpPress, Timer.SelectHold][1..] == [Timer.SelectHold];
    assert DeliverAll(m4, [Timer.SelectHold], cancels) == Some(m5) by {
      assert [Timer.SelectHold][1..] == [];
    }
  }

  /**
    The first three events of `StaleRun` and `RestartRun`: the timer is
    back to idle with a zero duration and a zero progress, the forgotten
    callback still pending as written and cancelled when corrected.
   */
  lemma StaleRunPrefix(m: Machine, cancels: bool) returns (m3: Machine)
    requires Timer.Valid(m.state) && !m.state.activated
    ensures DeliverAll(m, StaleRun, cancels) == DeliverAll(m3, StaleRun[3..], cancels)
    ensures DeliverAll(m, RestartRun, cancels) == DeliverAll(m3, RestartRun[3..], cancels)
    ensures m3.state == Timer.State(0, 0, false, false)
    ensures m3.pending == if cancels then 0 else m.pending + 1
  {
    var m1 := Deliver(m, Timer.UpPress, cancels).value;
    assert m1.state.amount > 0 && !m1.state.activated;
    var m2 := Deliver(m1, Timer.SelectHold, cancels).value;
    m3 := Deliver(m2, Timer.SelectPress, cancels).value;
    assert StaleRun[1..] == [Timer.SelectHold, Timer.SelectPress, Timer.UpPress];
    assert StaleRun[3..] == [Timer.UpPress];
    assert RestartRun[1..] == [Timer.SelectHold, Timer.SelectPress, Timer.UpPress, Timer.SelectHold];
    assert RestartRun[3..] == [Timer.UpPress, Timer.SelectHold];
  }
}
