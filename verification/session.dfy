/**
  The timer together with what the watch face shows: the duration label's
  text and whether it is hidden behind the progress surface. A session
  starts from the loaded window and takes any sequence of events; ticks may
  arrive at any point.
 */
module Session {
  import opened Options
  import AmountText
  import Timer

  datatype Screen = Screen(text: string, textHidden: bool)

  datatype Watch = Watch(state: Timer.State, screen: Screen)

  /**
    The screen agrees with the state: the label reads the dialled duration
    and is hidden exactly while the timer runs (the progress surface exists
    exactly then).
   */
  predicate Consistent(w: Watch) {
    && Timer.Valid(w.state)
    && w.screen.text == AmountText.Text(w.state.amount)
    && w.screen.textHidden == w.state.activated
  }

  /** The window as loaded: the initial state and a visible "00 : 00" label. */
  function Load(): (w: Watch)
    ensures Consistent(w)
    ensures w.state == Timer.Init()
  {
    Watch(Timer.Init(), Screen(Timer.ResetLabel, false))
  }

  /** The screen after a handler's effects: only what the handler writes changes. */
  function Show(sc: Screen, e: Timer.Effects): (r: Screen)
    ensures e.labelText.Some? ==> r.text == e.labelText.value
    ensures e.labelText.None? ==> r.text == sc.text
    ensures e.labelHidden.Some? ==> r.textHidden == e.labelHidden.value
    ensures e.labelHidden.None? ==> r.textHidden == sc.textHidden
  {
    Screen(
      if e.labelText.Some? then e.labelText.value else sc.text,
      if e.labelHidden.Some? then e.labelHidden.value else sc.textHidden)
  }

  /** One event delivered to the watch; it keeps the screen in step with the state. */
  function Deliver(w: Watch, e: Timer.Event): (r: Watch)
    ensures Consistent(w) ==> Consistent(r)
  {
    var o := Timer.Step(w.state, e);
    Watch(o.next, Show(w.screen, o.effects))
  }

  /** A sequence of events delivered in order. */
  function Run(w: Watch, events: seq<Timer.Event>): Watch
    decreases |events|
  {
    if |events| == 0 then w else Run(Deliver(w, events[0]), events[1..])
  }

  /** Whatever the events, a consistent watch stays consistent. */
  lemma {:induction false} RunConsistent(w: Watch, events: seq<Timer.Event>)
    requires Consistent(w)
    ensures Consistent(Run(w, events))
    decreases |events|
  {
    if |events| > 0 {
      RunConsistent(Deliver(w, events[0]), events[1..]);
    }
  }

  /**
    From the loaded window, after any events: the duration stays within
    [0, 3600], a running timer never has more progress than duration, and
    the label reads back exactly the dialled duration.
   */
  lemma Reachable(events: seq<Timer.Event>)
    ensures var w := Run(Load(), events);
      && Timer.Valid(w.state)
      && AmountText.Parse(w.screen.text) == Some(w.state.amount)
      && w.screen.textHidden == w.state.activated
  {
    RunConsistent(Load(), events);
    var w := Run(Load(), events);
    AmountText.ParseText(w.state.amount);
  }
}
