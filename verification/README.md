# AFTimer countdown timer — a Dafny model

AFTimer is a single-screen countdown timer for the Pebble watch. It works like this:

- The user dials a duration with UP and DOWN.
- A short SELECT toggles between second steps and minute steps.
- A long SELECT starts the countdown.
- A one-second callback counts the progress up.
- When the progress has reached the duration, the next callback stops the timer and vibrates.
- A short SELECT while running stops the timer at once.

This project models that interaction state machine and the `MM : SS` duration label, as pure functions over immutable values:

- `options.dfy` — `Options.Option`, the optional value used by the other modules.
- `amount_text.dfy` — `AmountText`, the label `setTimerAmountText` writes. It follows the C code:
  - C's truncating division for the minute count;
  - a "0" prefix for each field below ten;
  - `%d` for each field, a leading `-` included;
  - `snprintf` into an 8-byte buffer, which keeps at most 7 characters.

  `Parse` is an independent reading of a label back into seconds. It is not in the source. The model uses it to show that the label loses nothing: rendering is a bijection between the durations [0, 6000) and the well-formed labels whose seconds field is below 60. Every other duration renders to a label `Parse` rejects.
- `timer.dfy` — `Timer`, the state machine:
  - The state is the four statics `timerAmount`, `timerProgress`, `minuteMode` and `timerActivated`.
  - Each handler is one function returning the next state and its `Effects`:
    - the label text written;
    - the label visibility set;
    - a tick registered;
    - a pending tick handle dropped;
    - the progress surface marked dirty;
    - the vibration enqueued, which on completion is the pattern 100, 500, 100, 500, 100 ms (`Timer.CompletionPattern`).
  - `Step` dispatches the five events: short SELECT, long SELECT, UP, DOWN and TICK.
  - A TICK may arrive in any state.
- `session.dfy` — `Session`, the timer together with the screen: the label's text and whether it is hidden. Over any sequence of events from the loaded window, the following always hold:
  - The state stays `Timer.Valid`.
  - The label reads back exactly the dialled duration.
  - The label is hidden exactly while the timer runs.
- `schedule.dfy` — `Schedule`, the count of registered one-second callbacks that have not fired yet. A tick can only be delivered while one is pending. The flag `cancels` chooses between two behaviours:
  - the code as written, which overwrites the handle without cancelling it;
  - the corrected behaviour, which cancels it (see Findings).

Three behaviours of the code a reader might not expect, all modelled as written:

- The reset path does not zero `timerProgress` (src/AFTimer.c:26-35).
- Completion happens on the tick after the progress reaches the duration. A countdown of n seconds vibrates on tick n + 1, not tick n (src/AFTimer.c:72-73; `Timer.CompletesOnTickAfterAmount`).
- The reset path drops the tick handle without cancelling it (src/AFTimer.c:27). A tick can therefore arrive while idle.

## Model

| member | source | states |
|---|---|---|
| AmountText.CQuotient | src/AFTimer.c:14 | the minute count is C division: the remainder has the sign of the dividend and is smaller than the divisor |
| AmountText.Decimal | src/AFTimer.c:19 | `%d` of a non-negative field: decimal digits denoting the number, no leading zero, two or more digits exactly from 10 up |
| AmountText.IntText | src/AFTimer.c:19 | `%d` of any int: starts with '-' exactly for negatives, followed by the digits of the magnitude, with no leading zero |
| AmountText.Fit | src/AFTimer.c:18-19 | `snprintf` into the 8-byte buffer keeps the whole text when it fits and exactly its first 7 characters otherwise |
| AmountText.Text | src/AFTimer.c:13-19 | the label never overflows the 8-byte buffer |
| AmountText.Parse | src/AFTimer.c:19 | reference reading of a label: defined exactly on the "DD : DD" shapes with seconds below 60, yielding a duration in [0, 6000) |
| AmountText.TextFields | src/AFTimer.c:13-19 | for 0 <= a < 6000 the label is two zero-padded digits, " : ", two digits, 7 characters in all, with SS < 60 and MM*60 + SS == a |
| AmountText.ParseText | src/AFTimer.c:13-19 | reading back the label of any a in [0, 6000) gives a |
| AmountText.TextParse | src/AFTimer.c:13-19 | every readable label is the rendering of the duration it reads |
| AmountText.TextInjective | src/AFTimer.c:13-19 | two durations in [0, 6000) with the same label are equal |
| AmountText.ReadableExactly | src/AFTimer.c:13-19 | the label is readable if and only if the duration is in [0, 6000); negative durations and three-digit minute counts garble it |
| Timer.Init | src/AFTimer.c:114-117 | the loaded state is idle, in second steps, satisfies the invariant, and its label "00 : 00" is the rendering of its duration |
| Timer.Reset | src/AFTimer.c:26-35 | stops the timer and zeroes duration and granularity; keeps the progress; shows the label reading the zero duration; drops the tick handle; no tick, no redraw, no vibration |
| Timer.Select | src/AFTimer.c:37-43 | idle: flips only the granularity, no effects; running: exactly `Reset` — stops with duration 0, seconds mode, progress untouched, label `Text(0)` shown again, handle dropped, no tick, no redraw, no vibration |
| Timer.Up | src/AFTimer.c:45-50 | running: no change at all; idle: only the duration changes, to the old one plus one step capped at 3600, and the label shows it; keeps [0, 3600] |
| Timer.Down | src/AFTimer.c:52-57 | running: no change at all; idle: only the duration changes, to the old one minus one step floored at 0, and the label shows it; keeps [0, 3600] |
| Timer.Start | src/AFTimer.c:89-101 | the timer starts if and only if it was idle with a positive duration; it then sets progress 0, hides the label and registers a tick; otherwise nothing changes |
| Timer.Complete | src/AFTimer.c:59-69 | idle: nothing happens; running: exactly the effects of `Reset` (label `Text(0)` shown again, handle dropped, no redraw) plus the vibration pattern 100, 500, 100, 500, 100 ms, and the reset state; never registers a tick |
| Timer.Tick | src/AFTimer.c:71-77 | progress below the duration: progress + 1 and nothing else, next tick registered; otherwise exactly `Complete`: when running, duration 0, seconds mode, stopped, progress kept, the completion pattern and no new tick; it vibrates exactly when running with the progress at the duration |
| Timer.Step | src/AFTimer.c:37-101 | every event keeps the invariant; a label written reads the new duration and the duration changes only with it; visibility changes only with the running flag; only a long SELECT starts, from progress 0 |
| Timer.TicksCount | src/AFTimer.c:71-77 | k ticks below the duration add exactly k to the progress, change nothing else and never vibrate |
| Timer.CompletesOnTickAfterAmount | src/AFTimer.c:59-77 | after starting on n seconds, ticks 1..n step the progress through 1..n silently, and tick n + 1 vibrates once and stops the timer |
| Timer.SelectTwiceIdle | src/AFTimer.c:37-43 | two idle short presses are the identity |
| Timer.DownUndoesUp | src/AFTimer.c:45-57 | DOWN undoes an idle UP that was not capped |
| Timer.UpUndoesDown | src/AFTimer.c:45-57 | UP undoes an idle DOWN that was not floored |
| Session.Load | src/AFTimer.c:114-117 | the loaded window is consistent: visible label "00 : 00" over the initial state |
| Session.Deliver | src/AFTimer.c:37-101 | every event keeps the screen consistent with the state |
| Session.RunConsistent | src/AFTimer.c:37-101 | any sequence of events keeps a consistent watch consistent |
| Session.Reachable | src/AFTimer.c:37-101 | after any events from the loaded window: duration in [0, 3600]; a running timer's progress within its duration; the label reads back the duration; hidden exactly while running |
| Schedule.Deliver | src/AFTimer.c:26-101 | a tick is deliverable exactly when a callback is pending; the state follows `Timer.Step`; as written no button press lowers the pending count |
| Schedule.CorrectedKeepsSingleChain | src/AFTimer.c:26-35 | with cancelling on reset and start, exactly one callback is pending while running and none while idle |
| Schedule.CorrectedTicksOnlyWhileRunning | src/AFTimer.c:71-77 | with cancelling, every tick that arrives finds the timer running, so no redraw hits a destroyed surface |
| Schedule.AsWrittenRestartRunsTwoChains | src/AFTimer.c:27 | as written: dial, start, reset, dial, start before a tick leaves two callbacks pending on a running timer |
| Schedule.CorrectedRestartRunsOneChain | src/AFTimer.c:26-35 | with cancelling, the same run leaves exactly one callback pending |
| Schedule.AsWrittenStaleTickRedrawsWhileIdle | src/AFTimer.c:71-76 | as written: dial, start, reset, dial before a tick; the forgotten tick then arrives while idle and marks the surface dirty |
| Schedule.CorrectedStaleRunHasNoTick | src/AFTimer.c:26-35 | with cancelling, after the same run no tick can arrive |

## Left out

- The progress drawing `updateTimerProgressVisuals` (src/AFTimer.c:79-87) is left out. It computes the fill height in floating point and calls the graphics API. `Effects.redraws` records only that the surface is marked dirty.
- Pebble SDK objects are not modelled: the window, the layers, the text layer and the font. Their creation and destruction in `window_load`, `window_unload`, `init`, `deinit`, `click_config_provider` and `main` (src/AFTimer.c:103-167) is event-loop plumbing. Only the initial field values (src/AFTimer.c:114-117) are modelled.
- The progress surface is not a separate value. It exists exactly while `timerActivated` holds, because it is created on start and destroyed on reset.
- `app_timer_register`, `app_timer_cancel` and `vibes_enqueue_custom_pattern` are not called. They appear as effect flags and as the pending-callback count in `Schedule`.
- Time is not modelled: neither the 100 ms button auto-repeat nor the 1000 ms tick delay. Each press and each tick is one event. "Before the first tick" in `Schedule` means only that no TICK event comes between.
- Timer.Up: integers are unbounded. The C `int` would overflow in `timerAmount += 60` only from a duration near `INT_MAX`, which `Session.Reachable` shows cannot occur (the duration stays in [0, 3600]).
- Timer.Down: as for `Timer.Up`, the subtraction is unbounded. It could wrap only from a duration near `INT_MIN`, which cannot be reached.
- Timer.Tick: `timerProgress++` is unbounded. The progress stays in [0, 3600] in every reachable state.
- The static label buffer is shared between calls, and `text_layer_set_text` (src/AFTimer.c:20) keeps a pointer to it, so the label reads the buffer on every redraw. The model returns a fresh string each time and records it as the label text. This loses nothing: only `setTimerAmountText` writes the buffer, and it points the label at the buffer right after writing, so the label always shows the last text written, which is `Session.Screen.text`.
- Schedule.Deliver: with `cancels` set, cancelling drops every pending callback, while `app_timer_cancel` cancels only the one whose handle is held. They differ only when two or more callbacks are pending, which the corrected behaviour never reaches from the loaded window; the corrected lemmas stated for any idle machine are stronger than the code with cancelling would give from such a machine.

## Findings

| source | as written | input that shows it | evidently intended | confidence | as-written member | corrected member |
|---|---|---|---|---|---|---|
| src/AFTimer.c:27 | `resetTimer` sets `progressTimer = NULL` without `app_timer_cancel`, and the start handler overwrites it the same way (src/AFTimer.c:93). The pending callback survives a reset. | UP, long SELECT, short SELECT, UP, long SELECT, with no tick in between. Two callbacks are then pending on one running timer, so the countdown advances twice per second. | Stopping the timer cancels its pending callback, as `deinit` does (src/AFTimer.c:145-148). | high; not executed | Schedule.AsWrittenRestartRunsTwoChains | Schedule.CorrectedRestartRunsOneChain |
| src/AFTimer.c:71-76 | A forgotten callback that fires after a reset counts up and re-registers whenever the progress is below the newly dialled duration. It then calls `layer_mark_dirty` on the layer destroyed and set to NULL at src/AFTimer.c:31-32. | UP, long SELECT, short SELECT, UP, then TICK. The tick finds the timer idle with progress 0 below duration 1. | Ticks arrive only while the timer runs. | high; not executed | Schedule.AsWrittenStaleTickRedrawsWhileIdle | Schedule.CorrectedTicksOnlyWhileRunning |

The corrected behaviour is `Schedule.Deliver` with `cancels` set. It is needed only where time matters, that is in the scheduler. The handlers in `Timer` and the screen model in `Session` are the same under both behaviours. They accept a TICK in every state, so all their properties hold whichever behaviour delivers the ticks.
