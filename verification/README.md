# Oxidoro-Timer core, modelled in Dafny

Oxidoro-Timer is an interval timer. A *program* is a list of phases:
countdowns (`TimeFor`), input waits (`WaitForInput`), and the jumps
`RepeatProgram` and `Loop`. A `TimerModel` runs the program. It is driven by
`TimerTransitions` (`Start`, `Step` ticks, `Pause`, `Unpause`, `Stop`, ...) and
reports `ViewDataUpdate`s to the view. Next to it sit two small helpers. One
renders seconds as `HH:MM:SS`. The other is a minutes:seconds countdown used by
the slint front end in src/main.rs.

Files:

- `rust_prelude.dfy` (module `RustPrelude`): `Option`, the `u32` range, and the
  panics of a debug build (unsigned subtraction underflow, index out of bounds).
- `format.dfy` (module `Format`): Rust's `{:02}` decimal formatting. It comes
  with a reference decimal reader and round-trip lemmas.
- `timer_util.dfy` (module `TimerUtil`): the data model, plus `new`, `next` and
  `next_phase` as pure functions.
- `timer_properties.dfy` (module `TimerProperties`): lemmas about single
  transitions, about `next_phase`, and about runs of several transitions.
- `ui_util.dfy` (module `UiUtil`): `seconds_to_h_m_s_display_string`, with a
  reference decoder for its output.
- `countdown.dfy` (module `Countdown`): `decrement_clamp_and_report` and
  `decrement_seconds`.

How the model maps the code:

- `next` and `next_phase` mutate the model in place and call `report_callback`.
  Here each is a function returning an `Outcome`. `Done(model, events)` holds the
  new model and the reports, in call order.
- `next_phase` returns a `TimerState`, which `next` stores in `state` at once.
  The model returns that value as the `state` field of the new model.
- The code's hazards are made explicit rather than fixed:
  - `Panicked(SubtractOverflow)` for `times - 1` and `step - 1` at zero;
  - `Panicked(IndexOutOfBounds(len, len))` for the read at index `phase + 1`
    when that equals the program length;
  - `OutOfFuel` for recursion deeper than the `fuel` argument.
  Unsigned subtraction follows debug-build semantics, where underflow panics.
- Consequences the lemmas make visible:
  - The cursor is stepped forward before the program is read. So a fresh
    model never enters phase 0.
  - Leaving the last phase of a program panics. `ProgramDone` is only reached
    through an empty program or a jump past the end.
  - An armed `RepeatProgram` only counts down and falls through. So for every
    `times >= 1` the block it closes runs twice; `times == 0` panics.
  - `Stop` keeps the cursor, the countdown and the repetition counter. A later
    `Start` therefore continues after the stopped phase.
  - `Interact` is ignored in every state, so a `WaitForInput` phase is left
    on the next `Step` tick.
  - A countdown kept through `Stop` is counted down inside a following
    `WaitForInput` phase after a restart.
  - A countdown of `n` seconds goes `n`, ..., `0`, then cleared. The phase is
    left on `Step` number `n + 2`.
- src/web_main.rs, src/old_main.rs and `data_to_ui` in src/ui_util.rs use
  another machine: `TimerFSM`, `TimerInput`, `TimerOutput`, and `ProgramPhase`
  with `BeginProgram`/`EndProgram` and an `i8` variable bank
  (src/old_main.rs:96-98). No file modelled here defines it, so the model
  follows `TimerModel` of src/timer_util.rs.

## Model

| member | source | states |
|---|---|---|
| TimerUtil.New | src/timer_util.rs:64-79 | a new model is idle on the given program with the cursor at 0, no countdown and no repetition counter, and satisfies the running-state invariant |
| TimerUtil.NextPhase | src/timer_util.rs:116-158 | when next_phase completes it makes exactly one report and keeps the program. It either finishes (Idle, `ProgramDone`, cursor at or past the end, countdown untouched) or runs at an index of at least 1 on a `TimeFor` (countdown set to its length and reported) or a `WaitForInput` (reported, countdown untouched). It never yields `Paused`, and a cursor past the end is not moved |
| TimerUtil.Next | src/timer_util.rs:81-114 | only `Start` from Idle and `Step` with a cleared countdown can panic or run out of fuel. A transition reports at most one thing, keeps the program and preserves the running-state invariant. `Stop` idles and changes nothing else |
| TimerProperties.Run | src/timer_util.rs:81-114 | any sequence of transitions keeps the program, reports at most once per transition and preserves the running-state invariant |
| TimerProperties.StopOnlyIdles | src/timer_util.rs:83-86 | `Stop` from any state gives Idle and no report, and leaves phase, seconds, repetitions and program unchanged |
| TimerProperties.IgnoredTransitions | src/timer_util.rs:88-112 | Idle ignores everything but Start/Stop, Running everything but Step/Pause/Stop, Paused everything but Unpause/Stop; an ignored transition changes and reports nothing |
| TimerProperties.IdleUntilStarted | src/timer_util.rs:83-88 | any run of transitions without `Start` leaves an idle model exactly as it is |
| TimerProperties.PausedUntilUnpaused | src/timer_util.rs:108-112 | any run without `Unpause`/`Stop` leaves a paused model exactly as it is; `Step` does not count down |
| TimerProperties.CountdownTick | src/timer_util.rs:89-99 | Running + Step with `Some(s)` gives `Some(s-1)` for `s > 0` and `None` for 0, never underflows, reports nothing and keeps state and phase |
| TimerProperties.StepAfterCountdown | src/timer_util.rs:89-101 | Running + Step with the countdown cleared is exactly next_phase |
| TimerProperties.CountdownTakesNPlusTwoSteps | src/timer_util.rs:89-101 | from `Some(n)`, `k <= n+1` Steps give `Some(n-k)` or `None` silently; Step number `n+2` is next_phase |
| TimerProperties.PauseUnpauseRoundTrip | src/timer_util.rs:103-111 | Pause on a running model gives Paused with exactly one `Paused` report; Unpause then restores the running model exactly, with no report |
| TimerProperties.StopThenStartContinues | src/timer_util.rs:83-87 | Start after Stop runs next_phase from the cursor where the model was stopped |
| TimerProperties.ProgramDoneAtEnd | src/timer_util.rs:117-124 | with the cursor at or past the end, next_phase returns Idle, reports `ProgramDone` and leaves the cursor |
| TimerProperties.LastPhaseIndexPanics | src/timer_util.rs:125-126 | with `phase + 1 == len` next_phase panics indexing `len` |
| TimerProperties.EnterTimeFor | src/timer_util.rs:127-131 | entering `TimeFor{n}` at `phase + 1` sets seconds to `Some(n)`, reports `CurrentTime(n)`, returns Running |
| TimerProperties.EnterWaitForInput | src/timer_util.rs:132-135 | entering `WaitForInput` reports `WaitingForInput`, returns Running and leaves seconds |
| TimerProperties.EnterLoop | src/timer_util.rs:153-156 | `Loop{step}` re-enters next_phase with the cursor at `step-1`, so `step` is entered next; `step == 0` underflows |
| TimerProperties.EnterRepeatUnarmed | src/timer_util.rs:146-151 | an unarmed `RepeatProgram` arms the counter with `times-1` and jumps like Loop; `times == 0` or `step == 0` underflows |
| TimerProperties.EnterRepeatArmed | src/timer_util.rs:137-151 | an armed `RepeatProgram` decrements (r>0) or disarms (r=0) the counter and falls through without jumping |
| TimerProperties.FuelMonotone | src/timer_util.rs:116-158 | an outcome reached with some fuel is the same with any more fuel |
| TimerProperties.SelfLoopDiverges | src/timer_util.rs:153-156 | a `Loop` jumping to its own index recurses without end: every fuel runs out |
| TimerProperties.StraightProgramNeverFinishes | src/timer_util.rs:116-135 | without jumps, next_phase from inside the program needs no recursion, enters `phase+1` or panics exactly when that is the length, and never reports `ProgramDone` |
| TimerProperties.FreshStartSkipsPhaseZero | src/timer_util.rs:125-126 | Start on a new model (cursor 0) enters phase 1 |
| TimerProperties.OnePhaseProgramPanics | src/timer_util.rs:125-126 | Start on a one-phase program panics indexing 1 |
| TimerProperties.EmptyProgramFinishes | src/timer_util.rs:117-124 | Start on an empty program stays Idle and reports `ProgramDone` |
| TimerProperties.RepeatRunsBlockTwice | src/timer_util.rs:137-151 | for every `times >= 1` the countdown closed by `RepeatProgram` runs twice, then the next phase is entered with the counter left at `times-2` (or disarmed) |
| TimerProperties.WaitForInputLeftOnStep | src/timer_util.rs:87-112 | on `[WaitForInput, WaitForInput, TimeFor(3)]`, `Start`, `Interact`, `Step` enters phase 2 with `Some(3)`: `Interact` is ignored and `Step` leaves the input wait |
| TimerProperties.StaleCountdownAfterStop | src/timer_util.rs:83-100 | on `[WaitForInput, TimeFor(5), WaitForInput, TimeFor(1)]`, `Start`, `Stop`, `Start`, `Step` ends on the `WaitForInput` at phase 2 with the kept countdown at `Some(4)` |
| Format.Decimal | src/ui_util.rs:85 | decimal digits with no leading zero; one digit below 10, at most two below 100 |
| Format.DecimalRoundTrip | src/ui_util.rs:85 | the decimal rendering reads back as the number |
| Format.ZeroPad | src/ui_util.rs:85 | `{:02}`-style padding: all digits, length is the width or the digit count if larger, reads back as the number |
| UiUtil.SplitHms | src/ui_util.rs:81-84 | hours is `total / 3600`, minutes and seconds are below 60, and `h*3600 + m*60 + s == total`; neither subtraction goes negative |
| UiUtil.SecondsToHmsDisplayString | src/ui_util.rs:81-86 | at least 8 characters and exactly 8 iff `total < 360000`; colons before the last two fields |
| UiUtil.DisplayRoundTrip | src/ui_util.rs:81-86 | the display string decodes back to the total number of seconds |
| UiUtil.DisplayInjective | src/ui_util.rs:81-86 | distinct totals give distinct display strings |
| UiUtil.TwoDigitPad | src/ui_util.rs:85 | below 100, `{:02}` is the tens digit then the units digit |
| UiUtil.DisplayOf | src/ui_util.rs:81-86 | for hours below 100 and minutes and seconds below 60, the display is exactly the two digits of each field separated by colons |
| UiUtil.JustSeconds | src/ui_util.rs:102-105 | 15 displays as `00:00:15` |
| UiUtil.JustMinutes | src/ui_util.rs:107-110 | 900 displays as `00:15:00` |
| UiUtil.JustHours | src/ui_util.rs:112-115 | 54000 displays as `15:00:00` |
| UiUtil.MinuteThreshold | src/ui_util.rs:117-120 | 60 displays as `00:01:00` |
| UiUtil.HourThreshold | src/ui_util.rs:123-126 | 3600 displays as `01:00:00` |
| Countdown.DecrementClampAndReport | src/main.rs:8-18 | overflow is reported iff `val == min` (value `max`). A `val` above `max` clamps to `max`, otherwise the value drops by exactly one. The result never exceeds `max`. It panics iff `val == 0 != min`, so never for `min == 0` |
| Countdown.DecrementSeconds | src/main.rs:20-34 | seconds in 1..59 drop by one with minutes kept; at 0 seconds a minute in 1..59 is borrowed (59 seconds); seconds above 59 are clamped to 59, and minutes above 59 only when a minute is borrowed; `00:00` stays `00:00` and is the only input giving `"Timer Done"`; otherwise the string is the zero-padded new `MM:SS`; seconds end `<= 59` |
| Countdown.MinutesSeconds | src/main.rs:33 | the `{:02}:{:02}` rendering of minutes and seconds is never equal to `"Timer Done"` |
| Countdown.MinutesSecondsReadBack | src/main.rs:33 | for seconds below 100 the rendering is the padded minutes, `:`, and two seconds digits, reading back as both fields; it is 5 characters exactly when minutes are below 100 |
| Countdown.NotDoneBeforeZero | src/main.rs:20-34 | none of the first `T` ticks of a well-formed clock showing `T` seconds reports `"Timer Done"` |
| Countdown.TickTakesOneSecond | src/main.rs:20-34 | on a clock with both fields `<= 59`, not at zero, one tick lowers `60*minutes + seconds` by exactly 1, keeps it well-formed, and shows 5 characters reading back as the new fields |
| Countdown.RunDownCounts | src/main.rs:20-34 | after `k <= T` ticks a well-formed clock showing `T` seconds shows `T - k` |
| Countdown.DoneAfterAllSeconds | src/main.rs:20-34 | a well-formed clock showing `T > 0` seconds reports `"Timer Done"` on tick `T+1` and on none of ticks 1..`T` |

## Left out

- `play_sound` in src/timer_util.rs and src/ui_util.rs, and its tests: audio playback and file I/O. The call in `next_phase` at the end of the program is modelled as nothing. So the `ErrorOccurred` report it makes when playback fails is never produced, and the variant carries no error value.
- The `timer_sound` and `report_callback` fields of `TimerModel`: the first only feeds `play_sound`, the second is replaced by the returned reports.
- `data_to_ui` in src/ui_util.rs: view rendering of a `TimerOutput` type that is not part of this model.
- The `main` functions of src/main.rs, src/web_main.rs and src/old_main.rs: window set-up, shared `Arc<Mutex<_>>` state and repeating timer threads.
- The hard-coded program and the `TimerFSM` types used in src/old_main.rs and src/web_main.rs: they are not defined in the modelled files.
- TimerUtil.NextPhase: recursion is bounded by a fuel argument. A run that needs more fuel yields `OutOfFuel` instead of the code's unbounded recursion, which ends in a stack overflow.
- Release-build wrap-around of unsigned (`usize` and `u32`) subtraction is not modelled; the model takes the debug-build panic. Under wrap-around, `val - 1` at src/main.rs:16 would give `u32::MAX` and break the `<= max` bound of `DecrementClampAndReport`.
