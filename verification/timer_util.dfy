/** The timer state machine of src/timer_util.rs: a program of phases, a
    three-state controller, and the recursive phase interpreter `next_phase`.

    The source mutates a `TimerModel` in place and reports to the view through
    a callback; here every step is a pure function from the model to an
    `Outcome` that carries the new model and the reports, in order. The
    source's panics (unsigned underflow, an index past the end of the program)
    are outcomes of their own, and the unbounded recursion of `next_phase` is
    cut off by a fuel argument whose exhaustion is reported as `OutOfFuel`. */
module TimerUtil {
  import opened RustPrelude

  /** What the model reports to the view. `ErrorOccurred` carries an error
      value the model does not look into; it is only produced when playing
      the end-of-program sound fails, which is outside this model. */
  datatype ViewDataUpdate =
    | ErrorOccurred
    | ProgramDone
    | CurrentTime(seconds: U32)
    | WaitingForInput
    | Paused

  /** One step of a timer program. */
  datatype ProgramPhases =
    /** count down `seconds` */
    | TimeFor(seconds: U32)
    /** report that input is awaited; the phase is left on the next `Step`,
        since `Interact` is ignored */
    | WaitForInput
    /** on first arrival arm a counter with `times - 1` and jump back so that
        phase `step` runs again; while the counter is armed, count it down (or
        disarm it at zero) and fall through without jumping */
    | RepeatProgram(step: nat, times: nat)
    /** jump back so that phase `step` runs next, forever */
    | Loop(step: nat)

  datatype TimerState = Idle | Running | Paused

  datatype TimerTransitions = Interact | Start | Step | Stop | Pause | Unpause | Wait

  /** The model's fields, without the sound path (only used to play sound)
      and the report callback (replaced by returned reports). */
  datatype TimerModel = TimerModel(
    state: TimerState,
    seconds: Option<U32>,
    repetitions: Option<nat>,
    phase: nat,
    program: seq<ProgramPhases>)

  /** The result of a step: the new model and the reports made, in order; or
      the panic that aborted it; or not enough fuel to finish the recursion. */
  datatype Outcome = Done(model: TimerModel, events: seq<ViewDataUpdate>) | Panicked(reason: PanicReason) | OutOfFuel

  /** `TimerModel::new`. */
  function New(program: seq<ProgramPhases>): (m: TimerModel)
    ensures m.state == Idle && m.program == program
    ensures m.phase == 0 && m.seconds == None && m.repetitions == None
    ensures Valid(m)
  {
    TimerModel(Idle, None, None, 0, program)
  }

  /** The phases a running model can stop at. */
  predicate IsTerminal(p: ProgramPhases) {
    p.TimeFor? || p.WaitForInput?
  }

  /** A model that is not idle sits on a countdown or input phase, and never
      on phase 0. */
  predicate Valid(m: TimerModel) {
    m.state != Idle ==> 1 <= m.phase < |m.program| && IsTerminal(m.program[m.phase])
  }

  /** `next_phase`. Its `TimerState` result is returned as the new model's
      `state` field, which is where the only caller stores it.

      It steps the cursor forward and enters the phase found there: a countdown
      or an input wait is entered and reported; `RepeatProgram` and `Loop`
      move the cursor and recurse. A cursor already at or past the end of the
      program finishes it. */
  function NextPhase(m: TimerModel, fuel: nat): (r: Outcome)
    // it only ever stops, reporting exactly one thing, at the end of the
    // program or on a countdown or input phase
    ensures r.Done? ==> r.model.program == m.program && |r.events| == 1
    ensures r.Done? ==> r.model.state != TimerState.Paused && Valid(r.model)
    ensures r.Done? && r.model.state == Idle ==>
      r.events == [ProgramDone] && r.model.phase >= |m.program| && r.model.seconds == m.seconds
    ensures r.Done? && r.model.state == Running ==>
      match m.program[r.model.phase]
      case TimeFor(n) => r.model.seconds == Some(n) && r.events == [CurrentTime(n)]
      case _ => r.model.seconds == m.seconds && r.events == [WaitingForInput]
    // a cursor past the end is never moved
    ensures fuel > 0 && m.phase >= |m.program| ==> r.Done? && r.model == m.(state := Idle)
    decreases fuel
  {
    if fuel == 0 then OutOfFuel
    else if m.phase >= |m.program| then
      Done(m.(state := Idle), [ProgramDone])
    else
      var p := m.phase + 1;
      if p >= |m.program| then Panicked(IndexOutOfBounds(p, |m.program|))
      else
        match m.program[p]
        case TimeFor(n) =>
          Done(m.(phase := p, seconds := Some(n), state := Running), [CurrentTime(n)])
        case WaitForInput =>
          Done(m.(phase := p, state := Running), [WaitingForInput])
        case RepeatProgram(step, times) =>
          (match m.repetitions
           case Some(repeats) =>
             var left := if repeats != 0 then Some(repeats - 1) else None;
             NextPhase(m.(phase := p, repetitions := left), fuel - 1)
           case None =>
             if times == 0 || step == 0 then Panicked(SubtractOverflow)
             else NextPhase(m.(phase := step - 1, repetitions := Some(times - 1)), fuel - 1))
        case Loop(step) =>
          if step == 0 then Panicked(SubtractOverflow)
          else NextPhase(m.(phase := step - 1), fuel - 1)
  }

  /** `next`: one transition of the controller. Only `Start` from `Idle` and
      a `Step` that finds the countdown already cleared call `next_phase`, so
      only they can panic or run out of fuel. */
  function Next(m: TimerModel, t: TimerTransitions, fuel: nat): (r: Outcome)
    ensures !r.Done? ==>
      (m.state == Idle && t == Start) || (m.state == Running && t == Step && m.seconds == None)
    ensures r.Done? ==> r.model.program == m.program && |r.events| <= 1
    ensures r.Done? && Valid(m) ==> Valid(r.model)
    ensures t == Stop ==> r == Done(m.(state := Idle), [])
  {
    match (m.state, t)
    case (_, Stop) => Done(m.(state := Idle), [])
    case (Idle, Start) => NextPhase(m, fuel)
    case (Idle, _) => Done(m, [])
    case (Running, Step) =>
      (match m.seconds
       case Some(s) =>
         Done(m.(seconds := if s != 0 then Some(s - 1) else None), [])
       case None => NextPhase(m, fuel))
    case (Running, Pause) => Done(m.(state := TimerState.Paused), [ViewDataUpdate.Paused])
    case (Running, _) => Done(m, [])
    case (Paused, Unpause) => Done(m.(state := Running), [])
    case (Paused, _) => Done(m, [])
  }
}
