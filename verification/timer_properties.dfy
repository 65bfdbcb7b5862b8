/** Properties of the timer state machine: what each transition does and
    leaves alone, how `next_phase` enters phases, and what runs of several
    transitions do. */
module TimerProperties {
  import opened RustPrelude
  import opened TimerUtil

  /** Several transitions in a row, as the view and the ticking driver deliver
      them; the reports of all of them, in order. Stops at the first panic or
      fuel exhaustion. */
  function Run(m: TimerModel, ts: seq<TimerTransitions>, fuel: nat): (r: Outcome)
    ensures r.Done? ==> r.model.program == m.program && |r.events| <= |ts|
    ensures r.Done? && Valid(m) ==> Valid(r.model)
    decreases |ts|
  {
    if |ts| == 0 then Done(m, [])
    else
      match Next(m, ts[0], fuel)
      case Done(m1, e1) =>
        (match Run(m1, ts[1..], fuel)
         case Done(m2, e2) => Done(m2, e1 + e2)
         case other => other)
      case other => other
  }

  function Steps(k: nat): (ts: seq<TimerTransitions>)
    ensures |ts| == k && forall i :: 0 <= i < k ==> ts[i] == Step
  {
    seq(k, _ => Step)
  }

  // ----- the controller -----

  /** `Stop` idles the model from any state and touches nothing else. */
  lemma StopOnlyIdles(m: TimerModel, fuel: nat)
    ensures var r := Next(m, Stop, fuel);
      && r.Done? && r.events == [] && r.model.state == Idle
      && r.model.phase == m.phase && r.model.seconds == m.seconds
      && r.model.repetitions == m.repetitions && r.model.program == m.program
  {
  }

  /** The transitions each state ignores change nothing and report nothing. */
  lemma IgnoredTransitions(m: TimerModel, t: TimerTransitions, fuel: nat)
    requires || (m.state == Idle && t != Start && t != Stop)
             || (m.state == Running && t != Step && t != Pause && t != Stop)
             || (m.state == TimerState.Paused && t != Unpause && t != Stop)
    ensures Next(m, t, fuel) == Done(m, [])
  {
  }

  /** An idle model stays exactly as it is until it is started. */
  lemma {:induction false} IdleUntilStarted(m: TimerModel, ts: seq<TimerTransitions>, fuel: nat)
    requires m.state == Idle
    requires forall i :: 0 <= i < |ts| ==> ts[i] != Start
    ensures Run(m, ts, fuel) == Done(m, [])
    decreases |ts|
  {
    if |ts| > 0 {
      assert Next(m, ts[0], fuel) == Done(m, []);
      IdleUntilStarted(m, ts[1..], fuel);
    }
  }

  /** A paused model stays exactly as it is until it is unpaused or stopped;
      in particular `Step` ticks do not count down. */
  lemma {:induction false} PausedUntilUnpaused(m: TimerModel, ts: seq<TimerTransitions>, fuel: nat)
    requires m.state == TimerState.Paused
    requires forall i :: 0 <= i < |ts| ==> ts[i] != Unpause && ts[i] != Stop
    ensures Run(m, ts, fuel) == Done(m, [])
    decreases |ts|
  {
    if |ts| > 0 {
      assert Next(m, ts[0], fuel) == Done(m, []);
      PausedUntilUnpaused(m, ts[1..], fuel);
    }
  }

  /** A `Step` while a countdown is set takes one second off, or clears it at
      zero; it never underflows and stays on the same phase. */
  lemma CountdownTick(m: TimerModel, fuel: nat)
    requires m.state == Running && m.seconds.Some?
    ensures var r := Next(m, Step, fuel); var s := m.seconds.value;
      && r.Done? && r.events == []
      && r.model == m.(seconds := if s > 0 then Some(s - 1) else None)
  {
  }

  /** A `Step` with the countdown cleared moves on to the next phase. */
  lemma StepAfterCountdown(m: TimerModel, fuel: nat)
    requires m.state == Running && m.seconds == None
    ensures Next(m, Step, fuel) == NextPhase(m, fuel)
  {
  }

  /** A countdown from `n` ticks through `n`, ..., `0` and the cleared state
      without reporting anything, and moves on at `Step` number `n + 2`. */
  lemma {:induction false} CountdownTakesNPlusTwoSteps(m: TimerModel, k: nat, fuel: nat)
    requires m.state == Running && m.seconds.Some?
    requires k <= m.seconds.value + 2
    ensures var n := m.seconds.value;
      if k <= n + 1 then
        Run(m, Steps(k), fuel) == Done(m.(seconds := if k <= n then Some(n - k) else None), [])
      else
        Run(m, Steps(k), fuel) == NextPhase(m.(seconds := None), fuel)
    decreases k
  {
    var n := m.seconds.value;
    if k > 0 {
      assert Steps(k)[1..] == Steps(k - 1);
      if n > 0 {
        var m1 := m.(seconds := Some(n - 1));
        assert Next(m, Step, fuel) == Done(m1, []);
        CountdownTakesNPlusTwoSteps(m1, k - 1, fuel);
      } else {
        var m1 := m.(seconds := None);
        assert Next(m, Step, fuel) == Done(m1, []);
        if k == 2 {
          var r := NextPhase(m1, fuel);
          assert Next(m1, Step, fuel) == r;
          assert Steps(1)[1..] == [];
          if r.Done? {
            assert Run(m1, Steps(1), fuel) == Done(r.model, r.events + []);
            assert [] + (r.events + []) == r.events;
          }
        }
      }
    }
  }

  /** Pausing a running model and unpausing it restores it exactly, with one
      `Paused` report; the countdown is left alone. */
  lemma PauseUnpauseRoundTrip(m: TimerModel, fuel: nat)
    requires m.state == Running
    ensures var p := Next(m, Pause, fuel);
      && p.Done? && p.model == m.(state := TimerState.Paused) && p.events == [ViewDataUpdate.Paused]
      && Next(p.model, Unpause, fuel) == Done(m, [])
  {
  }

  /** `Stop` does not rewind: starting again continues after the phase the
      model was stopped on. */
  lemma StopThenStartContinues(m: TimerModel, fuel: nat)
    ensures var s := Next(m, Stop, fuel);
      s.Done? && Next(s.model, Start, fuel) == NextPhase(m.(state := Idle), fuel)
  {
  }

  // ----- next_phase -----

  /** With the cursor at or past the end, `next_phase` finishes the program. */
  lemma ProgramDoneAtEnd(m: TimerModel, fuel: nat)
    requires fuel > 0 && m.phase >= |m.program|
    ensures NextPhase(m, fuel) == Done(m.(state := Idle), [ProgramDone])
  {
  }

  /** The cursor is stepped forward before the program is read, so leaving
      the last phase indexes one past the end. */
  lemma LastPhaseIndexPanics(m: TimerModel, fuel: nat)
    requires fuel > 0 && m.phase + 1 == |m.program|
    ensures NextPhase(m, fuel) == Panicked(IndexOutOfBounds(|m.program|, |m.program|))
  {
  }

  /** Entering a countdown sets it and reports its length. */
  lemma EnterTimeFor(m: TimerModel, fuel: nat, n: U32)
    requires fuel > 0 && m.phase + 1 < |m.program| && m.program[m.phase + 1] == TimeFor(n)
    ensures NextPhase(m, fuel)
         == Done(m.(phase := m.phase + 1, seconds := Some(n), state := Running), [CurrentTime(n)])
  {
  }

  /** Entering an input wait reports it and leaves the countdown as it was. */
  lemma EnterWaitForInput(m: TimerModel, fuel: nat)
    requires fuel > 0 && m.phase + 1 < |m.program| && m.program[m.phase + 1] == WaitForInput
    ensures NextPhase(m, fuel)
         == Done(m.(phase := m.phase + 1, state := Running), [WaitingForInput])
  {
  }

  /** `Loop { step }` makes phase `step` the next one entered; `step == 0`
      underflows. */
  lemma EnterLoop(m: TimerModel, fuel: nat, step: nat)
    requires fuel > 0 && m.phase + 1 < |m.program| && m.program[m.phase + 1] == Loop(step)
    ensures step == 0 ==> NextPhase(m, fuel) == Panicked(SubtractOverflow)
    ensures step > 0 ==> NextPhase(m, fuel) == NextPhase(m.(phase := step - 1), fuel - 1)
  {
  }

  /** The first `RepeatProgram` reached jumps like `Loop` and arms the
      repetition counter with `times - 1`; `times == 0` or `step == 0`
      underflows. */
  lemma EnterRepeatUnarmed(m: TimerModel, fuel: nat, step: nat, times: nat)
    requires fuel > 0 && m.phase + 1 < |m.program| && m.program[m.phase + 1] == RepeatProgram(step, times)
    requires m.repetitions == None
    ensures times == 0 || step == 0 ==> NextPhase(m, fuel) == Panicked(SubtractOverflow)
    ensures times > 0 && step > 0 ==>
      NextPhase(m, fuel) == NextPhase(m.(phase := step - 1, repetitions := Some(times - 1)), fuel - 1)
  {
  }

  /** With the counter armed, `RepeatProgram` counts it down (or disarms it at
      zero) and falls through to the following phase without jumping. */
  lemma EnterRepeatArmed(m: TimerModel, fuel: nat, step: nat, times: nat, r: nat)
    requires fuel > 0 && m.phase + 1 < |m.program| && m.program[m.phase + 1] == RepeatProgram(step, times)
    requires m.repetitions == Some(r)
    ensures NextPhase(m, fuel)
         == NextPhase(m.(phase := m.phase + 1, repetitions := if r > 0 then Some(r - 1) else None), fuel - 1)
  {
  }

  /** More fuel never changes an outcome that was reached. */
  lemma {:induction false} FuelMonotone(m: TimerModel, fuel: nat, more: nat)
    requires fuel <= more && !NextPhase(m, fuel).OutOfFuel?
    ensures NextPhase(m, more) == NextPhase(m, fuel)
    decreases fuel
  {
    if m.phase < |m.program| && m.phase + 1 < |m.program| {
      match m.program[m.phase + 1]
      case TimeFor(_) =>
      case WaitForInput =>
      case RepeatProgram(step, times) =>
        if m.repetitions.Some? {
          var r := m.repetitions.value;
          FuelMonotone(m.(phase := m.phase + 1, repetitions := if r != 0 then Some(r - 1) else None), fuel - 1, more - 1);
        } else if times != 0 && step != 0 {
          FuelMonotone(m.(phase := step - 1, repetitions := Some(times - 1)), fuel - 1, more - 1);
        }
      case Loop(step) =>
        if step != 0 {
          FuelMonotone(m.(phase := step - 1), fuel - 1, more - 1);
        }
    }
  }

  /** A `Loop` that jumps to itself recurses forever: no amount of fuel
      finishes `next_phase`. */
  lemma {:induction false} SelfLoopDiverges(m: TimerModel, fuel: nat)
    requires m.phase + 1 < |m.program| && m.program[m.phase + 1] == Loop(m.phase + 1)
    ensures NextPhase(m, fuel) == OutOfFuel
    decreases fuel
  {
    if fuel > 0 {
      assert m.(phase := m.phase) == m;
      SelfLoopDiverges(m, fuel - 1);
    }
  }

  /** Without `RepeatProgram` or `Loop`, one unit of fuel suffices, and a
      program that is entered from inside never reaches `ProgramDone`: the last
      phase is left by indexing past the end. */
  lemma StraightProgramNeverFinishes(m: TimerModel)
    requires forall i :: 0 <= i < |m.program| ==> IsTerminal(m.program[i])
    requires m.phase < |m.program|
    ensures var r := NextPhase(m, 1);
      && !r.OutOfFuel?
      && (r.Done? ==> r.model.state == Running && r.model.phase == m.phase + 1)
      && (r.Panicked? <==> m.phase + 1 == |m.program|)
  {
  }

  // ----- whole runs -----

  /** Starting a fresh model enters phase 1, not phase 0. */
  lemma FreshStartSkipsPhaseZero(program: seq<ProgramPhases>, fuel: nat)
    requires fuel > 0 && |program| >= 2 && IsTerminal(program[1])
    ensures var r := Next(New(program), Start, fuel);
      r.Done? && r.model.state == Running && r.model.phase == 1
  {
  }

  /** Starting a one-phase program panics rather than running its phase. */
  lemma OnePhaseProgramPanics(n: U32, fuel: nat)
    requires fuel > 0
    ensures Next(New([TimeFor(n)]), Start, fuel) == Panicked(IndexOutOfBounds(1, 1))
  {
  }

  /** Starting an empty program finishes it at once. */
  lemma EmptyProgramFinishes(fuel: nat)
    requires fuel > 0
    ensures Next(New([]), Start, fuel) == Done(New([]), [ProgramDone])
  {
  }

  /** For every `times >= 1`, a `RepeatProgram` runs the phase it jumps back to
      twice: the first arrival jumps, the second only counts down and falls
      through, leaving the counter armed at `times - 2` when `times >= 2`. */
  lemma RepeatRunsBlockTwice(times: nat, fuel: nat)
    requires times > 0 && fuel >= 2
    ensures var program := [WaitForInput, TimeFor(0), RepeatProgram(1, times), WaitForInput];
      var r := Run(New(program), [Start, Step, Step, Step, Step], fuel);
      && r.Done?
      && r.events == [CurrentTime(0), CurrentTime(0), WaitingForInput]
      && r.model.phase == 3
      && r.model.repetitions == (if times >= 2 then Some(times - 2) else None)
  {
    var program := [WaitForInput, TimeFor(0), RepeatProgram(1, times), WaitForInput];
    var m0 := New(program);
    var m1 := m0.(state := Running, phase := 1, seconds := Some(0));
    assert Next(m0, Start, fuel) == Done(m1, [CurrentTime(0)]);
    var m2 := m1.(seconds := None);
    assert Next(m1, Step, fuel) == Done(m2, []);
    var m3 := m2.(seconds := Some(0), repetitions := Some(times - 1));
    assert NextPhase(m2.(phase := 0, repetitions := Some(times - 1)), fuel - 1) == Done(m3, [CurrentTime(0)]);
    assert Next(m2, Step, fuel) == Done(m3, [CurrentTime(0)]);
    var m4 := m3.(seconds := None);
    assert Next(m3, Step, fuel) == Done(m4, []);
    var left := if times - 1 != 0 then Some(times - 2) else None;
    var m5 := m4.(phase := 3, repetitions := left);
    assert NextPhase(m4.(phase := 2, repetitions := left), fuel - 1) == Done(m5, [WaitingForInput]);
    assert Next(m4, Step, fuel) == Done(m5, [WaitingForInput]);
  }

  /** `Interact` is ignored, so a `WaitForInput` phase is left on the next
      `Step` tick. */
  lemma WaitForInputLeftOnStep(fuel: nat)
    requires fuel > 0
    ensures var r := Run(New([WaitForInput, WaitForInput, TimeFor(3)]), [Start, Interact, Step], fuel);
      && r.Done? && r.model.state == Running && r.model.phase == 2 && r.model.seconds == Some(3)
      && r.events == [WaitingForInput, CurrentTime(3)]
  {
    var program := [WaitForInput, WaitForInput, TimeFor(3)];
    var m1 := New(program).(state := Running, phase := 1);
    assert Next(New(program), Start, fuel) == Done(m1, [WaitingForInput]);
    assert Next(m1, Interact, fuel) == Done(m1, []);
    var m2 := m1.(phase := 2, seconds := Some(3));
    assert Next(m1, Step, fuel) == Done(m2, [CurrentTime(3)]);
  }

  /** A countdown kept through `Stop` is counted down inside the following
      `WaitForInput` phase after a restart. */
  lemma StaleCountdownAfterStop(fuel: nat)
    requires fuel > 0
    ensures var r := Run(New([WaitForInput, TimeFor(5), WaitForInput, TimeFor(1)]), [Start, Stop, Start, Step], fuel);
      && r.Done? && r.model.state == Running && r.model.phase == 2 && r.model.seconds == Some(4)
  {
    var program := [WaitForInput, TimeFor(5), WaitForInput, TimeFor(1)];
    var m1 := New(program).(state := Running, phase := 1, seconds := Some(5));
    assert Next(New(program), Start, fuel) == Done(m1, [CurrentTime(5)]);
    var m2 := m1.(state := Idle);
    assert Next(m1, Stop, fuel) == Done(m2, []);
    var m3 := m2.(state := Running, phase := 2);
    assert Next(m2, Start, fuel) == Done(m3, [WaitingForInput]);
    assert Next(m3, Step, fuel) == Done(m3.(seconds := Some(4)), []);
  }
}
