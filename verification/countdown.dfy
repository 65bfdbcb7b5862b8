/** The minutes:seconds countdown of src/main.rs: a clamping decrement with a
    borrow flag, and the per-tick update of a `(seconds, minutes)` pair with
    its `MM:SS` rendering. */
module Countdown {
  import opened RustPrelude
  import opened Format

  /** `(overflowed, new value)` as returned by `decrement_clamp_and_report`. */
  datatype Clamp = Clamp(overflow: bool, value: U32)

  /** One decrement of `val` towards `min`: reaching `min` reports an overflow
      and wraps to `max`, a value above `max` is clamped down to `max`, and
      otherwise the value drops by one. The `val - 1` is on a `u32`, so it
      panics when `val` is 0 and 0 is not `min`. */
  function DecrementClampAndReport(min: U32, max: U32, val: U32): (r: Checked<Clamp>)
    ensures r.Panic? <==> val == 0 && min != 0
    ensures min == 0 ==> r.Ok?
    ensures r.Ok? ==> (r.value.overflow <==> val == min)
    ensures r.Ok? ==> r.value.value <= max
    ensures r.Ok? && (val == min || val > max) ==> r.value.value == max
    ensures r.Ok? && val != min && val <= max ==> r.value.value + 1 == val
  {
    if val == min then Ok(Clamp(true, max))
    else if val > max then Ok(Clamp(false, max))
    else if val == 0 then Panic(SubtractOverflow)
    else Ok(Clamp(false, val - 1))
  }

  /** `format!("{:02}:{:02}", minutes, seconds)` */
  function MinutesSeconds(minutes: nat, seconds: nat): (s: string)
    ensures s != TimerDone
  {
    assert TimerDone[0] == 'T';
    ZeroPad(minutes, 2) + ":" + ZeroPad(seconds, 2)
  }

  /** The rendering is the padded minutes, a colon, and the two-digit
      seconds, and it reads back as both fields; it has five characters
      exactly when the minutes have at most two digits. */
  lemma MinutesSecondsReadBack(minutes: nat, seconds: nat)
    requires seconds < 100
    ensures var s := MinutesSeconds(minutes, seconds);
      && |s| >= 5 && s[|s| - 3] == ':'
      && AllDigits(s[..|s| - 3]) && ParseDecimal(s[..|s| - 3]) == minutes
      && AllDigits(s[|s| - 2..]) && ParseDecimal(s[|s| - 2..]) == seconds
      && (|s| == 5 <==> minutes < 100)
  {
    var mm, ss := ZeroPad(minutes, 2), ZeroPad(seconds, 2);
    var s := MinutesSeconds(minutes, seconds);
    assert |ss| == 2;
    assert s == mm + ":" + ss;
    assert s[..|s| - 3] == mm;
    assert s[|s| - 2..] == ss;
  }

  /** The new values of the two `&mut u32` arguments and the returned string. */
  datatype Tick = Tick(seconds: U32, minutes: U32, display: string)

  const TimerDone: string := "Timer Done"

  /** One tick of `decrement_seconds`: seconds count down, borrowing a minute
      when they reach zero; seconds above 59 are clamped to 59, and so are
      minutes above 59 when a minute is borrowed; at `00:00` the
      countdown stays at zero and reports that it is done. */
  function DecrementSeconds(seconds: U32, minutes: U32): (r: Tick)
    ensures r.seconds <= 59
    ensures r.display == TimerDone <==> seconds == 0 && minutes == 0
    ensures r.display != TimerDone ==> r.display == MinutesSeconds(r.minutes, r.seconds)
    ensures 1 <= seconds <= 59 ==> r.seconds == seconds - 1 && r.minutes == minutes
    ensures seconds > 59 ==> r.seconds == 59 && r.minutes == minutes
    ensures seconds == 0 && 1 <= minutes <= 59 ==> r.seconds == 59 && r.minutes == minutes - 1
    ensures seconds == 0 && minutes > 59 ==> r.seconds == 59 && r.minutes == 59
    ensures seconds == 0 && minutes == 0 ==> r.seconds == 0 && r.minutes == 0
  {
    var sec := DecrementClampAndReport(0, 59, seconds).value;
    if !sec.overflow then
      Tick(sec.value, minutes, MinutesSeconds(minutes, sec.value))
    else
      var min := DecrementClampAndReport(0, 59, minutes).value;
      if min.overflow then Tick(0, 0, TimerDone)
      else Tick(sec.value, min.value, MinutesSeconds(min.value, sec.value))
  }

  /** The seconds left on a `minutes:seconds` clock. */
  function TotalSeconds(seconds: nat, minutes: nat): nat {
    60 * minutes + seconds
  }

  /** On a well-formed clock that is not at zero, one tick takes exactly one
      second off, keeps the clock well-formed, and displays five characters
      that read back as the new minutes and seconds. */
  lemma TickTakesOneSecond(seconds: U32, minutes: U32)
    requires seconds <= 59 && minutes <= 59 && !(seconds == 0 && minutes == 0)
    ensures var r := DecrementSeconds(seconds, minutes);
      && TotalSeconds(r.seconds, r.minutes) + 1 == TotalSeconds(seconds, minutes)
      && r.minutes <= 59
      && |r.display| == 5 && r.display[2] == ':'
      && AllDigits(r.display[..2]) && ParseDecimal(r.display[..2]) == r.minutes
      && AllDigits(r.display[3..]) && ParseDecimal(r.display[3..]) == r.seconds
  {
    var r := DecrementSeconds(seconds, minutes);
    assert r.display == ZeroPad(r.minutes, 2) + ":" + ZeroPad(r.seconds, 2);
    assert r.display[..2] == ZeroPad(r.minutes, 2);
    assert r.display[3..] == ZeroPad(r.seconds, 2);
  }

  /** The clock after `k >= 1` ticks. */
  function RunDown(seconds: U32, minutes: U32, k: nat): Tick
    requires k >= 1
    decreases k
  {
    if k == 1 then DecrementSeconds(seconds, minutes)
    else
      var r := RunDown(seconds, minutes, k - 1);
      DecrementSeconds(r.seconds, r.minutes)
  }

  /** Started from a well-formed clock showing `T` seconds, the first `T` ticks
      count it down one second at a time, so the clock shows `T - k` after `k`
      of them. */
  lemma {:induction false} RunDownCounts(seconds: U32, minutes: U32, k: nat)
    requires seconds <= 59 && minutes <= 59
    requires 1 <= k <= TotalSeconds(seconds, minutes)
    ensures var r := RunDown(seconds, minutes, k);
      && r.seconds <= 59 && r.minutes <= 59
      && TotalSeconds(r.seconds, r.minutes) + k == TotalSeconds(seconds, minutes)
    decreases k
  {
    if k == 1 {
      TickTakesOneSecond(seconds, minutes);
    } else {
      RunDownCounts(seconds, minutes, k - 1);
      var r := RunDown(seconds, minutes, k - 1);
      TickTakesOneSecond(r.seconds, r.minutes);
    }
  }

  /** None of the first `T` ticks of a well-formed clock showing `T` seconds
      reports `"Timer Done"`: each of them starts from a clock not at zero. */
  lemma NotDoneBeforeZero(seconds: U32, minutes: U32, k: nat)
    requires seconds <= 59 && minutes <= 59
    requires 1 <= k <= TotalSeconds(seconds, minutes)
    ensures RunDown(seconds, minutes, k).display != TimerDone
  {
    if k > 1 {
      RunDownCounts(seconds, minutes, k - 1);
      var prev := RunDown(seconds, minutes, k - 1);
      assert RunDown(seconds, minutes, k) == DecrementSeconds(prev.seconds, prev.minutes);
      assert TotalSeconds(prev.seconds, prev.minutes) > 0;
    }
  }

  /** A well-formed clock showing `T > 0` seconds reports `"Timer Done"` on
      tick `T + 1` and on none of the ticks before. */
  lemma DoneAfterAllSeconds(seconds: U32, minutes: U32)
    requires seconds <= 59 && minutes <= 59
    requires TotalSeconds(seconds, minutes) > 0
    ensures var t := TotalSeconds(seconds, minutes);
      && RunDown(seconds, minutes, t + 1).display == TimerDone
      && forall k :: 1 <= k <= t ==> RunDown(seconds, minutes, k).display != TimerDone
  {
    var t := TotalSeconds(seconds, minutes);
    RunDownCounts(seconds, minutes, t);
    var last := RunDown(seconds, minutes, t);
    assert RunDown(seconds, minutes, t + 1) == DecrementSeconds(last.seconds, last.minutes);
    assert last.seconds == 0 && last.minutes == 0;
    forall k | 1 <= k <= t
      ensures RunDown(seconds, minutes, k).display != TimerDone
    {
      NotDoneBeforeZero(seconds, minutes, k);
    }
  }
}
