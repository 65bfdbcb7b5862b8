/** The `HH:MM:SS` rendering of a number of seconds used by the timer's view
    (`seconds_to_h_m_s_display_string` in src/ui_util.rs). */
module UiUtil {
  import opened RustPrelude
  import opened Format

  /** A number of seconds split into hours, minutes and seconds. */
  datatype Hms = Hms(hours: nat, minutes: nat, seconds: nat)

  /** The three `usize` fields the source computes; both subtractions stay
      non-negative, so none of them can underflow. */
  function SplitHms(total: nat): (f: Hms)
    ensures f.hours == total / 3600
    ensures f.minutes < 60 && f.seconds < 60
    ensures f.hours * 3600 + f.minutes * 60 + f.seconds == total
  {
    var hours := total / 3600;
    var minutes: nat := (total - hours * 3600) / 60;
    var seconds: nat := total - hours * 3600 - minutes * 60;
    Hms(hours, minutes, seconds)
  }

  /** `format!("{:02}:{:02}:{:02}", hours, minutes, seconds)`. */
  function SecondsToHmsDisplayString(total: nat): (s: string)
    ensures |s| >= 8 && (total < 360000 <==> |s| == 8)
    ensures s[|s| - 6] == ':' && s[|s| - 3] == ':'
  {
    var f := SplitHms(total);
    ZeroPad(f.hours, 2) + ":" + ZeroPad(f.minutes, 2) + ":" + ZeroPad(f.seconds, 2)
  }

  /** Reference decoder for the display: `H…H:MM:SS` with at least two hour
      digits, read back as a number of seconds. */
  function ParseHms(s: string): Option<nat> {
    if |s| < 8 || s[|s| - 6] != ':' || s[|s| - 3] != ':' then None
    else
      var h := s[..|s| - 6];
      var m := s[|s| - 5..|s| - 3];
      var sec := s[|s| - 2..];
      if AllDigits(h) && AllDigits(m) && AllDigits(sec)
      then Some(ParseDecimal(h) * 3600 + ParseDecimal(m) * 60 + ParseDecimal(sec))
      else None
  }

  /** The display string always reads back as the number of seconds it shows. */
  lemma DisplayRoundTrip(total: nat)
    ensures ParseHms(SecondsToHmsDisplayString(total)) == Some(total)
  {
    var f := SplitHms(total);
    var hh, mm, ss := ZeroPad(f.hours, 2), ZeroPad(f.minutes, 2), ZeroPad(f.seconds, 2);
    var s := SecondsToHmsDisplayString(total);
    assert s == hh + ":" + mm + ":" + ss;
    assert |mm| == 2 && |ss| == 2;
    assert s[..|s| - 6] == hh;
    assert s[|s| - 5..|s| - 3] == mm;
    assert s[|s| - 2..] == ss;
  }

  /** Two different durations are never displayed the same way. */
  lemma DisplayInjective(a: nat, b: nat)
    requires SecondsToHmsDisplayString(a) == SecondsToHmsDisplayString(b)
    ensures a == b
  {
    DisplayRoundTrip(a);
    DisplayRoundTrip(b);
  }

  /** Below 100, `{:02}` is the tens digit followed by the units digit. */
  lemma TwoDigitPad(n: nat)
    requires n < 100
    ensures ZeroPad(n, 2) == [DigitChar(n / 10), DigitChar(n % 10)]
  {
    if n >= 10 {
      assert Decimal(n) == Decimal(n / 10) + [DigitChar(n % 10)];
    }
  }

  /** The display of `h:m:s` for fields below 60 (and hours below 100). */
  lemma DisplayOf(total: nat, h: nat, m: nat, s: nat)
    requires h < 100 && m < 60 && s < 60 && total == h * 3600 + m * 60 + s
    ensures SecondsToHmsDisplayString(total)
         == [DigitChar(h / 10), DigitChar(h % 10), ':', DigitChar(m / 10), DigitChar(m % 10), ':', DigitChar(s / 10), DigitChar(s % 10)]
  {
    assert SplitHms(total) == Hms(h, m, s);
    TwoDigitPad(h);
    TwoDigitPad(m);
    TwoDigitPad(s);
  }

  /** The vectors of the source's unit tests. */
  lemma JustSeconds()
    ensures SecondsToHmsDisplayString(15) == "00:00:15"
  {
    DisplayOf(15, 0, 0, 15);
  }

  lemma JustMinutes()
    ensures SecondsToHmsDisplayString(15 * 60) == "00:15:00"
  {
    DisplayOf(15 * 60, 0, 15, 0);
  }

  lemma JustHours()
    ensures SecondsToHmsDisplayString(15 * 3600) == "15:00:00"
  {
    DisplayOf(54000, 15, 0, 0);
    assert DigitChar(1) == '1' && DigitChar(5) == '5' && DigitChar(0) == '0';
  }

  lemma MinuteThreshold()
    ensures SecondsToHmsDisplayString(60) == "00:01:00"
  {
    DisplayOf(60, 0, 1, 0);
  }

  lemma HourThreshold()
    ensures SecondsToHmsDisplayString(3600) == "01:00:00"
  {
    DisplayOf(3600, 1, 0, 0);
  }
}
