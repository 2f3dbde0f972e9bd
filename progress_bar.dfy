/** The progress bar's arithmetic (components/ProgressBar.tsx): the
    `m:ss` rendering of a playback time and the filled percentage. */
module ProgressBar {
  import opened Types
  import opened Text

  /** A playback time as `formatTime` sees it: NaN, or a non-negative
      number of seconds. For such a number the result depends only on its
      whole seconds, so only those are kept. */
  datatype TimeValue = NaN | Whole(seconds: nat)

  /** `formatTime`: minutes, a colon, then the seconds within the minute,
      given a leading '0' when below 10. Minutes are not capped at 59. */
  function FormatTime(time: TimeValue): (text: string)
    ensures time.NaN? ==> text == "0:00"
    ensures time.Whole? ==> text == DecimalString(time.seconds / 60) + ":" + Padded(time.seconds % 60, 2)
  {
    match time
    case NaN => "0:00"
    case Whole(s) =>
      var minutes, seconds := s / 60, s % 60;
      SecondsPadded(seconds);
      DecimalString(minutes) + ":" + (if seconds < 10 then "0" else "") + DecimalString(seconds)
  }

  /** The seconds field always has two digits: the optional '0' and the
      decimal rendering of a number below 60 make `Padded(_, 2)`. */
  lemma SecondsPadded(n: nat)
    requires n < 60
    ensures (if n < 10 then "0" else "") + DecimalString(n) == Padded(n, 2)
  {
    assert Padded(n, 2) == Padded(n / 10, 1) + [DigitChar(n % 10)];
    assert Padded(n / 10, 1) == [DigitChar(n / 10)];
    if n >= 10 {
      assert DecimalString(n) == DecimalString(n / 10) + [DigitChar(n % 10)];
    }
  }

  /** Reads an `m:ss` text back into whole seconds: a non-empty run of
      minute digits, a colon, and two digits below 60. */
  function ReadTime(text: string): (seconds: Option<nat>)
    ensures seconds.Some? ==> |text| >= 4 && text[|text| - 3] == ':'
  {
    if |text| < 4 || text[|text| - 3] != ':' then None
    else
      var m, ss := text[..|text| - 3], text[|text| - 2..];
      if AllDigits(m) && AllDigits(ss) && ParseDecimal(ss) < 60
      then Some(ParseDecimal(m) * 60 + ParseDecimal(ss))
      else None
  }

  /** minutes * 60 + seconds gives back the input: reading a formatted
      time recovers its whole seconds. */
  lemma ReadFormattedTime(s: nat)
    ensures ReadTime(FormatTime(Whole(s))) == Some(s)
  {
    var text := FormatTime(Whole(s));
    var m := DecimalString(s / 60);
    assert text == m + ":" + Padded(s % 60, 2);
    assert text[..|text| - 3] == m;
    assert text[|text| - 2..] == Padded(s % 60, 2);
    ParsePadded(s % 60, 2);
  }

  /** Conversely, a text that ReadTime accepts and whose minutes carry no
      leading zero is exactly how its value is formatted. */
  lemma FormatReadTime(text: string)
    requires ReadTime(text).Some?
    requires text[0] == '0' ==> |text| == 4
    ensures FormatTime(Whole(ReadTime(text).value)) == text
  {
    var m, ss := text[..|text| - 3], text[|text| - 2..];
    var s := ReadTime(text).value;
    assert s / 60 == ParseDecimal(m) && s % 60 == ParseDecimal(ss);
    assert m[0] == text[0];
    DecimalStringUnique(m);
    PadParsed(ss);
    assert text == m + ":" + ss;
  }

  /** A '0' is put before the seconds exactly when they are below 10. */
  lemma ZeroPadded(s: nat)
    ensures var text := FormatTime(Whole(s));
      text[|text| - 2] == '0' <==> s % 60 < 10
  {
    var text := FormatTime(Whole(s));
    var n := s % 60;
    assert text[|text| - 2..] == Padded(n, 2);
    assert Padded(n, 2) == Padded(n / 10, 1) + [DigitChar(n % 10)];
    assert text[|text| - 2] == DigitChar(n / 10);
  }

  /** Minutes run past 59: 4503 seconds are "75:03". */
  lemma LongDuration()
    ensures FormatTime(Whole(4503)) == "75:03"
  {
    LongDurationFields();
  }

  lemma LongDurationFields()
    ensures DecimalString(75) == "75" && Padded(3, 2) == "03"
  {
  }

  /** A JavaScript number as a duration: NaN, positive infinity (a stream
      of unknown length) or a finite value. */
  datatype Duration = NotANumber | Infinity | Finite(value: real)

  /** A duration is falsy when it is 0 or NaN. */
  predicate Falsy(duration: Duration)
  {
    duration.NotANumber? || duration == Finite(0.0)
  }

  /** `percent`: the share of the duration played, or 0 when the duration
      is falsy (and when it is infinite, since a finite time divided by
      infinity is 0). Within the track it lies between 0 and 100. */
  function Percent(current: real, duration: Duration): (p: real)
    ensures Falsy(duration) || duration.Infinity? ==> p == 0.0
    ensures duration.Finite? && duration.value != 0.0 ==> p * duration.value == current * 100.0
    ensures duration.Finite? && 0.0 <= current <= duration.value ==> 0.0 <= p <= 100.0
  {
    match duration
    case Finite(d) => if d == 0.0 then 0.0 else current / d * 100.0
    case _ => 0.0
  }
}
