/**
 * The `duration_format` template filter: renders an elapsed time as
 * "H:MM" from one hour on and as "Mm" below it.
 */
module DurationFilters {
  import opened Wrappers
  import opened Text
  import opened Models

  const SecondsPerHour := 3600
  const SecondsPerMinute := 60

  /**
   * What a template can hand the filter: `None`, a `timedelta` (given by its
   * length in microseconds, negative for a negative span), or any other
   * value, given by its `str()` form and its Python truth value.
   */
  datatype FilterInput = NoneValue | Delta(micros: int) | Other(text: string, truthy: bool)

  /** Python's `not value`: `None`, a zero-length `timedelta`, or any other falsy value. */
  predicate Falsy(v: FilterInput) {
    match v
    case NoneValue => true
    case Delta(us) => us == 0
    case Other(_, truthy) => !truthy
  }

  /**
   * `int(duration.total_seconds())`: the whole seconds of the span, with the
   * fraction cut off toward zero (never rounded up in magnitude).
   */
  function TotalSeconds(micros: int): (s: int)
    ensures micros >= 0 ==> 0 <= s && s * MicrosPerSecond <= micros < (s + 1) * MicrosPerSecond
    ensures micros < 0 ==> s <= 0 && (s - 1) * MicrosPerSecond < micros <= s * MicrosPerSecond
  {
    if micros >= 0 then micros / MicrosPerSecond else -((-micros) / MicrosPerSecond)
  }

  /** `total_seconds // 3600`: Python's floor division, which Dafny's `/` agrees with for a positive divisor. */
  function Hours(totalSeconds: int): (h: int)
    ensures h * SecondsPerHour <= totalSeconds < (h + 1) * SecondsPerHour
  {
    totalSeconds / SecondsPerHour
  }

  /** `(total_seconds % 3600) // 60`: the minutes left over after the whole hours. */
  function Minutes(totalSeconds: int): (m: int)
    ensures 0 <= m < 60
    ensures Hours(totalSeconds) * SecondsPerHour + m * SecondsPerMinute <= totalSeconds
              < Hours(totalSeconds) * SecondsPerHour + (m + 1) * SecondsPerMinute
  {
    (totalSeconds % SecondsPerHour) / SecondsPerMinute
  }

  /** The filter itself. */
  function DurationFormat(v: FilterInput): (r: string)
    ensures Falsy(v) ==> r == ""
    ensures v.Other? && !Falsy(v) ==> r == v.text
    ensures v.Delta? && !Falsy(v) ==> r != [] && (r[|r| - 1] == 'm' <==> Hours(TotalSeconds(v.micros)) <= 0)
  {
    if Falsy(v) then ""
    else
      match v
      case NoneValue => ""
      case Delta(us) =>
        var total := TotalSeconds(us);
        var hours := Hours(total);
        var minutes := Minutes(total);
        if hours > 0 then NatToString(hours) + ":" + Pad2(minutes)
        else NatToString(minutes) + "m"
      case Other(text, _) => text
  }

  /**
   * Reads a rendered duration back as a number of whole minutes. Only the
   * two spellings the filter writes are accepted: "Mm" with M a numeral
   * without leading zeros below 60, and "H:MM" with H a numeral without
   * leading zeros of at least 1 and MM two digits below 60; "H:MM" stands
   * for H * 60 + MM minutes.
   */
  function RenderedMinutes(t: string): Option<int> {
    if |t| >= 2 && t[|t| - 1] == 'm' && Canonical(t[..|t| - 1]) && DigitsValue(t[..|t| - 1]) < 60 then
      Some(DigitsValue(t[..|t| - 1]))
    else if |t| >= 4 && t[|t| - 3] == ':' && Canonical(t[..|t| - 3]) && DigitsValue(t[..|t| - 3]) >= 1
            && AllDigits(t[|t| - 2..]) && DigitsValue(t[|t| - 2..]) < 60 then
      Some(DigitsValue(t[..|t| - 3]) * 60 + DigitsValue(t[|t| - 2..]))
    else None
  }

  /**
   * A number of minutes has at most one rendering: two texts the reader
   * accepts and reads as the same number are the same text.
   */
  lemma RenderedMinutesDetermineText(t1: string, t2: string)
    requires RenderedMinutes(t1).Some? && RenderedMinutes(t1) == RenderedMinutes(t2)
    ensures t1 == t2
  {
    if t1[|t1| - 1] == 'm' && t2[|t2| - 1] == 'm' {
      MinutesTextUnique(t1, t2);
    } else if t1[|t1| - 1] != 'm' && t2[|t2| - 1] != 'm' {
      HoursTextUnique(t1, t2);
    }
  }

  /** Two "Mm" texts for the same number of minutes are the same text. */
  lemma MinutesTextUnique(t1: string, t2: string)
    requires |t1| >= 2 && t1[|t1| - 1] == 'm' && Canonical(t1[..|t1| - 1])
    requires |t2| >= 2 && t2[|t2| - 1] == 'm' && Canonical(t2[..|t2| - 1])
    requires DigitsValue(t1[..|t1| - 1]) == DigitsValue(t2[..|t2| - 1])
    ensures t1 == t2
  {
    var p1, p2 := t1[..|t1| - 1], t2[..|t2| - 1];
    CanonicalRoundTrip(p1);
    CanonicalRoundTrip(p2);
    assert t1 == p1 + "m" && t2 == p2 + "m";
  }

  /** Two "H:MM" texts for the same number of minutes are the same text. */
  lemma HoursTextUnique(t1: string, t2: string)
    requires |t1| >= 4 && t1[|t1| - 3] == ':' && Canonical(t1[..|t1| - 3]) && AllDigits(t1[|t1| - 2..])
    requires |t2| >= 4 && t2[|t2| - 3] == ':' && Canonical(t2[..|t2| - 3]) && AllDigits(t2[|t2| - 2..])
    requires DigitsValue(t1[|t1| - 2..]) < 60 && DigitsValue(t2[|t2| - 2..]) < 60
    requires DigitsValue(t1[..|t1| - 3]) * 60 + DigitsValue(t1[|t1| - 2..])
          == DigitsValue(t2[..|t2| - 3]) * 60 + DigitsValue(t2[|t2| - 2..])
    ensures t1 == t2
  {
    var h1, h2 := t1[..|t1| - 3], t2[..|t2| - 3];
    var m1, m2 := t1[|t1| - 2..], t2[|t2| - 2..];
    HoursMinutesUnique(DigitsValue(h1), DigitsValue(m1), DigitsValue(h2), DigitsValue(m2));
    CanonicalRoundTrip(h1);
    CanonicalRoundTrip(h2);
    Pad2Inverse(m1);
    Pad2Inverse(m2);
    assert t1 == h1 + ":" + m1 && t2 == h2 + ":" + m2;
  }

  /** Hours and leftover minutes below 60 are fixed by the total they make. */
  lemma HoursMinutesUnique(h1: int, m1: int, h2: int, m2: int)
    requires 0 <= m1 < 60 && 0 <= m2 < 60 && h1 * 60 + m1 == h2 * 60 + m2
    ensures h1 == h2 && m1 == m2
  {
  }

  /** Whole minutes of a non-negative number of seconds split as hours and leftover minutes. */
  lemma WholeMinutesSplit(total: int)
    requires total >= 0
    ensures total / SecondsPerMinute == Hours(total) * 60 + Minutes(total)
  {
    var h, rest := total / 3600, total % 3600;
    assert total == h * 3600 + rest;
    assert total == (h * 60 + rest / 60) * 60 + rest % 60;
  }

  /**
   * For a non-empty span of non-negative length, the text shown denotes
   * exactly the whole minutes elapsed: seconds are dropped, never rounded up,
   * and nothing else is lost.
   */
  lemma RenderedMinutesAreWholeMinutes(us: int)
    requires us != 0 && TotalSeconds(us) >= 0
    ensures RenderedMinutes(DurationFormat(Delta(us))) == Some(TotalSeconds(us) / 60)
  {
    var total := TotalSeconds(us);
    var h, m := Hours(total), Minutes(total);
    var t := DurationFormat(Delta(us));
    WholeMinutesSplit(total);
    if h > 0 {
      var hs, ms := NatToString(h), Pad2(m);
      assert t == hs + ":" + ms;
      assert t[|t| - 1] == ms[1];
      assert t[..|t| - 3] == hs;
      assert t[|t| - 2..] == ms;
      NatToStringRoundTrip(h);
      Pad2RoundTrip(m);
      assert Canonical(hs);
    } else {
      assert h == 0;
      var ms := NatToString(m);
      assert t == ms + "m";
      assert t[..|t| - 1] == ms;
      NatToStringRoundTrip(m);
      assert Canonical(ms);
    }
  }

  /**
   * A negative span (an end time before the start time) is never shown as
   * hours: it is rendered "Mm" with the leftover minutes of a floor
   * division, so -1h30m shows as "30m".
   */
  lemma NegativeSpanShowsLeftoverMinutes(us: int)
    requires TotalSeconds(us) < 0
    ensures RenderedMinutes(DurationFormat(Delta(us))) == Some(Minutes(TotalSeconds(us)))
  {
    var m := Minutes(TotalSeconds(us));
    var t := DurationFormat(Delta(us));
    assert t[..|t| - 1] == NatToString(m);
    NatToStringRoundTrip(m);
    assert Canonical(NatToString(m));
  }

  /** 2h37m45s is shown as "2:37". */
  lemma HoursAndMinutesExample()
    ensures DurationFormat(Delta((2 * 3600 + 37 * 60 + 45) * MicrosPerSecond)) == "2:37"
  {
    assert Minutes(9465) == 37;
    assert NatToString(37) == NatToString(3) + [DigitChar(7)];
  }

  /** 45m30s is shown as "45m". */
  lemma MinutesOnlyExample()
    ensures DurationFormat(Delta((45 * 60 + 30) * MicrosPerSecond)) == "45m"
  {
    assert Minutes(2730) == 45;
    assert NatToString(45) == NatToString(4) + [DigitChar(5)];
  }

  /** 1h0m30s is shown as "1:00": the 30 seconds are dropped, not rounded. */
  lemma ZeroMinutesExample()
    ensures DurationFormat(Delta((3600 + 30) * MicrosPerSecond)) == "1:00"
  {
    assert Minutes(3630) == 0;
  }

  /** `None` is shown as nothing, and the text "2:30" as itself. */
  lemma FallbackExamples()
    ensures DurationFormat(NoneValue) == ""
    ensures DurationFormat(Other("2:30", true)) == "2:30"
  {
  }

  /** A span of minus 1h30m is shown as "30m". */
  lemma NegativeSpanExample()
    ensures DurationFormat(Delta(-5400 * MicrosPerSecond)) == "30m"
  {
    assert TotalSeconds(-5400 * MicrosPerSecond) == -5400;
    assert Minutes(-5400) == 30;
    assert NatToString(30) == NatToString(3) + [DigitChar(0)];
  }
}
