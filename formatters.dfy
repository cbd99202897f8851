/** The frontend's duration formatters: `formatDuration` on a video card
    (`m:ss`) and `formatWatchTime` on the creator dashboard (`Xh Ym`).
    Durations are whole seconds, as the database stores them. */
module Formatters {
  import opened Common

  /** `secs.toString().padStart(2, '0')`. */
  function SecondsField(secs: nat): string {
    PadStart(NatToString(secs), 2, '0')
  }

  /** Below a minute the seconds field is exactly two digits and reads
      back as the number. */
  lemma SecondsFieldFacts(secs: nat)
    requires secs < 60
    ensures |SecondsField(secs)| == 2 && AllDigits(SecondsField(secs))
    ensures ParseNat(SecondsField(secs)) == secs
  {
    var digits := NatToString(secs);
    NatToStringBelow100(secs);
    ParseNatOfNatToString(secs);
    if secs < 10 {
      assert SecondsField(secs) == "0" + digits by {
        var r := SecondsField(secs);
        assert r[1..] == digits && r[0] == '0';
      }
      ParseNatLeadingZero(digits);
    } else {
      assert SecondsField(secs) == digits;
    }
  }

  /** `formatDuration`: empty for a missing or zero duration, otherwise
      minutes (not capped at an hour), a colon and two-digit seconds. */
  function FormatDuration(seconds: Option<nat>): string {
    if seconds.None? || seconds.value == 0 then ""
    else NatToString(seconds.value / 60) + ":" + SecondsField(seconds.value % 60)
  }

  /** The value an `m:ss` text stands for, if it has that shape. */
  function ParseDuration(text: string): Option<nat> {
    DurationOfFields(Split(text, ':'))
  }

  /** The value of the colon-separated fields of an `m:ss` text. */
  function DurationOfFields(parts: seq<string>): Option<nat> {
    if |parts| == 2 && parts[0] != "" && AllDigits(parts[0]) && |parts[1]| == 2 && AllDigits(parts[1])
    then Some(ParseNat(parts[0]) * 60 + ParseNat(parts[1]))
    else None
  }

  /** Two digit strings joined by a colon split back into the two. */
  lemma SplitDigitsAtColon(a: string, b: string)
    requires AllDigits(a) && AllDigits(b)
    ensures Split(a + ":" + b, ':') == [a, b]
  {
    assert a + ":" + b == a + [':'] + b;
    SplitAtSep(a, b, ':');
    assert ':' !in a;
    assert ':' !in b;
    SplitNoSep(a, ':');
    SplitNoSep(b, ':');
  }

  /** An `m:ss` text made of a digit string, a colon and two digits
      reads as minutes times sixty plus seconds. */
  lemma DurationOfTwoFields(a: string, b: string)
    requires a != "" && AllDigits(a) && |b| == 2 && AllDigits(b)
    ensures DurationOfFields([a, b]) == Some(ParseNat(a) * 60 + ParseNat(b))
  {
    var parts := [a, b];
    assert parts[0] == a && parts[1] == b;
  }

  lemma ParseDurationOf(a: string, b: string)
    requires a != "" && AllDigits(a) && |b| == 2 && AllDigits(b)
    ensures ParseDuration(a + ":" + b) == Some(ParseNat(a) * 60 + ParseNat(b))
  {
    SplitDigitsAtColon(a, b);
    DurationOfTwoFields(a, b);
  }

  /** Minutes, a colon and two-digit seconds read back as the minutes
      times sixty plus the seconds. */
  lemma ClockRoundTrip(minutes: nat, secs: nat)
    requires secs < 60
    ensures ParseDuration(NatToString(minutes) + ":" + SecondsField(secs)) == Some(minutes * 60 + secs)
  {
    SecondsFieldFacts(secs);
    ParseNatOfNatToString(minutes);
    ParseDurationOf(NatToString(minutes), SecondsField(secs));
  }

  /** A formatted duration reads back as the number of seconds it shows. */
  lemma FormatDurationRoundTrip(seconds: nat)
    requires seconds > 0
    ensures ParseDuration(FormatDuration(Some(seconds))) == Some(seconds)
  {
    var minutes, secs := seconds / 60, seconds % 60;
    assert minutes * 60 + secs == seconds;
    assert FormatDuration(Some(seconds)) == NatToString(minutes) + ":" + SecondsField(secs);
    ClockRoundTrip(minutes, secs);
  }

  /** Nothing is shown exactly for a missing or zero duration. (Any
      other duration has the `m:ss` shape, since it parses back.) */
  lemma FormatDurationEmptyIff(seconds: Option<nat>)
    ensures FormatDuration(seconds) == "" <==> seconds.None? || seconds.value == 0
  {
    if seconds.Some? && seconds.value > 0 {
      assert |NatToString(seconds.value / 60)| >= 1;
    }
  }

  /** There is no hour field: an hour shows as sixty minutes. */
  lemma FormatDurationHour()
    ensures FormatDuration(Some(3600)) == "60:00"
  {
    assert NatToString(6) == ['6'];
    assert NatToString(60) == NatToString(6) + ['0'];
    assert NatToString(0) == "0";
    assert PadStart("0", 2, '0') == PadStart("00", 2, '0') == "00";
    assert FormatDuration(Some(3600)) == NatToString(60) + ":" + SecondsField(0);
  }

  /** `formatWatchTime`: whole hours, then the whole minutes left over. */
  function FormatWatchTime(seconds: nat): string {
    NatToString(seconds / 3600) + "h " + NatToString(seconds % 3600 / 60) + "m"
  }

  /** The hours and minutes shown: the minutes are below sixty, and
      together they are the input with the leftover seconds dropped. */
  lemma WatchTimeParts(seconds: nat)
    ensures var h := seconds / 3600; var m := seconds % 3600 / 60;
      m < 60 && h * 3600 + m * 60 == seconds - seconds % 60 &&
      h * 3600 + m * 60 <= seconds < h * 3600 + m * 60 + 60
  {
    var h := seconds / 3600;
    var rest := seconds % 3600;
    var m := rest / 60;
    assert seconds == 3600 * h + rest;
    assert rest == 60 * m + rest % 60;
    assert seconds % 60 == rest % 60 by {
      assert seconds == 60 * (60 * h + m) + rest % 60;
      DivExact(60 * h + m, rest % 60, 60);
    }
  }

  /** The seconds an `Xh Ym` text stands for, if it has that shape. */
  function ParseWatchTime(text: string): Option<nat> {
    var parts := Split(text, ' ');
    if |parts| == 2 && |parts[0]| >= 2 && |parts[1]| >= 2 &&
       Last(parts[0]) == 'h' && Last(parts[1]) == 'm' &&
       AllDigits(parts[0][..|parts[0]| - 1]) && AllDigits(parts[1][..|parts[1]| - 1])
    then Some(ParseNat(parts[0][..|parts[0]| - 1]) * 3600 + ParseNat(parts[1][..|parts[1]| - 1]) * 60)
    else None
  }

  /** A number of seconds reads back from its watch-time text rounded
      down to the minute. */
  lemma FormatWatchTimeRoundTrip(seconds: nat)
    ensures ParseWatchTime(FormatWatchTime(seconds)) == Some(seconds - seconds % 60)
  {
    var h := NatToString(seconds / 3600);
    var m := NatToString(seconds % 3600 / 60);
    var left, right := h + "h", m + "m";
    assert FormatWatchTime(seconds) == left + [' '] + right;
    SplitAtSep(left, right, ' ');
    assert ' ' !in h && ' ' !in m;
    SplitNoSep(left, ' ');
    SplitNoSep(right, ' ');
    assert left[..|left| - 1] == h && right[..|right| - 1] == m;
    ParseNatOfNatToString(seconds / 3600);
    ParseNatOfNatToString(seconds % 3600 / 60);
    WatchTimeParts(seconds);
  }

  /** No watch time shows as `0h 0m`, and so does anything under a
      minute. */
  lemma FormatWatchTimeZero(seconds: nat)
    requires seconds < 60
    ensures FormatWatchTime(seconds) == "0h 0m"
  {
  }
}
