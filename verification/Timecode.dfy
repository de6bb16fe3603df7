/** Positions on a timeline as this window writes them (`apps/desktop/src/timecode.ts`), and reading
    one back. */
module Timecode {
  import opened Decimal

  const NANOS_PER_SECOND := 1000000000.0

  /** The remainder whose sign is the dividend's. */
  function Remainder(a: int, b: int): int
    requires b > 0
  {
    if a >= 0 then a % b else -(-a % b)
  }

  function Padded(value: int, width: nat): string {
    Pad(IntText(value), width)
  }

  function WithoutHours(minutes: int, seconds: int, millis: int): string {
    Padded(minutes, 2) + ":" + Padded(seconds, 2) + "." + Padded(millis, 3)
  }

  /** Minutes, seconds and milliseconds; hours in front only when there are any. */
  function FormatTimecode(nanos: int): string {
    var totalMs := nanos / 1000000;
    var millis := Remainder(totalMs, 1000);
    var totalSeconds := totalMs / 1000;
    var seconds := Remainder(totalSeconds, 60);
    var minutes := Remainder(totalSeconds / 60, 60);
    var hours := totalSeconds / 3600;
    if hours == 0 then WithoutHours(minutes, seconds, millis)
    else IntText(hours) + ":" + WithoutHours(minutes, seconds, millis)
  }

  // ------------------------------------------------------------------------------
  // Reading it back
  // ------------------------------------------------------------------------------

  /** The milliseconds of `mm:ss.mmm`, by where its digits stand. */
  function ReadClock(s: string): nat
    requires |s| == 9
  {
    (Parse(s[..2]) * 60 + Parse(s[3..5])) * 1000 + Parse(s[6..])
  }

  /** The milliseconds a timecode stands for: its last nine characters are the clock, and whatever is
      before them and a colon is hours. */
  function ReadTimecode(s: string): nat {
    if |s| < 9 then 0
    else if |s| == 9 then ReadClock(s)
    else Parse(s[..|s| - 10]) * 3600000 + ReadClock(s[|s| - 9..])
  }

  lemma ClockReads(minutes: nat, seconds: nat, millis: nat)
    requires minutes < 60 && seconds < 60 && millis < 1000
    ensures |WithoutHours(minutes, seconds, millis)| == 9
    ensures ReadClock(WithoutHours(minutes, seconds, millis)) == (minutes * 60 + seconds) * 1000 + millis
  {
    assert Pow10(2) == 100 && Pow10(3) == 1000;
    FixedWidth(minutes, 2);
    FixedWidth(seconds, 2);
    FixedWidth(millis, 3);
    var m, s, f := Padded(minutes, 2), Padded(seconds, 2), Padded(millis, 3);
    var all := m + ":" + s + "." + f;
    assert all[..2] == m && all[3..5] == s && all[6..] == f;
  }

  lemma HoursRead(hours: nat, clock: string)
    requires |clock| == 9
    ensures ReadTimecode(IntText(hours) + ":" + clock) == hours * 3600000 + ReadClock(clock)
  {
    TextParses(hours);
    var all := Text(hours) + ":" + clock;
    assert all[..|all| - 10] == Text(hours) && all[|all| - 9..] == clock;
  }

  lemma Digits(totalMs: nat)
    ensures var hours, minutes, seconds := totalMs / 1000 / 3600, totalMs / 1000 / 60 % 60, totalMs / 1000 % 60;
            totalMs == hours * 3600000 + (minutes * 60 + seconds) * 1000 + totalMs % 1000
  {
    var seconds := totalMs / 1000;
    assert seconds / 60 / 60 == seconds / 3600;
  }

  /** Every position that is not negative reads back to its millisecond, whatever the hour. */
  lemma TimecodeReadsBack(nanos: nat)
    ensures ReadTimecode(FormatTimecode(nanos)) == nanos / 1000000
  {
    var totalMs := nanos / 1000000;
    var hours, minutes, seconds := totalMs / 1000 / 3600, totalMs / 1000 / 60 % 60, totalMs / 1000 % 60;
    Digits(totalMs);
    ClockReads(minutes, seconds, totalMs % 1000);
    HoursRead(hours, WithoutHours(minutes, seconds, totalMs % 1000));
  }

  /** A timecode is `mm:ss.mmm`, and the hours and a colon in front exactly when there are any, with no
      zeros in front of them. */
  lemma TimecodeShape(nanos: nat)
    ensures var s, hours := FormatTimecode(nanos), nanos / 3600000000000;
            && |s| >= 9 && s[|s| - 7] == ':' && s[|s| - 4] == '.'
            && IsNumber(s[|s| - 9..|s| - 7]) && IsNumber(s[|s| - 6..|s| - 4]) && IsNumber(s[|s| - 3..])
            && (hours == 0 ==> |s| == 9)
            && (hours > 0 ==> |s| > 10 && s[|s| - 10] == ':' && s[..|s| - 10] == Text(hours) && s[0] != '0')
  {
    var totalMs := nanos / 1000000;
    var hours, minutes, seconds := totalMs / 1000 / 3600, totalMs / 1000 / 60 % 60, totalMs / 1000 % 60;
    HoursOf(nanos);
    FormatIs(nanos, hours, minutes, seconds, totalMs % 1000);
    ShapeOf(hours, minutes, seconds, totalMs % 1000);
  }

  lemma FormatIs(nanos: nat, hours: nat, minutes: nat, seconds: nat, millis: nat)
    requires millis == nanos / 1000000 % 1000 && seconds == nanos / 1000000 / 1000 % 60
    requires minutes == nanos / 1000000 / 1000 / 60 % 60 && hours == nanos / 1000000 / 1000 / 3600
    ensures FormatTimecode(nanos) == WithHours(hours, WithoutHours(minutes, seconds, millis))
  {
  }

  function WithHours(hours: nat, clock: string): string {
    if hours == 0 then clock else IntText(hours) + ":" + clock
  }

  lemma ShapeOf(hours: nat, minutes: nat, seconds: nat, millis: nat)
    requires minutes < 60 && seconds < 60 && millis < 1000
    ensures var s := WithHours(hours, WithoutHours(minutes, seconds, millis));
            && |s| >= 9 && s[|s| - 7] == ':' && s[|s| - 4] == '.'
            && IsNumber(s[|s| - 9..|s| - 7]) && IsNumber(s[|s| - 6..|s| - 4]) && IsNumber(s[|s| - 3..])
            && (hours == 0 ==> |s| == 9)
            && (hours > 0 ==> |s| > 10 && s[|s| - 10] == ':' && s[..|s| - 10] == Text(hours) && s[0] != '0')
  {
    ClockShape(minutes, seconds, millis);
    ShapeOfClock(hours, WithoutHours(minutes, seconds, millis));
  }

  lemma ShapeOfClock(hours: nat, clock: string)
    requires |clock| == 9 && clock[2] == ':' && clock[5] == '.'
    requires IsNumber(clock[..2]) && IsNumber(clock[3..5]) && IsNumber(clock[6..])
    ensures var s := WithHours(hours, clock);
            && |s| >= 9 && s[|s| - 7] == ':' && s[|s| - 4] == '.'
            && IsNumber(s[|s| - 9..|s| - 7]) && IsNumber(s[|s| - 6..|s| - 4]) && IsNumber(s[|s| - 3..])
            && (hours == 0 ==> |s| == 9)
            && (hours > 0 ==> |s| > 10 && s[|s| - 10] == ':' && s[..|s| - 10] == Text(hours) && s[0] != '0')
  {
    if hours > 0 {
      NoZeroInFront(hours);
      HoursInFront(Text(hours), clock);
    } else {
      assert clock[0..2] == clock[..2] && clock[6..9] == clock[6..];
    }
  }

  lemma HoursOf(nanos: nat)
    ensures nanos / 1000000 / 1000 / 3600 == nanos / 3600000000000
  {
  }

  lemma HoursInFront(hours: string, clock: string)
    requires hours != "" && |clock| == 9
    ensures var s := hours + ":" + clock;
            && |s| > 10 && s[..|s| - 10] == hours && s[|s| - 10] == ':' && s[0] == hours[0]
            && s[|s| - 7] == clock[2] && s[|s| - 4] == clock[5]
            && s[|s| - 9..|s| - 7] == clock[..2] && s[|s| - 6..|s| - 4] == clock[3..5] && s[|s| - 3..] == clock[6..]
  {
  }

  lemma ClockShape(minutes: nat, seconds: nat, millis: nat)
    requires minutes < 60 && seconds < 60 && millis < 1000
    ensures var s := WithoutHours(minutes, seconds, millis);
            && |s| == 9 && s[2] == ':' && s[5] == '.'
            && IsNumber(s[..2]) && IsNumber(s[3..5]) && IsNumber(s[6..])
  {
    assert Pow10(2) == 100 && Pow10(3) == 1000;
    FixedWidth(minutes, 2);
    FixedWidth(seconds, 2);
    FixedWidth(millis, 3);
    var m, s, f := Padded(minutes, 2), Padded(seconds, 2), Padded(millis, 3);
    var all := m + ":" + s + "." + f;
    assert all[..2] == m && all[3..5] == s && all[6..] == f;
  }

  /** Two positions are written alike exactly when they are in one millisecond. */
  lemma AlikeInOneMillisecond(a: nat, b: nat)
    ensures FormatTimecode(a) == FormatTimecode(b) <==> a / 1000000 == b / 1000000
  {
    TimecodeReadsBack(a);
    TimecodeReadsBack(b);
  }

  // ------------------------------------------------------------------------------
  // What a screen reader is given for a marker
  // ------------------------------------------------------------------------------

  /** `markerName` of `apps/desktop/src/recordingMarks.ts`: what happened, when, what it says of `others` there
      and `who` said so. */
  function MarkerName(happened: string, nanos: int, others: string, who: string): string {
    happened + " at " + FormatTimecode(nanos) + others + ", " + who
  }

  lemma MiddleIsKept(before: string, a: string, b: string, after: string)
    ensures before + a + after == before + b + after <==> a == b
  {
    if before + a + after == before + b + after {
      assert |before + a + after| == |before| + |a| + |after|;
      assert |before + b + after| == |before| + |b| + |after|;
      assert (before + a + after)[|before|..|before| + |a|] == a;
      assert (before + b + after)[|before|..|before| + |b|] == b;
    }
  }

  lemma NameEnds(happened: string, nanos: nat, others: string, who: string)
    ensures MarkerName(happened, nanos, others, who) == (happened + " at ") + FormatTimecode(nanos) + (others + ", " + who)
  {
  }

  /** Two markers that say the same of themselves otherwise are announced alike exactly when they seek
      to one millisecond. */
  lemma MarkersTellApart(happened: string, a: nat, b: nat, others: string, who: string)
    ensures MarkerName(happened, a, others, who) == MarkerName(happened, b, others, who) <==> a / 1000000 == b / 1000000
  {
    NameEnds(happened, a, others, who);
    NameEnds(happened, b, others, who);
    MiddleIsKept(happened + " at ", FormatTimecode(a), FormatTimecode(b), others + ", " + who);
    AlikeInOneMillisecond(a, b);
  }
}
