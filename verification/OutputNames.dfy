/** The generated name of a recording (`default_output_file_name` of `apps/recorder/src/config.rs`):
    sorted by name, recordings are sorted by the local date and time they were named with. */
module OutputNames {
  import opened Decimal

  /** A civil date and time, to the second. */
  datatype Civil = Civil(year: int, month: nat, day: nat, hour: nat, minute: nat, second: nat)

  /** What the clock hands over: the parts of a date and time, and a year of at most four digits. */
  predicate Valid(c: Civil) {
    && -9999 <= c.year <= 9999
    && 1 <= c.month <= 12 && 1 <= c.day <= 31
    && c.hour < 24 && c.minute < 60 && c.second < 60
  }

  /** A year is padded to four digits, and a negative one carries its sign. */
  function YearText(year: int): string {
    if year < 0 then "-" + Pad(Text(-year), 4) else Pad(Text(year), 4)
  }

  function Two(n: nat): string {
    Pad(Text(n), 2)
  }

  function Stamp(now: Civil): string {
    YearText(now.year) + Two(now.month) + Two(now.day) + "-" + Two(now.hour) + Two(now.minute) + Two(now.second)
  }

  function FileName(now: Civil): string {
    "clipped-" + Stamp(now) + ".mkv"
  }

  // ------------------------------------------------------------------------------
  // Order
  // ------------------------------------------------------------------------------

  /** Names as a directory listing compares them, one byte after another. */
  predicate Before(a: string, b: string) {
    if b == "" then false
    else if a == "" then true
    else a[0] < b[0] || (a[0] == b[0] && Before(a[1..], b[1..]))
  }

  predicate Earlier(a: Civil, b: Civil) {
    || a.year < b.year
    || (a.year == b.year && a.month < b.month)
    || (a.year == b.year && a.month == b.month && a.day < b.day)
    || (a.year == b.year && a.month == b.month && a.day == b.day && a.hour < b.hour)
    || (a.year == b.year && a.month == b.month && a.day == b.day && a.hour == b.hour && a.minute < b.minute)
    || (a.year == b.year && a.month == b.month && a.day == b.day && a.hour == b.hour && a.minute == b.minute
        && a.second < b.second)
  }

  /** What comes first decides, and a tie is broken by what follows. */
  lemma {:induction false} FirstPartDecides(a: string, b: string, x: string, y: string)
    requires |a| == |b|
    ensures Before(a + x, b + y) <==> Before(a, b) || (a == b && Before(x, y))
  {
    if a == "" {
      assert a + x == x && b + y == y;
    } else {
      assert (a + x)[1..] == a[1..] + x && (b + y)[1..] == b[1..] + y;
      assert a == [a[0]] + a[1..] && b == [b[0]] + b[1..];
      FirstPartDecides(a[1..], b[1..], x, y);
    }
  }

  lemma LastDigit(c: char, d: char)
    ensures Before([c], [d]) <==> c < d
  {
  }

  /** Digits of one length are in the order of the numbers they stand for. */
  lemma {:induction false} NumbersInOrder(a: string, b: string)
    requires |a| == |b| && IsNumber(a) && IsNumber(b)
    ensures Before(a, b) <==> Parse(a) < Parse(b)
    ensures a == b <==> Parse(a) == Parse(b)
  {
    if a != "" {
      var n := |a| - 1;
      NumbersInOrder(a[..n], b[..n]);
      FirstPartDecides(a[..n], b[..n], [a[n]], [b[n]]);
      LastDigit(a[n], b[n]);
      assert a == a[..n] + [a[n]] && b == b[..n] + [b[n]];
      assert a[n] < b[n] <==> ValueOf(a[n]) < ValueOf(b[n]);
    }
  }

  lemma PaddedInOrder(a: nat, b: nat, width: nat)
    requires width > 0 && a < Pow10(width) && b < Pow10(width)
    ensures |Pad(Text(a), width)| == width
    ensures Before(Pad(Text(a), width), Pad(Text(b), width)) <==> a < b
    ensures Pad(Text(a), width) == Pad(Text(b), width) <==> a == b
  {
    FixedWidth(a, width);
    FixedWidth(b, width);
    NumbersInOrder(Pad(Text(a), width), Pad(Text(b), width));
  }

  /** A padded part in front of the rest of a name. */
  lemma PartDecides(a: nat, b: nat, width: nat, x: string, y: string)
    requires width > 0 && a < Pow10(width) && b < Pow10(width) && |x| == |y|
    ensures |Pad(Text(a), width) + x| == |Pad(Text(b), width) + y|
    ensures Before(Pad(Text(a), width) + x, Pad(Text(b), width) + y) <==> a < b || (a == b && Before(x, y))
    ensures Pad(Text(a), width) + x == Pad(Text(b), width) + y <==> a == b && x == y
  {
    PaddedInOrder(a, b, width);
    var p, q := Pad(Text(a), width), Pad(Text(b), width);
    PaddedInOrder(b, a, width);
    FirstPartDecides(p, q, x, y);
    SameParts(p, q, x, y);
  }

  lemma SameParts(p: string, q: string, x: string, y: string)
    requires |p| == |q|
    ensures p + x == q + y <==> p == q && x == y
  {
    if p + x == q + y {
      assert (p + x)[..|p|] == p && (q + y)[..|q|] == q;
      assert (p + x)[|p|..] == x && (q + y)[|q|..] == y;
    }
  }

  lemma SameFront(front: string, x: string, y: string)
    ensures Before(front + x, front + y) <==> Before(x, y)
    ensures front + x == front + y <==> x == y
  {
    FirstPartDecides(front, front, x, y);
    SameIsNotBefore(front);
    SameParts(front, front, x, y);
  }

  lemma {:induction false} SameIsNotBefore(a: string)
    ensures !Before(a, a)
  {
    if a != "" {
      SameIsNotBefore(a[1..]);
    }
  }

  // The name, from each of its parts on.
  function FromSecond(c: Civil): string { Two(c.second) + ".mkv" }
  function FromMinute(c: Civil): string { Two(c.minute) + FromSecond(c) }
  function FromHour(c: Civil): string { Two(c.hour) + FromMinute(c) }
  function FromDay(c: Civil): string { Two(c.day) + ("-" + FromHour(c)) }
  function FromMonth(c: Civil): string { Two(c.month) + FromDay(c) }

  lemma Regrouped(a: string, b: string, c: string, d: string, e: string, f: string, g: string, end: string)
    ensures a + b + c + d + e + f + g + end == a + (b + (c + (d + (e + (f + (g + end))))))
  {
  }

  lemma NameFromMonth(c: Civil)
    ensures FileName(c) == "clipped-" + (YearText(c.year) + FromMonth(c))
  {
    Regrouped(YearText(c.year), Two(c.month), Two(c.day), "-", Two(c.hour), Two(c.minute), Two(c.second), ".mkv");
    assert FileName(c) == "clipped-" + (Stamp(c) + ".mkv");
  }

  lemma TimesInOrder(a: Civil, b: Civil)
    requires Valid(a) && Valid(b)
    ensures |FromHour(a)| == |FromHour(b)|
    ensures Before(FromHour(a), FromHour(b)) <==> a.hour < b.hour || (a.hour == b.hour && (a.minute < b.minute || (a.minute == b.minute && a.second < b.second)))
    ensures FromHour(a) == FromHour(b) <==> a.hour == b.hour && a.minute == b.minute && a.second == b.second
  {
    assert Pow10(2) == 100;
    SameIsNotBefore(".mkv");
    PartDecides(a.second, b.second, 2, ".mkv", ".mkv");
    PartDecides(a.minute, b.minute, 2, FromSecond(a), FromSecond(b));
    PartDecides(a.hour, b.hour, 2, FromMinute(a), FromMinute(b));
  }

  lemma DatesInOrder(a: Civil, b: Civil)
    requires Valid(a) && Valid(b)
    ensures |FromMonth(a)| == |FromMonth(b)|
    ensures Before(FromMonth(a), FromMonth(b)) <==> a.month < b.month || (a.month == b.month && (a.day < b.day || (a.day == b.day && Before(FromHour(a), FromHour(b)))))
    ensures FromMonth(a) == FromMonth(b) <==> a.month == b.month && a.day == b.day && FromHour(a) == FromHour(b)
  {
    assert Pow10(2) == 100;
    TimesInOrder(a, b);
    SameFront("-", FromHour(a), FromHour(b));
    PartDecides(a.day, b.day, 2, "-" + FromHour(a), "-" + FromHour(b));
    PartDecides(a.month, b.month, 2, FromDay(a), FromDay(b));
  }

  lemma YearsInOrder(a: Civil, b: Civil)
    requires Valid(a) && Valid(b) && a.year >= 0 && b.year >= 0
    ensures Before(FileName(a), FileName(b)) <==> a.year < b.year || (a.year == b.year && Before(FromMonth(a), FromMonth(b)))
    ensures FileName(a) == FileName(b) <==> a.year == b.year && FromMonth(a) == FromMonth(b)
  {
    assert Pow10(4) == 10000;
    DatesInOrder(a, b);
    PartDecides(a.year, b.year, 4, FromMonth(a), FromMonth(b));
    NameFromMonth(a);
    NameFromMonth(b);
    SameFront("clipped-", YearText(a.year) + FromMonth(a), YearText(b.year) + FromMonth(b));
  }

  /** Names sort as their dates and times do. */
  lemma NamesInOrder(a: Civil, b: Civil)
    requires Valid(a) && Valid(b) && a.year >= 0 && b.year >= 0
    ensures Before(FileName(a), FileName(b)) <==> Earlier(a, b)
  {
    YearsInOrder(a, b);
    DatesInOrder(a, b);
    TimesInOrder(a, b);
  }

  /** And two are one name exactly when no part of them differs. */
  lemma NamesAreDistinct(a: Civil, b: Civil)
    requires Valid(a) && Valid(b) && a.year >= 0 && b.year >= 0
    ensures FileName(a) == FileName(b) <==> a == b
  {
    YearsInOrder(a, b);
    DatesInOrder(a, b);
    TimesInOrder(a, b);
  }

  // ------------------------------------------------------------------------------
  // Reading a name
  // ------------------------------------------------------------------------------

  /** The number that part of a name stands for. */
  function PartOf(name: string, from: nat, to: nat): nat
    requires from <= to <= |name|
  {
    Parse(name[from..to])
  }

  lemma TwoDigits(n: nat)
    requires n < 100
    ensures |Two(n)| == 2 && Parse(Two(n)) == n
  {
    assert Pow10(2) == 100;
    FixedWidth(n, 2);
  }

  lemma StampParts(year: string, month: string, day: string, hour: string, minute: string, second: string)
    requires |year| == 4 && |month| == |day| == |hour| == |minute| == |second| == 2
    ensures var name := "clipped-" + (year + month + day + "-" + hour + minute + second) + ".mkv";
            && |name| == 27
            && name[8..12] == year && name[12..14] == month && name[14..16] == day
            && name[17..19] == hour && name[19..21] == minute && name[21..23] == second
  {
    var stamp := year + month + day + "-" + hour + minute + second;
    assert stamp[..4] == year && stamp[4..6] == month && stamp[6..8] == day;
    assert stamp[9..11] == hour && stamp[11..13] == minute && stamp[13..15] == second;
    PartsOfStamp("clipped-" + stamp + ".mkv", stamp);
  }

  lemma PartsOfStamp(name: string, stamp: string)
    requires |stamp| == 15 && name == "clipped-" + stamp + ".mkv"
    ensures |name| == 27
    ensures forall i, j :: 0 <= i <= j <= 15 ==> name[8 + i..8 + j] == stamp[i..j]
  {
    assert name[8..23] == stamp;
    forall i, j | 0 <= i <= j <= 15
      ensures name[8 + i..8 + j] == stamp[i..j]
    {
      assert name[8 + i..8 + j] == name[8..23][i..j];
    }
  }

  lemma Edges(stamp: string)
    requires |stamp| == 15
    ensures ("clipped-" + stamp + ".mkv")[..8] == "clipped-" && ("clipped-" + stamp + ".mkv")[23..] == ".mkv"
  {
  }

  /** A name is `clipped-`, the date, a dash, the time and `.mkv`, and reads back to both. */
  lemma NameReadsBack(c: Civil)
    requires Valid(c) && c.year >= 0
    ensures var name := FileName(c);
            && |name| == 27 && name[..8] == "clipped-" && name[16] == '-' && name[23..] == ".mkv"
            && c == Civil(PartOf(name, 8, 12), PartOf(name, 12, 14), PartOf(name, 14, 16),
                          PartOf(name, 17, 19), PartOf(name, 19, 21), PartOf(name, 21, 23))
  {
    assert Pow10(4) == 10000;
    FixedWidth(c.year, 4);
    TwoDigits(c.month);
    TwoDigits(c.day);
    TwoDigits(c.hour);
    TwoDigits(c.minute);
    TwoDigits(c.second);
    StampParts(YearText(c.year), Two(c.month), Two(c.day), Two(c.hour), Two(c.minute), Two(c.second));
    Edges(Stamp(c));
    assert Stamp(c)[8] == '-';
    PartsOfStamp(FileName(c), Stamp(c));
    assert FileName(c)[16..17] == Stamp(c)[8..9];
  }
}
