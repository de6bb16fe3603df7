/** Whole numbers in decimal, as `String(n)` prints them, and `padStart`. */
module Decimal {

  const DIGITS := "0123456789"

  predicate IsDigit(c: char) {
    '0' <= c <= '9'
  }

  function ValueOf(c: char): nat {
    if IsDigit(c) then c as int - '0' as int else 0
  }

  function Text(n: nat): (s: string)
    ensures s != ""
  {
    if n < 10 then [DIGITS[n]] else Text(n / 10) + [DIGITS[n % 10]]
  }

  /** Negative numbers too. */
  function IntText(n: int): string {
    if n < 0 then "-" + Text(-n) else Text(n)
  }

  predicate IsNumber(s: string) {
    s == "" || (IsDigit(s[|s| - 1]) && IsNumber(s[..|s| - 1]))
  }

  /** The number that a string of digits stands for. */
  function Parse(s: string): nat {
    if s == "" then 0 else 10 * Parse(s[..|s| - 1]) + ValueOf(s[|s| - 1])
  }

  lemma {:induction false} TextParses(n: nat)
    ensures IsNumber(Text(n)) && Parse(Text(n)) == n
  {
    if n < 10 {
      assert Text(n)[..0] == "";
    } else {
      TextParses(n / 10);
      assert Text(n)[..|Text(n)| - 1] == Text(n / 10);
    }
  }

  /** A number is not written with zeros in front. */
  lemma {:induction false} NoZeroInFront(n: nat)
    ensures Text(n)[0] == '0' <==> n == 0
  {
    if n >= 10 {
      NoZeroInFront(n / 10);
      assert Text(n)[0] == Text(n / 10)[0];
    }
  }

  function Pad(s: string, width: nat): (r: string)
    decreases if width > |s| then width - |s| else 0
  {
    if |s| >= width then s else Pad("0" + s, width)
  }

  lemma {:induction false} ZeroInFront(s: string)
    requires IsNumber(s)
    ensures IsNumber("0" + s) && Parse("0" + s) == Parse(s)
    decreases |s|
  {
    if s == "" {
      assert "0"[..0] == "";
    } else {
      ZeroInFront(s[..|s| - 1]);
      assert ("0" + s)[..|s|] == "0" + s[..|s| - 1];
    }
  }

  lemma {:induction false} PadParses(s: string, width: nat)
    requires IsNumber(s)
    ensures IsNumber(Pad(s, width)) && Parse(Pad(s, width)) == Parse(s)
    ensures |Pad(s, width)| == if |s| > width then |s| else width
    decreases if width > |s| then width - |s| else 0
  {
    if |s| < width {
      ZeroInFront(s);
      PadParses("0" + s, width);
    }
  }

  function Pow10(k: nat): (p: nat)
    ensures p > 0
  {
    if k == 0 then 1 else 10 * Pow10(k - 1)
  }

  /** A number below 10^width needs no more than `width` digits. */
  lemma {:induction false} TextFits(n: nat, width: nat)
    requires width > 0 && n < Pow10(width)
    ensures |Text(n)| <= width
  {
    if n >= 10 {
      TextFits(n / 10, width - 1);
    }
  }

  /** So it is padded to exactly that many, and reads back. */
  lemma FixedWidth(n: nat, width: nat)
    requires width > 0 && n < Pow10(width)
    ensures |Pad(Text(n), width)| == width && IsNumber(Pad(Text(n), width)) && Parse(Pad(Text(n), width)) == n
  {
    TextFits(n, width);
    TextParses(n);
    PadParses(Text(n), width);
  }

  lemma {:induction false} NumbersAreDigits(s: string)
    requires IsNumber(s)
    ensures forall c :: c in s ==> IsDigit(c)
  {
    if s != "" {
      NumbersAreDigits(s[..|s| - 1]);
      assert s == s[..|s| - 1] + [s[|s| - 1]];
    }
  }

  function LeadingDigits(s: string): nat {
    if s == "" || !IsDigit(s[0]) then 0 else 1 + LeadingDigits(s[1..])
  }

  lemma {:induction false} NumberLeads(a: string, x: string)
    requires forall c :: c in a ==> IsDigit(c)
    requires x == "" || !IsDigit(x[0])
    ensures LeadingDigits(a + x) == |a|
  {
    if a == "" {
      assert a + x == x;
    } else {
      assert a[0] in a && forall c :: c in a[1..] ==> c in a;
      assert (a + x)[1..] == a[1..] + x;
      NumberLeads(a[1..], x);
    }
  }

  /** A number in front of something that is not a digit can be told from what follows it. */
  lemma NumberEnds(a: string, x: string, b: string, y: string)
    requires IsNumber(a) && IsNumber(b) && a + x == b + y
    requires x == "" || !IsDigit(x[0])
    requires y == "" || !IsDigit(y[0])
    ensures a == b && x == y
  {
    NumbersAreDigits(a);
    NumbersAreDigits(b);
    NumberLeads(a, x);
    NumberLeads(b, y);
    assert a == (a + x)[..|a|] && b == (b + y)[..|b|];
    assert x == (a + x)[|a|..] && y == (b + y)[|b|..];
  }
}
