/** What a path is rendered as: its last component, and sixteen digits that stand for all of it (`apps/desktop/src/redactPath.ts`). */
module RedactedPath {
  import opened Decimal
  import opened Fnv
  import opened PathScanner

  const FILE_NAME_LIMIT: nat := 64

  predicate IsControl(c: char) {
    c as int <= 0x1f || c as int == 0x7f
  }

  // ------------------------------------------------------------------------------
  // The digest, printed
  // ------------------------------------------------------------------------------

  const HEX_DIGITS := "0123456789abcdef"

  /** `toString(16)`, without the special case of a lone zero. */
  function Hex(n: nat): string {
    if n == 0 then "" else Hex(n / 16) + [HEX_DIGITS[n % 16]]
  }

  function ToHex(n: nat): string {
    if n == 0 then "0" else Hex(n)
  }

  function HexValue(c: char): nat {
    if '0' <= c <= '9' then c as int - '0' as int
    else if 'a' <= c <= 'f' then c as int - 'a' as int + 10
    else 0
  }

  /** The number a string of hexadecimal digits stands for. */
  function ParseHex(s: string): nat {
    if s == "" then 0 else 16 * ParseHex(s[..|s| - 1]) + HexValue(s[|s| - 1])
  }

  predicate IsHex(s: string) {
    forall c :: c in s ==> '0' <= c <= '9' || 'a' <= c <= 'f'
  }

  function Pow16(k: nat): (p: nat)
    ensures p > 0
  {
    if k == 0 then 1 else 16 * Pow16(k - 1)
  }

  lemma {:induction false} HexParses(n: nat, width: nat)
    requires n < Pow16(width)
    ensures ParseHex(Hex(n)) == n && IsHex(Hex(n)) && |Hex(n)| <= width
  {
    if n > 0 {
      HexParses(n / 16, width - 1);
      assert Hex(n)[..|Hex(n)| - 1] == Hex(n / 16);
      assert HexValue(HEX_DIGITS[n % 16]) == n % 16;
    }
  }

  lemma {:induction false} ZeroesInFront(s: string)
    ensures ParseHex("0" + s) == ParseHex(s)
    decreases |s|
  {
    if s == "" {
      assert "0"[..0] == "";
    } else {
      ZeroesInFront(s[..|s| - 1]);
      assert ("0" + s)[..|s|] == "0" + s[..|s| - 1];
    }
  }

  lemma {:induction false} PaddingParses(s: string, width: nat)
    requires IsHex(s) && |s| <= width
    ensures |Pad(s, width)| == width && IsHex(Pad(s, width))
    ensures ParseHex(Pad(s, width)) == ParseHex(s)
    decreases width - |s|
  {
    if |s| < width {
      ZeroesInFront(s);
      PaddingParses("0" + s, width);
    }
  }

  function DigestText(hash: nat): string {
    Pad(ToHex(hash), 16)
  }

  /** Every digest is printed as sixteen hexadecimal digits, from which it can be read back. */
  lemma DigestReadsBack(hash: nat)
    requires hash < STATES
    ensures |DigestText(hash)| == 16 && IsHex(DigestText(hash)) && ParseHex(DigestText(hash)) == hash
  {
    assert Pow16(8) == 0x1_0000_0000;
    assert Pow16(12) == 0x1_0000_0000_0000;
    assert Pow16(16) == STATES;
    HexParses(hash, 16);
    if hash == 0 {
      assert "0"[..0] == "";
    }
    PaddingParses(ToHex(hash), 16);
  }

  // ------------------------------------------------------------------------------
  // The bytes hashed
  // ------------------------------------------------------------------------------

  function Utf8Of(c: char): seq<Byte> {
    var n := c as int;
    if n < 0x80 then [n]
    else if n < 0x800 then [0xc0 + n / 0x40, 0x80 + n % 0x40]
    else if n < 0x1_0000 then [0xe0 + n / 0x1000, 0x80 + n / 0x40 % 0x40, 0x80 + n % 0x40]
    else [0xf0 + n / 0x4_0000, 0x80 + n / 0x1000 % 0x40, 0x80 + n / 0x40 % 0x40, 0x80 + n % 0x40]
  }

  function Utf8(s: string): seq<Byte> {
    if s == "" then [] else Utf8Of(s[0]) + Utf8(s[1..])
  }

  predicate Continues(b: int) {
    0x80 <= b < 0xc0
  }

  function Over(b: int, base: int): int {
    b - base
  }

  /** The character that bytes stand for, as in section 3 of RFC 3629: the first byte says how many there are,
      each has its part of the character, and there are no more of them than it needs. */
  predicate StandFor(b: seq<Byte>, n: int) {
    if |b| == 1 then b[0] < 0x80 && n == b[0]
    else if |b| == 2 then n >= 0x80 && 0xc0 <= b[0] < 0xe0 && Continues(b[1]) && n == 0x40 * Over(b[0], 0xc0) + Over(b[1], 0x80)
    else if |b| == 3 then
      n >= 0x800 && 0xe0 <= b[0] < 0xf0 && Continues(b[1]) && Continues(b[2])
      && n == 0x1000 * Over(b[0], 0xe0) + 0x40 * Over(b[1], 0x80) + Over(b[2], 0x80)
    else
      |b| == 4 && n >= 0x1_0000 && 0xf0 <= b[0] < 0xf5 && Continues(b[1]) && Continues(b[2]) && Continues(b[3])
      && n == 0x4_0000 * Over(b[0], 0xf0) + 0x1000 * Over(b[1], 0x80) + 0x40 * Over(b[2], 0x80) + Over(b[3], 0x80)
  }

  lemma TwoParts(n: nat)
    ensures n == 0x40 * (n / 0x40) + n % 0x40
  {
  }

  lemma InParts(n: nat)
    ensures n / 0x1000 == n / 0x40 / 0x40 && n / 0x4_0000 == n / 0x1000 / 0x40
  {
  }

  lemma Utf8SpelledOut(c: char)
    ensures StandFor(Utf8Of(c), c as int)
  {
    var n := c as int;
    InParts(n);
    TwoParts(n);
    TwoParts(n / 0x40);
    TwoParts(n / 0x1000);
  }

  lemma {:induction false} Utf8Joins(a: string, b: string)
    ensures Utf8(a + b) == Utf8(a) + Utf8(b)
    decreases |a|
  {
    if a == "" {
      assert a + b == b;
    } else {
      assert (a + b)[1..] == a[1..] + b;
      Utf8Joins(a[1..], b);
    }
  }

  // ------------------------------------------------------------------------------
  // The rendering
  // ------------------------------------------------------------------------------

  /** What follows the last separator. */
  function FileNameOf(path: string): string
    decreases |path|
  {
    if path == "" || IsSeparator(path[|path| - 1]) then ""
    else FileNameOf(path[..|path| - 1]) + [path[|path| - 1]]
  }

  function Kept(c: char): char {
    if IsControl(c) || c == '#' then '_' else c
  }

  function KeptAll(name: string): (r: string)
    ensures |r| == |name|
    ensures forall i :: 0 <= i < |name| ==> r[i] == Kept(name[i])
  {
    if name == "" then "" else [Kept(name[0])] + KeptAll(name[1..])
  }

  function Sanitise(fileName: string): string {
    if |fileName| > FILE_NAME_LIMIT then KeptAll(fileName[..FILE_NAME_LIMIT]) + "~" else KeptAll(fileName)
  }

  function PathDigest(path: string): nat {
    Digest(Utf8(path))
  }

  function RedactPath(path: string): string {
    Sanitise(FileNameOf(path)) + "#" + DigestText(PathDigest(path))
  }

  /** A path is directories, which end with a separator if there are any, and then a file name
      with no separator in it. */
  lemma {:induction false} FileNameIsLastComponent(path: string) returns (directories: string)
    ensures path == directories + FileNameOf(path)
    ensures directories == "" || IsSeparator(directories[|directories| - 1])
    ensures forall c :: c in FileNameOf(path) ==> !IsSeparator(c)
    decreases |path|
  {
    if path == "" || IsSeparator(path[|path| - 1]) {
      directories := path;
    } else {
      directories := FileNameIsLastComponent(path[..|path| - 1]);
      assert path == path[..|path| - 1] + [path[|path| - 1]];
    }
  }

  predicate Clean(s: string) {
    forall c :: c in s ==> !IsSeparator(c) && !IsControl(c) && c != '#'
  }

  /** A sanitised name is clean, keeps every character that already was, and says when it was cut. */
  lemma SanitisedIsClean(name: string)
    requires forall c :: c in name ==> !IsSeparator(c)
    ensures Clean(Sanitise(name))
    ensures |Sanitise(name)| == if |name| <= 64 then |name| else 65
    ensures |name| > 64 ==> Sanitise(name)[64] == '~'
    ensures forall i :: 0 <= i < |name| && i < 64 ==>
              Sanitise(name)[i] == if (name[i] as int) < 0x20 || name[i] as int == 0x7f || name[i] == '#' then '_' else name[i]
  {
  }

  /** A rendering is a name with no separator, control character or `#` in it, at most 65 long,
      then the one `#`, then sixteen hexadecimal digits. */
  lemma RenderingShape(path: string)
    ensures var name, digest := Sanitise(FileNameOf(path)), DigestText(PathDigest(path));
            && RedactPath(path) == name + "#" + digest
            && Clean(name) && |name| <= 65
            && IsHex(digest) && |digest| == 16
  {
    var directories := FileNameIsLastComponent(path);
    SanitisedIsClean(FileNameOf(path));
    FoldFits(OFFSET_BASIS, Utf8(path));
    DigestReadsBack(PathDigest(path));
  }

  /** No directory component survives: there is no separator left to have one in front of. */
  lemma NoSeparatorSurvives(path: string)
    ensures |RedactPath(path)| >= 17
    ensures forall c :: c in RedactPath(path) ==> !IsSeparator(c) && !IsControl(c)
  {
    RenderingShape(path);
  }

  lemma SplitsBeforeDigest(a: string, x: string, b: string, y: string)
    requires a + "#" + x == b + "#" + y && |x| == |y|
    ensures a == b && x == y
  {
    var s := a + "#" + x;
    assert a == s[..|a|] && b == s[..|a|];
    assert x == s[|a| + 1..] && y == s[|a| + 1..];
  }

  /** Two paths render alike exactly when their names do and their digests agree: the directories
      are seen through the digest or not at all. */
  lemma RenderedAlike(one: string, other: string)
    ensures RedactPath(one) == RedactPath(other)
       <==> Sanitise(FileNameOf(one)) == Sanitise(FileNameOf(other)) && PathDigest(one) == PathDigest(other)
  {
    RenderingShape(one);
    RenderingShape(other);
    FoldFits(OFFSET_BASIS, Utf8(one));
    FoldFits(OFFSET_BASIS, Utf8(other));
    DigestReadsBack(PathDigest(one));
    DigestReadsBack(PathDigest(other));
    if RedactPath(one) == RedactPath(other) {
      SplitsBeforeDigest(Sanitise(FileNameOf(one)), DigestText(PathDigest(one)),
                         Sanitise(FileNameOf(other)), DigestText(PathDigest(other)));
    }
  }

  /** Two paths whose UTF-8 differs within four bytes in a row, and nowhere else, never render alike. */
  lemma FourBytesOfPathApart(one: string, other: string, before: seq<Byte>, a: seq<Byte>, b: seq<Byte>, after: seq<Byte>)
    requires Utf8(one) == before + a + after && Utf8(other) == before + b + after
    requires |a| == |b| <= 4 && a != b
    ensures RedactPath(one) != RedactPath(other)
  {
    FourBytesApart(before, a, b, after);
    RenderedAlike(one, other);
  }

  /** What a byte after the first adds to the code point of the bytes before it. */
  function More(point: int, byte: int): int {
    point * 0x40 + (byte - 0x80)
  }

  /** The code point that some bytes are; a first byte carries 0xc0, 0xe0 or 0xf0. */
  function Decoded(bytes: seq<Byte>): int {
    match |bytes|
    case 1 => bytes[0]
    case 2 => More(More(0, bytes[0]) - 0x40, bytes[1])
    case 3 => More(More(More(0, bytes[0]) - 0x60, bytes[1]), bytes[2])
    case 4 => More(More(More(More(0, bytes[0]) - 0x70, bytes[1]), bytes[2]), bytes[3])
    case _ => 0
  }

  lemma DecodesBack(c: char)
    ensures Decoded(Utf8Of(c)) == c as int
  {
    var n := c as int;
    assert n / 0x1000 == n / 0x40 / 0x40 && n / 0x4_0000 == n / 0x40 / 0x40 / 0x40;
  }

  /** So neither do two that differ in one character, wherever it stands, if its bytes are as many. */
  lemma OneCharacterApart(before: string, x: char, y: char, after: string)
    requires x != y && |Utf8Of(x)| == |Utf8Of(y)|
    ensures RedactPath(before + [x] + after) != RedactPath(before + [y] + after)
  {
    CharacterInside(before, x, after);
    CharacterInside(before, y, after);
    DecodesBack(x);
    DecodesBack(y);
    FourBytesOfPathApart(before + [x] + after, before + [y] + after, Utf8(before), Utf8Of(x), Utf8Of(y), Utf8(after));
  }

  lemma CharacterInside(before: string, c: char, after: string)
    ensures Utf8(before + [c] + after) == Utf8(before) + Utf8Of(c) + Utf8(after)
  {
    Utf8Joins(before, [c]);
    Utf8Joins(before + [c], after);
    assert [c][1..] == "";
  }
}
