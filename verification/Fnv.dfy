/** The 64-bit FNV-1a digest of `apps/desktop/src/redactPath.ts`, over unbounded integers as
    `BigInt` has them (FNV-1a, section 2 of draft-eastlake-fnv). */
module Fnv {

  type Byte = n: nat | n < 256

  const OFFSET_BASIS: nat := 0xcbf2_9ce4_8422_2325
  const PRIME: nat := 0x0000_0100_0000_01b3
  const SIXTY_FOUR_BITS: nat := 0xffff_ffff_ffff_ffff
  const STATES: nat := 0x1_0000_0000_0000_0000

  /** What `PRIME` is undone by, modulo 2^64. */
  const INVERSE: nat := 0xce96_5057_aff6_957b

  // ------------------------------------------------------------------------------
  // Bitwise arithmetic on unbounded integers
  // ------------------------------------------------------------------------------

  function Xor(a: nat, b: nat): nat
    decreases a + b
  {
    if a == 0 && b == 0 then 0 else 2 * Xor(a / 2, b / 2) + if a % 2 == b % 2 then 0 else 1
  }

  function And(a: nat, b: nat): nat
    decreases a + b
  {
    if a == 0 && b == 0 then 0 else 2 * And(a / 2, b / 2) + if a % 2 == 1 && b % 2 == 1 then 1 else 0
  }

  function Pow2(k: nat): (p: nat)
    ensures p > 0
  {
    if k == 0 then 1 else 2 * Pow2(k - 1)
  }

  lemma XorBits(a: nat, b: nat)
    ensures Xor(a, b) / 2 == Xor(a / 2, b / 2)
    ensures Xor(a, b) % 2 == if a % 2 == b % 2 then 0 else 1
  {
  }

  lemma {:induction false} XorUndoes(a: nat, b: nat)
    ensures Xor(Xor(a, b), b) == a
    decreases a + b
  {
    if a != 0 || b != 0 {
      XorUndoes(a / 2, b / 2);
      XorBits(a, b);
      XorBits(Xor(a, b), b);
    }
  }

  lemma {:induction false} XorStaysBelow(a: nat, b: nat, k: nat)
    requires a < Pow2(k) && b < Pow2(k)
    ensures Xor(a, b) < Pow2(k)
  {
    if k > 0 {
      XorStaysBelow(a / 2, b / 2, k - 1);
    }
  }

  lemma MultipleIsLarge(d: int, m: int)
    requires d >= 1 && m >= 0
    ensures d * m >= m
  {
    assert (d - 1) * m >= 0;
  }

  lemma RemainderIs(x: nat, q: int, m: nat, r: nat)
    requires m > 0 && x == q * m + r && r < m
    ensures x % m == r
  {
    var q', r' := x / m, x % m;
    assert x == q' * m + r';
    assert (q' - q) * m == q' * m - q * m && (q - q') * m == q * m - q' * m;
    if q' > q {
      MultipleIsLarge(q' - q, m);
    } else if q' < q {
      MultipleIsLarge(q - q', m);
    }
  }

  /** The low k bits of x. */
  function Low(x: nat, k: nat): nat
    decreases k
  {
    if k == 0 then 0 else 2 * Low(x / 2, k - 1) + x % 2
  }

  lemma {:induction false} LowSplits(x: nat, k: nat) returns (high: nat)
    ensures x == high * Pow2(k) + Low(x, k) && Low(x, k) < Pow2(k)
    decreases k
  {
    if k == 0 {
      high := x;
    } else {
      high := LowSplits(x / 2, k - 1);
      DoubledProduct(high, Pow2(k - 1));
    }
  }

  lemma DoubledProduct(a: nat, b: nat)
    ensures a * (2 * b) == 2 * (a * b)
  {
  }

  lemma AndOdd(x: nat, n: nat)
    ensures And(x, 2 * n + 1) == 2 * And(x / 2, n) + x % 2
  {
  }

  lemma {:induction false} MaskIsLow(x: nat, k: nat)
    ensures And(x, Pow2(k) - 1) == Low(x, k)
    decreases k
  {
    if k == 0 {
      MaskedByNothing(x);
    } else {
      MaskIsLow(x / 2, k - 1);
      AndOdd(x, Pow2(k - 1) - 1);
    }
  }

  /** Masking with k ones is taking the remainder modulo 2^k. */
  lemma MaskIsRemainder(x: nat, k: nat)
    ensures And(x, Pow2(k) - 1) == x % Pow2(k)
  {
    MaskIsLow(x, k);
    var high := LowSplits(x, k);
    RemainderIs(x, high, Pow2(k), Low(x, k));
  }

  lemma {:induction false} MaskedByNothing(x: nat)
    ensures And(x, 0) == 0
  {
    if x != 0 {
      MaskedByNothing(x / 2);
    }
  }

  // ------------------------------------------------------------------------------
  // The digest
  // ------------------------------------------------------------------------------

  /** One round: the byte goes in, and the state is multiplied in 64 wrapping bits. */
  function Mix(hash: nat, byte: Byte): nat {
    Xor(hash, byte) * PRIME % STATES
  }

  /** The state after `bytes`, from `hash`. */
  function Fold(hash: nat, bytes: seq<Byte>): nat
    decreases |bytes|
  {
    if bytes == [] then hash else Fold(Mix(hash, bytes[0]), bytes[1..])
  }

  function Digest(bytes: seq<Byte>): nat {
    Fold(OFFSET_BASIS, bytes)
  }

  lemma SixtyFourOnes()
    ensures SIXTY_FOUR_BITS == Pow2(64) - 1 && STATES == Pow2(64)
  {
    assert Pow2(8) == 0x100;
    assert Pow2(16) == 0x1_0000;
    assert Pow2(24) == 0x100_0000;
    assert Pow2(32) == 0x1_0000_0000;
    assert Pow2(40) == 0x100_0000_0000;
    assert Pow2(48) == 0x1_0000_0000_0000;
    assert Pow2(56) == 0x100_0000_0000_0000;
  }

  /** The loop, which multiplies without bound and masks, computes the digest. */
  method Fnv1a64(bytes: seq<Byte>) returns (hash: nat)
    ensures hash == Digest(bytes)
  {
    hash := OFFSET_BASIS;
    var i := 0;
    while i < |bytes|
      invariant 0 <= i <= |bytes|
      invariant Fold(hash, bytes[i..]) == Digest(bytes)
    {
      ghost var before := hash;
      hash := Xor(hash, bytes[i]);
      SixtyFourOnes();
      MaskIsRemainder(hash * PRIME, 64);
      hash := And(hash * PRIME, SIXTY_FOUR_BITS);
      assert hash == Mix(before, bytes[i]);
      assert bytes[i..][1..] == bytes[i + 1..];
      i := i + 1;
    }
  }

  // ------------------------------------------------------------------------------
  // Every round can be undone
  // ------------------------------------------------------------------------------

  function Unmix(hash: nat, byte: Byte): nat {
    Xor(hash * INVERSE % STATES, byte)
  }

  lemma MultiplyingBack(x: nat)
    requires x < STATES
    ensures x * PRIME % STATES * INVERSE % STATES == x
    ensures x * INVERSE % STATES * PRIME % STATES == x
  {
    UndoneBy(x, PRIME, INVERSE);
    UndoneBy(x, INVERSE, PRIME);
  }

  lemma UndoneBy(x: nat, p: nat, q: nat)
    requires x < STATES && p * q == 887285111055 * STATES + 1
    ensures x * p % STATES * q % STATES == x
  {
    var a, r := x * p / STATES, x * p % STATES;
    assert x * p == a * STATES + r;
    calc {
      r * q;
      (x * p - a * STATES) * q;
      x * p * q - a * STATES * q;
      { assert x * p * q == x * (p * q); }
      x * (887285111055 * STATES + 1) - a * STATES * q;
      { assert x * (887285111055 * STATES + 1) == x * 887285111055 * STATES + x;
        assert a * STATES * q == a * q * STATES; }
      (x * 887285111055 - a * q) * STATES + x;
    }
    var n := x * 887285111055 - a * q;
    RemainderIs(r * q, n, STATES, x);
  }

  lemma StateFits(hash: nat, byte: Byte)
    requires hash < STATES
    ensures Xor(hash, byte) < STATES
  {
    SixtyFourOnes();
    XorStaysBelow(hash, byte, 64);
  }

  /** Every round is a bijection of the 64-bit states. */
  lemma MixUndone(hash: nat, byte: Byte)
    requires hash < STATES
    ensures Unmix(Mix(hash, byte), byte) == hash
    ensures Mix(Unmix(hash, byte), byte) == hash
  {
    StateFits(hash, byte);
    MultiplyingBack(Xor(hash, byte));
    XorUndoes(hash, byte);
    var back := hash * INVERSE % STATES;
    MultiplyingBack(hash);
    XorUndoes(back, byte);
  }

  lemma {:induction false} FoldFits(hash: nat, bytes: seq<Byte>)
    requires hash < STATES
    ensures Fold(hash, bytes) < STATES
    decreases |bytes|
  {
    if bytes != [] {
      FoldFits(Mix(hash, bytes[0]), bytes[1..]);
    }
  }

  lemma {:induction false} FoldJoins(hash: nat, a: seq<Byte>, b: seq<Byte>)
    ensures Fold(hash, a + b) == Fold(Fold(hash, a), b)
    decreases |a|
  {
    if a == [] {
      assert a + b == b;
    } else {
      assert (a + b)[1..] == a[1..] + b;
      FoldJoins(Mix(hash, a[0]), a[1..], b);
    }
  }

  /** A common ending neither makes two states equal nor tells equal ones apart. */
  lemma {:induction false} CommonEndingCancels(one: nat, other: nat, ending: seq<Byte>)
    requires one < STATES && other < STATES
    ensures Fold(one, ending) == Fold(other, ending) <==> one == other
    decreases |ending|
  {
    if ending != [] {
      MixUndone(one, ending[0]);
      MixUndone(other, ending[0]);
      CommonEndingCancels(Mix(one, ending[0]), Mix(other, ending[0]), ending[1..]);
    }
  }

  lemma SameProductSameFactor(u: nat, v: nat)
    requires u < STATES && v < STATES && u * PRIME % STATES == v * PRIME % STATES
    ensures u == v
  {
    MultiplyingBack(u);
    MultiplyingBack(v);
  }

  lemma {:induction false} XorTellsApart(a: nat, x: nat, y: nat)
    ensures Xor(a, x) == Xor(a, y) <==> x == y
    decreases a + x + y
  {
    if a != 0 || x != 0 || y != 0 {
      XorBits(a, x);
      XorBits(a, y);
      XorTellsApart(a / 2, x / 2, y / 2);
    }
  }

  // ------------------------------------------------------------------------------
  // Four bytes
  // ------------------------------------------------------------------------------

  lemma {:induction false} XorKeepsHigh(hash: nat, byte: nat, k: nat)
    requires byte < Pow2(k)
    ensures Xor(hash, byte) / Pow2(k) == hash / Pow2(k)
  {
    if k == 0 {
      XorWithZero(hash);
    } else {
      XorKeepsHigh(hash / 2, byte / 2, k - 1);
      XorBits(hash, byte);
      HalvesFirst(hash, Pow2(k - 1));
      HalvesFirst(Xor(hash, byte), Pow2(k - 1));
    }
  }

  lemma HalvesFirst(a: nat, p: nat)
    requires p > 0
    ensures a / (2 * p) == a / 2 / p
  {
    var q, r := a / 2 / p, a / 2 % p;
    assert a / 2 == q * p + r;
    assert a == q * (2 * p) + (2 * r + a % 2);
    QuotientIs(a, q, 2 * p, 2 * r + a % 2);
  }

  lemma QuotientIs(x: nat, q: nat, m: nat, r: nat)
    requires m > 0 && x == q * m + r && r < m
    ensures x / m == q
  {
    var q' := x / m;
    RemainderIs(x, q, m, r);
    assert q' * m == q * m;
    if q' > q {
      MultipleIsLarge(q' - q, m);
    } else if q' < q {
      MultipleIsLarge(q - q', m);
    }
  }

  lemma {:induction false} XorWithZero(a: nat)
    ensures Xor(a, 0) == a
  {
    if a != 0 {
      XorWithZero(a / 2);
    }
  }

  /** A byte going in moves a state by less than 256. */
  lemma XorMovesLittle(hash: nat, byte: Byte)
    ensures -256 < Xor(hash, byte) - hash < 256
  {
    assert Pow2(8) == 256;
    XorKeepsHigh(hash, byte, 8);
  }

  /** Two bytes going into one state leave it less than 256 apart. */
  lemma XorsAreNear(hash: nat, x: Byte, y: Byte)
    ensures -256 < Xor(hash, x) - Xor(hash, y) < 256
  {
    assert Pow2(8) == 256;
    XorKeepsHigh(hash, x, 8);
    XorKeepsHigh(hash, y, 8);
  }

  /** Multiplying in 64 wrapping bits, as a difference of two products and a multiple of 2^64. */
  lemma ProductsDiffer(a: nat, b: nat) returns (k: int)
    ensures a * PRIME % STATES - b * PRIME % STATES == (a - b) * PRIME + k * STATES
  {
    k := b * PRIME / STATES - a * PRIME / STATES;
    assert a * PRIME == a * PRIME / STATES * STATES + a * PRIME % STATES;
    assert b * PRIME == b * PRIME / STATES * STATES + b * PRIME % STATES;
  }

  /** Three rounds on, modulo 2^64: the prime's square is 870 * 2^40 + 189225, and its cube
      567675 * 2^40 + 82312875. */
  lemma ThreeProducts(d: int, e: int, e': int, e'': int) returns (n: int)
    ensures ((d * PRIME + e) * PRIME + e') * PRIME + e''
         == (567675 * d + 870 * e + e') * 0x100_0000_0000 + (82312875 * d + 189225 * e + 435 * e' + e'') + n * STATES
  {
    n := TwoProducts(d, e);
    var k := 870 * d + e;
    assert (d * PRIME + e) * PRIME == k * 0x100_0000_0000 + (189225 * d + 435 * e) + n * STATES;
    n := n * PRIME + k * 0x1_0000;
  }

  lemma TwoProducts(d: int, e: int) returns (n: int)
    ensures (d * PRIME + e) * PRIME == (870 * d + e) * 0x100_0000_0000 + (189225 * d + 435 * e) + n * STATES
  {
    n := d * 0x1_0000;
  }

  /** What three rounds make of a first byte's difference `d`, and of what each of the next three adds, is
      never zero. */
  lemma NeverBack(d: int, e: int, e': int, e'': int, k: int)
    requires d != 0 && -256 < d < 256 && -512 < e < 512 && -512 < e' < 512 && -512 < e'' < 512
    ensures ((d * PRIME + e) * PRIME + e') * PRIME + e'' + k * STATES != 0
  {
    var n := ThreeProducts(d, e, e', e'');
    NotZero(d, e, e', e'', n + k);
  }

  /** To be zero it would need a low part of zero, so a `d` of one or minus one, and then a high part that
      is too small to wrap and too large to vanish. */
  lemma NotZero(d: int, e: int, e': int, e'': int, n: int)
    requires d != 0 && -256 < d < 256 && -512 < e < 512 && -512 < e' < 512 && -512 < e'' < 512
    ensures n * STATES + (567675 * d + 870 * e + e') * 0x100_0000_0000 + (82312875 * d + 189225 * e + 435 * e' + e'') != 0
  {
    var high, low := 567675 * d + 870 * e + e', 82312875 * d + 189225 * e + 435 * e' + e'';
    if n * STATES + high * 0x100_0000_0000 + low == 0 {
      PartsAreZero(high, low, n);
      if d == 1 || d == -1 {
        HighIsNotZero(d, e, e', n);
      } else {
        LowIsNotZero(d, e, e', e'');
      }
    }
  }

  lemma PartsAreZero(high: int, low: int, n: int)
    requires n * STATES + high * 0x100_0000_0000 + low == 0 && -0x100_0000_0000 < low < 0x100_0000_0000
    ensures low == 0 && high + n * 0x100_0000 == 0
  {
    var m := high + n * 0x100_0000;
    assert m * 0x100_0000_0000 + low == 0;
  }

  lemma HighIsNotZero(d: int, e: int, e': int, n: int)
    requires (d == 1 || d == -1) && -512 < e < 512 && -512 < e' < 512
    ensures 567675 * d + 870 * e + e' + n * 0x100_0000 != 0
  {
  }

  lemma LowIsNotZero(d: int, e: int, e': int, e'': int)
    requires (d > 1 || d < -1) && -512 < e < 512 && -512 < e' < 512 && -512 < e'' < 512
    ensures 82312875 * d + 189225 * e + 435 * e' + e'' != 0
  {
    assert -96916832 < 189225 * e + 435 * e' + e'' < 96916832;
  }

  /** The differences between two states, as they go through the rounds: the `d`s once a byte has gone in,
      and the `u`s once multiplied. */
  lemma NotBroughtTogether(d: int, d': int, d'': int, last: int, k: int, k': int, k'': int, u: int, u': int, u'': int)
    requires d != 0 && -256 < d < 256
    requires u == d * PRIME + k * STATES && -512 < d' - u < 512
    requires u' == d' * PRIME + k' * STATES && -512 < d'' - u' < 512
    requires u'' == d'' * PRIME + k'' * STATES && -512 < last - u'' < 512
    ensures last != 0
  {
    var e, e', e'' := d' - u, d'' - u', last - u'';
    NeverBack(d, e, e', e'', k * PRIME * PRIME + k' * PRIME + k'');
    assert d' == d * PRIME + e + k * STATES;
    assert d'' == (d * PRIME + e) * PRIME + e' + (k * PRIME + k') * STATES;
    assert last == ((d * PRIME + e) * PRIME + e') * PRIME + e'' + (k * PRIME * PRIME + k' * PRIME + k'') * STATES;
  }

  /** A round, in its two halves: the byte goes in, and the result is multiplied. */
  predicate Round(state: nat, byte: Byte, mixed: nat, after: nat) {
    mixed == Xor(state, byte) && after == mixed * PRIME % STATES
  }

  function Gap(a: int, b: int): int {
    a - b
  }

  /** Two states, two bytes and a round: how far apart that leaves them, given how far they were. */
  lemma RoundDiffers(s: nat, t: nat, x: Byte, y: Byte, a: nat, b: nat, u: nat, v: nat) returns (k: int)
    requires Round(s, x, a, u) && Round(t, y, b, v)
    ensures -512 < Gap(a, b) - Gap(s, t) < 512 && Gap(u, v) == Gap(a, b) * PRIME + k * STATES
  {
    XorMovesLittle(s, x);
    XorMovesLittle(t, y);
    k := ProductsDiffer(a, b);
  }

  /** The rounds that `bytes` make from `hash`: each state, with the byte in it and multiplied. */
  predicate Rounds(hash: nat, bytes: seq<Byte>, a: seq<nat>, u: seq<nat>) {
    && |bytes| == |a| == |u| == 4
    && Round(hash, bytes[0], a[0], u[0]) && Round(u[0], bytes[1], a[1], u[1])
    && Round(u[1], bytes[2], a[2], u[2]) && Round(u[2], bytes[3], a[3], u[3])
  }

  /** Four rounds never bring together what the first of four bytes took apart. */
  lemma FourRoundsApart(hash: nat, one: seq<Byte>, other: seq<Byte>, a: seq<nat>, b: seq<nat>, u: seq<nat>, v: seq<nat>)
    requires hash < STATES && Rounds(hash, one, a, u) && Rounds(hash, other, b, v) && one[0] != other[0]
    ensures a[3] != b[3]
  {
    XorTellsApart(hash, one[0], other[0]);
    XorsAreNear(hash, one[0], other[0]);
    var k := RoundDiffers(hash, hash, one[0], other[0], a[0], b[0], u[0], v[0]);
    var k' := RoundDiffers(u[0], v[0], one[1], other[1], a[1], b[1], u[1], v[1]);
    var k'' := RoundDiffers(u[1], v[1], one[2], other[2], a[2], b[2], u[2], v[2]);
    var k3 := RoundDiffers(u[2], v[2], one[3], other[3], a[3], b[3], u[3], v[3]);
    NotBroughtTogether(Gap(a[0], b[0]), Gap(a[1], b[1]), Gap(a[2], b[2]), Gap(a[3], b[3]), k, k', k'',
                       Gap(u[0], v[0]), Gap(u[1], v[1]), Gap(u[2], v[2]));
  }

  lemma FoldOne(hash: nat, byte: Byte)
    ensures Fold(hash, [byte]) == Mix(hash, byte)
  {
    assert [byte][1..] == [];
  }

  /** Four bytes folded in, with the states on the way. */
  lemma FourFolded(hash: nat, bytes: seq<Byte>) returns (a: seq<nat>, u: seq<nat>)
    requires hash < STATES && |bytes| == 4
    ensures Rounds(hash, bytes, a, u) && u[3] == Fold(hash, bytes) && a[3] < STATES
  {
    var u0, u1, u2 := Fold(hash, bytes[..1]), Fold(hash, bytes[..2]), Fold(hash, bytes[..3]);
    OneFoldedMore(hash, bytes, 0);
    OneFoldedMore(hash, bytes, 1);
    OneFoldedMore(hash, bytes, 2);
    OneFoldedMore(hash, bytes, 3);
    FoldFits(hash, bytes[..3]);
    StateFits(u2, bytes[3]);
    assert bytes[..4] == bytes;
    a := [Xor(hash, bytes[0]), Xor(u0, bytes[1]), Xor(u1, bytes[2]), Xor(u2, bytes[3])];
    u := [u0, u1, u2, Fold(hash, bytes)];
  }

  lemma OneFoldedMore(hash: nat, bytes: seq<Byte>, i: nat)
    requires i < |bytes|
    ensures Fold(hash, bytes[..i + 1]) == Mix(Fold(hash, bytes[..i]), bytes[i])
    ensures Fold(hash, bytes[..0]) == hash
  {
    assert bytes[..i + 1] == bytes[..i] + [bytes[i]];
    FoldJoins(hash, bytes[..i], [bytes[i]]);
    FoldOne(Fold(hash, bytes[..i]), bytes[i]);
  }

  /** Different bytes in the same four places, or fewer, lead one state to different ones. */
  lemma {:induction false} WindowsApart(hash: nat, one: seq<Byte>, other: seq<Byte>)
    requires hash < STATES && |one| == |other| <= 4 && one != other
    ensures Fold(hash, one) != Fold(hash, other)
    decreases |one|
  {
    if one[0] == other[0] {
      assert one == [one[0]] + one[1..] && other == [other[0]] + other[1..];
      StateFits(hash, one[0]);
      WindowsApart(Mix(hash, one[0]), one[1..], other[1..]);
    } else {
      var zeros := [0, 0, 0, 0][|one|..];
      FoldFits(hash, one);
      FoldFits(hash, other);
      CommonEndingCancels(Fold(hash, one), Fold(hash, other), zeros);
      FoldJoins(hash, one, zeros);
      FoldJoins(hash, other, zeros);
      FourApart(hash, one + zeros, other + zeros);
    }
  }

  lemma FourApart(hash: nat, one: seq<Byte>, other: seq<Byte>)
    requires hash < STATES && |one| == |other| == 4 && one[0] != other[0]
    ensures Fold(hash, one) != Fold(hash, other)
  {
    var a, u := FourFolded(hash, one);
    var b, v := FourFolded(hash, other);
    FourRoundsApart(hash, one, other, a, b, u, v);
    if u[3] == v[3] {
      SameProductSameFactor(a[3], b[3]);
    }
  }

  /** Two byte strings that differ within four places in a row, and nowhere else, never share a digest. */
  lemma FourBytesApart(before: seq<Byte>, one: seq<Byte>, other: seq<Byte>, after: seq<Byte>)
    requires |one| == |other| <= 4 && one != other
    ensures Digest(before + one + after) != Digest(before + other + after)
  {
    var mid := Fold(OFFSET_BASIS, before);
    FoldFits(OFFSET_BASIS, before);
    FoldJoins(OFFSET_BASIS, before, one);
    FoldJoins(OFFSET_BASIS, before, other);
    FoldJoins(OFFSET_BASIS, before + one, after);
    FoldJoins(OFFSET_BASIS, before + other, after);
    WindowsApart(mid, one, other);
    FoldFits(mid, one);
    FoldFits(mid, other);
    CommonEndingCancels(Fold(mid, one), Fold(mid, other), after);
  }

  /** So two that differ in exactly one position never do. */
  lemma OneByteApart(before: seq<Byte>, x: Byte, y: Byte, after: seq<Byte>)
    requires x != y
    ensures Digest(before + [x] + after) != Digest(before + [y] + after)
  {
    FourBytesApart(before, [x], [y], after);
  }

  // ------------------------------------------------------------------------------
  // Digests that are known
  // ------------------------------------------------------------------------------

  lemma HalfOfSum(half: nat, low: nat)
    ensures (2 * half + low) / 2 == half + low / 2 && (2 * half + low) % 2 == low % 2
  {
  }

  lemma {:induction false} XorSplits(high: nat, low: nat, byte: nat, k: nat)
    requires low < Pow2(k) && byte < Pow2(k)
    ensures Xor(high * Pow2(k) + low, byte) == high * Pow2(k) + Xor(low, byte)
  {
    if k == 0 {
      XorWithZero(high);
    } else {
      var p := Pow2(k - 1);
      assert high * (2 * p) == 2 * (high * p);
      HalfOfSum(high * p, low);
      XorSplits(high, low / 2, byte / 2, k - 1);
      XorBits(2 * (high * p) + low, byte);
      XorBits(low, byte);
    }
  }

  lemma LowByte(low: nat, byte: nat)
    requires low == 0x25 && byte == 0x61
    ensures Xor(low, byte) == 0x44
  {
    assert Xor(0, 0) == 0;
    assert Xor(0, 1) == 1;
    assert Xor(1, 3) == 2;
    assert Xor(2, 6) == 4;
    assert Xor(4, 12) == 8;
    assert Xor(9, 24) == 17;
    assert Xor(18, 48) == 34;
  }

  /** A round, by what it does to the low byte and how often the product wraps. */
  lemma RoundIs(hash: nat, byte: Byte, high: nat, low: nat, mixed: nat, wraps: nat, after: nat)
    requires hash == high * 256 + low && low < 256 && Xor(low, byte) == mixed
    requires (high * 256 + mixed) * PRIME == wraps * STATES + after && after < STATES
    ensures Mix(hash, byte) == after
  {
    assert Pow2(8) == 256;
    XorSplits(high, low, byte, 8);
    RemainderIs((high * 256 + mixed) * PRIME, wraps, STATES, after);
  }

  lemma KnownFrom(start: nat, a: Byte)
    requires start == OFFSET_BASIS && a == 'a' as int
    ensures Fold(start, []) == 0xcbf2_9ce4_8422_2325
    ensures Fold(start, [a]) == 0xaf63_dc4c_8601_ec8c
  {
    LowByte(0x25, a);
    RoundIs(start, a, 0xcb_f29c_e484_2223, 0x25, 0x44, 0xcbf29ce5de, 0xaf63_dc4c_8601_ec8c);
    FoldOne(start, a);
  }

  /** The empty string's digest and that of `a`, as the standard's test vectors have them. */
  lemma KnownDigests(none: seq<Byte>, a: Byte)
    requires |none| == 0 && a == 'a' as int
    ensures Digest(none) == 0xcbf2_9ce4_8422_2325
    ensures Digest([a]) == 0xaf63_dc4c_8601_ec8c
  {
    KnownFrom(OFFSET_BASIS, a);
  }
}
