/** The 64-bit FNV-1a identity checksum and its hexadecimal rendering. */
module Digest {
  import opened Common
  import opened Paths

  const WORD: int := 0x1_0000_0000_0000_0000
  const OFFSET_BASIS: u64 := 0xcbf2_9ce4_8422_2325
  const PRIME: int := 0x0000_0100_0000_01b3
  /** The inverse of the prime modulo 2^64. */
  const INVERSE: int := 0xce96_5057_aff6_957b

  // ---------- Exclusive or on numbers ----------

  function Xor(a: nat, b: nat): nat {
    if a == 0 && b == 0 then 0 else 2 * Xor(a / 2, b / 2) + (a % 2 + b % 2) % 2
  }

  lemma XorHalves(a: nat, b: nat, x: nat)
    requires x == Xor(a, b)
    ensures x / 2 == Xor(a / 2, b / 2) && x % 2 == (a % 2 + b % 2) % 2
  {
  }

  /** Two numbers with the same half and, up to the parity of `b` twice, the same parity. */
  lemma ParityUndone(a: nat, b: nat, x: nat, y: nat)
    requires x % 2 == (a % 2 + b % 2) % 2 && y % 2 == (x % 2 + b % 2) % 2 && y / 2 == a / 2
    ensures y == a
  {
  }

  lemma {:induction false} XorUndone(a: nat, b: nat)
    ensures Xor(Xor(a, b), b) == a
    decreases a + b
  {
    if a != 0 || b != 0 {
      var x := Xor(a, b);
      var y := Xor(x, b);
      XorHalves(a, b, x);
      XorHalves(x, b, y);
      XorUndone(a / 2, b / 2);
      ParityUndone(a, b, x, y);
    }
  }

  lemma {:induction false} XorCommutes(a: nat, b: nat)
    ensures Xor(a, b) == Xor(b, a)
    decreases a + b
  {
    if a != 0 || b != 0 {
      XorCommutes(a / 2, b / 2);
    }
  }

  lemma {:induction false} XorStaysBelow(a: nat, b: nat, bits: nat)
    requires a < Pow2(bits) && b < Pow2(bits)
    ensures Xor(a, b) < Pow2(bits)
  {
    if bits > 0 && (a != 0 || b != 0) {
      XorStaysBelow(a / 2, b / 2, bits - 1);
    }
  }

  function Pow2(n: nat): nat {
    if n == 0 then 1 else 2 * Pow2(n - 1)
  }

  lemma WordIsPow2()
    ensures Pow2(64) == WORD
  {
    assert Pow2(8) == 0x100;
    assert Pow2(16) == 0x1_0000;
    assert Pow2(24) == 0x100_0000;
    assert Pow2(32) == 0x1_0000_0000;
    assert Pow2(40) == 0x100_0000_0000;
    assert Pow2(48) == 0x1_0000_0000_0000;
    assert Pow2(56) == 0x100_0000_0000_0000;
  }

  // ---------- One step ----------

  /** One octet into the state; the multiplication wraps at 64 bits. */
  function Mix(hash: u64, octet: byte): u64 {
    Xor(hash, octet) * PRIME % WORD
  }

  function Unmix(hash: u64, octet: byte): nat {
    Xor(hash * INVERSE % WORD, octet)
  }

  lemma RemainderIs(x: int, r: int, t: int)
    requires x == r + WORD * t && 0 <= r < WORD
    ensures x % WORD == r
  {
  }

  /** Multiplying by the prime is undone by multiplying with its inverse, in both orders. */
  lemma PrimeIsInvertible(x: u64)
    ensures x * PRIME % WORD * INVERSE % WORD == x
    ensures x * INVERSE % WORD * PRIME % WORD == x
  {
    var k := PRIME * INVERSE / WORD;
    assert PRIME * INVERSE == 1 + WORD * k;
    var q := x * PRIME / WORD;
    assert x * PRIME % WORD == x * PRIME - WORD * q;
    RemainderIs(x * PRIME % WORD * INVERSE, x, k * x - q * INVERSE);
    var p := x * INVERSE / WORD;
    assert x * INVERSE % WORD == x * INVERSE - WORD * p;
    RemainderIs(x * INVERSE % WORD * PRIME, x, k * x - p * PRIME);
  }

  lemma XorIsWord(hash: u64, octet: byte)
    ensures Xor(hash, octet) < WORD
  {
    WordIsPow2();
    XorStaysBelow(hash, octet, 64);
  }

  /** For every octet the step is a bijection of the states. */
  lemma MixIsBijective(hash: u64, octet: byte)
    ensures Unmix(Mix(hash, octet), octet) == hash
    ensures Unmix(hash, octet) < WORD && Mix(Unmix(hash, octet), octet) == hash
  {
    XorIsWord(hash, octet);
    PrimeIsInvertible(Xor(hash, octet));
    XorUndone(hash, octet);
    PrimeIsInvertible(hash);
    XorIsWord(hash * INVERSE % WORD, octet);
    XorUndone(hash * INVERSE % WORD, octet);
  }

  /** For every state the step is injective in the octet. */
  lemma MixIsInjective(hash: u64, a: byte, b: byte)
    ensures Mix(hash, a) == Mix(hash, b) <==> a == b
  {
    XorIsWord(hash, a);
    XorIsWord(hash, b);
    PrimeIsInvertible(Xor(hash, a));
    PrimeIsInvertible(Xor(hash, b));
    XorCommutes(hash, a);
    XorCommutes(hash, b);
    XorUndone(a, hash);
    XorUndone(b, hash);
  }

  // ---------- Whole inputs ----------

  function Absorb(hash: u64, bytes: Bytes): u64 {
    if bytes == [] then hash else Mix(Absorb(hash, bytes[..|bytes| - 1]), bytes[|bytes| - 1])
  }

  lemma {:induction false} AbsorbAppend(hash: u64, a: Bytes, b: Bytes)
    ensures Absorb(hash, a + b) == Absorb(Absorb(hash, a), b)
  {
    if b == [] {
      assert a + b == a;
    } else {
      assert (a + b)[..|a + b| - 1] == a + b[..|b| - 1];
      AbsorbAppend(hash, a, b[..|b| - 1]);
    }
  }

  /** Absorbing the same bytes never merges two states. */
  lemma {:induction false} AbsorbIsInjective(x: u64, y: u64, bytes: Bytes)
    ensures Absorb(x, bytes) == Absorb(y, bytes) <==> x == y
  {
    if bytes != [] {
      var front, last := bytes[..|bytes| - 1], bytes[|bytes| - 1];
      AbsorbIsInjective(x, y, front);
      MixIsBijective(Absorb(x, front), last);
      MixIsBijective(Absorb(y, front), last);
    }
  }

  // ---------- Rendering ----------

  /** The last `n` hexadecimal digits, most significant first. */
  function HexDigits(value: nat, n: nat): (digits: string)
    ensures |digits| == n
  {
    if n == 0 then "" else HexDigits(value / 16, n - 1) + [HEX[value % 16]]
  }

  lemma {:induction false} HexDigitsInjective(a: nat, b: nat, n: nat)
    requires a < Pow2(4 * n) && b < Pow2(4 * n)
    ensures HexDigits(a, n) == HexDigits(b, n) <==> a == b
  {
    if n > 0 {
      var m := 4 * (n - 1);
      assert Pow2(m + 4) == 2 * Pow2(m + 3) && Pow2(m + 3) == 2 * Pow2(m + 2);
      assert Pow2(m + 2) == 2 * Pow2(m + 1) && Pow2(m + 1) == 2 * Pow2(m);
      HexDigitsInjective(a / 16, b / 16, n - 1);
      HexDigitValue(a % 16);
      HexDigitValue(b % 16);
      var x, y := HexDigits(a, n), HexDigits(b, n);
      assert x == y ==> x[n - 1] == y[n - 1] && x[..n - 1] == y[..n - 1];
      assert x[..n - 1] == HexDigits(a / 16, n - 1) && y[..n - 1] == HexDigits(b / 16, n - 1);
    }
  }

  const PREFIX := "fnv1a64:"

  function Rendered(hash: u64): string {
    PREFIX + HexDigits(hash, 16)
  }

  lemma RenderingIsInjective(a: u64, b: u64)
    ensures Rendered(a) == Rendered(b) <==> a == b
  {
    WordIsPow2();
    HexDigitsInjective(a, b, 16);
    assert Rendered(a)[|PREFIX|..] == HexDigits(a, 16) && Rendered(b)[|PREFIX|..] == HexDigits(b, 16);
  }

  function DigestOf(bytes: Bytes): string {
    Rendered(Absorb(OFFSET_BASIS, bytes))
  }

  method StableDigest(bytes: Bytes) returns (digest: string)
    ensures digest == DigestOf(bytes)
  {
    var hash: u64 := OFFSET_BASIS;
    for i := 0 to |bytes|
      invariant hash == Absorb(OFFSET_BASIS, bytes[..i])
    {
      assert bytes[..i + 1][..i] == bytes[..i];
      hash := Xor(hash, bytes[i]) * PRIME % WORD;
    }
    assert bytes[..|bytes|] == bytes;
    digest := PREFIX + HexDigits(hash, 16);
  }

  // ---------- Published values ----------

  lemma {:induction false} XorZero(a: nat)
    ensures Xor(a, 0) == a
  {
    if a > 0 {
      XorZero(a / 2);
    }
  }

  /** Bit `k` of a number. */
  function BitOf(a: nat, k: nat): (bit: nat)
    ensures bit < 2
  {
    if k == 0 then a % 2 else BitOf(a / 2, k - 1)
  }

  /** A bit of the exclusive or is set exactly if it differs in the two numbers. */
  lemma {:induction false} XorBit(a: nat, b: nat, x: nat, k: nat)
    requires x == Xor(a, b)
    ensures BitOf(x, k) == 1 <==> BitOf(a, k) != BitOf(b, k)
  {
    XorHalves(a, b, x);
    if k > 0 {
      XorBit(a / 2, b / 2, x / 2, k - 1);
    } else {
      ParityDiffers(a, b, x);
    }
  }

  lemma ParityDiffers(a: nat, b: nat, x: nat)
    requires x % 2 == (a % 2 + b % 2) % 2
    ensures x % 2 == 1 <==> a % 2 != b % 2
  {
  }

  lemma AbsorbOne(hash: u64, front: Bytes, octet: byte, state: u64)
    requires Absorb(hash, front) == state
    ensures Absorb(hash, front + [octet]) == Mix(state, octet)
  {
    assert (front + [octet])[..|front|] == front;
  }

  /** One step with an octet of zero multiplies only. */
  lemma MixZero(hash: u64, wraps: nat, result: u64)
    requires hash * 0x100_0000_01b3 == result + 0x1_0000_0000_0000_0000 * wraps
    ensures Mix(hash, 0) == result
  {
    XorZero(hash);
    RemainderIs(hash * PRIME, result, wraps);
  }

  function Pow16(n: nat): nat
    ensures Pow16(n) > 0
  {
    if n == 0 then 1 else 16 * Pow16(n - 1)
  }

  lemma DivideTwice(value: nat, p: nat)
    requires p > 0
    ensures value / 16 / p == value / (16 * p)
  {
    var q, r := value / (16 * p), value % (16 * p);
    assert value == 16 * (p * q) + r;
    assert value / 16 == p * q + r / 16;
    assert 0 <= r / 16 < p;
    QuotientIs(value / 16, p, q, r / 16);
  }

  lemma QuotientIs(x: int, p: int, q: int, r: int)
    requires x == p * q + r && 0 <= r < p
    ensures x / p == q
  {
    var d := x / p - q;
    assert p * d == r - x % p;
    NoMultipleBetween(p, d);
  }

  lemma NoMultipleBetween(p: int, d: int)
    requires -p < p * d < p
    ensures d == 0
  {
  }

  lemma NextPlace(value: nat, m: nat)
    ensures value / 16 / Pow16(m) == value / Pow16(m + 1)
  {
    DivideTwice(value, Pow16(m));
  }

  /** Each of the digits is the letter of its value, from the most significant one on. */
  lemma {:induction false} HexDigitAt(value: nat, n: nat, k: nat)
    requires k < n
    ensures HexDigits(value, n)[k] == "0123456789abcdef"[value / Pow16(n - 1 - k) % 16]
  {
    if k < n - 1 {
      HexDigitAt(value / 16, n - 1, k);
      NextPlace(value, n - 2 - k);
      assert HexDigits(value, n)[k] == HexDigits(value / 16, n - 1)[k];
    }
  }

  /**
   The digests of no octets and of one octet of zero are the hexadecimal forms of the values published for 64-bit
   FNV-1a.
   */
  lemma PublishedValues(zero: Bytes)
    requires zero == [0]
    ensures DigestOf([]) == "fnv1a64:" + HexDigits(0xcbf2_9ce4_8422_2325, 16)
    ensures DigestOf(zero) == "fnv1a64:" + HexDigits(0xaf63_bd4c_8601_b7df, 16)
  {
    MixZero(0xcbf2_9ce4_8422_2325, 875948729822, 0xaf63_bd4c_8601_b7df);
    AbsorbOne(OFFSET_BASIS, [], 0, OFFSET_BASIS);
  }

  /** Two inputs with a common ending have the same digest exactly when the states before it agree. */
  lemma CommonEnding(a: Bytes, b: Bytes, ending: Bytes)
    ensures DigestOf(a + ending) == DigestOf(b + ending)
            <==> Absorb(OFFSET_BASIS, a) == Absorb(OFFSET_BASIS, b)
  {
    AbsorbAppend(OFFSET_BASIS, a, ending);
    AbsorbAppend(OFFSET_BASIS, b, ending);
    AbsorbIsInjective(Absorb(OFFSET_BASIS, a), Absorb(OFFSET_BASIS, b), ending);
    RenderingIsInjective(Absorb(OFFSET_BASIS, a + ending), Absorb(OFFSET_BASIS, b + ending));
  }

  /** Every single-octet change is detected. */
  lemma OneChangeIsDetected(bytes: Bytes, k: nat, octet: byte)
    requires k < |bytes| && octet != bytes[k]
    ensures DigestOf(bytes[k := octet]) != DigestOf(bytes)
  {
    var front, ending := bytes[..k], bytes[k + 1..];
    assert bytes == (front + [bytes[k]]) + ending;
    assert bytes[k := octet] == (front + [octet]) + ending;
    CommonEnding(front + [octet], front + [bytes[k]], ending);
    assert (front + [octet])[..k] == front && (front + [bytes[k]])[..k] == front;
    MixIsInjective(Absorb(OFFSET_BASIS, front), octet, bytes[k]);
  }
}
