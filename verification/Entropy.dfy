/** Seeded entropy: one xorshift stream, drawn by the budgeted Linux capsule and by the deterministic model. */
module Entropy {
  import opened Common

  // ---------- Machine words ----------

  const BITS: nat := 64

  /** A 64-bit word as its bits, least significant first. */
  type Word = w: seq<bool> | |w| == BITS witness seq(BITS, i => false)

  function Zero(): Word {
    seq(BITS, i requires 0 <= i < BITS => false)
  }

  function One(): Word {
    seq(BITS, i requires 0 <= i < BITS => i == 0)
  }

  function Xor(a: Word, b: Word): Word {
    seq(BITS, i requires 0 <= i < BITS => a[i] != b[i])
  }

  /** The word moved `k` places up, or down when `up` is false; bits that leave the word are lost. */
  function Shift(a: Word, k: nat, up: bool): Word {
    seq(BITS, i requires 0 <= i < BITS =>
      if up then i >= k && a[i - k] else i + k < BITS && a[i + k])
  }

  /** `x ^= x << k` or `x ^= x >> k`. */
  function XorShift(a: Word, k: nat, up: bool): Word {
    Xor(a, Shift(a, k, up))
  }

  /** One step of the generator. */
  function Step(x: Word): Word {
    XorShift(XorShift(XorShift(x, 13, true), 7, false), 17, true)
  }

  /** The octet a state yields. */
  function LowByte(x: Word): seq<bool> {
    x[..8]
  }

  // ---------- The step is a bijection ----------

  /** Doing a xorshift twice is the xorshift by twice the distance. */
  lemma XorShiftTwice(a: Word, k: nat, up: bool)
    ensures XorShift(XorShift(a, k, up), k, up) == XorShift(a, 2 * k, up)
  {
    var once := XorShift(a, k, up);
    forall i | 0 <= i < BITS ensures XorShift(once, k, up)[i] == XorShift(a, 2 * k, up)[i] {
      assert once[i] == (a[i] != Shift(a, k, up)[i]);
      if up && i >= k {
        assert once[i - k] == (a[i - k] != Shift(a, k, up)[i - k]);
      } else if !up && i + k < BITS {
        assert once[i + k] == (a[i + k] != Shift(a, k, up)[i + k]);
      }
    }
  }

  lemma FarShiftIsIdentity(a: Word, k: nat, up: bool)
    requires k >= BITS
    ensures XorShift(a, k, up) == a
  {
  }

  /** The inverse: by doubling the distance until it leaves the word. */
  function Undo(a: Word, k: nat, up: bool): Word
    requires k > 0
    decreases BITS - k
  {
    if k >= BITS then a else XorShift(Undo(a, 2 * k, up), k, up)
  }

  /** Two words with the same xorshift are equal, because its double is injective already. */
  lemma {:induction false} XorShiftInjective(a: Word, b: Word, k: nat, up: bool)
    requires k > 0
    ensures XorShift(a, k, up) == XorShift(b, k, up) ==> a == b
    decreases BITS - k
  {
    if k >= BITS {
      FarShiftIsIdentity(a, k, up);
      FarShiftIsIdentity(b, k, up);
    } else {
      XorShiftInjective(a, b, 2 * k, up);
      XorShiftTwice(a, k, up);
      XorShiftTwice(b, k, up);
    }
  }

  lemma {:induction false} UndoIsRightInverse(a: Word, k: nat, up: bool)
    requires k > 0
    ensures XorShift(Undo(a, k, up), k, up) == a
    decreases BITS - k
  {
    if k >= BITS {
      FarShiftIsIdentity(a, k, up);
    } else {
      UndoIsRightInverse(a, 2 * k, up);
      XorShiftTwice(Undo(a, 2 * k, up), k, up);
    }
  }

  lemma UndoInverts(a: Word, k: nat, up: bool)
    requires k > 0
    ensures XorShift(Undo(a, k, up), k, up) == a
    ensures Undo(XorShift(a, k, up), k, up) == a
  {
    UndoIsRightInverse(a, k, up);
    var b := XorShift(a, k, up);
    UndoIsRightInverse(b, k, up);
    XorShiftInjective(Undo(b, k, up), a, k, up);
  }

  function Unstep(x: Word): Word {
    Undo(Undo(Undo(x, 17, true), 7, false), 13, true)
  }

  /** The step is a bijection of the states that fixes zero, so a nonzero state never becomes zero. */
  lemma StepIsBijective(x: Word)
    ensures Unstep(Step(x)) == x && Step(Unstep(x)) == x
    ensures Step(x) == Zero() <==> x == Zero()
  {
    var a := XorShift(x, 13, true);
    var b := XorShift(a, 7, false);
    UndoInverts(x, 13, true);
    UndoInverts(a, 7, false);
    UndoInverts(b, 17, true);
    var c := Undo(x, 17, true);
    var d := Undo(c, 7, false);
    UndoInverts(x, 17, true);
    UndoInverts(c, 7, false);
    UndoInverts(d, 13, true);
    ZeroIsFixed(13, true);
    ZeroIsFixed(7, false);
    ZeroIsFixed(17, true);
    XorShiftInjective(x, Zero(), 13, true);
    XorShiftInjective(a, Zero(), 7, false);
    XorShiftInjective(b, Zero(), 17, true);
  }

  lemma ZeroIsFixed(k: nat, up: bool)
    ensures XorShift(Zero(), k, up) == Zero()
  {
  }

  // ---------- The step, bit by bit ----------

  /** The word in which only bit `k` is set. */
  function Bit(k: nat): Word {
    seq(BITS, i requires 0 <= i < BITS => i == k)
  }

  /** One bit of the state is spread over at most eight: the left shift by 13 and the two after it. */
  lemma StepOfBit(k: nat, i: nat)
    requires k < 64 && i < 64
    ensures Step(Bit(k))[i]
            <==> || i == k || i + 7 == k || i == k + 17 || (i == k + 10 && k >= 7)
                 || (k + 13 < 64 && (i == k + 13 || i == k + 6 || i == k + 30 || i == k + 23))
  {
  }

  lemma ShiftIsLinear(a: Word, b: Word, k: nat, up: bool)
    ensures XorShift(Xor(a, b), k, up) == Xor(XorShift(a, k, up), XorShift(b, k, up))
  {
  }

  /** The step of an exclusive or is the exclusive or of the steps, so its effect on single bits determines it. */
  lemma StepIsLinear(a: Word, b: Word)
    ensures Step(Xor(a, b)) == Xor(Step(a), Step(b))
  {
    ShiftIsLinear(a, b, 13, true);
    ShiftIsLinear(XorShift(a, 13, true), XorShift(b, 13, true), 7, false);
    ShiftIsLinear(XorShift(XorShift(a, 13, true), 7, false), XorShift(XorShift(b, 13, true), 7, false), 17, true);
  }

  // ---------- The stream ----------
  // ---------- The stream ----------

  type Octets = seq<seq<bool>>

  /** `n` steps of any generator. */
  function Iterate(step: Word -> Word, x: Word, n: nat): Word {
    if n == 0 then x else step(Iterate(step, x, n - 1))
  }

  /** The octets of `n` steps. */
  function Yield(step: Word -> Word, x: Word, n: nat): (octets: Octets)
    ensures |octets| == n
  {
    if n == 0 then [] else Yield(step, x, n - 1) + [LowByte(Iterate(step, x, n))]
  }

  function StateAfter(x: Word, n: nat): Word {
    Iterate(Step, x, n)
  }

  function Stream(x: Word, n: nat): (octets: Octets)
    ensures |octets| == n
  {
    Yield(Step, x, n)
  }

  lemma {:induction false} YieldsConcatenate(step: Word -> Word, x: Word, a: nat, b: nat)
    ensures Iterate(step, x, a + b) == Iterate(step, Iterate(step, x, a), b)
    ensures Yield(step, x, a + b) == Yield(step, x, a) + Yield(step, Iterate(step, x, a), b)
  {
    if b > 0 {
      YieldsConcatenate(step, x, a, b - 1);
    }
  }

  /** Asking for `a` and then `b` octets gives what asking for all of them at once gives. */
  lemma RequestsConcatenate(x: Word, a: nat, b: nat)
    ensures StateAfter(x, a + b) == StateAfter(StateAfter(x, a), b)
    ensures Stream(x, a + b) == Stream(x, a) + Stream(StateAfter(x, a), b)
  {
    YieldsConcatenate(Step, x, a, b);
  }

  /** What a stream goes on with after `a` octets. */
  lemma NextStretch(x: Word, a: nat, b: nat)
    ensures Stream(x, a + b)[a..] == Stream(StateAfter(x, a), b)
  {
    RequestsConcatenate(x, a, b);
  }

  /** The octets of a stream are the low eight bits of one state after another, from the first step on. */
  lemma {:induction false} StreamOctets(x: Word, n: nat, k: nat)
    requires k < n
    ensures |Stream(x, n)[k]| == 8 && forall j | 0 <= j < 8 :: Stream(x, n)[k][j] == StateAfter(x, k + 1)[j]
    ensures StateAfter(x, 0) == x && StateAfter(x, k + 1) == Step(StateAfter(x, k))
  {
    if k < n - 1 {
      StreamOctets(x, n - 1, k);
    }
  }

  lemma StepFrom(x: Word, y: Word)
    requires y == Step(x)
    ensures y == Zero() <==> x == Zero()
  {
    StepIsBijective(x);
  }

  lemma {:induction false} StateNeverZero(x: Word, n: nat, y: Word)
    requires y == StateAfter(x, n)
    ensures y == Zero() <==> x == Zero()
  {
    if n > 0 {
      var before := StateAfter(x, n - 1);
      StateNeverZero(x, n - 1, before);
      StepFrom(before, y);
    }
  }

  /** The generator of both platforms, drawing octet after octet from a mutable state. */
  class Generator {
    var state: Word

    constructor (seed: Word)
      ensures state == Seeded(seed)
    {
      state := if seed == Zero() then One() else seed;
    }

    method Draw(count: nat) returns (octets: Octets)
      modifies this
      ensures octets == Stream(old(state), count) && state == StateAfter(old(state), count)
    {
      octets := [];
      for i := 0 to count
        invariant octets == Stream(old(state), i) && state == StateAfter(old(state), i)
      {
        state := XorShift(state, 13, true);
        state := XorShift(state, 7, false);
        state := XorShift(state, 17, true);
        octets := octets + [LowByte(state)];
      }
    }
  }

  /** `seed.max(1)` */
  function Seeded(seed: Word): Word {
    if seed == Zero() then One() else seed
  }

  /** Only the seed zero is replaced, and by one. */
  lemma SeedIsKept(seed: Word, i: nat)
    requires i < 64
    ensures (forall k | 0 <= k < 64 :: !seed[k]) ==> (Seeded(seed)[i] <==> i == 0)
    ensures (exists k :: 0 <= k < 64 && seed[k]) ==> Seeded(seed) == seed
  {
  }

  /** Whatever the seed, no state of the generator is ever zero. */
  lemma SeededNeverZero(seed: Word, n: nat)
    ensures StateAfter(Seeded(seed), n) != Zero()
  {
    assert One()[0] != Zero()[0];
    StateNeverZero(Seeded(seed), n, StateAfter(Seeded(seed), n));
  }
}
