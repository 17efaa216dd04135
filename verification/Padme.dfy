/**
 Padmé length padding: only the top bits of a length may be set, so a padded length says little
 about the file. The source clears the low bits of `len + mask` with a mask of `2^k - 1`; that is
 rounding up to a multiple of `2^k`, which is how it is written here (`PadmeOnWords`).
 */
module Padme {
  import opened Bits

  /** ⌊log₂ len⌋. */
  function Exponent(len: nat): (e: nat)
    requires len >= 1
    ensures Pow2(e) <= len < Pow2(e + 1)
  {
    BitLength(len) - 1
  }

  /** The number of bits kept below the leading one: ⌊log₂ e⌋ + 1. */
  function Kept(e: nat): (s: nat)
    requires e >= 1
    ensures 1 <= s <= e
    ensures Pow2(s - 1) <= e < Pow2(s)
  {
    KeptBound(e);
    BitLength(e)
  }

  lemma KeptBound(e: nat)
    requires e >= 1
    ensures 1 <= BitLength(e) <= e
  {
    Pow2Exceeds(e);
  }

  /** The distance between neighbouring buckets for lengths in [2^e, 2^(e+1)). */
  function Step(e: nat): (m: nat)
    requires e >= 1
    ensures m > 0
  {
    Pow2(e - Kept(e))
  }

  function RoundUp(len: nat, m: nat): nat
    requires m > 0
  {
    (len + (m - 1)) / m * m
  }

  function Padme(len: nat): nat {
    if len < 2 then len else ExponentPositive(len); RoundUp(len, Step(Exponent(len)))
  }

  lemma ExponentPositive(len: nat)
    requires len >= 2
    ensures Exponent(len) >= 1
  {
    assert Pow2(1) == 2;
  }

  // ----- rounding -----

  /** `RoundUp(len, m)` is the least multiple of `m` that is not below `len`. */
  lemma RoundUpIsLeast(len: nat, m: nat, q: nat)
    requires m > 0
    ensures len <= RoundUp(len, m) < len + m
    ensures len <= q * m ==> RoundUp(len, m) <= q * m
  {
    hide RoundUp;
    var d, r := RoundUpParts(len, m);
    if d > q {
      MulMonotone(q + 1, d, m);
      Distribute(q, 1, m);
    }
  }

  lemma RoundUpParts(len: nat, m: nat) returns (d: nat, r: nat)
    requires m > 0
    ensures RoundUp(len, m) == d * m && len + (m - 1) == d * m + r && r < m
  {
    d, r := (len + (m - 1)) / m, (len + (m - 1)) % m;
  }

  lemma Distribute(a: int, b: int, m: int)
    ensures (a + b) * m == a * m + b * m && (a - b) * m == a * m - b * m
  {
  }

  lemma MulMonotone(a: nat, b: nat, m: nat)
    requires a <= b
    ensures a * m <= b * m
  {
  }

  lemma RoundUpMonotone(a: nat, b: nat, m: nat)
    requires m > 0 && a <= b
    ensures RoundUp(a, m) <= RoundUp(b, m)
  {
    RoundUpIsLeast(b, m, 0);
    RoundUpIsLeast(a, m, (b + (m - 1)) / m);
  }

  lemma RoundUpMultiple(q: nat, m: nat)
    requires m > 0
    ensures RoundUp(q * m, m) == q * m
  {
    RoundUpIsLeast(q * m, m, q);
  }

  /** Both ends of [2^e, 2^(e+1)] are multiples of the step: 2^s and 2^(s+1) of them. */
  lemma StepDivides(e: nat)
    requires e >= 1
    ensures Pow2(e) == Pow2(Kept(e)) * Step(e) && Pow2(e + 1) == (2 * Pow2(Kept(e))) * Step(e)
  {
    hide Pow2;
    hide BitLength;
    Pow2Add(Kept(e), e - Kept(e));
    Pow2Step(e);
    Double(Pow2(Kept(e)), Step(e));
  }

  lemma Double(a: nat, m: nat)
    ensures (2 * a) * m == 2 * (a * m)
  {
  }

  /** Padding stays in its octave: from 2^e it goes no further than 2^(e+1). */
  lemma PadmeOctave(len: nat)
    requires len >= 2
    ensures var e := Exponent(len);
            e >= 1 && Pow2(e) <= len <= Padme(len) <= Pow2(e + 1) && Padme(len) < len + Step(e)
  {
    ExponentPositive(len);
    var e := Exponent(len);
    StepDivides(e);
    RoundUpIsLeast(len, Step(e), 2 * Pow2(Kept(e)));
  }

  lemma ExponentUnique(len: nat, e: nat)
    requires len >= 1 && Pow2(e) <= len < Pow2(e + 1)
    ensures Exponent(len) == e
  {
    BitLengthUnique(len, e + 1);
  }

  // ----- what the padding promises -----

  lemma NeverShrinks(len: nat)
    ensures len <= Padme(len)
  {
    if len >= 2 {
      PadmeOctave(len);
    }
  }

  lemma Monotone(a: nat, b: nat)
    requires a <= b
    ensures Padme(a) <= Padme(b)
  {
    if a >= 2 {
      PadmeOctave(a);
      PadmeOctave(b);
      var e, f := Exponent(a), Exponent(b);
      if e == f {
        RoundUpMonotone(a, b, Step(e));
      } else {
        if f < e {
          Pow2Monotone(f + 1, e);
        }
        Pow2Monotone(e + 1, f);
      }
    } else {
      NeverShrinks(b);
    }
  }

  /** A padded length is its own padding: the buckets are fixed points. */
  lemma Idempotent(len: nat)
    ensures Padme(Padme(len)) == Padme(len)
  {
    hide Pow2;
    hide Exponent;
    hide Step;
    hide RoundUp;
    if len >= 2 {
      PadmeOctave(len);
      var e, p := Exponent(len), Padme(len);
      if p < Pow2(e + 1) {
        ExponentUnique(p, e);
        RoundedStays(len, Step(e));
      } else {
        Pow2Step(e + 1);
        ExponentUnique(p, e + 1);
        EndOfOctave(e + 1);
      }
    }
  }

  lemma RoundedStays(len: nat, m: nat)
    requires m > 0
    ensures RoundUp(RoundUp(len, m), m) == RoundUp(len, m)
  {
    RoundUpMultiple((len + (m - 1)) / m, m);
  }

  lemma EndOfOctave(e: nat)
    requires e >= 1
    ensures RoundUp(Pow2(e), Step(e)) == Pow2(e)
  {
    hide RoundUp;
    StepDivides(e);
    RoundUpMultiple(Pow2(Kept(e)), Step(e));
  }

  /** The overhead is at most twelve percent, for every length. */
  lemma AtMostTwelvePercent(len: nat)
    ensures 100 * (Padme(len) - len) <= 12 * len
  {
    if len >= 2 {
      PadmeOctave(len);
      var e := Exponent(len);
      if e >= 8 {
        StepSmall(e);
      } else {
        SmallLengths(len);
      }
    }
  }

  lemma StepSmall(e: nat)
    requires e >= 8
    ensures 16 * Step(e) <= Pow2(e)
  {
    var s := Kept(e);
    assert Pow2(3) == 8;
    if s < 4 {
      Pow2Monotone(s, 3);
    }
    Pow2Monotone(4, s);
    assert Pow2(4) == 16;
    StepDivides(e);
    MulMonotone(16, Pow2(s), Step(e));
  }

  /** Below 256 the kept bits and steps are these. */
  lemma SmallSteps()
    ensures Step(1) == 1 && Step(2) == 1 && Step(3) == 2 && Step(4) == 2 && Step(5) == 4 && Step(6) == 8 && Step(7) == 16
  {
    assert BitLength(1) == 1 && BitLength(2) == 2 && BitLength(3) == 2;
    assert BitLength(4) == 3 && BitLength(5) == 3 && BitLength(6) == 3 && BitLength(7) == 3;
    assert Pow2(0) == 1 && Pow2(1) == 2 && Pow2(2) == 4 && Pow2(3) == 8 && Pow2(4) == 16;
  }

  lemma SmallPowers()
    ensures Pow2(1) == 2 && Pow2(2) == 4 && Pow2(3) == 8 && Pow2(4) == 16 && Pow2(5) == 32 && Pow2(6) == 64 && Pow2(7) == 128
  {
  }

  lemma PadmeOfEight()
    ensures Padme(8) == 8
  {
    SmallPowers();
    ExponentUnique(8, 3);
    SmallSteps();
    RoundUpMultiple(4, 2);
  }

  lemma SmallLengths(len: nat)
    requires len >= 2 && Exponent(len) < 8
    ensures 100 * (Padme(len) - len) <= 12 * len
  {
    hide Pow2;
    hide Exponent;
    hide Step;
    hide Padme;
    PadmeOctave(len);
    SmallSteps();
    SmallPowers();
    PadmeOfEight();
  }

  /** In 64 bits the sum `len + mask` fits exactly up to 2^64 - 2^57. */
  lemma FitsIff(len: nat)
    requires 2 <= len < Pow2(64)
    ensures Exponent(len) >= 1
    ensures len + (Step(Exponent(len)) - 1) < Pow2(64) <==> len <= Pow2(64) - Pow2(57)
  {
    hide Pow2;
    hide Exponent;
    hide Step;
    ExponentPositive(len);
    var e := Exponent(len);
    if e >= 64 {
      Pow2Monotone(64, e);
    }
    Pow2Step(63);
    Pow2Monotone(57, 63);
    if e == 63 {
      TopStep();
    } else {
      Pow2Monotone(e + 1, 63);
      StepBelow(e);
    }
  }

  /** ⌊log₂ x⌋ + 1 as the source counts it, from the leading zeros of a word. */
  lemma BitLengthOnWords(x: nat, bits: nat)
    requires 0 < x < Pow2(bits)
    ensures BitLength(x) == bits - LeadingZeros(x, bits)
  {
    hide BitLength;
    hide Pow2;
    hide LeadingZeros;
    var z := LeadingZeros(x, bits);
    if z == bits {
      PowZero();
    }
    BitLengthUnique(x, bits - z);
  }

  lemma PowZero()
    ensures Pow2(0) == 1
  {
  }

  /** The source's own words: `e` and `s` from leading zeros, then the sum fits and clearing the mask's bits in it gives the padding. */
  lemma PadmeOnWords(len: nat, e: nat, s: nat)
    requires 2 <= len <= Pow2(64) - Pow2(57)
    requires e == 63 - LeadingZeros(len, 64) && s == 32 - LeadingZeros(e, 32)
    ensures s <= e
    ensures var mask := Pow2(e - s) - 1;
            len + mask < Pow2(64) && mask < Pow2(64) && Padme(len) == And(len + mask, Pow2(64) - 1 - mask)
  {
    hide Pow2;
    hide BitLength;
    hide LeadingZeros;
    hide And;
    ExponentPositive(len);
    FitsIff(len);
    BitLengthOnWords(len, 64);
    assert e == Exponent(len);
    SmallWord(e);
    BitLengthOnWords(e, 32);
    AndClears(len + (Step(e) - 1), 64, e - s);
  }

  lemma SmallWord(e: nat)
    requires e < 64
    ensures e < Pow2(32)
  {
    assert Pow2(6) == 64;
    Pow2Monotone(6, 32);
  }

  lemma TopStep()
    ensures Step(63) == Pow2(57)
  {
    hide Pow2;
    SmallPowers();
    BitLengthUnique(63, 6);
  }

  lemma StepBelow(e: nat)
    requires e >= 1
    ensures Step(e) <= Pow2(e)
  {
    hide Pow2;
    Pow2Monotone(e - Kept(e), e);
  }

  // ----- how many lengths there are -----

  ghost function Octave(e: nat): set<nat> {
    set len: nat | Pow2(e) <= len < Pow2(e + 1) :: Padme(len)
  }

  ghost function Multiples(base: nat, m: nat, n: nat): set<nat> {
    if n == 0 then {} else Multiples(base, m, n - 1) + {base + (n - 1) * m}
  }

  lemma {:induction false} MultiplesSize(base: nat, m: nat, n: nat)
    ensures |Multiples(base, m, n)| <= n
  {
    if n > 0 {
      MultiplesSize(base, m, n - 1);
    }
  }

  lemma {:induction false} MultiplesHold(base: nat, m: nat, n: nat, j: nat)
    requires j < n
    ensures base + j * m in Multiples(base, m, n)
  {
    if j < n - 1 {
      MultiplesHold(base, m, n - 1, j);
    }
  }

  /** Which bucket of its octave a length falls in. */
  lemma BucketOf(e: nat, len: nat)
    requires e >= 1 && Pow2(e) <= len < Pow2(e + 1)
    ensures Padme(len) in Multiples(Pow2(e), Step(e), Pow2(Kept(e)) + 1)
  {
    hide Pow2;
    hide BitLength;
    hide Multiples;
    hide RoundUp;
    hide Step;
    hide Kept;
    var m, b := Step(e), Pow2(Kept(e));
    SmallPowers();
    Pow2Monotone(1, e);
    ExponentUnique(len, e);
    PadmeOctave(len);
    StepDivides(e);
    var q, _ := RoundUpParts(len, m);
    Cancel(b, q, m);
    Cancel(q, 2 * b, m);
    Distribute(q, b, m);
    MultiplesHold(Pow2(e), m, b + 1, q - b);
  }

  lemma Cancel(a: nat, b: nat, m: nat)
    requires m > 0 && a * m <= b * m
    ensures a <= b
  {
    if a > b {
      MulMonotone(b + 1, a, m);
      Distribute(b, 1, m);
    }
  }

  /** All 2^e lengths of an octave share at most 2^s + 1 padded lengths. */
  lemma FewBuckets(e: nat)
    requires e >= 1
    ensures |Octave(e)| <= Pow2(Kept(e)) + 1
  {
    hide Pow2;
    hide Multiples;
    hide Padme;
    hide Step;
    var m, n := Step(e), Pow2(Kept(e)) + 1;
    forall p | p in Octave(e) ensures p in Multiples(Pow2(e), m, n) {
      var len: nat :| Pow2(e) <= len < Pow2(e + 1) && Padme(len) == p;
      BucketOf(e, len);
    }
    MultiplesSize(Pow2(e), m, n);
    SubsetSize(Octave(e), Multiples(Pow2(e), m, n));
  }

  lemma {:induction false} SubsetSize(a: set<nat>, b: set<nat>)
    requires a <= b
    ensures |a| <= |b|
    decreases a
  {
    if a != {} {
      var x :| x in a;
      SubsetSize(a - {x}, b - {x});
    }
  }
}
