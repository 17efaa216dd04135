/** Powers of two and bit lengths. */
module Bits {

  function Pow2(n: nat): (r: nat)
    ensures r > 0
  {
    if n == 0 then 1 else 2 * Pow2(n - 1)
  }

  lemma {:induction false} Pow2Monotone(a: nat, b: nat)
    requires a <= b
    ensures Pow2(a) <= Pow2(b)
    ensures a < b ==> 2 * Pow2(a) <= Pow2(b)
  {
    if a < b {
      Pow2Monotone(a, b - 1);
    }
  }

  lemma Pow2Word()
    ensures Pow2(63) == 0x8000_0000_0000_0000 && Pow2(64) == 0x1_0000_0000_0000_0000
  {
    assert Pow2(8) == 0x100;
    assert Pow2(16) == 0x1_0000;
    assert Pow2(24) == 0x100_0000;
    assert Pow2(32) == 0x1_0000_0000;
    assert Pow2(40) == 0x100_0000_0000;
    assert Pow2(48) == 0x1_0000_0000_0000;
    assert Pow2(56) == 0x100_0000_0000_0000;
    assert Pow2(63) == 0x8000_0000_0000_0000;
  }

  /** Leading zero bits of `x` in a word of `bits` bits. */
  function LeadingZeros(x: nat, bits: nat): (z: nat)
    ensures z <= bits
    ensures x < Pow2(bits) ==> x < Pow2(bits - z)
    ensures z < bits ==> Pow2(bits - z - 1) <= x
  {
    if bits == 0 || Pow2(bits - 1) <= x then 0 else 1 + LeadingZeros(x, bits - 1)
  }

  /** The least number of bits that holds `x`. */
  function BitLength(x: nat): (n: nat)
    ensures x < Pow2(n)
    ensures n > 0 ==> Pow2(n - 1) <= x
  {
    if x == 0 then 0 else 1 + BitLength(x / 2)
  }

  lemma {:induction false} Pow2Add(a: nat, b: nat)
    ensures Pow2(a + b) == Pow2(a) * Pow2(b)
  {
    if a > 0 {
      hide Pow2;
      Pow2Add(a - 1, b);
      Pow2Step(a - 1);
      Pow2Step(a - 1 + b);
      TwiceTimes(Pow2(a - 1), Pow2(b));
    }
  }

  /** A number between two consecutive powers of two has the bit length of the upper one. */
  lemma BitLengthUnique(x: nat, n: nat)
    requires x < Pow2(n) && (n > 0 ==> Pow2(n - 1) <= x)
    ensures BitLength(x) == n
  {
    var l := BitLength(x);
    if l < n {
      Pow2Monotone(l, n - 1);
    } else if n < l {
      Pow2Monotone(n, l - 1);
    }
  }

  lemma {:induction false} Pow2Exceeds(n: nat)
    ensures n < Pow2(n)
  {
    if n > 0 {
      Pow2Exceeds(n - 1);
    }
  }

  // ----- nonlinear steps -----

  lemma DoubleFirst(q: nat, p: nat)
    ensures 2 * (q * p) == q * (2 * p)
  {
  }

  lemma DifferenceTimes(a: int, b: int, p: int)
    ensures (a - b) * p == a * p - b * p
  {
  }

  lemma AtLeastOnce(d: int, p: nat)
    requires d >= 1
    ensures d * p >= p
  {
  }

  lemma QuotientUnique(x: nat, p: nat, q: nat, r: nat)
    requires p > 0 && r < p && x == q * p + r
    ensures x / p == q
  {
    var q', r' := x / p, x % p;
    assert x == q' * p + r';
    DifferenceTimes(q', q, p);
    DifferenceTimes(q, q', p);
    if q' > q {
      AtLeastOnce(q' - q, p);
    } else if q > q' {
      AtLeastOnce(q - q', p);
    }
  }

  lemma HalfQuotient(x: nat, p: nat)
    requires p > 0
    ensures x / 2 / p == x / (2 * p)
  {
    var q, r := Division(x, 2 * p);
    DoubleFirst(q, p);
    QuotientUnique(x / 2, p, q, r / 2);
  }

  lemma Division(x: nat, p: nat) returns (q: nat, r: nat)
    requires p > 0
    ensures q == x / p && r < p && x == q * p + r
  {
    q, r := x / p, x % p;
  }

  // ----- bit operations -----

  /** Bitwise and of two numbers. */
  function And(a: nat, b: nat): nat {
    if a == 0 || b == 0 then 0 else (if a % 2 == 1 && b % 2 == 1 then 1 else 0) + 2 * And(a / 2, b / 2)
  }

  /** Bitwise or of two numbers. */
  function Or(a: nat, b: nat): nat {
    if a == 0 && b == 0 then 0 else (if a % 2 == 1 || b % 2 == 1 then 1 else 0) + 2 * Or(a / 2, b / 2)
  }

  lemma {:induction false} OrDisjoint(a: nat, b: nat)
    requires And(a, b) == 0
    ensures Or(a, b) == a + b
    decreases a + b
  {
    if a != 0 || b != 0 {
      AndStep(a, b);
      OrDisjoint(a / 2, b / 2);
    }
  }

  lemma AndZero(x: nat)
    ensures And(x, 0) == 0
  {
  }

  lemma AndBit(x: nat)
    ensures And(x, 1) == x % 2
  {
  }

  lemma AndStep(a: nat, b: nat)
    ensures And(a, b) == (if a % 2 == 1 && b % 2 == 1 then 1 else 0) + 2 * And(a / 2, b / 2)
    ensures And(a, b) == 0 ==> And(a / 2, b / 2) == 0 && (a % 2 == 0 || b % 2 == 0)
  {
  }

  lemma AndEven(x: nat, h: nat)
    ensures And(x, 2 * h) == 2 * And(x / 2, h)
  {
  }

  lemma {:induction false} AndOnes(x: nat, w: nat)
    requires x < Pow2(w)
    ensures And(x, Pow2(w) - 1) == x
  {
    if x > 0 {
      assert Pow2(w) - 1 == 2 * (Pow2(w - 1) - 1) + 1;
      AndOnes(x / 2, w - 1);
    }
  }

  lemma Pow2Step(n: nat)
    ensures Pow2(n + 1) == 2 * Pow2(n)
  {
  }

  /** Bitwise and works on high and low parts apart. */
  lemma {:induction false} AndSplit(q: nat, r: nat, a: nat, b: nat, k: nat)
    requires r < Pow2(k) && b < Pow2(k)
    ensures And(Pow2(k) * q + r, Pow2(k) * a + b) == Pow2(k) * And(q, a) + And(r, b)
    decreases k
  {
    hide And;
    if k == 0 {
      AndZero(0);
    } else {
      hide Pow2;
      Pow2Step(k - 1);
      var p := Pow2(k - 1);
      AndSplit(q, r / 2, a, b / 2, k - 1);
      HalfOf(p, q, r);
      HalfOf(p, a, b);
      AndStep(2 * p * q + r, 2 * p * a + b);
      AndStep(r, b);
      TwiceTimes(p, And(q, a));
    }
  }

  lemma HalfOf(p: nat, q: nat, r: nat)
    ensures (2 * p * q + r) / 2 == p * q + r / 2 && (2 * p * q + r) % 2 == r % 2
  {
    TwiceTimes(p, q);
  }

  lemma TwiceTimes(p: nat, q: nat)
    ensures 2 * p * q == 2 * (p * q)
  {
  }

  /** A multiple of `p` as a quotient times `p`, kept apart from the arithmetic around it. */
  function Below(x: nat, p: nat): nat
    requires p > 0
  {
    x / p * p
  }

  lemma BelowStep(x: nat, p: nat)
    requires p > 0
    ensures 2 * Below(x / 2, p) == Below(x, 2 * p)
  {
    HalfQuotient(x, p);
    DoubleFirst(x / (2 * p), p);
  }

  lemma BelowOne(x: nat)
    ensures Below(x, 1) == x
  {
  }

  /** In a word of `w` bits, clearing the low `k` bits leaves the multiple of 2^k below. */
  lemma {:induction false} AndClears(x: nat, w: nat, k: nat)
    requires x < Pow2(w) && k <= w
    ensures Pow2(k) <= Pow2(w)
    ensures And(x, Pow2(w) - Pow2(k)) == Below(x, Pow2(k))
    decreases k
  {
    hide And;
    hide Below;
    Pow2Monotone(k, w);
    if k == 0 {
      AndOnes(x, w);
      BelowOne(x);
    } else {
      hide Pow2;
      Pow2Step(k - 1);
      Pow2Step(w - 1);
      AndClears(x / 2, w - 1, k - 1);
      AndEven(x, Pow2(w - 1) - Pow2(k - 1));
      BelowStep(x, Pow2(k - 1));
    }
  }
}
