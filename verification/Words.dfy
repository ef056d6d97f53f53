/** The bitwise operators of C on unsigned 64-bit operands, and what they amount to in the
    expressions rdmsr uses. */
module Words {
  import opened Numerals

  /** a & b, bit by bit (section 6.5.10 of ISO/IEC 9899:2011). */
  function BitAnd(a: nat, b: nat): nat
    decreases a
  {
    if a == 0 || b == 0 then 0 else 2 * BitAnd(a / 2, b / 2) + (a % 2) * (b % 2)
  }

  /** ~a (section 6.5.3.3). */
  function Complement(a: nat): nat
    requires a < TWO64
  {
    TWO64 - 1 - a
  }

  /** -a in the unsigned type (section 6.2.5, paragraph 9). */
  function Negate(a: nat): nat
    requires a < TWO64
  {
    (TWO64 - a) % TWO64
  }

  /** 1ULL << k, and a >> k (section 6.5.7). */
  function One(k: nat): (w: nat)
    requires k < 64
    ensures 1 <= w < TWO64
  {
    PowTwo64();
    PowMonotone(2, k, 63);
    Pow(2, k)
  }

  function ShiftRight(a: nat, k: nat): nat
    requires k < 64
  {
    a / One(k)
  }

  lemma AndEven(a: nat, b: nat)
    ensures BitAnd(a, 2 * b) == 2 * BitAnd(a / 2, b)
  {
    assert (2 * b) / 2 == b && (2 * b) % 2 == 0;
  }

  lemma AndOdd(a: nat, b: nat)
    ensures BitAnd(a, 2 * b + 1) == 2 * BitAnd(a / 2, b) + a % 2
  {
    assert (2 * b + 1) / 2 == b && (2 * b + 1) % 2 == 1;
  }

  /** Masking with n ones keeps the remainder modulo 2^n. */
  lemma {:induction false} MaskIsRemainder(a: nat, n: nat)
    ensures BitAnd(a, Pow(2, n) - 1) == a % Pow(2, n)
    decreases n
  {
    if n > 0 {
      MaskIsRemainder(a / 2, n - 1);
      hide BitAnd;
      HalfMask(a, Pow(2, n - 1));
    }
  }

  lemma HalfMask(a: nat, p: nat)
    requires p > 0 && BitAnd(a / 2, p - 1) == a / 2 % p
    ensures BitAnd(a, 2 * p - 1) == a % (2 * p)
  {
    hide BitAnd;
    AndOdd(a, p - 1);
    HalfRemainder(a, p);
  }

  lemma HalfRemainder(a: nat, p: nat)
    requires p > 0
    ensures a % (2 * p) == 2 * (a / 2 % p) + a % 2
  {
    var q, r := a / 2 / p, a / 2 % p;
    assert a / 2 == q * p + r;
    assert a == q * (2 * p) + (2 * r + a % 2);
    Remainder(a, 2 * p, q, 2 * r + a % 2);
  }

  lemma Remainder(a: nat, d: nat, q: nat, r: nat)
    requires r < d && a == q * d + r
    ensures a % d == r && a / d == q
  {
    if a / d < q {
      MulMono(a / d + 1, q, d, d);
    } else if a / d > q {
      MulMono(q + 1, a / d, d, d);
    }
  }

  /** Masking with a single bit leaves that bit. */
  lemma {:induction false} BitIsRemainder(a: nat, k: nat)
    ensures BitAnd(a, Pow(2, k)) == (a / Pow(2, k) % 2) * Pow(2, k)
    decreases k
  {
    if k == 0 {
      AndOdd(a, 0);
      assert BitAnd(a / 2, 0) == 0;
    } else {
      var p := Pow(2, k - 1);
      BitIsRemainder(a / 2, k - 1);
      hide BitAnd;
      AndEven(a, p);
      HalfQuotient(a, p);
      DoubleTimes(a / 2 / p % 2, p);
    }
  }

  lemma HalfQuotient(a: nat, p: nat)
    requires p > 0
    ensures a / (2 * p) == a / 2 / p
  {
    var q, r := a / 2 / p, a / 2 % p;
    assert a / 2 == q * p + r;
    assert a == q * (2 * p) + (2 * r + a % 2);
    Remainder(a, 2 * p, q, 2 * r + a % 2);
  }

  /** Masking an n-bit value with all n ones but bit k clears bit k. */
  lemma {:induction false} ClearingIsSubtraction(a: nat, n: nat, k: nat)
    requires k < n && a < Pow(2, n)
    ensures Pow(2, k) < Pow(2, n)
    ensures BitAnd(a, Pow(2, n) - 1 - Pow(2, k)) == a - (a / Pow(2, k) % 2) * Pow(2, k)
    decreases n
  {
    hide BitAnd;
    PowMonotone(2, k + 1, n);
    var half := Pow(2, n - 1);
    if k == 0 {
      MaskIsRemainder(a / 2, n - 1);
      Remainder(a / 2, half, 0, a / 2);
      AndEven(a, half - 1);
      assert Pow(2, n) - 1 - Pow(2, 0) == 2 * (half - 1);
    } else {
      var p := Pow(2, k - 1);
      ClearingIsSubtraction(a / 2, n - 1, k - 1);
      AndOdd(a, half - 1 - p);
      assert Pow(2, n) - 1 - Pow(2, k) == 2 * (half - 1 - p) + 1;
      HalfQuotient(a, p);
      DoubleTimes(a / 2 / p % 2, p);
    }
  }

  lemma DoubleTimes(x: nat, p: nat)
    ensures x * (2 * p) == 2 * (x * p)
  {
  }

  // ---------- Bits of quotients and remainders ----------

  /** Bit i of a number. */
  function BitAt(a: nat, i: nat): nat {
    a / Pow(2, i) % 2
  }

  /** Bit i of a number divided by 2^low is its bit low + i. */
  lemma {:induction false} ShiftedBit(a: nat, low: nat, i: nat)
    ensures BitAt(a / Pow(2, low), i) == BitAt(a, low + i)
    decreases low
  {
    if low == 0 {
      assert Pow(2, 0) == 1;
    } else {
      var p := Pow(2, low - 1);
      HalfQuotient(a, p);
      ShiftedBit(a / 2, low - 1, i);
      HalfQuotient(a, Pow(2, low - 1 + i));
    }
  }

  /** A remainder modulo 2^n keeps the lower n bits and clears all others. */
  lemma {:induction false} KeptBit(a: nat, n: nat, i: nat)
    ensures BitAt(a % Pow(2, n), i) == if i < n then BitAt(a, i) else 0
    decreases n
  {
    if n <= i {
      PowMonotone(2, n, i);
      Remainder(a % Pow(2, n), Pow(2, i), 0, a % Pow(2, n));
    } else if i == 0 {
      HalfRemainder(a, Pow(2, n - 1));
      assert Pow(2, 0) == 1;
    } else {
      var p := Pow(2, n - 1);
      HalfRemainder(a, p);
      Remainder(a % Pow(2, n), 2, a / 2 % p, a % 2);
      KeptBit(a / 2, n - 1, i - 1);
      HalfQuotient(a, Pow(2, i - 1));
      HalfQuotient(a % Pow(2, n), Pow(2, i - 1));
    }
  }
}
