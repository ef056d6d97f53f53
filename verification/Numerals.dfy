/** Numerals as the C library prints and reads them: the unsigned and signed conversions of
    fprintf (section 7.21.6.1 of ISO/IEC 9899:2011) and strtoull with base 0 (section 7.22.1.4). */
module Numerals {

  const TWO64: nat := 0x1_0000_0000_0000_0000

  function Pow(base: nat, k: nat): (p: nat)
    ensures base >= 1 ==> p >= 1
  {
    if k == 0 then 1 else base * Pow(base, k - 1)
  }

  function DigitChar(d: nat, upper: bool): (ch: char)
    requires d < 16
    ensures DigitValue(ch) == d
  {
    if d < 10 then ('0' as int + d) as char
    else if upper then ('A' as int + d - 10) as char
    else ('a' as int + d - 10) as char
  }

  /** The value of a digit in bases up to 36; 36 for any other character. */
  function DigitValue(ch: char): nat {
    if '0' <= ch <= '9' then ch as int - '0' as int
    else if 'a' <= ch <= 'z' then ch as int - 'a' as int + 10
    else if 'A' <= ch <= 'Z' then ch as int - 'A' as int + 10
    else 36
  }

  function Digits(n: nat, base: nat, upper: bool): (s: string)
    requires 2 <= base <= 16
    ensures s != []
    decreases n
  {
    if n < base then [DigitChar(n, upper)]
    else Digits(n / base, base, upper) + [DigitChar(n % base, upper)]
  }

  function Value(s: string, base: nat): nat
    decreases |s|
  {
    if s == [] then 0 else Value(s[..|s| - 1], base) * base + DigitValue(s[|s| - 1])
  }

  function Repeat(ch: char, count: nat): (s: string)
    ensures |s| == count
  {
    seq(count, _ => ch)
  }

  /** A conversion of an unsigned 64-bit argument to the given minimum width, padded with
      zeros after the sign when `zero`, with blanks in front otherwise. */
  function Convert(sign: string, digits: string, zero: bool, width: nat): (s: string)
    ensures |s| == if width > |sign| + |digits| then width else |sign| + |digits|
  {
    var pad := if width > |sign| + |digits| then width - |sign| - |digits| else 0;
    if zero then sign + Repeat('0', pad) + digits else Repeat(' ', pad) + sign + digits
  }

  // ---------- Reading ----------

  predicate Blank(ch: char) {
    ch == ' ' || 0x9 <= ch as int <= 0xd
  }

  function SkipBlanks(s: string): (r: string)
    ensures |r| <= |s| && (r != [] ==> !Blank(r[0]))
  {
    if s != [] && Blank(s[0]) then SkipBlanks(s[1..]) else s
  }

  /** Length of the longest prefix made of digits of the base. */
  function Leading(s: string, base: nat): (k: nat)
    ensures k <= |s|
  {
    if s == [] || DigitValue(s[0]) >= base then 0 else 1 + Leading(s[1..], base)
  }

  function ReadPrefix(s: string, base: nat): nat {
    Value(s[..Leading(s, base)], base)
  }

  predicate HexPrefixed(s: string) {
    |s| >= 3 && s[0] == '0' && (s[1] == 'x' || s[1] == 'X') && DigitValue(s[2]) < 16
  }

  /** The subject sequence of base 0: hexadecimal after 0x, octal after 0, decimal otherwise. */
  function Magnitude(s: string): nat {
    if HexPrefixed(s) then ReadPrefix(s[2..], 16)
    else if s != [] && s[0] == '0' then ReadPrefix(s, 8)
    else ReadPrefix(s, 10)
  }

  /** strtoull(s, NULL, 0) with a 64-bit unsigned long long: out-of-range magnitudes give the
      largest value, a minus sign negates in the unsigned type. */
  function Strtoull(s: string): (v: nat)
    ensures v < TWO64
  {
    var body := SkipBlanks(s);
    var signed := body != [] && (body[0] == '-' || body[0] == '+');
    var m := Magnitude(if signed then body[1..] else body);
    if m >= TWO64 then TWO64 - 1
    else if signed && body[0] == '-' then (TWO64 - m) % TWO64
    else m
  }

  // ---------- Facts about printed numerals ----------

  /** Every character is a digit of the base. */
  predicate DigitString(s: string, base: nat) {
    forall i :: 0 <= i < |s| ==> DigitValue(s[i]) < base
  }

  lemma {:induction false} PrintedDigits(n: nat, base: nat, upper: bool)
    requires 2 <= base <= 16
    ensures DigitString(Digits(n, base, upper), base)
    ensures Value(Digits(n, base, upper), base) == n
    ensures DigitValue(Digits(n, base, upper)[0]) == 0 ==> n == 0 && |Digits(n, base, upper)| == 1
    decreases n
  {
    var s := Digits(n, base, upper);
    if n < base {
      assert s[..0] == [];
    } else {
      var q, r := n / base, n % base;
      QuotientRest(n, base);
      PrintedDigits(q, base, upper);
      AppendDigit(Digits(q, base, upper), r, base, upper);
    }
  }

  lemma QuotientRest(n: nat, base: nat)
    requires 2 <= base <= n
    ensures n == n / base * base + n % base && 0 < n / base < n
  {
  }

  lemma AppendDigit(p: string, d: nat, base: nat, upper: bool)
    requires DigitString(p, base) && d < base <= 16
    ensures DigitString(p + [DigitChar(d, upper)], base)
    ensures Value(p + [DigitChar(d, upper)], base) == Value(p, base) * base + d
  {
    assert (p + [DigitChar(d, upper)])[..|p|] == p;
  }

  /** What follows a numeral and ends it. */
  predicate Ends(tail: string, base: nat) {
    tail == [] || DigitValue(tail[0]) >= base
  }

  lemma {:induction false} LeadingAll(s: string, tail: string, base: nat)
    requires DigitString(s, base) && Ends(tail, base)
    ensures Leading(s + tail, base) == |s|
    decreases |s|
  {
    if s == [] {
      assert s + tail == tail;
    } else {
      assert (s + tail)[1..] == s[1..] + tail;
      LeadingAll(s[1..], tail, base);
    }
  }

  /** Reading a numeral in its own base gives its value. */
  lemma ReadBack(s: string, tail: string, base: nat)
    requires DigitString(s, base) && Ends(tail, base)
    ensures ReadPrefix(s + tail, base) == Value(s, base)
  {
    LeadingAll(s, tail, base);
    assert (s + tail)[..|s|] == s;
  }

  lemma {:induction false} ZerosInFront(count: nat, s: string, base: nat)
    ensures Value(Repeat('0', count) + s, base) == Value(s, base)
    decreases |s| + count
  {
    var t := Repeat('0', count) + s;
    if s != [] {
      assert t[..|t| - 1] == Repeat('0', count) + s[..|s| - 1];
      ZerosInFront(count, s[..|s| - 1], base);
    } else if count > 0 {
      assert t[..|t| - 1] == Repeat('0', count - 1) + s;
      ZerosInFront(count - 1, s, base);
    }
  }

  lemma {:induction false} LeadingZeros(count: nat, s: string, base: nat)
    requires base >= 1
    ensures Leading(Repeat('0', count) + s, base) == count + Leading(s, base)
    decreases count
  {
    var t := Repeat('0', count) + s;
    if count == 0 {
      assert t == s;
    } else {
      assert t[1..] == Repeat('0', count - 1) + s;
      LeadingZeros(count - 1, s, base);
    }
  }

  lemma ReadPrefixZeros(count: nat, s: string, base: nat)
    requires base >= 1
    ensures ReadPrefix(Repeat('0', count) + s, base) == ReadPrefix(s, base)
  {
    LeadingZeros(count, s, base);
    var k := Leading(s, base);
    assert (Repeat('0', count) + s)[..count + k] == Repeat('0', count) + s[..k];
    ZerosInFront(count, s[..k], base);
  }

  // ---------- Reading a numeral in the wrong base ----------

  lemma MulMono(a: nat, b: nat, x: nat, y: nat)
    requires a <= b && x <= y
    ensures a * x <= b * y
  {
  }

  /** In a larger base a numeral is worth at least as much, and strictly more as soon as it has
      two digits and does not begin with a zero. */
  lemma {:induction false} LargerBase(s: string, low: nat, high: nat)
    requires low < high
    ensures Value(s, low) <= Value(s, high)
    ensures s != [] && DigitValue(s[0]) > 0 ==> Value(s, high) > 0
    ensures |s| >= 2 && DigitValue(s[0]) > 0 ==> Value(s, low) < Value(s, high)
    decreases |s|
  {
    if s != [] {
      var p := s[..|s| - 1];
      LargerBase(p, low, high);
      LargerTimes(Value(p, low), Value(p, high), low, high);
      if |s| == 1 { assert p == []; }
    }
  }

  lemma LargerTimes(v: nat, w: nat, low: nat, high: nat)
    requires v <= w && low < high
    ensures v * low <= w * high
    ensures w > 0 ==> v * low < w * high && w * high > 0
  {
    MulMono(v, w, low, low);
    assert w * high == w * low + w * (high - low);
    MulMono(w, w, 1, high - low);
  }

  /** A proper prefix of a numeral is worth strictly less, unless both are worth nothing. */
  lemma {:induction false} PrefixWorthLess(s: string, k: nat, base: nat)
    requires k < |s| && base >= 2
    ensures Value(s[..k], base) < Value(s, base) || Value(s[..k], base) == Value(s, base) == 0
    decreases |s|
  {
    var p := s[..|s| - 1];
    assert Value(p, base) * base >= 2 * Value(p, base) by { MulMono(2, base, Value(p, base), Value(p, base)); }
    if k < |p| {
      PrefixWorthLess(p, k, base);
      assert p[..k] == s[..k];
    } else {
      assert s[..k] == p;
    }
  }

  /** Read in a smaller base, a numeral never gains, and keeps its value exactly when it is a
      single digit of that base. */
  lemma SmallerBaseRead(n: nat, printed: nat, read: nat, upper: bool, tail: string)
    requires 2 <= read < printed <= 16 && Ends(tail, read)
    ensures var r := ReadPrefix(Digits(n, printed, upper) + tail, read);
            r <= n && (r == n <==> n < read)
  {
    var s := Digits(n, printed, upper);
    PrintedDigits(n, printed, upper);
    LeadingSplit(s, tail, read);
    var k := Leading(s, read);
    assert (s + tail)[..k] == s[..k];
    LargerBase(s[..k], read, printed);
    if k < |s| {
      PrefixWorthLess(s, k, printed);
    } else {
      assert s[..k] == s;
    }
    if n < read {
      assert s == [DigitChar(n, upper)];
      assert s[..1] == s && s[..0] == [];
    }
  }

  lemma {:induction false} LeadingSplit(s: string, tail: string, base: nat)
    requires Ends(tail, base)
    ensures Leading(s + tail, base) == Leading(s, base)
    decreases |s|
  {
    if s == [] {
      assert s + tail == tail;
    } else {
      assert (s + tail)[1..] == s[1..] + tail;
      LeadingSplit(s[1..], tail, base);
    }
  }

  /** Read in a larger base, a numeral keeps its value exactly when it is a single digit, and
      gains otherwise. */
  lemma LargerBaseRead(n: nat, printed: nat, read: nat, upper: bool, tail: string)
    requires 2 <= printed < read <= 16 && Ends(tail, read)
    ensures var r := ReadPrefix(Digits(n, printed, upper) + tail, read);
            if n < printed then r == n else r > n
  {
    var s := Digits(n, printed, upper);
    PrintedDigits(n, printed, upper);
    ReadBack(s, tail, read);
    LargerBase(s, printed, read);
    if n < printed {
      assert s[..0] == [];
    }
  }

  // ---------- Widths ----------

  lemma {:induction false} PowAdd(base: nat, i: nat, k: nat)
    ensures Pow(base, i + k) == Pow(base, i) * Pow(base, k)
  {
    if i > 0 {
      PowAdd(base, i - 1, k);
      MulAssoc(base, Pow(base, i - 1), Pow(base, k));
    }
  }

  lemma MulAssoc(a: nat, b: nat, c: nat)
    ensures a * (b * c) == (a * b) * c
  {
  }

  lemma {:induction false} PowMonotone(base: nat, i: nat, k: nat)
    requires i <= k && base >= 1
    ensures Pow(base, i) <= Pow(base, k)
    decreases k - i
  {
    if i < k {
      PowMonotone(base, i + 1, k);
      MulMono(1, base, Pow(base, i), Pow(base, i));
    }
  }

  lemma PowTwo32()
    ensures Pow(2, 32) == 0x1_0000_0000
  {
    assert Pow(2, 8) == 0x100;
    PowAdd(2, 8, 8);
    PowAdd(2, 16, 16);
  }

  lemma PowTwo64()
    ensures Pow(2, 63) == TWO64 / 2 && Pow(2, 64) == TWO64
  {
    PowTwo32();
    PowAdd(2, 32, 32);
    assert Pow(2, 64) == 2 * Pow(2, 63);
  }

  /** A number prints in at most k digits exactly when it is below base^k. */
  lemma {:induction false} DigitCount(n: nat, base: nat, upper: bool, k: nat)
    requires 2 <= base <= 16 && k >= 1
    ensures |Digits(n, base, upper)| <= k <==> n < Pow(base, k)
    decreases k
  {
    if n < base {
      MulMono(base, base, 1, Pow(base, k - 1));
    } else {
      var q := n / base;
      QuotientRest(n, base);
      assert |Digits(n, base, upper)| == |Digits(q, base, upper)| + 1;
      if k == 1 {
        assert Pow(base, 1) == base * Pow(base, 0);
      } else {
        DigitCount(q, base, upper, k - 1);
        DivBelow(n, base, Pow(base, k - 1));
      }
    }
  }

  lemma DivBelow(n: nat, base: nat, p: nat)
    requires base >= 1
    ensures n / base < p <==> n < base * p
  {
    var q, r := n / base, n % base;
    assert n == q * base + r;
    if q < p {
      MulMono(q + 1, p, base, base);
      assert (q + 1) * base == q * base + base;
    } else {
      MulMono(p, q, base, base);
    }
  }

  /** Hexadecimal letters are lower case without `upper` and upper case with it; decimal and octal
      numerals have no letters. */
  lemma {:induction false} LetterCase(n: nat, base: nat, upper: bool)
    requires 2 <= base <= 16
    ensures forall ch :: ch in Digits(n, base, upper) ==>
              || '0' <= ch <= '9'
              || (base > 10 && if upper then 'A' <= ch <= 'F' else 'a' <= ch <= 'f')
    decreases n
  {
    if n >= base {
      QuotientRest(n, base);
      LetterCase(n / base, base, upper);
    }
  }
}
