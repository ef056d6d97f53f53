/** What the text printed by rdmsr is worth: to strtoull, to a reader of signed decimals, and
    in characters. */
module RdmsrText {
  import opened Numerals
  import opened DecimalDigits
  import opened Rdmsr

  // ---------- Shape of the printed numeral ----------

  function Base(r: Radix): nat
    requires r != Raw
  {
    if r == Hex || r == CapHex then 16 else if r == Oct then 8 else 10
  }

  /** The magnitude printed for a field value. */
  function Magnitude10(r: Radix, bits: nat, v: nat): nat
    requires 1 <= bits <= 64
  {
    if r == Dec then Rest(v, bits) else v
  }

  predicate Negative(r: Radix, bits: nat, v: nat)
    requires 1 <= bits <= 64
  {
    r == Dec && TopBit(v, bits) && Rest(v, bits) > 0
  }

  function Sign(r: Radix, bits: nat, v: nat): string
    requires 1 <= bits <= 64
  {
    if Negative(r, bits, v) then "-" else ""
  }

  function Body(r: Radix, bits: nat, v: nat): string
    requires r != Raw && 1 <= bits <= 64
  {
    Digits(Magnitude10(r, bits, v), Base(r), r == CapHex)
  }

  function Zeros(r: Radix, c: bool, fill: bool, bits: nat, v: nat): nat
    requires r != Raw && 1 <= bits <= 64
  {
    var length := |Sign(r, bits, v)| + |Body(r, bits, v)|;
    if Fills(r, c, fill) && FillWidth(r, bits) > length then FillWidth(r, bits) - length else 0
  }

  /** The magnitude of a signed field fits in the remaining bits. */
  lemma RestBelow(v: nat, bits: nat)
    requires 1 <= bits <= 64 && v < Pow(2, bits)
    ensures Rest(v, bits) < Pow(2, bits - 1) <= TWO64 / 2
    ensures v < TWO64
  {
    TopBitSet(v, bits);
    PowMonotone(2, bits, 64);
    PowMonotone(2, bits - 1, 63);
    PowTwo64();
  }

  lemma SignAndDigits(r: Radix, bits: nat, v: nat)
    requires r != Raw && 1 <= bits <= 64 && v < TWO64 && Rest(v, bits) < TWO64 / 2
    requires !TopBit(v, bits) ==> v < TWO64 / 2 || r != Dec
    ensures SignOf(ConvOf(r), Printed(r, v, bits)) == Sign(r, bits, v)
    ensures DigitsOf(ConvOf(r), Printed(r, v, bits)) == Body(r, bits, v)
  {
    match r
    case Hex => case CapHex => case Oct => case Uns =>
    case Dec => AdjustedTwice(v, bits);
  }

  /** Negating in 64 bits and reading the result as signed gives the magnitude back. */
  lemma AdjustedTwice(v: nat, bits: nat)
    requires 1 <= bits <= 64 && v < TWO64 && Rest(v, bits) < TWO64 / 2
    ensures var data := SignAdjusted(v, bits);
            TopBit(v, bits) ==>
              && (data >= TWO64 / 2 <==> Rest(v, bits) > 0)
              && (if data >= TWO64 / 2 then TWO64 - data else data) == Rest(v, bits)
  {
  }

  lemma ConvertShape(sign: string, digits: string, zero: bool, width: nat)
    requires zero || (digits != [] && width <= 1)
    ensures Convert(sign, digits, zero, width)
            == sign + Repeat('0', if zero && width > |sign| + |digits| then width - |sign| - |digits| else 0) + digits
  {
    if !zero {
      assert Repeat(' ', 0) == [] && Repeat('0', 0) == [];
      assert [] + sign == sign && sign + [] == sign;
    }
  }

  /** The numeral is a sign, zeros and the digits of the magnitude. */
  lemma NumeralShape(r: Radix, c: bool, fill: bool, bits: nat, v: nat)
    requires r != Raw && 1 <= bits <= 64 && v < Pow(2, bits)
    ensures v < TWO64
    ensures Numeral(r, c, fill, bits, v)
            == Sign(r, bits, v) + Repeat('0', Zeros(r, c, fill, bits, v)) + Body(r, bits, v)
  {
    hide Digits, Convert, Repeat, FillWidth, Pow;
    RestBelow(v, bits);
    SignAndDigits(r, bits, v);
    ConvertShape(Sign(r, bits, v), Body(r, bits, v), Fills(r, c, fill), Width(r, c, fill, bits));
  }

  // ---------- Reading it back with strtoull ----------

  /** What may follow the number: nothing, or something that is neither a digit nor a letter. */
  predicate Closes(tail: string) {
    tail == [] || DigitValue(tail[0]) >= 36
  }

  /** What may follow the digits: the end of the number, or the C suffix. */
  predicate Follows(tail: string) {
    tail == [] || (DigitValue(tail[0]) >= 16 && tail[0] != 'x' && tail[0] != 'X')
  }

  /** Digits as they are printed: no zero in front of other digits. */
  predicate Tidy(d: string) {
    d != [] && DigitString(d, 16) && (d[0] == '0' ==> |d| == 1)
  }

  lemma TidyDigits(n: nat, base: nat, upper: bool)
    requires 2 <= base <= 16
    ensures Tidy(Digits(n, base, upper)) && (Digits(n, base, upper)[0] == '0' <==> n == 0)
  {
    PrintedDigits(n, base, upper);
    if n == 0 { assert Digits(n, base, upper) == ['0']; }
  }

  lemma NotHex(zeros: nat, d: string, tail: string)
    requires Tidy(d) && Follows(tail)
    ensures var s := Repeat('0', zeros) + (d + tail);
            s != [] && !HexPrefixed(s) && (s[0] == '0' <==> zeros > 0 || d[0] == '0') && DigitValue(s[0]) < 36
  {
    var s := Repeat('0', zeros) + (d + tail);
    assert DigitValue(d[0]) < 16;
    if zeros + |d| >= 2 {
      assert s[1] == '0' || s[1] == d[1 - zeros];
    }
  }

  /** Without a 0x, strtoull takes octal after a leading zero and decimal otherwise. */
  lemma PlainMagnitude(zeros: nat, d: string, tail: string)
    requires Tidy(d) && Follows(tail)
    ensures Magnitude(Repeat('0', zeros) + (d + tail))
            == ReadPrefix(d + tail, if zeros > 0 || d[0] == '0' then 8 else 10)
  {
    NotHex(zeros, d, tail);
    ReadPrefixZeros(zeros, d + tail, 8);
    ReadPrefixZeros(zeros, d + tail, 10);
  }

  lemma HexMagnitude(zeros: nat, d: string, tail: string)
    requires Tidy(d) && Follows(tail)
    ensures Magnitude("0x" + (Repeat('0', zeros) + (d + tail))) == Value(d, 16)
  {
    var body := Repeat('0', zeros) + (d + tail);
    var s := "0x" + body;
    assert s[2..] == body;
    assert DigitValue(body[0]) < 16 by { assert body[0] == '0' || body[0] == d[0]; }
    ReadPrefixZeros(zeros, d + tail, 16);
    ReadBack(d, tail, 16);
  }

  function Clamp(m: nat): nat {
    if m >= TWO64 then TWO64 - 1 else m
  }

  /** strtoull on a numeral without blanks and without a sign. */
  lemma UnsignedRead(s: string)
    requires s != [] && DigitValue(s[0]) < 36
    ensures Strtoull(s) == Clamp(Magnitude(s))
  {
  }

  lemma NegativeRead(s: string)
    ensures Strtoull("-" + s) == if Magnitude(s) >= TWO64 then TWO64 - 1 else (TWO64 - Magnitude(s)) % TWO64
  {
    assert ("-" + s)[1..] == s;
  }

  lemma Regroup(before: string, sign: string, zeros: string, d: string, after: string, tail: string)
    ensures before + (sign + zeros + d) + after + tail == before + (sign + (zeros + (d + (after + tail))))
  {
  }

  /** A whole line, regrouped around its digits. */
  lemma LineShape(r: Radix, c: bool, fill: bool, bits: nat, v: nat, tail: string)
    requires r != Raw && 1 <= bits <= 64 && v < Pow(2, bits)
    ensures v < TWO64
    ensures Line(r, c, fill, bits, v) + tail
            == CPrefix(r, c) + (Sign(r, bits, v) + (Repeat('0', Zeros(r, c, fill, bits, v))
                                                    + (Body(r, bits, v) + (CSuffix(r, c) + tail))))
  {
    NumeralShape(r, c, fill, bits, v);
    var zeros := Repeat('0', Zeros(r, c, fill, bits, v));
    Regroup(CPrefix(r, c), Sign(r, bits, v), zeros, Body(r, bits, v), CSuffix(r, c), tail);
  }

  /** strtoull on zeros and digits. */
  lemma ReadPlain(zeros: nat, d: string, tail: string)
    requires Tidy(d) && Follows(tail)
    ensures Strtoull(Repeat('0', zeros) + (d + tail))
            == Clamp(ReadPrefix(d + tail, if zeros > 0 || d[0] == '0' then 8 else 10))
  {
    NotHex(zeros, d, tail);
    PlainMagnitude(zeros, d, tail);
    UnsignedRead(Repeat('0', zeros) + (d + tail));
  }

  /** The value strtoull finds in a line without a C prefix and without a sign. */
  lemma ReadLine(r: Radix, c: bool, fill: bool, bits: nat, v: nat, tail: string)
    requires r != Raw && 1 <= bits <= 64 && v < Pow(2, bits) && Closes(tail)
    requires Sign(r, bits, v) == "" && CPrefix(r, c) == ""
    ensures v < TWO64
    ensures Strtoull(Line(r, c, fill, bits, v) + tail)
            == Clamp(ReadPrefix(Body(r, bits, v) + (CSuffix(r, c) + tail),
                                if Zeros(r, c, fill, bits, v) > 0 || Magnitude10(r, bits, v) == 0 then 8 else 10))
  {
    LineShape(r, c, fill, bits, v, tail);
    TidyDigits(Magnitude10(r, bits, v), Base(r), r == CapHex);
    var s := Repeat('0', Zeros(r, c, fill, bits, v)) + (Body(r, bits, v) + (CSuffix(r, c) + tail));
    assert "" + ("" + s) == s;
    ReadPlain(Zeros(r, c, fill, bits, v), Body(r, bits, v), CSuffix(r, c) + tail);
  }

  /** Exactly when a printed field reads back as itself. */
  predicate ReadsBack(r: Radix, c: bool, fill: bool, bits: nat, v: nat)
    requires r != Raw && 1 <= bits <= 64
  {
    match r
    case Hex => c || v < 8 || (v < 10 && (!fill || bits <= 4))
    case CapHex => c || v < 8 || (v < 10 && (!fill || bits <= 4))
    case Oct => c || v < 8 || v == TWO64 - 1 || (fill && v < Pow(8, FillWidth(Oct, bits) - 1))
    case Uns => c || !fill || v < 8 || v >= Pow(10, FillWidth(Uns, bits) - 1)
    case Dec => if TopBit(v, bits) then bits == 64 && v == TWO64 / 2 + TWO64 / 4
                else c || !fill || v < 8
  }

  lemma HexLine(zeros: nat, d: string, tail: string)
    requires Tidy(d) && Closes(tail)
    ensures Strtoull("0x" + ("" + (Repeat('0', zeros) + (d + ("" + tail))))) == Clamp(Value(d, 16))
  {
    var s := "0x" + (Repeat('0', zeros) + (d + tail));
    assert "0x" + ("" + (Repeat('0', zeros) + (d + ("" + tail)))) == s;
    UnsignedRead(s);
    HexMagnitude(zeros, d, tail);
  }

  lemma HexReadsBack(r: Radix, c: bool, fill: bool, bits: nat, v: nat, tail: string)
    requires (r == Hex || r == CapHex) && 1 <= bits <= 64 && v < Pow(2, bits) && Closes(tail)
    ensures v < TWO64
    ensures Strtoull(Line(r, c, fill, bits, v) + tail) == v <==> ReadsBack(r, c, fill, bits, v)
  {
    RestBelow(v, bits);
    if c {
      CHexReadsBack(r, fill, bits, v, tail);
    } else {
      ReadLine(r, c, fill, bits, v, tail);
      assert CSuffix(r, c) + tail == tail;
      SmallerBaseRead(v, 16, 8, r == CapHex, tail);
      SmallerBaseRead(v, 16, 10, r == CapHex, tail);
      if v == 8 || v == 9 {
        SmallHexWidth(bits, v);
      }
    }
  }

  lemma CHexReadsBack(r: Radix, fill: bool, bits: nat, v: nat, tail: string)
    requires (r == Hex || r == CapHex) && 1 <= bits <= 64 && v < Pow(2, bits) && Closes(tail)
    ensures v < TWO64 && Strtoull(Line(r, true, fill, bits, v) + tail) == v
  {
    hide Line, Zeros, Digits, Strtoull, Pow;
    RestBelow(v, bits);
    LineShape(r, true, fill, bits, v, tail);
    TidyDigits(v, 16, r == CapHex);
    PrintedDigits(v, 16, r == CapHex);
    HexLine(Zeros(r, true, fill, bits, v), Body(r, bits, v), tail);
  }

  lemma SmallHexWidth(bits: nat, v: nat)
    requires 1 <= bits <= 64 && 8 <= v < 16 && v < Pow(2, bits)
    ensures |Digits(v, 16, false)| == |Digits(v, 16, true)| == 1 && (FillWidth(Hex, bits) <= 1 <==> bits <= 4)
  {
  }

  lemma OctLine(zeros: nat, d: string, tail: string)
    requires Tidy(d) && Closes(tail)
    ensures Strtoull("0" + ("" + (Repeat('0', zeros) + (d + ("" + tail))))) == Clamp(ReadPrefix(d + tail, 8))
  {
    assert "0" + ("" + (Repeat('0', zeros) + (d + ("" + tail)))) == Repeat('0', zeros + 1) + (d + tail);
    ReadPlain(zeros + 1, d, tail);
  }

  lemma OctReadsBack(c: bool, fill: bool, bits: nat, v: nat, tail: string)
    requires 1 <= bits <= 64 && v < Pow(2, bits) && Closes(tail)
    ensures v < TWO64
    ensures Strtoull(Line(Oct, c, fill, bits, v) + tail) == v <==> ReadsBack(Oct, c, fill, bits, v)
  {
    hide Pow, Line, Strtoull, Digits, FillWidth, TopBit;
    OctByLength(c, fill, bits, v, tail);
    PaddedExactly(8, v, FillWidth(Oct, bits));
  }

  lemma OctByLength(c: bool, fill: bool, bits: nat, v: nat, tail: string)
    requires 1 <= bits <= 64 && v < Pow(2, bits) && Closes(tail)
    ensures v < TWO64
    ensures Strtoull(Line(Oct, c, fill, bits, v) + tail) == v
            <==> c || v < 8 || v == TWO64 - 1 || (fill && |Digits(v, 8, false)| < FillWidth(Oct, bits))
  {
    RestBelow(v, bits);
    var d, z := Body(Oct, bits, v), Zeros(Oct, c, fill, bits, v);
    PrintedDigits(v, 8, false);
    ReadBack(d, tail, 8);
    if c {
      LineShape(Oct, c, fill, bits, v, tail);
      TidyDigits(v, 8, false);
      OctLine(z, d, tail);
    } else {
      ReadLine(Oct, c, fill, bits, v, tail);
      assert CSuffix(Oct, c) + tail == tail;
      LargerBaseRead(v, 8, 10, false, tail);
    }
  }

  /** Digits of a number from 8 on need padding to a width exactly when the number is small. */
  lemma PaddedExactly(base: nat, v: nat, width: nat)
    requires 2 <= base <= 16 && width >= 1
    ensures v >= 1 ==> (|Digits(v, base, false)| < width <==> v < Pow(base, width - 1))
  {
    hide Digits, Pow;
    if width > 1 {
      DigitCount(v, base, false, width - 1);
    } else {
      assert Pow(base, 0) == 1 by { PowZero(base); }
    }
  }

  lemma PowZero(base: nat)
    ensures Pow(base, 0) == 1
  {
  }

  lemma UnsReadsBack(c: bool, fill: bool, bits: nat, v: nat, tail: string)
    requires 1 <= bits <= 64 && v < Pow(2, bits) && Closes(tail)
    ensures v < TWO64
    ensures Strtoull(Line(Uns, c, fill, bits, v) + tail) == v <==> ReadsBack(Uns, c, fill, bits, v)
  {
    hide Pow, Line, Strtoull, Digits, FillWidth, TopBit;
    UnsByLength(c, fill, bits, v, tail);
    PaddedExactly(10, v, FillWidth(Uns, bits));
  }

  lemma UnsByLength(c: bool, fill: bool, bits: nat, v: nat, tail: string)
    requires 1 <= bits <= 64 && v < Pow(2, bits) && Closes(tail)
    ensures v < TWO64
    ensures Strtoull(Line(Uns, c, fill, bits, v) + tail) == v
            <==> c || !fill || v < 8 || |Digits(v, 10, false)| >= FillWidth(Uns, bits)
  {
    RestBelow(v, bits);
    ReadLine(Uns, c, fill, bits, v, tail);
    DecimalRead(v, CSuffix(Uns, c) + tail);
  }

  /** Decimal digits taken as decimal and as octal. */
  lemma DecimalRead(v: nat, tail: string)
    requires Ends(tail, 10)
    ensures ReadPrefix(Digits(v, 10, false) + tail, 10) == v
    ensures var r := ReadPrefix(Digits(v, 10, false) + tail, 8); r <= v && (r == v <==> v < 8)
  {
    PrintedDigits(v, 10, false);
    ReadBack(Digits(v, 10, false), tail, 10);
    SmallerBaseRead(v, 10, 8, false, tail);
  }

  lemma DecReadsBack(c: bool, fill: bool, bits: nat, v: nat, tail: string)
    requires 1 <= bits <= 64 && v < Pow(2, bits) && Closes(tail)
    ensures v < TWO64
    ensures Strtoull(Line(Dec, c, fill, bits, v) + tail) == v <==> ReadsBack(Dec, c, fill, bits, v)
  {
    TopBitSet(v, bits);
    RestBelow(v, bits);
    if Negative(Dec, bits, v) {
      NegativeReadsBack(c, fill, bits, v, tail);
    } else {
      NonNegativeReads(c, fill, bits, v, tail);
    }
  }

  /** Without a sign the magnitude is printed, and read back unless zeros make it octal. */
  lemma NonNegativeReads(c: bool, fill: bool, bits: nat, v: nat, tail: string)
    requires 1 <= bits <= 64 && v < Pow(2, bits) && Closes(tail) && !Negative(Dec, bits, v)
    ensures v < TWO64
    ensures var n := Rest(v, bits);
            var r := Strtoull(Line(Dec, c, fill, bits, v) + tail);
            r <= n && (r == n <==> n < 8 || c || !fill)
  {
    RestBelow(v, bits);
    ReadLine(Dec, c, fill, bits, v, tail);
    assert CSuffix(Dec, c) + tail == tail;
    DecimalRead(Rest(v, bits), tail);
    if fill && !c { FilledSignedZero(bits, v); }
  }

  /** The width for signed decimals leaves room for the sign, so that a value without one gets
      at least one zero in front. */
  lemma FilledSignedZero(bits: nat, v: nat)
    requires 1 <= bits <= 64 && v < Pow(2, bits) && !Negative(Dec, bits, v)
    ensures Zeros(Dec, false, true, bits, v) > 0
  {
    RestBelow(v, bits);
    SignedDigits(bits, v);
  }

  /** The magnitude never has more digits than the table says. */
  lemma SignedDigits(bits: nat, v: nat)
    requires 1 <= bits <= 64 && v < Pow(2, bits)
    ensures |Body(Dec, bits, v)| <= DECDIGITS[bits - 1]
  {
    hide Digits, Pow, Rest, TopBit, DECDIGITS;
    FirstRow();
    RestBelow(v, bits);
    MagnitudeDigits(Rest(v, bits), bits - 1);
  }

  /** A magnitude of k bits has at most as many digits as row k of the table says. */
  lemma MagnitudeDigits(n: nat, k: nat)
    requires k <= 64 && n < Pow(2, k)
    ensures |DECDIGITS| == 65 && |Digits(n, 10, false)| <= DECDIGITS[k]
  {
    FirstRow();
    if k == 0 {
      PowZero(2);
      assert |Digits(0, 10, false)| == 1;
    } else {
      hide Digits, Pow, DECDIGITS;
      TableFits(k);
      DigitCount(n, 10, false, DECDIGITS[k]);
    }
  }

  /** A negative field is read back as the 64-bit negation of what its digits are worth, which
      is the magnitude unless zeros in front make them octal. */
  lemma NegativeReads(c: bool, fill: bool, bits: nat, v: nat, tail: string) returns (m: nat)
    requires 1 <= bits <= 64 && v < Pow(2, bits) && Closes(tail) && Negative(Dec, bits, v)
    ensures v < TWO64
    ensures m <= Rest(v, bits) < TWO64 / 2 && (Zeros(Dec, c, fill, bits, v) == 0 ==> m == Rest(v, bits))
    ensures Strtoull(Line(Dec, c, fill, bits, v) + tail) == (TWO64 - m) % TWO64
  {
    hide Line, Zeros, Pow, Digits, Strtoull, ReadPrefix;
    RestBelow(v, bits);
    NegativeShape(c, fill, bits, v, tail);
    var n, z, d := Rest(v, bits), Zeros(Dec, c, fill, bits, v), Body(Dec, bits, v);
    TidyDigits(n, 10, false);
    NegativeLine(z, d, tail);
    DecimalRead(n, tail);
    m := ReadPrefix(d + tail, if z > 0 || d[0] == '0' then 8 else 10);
  }

  /** That is the field itself in a single case: the full register holding 2^63 + 2^62. */
  lemma NegativeReadsBack(c: bool, fill: bool, bits: nat, v: nat, tail: string)
    requires 1 <= bits <= 64 && v < Pow(2, bits) && Closes(tail) && Negative(Dec, bits, v)
    ensures v < TWO64
    ensures Strtoull(Line(Dec, c, fill, bits, v) + tail) == v <==> bits == 64 && v == TWO64 / 2 + TWO64 / 4
  {
    RestBelow(v, bits);
    var n := Rest(v, bits);
    var m := NegativeReads(c, fill, bits, v, tail);
    TopBitSet(v, bits);
    NegativeArithmetic(bits, v, n);
    if Zeros(Dec, c, fill, bits, v) > 0 && bits == 64 { PaddedIsSmall(c, fill, v); }
    NegatedIsField(bits, v, n, m);
  }

  lemma NegatedIsField(bits: nat, v: nat, n: nat, m: nat)
    requires 0 < n <= v < TWO64 && m <= n && (m == n || bits < 64 || n < TWO64 / 16)
    requires (bits < 64 ==> v + n < TWO64) && (bits == 64 ==> v == TWO64 / 2 + n) && bits <= 64
    ensures (TWO64 - m) % TWO64 == v <==> bits == 64 && v == TWO64 / 2 + TWO64 / 4 && m == n
    ensures bits == 64 && v == TWO64 / 2 + TWO64 / 4 ==> m == n
  {
  }

  /** strtoull on a minus sign, zeros and digits. */
  lemma NegativeLine(zeros: nat, d: string, tail: string)
    requires Tidy(d) && Follows(tail)
    ensures var m := ReadPrefix(d + tail, if zeros > 0 || d[0] == '0' then 8 else 10);
            Strtoull("-" + (Repeat('0', zeros) + (d + tail)))
            == if m >= TWO64 then TWO64 - 1 else (TWO64 - m) % TWO64
  {
    NegativeRead(Repeat('0', zeros) + (d + tail));
    PlainMagnitude(zeros, d, tail);
  }

  lemma NegativeShape(c: bool, fill: bool, bits: nat, v: nat, tail: string)
    requires 1 <= bits <= 64 && v < Pow(2, bits) && Negative(Dec, bits, v)
    ensures v < TWO64
    ensures Line(Dec, c, fill, bits, v) + tail
            == "-" + (Repeat('0', Zeros(Dec, c, fill, bits, v)) + (Body(Dec, bits, v) + tail))
  {
    LineShape(Dec, c, fill, bits, v, tail);
    assert CSuffix(Dec, c) + tail == tail;
    var s := "-" + (Repeat('0', Zeros(Dec, c, fill, bits, v)) + (Body(Dec, bits, v) + tail));
    assert CPrefix(Dec, c) + s == s;
  }

  /** If the value read is at most the magnitude, its negation equals the field only for the
      widest field and a magnitude of at least 2^62. */
  lemma NegativeArithmetic(bits: nat, v: nat, n: nat)
    requires 1 <= bits <= 64 && n < Pow(2, bits - 1) && v == Pow(2, bits - 1) + n
    ensures bits < 64 ==> v + n < TWO64
    ensures bits == 64 ==> v == TWO64 / 2 + n
  {
    PowTwo64();
    assert Pow(2, 63) == 2 * Pow(2, 62);
    if bits < 64 { PowMonotone(2, bits - 1, 62); }
  }

  /** A padded negative number has fewer than 19 digits. */
  lemma PaddedIsSmall(c: bool, fill: bool, v: nat)
    requires v < Pow(2, 64) && Negative(Dec, 64, v) && Zeros(Dec, c, fill, 64, v) > 0
    ensures Rest(v, 64) < TWO64 / 16
  {
    assert DECDIGITS[63] == 19;
    assert |Body(Dec, 64, v)| <= 18;
    DigitCount(Rest(v, 64), 10, false, 18);
    PowTen18();
  }

  lemma PowTen18()
    ensures Pow(10, 18) == 1_000_000_000_000_000_000
  {
    assert Pow(10, 9) == 1_000_000_000;
    PowAdd(10, 9, 9);
  }

  /** For every mode but the raw dumps, every field and every value: the line rdmsr prints is
      taken by strtoull with base 0 for the field itself exactly under ReadsBack. */
  lemma RoundTrip(r: Radix, c: bool, fill: bool, bits: nat, v: nat, tail: string)
    requires r != Raw && 1 <= bits <= 64 && v < Pow(2, bits) && Closes(tail)
    ensures v < TWO64
    ensures Strtoull(Line(r, c, fill, bits, v) + tail) == v <==> ReadsBack(r, c, fill, bits, v)
  {
    match r
    case Hex => HexReadsBack(r, c, fill, bits, v, tail);
    case CapHex => HexReadsBack(r, c, fill, bits, v, tail);
    case Oct => OctReadsBack(c, fill, bits, v, tail);
    case Uns => UnsReadsBack(c, fill, bits, v, tail);
    case Dec => DecReadsBack(c, fill, bits, v, tail);
  }

  /** In C-language form every field reads back, whatever the radix (decimals unsigned) and the
      zero fill: writing back what was read is the identity. */
  lemma CLanguageRoundTrip(r: Radix, fill: bool, bits: nat, v: nat, tail: string)
    requires r != Raw && r != Dec && 1 <= bits <= 64 && v < Pow(2, bits) && Closes(tail)
    ensures v < TWO64 && Strtoull(Line(r, true, fill, bits, v) + tail) == v
  {
    RoundTrip(r, true, fill, bits, v, tail);
  }

  // ---------- Widths ----------

  lemma {:induction false} PowSixteen(w: nat)
    ensures Pow(16, w) == Pow(2, 4 * w)
  {
    if w > 0 {
      PowSixteen(w - 1);
      assert 4 * w - 4 == 4 * (w - 1);
      assert Pow(2, 4 * w) == 2 * Pow(2, 4 * w - 1) == 4 * Pow(2, 4 * w - 2);
      assert Pow(2, 4 * w - 2) == 2 * Pow(2, 4 * w - 3) == 4 * Pow(2, 4 * w - 4);
    }
  }

  lemma {:induction false} PowEight(w: nat)
    ensures Pow(8, w) == Pow(2, 3 * w)
  {
    if w > 0 {
      PowEight(w - 1);
      assert 3 * w - 3 == 3 * (w - 1);
      assert Pow(2, 3 * w) == 2 * Pow(2, 3 * w - 1) == 4 * Pow(2, 3 * w - 2);
      assert Pow(2, 3 * w - 2) == 2 * Pow(2, 3 * w - 3);
    }
  }

  lemma BudgetPositive(r: Radix, bits: nat)
    requires r != Raw && 1 <= bits <= 64
    ensures DigitBudget(r, bits) >= 1
  {
    FirstRow();
    TableExact(bits - 1);
    hide DECDIGITS, Pow;
  }

  lemma FirstRow()
    ensures |DECDIGITS| == 65 && DECDIGITS[0] == 1
  {
  }

  /** Digits a field of that many bits may need. */
  function DigitBudget(r: Radix, bits: nat): nat
    requires r != Raw && 1 <= bits <= 64
  {
    if r == Dec then DECDIGITS[bits - 1] else FillWidth(r, bits)
  }

  /** w digits of the base hold every magnitude of k bits, and w - 1 digits do not. */
  predicate JustFits(base: nat, w: nat, k: nat) {
    w >= 1 && Pow(base, w - 1) < Pow(2, k) <= Pow(base, w)
  }

  /** The budget just fits the bits the magnitude may use. */
  lemma BudgetExact(r: Radix, bits: nat)
    requires r != Raw && 1 <= bits <= 64 && (r == Dec ==> bits >= 2)
    ensures JustFits(Base(r), DigitBudget(r, bits), if r == Dec then bits - 1 else bits)
  {
    hide Pow, JustFits;
    if r == Hex || r == CapHex {
      HexBudget(bits);
      assert Base(r) == 16 && DigitBudget(r, bits) == (bits + 3) / 4;
    } else if r == Oct {
      OctBudget(bits);
      assert Base(r) == 8 && DigitBudget(r, bits) == (bits + 2) / 3;
    } else if r == Uns {
      TableFits(bits);
      assert Base(r) == 10 && DigitBudget(r, bits) == DECDIGITS[bits];
    } else {
      TableFits(bits - 1);
      assert Base(r) == 10 && DigitBudget(r, bits) == DECDIGITS[bits - 1];
    }
  }

  lemma TableFits(bits: nat)
    requires 1 <= bits <= 64
    ensures JustFits(10, DECDIGITS[bits], bits)
  {
    TableExact(bits);
  }

  lemma HexBudget(bits: nat)
    requires 1 <= bits
    ensures JustFits(16, (bits + 3) / 4, bits)
  {
    var w := (bits + 3) / 4;
    PowSixteen(w);
    PowSixteen(w - 1);
    PowMonotone(2, bits, 4 * w);
    PowMonotone(2, 4 * (w - 1) + 1, bits);
  }

  lemma OctBudget(bits: nat)
    requires 1 <= bits
    ensures JustFits(8, (bits + 2) / 3, bits)
  {
    var w := (bits + 2) / 3;
    PowEight(w);
    PowEight(w - 1);
    PowMonotone(2, bits, 3 * w);
    PowMonotone(2, 3 * (w - 1) + 1, bits);
  }

  lemma WithinBudget(r: Radix, bits: nat, v: nat)
    requires r != Raw && 1 <= bits <= 64 && v < Pow(2, bits)
    ensures |Body(r, bits, v)| <= DigitBudget(r, bits)
  {
    if r == Dec {
      SignedDigits(bits, v);
    } else {
      BudgetExact(r, bits);
      DigitCount(v, Base(r), r == CapHex, DigitBudget(r, bits));
    }
  }

  /** The number needs every digit its field may need, and its sign when it may have one. */
  predicate FullLength(r: Radix, bits: nat, v: nat)
    requires r != Raw && 1 <= bits <= 64
  {
    BudgetPositive(r, bits);
    if r == Dec then TopBit(v, bits) && Rest(v, bits) >= Pow(10, DigitBudget(r, bits) - 1)
    else DigitBudget(r, bits) == 1 || v >= Pow(Base(r), DigitBudget(r, bits) - 1)
  }

  /** With the zero-fill option every field of every width prints in exactly the width of its
      radix, no value being cut or spilling over, in every form but one: the decimals in
      C-language form ignore the option and have that width if and only if they need it. */
  lemma FilledWidthExact(r: Radix, c: bool, bits: nat, v: nat)
    requires r != Raw && 1 <= bits <= 64 && v < Pow(2, bits)
    ensures v < TWO64
    ensures |Numeral(r, c, true, bits, v)| == FillWidth(r, bits)
            <==> !(c && (r == Uns || r == Dec)) || FullLength(r, bits, v)
  {
    hide Pow, Numeral, Body, FullLength;
    NumeralShape(r, c, true, bits, v);
    WithinBudget(r, bits, v);
    if c && (r == Uns || r == Dec) { FullLengthMeans(r, bits, v); }
  }

  lemma FullLengthMeans(r: Radix, bits: nat, v: nat)
    requires (r == Uns || r == Dec) && 1 <= bits <= 64 && v < Pow(2, bits)
    ensures |Sign(r, bits, v)| + |Body(r, bits, v)| == FillWidth(r, bits) <==> FullLength(r, bits, v)
  {
    hide Pow, Digits, Rest, TopBit, DigitBudget, FillWidth;
    WithinBudget(r, bits, v);
    BudgetPositive(r, bits);
    BudgetAndSign(r, bits);
    NeedsAllDigits(Magnitude10(r, bits, v), DigitBudget(r, bits));
  }

  lemma BudgetAndSign(r: Radix, bits: nat)
    requires r != Raw && 1 <= bits <= 64
    ensures FillWidth(r, bits) == DigitBudget(r, bits) + if r == Dec then 1 else 0
  {
    hide DECDIGITS;
  }

  lemma NeedsAllDigits(n: nat, budget: nat)
    requires budget >= 1 && |Digits(n, 10, false)| <= budget
    ensures |Digits(n, 10, false)| == budget <==> budget == 1 || n >= Pow(10, budget - 1)
    ensures budget == 1 ==> Pow(10, budget - 1) == 1
  {
    hide Digits;
    if budget > 1 { DigitCount(n, 10, false, budget - 1); }
  }

  /** An input on which the two forms differ: zero in the unsigned decimal of a whole register. */
  lemma UnfilledZero()
    ensures |Numeral(Uns, true, true, 64, 0)| == 1 && FillWidth(Uns, 64) == 20
    ensures |Numeral(Uns, false, true, 64, 0)| == 20
  {
    assert DECDIGITS[64] == 20;
    assert Digits(0, 10, false) == "0";
  }

  /** No smaller width would do: the largest magnitude fills it without padding.  (A signed
      field of one bit has only the values that print as zero.) */
  lemma FilledWidthLeast(r: Radix, c: bool, bits: nat)
    requires r != Raw && 1 <= bits <= 64 && (r == Dec ==> bits >= 2)
    ensures var v := Pow(2, bits) - 1;
            v < TWO64 && |Numeral(r, c, false, bits, v)| == FillWidth(r, bits)
  {
    hide Pow, Numeral, Body, Magnitude10, DECDIGITS;
    LargestMagnitude(r, bits);
    NumeralShape(r, c, false, bits, Pow(2, bits) - 1);
    LargestFillsBudget(r, bits);
  }

  lemma LargestFillsBudget(r: Radix, bits: nat)
    requires r != Raw && 1 <= bits <= 64 && (r == Dec ==> bits >= 2)
    ensures |Body(r, bits, Pow(2, bits) - 1)| == DigitBudget(r, bits)
  {
    hide Pow, Digits, DigitBudget, JustFits, Magnitude10, Negative;
    LargestMagnitude(r, bits);
    BudgetExact(r, bits);
    match r
    case Hex => LargestDigits(16, false, DigitBudget(r, bits), bits);
    case CapHex => LargestDigits(16, true, DigitBudget(r, bits), bits);
    case Oct => LargestDigits(8, false, DigitBudget(r, bits), bits);
    case Uns => LargestDigits(10, false, DigitBudget(r, bits), bits);
    case Dec => LargestDigits(10, false, DigitBudget(r, bits), bits - 1);
  }

  lemma LargestDigits(base: nat, upper: bool, w: nat, k: nat)
    requires 2 <= base <= 16 && JustFits(base, w, k)
    ensures |Digits(Pow(2, k) - 1, base, upper)| == w
  {
    DigitCount(Pow(2, k) - 1, base, upper, w);
    if w > 1 { DigitCount(Pow(2, k) - 1, base, upper, w - 1); }
  }

  lemma LargestMagnitude(r: Radix, bits: nat)
    requires r != Raw && 1 <= bits <= 64 && (r == Dec ==> bits >= 2)
    ensures var v := Pow(2, bits) - 1;
            && Magnitude10(r, bits, v) == Pow(2, if r == Dec then bits - 1 else bits) - 1
            && (Negative(r, bits, v) <==> r == Dec)
  {
    var v := Pow(2, bits) - 1;
    TopBitSet(v, bits);
    assert Pow(2, bits) == 2 * Pow(2, bits - 1);
    if bits >= 2 { assert Pow(2, bits - 1) == 2 * Pow(2, bits - 2); }
  }

  // ---------- Reading signed decimals ----------

  /** What a reader takes a decimal numeral with an optional sign for. */
  function SignedReading(s: string): int {
    if s != [] && s[0] == '-' then -(Value(s[1..], 10) as int) else Value(s, 10)
  }

  /** The field as a sign bit and a magnitude. */
  function SignMagnitude(v: nat, bits: nat): int
    requires bits >= 1
  {
    if TopBit(v, bits) then -(Rest(v, bits) as int) else v
  }

  function TwosComplement(v: nat, bits: nat): int
    requires bits >= 1
  {
    if TopBit(v, bits) then v - Pow(2, bits) else v
  }

  lemma ReadingOfDigits(zeros: nat, d: string)
    requires Tidy(d)
    ensures SignedReading(Repeat('0', zeros) + d) == Value(d, 10)
    ensures SignedReading("-" + (Repeat('0', zeros) + d)) == -(Value(d, 10) as int)
  {
    var s := Repeat('0', zeros) + d;
    ZerosInFront(zeros, d, 10);
    assert DigitValue(s[0]) < 16 by { assert s[0] == '0' || s[0] == d[0]; }
    assert ("-" + s)[1..] == s;
  }

  lemma SignedShape(c: bool, fill: bool, bits: nat, v: nat)
    requires 1 <= bits <= 64 && v < Pow(2, bits)
    ensures v < TWO64
    ensures Line(Dec, c, fill, bits, v)
            == Sign(Dec, bits, v) + (Repeat('0', Zeros(Dec, c, fill, bits, v)) + Body(Dec, bits, v))
  {
    NumeralShape(Dec, c, fill, bits, v);
    Unwrap(Numeral(Dec, c, fill, bits, v));
    Assoc(Sign(Dec, bits, v), Repeat('0', Zeros(Dec, c, fill, bits, v)), Body(Dec, bits, v));
  }

  lemma Unwrap(s: string)
    ensures "" + s + "" == s
  {
  }

  lemma Assoc(x: string, y: string, z: string)
    ensures x + y + z == x + (y + z)
  {
  }

  /** The signed decimal modes print the sign-magnitude reading of the field. */
  lemma SignedTextIsSignMagnitude(c: bool, fill: bool, bits: nat, v: nat)
    requires 1 <= bits <= 64 && v < Pow(2, bits)
    ensures v < TWO64 && SignedReading(Line(Dec, c, fill, bits, v)) == SignMagnitude(v, bits)
  {
    SignedShape(c, fill, bits, v);
    TidyDigits(Rest(v, bits), 10, false);
    PrintedDigits(Rest(v, bits), 10, false);
    ReadingOfDigits(Zeros(Dec, c, fill, bits, v), Body(Dec, bits, v));
    var s := Repeat('0', Zeros(Dec, c, fill, bits, v)) + Body(Dec, bits, v);
    assert "" + s == s;
  }

  /** Negative exactly when the top bit is set and another one too; magnitude below 2^(bits-1);
      and the two's complement reading exactly when the top bit is clear or the rest of the
      field is half its range. */
  lemma SignMagnitudeRange(bits: nat, v: nat)
    requires 1 <= bits <= 64 && v < Pow(2, bits)
    ensures SignMagnitude(v, bits) < 0 <==> TopBit(v, bits) && Rest(v, bits) != 0
    ensures -(Pow(2, bits - 1) as int) < SignMagnitude(v, bits) < Pow(2, bits - 1)
    ensures SignMagnitude(v, bits) == TwosComplement(v, bits)
            <==> !TopBit(v, bits) || (bits >= 2 && Rest(v, bits) == Pow(2, bits - 2))
  {
    TopBitSet(v, bits);
    if bits == 1 {
      assert Pow(2, 0) == 1 && Pow(2, 1) == 2;
    }
  }

  /** Two fields print as the same signed decimal only if they are equal, or are the two zeros. */
  lemma SignedTextInjective(c: bool, fill: bool, bits: nat, v: nat, w: nat)
    requires 1 <= bits <= 64 && v < Pow(2, bits) && w < Pow(2, bits)
    ensures v < TWO64 && w < TWO64
    ensures Line(Dec, c, fill, bits, v) == Line(Dec, c, fill, bits, w)
            <==> v == w || (Rest(v, bits) == 0 && Rest(w, bits) == 0)
  {
    SignedTextIsSignMagnitude(c, fill, bits, v);
    SignedTextIsSignMagnitude(c, fill, bits, w);
    TopBitSet(v, bits);
    TopBitSet(w, bits);
    NumeralShape(Dec, c, fill, bits, v);
    NumeralShape(Dec, c, fill, bits, w);
  }

  // ---------- The text in literals ----------

  /** Without zero fill: hexadecimal after 0x in C-language form, octal after a 0, unsigned decimals
      before a U, and bare digits otherwise; only -X has upper-case letters. */
  lemma PlainText(r: Radix, c: bool, bits: nat, v: nat)
    requires r != Raw && r != Dec && 1 <= bits <= 64 && v < Pow(2, bits)
    ensures v < TWO64
    ensures Line(r, c, false, bits, v)
            == match r
               case Hex => (if c then "0x" else "") + Digits(v, 16, false)
               case CapHex => (if c then "0x" else "") + Digits(v, 16, true)
               case Oct => (if c then "0" else "") + Digits(v, 8, false)
               case Uns => Digits(v, 10, false) + (if c then "U" else "")
               case Dec => ""
  {
    hide Digits, Pow, Convert;
    RestBelow(v, bits);
    NumeralShape(r, c, false, bits, v);
    Unwrap(Digits(v, Base(r), r == CapHex));
  }

  /** With zero fill the digits alone are padded, to (bits + 3) / 4 in hexadecimal and
      (bits + 2) / 3 in octal, behind the same prefix. */
  lemma FilledText(r: Radix, c: bool, bits: nat, v: nat)
    requires (r == Hex || r == CapHex || r == Oct) && 1 <= bits <= 64 && v < Pow(2, bits)
    ensures v < TWO64
    ensures var digits := Digits(v, if r == Oct then 8 else 16, r == CapHex);
            var width := if r == Oct then (bits + 2) / 3 else (bits + 3) / 4;
            && |digits| <= width
            && Line(r, c, true, bits, v)
               == (if !c then "" else if r == Oct then "0" else "0x") + (Repeat('0', width - |digits|) + digits)
  {
    hide Digits, Pow, Convert, Repeat;
    RestBelow(v, bits);
    WithinBudget(r, bits, v);
    NumeralShape(r, c, true, bits, v);
    var zeros, digits := Repeat('0', Zeros(r, c, true, bits, v)), Body(r, bits, v);
    assert "" + zeros + digits == zeros + digits;
    assert CPrefix(r, c) + (zeros + digits) + "" == CPrefix(r, c) + (zeros + digits);
  }
}
