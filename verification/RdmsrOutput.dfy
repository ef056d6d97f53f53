/** The whole output of rdmsr: a debugging line, then the formatted value; and what wrmsr makes of
    it as one operand or word by word. */
module RdmsrOutput {
  import opened Numerals
  import opened Rdmsr
  import opened RdmsrText

  /** The debugging line that precedes the formatted value. */
  function Banner(data: nat): string {
    "reg data: " + Digits(data, 16, false) + "\n"
  }

  /** As the beginning of an operand the debugging line makes any text read as zero. */
  lemma BannerReadsZero(data: nat, rest: string)
    ensures Strtoull(Banner(data) + rest) == 0
  {
    var s := Banner(data) + rest;
    assert s[0] == 'r' && s[1] == 'e';
    ReadsZero(s);
  }

  /** Text that starts with a letter other than an x after a zero has no subject sequence. */
  lemma ReadsZero(s: string)
    requires s != [] && 10 <= DigitValue(s[0]) < 36
    ensures Strtoull(s) == 0
  {
    assert SkipBlanks(s) == s && Leading(s, 10) == 0 && s[..0] == [];
  }

  // ---------- The formatted value ----------

  /** Every sequence of options that survives parsing, of any length, and every register value:
      a formatted line that is no raw dump reads back as the selected field if and only if the
      condition of its mode holds; in C-language form, signed decimal aside, it always does. */
  lemma {:induction false} OutputReadsBack(opts: seq<Opt>, data: nat)
    requires ParseResult(opts).Run? && LastRadix(opts) != Raw && data < TWO64
    ensures var r, c, fill := LastRadix(opts), CLanguage in opts, ZeroFill in opts;
            var high, low := ParseResult(opts).high, ParseResult(opts).low;
            && low <= high <= 63
            && var out := Shown(r, c, fill, high, low, data);
               && out.Text?
               && (Strtoull(out.line) == Field(data, high, low)
                   <==> ReadsBack(r, c, fill, high - low + 1, Field(data, high, low)))
               && (c && r != Dec ==> Strtoull(out.line) == Field(data, high, low))
  {
    SelectedField(opts);
    hide Line, Field, Strtoull, ReadsBack, Pow, LastRadix, ParseResult;
    var high, low := ParseResult(opts).high, ParseResult(opts).low;
    FieldSmall(data, high, low);
    LineReadsBack(LastRadix(opts), CLanguage in opts, ZeroFill in opts, high - low + 1, Field(data, high, low));
  }

  lemma {:induction false} SelectedField(opts: seq<Opt>)
    requires ParseResult(opts).Run?
    ensures ParseResult(opts).low <= ParseResult(opts).high <= 63
  {
    ParsedInRange(opts);
  }

  lemma LineReadsBack(r: Radix, c: bool, fill: bool, bits: nat, v: nat)
    requires r != Raw && 1 <= bits <= 64 && v < Pow(2, bits)
    ensures v < TWO64
    ensures var line := Line(r, c, fill, bits, v) + "\n";
            (Strtoull(line) == v <==> ReadsBack(r, c, fill, bits, v)) && (c && r != Dec ==> Strtoull(line) == v)
  {
    hide Line, Strtoull, ReadsBack, Pow;
    RoundTrip(r, c, fill, bits, v, "\n");
    if c && r != Dec { CLanguageRoundTrip(r, fill, bits, v, "\n"); }
  }

  /** Without a bit-field option the field is the whole register. */
  lemma {:induction false} WholeRegister(opts: seq<Opt>, data: nat)
    requires forall i :: 0 <= i < |opts| ==> !opts[i].Bitfield?
    ensures LastField(opts) == (63, 0) && Field(data, 63, 0) == data
    ensures ParseResult(opts).Run? ==> ParseResult(opts).high == 63 && ParseResult(opts).low == 0
  {
    if opts != [] { WholeRegister(opts[..|opts| - 1], data); }
  }

  // ---------- Words ----------

  /** How a shell splits the output into operands. */
  function SplitWords(s: string): seq<string>
    decreases |s|
  {
    var r := SkipBlanks(s);
    if r == [] then []
    else [r[..WordLength(r)]] + SplitWords(r[WordLength(r)..])
  }

  function WordLength(s: string): (k: nat)
    ensures k <= |s| && (s != [] && !Blank(s[0]) ==> k > 0)
  {
    if s == [] || Blank(s[0]) then 0 else 1 + WordLength(s[1..])
  }

  /** A word: characters none of which is blank. */
  predicate Solid(w: string) {
    forall i :: 0 <= i < |w| ==> !Blank(w[i])
  }

  lemma {:induction false} WordLengthIs(w: string, rest: string)
    requires Solid(w) && (rest == [] || Blank(rest[0]))
    ensures WordLength(w + rest) == |w|
    decreases |w|
  {
    if w == [] {
      assert w + rest == rest;
    } else {
      assert (w + rest)[1..] == w[1..] + rest;
      WordLengthIs(w[1..], rest);
    }
  }

  /** A word followed by a blank splits off. */
  lemma FirstWord(w: string, blank: char, rest: string)
    requires w != [] && Solid(w) && Blank(blank)
    ensures SplitWords(w + ([blank] + rest)) == [w] + SplitWords(rest)
  {
    var s := w + ([blank] + rest);
    assert s[0] == w[0] && SkipBlanks(s) == s;
    WordLengthIs(w, [blank] + rest);
    assert s[..|w|] == w && s[|w|..] == [blank] + rest;
    assert ([blank] + rest)[1..] == rest;
    assert SkipBlanks([blank] + rest) == SkipBlanks(rest);
  }

  lemma DigitsSolid(s: string, base: nat)
    requires DigitString(s, base) && base <= 16
    ensures Solid(s)
  {
  }

  lemma SolidConcat(a: string, b: string)
    requires Solid(a) && Solid(b)
    ensures Solid(a + b)
  {
  }

  /** A formatted line, in any radix and form, is one word. */
  lemma LineSolid(r: Radix, c: bool, fill: bool, bits: nat, v: nat)
    requires r != Raw && 1 <= bits <= 64 && v < Pow(2, bits)
    ensures v < TWO64 && Line(r, c, fill, bits, v) != [] && Solid(Line(r, c, fill, bits, v))
  {
    hide Line, Numeral, Digits, Repeat, Zeros, Pow;
    NumeralShape(r, c, fill, bits, v);
    var sign, zeros, body := Sign(r, bits, v), Repeat('0', Zeros(r, c, fill, bits, v)), Body(r, bits, v);
    BodySolid(r, bits, v);
    ZerosSolid(Zeros(r, c, fill, bits, v));
    assert Solid(sign);
    SolidConcat(sign, zeros);
    SolidConcat(sign + zeros, body);
    LineParts(r, c, fill, bits, v, sign + zeros + body);
  }

  lemma ZerosSolid(count: nat)
    ensures Solid(Repeat('0', count))
  {
  }

  lemma BodySolid(r: Radix, bits: nat, v: nat)
    requires r != Raw && 1 <= bits <= 64
    ensures Body(r, bits, v) != [] && Solid(Body(r, bits, v))
  {
    hide Digits;
    PrintedDigits(Magnitude10(r, bits, v), Base(r), r == CapHex);
    DigitsSolid(Body(r, bits, v), Base(r));
  }

  lemma LineParts(r: Radix, c: bool, fill: bool, bits: nat, v: nat, numeral: string)
    requires r != Raw && 1 <= bits <= 64 && v < TWO64
    requires Numeral(r, c, fill, bits, v) == numeral && numeral != [] && Solid(numeral)
    ensures Line(r, c, fill, bits, v) != [] && Solid(Line(r, c, fill, bits, v))
  {
    hide Numeral;
    assert Solid(CPrefix(r, c)) && Solid(CSuffix(r, c));
    SolidConcat(CPrefix(r, c), numeral);
    SolidConcat(CPrefix(r, c) + numeral, CSuffix(r, c));
  }

  /** The output falls into four words: two of the debugging line's text, the register in bare
      hexadecimal, and the formatted value. */
  lemma OutputWords(data: nat, line: string)
    requires line != [] && Solid(line)
    ensures SplitWords(Banner(data) + (line + "\n")) == ["reg", "data:", Digits(data, 16, false), line]
  {
    hide Digits, SplitWords, Banner;
    var hex := Digits(data, 16, false);
    PrintedDigits(data, 16, false);
    DigitsSolid(hex, 16);
    var last := line + (['\n'] + "");
    assert last == line + "\n";
    var value := hex + (['\n'] + last);
    assert Solid("reg") && Solid("data:");
    FirstWord("reg", ' ', "data:" + ([' '] + value));
    FirstWord("data:", ' ', value);
    FirstWord(hex, '\n', last);
    FirstWord(line, '\n', "");
    NoWords();
    BannerShape(data, last);
    Chain("reg", "data:", hex, line);
  }

  lemma NoWords()
    ensures SplitWords("") == []
  {
  }

  lemma Chain(a: string, b: string, c: string, d: string)
    ensures [a] + ([b] + ([c] + ([d] + []))) == [a, b, c, d]
  {
  }

  lemma BannerShape(data: nat, tail: string)
    ensures Banner(data) + tail
            == "reg" + ([' '] + ("data:" + ([' '] + (Digits(data, 16, false) + (['\n'] + tail)))))
  {
    hide Digits;
    assert "reg data: " == "reg" + ([' '] + ("data:" + [' ']));
    Regrouped("reg", [' '], "data:", [' '], Digits(data, 16, false), ['\n'], tail);
  }

  lemma Regrouped(a: string, b: string, c: string, d: string, e: string, f: string, g: string)
    ensures a + (b + (c + d)) + e + f + g == a + (b + (c + (d + (e + (f + g)))))
  {
  }

  /** In C-language form, signed decimal aside, what is read back is bit for bit the selected part
      of the register. */
  lemma {:induction false} OutputBits(opts: seq<Opt>, data: nat)
    requires ParseResult(opts).Run? && CLanguage in opts && LastRadix(opts) != Raw && LastRadix(opts) != Dec
    requires data < TWO64
    ensures var p := ParseResult(opts);
            && p.low <= p.high <= 63
            && var out := Shown(LastRadix(opts), true, ZeroFill in opts, p.high, p.low, data);
               out.Text? && Selects(Strtoull(out.line), data, p.high, p.low)
  {
    OutputReadsBack(opts, data);
    var p := ParseResult(opts);
    FieldSelects(data, p.high, p.low);
    hide ParseResult, LastRadix, Selects, Field, Strtoull, Line;
    var out := Shown(LastRadix(opts), true, ZeroFill in opts, p.high, p.low, data);
    assert Strtoull(out.line) == Field(data, p.high, p.low);
  }
}
