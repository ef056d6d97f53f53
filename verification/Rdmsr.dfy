/** rdmsr: option parsing, bit-field extraction and the choice of an output format. */
module Rdmsr {
  import opened Numerals
  import opened Words
  import opened DecimalDigits

  // ---------- Modes ----------

  datatype Radix = Hex | Dec | Oct | Raw | Uns | CapHex

  const MO_HEX: bv8 := 0x01
  const MO_DEC: bv8 := 0x02
  const MO_OCT: bv8 := 0x03
  const MO_RAW: bv8 := 0x04
  const MO_UNS: bv8 := 0x05
  const MO_CHX: bv8 := 0x06
  const MO_MASK: bv8 := 0x0f
  const MO_FILL: bv8 := 0x40
  const MO_C: bv8 := 0x80

  function Code(r: Radix): bv8 {
    match r
    case Hex => MO_HEX
    case Dec => MO_DEC
    case Oct => MO_OCT
    case Raw => MO_RAW
    case Uns => MO_UNS
    case CapHex => MO_CHX
  }

  function Flags(c: bool, fill: bool): bv8 {
    if c then (if fill then MO_C | MO_FILL else MO_C) else if fill then MO_FILL else 0
  }

  /** The mode word of a radix and the two sticky flags. */
  function ModeOf(r: Radix, c: bool, fill: bool): bv8 {
    Code(r) | Flags(c, fill)
  }

  // ---------- Options ----------

  /** What getopt_long delivers.  `Cpu` carries the result of strtoul on its argument and whether
      characters were left over, `Bitfield` the result of sscanf with "%u:%u". */
  datatype Opt =
    | Help
    | Version
    | SetRadix(r: Radix)
    | CLanguage
    | ZeroFill
    | Cpu(leftover: bool, value: nat)
    | Bitfield(items: int, high: nat, low: nat)
    | Unknown

  datatype Parsed = Exit(code: int) | Run(mode: bv8, cpu: nat, high: nat, low: nat)

  predicate Stops(o: Opt) {
    match o
    case Help => true
    case Version => true
    case Unknown => true
    case Cpu(leftover, value) => leftover || value > 255
    case Bitfield(items, high, low) => items != 2 || high > 63 || low > high
    case _ => false
  }

  function StopCode(o: Opt): int {
    if o == Help || o == Version then 0 else 127
  }

  /** The radix selected last; hexadecimal when none was. */
  function LastRadix(opts: seq<Opt>): Radix {
    if opts == [] then Hex
    else match opts[|opts| - 1]
         case SetRadix(r) => r
         case _ => LastRadix(opts[..|opts| - 1])
  }

  function LastCpu(opts: seq<Opt>): nat {
    if opts == [] then 0
    else match opts[|opts| - 1]
         case Cpu(_, value) => value
         case _ => LastCpu(opts[..|opts| - 1])
  }

  function LastField(opts: seq<Opt>): (nat, nat) {
    if opts == [] then (63, 0)
    else match opts[|opts| - 1]
         case Bitfield(_, high, low) => (high, low)
         case _ => LastField(opts[..|opts| - 1])
  }

  /** Index of the first option that ends the program, or the number of options. */
  function FirstStop(opts: seq<Opt>): (k: nat)
    ensures k <= |opts|
    ensures forall i :: 0 <= i < k ==> !Stops(opts[i])
    ensures k < |opts| ==> Stops(opts[k])
  {
    if opts == [] || Stops(opts[0]) then 0 else 1 + FirstStop(opts[1..])
  }

  /** What option parsing promises: the first stopping option ends the program with its code;
      otherwise the last radix, cpu and bit field win and the two flags are sticky. */
  function ParseResult(opts: seq<Opt>): Parsed {
    var k := FirstStop(opts);
    if k < |opts| then Exit(StopCode(opts[k]))
    else Run(ModeOf(LastRadix(opts), CLanguage in opts, ZeroFill in opts),
             LastCpu(opts), LastField(opts).0, LastField(opts).1)
  }

  lemma MaskedBits(code: bv8, flags: bv8, code': bv8)
    requires code & !0xf == 0 && flags & 0xf == 0
    ensures ((code | flags) & !0xf) | code' == code' | flags
    ensures (code | flags) | 0x80 == code | (flags | 0x80)
    ensures (code | flags) | 0x40 == code | (flags | 0x40)
  {
  }

  lemma CodeBits(r: Radix, c: bool, fill: bool)
    ensures Code(r) & !0xf == 0 && Flags(c, fill) & 0xf == 0
    ensures Flags(c, fill) | 0x80 == Flags(true, fill)
    ensures Flags(c, fill) | 0x40 == Flags(c, true)
  {
  }

  /** Overwriting the radix bits leaves the flags, and raising a flag leaves the radix. */
  lemma ModeUpdate(r: Radix, c: bool, fill: bool, r': Radix)
    ensures (ModeOf(r, c, fill) & !MO_MASK) | Code(r') == ModeOf(r', c, fill)
    ensures ModeOf(r, c, fill) | MO_C == ModeOf(r, true, fill)
    ensures ModeOf(r, c, fill) | MO_FILL == ModeOf(r, c, true)
  {
    CodeBits(r, c, fill);
    MaskedBits(Code(r), Flags(c, fill), Code(r'));
  }

  /** What one more option does to the flags and to the last values seen. */
  lemma OneMoreOption(opts: seq<Opt>, i: nat)
    requires i < |opts|
    ensures var before, now, o := opts[..i], opts[..i + 1], opts[i];
            && LastRadix(now) == (if o.SetRadix? then o.r else LastRadix(before))
            && LastCpu(now) == (if o.Cpu? then o.value else LastCpu(before))
            && LastField(now) == (if o.Bitfield? then (o.high, o.low) else LastField(before))
            && (CLanguage in now <==> CLanguage in before || o == CLanguage)
            && (ZeroFill in now <==> ZeroFill in before || o == ZeroFill)
  {
    var now := opts[..i + 1];
    assert now == opts[..i] + [opts[i]];
    assert now[..|now| - 1] == opts[..i];
  }

  method ParseOptions(opts: seq<Opt>) returns (result: Parsed)
    ensures result == ParseResult(opts)
  {
    var mode := MO_HEX;
    var cpu, high, low := 0, 63, 0;
    var i := 0;
    while i < |opts|
      invariant i <= |opts|
      invariant i <= FirstStop(opts)
      invariant mode == ModeOf(LastRadix(opts[..i]), CLanguage in opts[..i], ZeroFill in opts[..i])
      invariant cpu == LastCpu(opts[..i])
      invariant (high, low) == LastField(opts[..i])
    {
      var o := opts[i];
      ghost var before := opts[..i];
      OneMoreOption(opts, i);
      ModeUpdate(LastRadix(before), CLanguage in before, ZeroFill in before, if o.SetRadix? then o.r else Hex);
      match o {
        case Help =>
          return Exit(0);
        case Version =>
          return Exit(0);
        case SetRadix(r) =>
          mode := (mode & !MO_MASK) | Code(r);
        case CLanguage =>
          mode := mode | MO_C;
        case ZeroFill =>
          mode := mode | MO_FILL;
        case Cpu(leftover, value) =>
          if leftover || value > 255 {
            return Exit(127);
          }
          cpu := value;
        case Bitfield(items, h, l) =>
          high, low := h, l;
          if items != 2 || high > 63 || low > high {
            return Exit(127);
          }
        case Unknown =>
          return Exit(127);
      }
      i := i + 1;
    }
    assert opts[..i] == opts;
    result := Run(mode, cpu, high, low);
  }

  /** A parse that succeeds yields a bit field inside the register and a cpu number of a byte. */
  lemma {:induction false} ParsedInRange(opts: seq<Opt>)
    requires forall i :: 0 <= i < |opts| ==> !Stops(opts[i])
    ensures LastField(opts).1 <= LastField(opts).0 <= 63 && LastCpu(opts) <= 255
  {
    if opts != [] { ParsedInRange(opts[..|opts| - 1]); }
  }

  // ---------- The field and its text ----------

  /** Bits low to high of the register, as a number. */
  function Field(data: nat, high: nat, low: nat): nat
    requires low <= high <= 63
  {
    var bits := high - low + 1;
    if bits < 64 then data / Pow(2, low) % Pow(2, bits) else data
  }

  /** The top bit of a field of that many bits is set. */
  predicate TopBit(v: nat, bits: nat)
    requires bits >= 1
  {
    v / Pow(2, bits - 1) % 2 == 1
  }

  lemma TopBitSet(v: nat, bits: nat)
    requires bits >= 1
    ensures TopBit(v, bits) ==> v >= Pow(2, bits - 1)
    ensures v < Pow(2, bits) ==> TopBit(v, bits) == (v >= Pow(2, bits - 1))
  {
    var p := Pow(2, bits - 1);
    if v < p {
      assert v / p == 0;
    } else if v < 2 * p {
      assert v / p == 1;
    }
  }

  /** The field without its top bit. */
  function Rest(v: nat, bits: nat): nat
    requires bits >= 1
  {
    TopBitSet(v, bits);
    if TopBit(v, bits) then v - Pow(2, bits - 1) else v
  }

  /** The sign adjustment: when the top bit is set, clear it and negate in 64 bits. */
  function SignAdjusted(v: nat, bits: nat): nat
    requires bits >= 1 && v < TWO64
  {
    if TopBit(v, bits) then (TWO64 - Rest(v, bits)) % TWO64 else v
  }

  /** Bit i of the data is bit low + i of the register up to bit `high`, and all others are clear. */
  predicate Selects(data: nat, reg: nat, high: nat, low: nat)
    requires low <= high
  {
    forall i {:trigger Pow(2, i)} :: 0 <= i < 64 ==>
      data / Pow(2, i) % 2 == if i <= high - low then reg / Pow(2, low + i) % 2 else 0
  }

  lemma FieldBits(reg: nat, high: nat, low: nat, i: nat)
    requires low <= high <= 63 && reg < TWO64
    ensures Field(reg, high, low) / Pow(2, i) % 2 == if low + i <= high then reg / Pow(2, low + i) % 2 else 0
  {
    hide Field;
    FieldBit(reg, high, low, i);
  }

  lemma FieldBit(reg: nat, high: nat, low: nat, i: nat)
    requires low <= high <= 63 && reg < TWO64
    ensures BitAt(Field(reg, high, low), i) == if low + i <= high then BitAt(reg, low + i) else 0
  {
    hide BitAt, Pow;
    var bits := high - low + 1;
    if bits < 64 {
      KeptBit(reg / Pow(2, low), bits, i);
      ShiftedBit(reg, low, i);
    } else {
      PowTwo64();
      Remainder(reg, Pow(2, 64), 0, reg);
      KeptBit(reg, 64, i);
    }
  }

  lemma FieldSelects(reg: nat, high: nat, low: nat)
    requires low <= high <= 63 && reg < TWO64
    ensures Selects(Field(reg, high, low), reg, high, low)
  {
    hide Field, Pow;
    var data := Field(reg, high, low);
    forall i {:trigger Pow(2, i)} | 0 <= i < 64
      ensures data / Pow(2, i) % 2 == if i <= high - low then reg / Pow(2, low + i) % 2 else 0
    {
      FieldBits(reg, high, low, i);
    }
  }

  /** "Show only part of register": the shift and the mask of the program give the field, that is
      the bits low to high of the register and nothing else. */
  method ExtractField(reg: nat, high: nat, low: nat) returns (data: nat)
    requires low <= high <= 63 && reg < TWO64
    ensures data == Field(reg, high, low)
    ensures Selects(data, reg, high, low)
  {
    FieldSelects(reg, high, low);
    hide Pow;
    data := reg;
    var bits := high - low + 1;
    if bits < 64 {
      data := ShiftRight(data, low);
      MaskIsRemainder(data, bits);
      data := BitAnd(data, One(bits) - 1);
    }
    assert data == Field(reg, high, low);
  }

  /** "Make sure we get sign correct": test the top bit, clear it and negate. */
  method AdjustSign(v: nat, bits: nat) returns (data: nat)
    requires 1 <= bits <= 64 && v < TWO64
    ensures data == SignAdjusted(v, bits)
  {
    hide BitAnd, Pow;
    data := v;
    PowTwo64();
    BitIsRemainder(data, bits - 1);
    if BitAnd(data, One(bits - 1)) != 0 {
      ClearingIsSubtraction(data, 64, bits - 1);
      data := BitAnd(data, Complement(One(bits - 1)));
      data := Negate(data);
    }
  }

  datatype Conv = LowerHex | UpperHex | Octal | Unsigned | Signed

  /** The sign and the digits of one converted argument; `%lld` reads the 64 bits as signed. */
  function SignOf(conv: Conv, data: nat): string {
    if conv == Signed && data >= TWO64 / 2 then "-" else ""
  }

  function DigitsOf(conv: Conv, data: nat): string {
    match conv
    case LowerHex => Digits(data, 16, false)
    case UpperHex => Digits(data, 16, true)
    case Octal => Digits(data, 8, false)
    case Unsigned => Digits(data, 10, false)
    case Signed => Digits(if TWO64 / 2 <= data <= TWO64 then TWO64 - data else data, 10, false)
  }

  /** A format string: literal text around one conversion with a `*` width. */
  datatype Pattern = NoPattern | Pattern(before: string, zero: bool, conv: Conv, after: string)

  function Printf(pat: Pattern, width: nat, data: nat): string
    requires pat.Pattern?
  {
    pat.before + Convert(SignOf(pat.conv, data), DigitsOf(pat.conv, data), pat.zero, width) + pat.after
  }

  function ConvOf(r: Radix): Conv
    requires r != Raw
  {
    match r
    case Hex => LowerHex
    case CapHex => UpperHex
    case Oct => Octal
    case Uns => Unsigned
    case Dec => Signed
  }

  /** The C-language decimal modes ignore the zero-fill flag. */
  predicate Fills(r: Radix, c: bool, fill: bool) {
    fill && !(c && (r == Uns || r == Dec))
  }

  function FillWidth(r: Radix, bits: nat): (width: nat)
    requires r != Raw && 1 <= bits <= 64
    ensures width >= 1
  {
    TableExact(bits);
    match r
    case Hex => (bits + 3) / 4
    case CapHex => (bits + 3) / 4
    case Oct => (bits + 2) / 3
    case Uns => DECDIGITS[bits]
    case Dec => DECDIGITS[bits - 1] + 1
  }

  function Width(r: Radix, c: bool, fill: bool, bits: nat): nat
    requires r != Raw && 1 <= bits <= 64
  {
    if Fills(r, c, fill) then FillWidth(r, bits) else 1
  }

  function CPrefix(r: Radix, c: bool): string {
    if !c then "" else if r == Hex || r == CapHex then "0x" else if r == Oct then "0" else ""
  }

  function CSuffix(r: Radix, c: bool): string {
    if c && r == Uns then "U" else ""
  }

  function Printed(r: Radix, v: nat, bits: nat): nat
    requires 1 <= bits <= 64 && v < TWO64
  {
    if r == Dec then SignAdjusted(v, bits) else v
  }

  /** The numeral printed for a field value, between the C prefix and the C suffix. */
  function Numeral(r: Radix, c: bool, fill: bool, bits: nat, v: nat): string
    requires r != Raw && 1 <= bits <= 64 && v < TWO64
  {
    var data := Printed(r, v, bits);
    Convert(SignOf(ConvOf(r), data), DigitsOf(ConvOf(r), data), Fills(r, c, fill), Width(r, c, fill, bits))
  }

  /** The whole line for a field value, without the final newline. */
  function Line(r: Radix, c: bool, fill: bool, bits: nat, v: nat): string
    requires r != Raw && 1 <= bits <= 64 && v < TWO64
  {
    CPrefix(r, c) + Numeral(r, c, fill, bits, v) + CSuffix(r, c)
  }

  /** What the program emits after its debugging line. */
  datatype Output = Text(line: string) | RawDump(data: nat, asInitializer: bool) | Impossible

  function Shown(r: Radix, c: bool, fill: bool, high: nat, low: nat, reg: nat): Output
    requires low <= high <= 63 && reg < TWO64
  {
    var v := Field(reg, high, low);
    FieldSmall(reg, high, low);
    if r == Raw then RawDump(v, c) else Text(Line(r, c, fill, high - low + 1, v) + "\n")
  }

  lemma FieldSmall(data: nat, high: nat, low: nat)
    requires low <= high <= 63 && data < TWO64
    ensures Field(data, high, low) < Pow(2, high - low + 1) <= TWO64
  {
    PowMonotone(2, high - low + 1, 64);
    PowTwo64();
  }

  datatype Decoded = NoMode | Mode(r: Radix, c: bool, fill: bool)

  /** The combination a mode word stands for, if it is one of the 24 of the switch. */
  function Decode(mode: bv8): Decoded {
    var c := mode & MO_C != 0;
    var fill := mode & MO_FILL != 0;
    var low := mode & !(MO_C | MO_FILL);
    if low == MO_HEX then Mode(Hex, c, fill)
    else if low == MO_DEC then Mode(Dec, c, fill)
    else if low == MO_OCT then Mode(Oct, c, fill)
    else if low == MO_RAW then Mode(Raw, c, fill)
    else if low == MO_UNS then Mode(Uns, c, fill)
    else if low == MO_CHX then Mode(CapHex, c, fill)
    else NoMode
  }

  lemma DecodeMode(r: Radix, c: bool, fill: bool)
    ensures Decode(ModeOf(r, c, fill)) == Mode(r, c, fill)
  {
  }

  /** The format string of a mode. */
  function PatternOf(r: Radix, c: bool, fill: bool): Pattern
    requires r != Raw
  {
    Pattern(CPrefix(r, c), Fills(r, c, fill), ConvOf(r), CSuffix(r, c) + "\n")
  }

  /** The switch over `mode`: the data, the format string and the width are set case by case.
      The result `ok` is false in the default branch, which ends the program. */
  method Select(mode: bv8, bits: nat, v: nat) returns (ok: bool, data: nat, pat: Pattern, width: nat)
    requires 1 <= bits <= 64 && v < TWO64
    ensures match Decode(mode)
            case NoMode => !ok
            case Mode(r, c, fill) =>
              && ok
              && (if r == Raw then pat == NoPattern && data == v
                  else pat == PatternOf(r, c, fill) && data == Printed(r, v, bits) && width == Width(r, c, fill, bits))
  {
    ok, data, pat, width := true, v, NoPattern, 1;
    if mode == MO_HEX {
      pat := Pattern("", false, LowerHex, "\n");
    } else if mode == MO_CHX {
      pat := Pattern("", false, UpperHex, "\n");
    } else if mode == MO_DEC || mode == MO_DEC | MO_C || mode == MO_DEC | MO_FILL | MO_C {
      data := AdjustSign(data, bits);
      pat := Pattern("", false, Signed, "\n");
    } else if mode == MO_UNS {
      pat := Pattern("", false, Unsigned, "\n");
    } else if mode == MO_OCT {
      pat := Pattern("", false, Octal, "\n");
    } else if mode == MO_HEX | MO_C {
      pat := Pattern("0x", false, LowerHex, "\n");
    } else if mode == MO_CHX | MO_C {
      pat := Pattern("0x", false, UpperHex, "\n");
    } else if mode == MO_OCT | MO_C {
      pat := Pattern("0", false, Octal, "\n");
    } else if mode == MO_UNS | MO_C || mode == MO_UNS | MO_FILL | MO_C {
      pat := Pattern("", false, Unsigned, "U\n");
    } else if mode == MO_HEX | MO_FILL {
      pat := Pattern("", true, LowerHex, "\n");
      width := (bits + 3) / 4;
    } else if mode == MO_CHX | MO_FILL {
      pat := Pattern("", true, UpperHex, "\n");
      width := (bits + 3) / 4;
    } else if mode == MO_DEC | MO_FILL {
      data := AdjustSign(data, bits);
      pat := Pattern("", true, Signed, "\n");
      width := DECDIGITS[bits - 1] + 1;
    } else if mode == MO_UNS | MO_FILL {
      pat := Pattern("", true, Unsigned, "\n");
      width := DECDIGITS[bits];
    } else if mode == MO_OCT | MO_FILL {
      pat := Pattern("", true, Octal, "\n");
      width := (bits + 2) / 3;
    } else if mode == MO_HEX | MO_FILL | MO_C {
      pat := Pattern("0x", true, LowerHex, "\n");
      width := (bits + 3) / 4;
    } else if mode == MO_CHX | MO_FILL | MO_C {
      pat := Pattern("0x", true, UpperHex, "\n");
      width := (bits + 3) / 4;
    } else if mode == MO_OCT | MO_FILL | MO_C {
      pat := Pattern("0", true, Octal, "\n");
      width := (bits + 2) / 3;
    } else if mode == MO_RAW || mode == MO_RAW | MO_FILL || mode == MO_RAW | MO_C || mode == MO_RAW | MO_FILL | MO_C {
      // dumped by the caller
    } else {
      ok := false;
    }
  }

  /** What follows the read of the register: extract the field, switch on the mode, print. */
  method Show(mode: bv8, high: nat, low: nat, reg: nat) returns (out: Output)
    requires low <= high <= 63 && reg < TWO64
    ensures match Decode(mode)
            case NoMode => out == Impossible
            case Mode(r, c, fill) => out == Shown(r, c, fill, high, low, reg)
    ensures mode == 0x04 || mode == 0x44 || mode == 0x84 || mode == 0xC4 ==>
              out.RawDump? && out.asInitializer == (mode == 0x84 || mode == 0xC4) && Selects(out.data, reg, high, low)
  {
    hide Numeral, Digits, Field, Convert, Printed, Width, PatternOf, Line, Printf, Pow, Selects;
    FieldSmall(reg, high, low);
    var v := ExtractField(reg, high, low);
    var ok, data, pat, width := Select(mode, high - low + 1, v);
    if !ok { return Impossible; }
    if Decode(mode).Mode? && Decode(mode).r != Raw {
      PrintfIsLine(Decode(mode).r, Decode(mode).c, Decode(mode).fill, high - low + 1, v);
    }
    if width < 1 { width := 1; }
    if pat.Pattern? {
      out := Text(Printf(pat, width, data));
    } else {
      out := RawDump(data, mode & MO_C != 0);
    }
  }

  lemma PrintfIsLine(r: Radix, c: bool, fill: bool, bits: nat, v: nat)
    requires r != Raw && 1 <= bits <= 64 && v < TWO64
    ensures Width(r, c, fill, bits) >= 1 && PatternOf(r, c, fill).Pattern?
    ensures Printf(PatternOf(r, c, fill), Width(r, c, fill, bits), Printed(r, v, bits))
            == Line(r, c, fill, bits, v) + "\n"
  {
    TableExact(bits);
    assert Line(r, c, fill, bits, v) + "\n"
           == CPrefix(r, c) + Numeral(r, c, fill, bits, v) + (CSuffix(r, c) + "\n");
  }

  // ---------- Options in literals ----------

  /** Without an option of a kind its default stands: hexadecimal, processor 0, the whole register. */
  lemma {:induction false} Defaults(opts: seq<Opt>)
    ensures (forall i :: 0 <= i < |opts| ==> !opts[i].SetRadix?) ==> LastRadix(opts) == Hex
    ensures (forall i :: 0 <= i < |opts| ==> !opts[i].Cpu?) ==> LastCpu(opts) == 0
    ensures (forall i :: 0 <= i < |opts| ==> !opts[i].Bitfield?) ==> LastField(opts) == (63, 0)
  {
    if opts != [] { Defaults(opts[..|opts| - 1]); }
  }

  /** Whatever came before it, an option that survives decides its setting. */
  lemma LastOneWins(opts: seq<Opt>, o: Opt)
    ensures o.SetRadix? ==> LastRadix(opts + [o]) == o.r
    ensures o.Cpu? ==> LastCpu(opts + [o]) == o.value
    ensures o.Bitfield? ==> LastField(opts + [o]) == (o.high, o.low)
  {
    assert (opts + [o])[..|opts|] == opts;
  }

  lemma NoOptions()
    ensures ParseResult([]) == Run(0x01, 0, 63, 0)
  {
  }

  /** One option alone: what it sets, or with which code it ends the program. */
  lemma SingleOption(o: Opt)
    ensures ParseResult([o])
            == match o
               case Help => Exit(0)
               case Version => Exit(0)
               case Unknown => Exit(127)
               case Cpu(leftover, value) => if leftover || value >= 256 then Exit(127) else Run(0x01, value, 63, 0)
               case Bitfield(items, high, low) =>
                 if items == 2 && low <= high < 64 then Run(0x01, 0, high, low) else Exit(127)
               case CLanguage => Run(0x81, 0, 63, 0)
               case ZeroFill => Run(0x41, 0, 63, 0)
               case SetRadix(r) =>
                 Run(match r case Hex => 0x01 case Dec => 0x02 case Oct => 0x03 case Raw => 0x04 case Uns => 0x05
                             case CapHex => 0x06, 0, 63, 0)
  {
    NoOptions();
    assert [o][..0] == [] && [o][1..] == [];
    assert FirstStop([o]) == if Stops(o) then 0 else 1;
  }
}
