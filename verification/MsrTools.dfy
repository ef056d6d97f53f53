/** The two command-line tools against the device files of the processors, and one after the
    other. */
module MsrTools {
  import opened Numerals
  import opened Rdmsr
  import opened RdmsrOutput
  import RdmsrText

  /** What opening the device file of a processor comes to, if the processor exists. */
  datatype Opening = Opens | InputOutputError | OtherError

  /** What reading or writing a register comes to. */
  datatype Access = Granted | Refused | Failed

  /** The device file of one processor: the registers and the writes received.  Whether a register
      can be read is one thing, whether it accepts a value another: reserved bits, for example, are
      refused with EIO. */
  class Device {
    const opening: Opening
    const reading: nat -> Access
    const writing: (nat, nat) -> Access
    var regs: map<nat, nat>
    var writes: seq<(nat, nat)>

    ghost predicate Valid()
      reads this
    {
      && (forall a :: reading(a) == Granted ==> a in regs)
      && (forall a :: a in regs ==> regs[a] < TWO64)
    }

    /** pwrite */
    method Write(reg: nat, data: nat) returns (access: Access)
      requires Valid() && data < TWO64
      modifies this
      ensures Valid() && access == writing(reg, data)
      ensures regs == if access == Granted then old(regs)[reg := data] else old(regs)
      ensures writes == if access == Granted then old(writes) + [(reg, data)] else old(writes)
    {
      access := writing(reg, data);
      if access == Granted {
        regs := regs[reg := data];
        writes := writes + [(reg, data)];
      }
    }

    /** How many values, from the first on, the register accepts before it refuses one. */
    function Accepted(reg: nat, values: seq<nat>): (k: nat)
      ensures k <= |values|
      ensures forall i :: 0 <= i < k ==> writing(reg, values[i]) == Granted
      ensures k < |values| ==> writing(reg, values[k]) != Granted
    {
      if values == [] || writing(reg, values[0]) != Granted then 0 else 1 + Accepted(reg, values[1..])
    }

    lemma {:induction false} AcceptedIs(reg: nat, values: seq<nat>, k: nat)
      requires k <= |values| && forall i :: 0 <= i < k ==> writing(reg, values[i]) == Granted
      requires k < |values| ==> writing(reg, values[k]) != Granted
      ensures Accepted(reg, values) == k
      decreases |values|
    {
      if k > 0 {
        assert forall i :: 0 <= i < k - 1 ==> values[1..][i] == values[i + 1];
        AcceptedIs(reg, values[1..], k - 1);
      }
    }
  }

  /** The processors of the machine and their device files. */
  type Processors = map<nat, Device>

  ghost predicate AllValid(cpus: Processors)
    reads cpus.Values
  {
    forall q :: q in cpus ==> cpus[q].Valid()
  }

  /** The exit code of opening a device file, 0 on success: 2 without such a processor, 3 when it
      does not support the device, 127 otherwise. */
  function OpenExit(cpus: Processors, cpu: nat): int {
    if cpu !in cpus then 2
    else match cpus[cpu].opening
         case InputOutputError => 3
         case OtherError => 127
         case Opens => 0
  }

  /** The exit code of an access. */
  function AccessExit(access: Access): int {
    match access
    case Refused => 4
    case Failed => 127
    case Granted => 0
  }

  /** The exit codes by number. */
  lemma ExitCodes(cpus: Processors, cpu: nat)
    ensures cpu !in cpus ==> OpenExit(cpus, cpu) == 2
    ensures cpu in cpus && cpus[cpu].opening == InputOutputError ==> OpenExit(cpus, cpu) == 3
    ensures cpu in cpus && cpus[cpu].opening == OtherError ==> OpenExit(cpus, cpu) == 127
    ensures OpenExit(cpus, cpu) == 0 <==> cpu in cpus && cpus[cpu].opening == Opens
    ensures AccessExit(Granted) == 0 && AccessExit(Refused) == 4 && AccessExit(Failed) == 127
  {
  }

  const REGISTER_RANGE: nat := 0x1_0000_0000

  /** A register number on the command line, kept in 32 bits. */
  function RegisterOf(operand: string): nat {
    Strtoull(operand) % REGISTER_RANGE
  }

  /** The digits of a number, as rdmsr prints them in C-language form, select the register of that
      number; larger numbers lose all but their lower 32 bits. */
  lemma RegisterDigits(r: Radix, fill: bool, number: nat)
    requires r != Raw && r != Dec && number < TWO64
    ensures RegisterOf(Line(r, true, fill, 64, number)) == number % 0x1_0000_0000
    ensures number < 0x1_0000_0000 ==> RegisterOf(Line(r, true, fill, 64, number)) == number
  {
    hide Line, Strtoull, Pow;
    PowTwo64();
    RdmsrText.CLanguageRoundTrip(r, fill, 64, number, "");
    assert Line(r, true, fill, 64, number) + "" == Line(r, true, fill, 64, number);
  }

  /** What a list of value operands is converted to. */
  function ValuesOf(operands: seq<string>): (values: seq<nat>)
    ensures |values| == |operands|
  {
    seq(|operands|, i requires 0 <= i < |operands| => Strtoull(operands[i]))
  }

  function WritesOf(reg: nat, values: seq<nat>): seq<(nat, nat)> {
    seq(|values|, i requires 0 <= i < |values| => (reg, values[i]))
  }

  /** The registers after writing a list of values to one of them. */
  function After(regs: map<nat, nat>, reg: nat, values: seq<nat>): map<nat, nat> {
    if values == [] then regs else regs[reg := values[|values| - 1]]
  }

  /** wrmsr after its options: the value operands are converted and written in turn until one is
      not accepted.  The writes made before that stay made, and the exit code tells what stopped
      the program; all exit codes as in the program. */
  method Wrmsr(cpus: Processors, cpu: nat, operands: seq<string>) returns (exit: int)
    requires AllValid(cpus)
    modifies if cpu in cpus then {cpus[cpu]} else {}
    ensures AllValid(cpus)
    ensures |operands| < 2 ==> exit == 127
    ensures |operands| >= 2 && OpenExit(cpus, cpu) != 0 ==> exit == OpenExit(cpus, cpu)
    ensures cpu in cpus && (|operands| < 2 || OpenExit(cpus, cpu) != 0) ==>
              cpus[cpu].regs == old(cpus[cpu].regs) && cpus[cpu].writes == old(cpus[cpu].writes)
    ensures |operands| >= 2 && OpenExit(cpus, cpu) == 0 ==>
              var dev, reg, values := cpus[cpu], RegisterOf(operands[0]), ValuesOf(operands[1..]);
              var k := dev.Accepted(reg, values);
              && exit == (if k == |values| then 0 else AccessExit(dev.writing(reg, values[k])))
              && dev.regs == After(old(dev.regs), reg, values[..k])
              && dev.writes == old(dev.writes) + WritesOf(reg, values[..k])
  {
    if |operands| < 2 { return 127; }
    var reg := RegisterOf(operands[0]);
    if cpu !in cpus { return 2; }
    var dev := cpus[cpu];
    match dev.opening {
      case InputOutputError => return 3;
      case OtherError => return 127;
      case Opens =>
    }
    var access := WriteAll(dev, reg, operands[1..]);
    exit := AccessExit(access);
  }

  /** The loop over the value operands, which ends at the first failure. */
  method WriteAll(dev: Device, reg: nat, operands: seq<string>) returns (access: Access)
    requires dev.Valid()
    modifies dev
    ensures dev.Valid()
    ensures var values := ValuesOf(operands);
            var k := dev.Accepted(reg, values);
            && access == (if k == |values| then Granted else dev.writing(reg, values[k]))
            && dev.regs == After(old(dev.regs), reg, values[..k])
            && dev.writes == old(dev.writes) + WritesOf(reg, values[..k])
  {
    hide After, WritesOf, Strtoull, Device.Accepted, Device.Valid;
    ghost var values := ValuesOf(operands);
    NoWrites(dev.regs, reg);
    var i := 0;
    access := Granted;
    while i < |operands|
      invariant i <= |operands| && dev.Valid() && access == Granted
      invariant forall j :: 0 <= j < i ==> dev.writing(reg, values[j]) == Granted
      invariant dev.regs == After(old(dev.regs), reg, values[..i])
      invariant dev.writes == old(dev.writes) + WritesOf(reg, values[..i])
    {
      var data := Strtoull(operands[i]);
      access := dev.Write(reg, data);
      if access != Granted {
        dev.AcceptedIs(reg, values, i);
        return;
      }
      OneMoreWrite(old(dev.regs), reg, values, i);
      i := i + 1;
    }
    dev.AcceptedIs(reg, values, i);
  }

  lemma NoWrites(regs: map<nat, nat>, reg: nat)
    ensures After(regs, reg, []) == regs && WritesOf(reg, []) == []
  {
  }

  lemma OneMoreWrite(regs: map<nat, nat>, reg: nat, values: seq<nat>, i: nat)
    requires i < |values|
    ensures After(regs, reg, values[..i + 1]) == After(regs, reg, values[..i])[reg := values[i]]
    ensures WritesOf(reg, values[..i + 1]) == WritesOf(reg, values[..i]) + [(reg, values[i])]
  {
  }

  /** rdmsr: parse the options, open the device file of the selected processor, read the
      register, print the debugging line and the value. */
  method ReadMsr(cpus: Processors, opts: seq<Opt>, operands: seq<string>)
    returns (exit: int, banner: string, out: Output)
    requires AllValid(cpus)
    ensures match ParseResult(opts)
            case Exit(code) => exit == code
            case Run(mode, cpu, high, low) =>
              if |operands| != 1 then exit == 127
              else if OpenExit(cpus, cpu) != 0 then exit == OpenExit(cpus, cpu)
              else
                && exit == AccessExit(cpus[cpu].reading(RegisterOf(operands[0])))
                && (exit == 0 ==>
                      && RegisterOf(operands[0]) in cpus[cpu].regs && low <= high <= 63
                      && var data := cpus[cpu].regs[RegisterOf(operands[0])];
                         banner == Banner(data)
                         && out == Shown(LastRadix(opts), CLanguage in opts, ZeroFill in opts, high, low, data))
    ensures out != Impossible
  {
    banner, out := "", Text("");
    var parsed := ParseOptions(opts);
    if parsed.Exit? { return parsed.code, banner, out; }
    ParsedInRange(opts);
    if |operands| != 1 { return 127, banner, out; }
    var reg := RegisterOf(operands[0]);
    if parsed.cpu !in cpus { return 2, banner, out; }
    var dev := cpus[parsed.cpu];
    match dev.opening {
      case InputOutputError => return 3, banner, out;
      case OtherError => return 127, banner, out;
      case Opens =>
    }
    match dev.reading(reg) {
      case Refused => return 4, banner, out;
      case Failed => return 127, banner, out;
      case Granted =>
    }
    var data := dev.regs[reg];
    banner := Banner(data);
    DecodeMode(LastRadix(opts), CLanguage in opts, ZeroFill in opts);
    out := Show(parsed.mode, parsed.high, parsed.low, data);
    exit := 0;
  }

  // ---------- One tool after the other ----------

  /** The options survive parsing, ask for no raw dump, and the register can be read. */
  ghost predicate Readable(cpus: Processors, opts: seq<Opt>, operand: string)
    reads cpus.Values
  {
    && AllValid(cpus) && ParseResult(opts).Run? && LastRadix(opts) != Raw
    && OpenExit(cpus, ParseResult(opts).cpu) == 0
    && cpus[ParseResult(opts).cpu].reading(RegisterOf(operand)) == Granted
  }

  /** C-language form in a radix other than signed decimal. */
  predicate CForm(opts: seq<Opt>) {
    CLanguage in opts && LastRadix(opts) != Dec
  }

  predicate WholeFieldAsked(opts: seq<Opt>) {
    forall i :: 0 <= i < |opts| ==> !opts[i].Bitfield?
  }

  /** Reading a register in C-language form, with any other options, and giving the formatted line
      alone to wrmsr writes back exactly the field that was read, if the register accepts it, and
      nothing otherwise; without a bit-field option every register keeps its value either way. */
  method ReadThenWrite(cpus: Processors, opts: seq<Opt>, operand: string) returns (exit: int)
    requires Readable(cpus, opts, operand) && CForm(opts)
    modifies cpus.Values
    ensures var p, reg := ParseResult(opts), RegisterOf(operand);
            var dev := cpus[p.cpu];
            && p.low <= p.high <= 63
            && var v := Field(old(dev.regs)[reg], p.high, p.low);
               && exit == AccessExit(dev.writing(reg, v))
               && dev.regs == (if exit == 0 then old(dev.regs)[reg := v] else old(dev.regs))
               && dev.writes == old(dev.writes) + (if exit == 0 then [(reg, v)] else [])
               && (WholeFieldAsked(opts) ==> dev.regs == old(dev.regs))
  {
    var code, banner, out := ReadMsr(cpus, opts, [operand]);
    var p := ParseResult(opts);
    ghost var data := cpus[p.cpu].regs[RegisterOf(operand)];
    OutputReadsBack(opts, data);
    if WholeFieldAsked(opts) { WholeRegister(opts, data); }
    hide Strtoull, Field, ParseResult, LastRadix;
    exit := WriteOne(cpus, p.cpu, operand, out.line);
  }

  /** wrmsr with a single value operand. */
  method WriteOne(cpus: Processors, cpu: nat, operand: string, value: string) returns (exit: int)
    requires AllValid(cpus) && OpenExit(cpus, cpu) == 0
    modifies cpus[cpu]
    ensures var dev, reg, v := cpus[cpu], RegisterOf(operand), Strtoull(value);
            && exit == AccessExit(dev.writing(reg, v))
            && dev.regs == (if exit == 0 then old(dev.regs)[reg := v] else old(dev.regs))
            && dev.writes == old(dev.writes) + (if exit == 0 then [(reg, v)] else [])
  {
    hide Strtoull;
    assert [operand, value][1..] == [value] && ValuesOf([value]) == [Strtoull(value)];
    exit := Wrmsr(cpus, cpu, [operand, value]);
    assert WritesOf(RegisterOf(operand), []) == [];
    assert WritesOf(RegisterOf(operand), [Strtoull(value)]) == [(RegisterOf(operand), Strtoull(value))];
    assert [Strtoull(value)][..1] == [Strtoull(value)];
  }

  /** Giving the whole output to wrmsr as one operand writes zero, because of the debugging line;
      so the register keeps its value if and only if that is zero or zero is not accepted. */
  method WholeOutputAsOperand(cpus: Processors, opts: seq<Opt>, operand: string) returns (exit: int)
    requires Readable(cpus, opts, operand)
    modifies cpus.Values
    ensures var dev, reg := cpus[ParseResult(opts).cpu], RegisterOf(operand);
            && exit == AccessExit(dev.writing(reg, 0))
            && dev.regs == (if exit == 0 then old(dev.regs)[reg := 0] else old(dev.regs))
            && (dev.regs == old(dev.regs) <==> exit != 0 || old(dev.regs)[reg] == 0)
  {
    var code, banner, out := ReadMsr(cpus, opts, [operand]);
    var p := ParseResult(opts);
    ghost var data := cpus[p.cpu].regs[RegisterOf(operand)];
    OutputReadsBack(opts, data);
    BannerReadsZero(data, out.line);
    hide Strtoull, ParseResult, LastRadix;
    exit := WriteOne(cpus, p.cpu, operand, banner + out.line);
  }

  /** The values wrmsr finds in the whole output, word by word: two zeros, what the bare
      hexadecimal reads as, and the field. */
  function WordValues(data: nat, high: nat, low: nat): seq<nat>
    requires low <= high <= 63
  {
    [0, 0, Strtoull(Digits(data, 16, false)), Field(data, high, low)]
  }

  /** Giving the whole output to wrmsr word by word writes those four values as far as they are
      accepted; the register ends with the field if all of them are, and with an earlier one
      if not. */
  method WholeOutputAsWords(cpus: Processors, opts: seq<Opt>, operand: string) returns (exit: int)
    requires Readable(cpus, opts, operand) && CForm(opts)
    modifies cpus.Values
    ensures var p, reg := ParseResult(opts), RegisterOf(operand);
            var dev := cpus[p.cpu];
            var data := old(dev.regs)[reg];
            && p.low <= p.high <= 63
            && var values := WordValues(data, p.high, p.low);
               var k := dev.Accepted(reg, values);
               && exit == (if k == 4 then 0 else AccessExit(dev.writing(reg, values[k])))
               && dev.regs == After(old(dev.regs), reg, values[..k])
               && dev.writes == old(dev.writes) + WritesOf(reg, values[..k])
               && (k == 4 ==> dev.regs[reg] == Field(data, p.high, p.low))
               && (k == 4 && WholeFieldAsked(opts) ==> dev.regs == old(dev.regs))
  {
    hide Strtoull, Field, Digits, SplitWords, Banner, ParseResult, LastRadix;
    var code, banner, out := ReadMsr(cpus, opts, [operand]);
    var p := ParseResult(opts);
    ghost var data := cpus[p.cpu].regs[RegisterOf(operand)];
    WordsOfOutput(opts, data);
    if WholeFieldAsked(opts) { WholeRegister(opts, data); }
    var words := SplitWords(banner + out.line);
    FourValues(words);
    assert ([operand] + words)[1..] == words;
    exit := Wrmsr(cpus, p.cpu, [operand] + words);
  }

  lemma FourValues(words: seq<string>)
    requires |words| == 4
    ensures ValuesOf(words) == [Strtoull(words[0]), Strtoull(words[1]), Strtoull(words[2]), Strtoull(words[3])]
  {
  }

  lemma {:induction false} WordsOfOutput(opts: seq<Opt>, data: nat)
    requires ParseResult(opts).Run? && LastRadix(opts) != Raw && CForm(opts) && data < TWO64
    ensures var p := ParseResult(opts);
            && p.low <= p.high <= 63
            && var out := Shown(LastRadix(opts), CLanguage in opts, ZeroFill in opts, p.high, p.low, data);
               && out.Text?
               && var words := SplitWords(Banner(data) + out.line);
                  && |words| == 4 && Strtoull(words[0]) == 0 && Strtoull(words[1]) == 0
                  && words[2] == Digits(data, 16, false) && Strtoull(words[3]) == Field(data, p.high, p.low)
  {
    var p := ParseResult(opts);
    SelectedField(opts);
    hide Line, Field, SplitWords, Digits, Strtoull, Banner, Pow, LastRadix, ParseResult;
    FieldSmall(data, p.high, p.low);
    WordsOfLine(LastRadix(opts), ZeroFill in opts, p.high - p.low + 1, Field(data, p.high, p.low), data);
  }

  lemma WordsOfLine(r: Radix, fill: bool, bits: nat, v: nat, data: nat)
    requires r != Raw && r != Dec && 1 <= bits <= 64 && v < Pow(2, bits)
    ensures v < TWO64
    ensures var words := SplitWords(Banner(data) + (Line(r, true, fill, bits, v) + "\n"));
            && |words| == 4 && Strtoull(words[0]) == 0 && Strtoull(words[1]) == 0
            && words[2] == Digits(data, 16, false) && Strtoull(words[3]) == v
  {
    hide Line, SplitWords, Digits, Strtoull, Banner, Pow;
    RdmsrText.CLanguageRoundTrip(r, fill, bits, v, "");
    LineSolid(r, true, fill, bits, v);
    var line := Line(r, true, fill, bits, v);
    assert line + "" == line;
    OutputWords(data, line);
    ReadsZero("reg");
    ReadsZero("data:");
  }
}
