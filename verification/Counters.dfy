/** configure_counters: programming the performance counters of several processors while their
    enabled counters may tick before any register access. */
module Counters {
  import opened RegisterLayouts

  /** The registers of one processor. */
  type Regs = map<int, bv64>

  /** How far each counter would advance before an access, were it enabled. */
  type Bumps = map<int, bv64>

  predicate IsPmc(a: int) {
    IA32_PMC0 <= a < IA32_PMC0 + PERF_MAX_CUSTOM_COUNTERS
  }

  /** Counter a counts: its bit in the global control register and the enable bit of its event
      select register are both set. */
  predicate Enabled(r: Regs, a: int)
    requires IsPmc(a)
  {
    var k := a - IA32_PMC0;
    && IA32_CR_PERF_GLOBAL_CTRL in r && Bit(r[IA32_CR_PERF_GLOBAL_CTRL], k as bv8)
    && IA32_PERFEVTSEL0_ADDR + k in r && Bit(r[IA32_PERFEVTSEL0_ADDR + k], 22)
  }

  /** The environment: enabled counters advance by arbitrary amounts, nothing else changes. */
  function Tick(r: Regs, b: Bumps): Regs {
    map a | a in r :: if IsPmc(a) && a in b && Enabled(r, a) then r[a] + b[a] else r[a]
  }

  /** With the global control register cleared no counter can tick. */
  lemma NoTick(r: Regs, b: Bumps)
    requires IA32_CR_PERF_GLOBAL_CTRL in r && r[IA32_CR_PERF_GLOBAL_CTRL] == 0
    ensures Tick(r, b) == r
  {
  }

  predicate SelectAddress(a: int) {
    IA32_PERFEVTSEL0_ADDR <= a < IA32_PERFEVTSEL0_ADDR + PERF_MAX_CUSTOM_COUNTERS
  }

  /** The table has the rows the loop visits, and its custom rows name select registers and bit
      positions of a 64-bit word. */
  predicate TableOk(table: seq<Entry>) {
    && |table| >= N_CUSTOM_CTR
    && forall c :: 0 <= c < N_CUSTOM_CTR && table[c].custom ==> SelectAddress(table[c].cfgReg) && table[c].id < 64
  }

  /** The processor implements the registers involved. */
  ghost predicate Supports(r: Regs) {
    && IA32_CR_PERF_GLOBAL_CTRL in r && IA32_CR_FIXED_CTR_CTRL in r
    && forall a :: IsPmc(a) || SelectAddress(a) ==> a in r
  }

  // ---------- What the program writes ----------

  function PlusBit(sum: bv64, id: bv8): bv64
    requires id < 64
  {
    sum + (1 << id)
  }

  /** The fixed-counter control register after the conditional blocks: os, any_thread and
      enable_pmi clear and usr set for the first `fixed` fixed counters. */
  function UserOnly(f: FixedControl, fixed: nat): FixedControl {
    FixedControl(
      if fixed > 0 then 0 else f.os0, if fixed > 0 then 1 else f.usr0,
      if fixed > 0 then 0 else f.anyThread0, if fixed > 0 then 0 else f.enablePmi0,
      if fixed > 1 then 0 else f.os1, if fixed > 1 then 1 else f.usr1,
      if fixed > 1 then 0 else f.anyThread1, if fixed > 1 then 0 else f.enablePmi1,
      if fixed > 2 then 0 else f.os2, if fixed > 2 then 1 else f.usr2,
      if fixed > 2 then 0 else f.anyThread2, if fixed > 2 then 0 else f.enablePmi2,
      f.reserved1)
  }

  function FixedFields(v: bv64, fixed: nat): bv64 {
    PackFixed(UserOnly(UnpackFixed(v), fixed))
  }

  /** The global enable bits of the fixed counters. */
  function FixedMask(fixed: nat): bv64 {
    var m0 := if fixed > 0 then PlusBit(0, 32) else 0;
    var m1 := if fixed > 1 then PlusBit(m0, 33) else m0;
    if fixed > 2 then PlusBit(m1, 34) else m1
  }

  /** The conditional blocks for the fixed counters, in the order of the program. */
  method FixedSetup(ctrl: bv64, fixed: nat) returns (result: bv64, value: bv64)
    ensures result == FixedFields(ctrl, fixed) && value == FixedMask(fixed)
  {
    hide PackFixed, UnpackFixed, PlusBit;
    var fields := UnpackFixed(ctrl);
    value := 0;
    if fixed > 0 {
      fields := fields.(os0 := 0, usr0 := 1, anyThread0 := 0, enablePmi0 := 0);
      value := PlusBit(value, 32);
    }
    if fixed > 1 {
      fields := fields.(os1 := 0, usr1 := 1, anyThread1 := 0, enablePmi1 := 0);
      value := PlusBit(value, 33);
    }
    if fixed > 2 {
      fields := fields.(os2 := 0, usr2 := 1, anyThread2 := 0, enablePmi2 := 0);
      value := PlusBit(value, 34);
    }
    result := PackFixed(fields);
  }

  /** The global mask summed over the first `count` rows. */
  function GlobalMask(table: seq<Entry>, count: nat, fixed: nat): bv64
    requires TableOk(table) && count <= N_CUSTOM_CTR
  {
    if count == 0 then FixedMask(fixed)
    else
      var sum := GlobalMask(table, count - 1, fixed);
      if table[count - 1].custom then PlusBit(sum, table[count - 1].id) else sum
  }

  /** What register a holds after the select registers of the first `count` rows were written. */
  function Selected(table: seq<Entry>, count: nat, a: int, before: bv64): bv64
    requires count <= |table|
  {
    if count == 0 then before
    else if table[count - 1].custom && table[count - 1].cfgReg == a then Pack(EventFields(table[count - 1]))
    else Selected(table, count - 1, a, before)
  }

  datatype Variant = Always | Conditional

  /** The test of the conditional variant: some os, usr or enable_pmi bit is set. */
  predicate InUse(f: FixedControl) {
    f.os0 != 0 || f.usr0 != 0 || f.enablePmi0 != 0 || f.os1 != 0 || f.usr1 != 0 || f.enablePmi1 != 0
    || f.os2 != 0 || f.usr2 != 0 || f.enablePmi2 != 0
  }

  /** The fixed-counter control register after the "disable" step. */
  function FixedCleared(variant: Variant, v: bv64): bv64 {
    if variant == Conditional && !InUse(UnpackFixed(v)) then v else 0
  }

  /** The state configure_counters leaves on one processor, at its last write. */
  function Configured(r: Regs, variant: Variant, enable: bool, table: seq<Entry>, fixed: nat): Regs
    requires TableOk(table)
  {
    map a | a in r ::
      if a == IA32_CR_PERF_GLOBAL_CTRL then (if enable then GlobalMask(table, N_CUSTOM_CTR, fixed) else 0)
      else if a == IA32_CR_FIXED_CTR_CTRL then
        (if enable then FixedFields(FixedCleared(variant, r[a]), fixed) else FixedCleared(variant, r[a]))
      else if IsPmc(a) then 0
      else if enable then Selected(table, N_CUSTOM_CTR, a, r[a])
      else r[a]
  }

  // ---------- The machine ----------

  function Advance(cpus: map<nat, Regs>, env: (nat, nat) -> Bumps, time: nat): map<nat, Regs> {
    map q | q in cpus :: Tick(cpus[q], env(time, q))
  }

  predicate Stopped(r: Regs) {
    IA32_CR_PERF_GLOBAL_CTRL in r && r[IA32_CR_PERF_GLOBAL_CTRL] == 0
  }

  predicate SameButPmcs(r: Regs, r': Regs) {
    r.Keys == r'.Keys && forall a :: a in r && !IsPmc(a) ==> r'[a] == r[a]
  }

  /** Registers that nobody wrote: enabled counters may have ticked, and nothing else has changed;
      nothing at all on a stopped processor. */
  predicate Idled(r: Regs, r': Regs) {
    && SameButPmcs(r, r') && (Stopped(r) ==> r' == r)
    && forall a :: a in r && IsPmc(a) && !Enabled(r, a) ==> r'[a] == r[a]
  }

  /** Every processor but one idled. */
  predicate OthersIdled(before: map<nat, Regs>, after: map<nat, Regs>, cpu: nat) {
    before.Keys == after.Keys && forall q :: q in before && q != cpu ==> Idled(before[q], after[q])
  }

  lemma TickIdles(r: Regs, b: Bumps)
    ensures Idled(r, Tick(r, b))
  {
    if Stopped(r) { NoTick(r, b); }
  }

  lemma IdledTwice(r: Regs, r': Regs, r'': Regs)
    requires Idled(r, r') && Idled(r', r'')
    ensures Idled(r, r'')
  {
  }

  lemma OthersIdledTwice(x: map<nat, Regs>, y: map<nat, Regs>, z: map<nat, Regs>, cpu: nat)
    requires OthersIdled(x, y, cpu) && OthersIdled(y, z, cpu)
    ensures OthersIdled(x, z, cpu)
  {
    forall q | q in x && q != cpu
      ensures Idled(x[q], z[q])
    {
      IdledTwice(x[q], y[q], z[q]);
    }
  }

  lemma OthersIdledSelf(x: map<nat, Regs>, cpu: nat)
    ensures OthersIdled(x, x, cpu)
  {
  }

  /** The first `count` counters reset. */
  function Reset(r: Regs, count: nat): Regs {
    map a | a in r :: if IA32_PMC0 <= a < IA32_PMC0 + count then 0 else r[a]
  }

  /** The select registers of the first `count` rows written. */
  function WithSelects(r: Regs, table: seq<Entry>, count: nat): Regs
    requires count <= |table|
  {
    map a | a in r :: Selected(table, count, a, r[a])
  }

  /** All processors, and the environment: env(t, q) says how far the counters of processor q
      would have advanced just before access number t. */
  class Machine {
    var cpus: map<nat, Regs>
    var time: nat
    const env: (nat, nat) -> Bumps

    constructor (cpus: map<nat, Regs>, env: (nat, nat) -> Bumps)
      ensures this.cpus == cpus && this.env == env && time == 0
    {
      this.cpus := cpus;
      this.env := env;
      this.time := 0;
    }

    /** A write to a register of one processor; before it, time passes on all of them. */
    method Write(cpu: nat, a: int, v: bv64)
      requires cpu in cpus && a in cpus[cpu]
      modifies this
      ensures var before := Advance(old(cpus), env, old(time));
              cpus == before[cpu := before[cpu][a := v]] && time == old(time) + 1
      ensures OthersIdled(old(cpus), cpus, cpu)
      ensures cpus[cpu] == Tick(old(cpus)[cpu], env(old(time), cpu))[a := v]
      ensures Stopped(old(cpus)[cpu]) ==> cpus[cpu] == old(cpus)[cpu][a := v]
    {
      ghost var start := cpus;
      cpus := Advance(cpus, env, time);
      forall q | q in start
        ensures Idled(start[q], cpus[q])
      {
        TickIdles(start[q], env(time, q));
      }
      cpus := cpus[cpu := cpus[cpu][a := v]];
      time := time + 1;
    }

    method Read(cpu: nat, a: int) returns (v: bv64)
      requires cpu in cpus && a in cpus[cpu]
      modifies this
      ensures cpus == Advance(old(cpus), env, old(time)) && time == old(time) + 1
      ensures OthersIdled(old(cpus), cpus, cpu) && Idled(old(cpus)[cpu], cpus[cpu])
      ensures v == cpus[cpu][a]
    {
      ghost var start := cpus;
      cpus := Advance(cpus, env, time);
      forall q | q in start
        ensures Idled(start[q], cpus[q])
      {
        TickIdles(start[q], env(time, q));
      }
      time := time + 1;
      v := cpus[cpu][a];
    }

    /** A write to a stopped processor: nothing else changes there. */
    method QuietWrite(cpu: nat, a: int, v: bv64)
      requires cpu in cpus && a in cpus[cpu] && Stopped(cpus[cpu])
      modifies this
      ensures OthersIdled(old(cpus), cpus, cpu)
      ensures cpus[cpu] == old(cpus)[cpu][a := v]
    {
      Write(cpu, a, v);
    }

    method QuietRead(cpu: nat, a: int) returns (v: bv64)
      requires cpu in cpus && a in cpus[cpu] && Stopped(cpus[cpu])
      modifies this
      ensures OthersIdled(old(cpus), cpus, cpu)
      ensures cpus[cpu] == old(cpus)[cpu] && v == cpus[cpu][a]
    {
      v := Read(cpu, a);
    }

    /** "Disable counters while programming". */
    method Disable(cpu: nat)
      requires cpu in cpus && Supports(cpus[cpu])
      modifies this
      ensures OthersIdled(old(cpus), cpus, cpu)
      ensures SameButPmcs(old(cpus)[cpu][IA32_CR_PERF_GLOBAL_CTRL := 0], cpus[cpu])
    {
      TickIdles(cpus[cpu], env(time, cpu));
      Write(cpu, IA32_CR_PERF_GLOBAL_CTRL, 0);
    }

    /** "Reset all PMCs": the loop over the eight counters of a stopped processor. */
    method ResetCounters(cpu: nat)
      requires cpu in cpus && Supports(cpus[cpu]) && Stopped(cpus[cpu])
      modifies this
      ensures OthersIdled(old(cpus), cpus, cpu)
      ensures cpus[cpu] == Reset(old(cpus)[cpu], PERF_MAX_CUSTOM_COUNTERS)
    {
      ghost var start := cpus;
      var c := 0;
      assert cpus[cpu] == Reset(start[cpu], 0);
      while c < PERF_MAX_CUSTOM_COUNTERS
        invariant c <= PERF_MAX_CUSTOM_COUNTERS
        invariant OthersIdled(start, cpus, cpu)
        invariant cpus[cpu] == Reset(start[cpu], c)
      {
        ghost var before := cpus;
        ResetOneMore(start[cpu], c);
        QuietWrite(cpu, IA32_PMC0 + c, 0);
        OthersIdledTwice(start, before, cpus, cpu);
        c := c + 1;
      }
    }

    /** "Disable fixed registers": unconditionally, or only when a control bit is in use. */
    method DisableFixed(cpu: nat, variant: Variant)
      requires cpu in cpus && Supports(cpus[cpu]) && Stopped(cpus[cpu])
      modifies this
      ensures OthersIdled(old(cpus), cpus, cpu)
      ensures var r := old(cpus)[cpu];
              cpus[cpu] == r[IA32_CR_FIXED_CTR_CTRL := FixedCleared(variant, r[IA32_CR_FIXED_CTR_CTRL])]
    {
      ghost var start := cpus;
      if variant == Always {
        QuietWrite(cpu, IA32_CR_FIXED_CTR_CTRL, 0);
      } else {
        var ctrl := QuietRead(cpu, IA32_CR_FIXED_CTR_CTRL);
        if InUse(UnpackFixed(ctrl)) {
          ghost var before := cpus;
          QuietWrite(cpu, IA32_CR_FIXED_CTR_CTRL, 0);
          OthersIdledTwice(start, before, cpus, cpu);
        }
      }
    }

    /** Everything up to the `if (set)`: counters stopped and reset, fixed counters disabled. */
    method Prepare(cpu: nat, variant: Variant)
      requires cpu in cpus && Supports(cpus[cpu])
      modifies this
      ensures OthersIdled(old(cpus), cpus, cpu)
      ensures cpus[cpu] == Prepared(old(cpus)[cpu], variant)
    {
      ghost var start := cpus;
      Disable(cpu);
      ghost var c1 := cpus;
      ResetCounters(cpu);
      ghost var c2 := cpus;
      OthersIdledTwice(start, c1, c2, cpu);
      DisableFixed(cpu, variant);
      OthersIdledTwice(start, c2, cpus, cpu);
      PreparedInSteps(start[cpu], c1[cpu], variant);
    }

    /** "Configure PMC": the loop over the table of a stopped processor, which writes the select
        registers and sums up the global mask. */
    method ProgramSelects(cpu: nat, table: seq<Entry>, ghost fixed: nat, mask: bv64) returns (value: bv64)
      requires cpu in cpus && Supports(cpus[cpu]) && Stopped(cpus[cpu]) && TableOk(table)
      requires mask == FixedMask(fixed)
      modifies this
      ensures OthersIdled(old(cpus), cpus, cpu)
      ensures cpus[cpu] == WithSelects(old(cpus)[cpu], table, N_CUSTOM_CTR)
      ensures value == GlobalMask(table, N_CUSTOM_CTR, fixed)
    {
      hide Pack, EventFields, PlusBit, FixedMask, WithSelects, Selected, Idled;
      ghost var start := cpus;
      value := mask;
      var c := 0;
      SelectsNone(start[cpu], table);
      OthersIdledSelf(cpus, cpu);
      while c < N_CUSTOM_CTR
        invariant c <= N_CUSTOM_CTR
        invariant OthersIdled(start, cpus, cpu)
        invariant cpus[cpu] == WithSelects(start[cpu], table, c)
        invariant value == GlobalMask(table, c, fixed)
      {
        if c > PERF_MAX_CUSTOM_COUNTERS { break; }
        SelectsOneMore(start[cpu], table, c);
        if table[c].custom {
          ghost var before := cpus;
          var evt := QuietRead(cpu, table[c].cfgReg);
          OthersIdledTwice(start, before, cpus, cpu);
          before := cpus;
          QuietWrite(cpu, table[c].cfgReg, Pack(EventFields(table[c])));
          OthersIdledTwice(start, before, cpus, cpu);
          value := PlusBit(value, table[c].id);
        }
        c := c + 1;
      }
    }

    /** The `if (set)` block on a stopped processor. */
    method Enable(cpu: nat, table: seq<Entry>, fixed: nat)
      requires cpu in cpus && Supports(cpus[cpu]) && Stopped(cpus[cpu]) && TableOk(table)
      modifies this
      ensures OthersIdled(old(cpus), cpus, cpu)
      ensures cpus[cpu] == Enabling(old(cpus)[cpu], table, fixed)
    {
      ghost var start := cpus;
      hide FixedFields, FixedMask;
      var ctrl := QuietRead(cpu, IA32_CR_FIXED_CTR_CTRL);
      ghost var c1 := cpus;
      var fields, mask := FixedSetup(ctrl, fixed);
      QuietWrite(cpu, IA32_CR_FIXED_CTR_CTRL, fields);
      ghost var c2 := cpus;
      OthersIdledTwice(start, c1, c2, cpu);
      var value := ProgramSelects(cpu, table, fixed, mask);
      ghost var c3 := cpus;
      OthersIdledTwice(start, c2, c3, cpu);
      SelectsKeep(c2[cpu], table);
      QuietWrite(cpu, IA32_CR_PERF_GLOBAL_CTRL, value);
      OthersIdledTwice(start, c3, cpus, cpu);
    }

    /** The body of the loop of configure_counters for one processor, in either variant.  At its
        last write the processor is exactly as Configured says, all eight counters at zero,
        whatever the environment did between any two accesses; the other processors only idle. */
    method ConfigureCpu(cpu: nat, variant: Variant, enable: bool, table: seq<Entry>, fixed: nat)
      requires cpu in cpus && Supports(cpus[cpu]) && TableOk(table)
      modifies this
      ensures OthersIdled(old(cpus), cpus, cpu)
      ensures cpus[cpu] == Configured(old(cpus)[cpu], variant, enable, table, fixed)
    {
      ghost var start := cpus;
      Prepare(cpu, variant);
      ghost var c1 := cpus;
      if enable {
        Enable(cpu, table, fixed);
        OthersIdledTwice(start, c1, cpus, cpu);
      }
      ConfiguredInSteps(start[cpu], variant, enable, table, fixed);
    }

    /** configure_counters of the main program, over a list of processors. */
    method ConfigureCounters(list: seq<nat>, enable: bool, table: seq<Entry>, fixed: nat)
      requires TableOk(table) && forall q :: q in list ==> q in cpus && Supports(cpus[q])
      modifies this
      ensures cpus.Keys == old(cpus).Keys
      ensures forall q :: q in list ==> Idled(Configured(old(cpus)[q], Always, enable, table, fixed), cpus[q])
      ensures !enable ==> forall q :: q in list ==> cpus[q] == Configured(old(cpus)[q], Always, false, table, fixed)
      ensures forall q :: q in cpus && q !in list ==> Idled(old(cpus)[q], cpus[q])
    {
      ghost var start := cpus;
      var i := 0;
      while i < |list|
        invariant i <= |list| && cpus.Keys == start.Keys
        invariant forall q :: q in list[..i] ==> Settled(start[q], cpus[q], enable, table, fixed)
        invariant forall q :: q in cpus && q !in list[..i] ==> Idled(start[q], cpus[q])
      {
        var cpu := list[i];
        ghost var before := cpus;
        SupportsKept(start[cpu], cpus[cpu], cpu in list[..i], enable, table, fixed);
        ConfigureCpu(cpu, Always, enable, table, fixed);
        forall q | q in list[..i + 1]
          ensures Settled(start[q], cpus[q], enable, table, fixed)
        {
          if q == cpu {
            ConfiguredAgain(start[q], before[q], cpu in list[..i], enable, table, fixed);
          } else {
            assert q in list[..i];
            SettledIdled(start[q], before[q], cpus[q], enable, table, fixed);
          }
        }
        forall q | q in cpus && q !in list[..i + 1]
          ensures Idled(start[q], cpus[q])
        {
          IdledTwice(start[q], before[q], cpus[q]);
        }
        i := i + 1;
      }
      assert list[..i] == list;
    }
  }

  /** A configured processor, some time later. */
  predicate Settled(r: Regs, now: Regs, enable: bool, table: seq<Entry>, fixed: nat)
    requires TableOk(table)
  {
    var target := Configured(r, Always, enable, table, fixed);
    Idled(target, now) && (!enable ==> now == target)
  }

  lemma SupportsKept(r: Regs, now: Regs, again: bool, enable: bool, table: seq<Entry>, fixed: nat)
    requires TableOk(table) && Supports(r)
    requires if again then Settled(r, now, enable, table, fixed) else Idled(r, now)
    ensures Supports(now)
  {
  }

  lemma ConfiguredAgain(r: Regs, before: Regs, again: bool, enable: bool, table: seq<Entry>, fixed: nat)
    requires TableOk(table)
    requires if again then Settled(r, before, enable, table, fixed) else Idled(r, before)
    ensures Settled(r, Configured(before, Always, enable, table, fixed), enable, table, fixed)
  {
    hide Pack, EventFields, FixedFields, GlobalMask, Selected;
    if again { ConfiguredTwice(r, before, enable, table, fixed); }
  }

  /** Configuring a configured processor changes nothing. */
  lemma ConfiguredTwice(r: Regs, before: Regs, enable: bool, table: seq<Entry>, fixed: nat)
    requires TableOk(table) && Settled(r, before, enable, table, fixed)
    ensures Configured(before, Always, enable, table, fixed) == Configured(r, Always, enable, table, fixed)
  {
    hide Pack, EventFields, FixedFields, GlobalMask, Selected, Enabled;
    forall a | a in r
      ensures Selected(table, N_CUSTOM_CTR, a, Selected(table, N_CUSTOM_CTR, a, r[a]))
              == Selected(table, N_CUSTOM_CTR, a, r[a])
    {
      SelectedTwice(table, N_CUSTOM_CTR, a, r[a]);
    }
  }

  lemma {:induction false} SelectedTwice(table: seq<Entry>, count: nat, a: int, v: bv64)
    requires count <= |table|
    ensures forall w ::
              Selected(table, count, a, v) == v || Selected(table, count, a, w) == Selected(table, count, a, v)
  {
    if count > 0 { SelectedTwice(table, count - 1, a, v); }
  }

  lemma SettledIdled(r: Regs, before: Regs, now: Regs, enable: bool, table: seq<Entry>, fixed: nat)
    requires TableOk(table) && Settled(r, before, enable, table, fixed) && Idled(before, now)
    requires IA32_CR_PERF_GLOBAL_CTRL in r
    ensures Settled(r, now, enable, table, fixed)
  {
  }

  lemma ResetOneMore(r: Regs, c: nat)
    requires Supports(r) && Stopped(r) && c < PERF_MAX_CUSTOM_COUNTERS
    ensures IsPmc(IA32_PMC0 + c) && IA32_PMC0 + c in r && Stopped(Reset(r, c))
    ensures Reset(r, c)[IA32_PMC0 + c := 0] == Reset(r, c + 1)
  {
    assert IsPmc(IA32_PMC0 + c);
  }

  lemma SelectsNone(r: Regs, table: seq<Entry>)
    ensures WithSelects(r, table, 0) == r
  {
  }

  lemma SelectsOneMore(r: Regs, table: seq<Entry>, c: nat)
    requires Supports(r) && Stopped(r) && TableOk(table) && c < N_CUSTOM_CTR
    ensures Stopped(WithSelects(r, table, c))
    ensures WithSelects(r, table, c + 1)
            == if table[c].custom then WithSelects(r, table, c)[table[c].cfgReg := Pack(EventFields(table[c]))]
               else WithSelects(r, table, c)
    ensures table[c].custom ==> table[c].cfgReg in r && table[c].cfgReg in WithSelects(r, table, c)
  {
    NotSelected(table, c, IA32_CR_PERF_GLOBAL_CTRL);
    if table[c].custom { assert SelectAddress(table[c].cfgReg); }
  }

  lemma SelectsKeep(r: Regs, table: seq<Entry>)
    requires Stopped(r) && TableOk(table)
    ensures Stopped(WithSelects(r, table, N_CUSTOM_CTR))
  {
    NotSelected(table, N_CUSTOM_CTR, IA32_CR_PERF_GLOBAL_CTRL);
  }

  /** The registers at the `if (set)`. */
  function Prepared(r: Regs, variant: Variant): Regs {
    map a | a in r ::
      if a == IA32_CR_PERF_GLOBAL_CTRL || IsPmc(a) then 0
      else if a == IA32_CR_FIXED_CTR_CTRL then FixedCleared(variant, r[a])
      else r[a]
  }

  lemma PreparedInSteps(r0: Regs, r1: Regs, variant: Variant)
    requires Supports(r0) && SameButPmcs(r0[IA32_CR_PERF_GLOBAL_CTRL := 0], r1)
    ensures var r2 := Reset(r1, PERF_MAX_CUSTOM_COUNTERS);
            r2[IA32_CR_FIXED_CTR_CTRL := FixedCleared(variant, r2[IA32_CR_FIXED_CTR_CTRL])] == Prepared(r0, variant)
  {
  }

  /** The writes of the `if (set)` block, one after the other. */
  function Enabling(r: Regs, table: seq<Entry>, fixed: nat): Regs
    requires IA32_CR_FIXED_CTR_CTRL in r && TableOk(table)
  {
    var r1 := r[IA32_CR_FIXED_CTR_CTRL := FixedFields(r[IA32_CR_FIXED_CTR_CTRL], fixed)];
    WithSelects(r1, table, N_CUSTOM_CTR)[IA32_CR_PERF_GLOBAL_CTRL := GlobalMask(table, N_CUSTOM_CTR, fixed)]
  }

  /** The steps amount to Configured, register by register. */
  lemma EnablingRegister(r: Regs, variant: Variant, table: seq<Entry>, fixed: nat, a: int)
    requires Supports(r) && TableOk(table) && a in r
    ensures Configured(r, variant, true, table, fixed)[a] == Enabling(Prepared(r, variant), table, fixed)[a]
  {
    hide Pack, EventFields, FixedFields, FixedCleared, GlobalMask;
    if !SelectAddress(a) { NotSelected(table, N_CUSTOM_CTR, a); }
  }

  lemma ConfiguredInSteps(r: Regs, variant: Variant, enable: bool, table: seq<Entry>, fixed: nat)
    requires Supports(r) && TableOk(table)
    ensures Configured(r, variant, enable, table, fixed)
            == if enable then Enabling(Prepared(r, variant), table, fixed) else Prepared(r, variant)
  {
    hide Pack, EventFields, FixedFields, FixedCleared, GlobalMask, Selected;
    forall a | enable && a in r
      ensures Configured(r, variant, true, table, fixed)[a] == Enabling(Prepared(r, variant), table, fixed)[a]
    {
      EnablingRegister(r, variant, table, fixed, a);
    }
  }

  lemma {:induction false} NotSelected(table: seq<Entry>, count: nat, a: int)
    requires TableOk(table) && count <= N_CUSTOM_CTR
    requires forall c :: 0 <= c < count && table[c].custom ==> table[c].cfgReg != a
    ensures forall v :: Selected(table, count, a, v) == v
  {
    if count > 0 { NotSelected(table, count - 1, a); }
  }

  // ---------- What the final state means ----------

  /** Distinct custom rows have distinct bit positions, none of them used by a fixed counter. */
  predicate DistinctIds(table: seq<Entry>, fixed: nat)
    requires TableOk(table)
  {
    && (forall c, d :: 0 <= c < d < N_CUSTOM_CTR && table[c].custom && table[d].custom ==> table[c].id != table[d].id)
    && (forall c :: 0 <= c < N_CUSTOM_CTR && table[c].custom ==> !FixedBit(table[c].id, fixed))
  }

  predicate FixedBit(k: bv8, fixed: nat) {
    (k == 32 && fixed > 0) || (k == 33 && fixed > 1) || (k == 34 && fixed > 2)
  }

  predicate DistinctSelects(table: seq<Entry>)
    requires TableOk(table)
  {
    forall c, d :: 0 <= c < d < N_CUSTOM_CTR && table[c].custom && table[d].custom ==>
      table[c].cfgReg != table[d].cfgReg
  }

  /** Some custom row before `count` has bit position k. */
  predicate HasId(table: seq<Entry>, count: nat, k: bv8)
    requires count <= |table|
  {
    exists c :: 0 <= c < count && table[c].custom && table[c].id == k
  }

  lemma FixedMaskBits(fixed: nat, k: bv8)
    requires k < 64
    ensures Bit(FixedMask(fixed), k) == FixedBit(k, fixed)
  {
  }

  lemma PlusBitBits(sum: bv64, id: bv8, k: bv8)
    requires id < 64 && k < 64 && !Bit(sum, id)
    ensures Bit(PlusBit(sum, id), k) == (Bit(sum, k) || k == id)
  {
    AddBit(sum, id, k);
  }

  /** The additions never carry: bit k of the global mask is set exactly when a row has that
      position or a fixed counter uses it. */
  lemma {:induction false} MaskBits(table: seq<Entry>, count: nat, fixed: nat, k: bv8)
    requires TableOk(table) && DistinctIds(table, fixed) && count <= N_CUSTOM_CTR && k < 64
    ensures Bit(GlobalMask(table, count, fixed), k) == (FixedBit(k, fixed) || HasId(table, count, k))
    decreases count
  {
    hide PlusBit, Bit, FixedMask;
    if count == 0 {
      FixedMaskBits(fixed, k);
    } else {
      var e := table[count - 1];
      MaskBits(table, count - 1, fixed, k);
      HasIdOneMore(table, count - 1, k);
      if e.custom {
        MaskBits(table, count - 1, fixed, e.id);
        PlusBitBits(GlobalMask(table, count - 1, fixed), e.id, k);
      }
    }
  }

  lemma HasIdOneMore(table: seq<Entry>, count: nat, k: bv8)
    requires count < |table|
    ensures HasId(table, count + 1, k) == (HasId(table, count, k) || (table[count].custom && table[count].id == k))
  {
  }

  lemma {:induction false} SelectedRow(table: seq<Entry>, count: nat, c: nat, v: bv64)
    requires TableOk(table) && DistinctSelects(table) && c < count <= N_CUSTOM_CTR && table[c].custom
    ensures Selected(table, count, table[c].cfgReg, v) == Pack(EventFields(table[c]))
    decreases count
  {
    if c < count - 1 { SelectedRow(table, count - 1, c, v); }
  }

  /** After configure_counters(set): the counters stand at zero, the select register of every
      custom row unpacks to that row's event and unit mask with user mode, edge detection and
      enable set and all else clear, and the global mask has exactly the rows' bits. */
  lemma ConfiguredMeaning(r: Regs, table: seq<Entry>, fixed: nat)
    requires Supports(r) && TableOk(table) && DistinctSelects(table) && DistinctIds(table, fixed)
    ensures var s := Configured(r, Always, true, table, fixed);
            && s.Keys == r.Keys
            && (forall a :: IsPmc(a) ==> s[a] == 0)
            && (forall c :: 0 <= c < N_CUSTOM_CTR && table[c].custom ==>
                  Unpack(s[table[c].cfgReg]) == EventFields(table[c]))
            && (forall k: bv8 :: k < 64 ==> Bit(s[IA32_CR_PERF_GLOBAL_CTRL], k)
                                            == (FixedBit(k, fixed) || HasId(table, N_CUSTOM_CTR, k)))
  {
    hide Pack, Unpack, EventFields, Bit, GlobalMask, FixedFields;
    var s := Configured(r, Always, true, table, fixed);
    forall c | 0 <= c < N_CUSTOM_CTR && table[c].custom
      ensures Unpack(s[table[c].cfgReg]) == EventFields(table[c])
    {
      assert SelectAddress(table[c].cfgReg);
      SelectedRow(table, N_CUSTOM_CTR, c, r[table[c].cfgReg]);
      PackUnpack(EventFields(table[c]), 0);
    }
    forall k: bv8 | k < 64
      ensures Bit(s[IA32_CR_PERF_GLOBAL_CTRL], k) == (FixedBit(k, fixed) || HasId(table, N_CUSTOM_CTR, k))
    {
      MaskBits(table, N_CUSTOM_CTR, fixed, k);
    }
  }

  /** A register configure_counters(set) programs. */
  predicate Programmed(table: seq<Entry>, a: int)
    requires TableOk(table)
  {
    a == IA32_CR_PERF_GLOBAL_CTRL || a == IA32_CR_FIXED_CTR_CTRL || IsPmc(a)
    || exists c :: 0 <= c < N_CUSTOM_CTR && table[c].custom && table[c].cfgReg == a
  }

  lemma {:induction false} SelectedForgets(table: seq<Entry>, count: nat, a: int, v: bv64, w: bv64)
    requires TableOk(table) && count <= N_CUSTOM_CTR
    requires exists c :: 0 <= c < count && table[c].custom && table[c].cfgReg == a
    ensures Selected(table, count, a, v) == Selected(table, count, a, w)
  {
    if !(table[count - 1].custom && table[count - 1].cfgReg == a) {
      SelectedForgets(table, count - 1, a, v, w);
    }
  }

  /** The programmed registers depend on the table alone, all others keep what they held. */
  lemma ConfiguredForgetsThePast(r: Regs, r': Regs, table: seq<Entry>, fixed: nat, a: int)
    requires Supports(r) && Supports(r') && TableOk(table) && a in r && a in r'
    ensures var s, s' := Configured(r, Always, true, table, fixed), Configured(r', Always, true, table, fixed);
            if Programmed(table, a) then s[a] == s'[a] else s[a] == r[a] && s'[a] == r'[a]
  {
    hide Pack, EventFields, FixedFields, GlobalMask;
    if exists c :: 0 <= c < N_CUSTOM_CTR && table[c].custom && table[c].cfgReg == a {
      SelectedForgets(table, N_CUSTOM_CTR, a, r[a], r'[a]);
    } else {
      NotSelected(table, N_CUSTOM_CTR, a);
    }
  }

  /** From configure_counters(set == false) on, with no further register writes, no environment
      of any duration moves a counter off zero. */
  lemma {:induction false} ClearedForGood(r: Regs, variant: Variant, table: seq<Entry>, fixed: nat, bumps: seq<Bumps>)
    requires Supports(r) && TableOk(table)
    ensures var s := Configured(r, variant, false, table, fixed);
            Ticks(s, bumps) == s && forall a :: IsPmc(a) ==> a in s && s[a] == 0
    decreases |bumps|
  {
    var s := Configured(r, variant, false, table, fixed);
    if bumps != [] {
      ClearedForGood(r, variant, table, fixed, bumps[..|bumps| - 1]);
      NoTick(s, bumps[|bumps| - 1]);
    }
  }

  function Ticks(r: Regs, bumps: seq<Bumps>): Regs {
    if bumps == [] then r else Tick(Ticks(r, bumps[..|bumps| - 1]), bumps[|bumps| - 1])
  }

  /** No os, usr or enable_pmi bit is set, and yet some bit that will not be reprogrammed is:
      any_thread of a fixed counter that is not configured, or a reserved bit. */
  predicate Lingers(f: FixedControl, enable: bool, fixed: nat) {
    var configured := if enable then fixed else 0;
    && !InUse(f)
    && (f.reserved1 != 0 || (f.anyThread0 != 0 && configured <= 0) || (f.anyThread1 != 0 && configured <= 1)
        || (f.anyThread2 != 0 && configured <= 2))
  }

  /** Equal control words have equal fields, and conversely. */
  lemma FixedInjective(f: FixedControl, g: FixedControl, v: bv64, w: bv64)
    ensures PackFixed(f) == PackFixed(g) <==> f == g
    ensures UnpackFixed(v) == UnpackFixed(w) <==> v == w
  {
    hide PackFixed, UnpackFixed;
    PackUnpackFixed(f, v);
    PackUnpackFixed(g, w);
  }

  lemma SameFixedFields(v: bv64, w: bv64, fixed: nat)
    ensures FixedFields(v, fixed) == FixedFields(w, fixed)
            <==> UserOnly(UnpackFixed(v), fixed) == UserOnly(UnpackFixed(w), fixed)
    ensures v == w <==> UnpackFixed(v) == UnpackFixed(w)
  {
    hide PackFixed, UnpackFixed, UserOnly;
    FixedInjective(UserOnly(UnpackFixed(v), fixed), UserOnly(UnpackFixed(w), fixed), v, w);
  }

  /** What the two variants leave in the control register. */
  lemma FixedDifference(v: bv64, enable: bool, fixed: nat)
    ensures var x, y := FixedCleared(Always, v), FixedCleared(Conditional, v);
            (if enable then FixedFields(x, fixed) == FixedFields(y, fixed) else x == y)
            <==> !Lingers(UnpackFixed(v), enable, fixed)
  {
    hide PackFixed, UnpackFixed, FixedFields;
    SameFixedFields(0, FixedCleared(Conditional, v), fixed);
    UnpackFixedZero();
  }

  /** The two variants leave the same state, except exactly when some bit lingers: then the
      conditional variant skips its write and leaves that bit in place. */
  lemma VariantsAgree(r: Regs, enable: bool, table: seq<Entry>, fixed: nat)
    requires Supports(r) && TableOk(table)
    ensures Configured(r, Always, enable, table, fixed) == Configured(r, Conditional, enable, table, fixed)
            <==> !Lingers(UnpackFixed(r[IA32_CR_FIXED_CTR_CTRL]), enable, fixed)
  {
    hide Pack, EventFields, FixedFields, GlobalMask, UnpackFixed, Lingers, FixedCleared;
    FixedDifference(r[IA32_CR_FIXED_CTR_CTRL], enable, fixed);
    var x := Configured(r, Always, enable, table, fixed);
    var y := Configured(r, Conditional, enable, table, fixed);
    assert forall a :: a in r && a != IA32_CR_FIXED_CTR_CTRL ==> x[a] == y[a];
    assert x == y <==> x[IA32_CR_FIXED_CTR_CTRL] == y[IA32_CR_FIXED_CTR_CTRL];
  }

  // ---------- The table of the program ----------

  const COUNTER_TBL: seq<Entry> := [
    Entry("L2_REFS", true, 0x24, 0xFF, 0x186, 0xC1, 0),
    Entry("L2_MISSES", true, 0x24, 0x3F, 0x187, 0xC2, 1),
    Entry("L2_RFO_HITS", true, 0x24, 0x42, 0x188, 0xC3, 2),
    Entry("L2_RFO_MISSES", true, 0x24, 0x22, 0x189, 0xC4, 3),
    Entry("OFFCORE_RFO", true, 0xB0, 0x04, 0x18A, 0xC5, 4),
    Entry("L3_REFS", true, 0x2E, 0x4F, 0x18B, 0xC6, 5),
    Entry("L2_PF_HITS", true, 0x24, 0x50, 0x18C, 0xC7, 6),
    Entry("L2_PF_MISSES", true, 0x24, 0x30, 0x18D, 0xC8, 7),
    Entry("", false, 0, 0, 0, 0, 0)
  ]

  /** The program's own table meets the conditions. */
  lemma ShippedTableOk()
    ensures TableOk(COUNTER_TBL) && DistinctSelects(COUNTER_TBL) && DistinctIds(COUNTER_TBL, 0)
  {
    ShippedSelects();
    ShippedIds();
  }

  lemma ShippedSelects()
    ensures TableOk(COUNTER_TBL) && DistinctSelects(COUNTER_TBL)
  {
    assert forall c :: 0 <= c < N_CUSTOM_CTR ==> COUNTER_TBL[c].cfgReg == IA32_PERFEVTSEL0_ADDR + c;
  }

  lemma ShippedIdsDiffer(c: nat, d: nat)
    requires c < d < N_CUSTOM_CTR
    ensures COUNTER_TBL[c].id != COUNTER_TBL[d].id
  {
  }

  lemma ShippedIds()
    ensures TableOk(COUNTER_TBL) && DistinctIds(COUNTER_TBL, 0)
  {
    hide COUNTER_TBL;
    ShippedSelects();
    forall c, d | 0 <= c < d < N_CUSTOM_CTR
      ensures COUNTER_TBL[c].id != COUNTER_TBL[d].id
    {
      ShippedIdsDiffer(c, d);
    }
  }

  /** It enables the counters 0 to 7 and nothing else. */
  lemma ShippedMask(k: bv8)
    requires k < 64
    ensures TableOk(COUNTER_TBL) && Bit(GlobalMask(COUNTER_TBL, N_CUSTOM_CTR, 0), k) == (k < 8)
  {
    hide GlobalMask, Bit;
    ShippedTableOk();
    MaskBits(COUNTER_TBL, N_CUSTOM_CTR, 0, k);
    if k < 8 {
      assert COUNTER_TBL[k as int].id == k;
    }
  }

  // ---------- The same in numbers ----------

  /** The word for a select register: unit mask and event below the bits 16, 18 and 22 for user
      mode, edge detection and enable. */
  function SelectWord(umask: bv64, evtnr: bv64): bv64 {
    0x450000 + 256 * (umask % 256) + evtnr % 256
  }

  function Merged(umask: bv8, evtnr: bv8): bv64 {
    0x450000 | (umask as bv64 << 8) | (evtnr as bv64)
  }

  lemma PackMerges(umask: bv8, evtnr: bv8)
    ensures Pack(EventSelect(evtnr, umask, 1, 0, 1, 0, 0, 0, 1, 0, 0, 0, 0, 0)) == Merged(umask, evtnr)
  {
  }

  lemma MergedIsSum(umask: bv64, evtnr: bv64)
    ensures Merged(LowByte(umask), LowByte(evtnr)) == SelectWord(umask, evtnr)
  {
  }

  function LowByte(x: bv64): bv8 {
    (x & 0xff) as bv8
  }

  lemma FieldsByByte(e: Entry)
    ensures EventFields(e)
            == EventSelect(LowByte(e.evtnr), LowByte(e.umask), 1, 0, 1, 0, 0, 0, 1, 0, 0, 0, 0, 0)
  {
  }

  lemma PackedWord(e: Entry)
    ensures Pack(EventFields(e)) == SelectWord(e.umask, e.evtnr)
  {
    hide Pack, Merged, SelectWord, LowByte, EventFields;
    FieldsByByte(e);
    PackMerges(LowByte(e.umask), LowByte(e.evtnr));
    MergedIsSum(e.umask, e.evtnr);
  }

  lemma SelectWordBits(umask: bv64, evtnr: bv64)
    ensures var word := SelectWord(umask, evtnr);
            && Bit(word, 16) && !Bit(word, 17) && Bit(word, 18) && !Bit(word, 19) && !Bit(word, 20)
            && !Bit(word, 21) && Bit(word, 22) && word >> 23 == 0
            && word & 0xff == evtnr & 0xff && (word >> 8) & 0xff == umask & 0xff
  {
  }

  lemma SelectWordEnables(umask: bv64, evtnr: bv64)
    ensures Bit(SelectWord(umask, evtnr), 22)
  {
    SelectWordBits(umask, evtnr);
  }

  /** After configure_counters(set) the select register of every custom row holds its unit mask
      and event below the bits for user mode, edge detection and enable. */
  lemma ConfiguredWords(r: Regs, variant: Variant, table: seq<Entry>, fixed: nat, c: nat)
    requires Supports(r) && TableOk(table) && DistinctSelects(table) && c < N_CUSTOM_CTR && table[c].custom
    ensures var s := Configured(r, variant, true, table, fixed);
            && table[c].cfgReg in s
            && s[table[c].cfgReg] == SelectWord(table[c].umask, table[c].evtnr)
  {
    hide Pack, EventFields, GlobalMask, FixedFields, FixedCleared, SelectWord;
    assert SelectAddress(table[c].cfgReg);
    SelectedRow(table, N_CUSTOM_CTR, c, r[table[c].cfgReg]);
    PackedWord(table[c]);
  }

  /** The counter of every custom row then counts: row by row, when position k goes with the k-th
      select register. */
  lemma ConfiguredCounts(r: Regs, variant: Variant, table: seq<Entry>, fixed: nat, c: nat, k: nat)
    requires Supports(r) && TableOk(table) && DistinctSelects(table) && DistinctIds(table, fixed)
    requires c < N_CUSTOM_CTR && table[c].custom
    requires k < 8 && table[c].id == k as bv8 && table[c].cfgReg == 0x186 + k
    ensures Enabled(Configured(r, variant, true, table, fixed), 0xC1 + k)
  {
    hide Pack, EventFields, GlobalMask, FixedFields, FixedCleared, Bit, Configured, SelectWord;
    ConfiguredWords(r, variant, table, fixed, c);
    SelectWordEnables(table[c].umask, table[c].evtnr);
    MaskBits(table, N_CUSTOM_CTR, fixed, k as bv8);
    ConfiguredMask(r, variant, table, fixed);
  }

  lemma ConfiguredMask(r: Regs, variant: Variant, table: seq<Entry>, fixed: nat)
    requires Supports(r) && TableOk(table)
    ensures var s := Configured(r, variant, true, table, fixed);
            0x38F in s && s[0x38F] == GlobalMask(table, N_CUSTOM_CTR, fixed)
  {
    hide Pack, EventFields, GlobalMask, FixedFields, FixedCleared, Selected;
  }

  /** The environment does count: an enabled counter advances. */
  lemma EnabledAdvances(r: Regs, b: Bumps, k: nat)
    requires k < 8 && 0xC1 + k in r && 0xC1 + k in b && Enabled(r, 0xC1 + k)
    ensures Tick(r, b)[0xC1 + k] == r[0xC1 + k] + b[0xC1 + k]
  {
  }

  /** The fixed counters in numbers: user mode for each of those configured, and their bits from
      32 on in the global mask. */
  lemma FixedInNumbers(fixed: nat)
    ensures FixedFields(0, fixed) == if fixed == 0 then 0 else if fixed == 1 then 0x2
                                     else if fixed == 2 then 0x22 else 0x222
    ensures FixedMask(fixed) == if fixed == 0 then 0 else if fixed == 1 then 0x1_0000_0000
                                else if fixed == 2 then 0x3_0000_0000 else 0x7_0000_0000
  {
  }

  /** When the variants differ, in numbers: the os, usr and enable_pmi bits are those of 0xBBB, and
      the conditional variant leaves any other bit that is not reprogrammed. */
  lemma LingersInNumbers(v: bv64, enable: bool, fixed: nat)
    ensures InUse(UnpackFixed(v)) <==> v & 0xBBB != 0
    ensures Lingers(UnpackFixed(v), enable, fixed)
            <==> v & 0xBBB == 0 && v & LingerMask(if enable then fixed else 0) != 0
  {
  }

  function LingerMask(configured: nat): bv64 {
    if configured == 0 then 0xFFFF_FFFF_FFFF_F444
    else if configured == 1 then 0xFFFF_FFFF_FFFF_F440
    else if configured == 2 then 0xFFFF_FFFF_FFFF_F400
    else 0xFFFF_FFFF_FFFF_F000
  }

  /** Row c of the shipped table programs select register 0x186 + c and reads counter 0xC1 + c,
      whose position is c. */
  lemma ShippedRows(c: nat)
    requires c < 8
    ensures var e := COUNTER_TBL[c];
            e.custom && e.cfgReg == 0x186 + c && e.pmc == 0xC1 + c && e.id == c as bv8
  {
  }

  const SHIPPED_WORDS: seq<bv64> :=
    [0x45FF24, 0x453F24, 0x454224, 0x452224, 0x4504B0, 0x454F2E, 0x455024, 0x453024]

  /** What configure_counters(set) leaves in a processor with the shipped table, register by
      register: the eight counters at zero and enabled, the eight select words, the mask 0xFF, and
      the fixed counters off. */
  lemma ShippedState(r: Regs, c: nat)
    requires Supports(r) && c < 8
    ensures TableOk(COUNTER_TBL)
    ensures var s := Configured(r, Always, true, COUNTER_TBL, 0);
            && 0xC1 + c in s && 0x186 + c in s && 0x38D in s && 0x38F in s
            && s[0xC1 + c] == 0 && s[0x186 + c] == SHIPPED_WORDS[c] && s[0x38D] == 0 && s[0x38F] == 0xFF
            && Enabled(s, 0xC1 + c)
  {
    hide Configured, COUNTER_TBL, SHIPPED_WORDS, GlobalMask, Enabled, Bit, SelectWord;
    ShippedTableOk();
    ShippedRows(c);
    ShippedWord(c);
    ConfiguredWords(r, Always, COUNTER_TBL, 0, c);
    ConfiguredCounts(r, Always, COUNTER_TBL, 0, c, c);
    ConfiguredMask(r, Always, COUNTER_TBL, 0);
    ShippedMaskIs();
    ConfiguredRest(r, COUNTER_TBL, c);
  }

  lemma ShippedWord(c: nat)
    requires c < 8
    ensures SHIPPED_WORDS[c] == SelectWord(COUNTER_TBL[c].umask, COUNTER_TBL[c].evtnr)
  {
  }

  lemma ConfiguredRest(r: Regs, table: seq<Entry>, c: nat)
    requires Supports(r) && TableOk(table) && c < 8
    ensures var s := Configured(r, Always, true, table, 0);
            0xC1 + c in s && s[0xC1 + c] == 0 && 0x38D in s && s[0x38D] == 0
  {
    hide Pack, EventFields, GlobalMask, FixedFields, Selected;
    assert IsPmc(0xC1 + c);
    FixedInNumbers(0);
  }

  lemma ShippedMaskIs()
    ensures TableOk(COUNTER_TBL) && GlobalMask(COUNTER_TBL, N_CUSTOM_CTR, 0) == 0xFF
  {
    ShippedTableOk();
    hide COUNTER_TBL;
    assert GlobalMask(COUNTER_TBL, 0, 0) == 0;
    OneMoreId(0, 0x0, 0x1);
    OneMoreId(1, 0x1, 0x3);
    OneMoreId(2, 0x3, 0x7);
    OneMoreId(3, 0x7, 0xF);
    OneMoreId(4, 0xF, 0x1F);
    OneMoreId(5, 0x1F, 0x3F);
    OneMoreId(6, 0x3F, 0x7F);
    OneMoreId(7, 0x7F, 0xFF);
  }

  lemma OneMoreId(c: nat, before: bv64, after: bv64)
    requires c < 8 && TableOk(COUNTER_TBL) && GlobalMask(COUNTER_TBL, c, 0) == before
    requires after == PlusBit(before, c as bv8)
    ensures GlobalMask(COUNTER_TBL, c + 1, 0) == after
  {
    ShippedRows(c);
    hide COUNTER_TBL, PlusBit;
  }
}
