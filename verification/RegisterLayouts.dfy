/** Addresses and bit layouts of the performance-monitoring registers. */
module RegisterLayouts {

  const PERF_MAX_CUSTOM_COUNTERS: nat := 8
  const N_CUSTOM_CTR: nat := 8

  const IA32_CR_FIXED_CTR_CTRL: nat := 0x38D
  const IA32_CR_PERF_GLOBAL_CTRL: nat := 0x38F
  const IA32_PMC0: nat := 0xC1
  const IA32_PERFEVTSEL0_ADDR: nat := 0x186

  /** IA32_PERFEVTSELx, least significant field first. */
  datatype EventSelect = EventSelect(
    eventSelect: bv8, umask: bv8, usr: bv1, os: bv1, edge: bv1, pinControl: bv1, apicInt: bv1,
    anyThread: bv1, enable: bv1, invert: bv1, cmask: bv8, inTx: bv1, inTxcp: bv1, reserved: bv30)

  function Pack(e: EventSelect): bv64 {
    (e.eventSelect as bv64) | (e.umask as bv64 << 8) | (e.usr as bv64 << 16) | (e.os as bv64 << 17)
    | (e.edge as bv64 << 18) | (e.pinControl as bv64 << 19) | (e.apicInt as bv64 << 20)
    | (e.anyThread as bv64 << 21) | (e.enable as bv64 << 22) | (e.invert as bv64 << 23)
    | (e.cmask as bv64 << 24) | (e.inTx as bv64 << 32) | (e.inTxcp as bv64 << 33) | (e.reserved as bv64 << 34)
  }

  function Unpack(v: bv64): EventSelect {
    EventSelect((v & 0xff) as bv8, ((v >> 8) & 0xff) as bv8, ((v >> 16) & 1) as bv1, ((v >> 17) & 1) as bv1,
                ((v >> 18) & 1) as bv1, ((v >> 19) & 1) as bv1, ((v >> 20) & 1) as bv1, ((v >> 21) & 1) as bv1,
                ((v >> 22) & 1) as bv1, ((v >> 23) & 1) as bv1, ((v >> 24) & 0xff) as bv8,
                ((v >> 32) & 1) as bv1, ((v >> 33) & 1) as bv1, (v >> 34) as bv30)
  }

  /** The layout covers the 64 bits, each exactly once. */
  lemma PackUnpack(e: EventSelect, v: bv64)
    ensures Unpack(Pack(e)) == e
    ensures Pack(Unpack(v)) == v
  {
  }

  /** IA32_FIXED_CTR_CTRL: four bits for each of the three fixed counters. */
  datatype FixedControl = FixedControl(
    os0: bv1, usr0: bv1, anyThread0: bv1, enablePmi0: bv1,
    os1: bv1, usr1: bv1, anyThread1: bv1, enablePmi1: bv1,
    os2: bv1, usr2: bv1, anyThread2: bv1, enablePmi2: bv1, reserved1: bv52)

  function PackFixed(f: FixedControl): bv64 {
    (f.os0 as bv64) | (f.usr0 as bv64 << 1) | (f.anyThread0 as bv64 << 2) | (f.enablePmi0 as bv64 << 3)
    | (f.os1 as bv64 << 4) | (f.usr1 as bv64 << 5) | (f.anyThread1 as bv64 << 6) | (f.enablePmi1 as bv64 << 7)
    | (f.os2 as bv64 << 8) | (f.usr2 as bv64 << 9) | (f.anyThread2 as bv64 << 10) | (f.enablePmi2 as bv64 << 11)
    | (f.reserved1 as bv64 << 12)
  }

  function UnpackFixed(v: bv64): FixedControl {
    FixedControl((v & 1) as bv1, ((v >> 1) & 1) as bv1, ((v >> 2) & 1) as bv1, ((v >> 3) & 1) as bv1,
                 ((v >> 4) & 1) as bv1, ((v >> 5) & 1) as bv1, ((v >> 6) & 1) as bv1, ((v >> 7) & 1) as bv1,
                 ((v >> 8) & 1) as bv1, ((v >> 9) & 1) as bv1, ((v >> 10) & 1) as bv1, ((v >> 11) & 1) as bv1,
                 (v >> 12) as bv52)
  }

  lemma PackUnpackFixed(f: FixedControl, v: bv64)
    ensures UnpackFixed(PackFixed(f)) == f
    ensures PackFixed(UnpackFixed(v)) == v
  {
  }

  lemma UnpackFixedZero()
    ensures UnpackFixed(0) == FixedControl(0, 0, 0, 0, 0, 0, 0, 0, 0, 0, 0, 0, 0)
  {
  }

  predicate Bit(v: bv64, k: bv8)
    requires k < 64
  {
    (v >> k) & 1 == 1
  }

  /** Adding a power of two to a word whose bit is clear sets that bit and carries nowhere. */
  lemma AddBit(v: bv64, id: bv8, k: bv8)
    requires id < 64 && k < 64 && !Bit(v, id)
    ensures Bit(v + (1 << id), k) == (Bit(v, k) || k == id)
  {
  }

  /** A row of the counter table; only the custom (programmable) ones configure a register. */
  datatype Entry = Entry(name: string, custom: bool, evtnr: bv64, umask: bv64, cfgReg: int, pmc: int, id: bv8)

  /** The select word the program builds for a table row: all fields cleared, then the event and
      the unit mask truncated to their 8 bits, user mode, edge detection and enable set. */
  function EventFields(e: Entry): EventSelect {
    EventSelect((e.evtnr & 0xff) as bv8, (e.umask & 0xff) as bv8, 1, 0, 1, 0, 0, 0, 1, 0, 0, 0, 0, 0)
  }
}
