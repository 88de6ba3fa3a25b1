/** Page table entries: the contract the generic page table relies on, and the RISC-V
    (Sv39/Sv48) and AArch64 (VMSAv8-64) entries that meet it. An entry is its 64-bit word as
    a number; the fields that the source joins with `|` do not overlap, so they are added. */
module PageTableEntry {
  import opened Arith

  type Word = nat

  datatype MappingFlags = MappingFlags(read: bool, write: bool, execute: bool, user: bool, device: bool)

  /** The operations of `GenericPTE`, and what the format can hold: the addresses that fit
      its address field, the flags that make a present leaf, and the flags that come back. */
  datatype PteFormat = PteFormat(
    newPage: (nat, MappingFlags, bool) -> Word,
    newTable: nat -> Word,
    paddr: Word -> nat,
    flags: Word -> MappingFlags,
    isPresent: Word -> bool,
    isHuge: Word -> bool,
    physLimit: nat,
    mappable: MappingFlags -> bool,
    stored: MappingFlags -> MappingFlags)

  /** An entry is unused exactly when it is zero, in every format. */
  predicate IsUnused(e: Word) {
    e == 0
  }

  /** A 4K-aligned physical address that fits the format's address field. */
  predicate Fits(fmt: PteFormat, p: nat) {
    p % 4096 == 0 && p < fmt.physLimit
  }

  ghost predicate PageLaw(fmt: PteFormat, p: nat, f: MappingFlags, huge: bool) {
    Fits(fmt, p) && fmt.mappable(f) ==>
      var e := fmt.newPage(p, f, huge);
      && !IsUnused(e) && fmt.isPresent(e) && (huge ==> fmt.isHuge(e))
      && fmt.paddr(e) == p && fmt.flags(e) == fmt.stored(f)
  }

  ghost predicate TableLaw(fmt: PteFormat, p: nat) {
    Fits(fmt, p) ==>
      var e := fmt.newTable(p);
      !IsUnused(e) && fmt.isPresent(e) && !fmt.isHuge(e) && fmt.paddr(e) == p
  }

  /** What the page table needs of an entry format. `isHuge` of an unused entry and of a 4K
      leaf is left open. */
  ghost predicate Lawful(fmt: PteFormat) {
    && !fmt.isPresent(0)
    && (forall p, f, huge :: PageLaw(fmt, p, f, huge))
    && (forall p :: TableLaw(fmt, p))
  }

  /** Bit `mask`, a power of two, of the word. */
  predicate Has(e: Word, mask: nat)
    requires mask > 0
  {
    e / mask % 2 == 1
  }

  function Bit(on: bool, mask: nat): nat {
    if on then mask else 0
  }

  /** A field that starts above bit `mask` does not change that bit. */
  lemma LowBit(low: nat, up: nat, mask: nat, h: nat)
    requires mask > 0
    ensures Has(low + up * (2 * mask * h), mask) == Has(low, mask)
  {
    var k := up * h;
    assert up * (2 * mask * h) == (2 * k) * mask;
    AddMultiple(low, 2 * k, mask);
    Parity(low / mask, k);
  }

  lemma Parity(x: nat, k: nat)
    ensures (x + 2 * k) % 2 == x % 2
  {
  }

  // ----- RISC-V -----

  const RV_V := 0x01
  const RV_R := 0x02
  const RV_W := 0x04
  const RV_X := 0x08
  const RV_U := 0x10
  const RV_A := 0x40
  const RV_D := 0x80

  function RvFlags(f: MappingFlags): nat {
    if f == MappingFlags(false, false, false, false, false) then 0
    else RV_V + Bit(f.read, RV_R) + Bit(f.write, RV_W) + Bit(f.execute, RV_X) + Bit(f.user, RV_U)
  }

  /** Address bits 12..56 in entry bits 10..54. */
  function RvPpn(p: nat): nat {
    p / 0x1000 % 0x1000_0000_0000 * 0x400
  }

  function RvNewPage(p: nat, f: MappingFlags, huge: bool): Word {
    RvFlags(f) + RV_A + RV_D + RvPpn(p)
  }

  function RvNewTable(p: nat): Word {
    RV_V + RvPpn(p)
  }

  function RvPaddr(e: Word): nat {
    e / 0x400 % 0x1000_0000_0000 * 0x1000
  }

  function RvMappingFlags(e: Word): MappingFlags {
    MappingFlags(Has(e, RV_R), Has(e, RV_W), Has(e, RV_X), Has(e, RV_U), false)
  }

  function Riscv(): PteFormat {
    PteFormat(RvNewPage, RvNewTable, RvPaddr, RvMappingFlags,
              (e: Word) => Has(e, RV_V),
              (e: Word) => Has(e, RV_R) || Has(e, RV_X),
              0x0100_0000_0000_0000,
              (f: MappingFlags) => f.read || f.execute,
              (f: MappingFlags) => f.(device := false))
  }

  /** Adding an address field above bit 10 changes no lower bit. */
  lemma RvLowBits(low: nat, ppn: nat)
    requires low < 0x400 && ppn < 0x1000_0000_0000
    ensures var e := low + ppn * 0x400;
            && Has(e, RV_V) == Has(low, RV_V) && Has(e, RV_R) == Has(low, RV_R) && Has(e, RV_W) == Has(low, RV_W)
            && Has(e, RV_X) == Has(low, RV_X) && Has(e, RV_U) == Has(low, RV_U)
            && RvPaddr(e) == ppn * 0x1000
  {
    hide Has;
    LowBit(low, ppn, RV_V, 0x200);
    LowBit(low, ppn, RV_R, 0x100);
    LowBit(low, ppn, RV_W, 0x80);
    LowBit(low, ppn, RV_X, 0x40);
    LowBit(low, ppn, RV_U, 0x20);
  }

  lemma RvFlagBits(f: MappingFlags)
    requires f.read || f.execute
    ensures var low := RvFlags(f) + RV_A + RV_D;
            low < 0x400 && Has(low, RV_V) && RvMappingFlags(low) == f.(device := false)
  {
  }

  /** Every readable or executable mapping survives the RISC-V encoding, except DEVICE. */
  lemma RiscvLawful()
    ensures Lawful(Riscv())
  {
    hide Has, RvFlags, RvPaddr;
    var fmt := Riscv();
    assert !Has(0, RV_V) by { RvZero(); }
    forall p: nat, f, huge ensures PageLaw(fmt, p, f, huge) {
      if Fits(fmt, p) && fmt.mappable(f) {
        RvFlagBits(f);
        RvLowBits(RvFlags(f) + RV_A + RV_D, p / 0x1000);
      }
    }
    forall p: nat ensures TableLaw(fmt, p) {
      if Fits(fmt, p) {
        RvZero();
        RvLowBits(RV_V, p / 0x1000);
      }
    }
  }

  /** Bits `d..d * n` of a word do not feel what is added from bit `d * n * h` on. */
  lemma LowField(low: nat, up: nat, d: nat, n: nat, h: nat)
    requires d > 0 && n > 0
    ensures (low + up * (d * n * h)) / d % n == low / d % n
  {
    Shuffle(up, d, n, h);
    DigitParts(low + up * (d * n * h), d, n, up * h, low);
  }

  /** A leaf of section 4.4 of the RISC-V Privileged Architecture, bit by bit from V up to the page
      number: accessed and dirty are set, global and the software bits clear. */
  lemma RvPageBits(p: nat, f: MappingFlags, huge: bool)
    requires p % 0x1000 == 0 && p < 0x100_0000_0000_0000 && (f.read || f.execute)
    ensures var e := Riscv().newPage(p, f, huge);
            && e % 2 == 1
            && (e / 2 % 2 == 1 <==> f.read) && (e / 4 % 2 == 1 <==> f.write) && (e / 8 % 2 == 1 <==> f.execute)
            && (e / 16 % 2 == 1 <==> f.user)
            && e / 32 % 2 == 0 && e / 64 % 2 == 1 && e / 128 % 2 == 1 && e / 256 % 4 == 0
            && e / 0x400 == p / 0x1000
  {
    var low, ppn := RvFlags(f) + RV_A + RV_D, p / 0x1000;
    RvLowValue(f);
    assert Riscv().newPage(p, f, huge) == low + ppn * 0x400;
    Quotient(ppn, low, 0x400);
    RvLowFields(low, ppn);
    RvLowDigits(f);
    hide RvFlags, RvNewPage, Bit;
  }

  lemma RvLowFields(low: nat, ppn: nat)
    requires low < 0x400
    ensures var e := low + ppn * 0x400;
            && e % 2 == low % 2 && e / 2 % 2 == low / 2 % 2 && e / 4 % 2 == low / 4 % 2 && e / 8 % 2 == low / 8 % 2
            && e / 16 % 2 == low / 16 % 2 && e / 32 % 2 == low / 32 % 2 && e / 64 % 2 == low / 64 % 2
            && e / 128 % 2 == low / 128 % 2 && e / 256 % 4 == low / 256 % 4
  {
    LowField(low, ppn, 1, 2, 0x200);
    LowField(low, ppn, 2, 2, 0x100);
    LowField(low, ppn, 4, 2, 0x80);
    LowField(low, ppn, 8, 2, 0x40);
    LowField(low, ppn, 16, 2, 0x20);
    LowField(low, ppn, 32, 2, 0x10);
    LowField(low, ppn, 64, 2, 0x8);
    LowField(low, ppn, 128, 2, 0x4);
    LowField(low, ppn, 256, 4, 1);
  }

  lemma RvLowValue(f: MappingFlags)
    requires f.read || f.execute
    ensures RvFlags(f) + RV_A + RV_D == 0xC1 + Bit(f.read, 2) + Bit(f.write, 4) + Bit(f.execute, 8) + Bit(f.user, 16)
  {
  }

  lemma RvLowDigits(f: MappingFlags)
    requires f.read || f.execute
    ensures var low := RvFlags(f) + RV_A + RV_D;
            && low % 2 == 1
            && (low / 2 % 2 == 1 <==> f.read) && (low / 4 % 2 == 1 <==> f.write) && (low / 8 % 2 == 1 <==> f.execute)
            && (low / 16 % 2 == 1 <==> f.user)
            && low / 32 % 2 == 0 && low / 64 % 2 == 1 && low / 128 % 2 == 1 && low / 256 % 4 == 0
  {
  }

  /** A pointer to the next table has V and the page number, and nothing else. */
  lemma RvTableBits(p: nat)
    requires p % 0x1000 == 0 && p < 0x100_0000_0000_0000
    ensures Riscv().newTable(p) == 1 + p / 0x1000 * 0x400
  {
  }

  lemma RvZero()
    ensures !Has(0, RV_V) && Has(RV_V, RV_V) && !Has(RV_V, RV_R) && !Has(RV_V, RV_X)
  {
  }

  // ----- AArch64 -----

  const A64_VALID := 0x1
  const A64_NON_BLOCK := 0x2
  const A64_AP_EL0 := 0x40
  const A64_AP_RO := 0x80
  const A64_INNER := 0x100
  const A64_SHAREABLE := 0x200
  const A64_AF := 0x400
  const A64_PXN := 0x0020_0000_0000_0000
  const A64_UXN := 0x0040_0000_0000_0000

  /** Attribute index 0 for device memory; 1, and shareable, for normal memory. */
  function A64MemType(device: bool): nat {
    if device then 0 else 0x4 + A64_INNER + A64_SHAREABLE
  }

  /** The attribute bits below the address, and the execute-never bits above it. */
  function A64LowAttr(f: MappingFlags): nat {
    A64MemType(f.device) + Bit(f.read, A64_VALID) + Bit(!f.write, A64_AP_RO) + Bit(f.user, A64_AP_EL0)
  }

  function A64ExecuteNever(f: MappingFlags): nat {
    if f.user then A64_PXN + Bit(!f.execute, A64_UXN) else A64_UXN + Bit(!f.execute, A64_PXN)
  }

  /** Address bits 12..48, in place. */
  function A64Address(p: nat): nat {
    p / 0x1000 % 0x10_0000_0000 * 0x1000
  }

  function A64NewPage(p: nat, f: MappingFlags, huge: bool): Word {
    A64LowAttr(f) + A64_AF + Bit(!huge, A64_NON_BLOCK) + A64Address(p) + A64ExecuteNever(f)
  }

  function A64NewTable(p: nat): Word {
    A64_NON_BLOCK + A64_VALID + A64Address(p)
  }

  /** The source panics on an attribute index above 1, which no entry it builds has. */
  function A64MappingFlags(e: Word): MappingFlags {
    MappingFlags(
      Has(e, A64_VALID),
      !Has(e, A64_AP_RO),
      if Has(e, A64_AP_EL0) then !Has(e, A64_UXN) else !Has(e, A64_PXN),
      Has(e, A64_AP_EL0),
      e / 4 % 8 == 0)
  }

  function Aarch64(): PteFormat {
    PteFormat(A64NewPage, A64NewTable, A64Address, A64MappingFlags,
              (e: Word) => Has(e, A64_VALID),
              (e: Word) => !Has(e, A64_NON_BLOCK),
              0x1_0000_0000_0000,
              (f: MappingFlags) => f.read,
              (f: MappingFlags) => f)
  }

  /** Low attributes, address and execute-never bits do not disturb each other. */
  lemma A64Fields(low: nat, page: nat, high: nat)
    requires low < 0x1000 && page < 0x10_0000_0000 && high in {0, 1, 2, 3}
    ensures var e := low + page * 0x1000 + high * A64_PXN;
            && Has(e, A64_VALID) == Has(low, A64_VALID) && Has(e, A64_NON_BLOCK) == Has(low, A64_NON_BLOCK)
            && Has(e, A64_AP_EL0) == Has(low, A64_AP_EL0) && Has(e, A64_AP_RO) == Has(low, A64_AP_RO)
            && e / 4 % 8 == low / 4 % 8
            && A64Address(e) == page * 0x1000
            && Has(e, A64_PXN) == (high % 2 == 1) && Has(e, A64_UXN) == (high / 2 == 1)
  {
    var e := low + page * 0x1000 + high * A64_PXN;
    var up := page + high * 0x200_0000_0000;
    assert e == low + up * 0x1000;
    A64LowField(low, up);
    assert e / 0x1000 == up;
    assert e / A64_PXN == high;
    assert e / A64_UXN == high / 2;
  }

  lemma A64LowField(low: nat, up: nat)
    requires low < 0x1000
    ensures var e := low + up * 0x1000;
            && Has(e, A64_VALID) == Has(low, A64_VALID) && Has(e, A64_NON_BLOCK) == Has(low, A64_NON_BLOCK)
            && Has(e, A64_AP_EL0) == Has(low, A64_AP_EL0) && Has(e, A64_AP_RO) == Has(low, A64_AP_RO)
            && e / 4 % 8 == low / 4 % 8
  {
    hide Has;
    LowBit(low, up, A64_VALID, 0x800);
    LowBit(low, up, A64_NON_BLOCK, 0x400);
    LowBit(low, up, A64_AP_EL0, 0x20);
    LowBit(low, up, A64_AP_RO, 0x10);
    AddMultiple(low, up * 0x400, 4);
  }

  lemma A64LowBits(f: MappingFlags, huge: bool)
    requires f.read
    ensures var low := A64LowAttr(f) + A64_AF + Bit(!huge, A64_NON_BLOCK);
            && low < 0x1000 && Has(low, A64_VALID) && Has(low, A64_NON_BLOCK) == !huge
            && Has(low, A64_AP_RO) == !f.write && Has(low, A64_AP_EL0) == f.user
            && low / 4 % 8 == if f.device then 0 else 1
  {
    A64Low(f, huge);
    A64LowType(f, huge);
    A64LowAccess(f, huge);
    hide A64LowAttr, Bit;
  }

  /** Every readable mapping survives the AArch64 encoding unchanged. */
  lemma Aarch64Lawful()
    ensures Lawful(Aarch64())
  {
    hide Has, A64Address, A64LowAttr;
    var fmt := Aarch64();
    A64Zero();
    forall p: nat, f, huge ensures PageLaw(fmt, p, f, huge) {
      if Fits(fmt, p) && fmt.mappable(f) {
        A64LowBits(f, huge);
        var low := A64LowAttr(f) + A64_AF + Bit(!huge, A64_NON_BLOCK);
        var high := A64ExecuteNever(f) / A64_PXN;
        A64Fields(low, p / 0x1000, high);
        A64InPlace(p);
      }
    }
    forall p: nat ensures TableLaw(fmt, p) {
      if Fits(fmt, p) {
        A64Fields(A64_NON_BLOCK + A64_VALID, p / 0x1000, 0);
        A64InPlace(p);
      }
    }
  }

  lemma A64InPlace(p: nat)
    requires p % 0x1000 == 0 && p < 0x1_0000_0000_0000
    ensures A64Address(p) == p / 0x1000 * 0x1000 == p
  {
  }

  lemma A64Zero()
    ensures !Has(0, A64_VALID) && !Has(0, A64_NON_BLOCK)
    ensures Has(A64_NON_BLOCK + A64_VALID, A64_VALID) && Has(A64_NON_BLOCK + A64_VALID, A64_NON_BLOCK)
  {
  }

  /** A VMSAv8-64 block or page descriptor, field by field: type, AttrIndx, NS, AP, SH, AF, nG, output
      address, PXN and UXN. */
  lemma A64PageBits(p: nat, f: MappingFlags, huge: bool)
    requires p % 0x1000 == 0 && p < 0x1_0000_0000_0000 && f.read
    ensures var e := Aarch64().newPage(p, f, huge);
            && e % 4 == (if huge then 1 else 3) && e / 4 % 8 == (if f.device then 0 else 1) && e / 32 % 2 == 0
            && (e / 64 % 2 == 1 <==> f.user) && (e / 128 % 2 == 1 <==> !f.write)
            && e / 256 % 4 == (if f.device then 0 else 3) && e / 0x400 % 2 == 1 && e / 0x800 % 2 == 0
            && e / 0x1000 % 0x10_0000_0000 == p / 0x1000 && e / 0x1_0000_0000_0000 % 32 == 0
            && (e / 0x20_0000_0000_0000 % 2 == 1 <==> f.user || !f.execute)
            && (e / 0x40_0000_0000_0000 == 1 <==> !f.user || !f.execute) && e / 0x80_0000_0000_0000 == 0
  {
    var low := A64LowAttr(f) + A64_AF + Bit(!huge, A64_NON_BLOCK);
    var high := (if f.user || !f.execute then 1 else 0) + if !f.user || !f.execute then 2 else 0;
    var up := p / 0x1000 + high * 0x200_0000_0000;
    A64InPlace(p);
    assert Aarch64().newPage(p, f, huge) == low + up * 0x1000;
    A64LowDigits(f, huge);
    A64LowFields(low, up);
    A64HighFields(low, p / 0x1000, high);
  }

  lemma A64LowDigits(f: MappingFlags, huge: bool)
    requires f.read
    ensures var low := A64LowAttr(f) + A64_AF + Bit(!huge, A64_NON_BLOCK);
            && low < 0x1000
            && low % 4 == (if huge then 1 else 3) && low / 4 % 8 == (if f.device then 0 else 1) && low / 32 % 2 == 0
            && (low / 64 % 2 == 1 <==> f.user) && (low / 128 % 2 == 1 <==> !f.write)
            && low / 256 % 4 == (if f.device then 0 else 3) && low / 0x400 % 2 == 1 && low / 0x800 % 2 == 0
  {
    A64Low(f, huge);
    A64LowType(f, huge);
    A64LowAccess(f, huge);
    A64LowShare(f, huge);
  }

  lemma A64Low(f: MappingFlags, huge: bool)
    requires f.read
    ensures A64LowAttr(f) + A64_AF + Bit(!huge, A64_NON_BLOCK) < 0x1000
  {
  }

  lemma A64LowType(f: MappingFlags, huge: bool)
    requires f.read
    ensures var low := A64LowAttr(f) + A64_AF + Bit(!huge, A64_NON_BLOCK);
            low % 4 == (if huge then 1 else 3) && low / 4 % 8 == (if f.device then 0 else 1) && low / 32 % 2 == 0
  {
  }

  lemma A64LowAccess(f: MappingFlags, huge: bool)
    requires f.read
    ensures var low := A64LowAttr(f) + A64_AF + Bit(!huge, A64_NON_BLOCK);
            (low / 64 % 2 == 1 <==> f.user) && (low / 128 % 2 == 1 <==> !f.write)
  {
  }

  lemma A64LowShare(f: MappingFlags, huge: bool)
    requires f.read
    ensures var low := A64LowAttr(f) + A64_AF + Bit(!huge, A64_NON_BLOCK);
            low / 256 % 4 == (if f.device then 0 else 3) && low / 0x400 % 2 == 1 && low / 0x800 % 2 == 0
  {
  }

  lemma A64LowFields(low: nat, up: nat)
    requires low < 0x1000
    ensures var e := low + up * 0x1000;
            && e % 4 == low % 4 && e / 4 % 8 == low / 4 % 8 && e / 32 % 2 == low / 32 % 2
            && e / 64 % 2 == low / 64 % 2 && e / 128 % 2 == low / 128 % 2 && e / 256 % 4 == low / 256 % 4
            && e / 0x400 % 2 == low / 0x400 % 2 && e / 0x800 % 2 == low / 0x800 % 2
  {
    LowField(low, up, 1, 4, 0x400);
    LowField(low, up, 4, 8, 0x80);
    LowField(low, up, 32, 2, 0x40);
    LowField(low, up, 64, 2, 0x20);
    LowField(low, up, 128, 2, 0x10);
    LowField(low, up, 256, 4, 4);
    LowField(low, up, 0x400, 2, 2);
    LowField(low, up, 0x800, 2, 1);
  }

  lemma A64HighFields(low: nat, page: nat, high: nat)
    requires low < 0x1000 && page < 0x10_0000_0000 && high < 4
    ensures var e := low + (page + high * 0x200_0000_0000) * 0x1000;
            && e / 0x1000 % 0x10_0000_0000 == page && e / 0x1_0000_0000_0000 % 32 == 0
            && e / 0x20_0000_0000_0000 % 2 == high % 2 && e / 0x40_0000_0000_0000 == high / 2
            && e / 0x80_0000_0000_0000 == 0
  {
    var e, up := low + (page + high * 0x200_0000_0000) * 0x1000, page + high * 0x200_0000_0000;
    Quotient(up, low, 0x1000);
    Quotient(high * 32, page, 0x10_0000_0000);
    DivDiv(e, 0x1000, 0x10_0000_0000);
    Quotient(high, page * 0x1000 + low, 0x20_0000_0000_0000);
    DivDiv(e, 0x20_0000_0000_0000, 2);
    DivDiv(e, 0x20_0000_0000_0000, 4);
  }

  /** A table descriptor is its address and type, with no hierarchical attribute. */
  lemma A64TableBits(p: nat)
    requires p % 0x1000 == 0 && p < 0x1_0000_0000_0000
    ensures Aarch64().newTable(p) == p + 3
  {
    A64InPlace(p);
  }
}
