/** What the hardware makes of the tables: walks over the words in memory, written from the two
    architectures with literal bit positions, against the translation that `query` reports. Where an
    architecture lets an implementation fault, these walks fault. */
module PageHardware {
  import opened Arith
  import opened Options
  import opened PageTableEntry
  import opened PageWalk
  import opened PageMap
  import opened PageRuns

  /** Bytes that one entry covers: a 4K page, and nine bits more on each level. */
  function Reach(lv: Level): (n: nat)
    ensures n >= 4096
  {
    match lv
    case 1 => 4096
    case 2 => 4096 * 512
    case 3 => 4096 * 512 * 512
    case 4 => 4096 * 512 * 512 * 512
    case 5 => 4096 * 512 * 512 * 512 * 512
  }

  /** The word the walk reads in the table at `f`. */
  function Fetch(mem: map<nat, seq<Word>>, f: nat, lv: Level, va: nat): Word {
    var i := va / Reach(lv) % 512;
    if f in mem && i < |mem[f]| then mem[f][i] else 0
  }

  lemma SameEntry(mem: map<nat, seq<Word>>, f: nat, lv: Level, va: nat)
    ensures Reach(lv) == Size(lv) && Fetch(mem, f, lv, va) == Entry(mem, f, Index(va, lv))
  {
  }

  /** What an entry in order holds. */
  datatype Kind = Nothing | Page(p: nat, flags: MappingFlags) | Table(g: nat)

  /** The entry that serves `va` in table `f`, and what the walk of the source makes of it. */
  ghost predicate Holds(fmt: PteFormat, levels: Level, mem: map<nat, seq<Word>>, owner: map<nat, Loc>, f: nat, va: nat, k: Kind)
    requires f in owner
  {
    var lv := owner[f].level;
    var e := Entry(mem, f, Index(va, lv));
    var t := TranslateFrom(fmt, mem, f, lv, va);
    match k
    case Nothing => e == 0 && t == None
    case Page(p, flags) => lv <= 3 && PageAt(fmt, lv, e, p, flags) && t == Some(Mapping(p + va % Size(lv), fmt.stored(flags), lv))
    case Table(g) =>
      && lv > 1 && Fits(fmt, g) && e == fmt.newTable(g) && g in owner && owner[g].level == lv - 1
      && Serves(levels, owner[g], va) && t == TranslateFrom(fmt, mem, g, lv - 1, va)
  }

  lemma EntryKind(fmt: PteFormat, levels: Level, root: nat, mem: map<nat, seq<Word>>, owner: map<nat, Loc>, f: nat, va: nat)
    returns (k: Kind)
    requires Tree(fmt, levels, root, mem, owner) && f in owner && Serves(levels, owner[f], va)
    ensures Holds(fmt, levels, mem, owner, f, va, k)
  {
    hide Tree, Size, Block, Index, Lawful, Serves, TranslateFrom, Entry, Holds, PageAt;
    var lv := owner[f].level;
    var i := Index(va, lv);
    IndexBelow(va, lv);
    EntryInOrder(fmt, levels, root, mem, owner, f, i);
    LawsOf(fmt, levels, root, mem, owner);
    var e := Entry(mem, f, i);
    if IsUnused(e) {
      k := Nothing;
      HoldsNothing(fmt, levels, mem, owner, f, va);
    } else if lv <= 3 && IsPage(fmt, lv, e) {
      var p, flags :| PageAt(fmt, lv, e, p, flags);
      k := Page(p, flags);
      HoldsPage(fmt, levels, mem, owner, f, va, p, flags);
    } else {
      k := Table(fmt.paddr(e));
      FrameFits(fmt, levels, root, mem, owner, fmt.paddr(e));
      HoldsTable(fmt, levels, mem, owner, f, va, fmt.paddr(e));
    }
  }

  lemma HoldsNothing(fmt: PteFormat, levels: Level, mem: map<nat, seq<Word>>, owner: map<nat, Loc>, f: nat, va: nat)
    requires f in owner && !fmt.isPresent(0) && Entry(mem, f, Index(va, owner[f].level)) == 0
    ensures Holds(fmt, levels, mem, owner, f, va, Nothing)
  {
    hide Size, Index, Entry;
    var lv := owner[f].level;
    assert TranslateFrom(fmt, mem, f, lv, va) == TranslateEntry(fmt, mem, Entry(mem, f, Index(va, lv)), lv, va);
  }

  lemma HoldsPage(fmt: PteFormat, levels: Level, mem: map<nat, seq<Word>>, owner: map<nat, Loc>, f: nat, va: nat,
                  p: nat, flags: MappingFlags)
    requires f in owner && owner[f].level <= 3 && PageAt(fmt, owner[f].level, Entry(mem, f, Index(va, owner[f].level)), p, flags)
    requires PageLaw(fmt, p, flags, owner[f].level > 1)
    ensures Holds(fmt, levels, mem, owner, f, va, Page(p, flags))
  {
    hide Size, Index, Entry;
    var lv := owner[f].level;
    assert TranslateFrom(fmt, mem, f, lv, va) == TranslateEntry(fmt, mem, Entry(mem, f, Index(va, lv)), lv, va);
  }

  lemma HoldsTable(fmt: PteFormat, levels: Level, mem: map<nat, seq<Word>>, owner: map<nat, Loc>, f: nat, va: nat, g: nat)
    requires f in owner && owner[f].level > 1 && Serves(levels, owner[f], va)
    requires LinksTo(fmt, Entry(mem, f, Index(va, owner[f].level)), g) && Fits(fmt, g)
    requires g in owner && owner[g] == Loc(owner[f].level - 1, owner[f].prefix * 512 + Index(va, owner[f].level))
    ensures Holds(fmt, levels, mem, owner, f, va, Table(g))
  {
    hide Size, Index, Entry, Block;
    var lv := owner[f].level;
    BlocksNest(levels, va, lv);
    assert TranslateFrom(fmt, mem, f, lv, va) == TranslateEntry(fmt, mem, Entry(mem, f, Index(va, lv)), lv, va);
  }

  lemma LawsOf(fmt: PteFormat, levels: Level, root: nat, mem: map<nat, seq<Word>>, owner: map<nat, Loc>)
    requires Tree(fmt, levels, root, mem, owner)
    ensures !fmt.isPresent(0) && forall p, f, huge :: PageLaw(fmt, p, f, huge)
  {
    hide TableOk, Parent;
  }

  lemma FrameFits(fmt: PteFormat, levels: Level, root: nat, mem: map<nat, seq<Word>>, owner: map<nat, Loc>, f: nat)
    requires Tree(fmt, levels, root, mem, owner) && f in owner
    ensures Fits(fmt, f)
  {
    assert TableOk(fmt, owner, mem, f);
  }

  // ----- RISC-V -----

  datatype RvPage = RvPage(paddr: nat, level: Level, read: bool, write: bool, execute: bool, user: bool)

  /** Section 4.3.2 of the RISC-V Privileged Architecture, over the index bits of the address: V clear,
      W without R and the reserved high bits fault, and so do a superpage that is not aligned, a leaf
      whose A, or D if it can be written, is clear, and a pointer with U, A or D set. */
  function RvWalk(mem: map<nat, seq<Word>>, f: nat, lv: Level, va: nat): Option<RvPage>
    decreases lv
  {
    var e := Fetch(mem, f, lv, va);
    var r, w, x := e / 2 % 2 == 1, e / 4 % 2 == 1, e / 8 % 2 == 1;
    if e % 2 == 0 || (!r && w) || e / 0x40_0000_0000_0000 != 0 then None
    else if r || x then
      if e / 0x400 % (Reach(lv) / 4096) != 0 || e / 64 % 2 == 0 || (w && e / 128 % 2 == 0) then None
      else Some(RvPage(e / 0x400 * 4096 + va % Reach(lv), lv, r, w, x, e / 16 % 2 == 1))
    else if lv == 1 || e / 16 % 2 == 1 || e / 64 % 2 == 1 || e / 128 % 2 == 1 then None
    else RvWalk(mem, e / 0x400 * 4096, lv - 1, va)
  }

  /** A reported translation as the hardware has it: none for a page with WRITE and without READ. */
  function RvView(t: Option<Mapping>): Option<RvPage> {
    if t.None? || (t.value.flags.write && !t.value.flags.read) then None
    else
      var f := t.value.flags;
      Some(RvPage(t.value.paddr, t.value.level, f.read, f.write, f.execute, f.user))
  }

  lemma RvLeaf(mem: map<nat, seq<Word>>, f: nat, lv: Level, va: nat, p: nat, flags: MappingFlags)
    requires PageAt(Riscv(), lv, Fetch(mem, f, lv, va), p, flags)
    ensures RvWalk(mem, f, lv, va) == RvView(Some(Mapping(p + va % Size(lv), flags.(device := false), lv)))
  {
    SameEntry(mem, f, lv, va);
    RvPageBits(p, flags, lv > 1);
    var e := Fetch(mem, f, lv, va);
    PageNumber(p, lv);
    Shrinks(e, 0x400, 0x1000_0000_0000);
    hide Fetch, Size, Reach;
  }

  lemma RvPointer(mem: map<nat, seq<Word>>, f: nat, lv: Level, va: nat, g: nat)
    requires lv > 1 && Fits(Riscv(), g) && Fetch(mem, f, lv, va) == Riscv().newTable(g)
    ensures RvWalk(mem, f, lv, va) == RvWalk(mem, g, lv - 1, va)
  {
    RvTableBits(g);
    RvTableFields(g);
    hide Fetch, Size, Reach, Riscv;
  }

  lemma RvTableFields(g: nat)
    requires g % 0x1000 == 0 && g < 0x100_0000_0000_0000
    ensures var e := 1 + g / 0x1000 * 0x400;
      && e % 2 == 1 && e / 2 % 2 == 0 && e / 4 % 2 == 0 && e / 8 % 2 == 0 && e / 16 % 2 == 0 && e / 64 % 2 == 0
      && e / 128 % 2 == 0 && e / 0x400 * 4096 == g && e / 0x40_0000_0000_0000 == 0
  {
    var e := 1 + g / 0x1000 * 0x400;
    RvLowFields(1, g / 0x1000);
    Quotient(g / 0x1000, 1, 0x400);
    Shrinks(e, 0x400, 0x1000_0000_0000);
  }

  /** The number of an aligned page is a multiple of the pages it spans. */
  lemma PageNumber(p: nat, lv: Level)
    requires p % Size(lv) == 0
    ensures p % 4096 == 0 && p / 4096 % (Size(lv) / 4096) == 0 && p / 4096 * 4096 == p
  {
    var q, n := p / Size(lv), Size(lv) / 4096;
    assert Size(lv) == n * 4096;
    Swap(q, n, 4096);
    Quotient(q * n, 0, 4096);
    Quotient(q, 0, n);
  }

  lemma Shrinks(e: nat, d: nat, n: nat)
    requires d > 0 && n > 0 && e / d < n
    ensures e / (d * n) == 0
  {
    DivDiv(e, d, n);
  }

  lemma RvEmpty(mem: map<nat, seq<Word>>, f: nat, lv: Level, va: nat)
    requires Fetch(mem, f, lv, va) == 0
    ensures RvWalk(mem, f, lv, va) == None
  {
  }

  lemma {:induction false} RvSame(levels: Level, root: nat, mem: map<nat, seq<Word>>, owner: map<nat, Loc>, f: nat, va: nat)
    requires Tree(Riscv(), levels, root, mem, owner) && f in owner && Serves(levels, owner[f], va)
    ensures RvWalk(mem, f, owner[f].level, va) == RvView(TranslateFrom(Riscv(), mem, f, owner[f].level, va))
    decreases owner[f].level
  {
    hide Tree, Serves, TranslateFrom, RvWalk, RvView, Fetch, Size, Reach, Entry, Index, PageAt;
    var fmt, lv := Riscv(), owner[f].level;
    SameEntry(mem, f, lv, va);
    var k := EntryKind(fmt, levels, root, mem, owner, f, va);
    match k
    case Nothing =>
      RvEmpty(mem, f, lv, va);
      NoView();
    case Page(p, flags) => RvLeaf(mem, f, lv, va, p, flags);
    case Table(g) =>
      RvPointer(mem, f, lv, va, g);
      RvSame(levels, root, mem, owner, g, va);
  }

  lemma NoView()
    ensures RvView(None) == None && A64View(None) == None
  {
  }

  /** After every run from a new table, RISC-V hardware translates every address as `query` reports it,
      except that it faults on a page with WRITE and without READ. */
  lemma RiscvHardware(levels: Level, supply: seq<Option<nat>>, ops: seq<Op>, va: nat)
    requires 3 <= levels <= 4 && FreshSupply(Riscv(), map[], supply) && TryNew(supply).Ok?
    requires forall op | op in ops :: Accepts(Riscv(), op)
    ensures var s := Run(Riscv(), levels, TryNew(supply).value, ops).0;
      RvWalk(s.mem, s.root, levels, va) == RvView(Translate(Riscv(), levels, s, va))
  {
    RiscvLawful();
    var s, owner := Reached(Riscv(), levels, supply, ops, va);
    hide Run, TryNew, Riscv, RvWalk, RvView, Tree, Serves, TranslateFrom;
    RvSame(levels, s.root, s.mem, owner, s.root, va);
  }

  lemma Reached(fmt: PteFormat, levels: Level, supply: seq<Option<nat>>, ops: seq<Op>, va: nat)
    returns (s: State, owner: map<nat, Loc>)
    requires 3 <= levels <= 4 && Lawful(fmt) && FreshSupply(fmt, map[], supply) && TryNew(supply).Ok?
    requires forall op | op in ops :: Accepts(fmt, op)
    ensures s == Run(fmt, levels, TryNew(supply).value, ops).0 && Tree(fmt, levels, s.root, s.mem, owner)
    ensures s.root in owner && owner[s.root].level == levels && Serves(levels, owner[s.root], va)
  {
    hide Inv, FlatOf, Size, Span, TranslateFrom, Simulates, Tree, Serves, TryNew;
    NewTable(fmt, levels, supply);
    var s0 := TryNew(supply).value;
    owner := RunCorrect(fmt, levels, s0, map[s0.root := Loc(levels, 0)], ops);
    s := Run(fmt, levels, s0, ops).0;
    TreeOf(fmt, levels, s, owner);
    RootServes(fmt, levels, s, owner, va);
  }

  /** A page mapped with WRITE and EXECUTE alone has a reserved encoding. */
  lemma ReservedFaults(mem: map<nat, seq<Word>>, f: nat, va: nat, p: nat)
    requires Fits(Riscv(), p) && Fetch(mem, f, 1, va) == Riscv().newPage(p, MappingFlags(false, true, true, false, false), false)
    ensures RvWalk(mem, f, 1, va) == None
  {
    RvPageBits(p, MappingFlags(false, true, true, false, false), false);
  }

  // ----- AArch64 -----

  /** `attr` is the index of the memory attributes; the privileges are for the user and the kernel. */
  datatype A64Page = A64Page(
    paddr: nat, level: Level, write: bool, user: bool, userExecute: bool, kernelExecute: bool, attr: nat)

  /** Stage 1 of VMSAv8-64 with 4K granules: type 3 is a page on the last level and a table above it,
      type 1 a block of 2M or 1G; anything else faults, and so do a leaf whose access flag is clear
      and a table with hierarchical attributes. */
  function A64Walk(mem: map<nat, seq<Word>>, f: nat, lv: Level, va: nat): Option<A64Page>
    decreases lv
  {
    var e := Fetch(mem, f, lv, va);
    if (lv == 1 && e % 4 == 3) || (2 <= lv <= 3 && e % 4 == 1) then
      if e / 0x400 % 2 == 0 then None
      else Some(A64Page(e % 0x1_0000_0000_0000 / Reach(lv) * Reach(lv) + va % Reach(lv), lv,
                        e / 128 % 2 == 0, e / 64 % 2 == 1,
                        e / 0x40_0000_0000_0000 % 2 == 0, e / 0x20_0000_0000_0000 % 2 == 0, e / 4 % 8))
    else if lv > 1 && e % 4 == 3 && e / 0x800_0000_0000_0000 == 0 then
      A64Walk(mem, e % 0x1_0000_0000_0000 / 4096 * 4096, lv - 1, va)
    else None
  }

  /** A reported translation as the hardware has it: user pages are executed by the user alone. */
  function A64View(t: Option<Mapping>): Option<A64Page> {
    if t.None? then None
    else
      var f := t.value.flags;
      Some(A64Page(t.value.paddr, t.value.level, f.write, f.user, f.user && f.execute, !f.user && f.execute,
                   if f.device then 0 else 1))
  }

  /** The address in a descriptor, and the bits below and above it. */
  lemma A64Address48(e: nat, p: nat, lv: Level)
    requires p % Size(lv) == 0 && p < 0x1_0000_0000_0000 && e / 0x1000 % 0x10_0000_0000 == p / 0x1000
    ensures e % 0x1_0000_0000_0000 / Size(lv) * Size(lv) == p
  {
    PageNumber(p, lv);
    var low := e % 0x1000;
    LowBits48(e, p);
    hide Size;
    assert p == p / Size(lv) * Size(lv);
    Quotient(p / Size(lv), low, Size(lv));
  }

  lemma LowBits48(e: nat, p: nat)
    requires p / 0x1000 * 0x1000 == p && p < 0x1_0000_0000_0000 && e / 0x1000 % 0x10_0000_0000 == p / 0x1000
    ensures e % 0x1_0000_0000_0000 == p + e % 0x1000
  {
    var low, high := e % 0x1000, e / 0x1000 / 0x10_0000_0000;
    assert e == (high * 0x10_0000_0000 + p / 0x1000) * 0x1000 + low;
    Quotient(high, p + low, 0x1_0000_0000_0000);
  }

  lemma A64Leaf(mem: map<nat, seq<Word>>, f: nat, lv: Level, va: nat, p: nat, flags: MappingFlags)
    requires lv <= 3 && PageAt(Aarch64(), lv, Fetch(mem, f, lv, va), p, flags)
    ensures A64Walk(mem, f, lv, va) == A64View(Some(Mapping(p + va % Size(lv), flags, lv)))
  {
    hide Fetch, Size, Reach, Aarch64, A64Walk, Fits;
    SameEntry(mem, f, lv, va);
    FitsA64(p);
    A64PageBits(p, flags, lv > 1);
    var e := Fetch(mem, f, lv, va);
    A64Address48(e, p, lv);
    Digit54(e);
    A64WalkLeaf(mem, f, lv, va, e);
  }

  lemma FitsA64(p: nat)
    ensures Fits(Aarch64(), p) <==> p % 4096 == 0 && p < 0x1_0000_0000_0000
    ensures forall f :: Aarch64().mappable(f) <==> f.read
  {
  }

  lemma Digit54(e: nat)
    requires e / 0x80_0000_0000_0000 == 0
    ensures e / 0x40_0000_0000_0000 % 2 == e / 0x40_0000_0000_0000
  {
  }

  lemma A64WalkLeaf(mem: map<nat, seq<Word>>, f: nat, lv: Level, va: nat, e: Word)
    requires e == Fetch(mem, f, lv, va) && lv <= 3 && e % 4 == (if lv > 1 then 1 else 3) && e / 0x400 % 2 == 1
    ensures A64Walk(mem, f, lv, va)
      == Some(A64Page(e % 0x1_0000_0000_0000 / Reach(lv) * Reach(lv) + va % Reach(lv), lv,
                      e / 128 % 2 == 0, e / 64 % 2 == 1,
                      e / 0x40_0000_0000_0000 % 2 == 0, e / 0x20_0000_0000_0000 % 2 == 0, e / 4 % 8))
  {
    hide Fetch, Reach;
  }

  lemma A64Pointer(mem: map<nat, seq<Word>>, f: nat, lv: Level, va: nat, g: nat)
    requires lv > 1 && Fits(Aarch64(), g) && Fetch(mem, f, lv, va) == Aarch64().newTable(g)
    ensures A64Walk(mem, f, lv, va) == A64Walk(mem, g, lv - 1, va)
  {
    A64TableBits(g);
    TableFields(g);
    hide Fetch, Size, Reach, Aarch64;
  }

  lemma TableFields(g: nat)
    requires g % 4096 == 0 && g < 0x1_0000_0000_0000
    ensures (g + 3) % 4 == 3 && (g + 3) / 0x800_0000_0000_0000 == 0 && (g + 3) % 0x1_0000_0000_0000 / 4096 * 4096 == g
  {
    Quotient(g / 4096, 3, 4096);
    Quotient(g / 4096 * 1024, 3, 4);
  }

  lemma A64Empty(mem: map<nat, seq<Word>>, f: nat, lv: Level, va: nat)
    requires Fetch(mem, f, lv, va) == 0
    ensures A64Walk(mem, f, lv, va) == None
  {
  }

  lemma {:induction false} A64Same(levels: Level, root: nat, mem: map<nat, seq<Word>>, owner: map<nat, Loc>, f: nat, va: nat)
    requires Tree(Aarch64(), levels, root, mem, owner) && f in owner && Serves(levels, owner[f], va)
    ensures A64Walk(mem, f, owner[f].level, va) == A64View(TranslateFrom(Aarch64(), mem, f, owner[f].level, va))
    decreases owner[f].level
  {
    hide Tree, Serves, TranslateFrom, A64Walk, A64View, Fetch, Size, Reach, Entry, Index, PageAt;
    var fmt, lv := Aarch64(), owner[f].level;
    SameEntry(mem, f, lv, va);
    var k := EntryKind(fmt, levels, root, mem, owner, f, va);
    match k
    case Nothing =>
      A64Empty(mem, f, lv, va);
      NoView();
    case Page(p, flags) => A64Leaf(mem, f, lv, va, p, flags);
    case Table(g) =>
      A64Pointer(mem, f, lv, va, g);
      A64Same(levels, root, mem, owner, g, va);
  }

  /** After every run from a new table, AArch64 hardware translates every address as `query` reports it. */
  lemma Aarch64Hardware(levels: Level, supply: seq<Option<nat>>, ops: seq<Op>, va: nat)
    requires 3 <= levels <= 4 && FreshSupply(Aarch64(), map[], supply) && TryNew(supply).Ok?
    requires forall op | op in ops :: Accepts(Aarch64(), op)
    ensures var s := Run(Aarch64(), levels, TryNew(supply).value, ops).0;
      A64Walk(s.mem, s.root, levels, va) == A64View(Translate(Aarch64(), levels, s, va))
  {
    Aarch64Lawful();
    var s, owner := Reached(Aarch64(), levels, supply, ops, va);
    hide Run, TryNew, Aarch64, A64Walk, A64View, Tree, Serves, TranslateFrom;
    A64Same(levels, s.root, s.mem, owner, s.root, va);
  }
}
