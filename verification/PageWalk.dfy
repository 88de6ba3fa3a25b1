/** The page table as values: what a tree of 512-entry tables translates, how the walk and
    the creating walk move through it, and the invariant that makes it one flat map. */
module PageWalk {
  import opened Arith
  import opened Options
  import opened PageTableEntry

  datatype PagingError = NoMemory | NotAligned | NotMapped | AlreadyMapped | MappedToHugePage

  datatype Result<+T> = Ok(value: T) | Err(error: PagingError)

  /** Levels count from the leaf: level 1 entries are 4K pages, level 2 and 3 leaves are 2M
      and 1G pages, level 4 has no leaves. */
  type Level = lv: nat | 1 <= lv <= 5 witness 1

  /** Bytes covered by one entry of a table at this level. */
  function Size(lv: Level): (s: nat)
    ensures s >= 0x1000
  {
    match lv
    case 1 => 0x1000
    case 2 => 0x20_0000
    case 3 => 0x4000_0000
    case 4 => 0x80_0000_0000
    case 5 => 0x1_0000_0000_0000
  }

  /** Index of the entry for `va` in a table at this level. */
  function Index(va: nat, lv: Level): nat {
    va / Size(lv) % 512
  }

  /** A page table: its root frame, the list of table frames it owns, the contents of memory
      frame by frame, and the frames the allocator will hand out, `None` where it fails. */
  datatype State = State(root: nat, tables: seq<nat>, mem: map<nat, seq<Word>>, supply: seq<Option<nat>>)

  function Entry(mem: map<nat, seq<Word>>, f: nat, i: nat): Word {
    if f in mem && i < |mem[f]| then mem[f][i] else 0
  }

  /** Where a virtual address goes: the physical address, the flags and the level of its page. */
  datatype Mapping = Mapping(paddr: nat, flags: MappingFlags, level: Level)

  // ----- reference translation -----

  function Leaf(fmt: PteFormat, e: Word, lv: Level, va: nat): Option<Mapping> {
    if IsUnused(e) then None else Some(Mapping(fmt.paddr(e) + va % Size(lv), fmt.flags(e), lv))
  }

  /** Translation of `va` by entry `e` of a table at level `lv`. */
  function TranslateEntry(fmt: PteFormat, mem: map<nat, seq<Word>>, e: Word, lv: Level, va: nat): Option<Mapping>
    decreases lv, 0
  {
    if lv == 1 || (lv <= 3 && fmt.isHuge(e)) then Leaf(fmt, e, lv, va)
    else if !fmt.isPresent(e) || fmt.isHuge(e) then None
    else TranslateFrom(fmt, mem, fmt.paddr(e), lv - 1, va)
  }

  /** Translation of `va` by the table in frame `f` at level `lv`. */
  function TranslateFrom(fmt: PteFormat, mem: map<nat, seq<Word>>, f: nat, lv: Level, va: nat): Option<Mapping>
    decreases lv, 1
  {
    TranslateEntry(fmt, mem, Entry(mem, f, Index(va, lv)), lv, va)
  }

  // ----- the walks of the source -----

  /** A table entry and the level at which it was found. */
  datatype Slot = Slot(frame: nat, index: nat, level: Level)

  function NextTable(fmt: PteFormat, e: Word): Result<nat> {
    if !fmt.isPresent(e) then Err(NotMapped)
    else if fmt.isHuge(e) then Err(MappedToHugePage)
    else Ok(fmt.paddr(e))
  }

  /** The lookup walk: stops at a huge entry or at the last level. */
  function Walk(fmt: PteFormat, mem: map<nat, seq<Word>>, f: nat, lv: Level, va: nat): Result<Slot>
    decreases lv
  {
    var i := Index(va, lv);
    var e := Entry(mem, f, i);
    if lv == 1 || (lv <= 3 && fmt.isHuge(e)) then Ok(Slot(f, i, lv))
    else match NextTable(fmt, e)
      case Err(error) => Err(error)
      case Ok(g) => Walk(fmt, mem, g, lv - 1, va)
  }

  /** Takes one frame from the allocator, if it gives one, and fills it with zeros. */
  function AllocTable(s: State): (State, Result<nat>) {
    if s.supply == [] then (s, Err(NoMemory))
    else
      var rest := s.(supply := s.supply[1..]);
      match s.supply[0]
      case None => (rest, Err(NoMemory))
      case Some(x) => (rest.(mem := s.mem[x := seq(512, _ => 0)]), Ok(x))
  }

  function SetEntry(mem: map<nat, seq<Word>>, f: nat, i: nat, e: Word): map<nat, seq<Word>> {
    if f in mem && i < |mem[f]| then
      var t: seq<Word> := mem[f];
      mem[f := t[i := e]]
    else mem
  }

  /** The table below entry `i` of `f`, created if the entry is unused. */
  function NextTableOrCreate(fmt: PteFormat, s: State, f: nat, i: nat): (State, Result<nat>) {
    var e := Entry(s.mem, f, i);
    if IsUnused(e) then
      var (s1, r) := AllocTable(s);
      match r
      case Err(error) => (s1, Err(error))
      case Ok(x) => (s1.(tables := s1.tables + [x], mem := SetEntry(s1.mem, f, i, fmt.newTable(x))), Ok(x))
    else
      (s, NextTable(fmt, e))
  }

  /** The creating walk, down to the level of the page to be mapped. */
  function WalkOrCreate(fmt: PteFormat, s: State, f: nat, lv: Level, leaf: Level, va: nat): (State, Result<Slot>)
    decreases lv
  {
    var i := Index(va, lv);
    if lv <= leaf then (s, Ok(Slot(f, i, leaf)))
    else
      var (s1, r) := NextTableOrCreate(fmt, s, f, i);
      match r
      case Err(error) => (s1, Err(error))
      case Ok(g) => WalkOrCreate(fmt, s1, g, lv - 1, leaf, va)
  }

  // ----- the tree invariant -----

  /** Where a table sits: its level, and the number of the block of addresses it serves. */
  datatype Loc = Loc(level: Level, prefix: nat)

  /** Bytes of the index range: addresses that differ by a multiple of it share a translation. */
  function Span(levels: Level): nat
    requires 3 <= levels <= 4
  {
    Size(levels + 1)
  }

  /** Number of the level-`lv` block that holds `va`. */
  function Block(levels: Level, va: nat, lv: Level): nat
    requires 3 <= levels <= 4
  {
    va % Span(levels) / Size(lv)
  }

  ghost predicate LinksTo(fmt: PteFormat, e: Word, f: nat) {
    !IsUnused(e) && fmt.isPresent(e) && !fmt.isHuge(e) && fmt.paddr(e) == f && e == fmt.newTable(f)
  }

  /** The word for a page of level `lv` at `p`: a block descriptor above the last level only. */
  ghost predicate PageAt(fmt: PteFormat, lv: Level, e: Word, p: nat, f: MappingFlags) {
    Fits(fmt, p) && p % Size(lv) == 0 && fmt.mappable(f) && e == fmt.newPage(p, f, lv > 1)
  }

  ghost predicate IsPage(fmt: PteFormat, lv: Level, e: Word) {
    exists p, f :: PageAt(fmt, lv, e, p, f)
  }

  /** An entry is unused, a leaf, or a link to the one table that serves its block. */
  ghost predicate EntryOk(fmt: PteFormat, owner: map<nat, Loc>, at: Loc, i: nat, e: Word) {
    || IsUnused(e)
    || (at.level <= 3 && fmt.isPresent(e) && (at.level > 1 ==> fmt.isHuge(e)) && IsPage(fmt, at.level, e))
    || (at.level > 1 && LinksTo(fmt, e, fmt.paddr(e)) && fmt.paddr(e) in owner
        && owner[fmt.paddr(e)] == Loc(at.level - 1, at.prefix * 512 + i))
  }

  ghost predicate TableOk(fmt: PteFormat, owner: map<nat, Loc>, mem: map<nat, seq<Word>>, f: nat)
    requires f in owner
  {
    && f in mem && |mem[f]| == 512 && Fits(fmt, f)
    && forall i | 0 <= i < 512 :: EntryOk(fmt, owner, owner[f], i, mem[f][i])
  }

  ghost predicate Parent(fmt: PteFormat, owner: map<nat, Loc>, mem: map<nat, seq<Word>>, f: nat, g: nat)
    requires f in owner
  {
    && g in owner && owner[f].level < 5
    && owner[g] == Loc(owner[f].level + 1, owner[f].prefix / 512)
    && LinksTo(fmt, Entry(mem, g, owner[f].prefix % 512), f)
  }

  /** `owner` gives every table frame its place: the root's is the whole range, places are
      not shared, and every other table hangs below the table of the enclosing block. */
  ghost predicate Tree(fmt: PteFormat, levels: Level, root: nat, mem: map<nat, seq<Word>>, owner: map<nat, Loc>) {
    && 3 <= levels <= 4 && Lawful(fmt)
    && root in owner && owner[root] == Loc(levels, 0)
    && (forall f | f in owner :: owner[f].level <= levels && TableOk(fmt, owner, mem, f))
    && (forall f, g | f in owner && g in owner && owner[f] == owner[g] :: f == g)
    && (forall f | f in owner && f != root :: exists g :: Parent(fmt, owner, mem, f, g))
  }

  /** `va` is served by the table at `at`. */
  ghost predicate Serves(levels: Level, at: Loc, va: nat) {
    3 <= levels <= 4 && at.level <= levels && Block(levels, va, at.level + 1) == at.prefix
  }

  /** The index range is a whole number of tables of each level. */
  lemma SpanParts(levels: Level, lv: Level) returns (m: nat)
    requires 3 <= levels <= 4 && lv <= levels
    ensures m > 0 && Span(levels) == Size(lv) * 512 * m && Span(levels) == 512 * m * Size(lv)
  {
    m := match levels - lv
      case 0 => 1
      case 1 => 512
      case 2 => 0x4_0000
      case _ => 0x800_0000;
  }

  /** Blocks nest: the index picks the block inside the enclosing one. */
  lemma BlocksNest(levels: Level, va: nat, lv: Level)
    requires 3 <= levels <= 4 && lv <= levels
    ensures Block(levels, va, lv) == Block(levels, va, lv + 1) * 512 + Index(va, lv)
    ensures Block(levels, va, levels + 1) == 0
  {
    var y, d := va % Span(levels), Size(lv);
    assert d * 512 == Size(lv + 1);
    DivDiv(y, d, 512);
    var m := SpanParts(levels, lv);
    DigitOfReduced(va, d, 512, m, Span(levels));
  }

  lemma ParentStep(fmt: PteFormat, levels: Level, mem: map<nat, seq<Word>>, owner: map<nat, Loc>,
                   f: nat, g: nat, va: nat)
    requires f in owner && Parent(fmt, owner, mem, f, g)
    requires Serves(levels, owner[f], va) && owner[g].level <= levels
    ensures Serves(levels, owner[g], va)
    ensures TranslateFrom(fmt, mem, g, owner[g].level, va) == TranslateFrom(fmt, mem, f, owner[f].level, va)
  {
    hide Size, Block;
    BlocksNest(levels, va, owner[g].level);
    assert Index(va, owner[g].level) == owner[f].prefix % 512 by { IndexBelow(va, owner[g].level); }
  }

  lemma IndexBelow(va: nat, lv: Level)
    ensures Index(va, lv) < 512
  {
  }

  /** A table reached by the walk translates the addresses it serves as the root does. */
  lemma ReachTable(fmt: PteFormat, levels: Level, root: nat, mem: map<nat, seq<Word>>, owner: map<nat, Loc>,
                   f: nat, va: nat)
    requires Tree(fmt, levels, root, mem, owner) && f in owner && Serves(levels, owner[f], va)
    ensures TranslateFrom(fmt, mem, root, levels, va) == TranslateFrom(fmt, mem, f, owner[f].level, va)
    decreases levels - owner[f].level
  {
    hide TableOk, Lawful, Serves, TranslateFrom;
    if f != root {
      var g :| Parent(fmt, owner, mem, f, g);
      ParentStep(fmt, levels, mem, owner, f, g, va);
      ReachTable(fmt, levels, root, mem, owner, g, va);
    }
  }

  lemma EntryInOrder(fmt: PteFormat, levels: Level, root: nat, mem: map<nat, seq<Word>>, owner: map<nat, Loc>,
                     f: nat, i: nat)
    requires Tree(fmt, levels, root, mem, owner) && f in owner && i < 512
    ensures owner[f].level <= levels <= 4 && !fmt.isPresent(0)
    ensures EntryOk(fmt, owner, owner[f], i, Entry(mem, f, i))
  {
    assert TableOk(fmt, owner, mem, f);
  }

  /** Two memories that agree on the table entries on the path of `va` translate it alike. */
  lemma FrameTranslate(fmt: PteFormat, levels: Level, root: nat, mem: map<nat, seq<Word>>, owner: map<nat, Loc>,
                       mem': map<nat, seq<Word>>, at: nat, i: nat, f: nat, va: nat)
    requires Tree(fmt, levels, root, mem, owner) && f in owner && Serves(levels, owner[f], va)
    requires at in owner && i < 512 && Block(levels, va, owner[at].level) != owner[at].prefix * 512 + i
    requires forall g, j | g in owner && 0 <= j < 512 && (g, j) != (at, i) :: Entry(mem', g, j) == Entry(mem, g, j)
    ensures TranslateFrom(fmt, mem', f, owner[f].level, va) == TranslateFrom(fmt, mem, f, owner[f].level, va)
    decreases owner[f].level
  {
    hide Tree, Size, Block, Entry;
    var lv := owner[f].level;
    var j := Index(va, lv);
    BlocksNest(levels, va, lv);
    IndexBelow(va, lv);
    assert (f, j) != (at, i);
    var e := Entry(mem, f, j);
    EntryInOrder(fmt, levels, root, mem, owner, f, j);
    if lv > 1 && LinksTo(fmt, e, fmt.paddr(e)) {
      FrameTranslate(fmt, levels, root, mem, owner, mem', at, i, fmt.paddr(e), va);
    }
  }

  // ----- writing an entry -----

  /** An entry that holds no table: unused, or a leaf of its level. */
  ghost predicate NoLink(fmt: PteFormat, lv: Level, e: Word) {
    IsUnused(e) || (lv <= 3 && fmt.isPresent(e) && (lv > 1 ==> fmt.isHuge(e)) && IsPage(fmt, lv, e))
  }

  /** `va` lies in the block of entry `i` of the table at `at`. */
  ghost predicate InBlock(levels: Level, at: Loc, i: nat, va: nat) {
    3 <= levels <= 4 && at.level <= levels && Block(levels, va, at.level) == at.prefix * 512 + i
  }

  /** In the block of an entry without a table, that entry alone decides. */
  lemma BlockTranslation(fmt: PteFormat, levels: Level, root: nat, mem: map<nat, seq<Word>>, owner: map<nat, Loc>,
                         f: nat, i: nat, va: nat)
    requires Tree(fmt, levels, root, mem, owner) && f in owner && i < 512
    requires NoLink(fmt, owner[f].level, Entry(mem, f, i)) && InBlock(levels, owner[f], i, va)
    ensures TranslateFrom(fmt, mem, root, levels, va) == Leaf(fmt, Entry(mem, f, i), owner[f].level, va)
  {
    hide Tree, TranslateEntry, NoLink, InBlock, Serves, Leaf, Entry, EntryOk, Index;
    InBlockServes(levels, owner[f], i, va);
    ReachTable(fmt, levels, root, mem, owner, f, va);
    EntryInOrder(fmt, levels, root, mem, owner, f, i);
    LeafDecides(fmt, mem, Entry(mem, f, i), owner[f].level, va);
  }

  lemma InBlockServes(levels: Level, at: Loc, i: nat, va: nat)
    requires InBlock(levels, at, i, va) && i < 512
    ensures Serves(levels, at, va) && Index(va, at.level) == i
  {
    hide Size, Block, Index;
    BlocksNest(levels, va, at.level);
    IndexBelow(va, at.level);
  }

  lemma LeafDecides(fmt: PteFormat, mem: map<nat, seq<Word>>, e: Word, lv: Level, va: nat)
    requires !fmt.isPresent(0) && NoLink(fmt, lv, e)
    ensures TranslateEntry(fmt, mem, e, lv, va) == Leaf(fmt, e, lv, va)
  {
    hide Size;
  }

  /** Replacing an entry without a table by another keeps the tree. */
  lemma WriteLeafTree(fmt: PteFormat, levels: Level, root: nat, mem: map<nat, seq<Word>>, owner: map<nat, Loc>,
                      f: nat, i: nat, e: Word)
    requires Tree(fmt, levels, root, mem, owner) && f in owner && i < 512
    requires NoLink(fmt, owner[f].level, Entry(mem, f, i)) && NoLink(fmt, owner[f].level, e)
    ensures Tree(fmt, levels, root, SetEntry(mem, f, i, e), owner)
  {
    hide Lawful, TableOk, Parent, SetEntry, Entry, NoLink;
    var mem' := SetEntry(mem, f, i, e);
    forall g | g in owner ensures TableOk(fmt, owner, mem', g) {
      KeepTable(fmt, owner, mem, f, i, e, g);
    }
    forall g | g in owner && g != root ensures exists h :: Parent(fmt, owner, mem', g, h) {
      var h :| Parent(fmt, owner, mem, g, h);
      KeepParent(fmt, owner, mem, f, i, e, g, h);
    }
  }

  lemma KeepTable(fmt: PteFormat, owner: map<nat, Loc>, mem: map<nat, seq<Word>>, f: nat, i: nat, e: Word, g: nat)
    requires f in owner && i < 512 && NoLink(fmt, owner[f].level, e)
    requires g in owner && TableOk(fmt, owner, mem, g)
    ensures TableOk(fmt, owner, SetEntry(mem, f, i, e), g)
  {
  }

  lemma KeepParent(fmt: PteFormat, owner: map<nat, Loc>, mem: map<nat, seq<Word>>, f: nat, i: nat, e: Word,
                   g: nat, h: nat)
    requires f in owner && i < 512 && NoLink(fmt, owner[f].level, Entry(mem, f, i))
    requires g in owner && Parent(fmt, owner, mem, g, h)
    ensures Parent(fmt, owner, SetEntry(mem, f, i, e), g, h)
  {
  }

  /** Replacing an entry without a table changes the translation of its block and of nothing else. */
  lemma WriteLeaf(fmt: PteFormat, levels: Level, root: nat, mem: map<nat, seq<Word>>, owner: map<nat, Loc>,
                  f: nat, i: nat, e: Word, va: nat)
    requires Tree(fmt, levels, root, mem, owner) && f in owner && i < 512
    requires NoLink(fmt, owner[f].level, Entry(mem, f, i)) && NoLink(fmt, owner[f].level, e)
    ensures TranslateFrom(fmt, SetEntry(mem, f, i, e), root, levels, va)
         == if InBlock(levels, owner[f], i, va) then Leaf(fmt, e, owner[f].level, va)
            else TranslateFrom(fmt, mem, root, levels, va)
  {
    hide TranslateFrom, Block, Size, Lawful, EntryOk, Parent, LinksTo;
    var mem' := SetEntry(mem, f, i, e);
    assert TableOk(fmt, owner, mem, f);
    if InBlock(levels, owner[f], i, va) {
      WriteLeafTree(fmt, levels, root, mem, owner, f, i, e);
      BlockTranslation(fmt, levels, root, mem', owner, f, i, va);
    } else {
      BlocksNest(levels, va, levels);
      FrameTranslate(fmt, levels, root, mem, owner, mem', f, i, root, va);
    }
  }

  // ----- adding a table -----

  /** The place below an unused entry is not taken. */
  lemma PlaceFree(fmt: PteFormat, levels: Level, root: nat, mem: map<nat, seq<Word>>, owner: map<nat, Loc>,
                  f: nat, i: nat, g: nat)
    requires Tree(fmt, levels, root, mem, owner) && f in owner && i < 512 && owner[f].level > 1
    requires IsUnused(Entry(mem, f, i)) && g in owner
    ensures owner[g] != Loc(owner[f].level - 1, owner[f].prefix * 512 + i)
  {
    hide Lawful, TableOk, Parent, LinksTo, Entry;
    if owner[g] == Loc(owner[f].level - 1, owner[f].prefix * 512 + i) {
      var h :| Parent(fmt, owner, mem, g, h);
      ParentEntry(fmt, mem, owner, g, h, owner[f], i);
      LinkIsUsed(fmt, Entry(mem, f, i), g);
    }
  }

  /** A table that sits in block `i` of `at` is linked from entry `i` of the table at `at`. */
  lemma ParentEntry(fmt: PteFormat, mem: map<nat, seq<Word>>, owner: map<nat, Loc>, g: nat, h: nat, at: Loc, i: nat)
    requires g in owner && Parent(fmt, owner, mem, g, h)
    requires i < 512 && at.level > 1 && owner[g] == Loc(at.level - 1, at.prefix * 512 + i)
    ensures h in owner && owner[h] == at && LinksTo(fmt, Entry(mem, h, i), g)
  {
    Quotient(at.prefix, i, 512);
  }

  lemma LinkIsUsed(fmt: PteFormat, e: Word, f: nat)
    requires LinksTo(fmt, e, f)
    ensures !IsUnused(e)
  {
  }

  function LinkTable(fmt: PteFormat, mem: map<nat, seq<Word>>, f: nat, i: nat, x: nat): map<nat, seq<Word>> {
    SetEntry(mem[x := seq(512, _ => 0)], f, i, fmt.newTable(x))
  }

  function AddOwner(owner: map<nat, Loc>, f: nat, i: nat, x: nat): map<nat, Loc>
    requires f in owner && owner[f].level > 1
  {
    owner[x := Loc(owner[f].level - 1, owner[f].prefix * 512 + i)]
  }

  /** Hanging a zeroed table below an unused entry keeps the tree. */
  lemma LinkTableTree(fmt: PteFormat, levels: Level, root: nat, mem: map<nat, seq<Word>>, owner: map<nat, Loc>,
                      f: nat, i: nat, x: nat)
    requires Tree(fmt, levels, root, mem, owner) && f in owner && i < 512 && owner[f].level > 1
    requires IsUnused(Entry(mem, f, i)) && x !in owner && Fits(fmt, x)
    ensures Tree(fmt, levels, root, LinkTable(fmt, mem, f, i, x), AddOwner(owner, f, i, x))
  {
    var mem', owner' := LinkTable(fmt, mem, f, i, x), AddOwner(owner, f, i, x);
    assert LinksTo(fmt, fmt.newTable(x), x) by { assert TableLaw(fmt, x); }
    hide Lawful, TableOk, Parent, LinkTable, LinksTo, Entry;
    forall g | g in owner' ensures owner'[g].level <= levels && TableOk(fmt, owner', mem', g) {
      if g == x {
        FreshTableOk(fmt, mem, owner, f, i, x);
      } else {
        LinkTableOk(fmt, mem, owner, f, i, x, g);
      }
    }
    forall g, h | g in owner' && h in owner' && owner'[g] == owner'[h] ensures g == h {
      if g != x { PlaceFree(fmt, levels, root, mem, owner, f, i, g); }
      if h != x { PlaceFree(fmt, levels, root, mem, owner, f, i, h); }
    }
    LinkParents(fmt, levels, root, mem, owner, f, i, x);
  }

  lemma LinkParents(fmt: PteFormat, levels: Level, root: nat, mem: map<nat, seq<Word>>, owner: map<nat, Loc>,
                    f: nat, i: nat, x: nat)
    requires Tree(fmt, levels, root, mem, owner) && f in owner && i < 512 && owner[f].level > 1
    requires IsUnused(Entry(mem, f, i)) && x !in owner && LinksTo(fmt, fmt.newTable(x), x)
    ensures var mem', owner' := LinkTable(fmt, mem, f, i, x), AddOwner(owner, f, i, x);
      forall g | g in owner' && g != root :: exists h :: Parent(fmt, owner', mem', g, h)
  {
    hide Lawful, TableOk, Parent, LinkTable, LinksTo, Entry;
    var mem', owner' := LinkTable(fmt, mem, f, i, x), AddOwner(owner, f, i, x);
    forall g | g in owner' && g != root ensures exists h :: Parent(fmt, owner', mem', g, h) {
      if g == x {
        FreshParent(fmt, mem, owner, f, i, x);
      } else {
        var h :| Parent(fmt, owner, mem, g, h);
        LinkTableParent(fmt, mem, owner, f, i, x, g, h);
      }
    }
  }

  lemma FreshTableOk(fmt: PteFormat, mem: map<nat, seq<Word>>, owner: map<nat, Loc>, f: nat, i: nat, x: nat)
    requires f in owner && owner[f].level > 1 && x !in owner && Fits(fmt, x)
    ensures TableOk(fmt, AddOwner(owner, f, i, x), LinkTable(fmt, mem, f, i, x), x)
  {
  }

  lemma FreshParent(fmt: PteFormat, mem: map<nat, seq<Word>>, owner: map<nat, Loc>, f: nat, i: nat, x: nat)
    requires f in owner && i < 512 && owner[f].level > 1 && TableOk(fmt, owner, mem, f)
    requires x !in owner && LinksTo(fmt, fmt.newTable(x), x)
    ensures Parent(fmt, AddOwner(owner, f, i, x), LinkTable(fmt, mem, f, i, x), x, f)
  {
  }

  lemma LinkTableParent(fmt: PteFormat, mem: map<nat, seq<Word>>, owner: map<nat, Loc>, f: nat, i: nat, x: nat,
                        g: nat, h: nat)
    requires f in owner && i < 512 && owner[f].level > 1 && IsUnused(Entry(mem, f, i)) && x !in owner
    requires g in owner && Parent(fmt, owner, mem, g, h)
    ensures Parent(fmt, AddOwner(owner, f, i, x), LinkTable(fmt, mem, f, i, x), g, h)
  {
  }

  lemma LinkTableOk(fmt: PteFormat, mem: map<nat, seq<Word>>, owner: map<nat, Loc>, f: nat, i: nat, x: nat, g: nat)
    requires f in owner && i < 512 && owner[f].level > 1 && g in owner && TableOk(fmt, owner, mem, g)
    requires x !in owner && LinksTo(fmt, fmt.newTable(x), x)
    ensures TableOk(fmt, AddOwner(owner, f, i, x), LinkTable(fmt, mem, f, i, x), g)
  {
  }

  /** A new, empty table changes no translation. */
  lemma LinkTableTranslation(fmt: PteFormat, levels: Level, root: nat, mem: map<nat, seq<Word>>, owner: map<nat, Loc>,
                             f: nat, i: nat, x: nat, va: nat)
    requires Tree(fmt, levels, root, mem, owner) && f in owner && i < 512 && owner[f].level > 1
    requires IsUnused(Entry(mem, f, i)) && x !in owner && Fits(fmt, x)
    ensures TranslateFrom(fmt, LinkTable(fmt, mem, f, i, x), root, levels, va)
         == TranslateFrom(fmt, mem, root, levels, va)
  {
    hide Block, Size, Lawful, EntryOk, Parent, LinksTo;
    var mem', owner' := LinkTable(fmt, mem, f, i, x), AddOwner(owner, f, i, x);
    assert TableOk(fmt, owner, mem, f);
    if InBlock(levels, owner[f], i, va) {
      BlockTranslation(fmt, levels, root, mem, owner, f, i, va);
      LinkTableTree(fmt, levels, root, mem, owner, f, i, x);
      ReachTable(fmt, levels, root, mem', owner', x, va);
      EmptyTable(fmt, mem', x, owner'[x].level, va);
    } else {
      BlocksNest(levels, va, levels);
      FrameTranslate(fmt, levels, root, mem, owner, mem', f, i, root, va);
    }
  }

  lemma EmptyTable(fmt: PteFormat, mem: map<nat, seq<Word>>, x: nat, lv: Level, va: nat)
    requires Lawful(fmt) && Entry(mem, x, Index(va, lv)) == 0
    ensures TranslateFrom(fmt, mem, x, lv, va) == None
  {
  }
}
