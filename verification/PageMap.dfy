/** Mapping and unmapping pages, and the law that makes the table one flat partial map. */
module PageMap {
  import opened Arith
  import opened Options
  import opened PageTableEntry
  import opened PageWalk

  function Translate(fmt: PteFormat, levels: Level, s: State, va: nat): Option<Mapping> {
    TranslateFrom(fmt, s.mem, s.root, levels, va)
  }

  function AlignDown(p: nat, lv: Level): nat {
    p / Size(lv) * Size(lv)
  }

  /** `PageTable64::map`, for a page of level `leaf`. */
  function MapPage(fmt: PteFormat, levels: Level, s: State, va: nat, target: nat, leaf: Level, flags: MappingFlags)
    : (State, Result<()>)
  {
    var (s1, r) := WalkOrCreate(fmt, s, s.root, levels, leaf, va);
    match r
    case Err(error) => (s1, Err(error))
    case Ok(slot) =>
      if !IsUnused(Entry(s1.mem, slot.frame, slot.index)) then (s1, Err(AlreadyMapped))
      else
        var e := fmt.newPage(AlignDown(target, leaf), flags, leaf > 1);
        (s1.(mem := SetEntry(s1.mem, slot.frame, slot.index, e)), Ok(()))
  }

  /** `PageTable64::unmap`. */
  function UnmapPage(fmt: PteFormat, levels: Level, s: State, va: nat): (State, Result<(nat, Level)>) {
    match Walk(fmt, s.mem, s.root, levels, va)
    case Err(error) => (s, Err(error))
    case Ok(slot) =>
      var e := Entry(s.mem, slot.frame, slot.index);
      if IsUnused(e) then (s, Err(NotMapped))
      else (s.(mem := SetEntry(s.mem, slot.frame, slot.index, 0)), Ok((fmt.paddr(e), slot.level)))
  }

  /** `PageTable64::query`. */
  function QueryPage(fmt: PteFormat, levels: Level, s: State, va: nat): Result<Mapping> {
    match Walk(fmt, s.mem, s.root, levels, va)
    case Err(error) => Err(error)
    case Ok(slot) =>
      var e := Entry(s.mem, slot.frame, slot.index);
      if IsUnused(e) then Err(NotMapped)
      else Ok(Mapping(fmt.paddr(e) + va % Size(slot.level), fmt.flags(e), slot.level))
  }

  // ----- invariant -----

  /** The frames still to come from the allocator are aligned, new and all different. */
  ghost predicate FreshSupply(fmt: PteFormat, owner: map<nat, Loc>, supply: seq<Option<nat>>) {
    && (forall k | 0 <= k < |supply| && supply[k].Some? :: Fits(fmt, supply[k].value) && supply[k].value !in owner)
    && (forall j, k | 0 <= j < k < |supply| && supply[j].Some? :: supply[j] != supply[k])
  }

  ghost predicate ListsOwned(tables: seq<nat>, owner: map<nat, Loc>) {
    && (forall f :: f in tables <==> f in owner)
    && (forall j, k | 0 <= j < k < |tables| :: tables[j] != tables[k])
  }

  /** The table list names every table of the tree, each once. */
  ghost predicate Inv(fmt: PteFormat, levels: Level, s: State, owner: map<nat, Loc>) {
    && Tree(fmt, levels, s.root, s.mem, owner)
    && ListsOwned(s.tables, owner)
    && FreshSupply(fmt, owner, s.supply)
  }

  ghost predicate SameTranslations(fmt: PteFormat, levels: Level, s: State, s': State) {
    forall va: nat :: Translate(fmt, levels, s', va) == Translate(fmt, levels, s, va)
  }

  ghost predicate Extends(owner: map<nat, Loc>, owner': map<nat, Loc>) {
    forall f | f in owner :: f in owner' && owner'[f] == owner[f]
  }

  lemma TranslationsReflexive(fmt: PteFormat, levels: Level, s: State)
    ensures SameTranslations(fmt, levels, s, s)
  {
  }

  lemma TranslationsTransitive(fmt: PteFormat, levels: Level, s: State, s': State, s'': State)
    requires SameTranslations(fmt, levels, s, s') && SameTranslations(fmt, levels, s', s'')
    ensures SameTranslations(fmt, levels, s, s'')
  {
  }

  // ----- the creating walk -----

  lemma CreateStep(fmt: PteFormat, levels: Level, s: State, owner: map<nat, Loc>, f: nat, i: nat)
    returns (owner': map<nat, Loc>)
    requires Inv(fmt, levels, s, owner) && f in owner && i < 512 && owner[f].level > 1
    ensures var (s', r) := NextTableOrCreate(fmt, s, f, i);
            && Inv(fmt, levels, s', owner') && s'.root == s.root && Extends(owner, owner')
            && SameTranslations(fmt, levels, s, s')
            && (r.Ok? ==> r.value in owner' && owner'[r.value] == Loc(owner[f].level - 1, owner[f].prefix * 512 + i))
  {
    hide TableOk, Lawful, Parent, TranslateFrom;
    owner' := owner;
    var e := Entry(s.mem, f, i);
    if IsUnused(e) {
      if s.supply != [] && s.supply[0].Some? {
        var x := s.supply[0].value;
        owner' := AddOwner(owner, f, i, x);
        LinkTableTree(fmt, levels, s.root, s.mem, owner, f, i, x);
        forall va: nat
          ensures TranslateFrom(fmt, LinkTable(fmt, s.mem, f, i, x), s.root, levels, va)
               == TranslateFrom(fmt, s.mem, s.root, levels, va)
        {
          LinkTableTranslation(fmt, levels, s.root, s.mem, owner, f, i, x, va);
        }
      }
    } else {
      LinkedTable(fmt, levels, s.root, s.mem, owner, f, i);
    }
  }

  /** A present entry that is not huge, above the last level, links to the table of its block. */
  lemma LinkedTable(fmt: PteFormat, levels: Level, root: nat, mem: map<nat, seq<Word>>, owner: map<nat, Loc>,
                    f: nat, i: nat)
    requires Tree(fmt, levels, root, mem, owner) && f in owner && i < 512 && owner[f].level > 1
    requires !IsUnused(Entry(mem, f, i))
    ensures var r := NextTable(fmt, Entry(mem, f, i));
            && (r.Ok? ==> r.value in owner && owner[r.value] == Loc(owner[f].level - 1, owner[f].prefix * 512 + i))
            && (r.Err? ==> r.error == MappedToHugePage && NoLink(fmt, owner[f].level, Entry(mem, f, i)))
  {
    hide Lawful, Parent;
    assert TableOk(fmt, owner, mem, f);
    assert EntryOk(fmt, owner, owner[f], i, mem[f][i]);
  }

  lemma CreateWalk(fmt: PteFormat, levels: Level, s: State, owner: map<nat, Loc>, f: nat, leaf: Level, va: nat)
    returns (owner': map<nat, Loc>)
    requires Inv(fmt, levels, s, owner) && f in owner && Serves(levels, owner[f], va) && leaf <= owner[f].level
    ensures var (s', r) := WalkOrCreate(fmt, s, f, owner[f].level, leaf, va);
            && Inv(fmt, levels, s', owner') && s'.root == s.root && Extends(owner, owner')
            && SameTranslations(fmt, levels, s, s')
            && (r.Ok? ==> r.value.frame in owner' && r.value.level == leaf
                          && owner'[r.value.frame].level == leaf && Serves(levels, owner'[r.value.frame], va)
                          && r.value.index == Index(va, leaf))
    decreases owner[f].level
  {
    hide Inv, SameTranslations, NextTableOrCreate, Block, Size;
    var lv := owner[f].level;
    owner' := owner;
    TranslationsReflexive(fmt, levels, s);
    if leaf < lv {
      var i := Index(va, lv);
      IndexBelow(va, lv);
      BlocksNest(levels, va, lv);
      var owner1 := CreateStep(fmt, levels, s, owner, f, i);
      var (s1, r) := NextTableOrCreate(fmt, s, f, i);
      owner' := owner1;
      if r.Ok? {
        owner' := CreateWalk(fmt, levels, s1, owner1, r.value, leaf, va);
        TranslationsTransitive(fmt, levels, s, s1, WalkOrCreate(fmt, s1, r.value, lv - 1, leaf, va).0);
      }
    }
  }

  // ----- the lookup walk -----

  /** A walk that fails translates nothing; one that ends at a slot translates as its entry says. */
  ghost predicate Decides(fmt: PteFormat, levels: Level, mem: map<nat, seq<Word>>, owner: map<nat, Loc>,
                          va: nat, r: Result<Slot>, t: Option<Mapping>)
  {
    match r
    case Err(error) => error == NotMapped && t == None
    case Ok(slot) =>
      && slot.frame in owner && owner[slot.frame].level == slot.level && slot.level <= 3
      && Serves(levels, owner[slot.frame], va) && slot.index == Index(va, slot.level)
      && NoLink(fmt, slot.level, Entry(mem, slot.frame, slot.index))
      && t == Leaf(fmt, Entry(mem, slot.frame, slot.index), slot.level, va)
  }

  /** The lookup walk ends at the entry that decides the translation, or finds none. */
  lemma WalkCorrect(fmt: PteFormat, levels: Level, root: nat, mem: map<nat, seq<Word>>, owner: map<nat, Loc>,
                    f: nat, va: nat)
    requires Tree(fmt, levels, root, mem, owner) && f in owner && Serves(levels, owner[f], va)
    ensures Decides(fmt, levels, mem, owner, va, Walk(fmt, mem, f, owner[f].level, va),
                    TranslateFrom(fmt, mem, f, owner[f].level, va))
    decreases owner[f].level
  {
    hide Block, Size, Index, Tree, Leaf;
    var lv := owner[f].level;
    var i := Index(va, lv);
    IndexBelow(va, lv);
    var e := Entry(mem, f, i);
    EntryInOrder(fmt, levels, root, mem, owner, f, i);
    if lv > 1 && LinksTo(fmt, e, fmt.paddr(e)) {
      BlocksNest(levels, va, lv);
      WalkCorrect(fmt, levels, root, mem, owner, fmt.paddr(e), va);
    }
  }

  /** `va` and `v` lie in the same page of level `lv`. */
  predicate SamePage(levels: Level, lv: Level, va: nat, v: nat)
    requires 3 <= levels <= 4
  {
    Block(levels, va, lv) == Block(levels, v, lv)
  }

  /** A served address is in the block its index picks, together with exactly its page. */
  lemma BlockIsPage(levels: Level, at: Loc, va: nat, v: nat)
    requires Serves(levels, at, va)
    ensures InBlock(levels, at, Index(va, at.level), v) <==> SamePage(levels, at.level, va, v)
    ensures Index(va, at.level) < 512
  {
    hide Block, Size;
    BlocksNest(levels, va, at.level);
    IndexBelow(va, at.level);
  }

  // ----- laws of the three operations -----

  lemma RootServes(fmt: PteFormat, levels: Level, s: State, owner: map<nat, Loc>, va: nat)
    requires Inv(fmt, levels, s, owner)
    ensures s.root in owner && owner[s.root].level == levels && Serves(levels, owner[s.root], va)
  {
    hide Block, Size, TableOk, Parent, Lawful, ListsOwned, FreshSupply;
    BlocksNest(levels, va, levels);
  }

  /** `query` is the reference translation; `NotMapped` is its only error. */
  lemma QueryCorrect(fmt: PteFormat, levels: Level, s: State, owner: map<nat, Loc>, va: nat)
    requires Inv(fmt, levels, s, owner)
    ensures QueryPage(fmt, levels, s, va)
         == match Translate(fmt, levels, s, va) case None => Err(NotMapped) case Some(m) => Ok(m)
  {
    hide Size, Block, Tree, Serves, TranslateFrom;
    RootServes(fmt, levels, s, owner, va);
    assert Tree(fmt, levels, s.root, s.mem, owner) by { TreeOf(fmt, levels, s, owner); }
    WalkCorrect(fmt, levels, s.root, s.mem, owner, s.root, va);
  }

  lemma TreeOf(fmt: PteFormat, levels: Level, s: State, owner: map<nat, Loc>)
    requires Inv(fmt, levels, s, owner)
    ensures Tree(fmt, levels, s.root, s.mem, owner)
  {
  }

  /** What `map` of an aligned page leaves at `v`. */
  function MappedAt(fmt: PteFormat, target: nat, leaf: Level, flags: MappingFlags, v: nat): Mapping {
    Mapping(AlignDown(target, leaf) + v % Size(leaf), fmt.stored(flags), leaf)
  }

  ghost predicate MapAccepts(fmt: PteFormat, target: nat, leaf: Level, flags: MappingFlags) {
    leaf <= 3 && Fits(fmt, AlignDown(target, leaf)) && fmt.mappable(flags)
  }

  /** A successful `map` finds its page free and adds exactly it; a failed one changes no translation. */
  lemma MapCorrect(fmt: PteFormat, levels: Level, s: State, owner: map<nat, Loc>,
                   va: nat, target: nat, leaf: Level, flags: MappingFlags)
    returns (owner': map<nat, Loc>)
    requires Inv(fmt, levels, s, owner) && MapAccepts(fmt, target, leaf, flags)
    ensures var (s', r) := MapPage(fmt, levels, s, va, target, leaf, flags);
            && Inv(fmt, levels, s', owner') && s'.root == s.root && Extends(owner, owner')
            && forall v: nat ::
                 && (r.Ok? && SamePage(levels, leaf, va, v) ==> Translate(fmt, levels, s, v) == None)
                 && Translate(fmt, levels, s', v)
                    == if r.Ok? && SamePage(levels, leaf, va, v) then Some(MappedAt(fmt, target, leaf, flags, v))
                       else Translate(fmt, levels, s, v)
  {
    hide Inv, Tree, WalkOrCreate, Serves, TranslateFrom, Size, Block, Index, SetEntry, Entry, AlignDown, Fits;
    RootServes(fmt, levels, s, owner, va);
    TreeOf(fmt, levels, s, owner);
    TreeLevels(fmt, levels, s.root, s.mem, owner);
    owner' := CreateWalk(fmt, levels, s, owner, s.root, leaf, va);
    var (s1, r) := WalkOrCreate(fmt, s, s.root, levels, leaf, va);
    if r.Ok? && IsUnused(Entry(s1.mem, r.value.frame, r.value.index)) {
      var p := AlignDown(target, leaf);
      AlignedDown(target, leaf);
      PageEntry(fmt, levels, s1, owner', leaf, p, flags);
      WriteSlot(fmt, levels, s1, owner', r.value, fmt.newPage(p, flags, leaf > 1), va);
    }
  }

  /** Writing a leaf, or zero, into a slot without a table changes its page and nothing else. */
  lemma WriteSlot(fmt: PteFormat, levels: Level, s: State, owner: map<nat, Loc>, slot: Slot, e: Word, va: nat)
    requires Inv(fmt, levels, s, owner) && slot.frame in owner && owner[slot.frame].level == slot.level
    requires Serves(levels, owner[slot.frame], va) && slot.index == Index(va, slot.level)
    requires NoLink(fmt, slot.level, Entry(s.mem, slot.frame, slot.index)) && NoLink(fmt, slot.level, e)
    ensures var s' := s.(mem := SetEntry(s.mem, slot.frame, slot.index, e));
            && Inv(fmt, levels, s', owner)
            && forall v: nat ::
                 && Translate(fmt, levels, s', v)
                    == (if SamePage(levels, slot.level, va, v) then Leaf(fmt, e, slot.level, v)
                        else Translate(fmt, levels, s, v))
                 && (SamePage(levels, slot.level, va, v) ==>
                       Translate(fmt, levels, s, v) == Leaf(fmt, Entry(s.mem, slot.frame, slot.index), slot.level, v))
  {
    hide Tree, Serves, TranslateFrom, Size, Block, Index, ListsOwned, FreshSupply, NoLink, Leaf;
    var f, i := slot.frame, slot.index;
    BlockIsPage(levels, owner[f], va, va);
    WriteLeafTree(fmt, levels, s.root, s.mem, owner, f, i, e);
    forall v: nat
      ensures Translate(fmt, levels, s.(mem := SetEntry(s.mem, f, i, e)), v)
           == if SamePage(levels, slot.level, va, v) then Leaf(fmt, e, slot.level, v) else Translate(fmt, levels, s, v)
      ensures SamePage(levels, slot.level, va, v) ==>
                Translate(fmt, levels, s, v) == Leaf(fmt, Entry(s.mem, f, i), slot.level, v)
    {
      BlockIsPage(levels, owner[f], va, v);
      WriteLeaf(fmt, levels, s.root, s.mem, owner, f, i, e, v);
      if SamePage(levels, slot.level, va, v) {
        BlockTranslation(fmt, levels, s.root, s.mem, owner, f, i, v);
      }
    }
  }

  lemma TreeLevels(fmt: PteFormat, levels: Level, root: nat, mem: map<nat, seq<Word>>, owner: map<nat, Loc>)
    requires Tree(fmt, levels, root, mem, owner)
    ensures 3 <= levels <= 4
  {
  }

  /** The entry that `map` writes is a leaf that reads back. */
  lemma PageEntry(fmt: PteFormat, levels: Level, s: State, owner: map<nat, Loc>,
                  leaf: Level, p: nat, flags: MappingFlags)
    requires Inv(fmt, levels, s, owner) && leaf <= 3 && Fits(fmt, p) && p % Size(leaf) == 0 && fmt.mappable(flags)
    ensures var e := fmt.newPage(p, flags, leaf > 1);
            && NoLink(fmt, leaf, e) && !IsUnused(e)
            && forall v: nat :: Leaf(fmt, e, leaf, v) == Some(Mapping(p + v % Size(leaf), fmt.stored(flags), leaf))
  {
    hide Size;
    assert PageLaw(fmt, p, flags, leaf > 1);
    assert PageAt(fmt, leaf, fmt.newPage(p, flags, leaf > 1), p, flags);
  }

  lemma AlignedDown(p: nat, lv: Level)
    ensures AlignDown(p, lv) % Size(lv) == 0
  {
    Quotient(p / Size(lv), 0, Size(lv));
  }

  /** `unmap` reports and removes exactly the page that holds `va`, or fails and changes nothing. */
  lemma UnmapCorrect(fmt: PteFormat, levels: Level, s: State, owner: map<nat, Loc>, va: nat)
    requires Inv(fmt, levels, s, owner)
    ensures var (s', r) := UnmapPage(fmt, levels, s, va);
            && Inv(fmt, levels, s', owner) && s'.root == s.root
            && r == (match Translate(fmt, levels, s, va)
                     case None => Err(NotMapped)
                     case Some(m) => Ok((m.paddr - va % Size(m.level), m.level)))
            && forall v: nat ::
                 Translate(fmt, levels, s', v)
                 == if r.Ok? && SamePage(levels, r.value.1, va, v) then None else Translate(fmt, levels, s, v)
  {
    hide Tree, Serves, TranslateFrom, Size, Block, Index, ListsOwned, FreshSupply;
    RootServes(fmt, levels, s, owner, va);
    TreeLevels(fmt, levels, s.root, s.mem, owner);
    WalkCorrect(fmt, levels, s.root, s.mem, owner, s.root, va);
    var r := Walk(fmt, s.mem, s.root, levels, va);
    if r.Ok? && !IsUnused(Entry(s.mem, r.value.frame, r.value.index)) {
      WriteSlot(fmt, levels, s, owner, r.value, 0, va);
    }
  }
}
