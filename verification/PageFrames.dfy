/** The frames a page table owns: the list kept for `drop` names exactly the tables the walk
    can reach, each once, and each but the root hangs below exactly one entry. */
module PageFrames {
  import opened Arith
  import opened Options
  import opened PageTableEntry
  import opened PageWalk
  import opened PageMap
  import opened PageRuns

  /** The table at level `to` that the walk for `va` passes, starting in `f` at level `lv`. */
  function TableAt(fmt: PteFormat, mem: map<nat, seq<Word>>, f: nat, lv: Level, to: Level, va: nat): Option<nat>
    decreases lv
  {
    if lv <= to then Some(f)
    else match NextTable(fmt, Entry(mem, f, Index(va, lv)))
      case Err(_) => None
      case Ok(g) => TableAt(fmt, mem, g, lv - 1, to, va)
  }

  /** A table the walk passes serves the address. */
  lemma PassedIsOwned(fmt: PteFormat, levels: Level, root: nat, mem: map<nat, seq<Word>>, owner: map<nat, Loc>,
                      f: nat, to: Level, va: nat)
    requires Tree(fmt, levels, root, mem, owner) && f in owner && Serves(levels, owner[f], va) && to <= owner[f].level
    ensures var r := TableAt(fmt, mem, f, owner[f].level, to, va);
            r.Some? ==> r.value in owner && owner[r.value] == Loc(to, Block(levels, va, to + 1))
    decreases owner[f].level
  {
    hide Size, Block, TableOk, Parent, Lawful;
    var lv := owner[f].level;
    if to < lv {
      var i := Index(va, lv);
      IndexBelow(va, lv);
      BlocksNest(levels, va, lv);
      var e := Entry(mem, f, i);
      if !IsUnused(e) {
        LinkedTable(fmt, levels, root, mem, owner, f, i);
        if NextTable(fmt, e).Ok? {
          PassedIsOwned(fmt, levels, root, mem, owner, NextTable(fmt, e).value, to, va);
        }
      } else {
        assert !fmt.isPresent(0) by { ZeroAbsent(fmt, levels, root, mem, owner); }
      }
    }
  }

  lemma ZeroAbsent(fmt: PteFormat, levels: Level, root: nat, mem: map<nat, seq<Word>>, owner: map<nat, Loc>)
    requires Tree(fmt, levels, root, mem, owner)
    ensures !fmt.isPresent(0)
  {
  }

  /** Going one level further is one more step. */
  lemma OneMoreStep(fmt: PteFormat, mem: map<nat, seq<Word>>, f: nat, lv: Level, to: Level, va: nat)
    requires to < lv
    ensures TableAt(fmt, mem, f, lv, to, va)
         == match TableAt(fmt, mem, f, lv, to + 1, va)
            case None => None
            case Some(g) => TableAt(fmt, mem, g, to + 1, to, va)
    decreases lv
  {
    if to + 1 < lv {
      var r := NextTable(fmt, Entry(mem, f, Index(va, lv)));
      if r.Ok? {
        OneMoreStep(fmt, mem, r.value, lv - 1, to, va);
      }
    }
  }

  lemma ParentOf(fmt: PteFormat, levels: Level, root: nat, mem: map<nat, seq<Word>>, owner: map<nat, Loc>, f: nat)
    returns (g: nat)
    requires Tree(fmt, levels, root, mem, owner) && f in owner
    ensures f != root ==> Parent(fmt, owner, mem, f, g) && owner[g].level <= levels
    ensures f == root ==> owner[f].level == levels
  {
    hide TableOk, Lawful, LinksTo;
    g := 0;
    if f != root {
      g :| Parent(fmt, owner, mem, f, g);
    }
  }

  /** Every owned table is passed by the walk of every address it serves. */
  lemma OwnedIsPassed(fmt: PteFormat, levels: Level, root: nat, mem: map<nat, seq<Word>>, owner: map<nat, Loc>,
                      f: nat, va: nat)
    requires Tree(fmt, levels, root, mem, owner) && f in owner && Serves(levels, owner[f], va)
    ensures TableAt(fmt, mem, root, levels, owner[f].level, va) == Some(f)
    decreases levels - owner[f].level
  {
    hide Tree, Serves, TableAt;
    var g := ParentOf(fmt, levels, root, mem, owner, f);
    if f != root {
      ParentStep(fmt, levels, mem, owner, f, g, va);
      OwnedIsPassed(fmt, levels, root, mem, owner, g, va);
      OneMoreStep(fmt, mem, root, levels, owner[f].level, va);
      ParentLink(fmt, levels, mem, owner, f, g, va);
    } else {
      assert TableAt(fmt, mem, root, levels, levels, va) == Some(root) by { StayPut(fmt, mem, root, levels, va); }
    }
  }

  lemma StayPut(fmt: PteFormat, mem: map<nat, seq<Word>>, f: nat, lv: Level, va: nat)
    ensures TableAt(fmt, mem, f, lv, lv, va) == Some(f)
  {
  }

  lemma ParentLink(fmt: PteFormat, levels: Level, mem: map<nat, seq<Word>>, owner: map<nat, Loc>,
                   f: nat, g: nat, va: nat)
    requires f in owner && Parent(fmt, owner, mem, f, g)
    requires Serves(levels, owner[f], va) && owner[g].level <= levels
    ensures TableAt(fmt, mem, g, owner[f].level + 1, owner[f].level, va) == Some(f)
  {
    hide Size, Block;
    BlocksNest(levels, va, owner[g].level);
    IndexBelow(va, owner[g].level);
  }

  /** Every owned table serves some address. */
  lemma ServesSome(fmt: PteFormat, levels: Level, root: nat, mem: map<nat, seq<Word>>, owner: map<nat, Loc>, f: nat)
    returns (va: nat)
    requires Tree(fmt, levels, root, mem, owner) && f in owner
    ensures Serves(levels, owner[f], va)
    decreases levels - owner[f].level
  {
    hide TableOk, Lawful, LinksTo;
    if f == root {
      va := 0;
    } else {
      var g :| Parent(fmt, owner, mem, f, g);
      var va' := ServesSome(fmt, levels, root, mem, owner, g);
      va := owner[f].prefix * Size(owner[f].level + 1);
      FirstAddress(levels, owner[f].level, owner[f].prefix, va');
    }
  }

  lemma FirstAddress(levels: Level, lv: Level, prefix: nat, va: nat)
    requires 3 <= levels <= 4 && lv < levels && Block(levels, va, lv + 2) == prefix / 512
    ensures Block(levels, prefix * Size(lv + 1), lv + 1) == prefix
  {
    var d, y := Size(lv + 1), va % Span(levels);
    var m := match levels - lv
      case 1 => 1
      case 2 => 512
      case _ => 0x4_0000;
    assert d * 512 == Size(lv + 2) && m * (d * 512) == Span(levels);
    BlockStart(d, m, prefix, y);
    Quotient(prefix, 0, d);
  }

  lemma BlockStart(d: nat, m: nat, p: nat, y: nat)
    requires d > 0 && y < m * (d * 512) && y / (d * 512) == p / 512
    ensures p * d < m * (d * 512)
  {
    var q := p / 512;
    if q >= m {
      MulMonotone(m, q, d * 512);
    } else {
      MulMonotone(q + 1, m, d * 512);
      MulMonotone(p + 1, 512 * (q + 1), d);
    }
  }

  /** Some walk from the root passes the table in frame `f`. */
  ghost predicate Reachable(fmt: PteFormat, levels: Level, s: State, f: nat) {
    exists lv: Level, va: nat :: lv <= levels && TableAt(fmt, s.mem, s.root, levels, lv, va) == Some(f)
  }

  /** The list kept for `drop` is exactly the set of tables the walk can pass. */
  lemma ListIsReachable(fmt: PteFormat, levels: Level, s: State, owner: map<nat, Loc>, f: nat)
    requires Inv(fmt, levels, s, owner)
    ensures f in s.tables <==> Reachable(fmt, levels, s, f)
    ensures forall j, k | 0 <= j < k < |s.tables| :: s.tables[j] != s.tables[k]
  {
    hide Tree, FreshSupply, TableAt;
    if f in s.tables {
      var va := ServesSome(fmt, levels, s.root, s.mem, owner, f);
      OwnedIsPassed(fmt, levels, s.root, s.mem, owner, f, va);
    }
    forall lv: Level, va: nat | lv <= levels && TableAt(fmt, s.mem, s.root, levels, lv, va) == Some(f)
      ensures f in s.tables
    {
      RootServes(fmt, levels, s, owner, va);
      PassedIsOwned(fmt, levels, s.root, s.mem, owner, s.root, lv, va);
    }
  }

  /** Entry `i` of table `g`, above the last level, links to `f`. */
  ghost predicate LinkAt(fmt: PteFormat, s: State, owner: map<nat, Loc>, g: nat, i: nat, f: nat) {
    g in owner && i < 512 && owner[g].level > 1 && LinksTo(fmt, Entry(s.mem, g, i), f)
  }

  /** Every table but the root hangs below exactly one entry of one table; nothing links to the root. */
  lemma OneLink(fmt: PteFormat, levels: Level, s: State, owner: map<nat, Loc>, f: nat)
    requires Inv(fmt, levels, s, owner) && f in s.tables
    ensures f != s.root <==> exists g, i :: LinkAt(fmt, s, owner, g, i, f)
    ensures forall g, i, g', i' | LinkAt(fmt, s, owner, g, i, f) && LinkAt(fmt, s, owner, g', i', f) :: g == g' && i == i'
  {
    hide FreshSupply, Lawful;
    if f != s.root {
      var g :| Parent(fmt, owner, s.mem, f, g);
      assert LinkAt(fmt, s, owner, g, owner[f].prefix % 512, f);
    }
    forall g, i | LinkAt(fmt, s, owner, g, i, f) ensures owner[f] == Loc(owner[g].level - 1, owner[g].prefix * 512 + i) {
      LinkedTable(fmt, levels, s.root, s.mem, owner, g, i);
    }
  }

  // ----- when a huge page is refused -----

  /** A walk through a new, empty table ends at an unused entry. */
  lemma CreatedIsUnused(fmt: PteFormat, levels: Level, s: State, owner: map<nat, Loc>, f: nat, leaf: Level, va: nat)
    requires Inv(fmt, levels, s, owner) && f in owner && Serves(levels, owner[f], va) && leaf <= owner[f].level
    requires IsUnused(Entry(s.mem, f, Index(va, owner[f].level)))
    ensures var (s', r) := WalkOrCreate(fmt, s, f, owner[f].level, leaf, va);
            r.Ok? ==> IsUnused(Entry(s'.mem, r.value.frame, r.value.index))
    decreases owner[f].level
  {
    hide Size, Block, Tree, Index, ListsOwned;
    var lv := owner[f].level;
    if leaf < lv {
      var i := Index(va, lv);
      IndexBelow(va, lv);
      BlocksNest(levels, va, lv);
      var owner1 := CreateStep(fmt, levels, s, owner, f, i);
      var (s1, r) := NextTableOrCreate(fmt, s, f, i);
      if r.Ok? {
        IndexBelow(va, lv - 1);
        CreatedIsUnused(fmt, levels, s1, owner1, r.value, leaf, va);
      }
    }
  }

  /** A creating walk that ends at an entry in use has created nothing. */
  lemma UsedIsOld(fmt: PteFormat, levels: Level, s: State, owner: map<nat, Loc>, f: nat, leaf: Level, va: nat)
    requires Inv(fmt, levels, s, owner) && f in owner && Serves(levels, owner[f], va) && leaf <= owner[f].level
    ensures var (s', r) := WalkOrCreate(fmt, s, f, owner[f].level, leaf, va);
            r.Ok? && !IsUnused(Entry(s'.mem, r.value.frame, r.value.index)) ==>
              s' == s && TableAt(fmt, s.mem, f, owner[f].level, leaf, va) == Some(r.value.frame)
    decreases owner[f].level
  {
    hide Size, Block, Inv, Index, Tree, Entry, SetEntry, AllocTable;
    var lv := owner[f].level;
    if leaf < lv {
      var i := Index(va, lv);
      IndexBelow(va, lv);
      BlocksNest(levels, va, lv);
      if IsUnused(Entry(s.mem, f, i)) {
        CreatedIsUnused(fmt, levels, s, owner, f, leaf, va);
      } else {
        TreeOf(fmt, levels, s, owner);
        LinkedTable(fmt, levels, s.root, s.mem, owner, f, i);
        var r := NextTable(fmt, Entry(s.mem, f, i));
        if r.Ok? {
          UsedIsOld(fmt, levels, s, owner, r.value, leaf, va);
        }
      }
    }
  }

  /** Where the tables already exist the creating walk only follows them. */
  lemma FollowsTables(fmt: PteFormat, s: State, f: nat, lv: Level, leaf: Level, va: nat)
    requires !fmt.isPresent(0) && leaf <= lv && TableAt(fmt, s.mem, f, lv, leaf, va).Some?
    ensures WalkOrCreate(fmt, s, f, lv, leaf, va)
         == (s, Ok(Slot(TableAt(fmt, s.mem, f, lv, leaf, va).value, Index(va, leaf), leaf)))
    decreases lv
  {
    if leaf < lv {
      FollowsTables(fmt, s, NextTable(fmt, Entry(s.mem, f, Index(va, lv))).value, lv - 1, leaf, va);
    }
  }

  /** `map` says AlreadyMapped exactly when a page of the same size is there, or a lower table,
      even one whose every page has been unmapped again. */
  lemma RefusedExactly(fmt: PteFormat, levels: Level, s: State, owner: map<nat, Loc>,
                       va: nat, target: nat, leaf: Level, flags: MappingFlags)
    requires Inv(fmt, levels, s, owner) && leaf <= 3
    ensures var t := Translate(fmt, levels, s, va);
            MapPage(fmt, levels, s, va, target, leaf, flags).1 == Err(AlreadyMapped) <==>
              || (t.Some? && t.value.level == leaf)
              || (leaf > 1 && TableAt(fmt, s.mem, s.root, levels, leaf - 1, va).Some?)
  {
    hide Size, Block, Index, TranslateFrom, Inv, TableAt, Entry, Tree, AlignDown, SetEntry;
    MapOutcome(fmt, levels, s, owner, va, target, leaf, flags);
    TreeOf(fmt, levels, s, owner);
    TreeLevels(fmt, levels, s.root, s.mem, owner);
    ZeroAbsent(fmt, levels, s.root, s.mem, owner);
    if leaf > 1 && TableAt(fmt, s.mem, s.root, levels, leaf - 1, va).Some? {
      OneMoreStep(fmt, s.mem, s.root, levels, leaf - 1, va);
      FollowsTables(fmt, s, s.root, levels, leaf, va);
      LinkUsed(fmt, s.mem, TableAt(fmt, s.mem, s.root, levels, leaf, va).value, leaf, va);
    } else if MapPage(fmt, levels, s, va, target, leaf, flags).1 == Err(AlreadyMapped) {
      RefusedBy(fmt, levels, s, owner, va, target, leaf, flags);
    }
  }

  lemma LinkUsed(fmt: PteFormat, mem: map<nat, seq<Word>>, f: nat, lv: Level, va: nat)
    requires lv > 1 && TableAt(fmt, mem, f, lv, lv - 1, va).Some? && !fmt.isPresent(0)
    ensures !IsUnused(Entry(mem, f, Index(va, lv)))
  {
  }

  lemma RefusedBy(fmt: PteFormat, levels: Level, s: State, owner: map<nat, Loc>,
                  va: nat, target: nat, leaf: Level, flags: MappingFlags)
    requires Inv(fmt, levels, s, owner) && leaf <= 3
    requires MapPage(fmt, levels, s, va, target, leaf, flags).1 == Err(AlreadyMapped)
    ensures var t := Translate(fmt, levels, s, va);
            (t.Some? && t.value.level == leaf) || (leaf > 1 && TableAt(fmt, s.mem, s.root, levels, leaf - 1, va).Some?)
  {
    hide Size, Block, TranslateFrom, Index, TableAt, AlignDown, SetEntry, Tree, FreshSupply, ListsOwned;
    RootServes(fmt, levels, s, owner, va);
    TreeLevels(fmt, levels, s.root, s.mem, owner);
    ZeroAbsent(fmt, levels, s.root, s.mem, owner);
    hide WalkOrCreate;
    var (s1, r) := WalkOrCreate(fmt, s, s.root, levels, leaf, va);
    if r.Err? {
      CreateError(fmt, levels, s, owner, s.root, leaf, va);
    } else {
      UsedIsOld(fmt, levels, s, owner, s.root, leaf, va);
      var f := r.value.frame;
      PassedIsOwned(fmt, levels, s.root, s.mem, owner, s.root, leaf, va);
      FollowsTables(fmt, s, s.root, levels, leaf, va);
      UsedEntry(fmt, levels, s, owner, f, leaf, va);
      if leaf > 1 {
        OneMoreStep(fmt, s.mem, s.root, levels, leaf - 1, va);
      }
    }
  }

  lemma UsedEntry(fmt: PteFormat, levels: Level, s: State, owner: map<nat, Loc>, f: nat, leaf: Level, va: nat)
    requires Inv(fmt, levels, s, owner) && f in owner && owner[f].level == leaf <= 3 && Serves(levels, owner[f], va)
    requires !IsUnused(Entry(s.mem, f, Index(va, leaf)))
    ensures var t := Translate(fmt, levels, s, va);
            (t.Some? && t.value.level == leaf) || (leaf > 1 && TableAt(fmt, s.mem, f, leaf, leaf - 1, va).Some?)
  {
    hide Size, Block, TranslateFrom, Index, Parent, Lawful;
    var i := Index(va, leaf);
    BlockIsPage(levels, owner[f], va, va);
    assert TableOk(fmt, owner, s.mem, f);
    assert EntryOk(fmt, owner, owner[f], i, s.mem[f][i]);
    if NoLink(fmt, leaf, Entry(s.mem, f, i)) {
      BlockTranslation(fmt, levels, s.root, s.mem, owner, f, i, va);
    }
  }

  /** `unmap` undoes `map`, except that the tables stay: a 4K page mapped and unmapped again
      leaves every translation as it was, and a 2M page there is refused. */
  lemma UnmapUndoesMap(fmt: PteFormat, levels: Level, s: State, owner: map<nat, Loc>,
                       va: nat, target: nat, target': nat, flags: MappingFlags)
    requires Inv(fmt, levels, s, owner) && MapAccepts(fmt, target, 1, flags)
    requires MapPage(fmt, levels, s, va, target, 1, flags).1.Ok?
    ensures var s1 := MapPage(fmt, levels, s, va, target, 1, flags).0;
            var (s2, r) := UnmapPage(fmt, levels, s1, va);
            && r == Ok((AlignDown(target, 1), 1)) && SameTranslations(fmt, levels, s, s2)
            && MapPage(fmt, levels, s2, va, target', 2, flags).1 == Err(AlreadyMapped)
  {
    hide Size, Block, TranslateFrom, Index, Tree, MapPage, UnmapPage, Serves, Walk, Inv;
    TreeOf(fmt, levels, s, owner);
    TreeLevels(fmt, levels, s.root, s.mem, owner);
    var owner' := MapCorrect(fmt, levels, s, owner, va, target, 1, flags);
    var s1 := MapPage(fmt, levels, s, va, target, 1, flags).0;
    assert Translate(fmt, levels, s1, va) == Some(MappedAt(fmt, target, 1, flags, va));
    UnmapCorrect(fmt, levels, s1, owner', va);
    var s2 := UnmapPage(fmt, levels, s1, va).0;
    TableStays(fmt, levels, s1, owner', s2, va);
    RefusedExactly(fmt, levels, s2, owner', va, target', 2, flags);
  }

  /** The last-level table of a mapped 4K page is still passed after a call that keeps the places. */
  lemma TableStays(fmt: PteFormat, levels: Level, s: State, owner: map<nat, Loc>, s': State, va: nat)
    requires Inv(fmt, levels, s, owner) && Inv(fmt, levels, s', owner)
    requires Translate(fmt, levels, s, va).Some? && Translate(fmt, levels, s, va).value.level == 1
    ensures TableAt(fmt, s'.mem, s'.root, levels, 1, va).Some?
  {
    hide Size, Block, TranslateFrom, Index, Tree, Serves, Walk, TableAt, FreshSupply, ListsOwned;
    RootServes(fmt, levels, s, owner, va);
    WalkCorrect(fmt, levels, s.root, s.mem, owner, s.root, va);
    var slot := Walk(fmt, s.mem, s.root, levels, va).value;
    OwnedIsPassed(fmt, levels, s'.root, s'.mem, owner, slot.frame, va);
  }

  // ----- running out of frames -----

  /** How many tables the creating walk still has to make on the way down to level `leaf`. */
  function Missing(fmt: PteFormat, mem: map<nat, seq<Word>>, f: nat, lv: Level, leaf: Level, va: nat): nat
    decreases lv
  {
    if lv <= leaf then 0
    else if IsUnused(Entry(mem, f, Index(va, lv))) then lv - leaf
    else match NextTable(fmt, Entry(mem, f, Index(va, lv)))
      case Err(_) => 0
      case Ok(g) => Missing(fmt, mem, g, lv - 1, leaf, va)
  }

  /** The allocator gives a frame for each of the next `n` requests. */
  predicate Gives(supply: seq<Option<nat>>, n: nat) {
    n <= |supply| && forall k | 0 <= k < n :: supply[k].Some?
  }

  /** Below a new table all further tables are missing. */
  lemma NewTableMisses(fmt: PteFormat, mem: map<nat, seq<Word>>, x: nat, lv: Level, leaf: Level, va: nat)
    requires x in mem && mem[x] == seq(512, _ => 0) && leaf <= lv
    ensures Missing(fmt, mem, x, lv, leaf, va) == lv - leaf
  {
    IndexBelow(va, lv);
  }

  lemma CreateMisses(fmt: PteFormat, levels: Level, s: State, owner: map<nat, Loc>, f: nat, leaf: Level, va: nat)
    requires Inv(fmt, levels, s, owner) && f in owner && Serves(levels, owner[f], va) && leaf <= owner[f].level
    ensures var n := Missing(fmt, s.mem, f, owner[f].level, leaf, va);
            var (s', r) := WalkOrCreate(fmt, s, f, owner[f].level, leaf, va);
            && (r == Err(NoMemory) <==> !Gives(s.supply, n))
            && (r.Ok? ==> n <= |s.supply| && s'.supply == s.supply[n..])
    decreases owner[f].level
  {
    hide Inv, Block, Size, Tree, Gives, Index;
    var lv := owner[f].level;
    GivesNone(s.supply);
    if leaf < lv {
      var i := Index(va, lv);
      IndexBelow(va, lv);
      BlocksNest(levels, va, lv);
      var owner1 := CreateStep(fmt, levels, s, owner, f, i);
      var (s1, r) := NextTableOrCreate(fmt, s, f, i);
      if r.Ok? {
        CreateMisses(fmt, levels, s1, owner1, r.value, leaf, va);
        if IsUnused(Entry(s.mem, f, i)) {
          FreshFrame(fmt, levels, s, owner, f);
          NewTableMisses(fmt, s1.mem, r.value, lv - 1, leaf, va);
          GivesOne(s.supply, lv - 1 - leaf);
        }
      } else if !IsUnused(Entry(s.mem, f, i)) {
        TreeOf(fmt, levels, s, owner);
        LinkedTable(fmt, levels, s.root, s.mem, owner, f, i);
      } else {
        FailsAtOnce(s.supply, lv - leaf);
      }
    }
  }

  lemma GivesNone(supply: seq<Option<nat>>)
    ensures Gives(supply, 0) && supply[0..] == supply
  {
  }

  lemma GivesOne(supply: seq<Option<nat>>, n: nat)
    requires supply != [] && supply[0].Some?
    ensures Gives(supply, n + 1) <==> Gives(supply[1..], n)
    ensures n + 1 <= |supply| ==> supply[1..][n..] == supply[n + 1..]
  {
    if Gives(supply[1..], n) {
      forall k | 0 <= k < n + 1 ensures supply[k].Some? {
        assert k > 0 ==> supply[k] == supply[1..][k - 1];
      }
    }
  }

  lemma FailsAtOnce(supply: seq<Option<nat>>, n: nat)
    requires n > 0 && (supply == [] || supply[0].None?)
    ensures !Gives(supply, n)
  {
  }

  lemma FreshFrame(fmt: PteFormat, levels: Level, s: State, owner: map<nat, Loc>, f: nat)
    requires Inv(fmt, levels, s, owner) && f in owner
    ensures s.supply != [] && s.supply[0].Some? ==> s.supply[0].value != f
  {
    hide Tree;
  }

  /** `map` runs out of memory exactly if the allocator fails before it has given a frame for
      each missing table; a successful `map` takes exactly that many frames. */
  lemma NoMemoryExactly(fmt: PteFormat, levels: Level, s: State, owner: map<nat, Loc>,
                        va: nat, target: nat, leaf: Level, flags: MappingFlags)
    requires Inv(fmt, levels, s, owner) && leaf <= 3
    ensures var n := Missing(fmt, s.mem, s.root, levels, leaf, va);
            var (s', r) := MapPage(fmt, levels, s, va, target, leaf, flags);
            && (r == Err(NoMemory) <==> !Gives(s.supply, n))
            && (r.Ok? ==> n <= |s.supply| && s'.supply == s.supply[n..])
  {
    hide Inv, WalkOrCreate, Missing, Gives;
    RootServes(fmt, levels, s, owner, va);
    TreeOf(fmt, levels, s, owner);
    TreeLevels(fmt, levels, s.root, s.mem, owner);
    hide Tree, Serves;
    CreateMisses(fmt, levels, s, owner, s.root, leaf, va);
  }

  /** `map` succeeds exactly if no page holds the address, no lower table is in the place, and the
      allocator gives every missing table. */
  lemma SucceedsExactly(fmt: PteFormat, levels: Level, s: State, owner: map<nat, Loc>,
                        va: nat, target: nat, leaf: Level, flags: MappingFlags)
    requires Inv(fmt, levels, s, owner) && leaf <= 3
    ensures MapPage(fmt, levels, s, va, target, leaf, flags).1.Ok? <==>
              && Translate(fmt, levels, s, va).None?
              && (leaf > 1 ==> TableAt(fmt, s.mem, s.root, levels, leaf - 1, va).None?)
              && Gives(s.supply, Missing(fmt, s.mem, s.root, levels, leaf, va))
  {
    hide *;
    MapOutcome(fmt, levels, s, owner, va, target, leaf, flags);
    RefusedExactly(fmt, levels, s, owner, va, target, leaf, flags);
    NoMemoryExactly(fmt, levels, s, owner, va, target, leaf, flags);
    var r := MapPage(fmt, levels, s, va, target, leaf, flags).1;
    match r {
      case Err(NoMemory) =>
      case Err(AlreadyMapped) =>
      case Err(MappedToHugePage) =>
      case _ =>
    }
  }
}
