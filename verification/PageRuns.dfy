/** Whole runs of `map` and `unmap` against a flat partial map, which outcome each call may
    have, and which frames the table owns. */
module PageRuns {
  import opened Arith
  import opened Options
  import opened PageTableEntry
  import opened PageWalk
  import opened PageMap

  // ----- which errors are possible, and when -----

  /** The bigger page that a failed walk met, or the empty spot it could not build on. */
  ghost predicate ErrorMeans(t: Option<Mapping>, leaf: Level, error: PagingError) {
    || (error == MappedToHugePage && t.Some? && t.value.level > leaf)
    || (error == NoMemory && t.None?)
  }

  lemma StepError(fmt: PteFormat, levels: Level, s: State, owner: map<nat, Loc>, f: nat, leaf: Level, va: nat)
    requires Inv(fmt, levels, s, owner) && f in owner && Serves(levels, owner[f], va) && leaf < owner[f].level
    requires NextTableOrCreate(fmt, s, f, Index(va, owner[f].level)).1.Err?
    ensures ErrorMeans(Translate(fmt, levels, s, va), leaf,
                       NextTableOrCreate(fmt, s, f, Index(va, owner[f].level)).1.error)
  {
    hide Block, Size, Index, TranslateFrom, Serves, ListsOwned, FreshSupply, Tree;
    var i := Index(va, owner[f].level);
    BlockIsPage(levels, owner[f], va, va);
    if !IsUnused(Entry(s.mem, f, i)) {
      LinkedTable(fmt, levels, s.root, s.mem, owner, f, i);
    }
    BlockTranslation(fmt, levels, s.root, s.mem, owner, f, i, va);
  }

  lemma CreateError(fmt: PteFormat, levels: Level, s: State, owner: map<nat, Loc>, f: nat, leaf: Level, va: nat)
    requires Inv(fmt, levels, s, owner) && f in owner && Serves(levels, owner[f], va) && leaf <= owner[f].level
    requires WalkOrCreate(fmt, s, f, owner[f].level, leaf, va).1.Err?
    ensures ErrorMeans(Translate(fmt, levels, s, va), leaf, WalkOrCreate(fmt, s, f, owner[f].level, leaf, va).1.error)
    decreases owner[f].level
  {
    hide Block, Size, TranslateFrom, Inv, NextTableOrCreate, ErrorMeans;
    var lv := owner[f].level;
    var i := Index(va, lv);
    IndexBelow(va, lv);
    var (s1, r) := NextTableOrCreate(fmt, s, f, i);
    if r.Err? {
      StepError(fmt, levels, s, owner, f, leaf, va);
    } else {
      var owner1 := CreateStep(fmt, levels, s, owner, f, i);
      BlocksNest(levels, va, lv);
      CreateError(fmt, levels, s1, owner1, r.value, leaf, va);
    }
  }

  lemma LevelBound(fmt: PteFormat, mem: map<nat, seq<Word>>, f: nat, lv: Level, va: nat)
    ensures var t := TranslateFrom(fmt, mem, f, lv, va); t.Some? ==> t.value.level <= lv
  {
  }

  /** `map` meets a bigger page exactly when one holds the address; it finds the page taken
      exactly by a page of its own size or, for a huge page, by a table already in its place. */
  lemma MapOutcome(fmt: PteFormat, levels: Level, s: State, owner: map<nat, Loc>,
                   va: nat, target: nat, leaf: Level, flags: MappingFlags)
    requires Inv(fmt, levels, s, owner) && leaf <= 3
    ensures var r := MapPage(fmt, levels, s, va, target, leaf, flags).1;
            var t := Translate(fmt, levels, s, va);
            && (r == Err(MappedToHugePage) <==> t.Some? && t.value.level > leaf)
            && (r == Err(NoMemory) ==> t.None?)
            && (r == Err(AlreadyMapped) ==> (t.Some? && t.value.level == leaf) || leaf > 1)
            && (r.Ok? ==> t.None?)
            && r != Err(NotMapped) && r != Err(NotAligned)
            && (t.Some? && t.value.level <= leaf ==> r == Err(AlreadyMapped))
  {
    hide Block, Size, Index, TranslateFrom, ListsOwned, FreshSupply, Tree;
    RootServes(fmt, levels, s, owner, va);
    TreeLevels(fmt, levels, s.root, s.mem, owner);
    var (s1, r) := WalkOrCreate(fmt, s, s.root, levels, leaf, va);
    if r.Err? {
      CreateError(fmt, levels, s, owner, s.root, leaf, va);
    } else {
      var owner' := CreateWalk(fmt, levels, s, owner, s.root, leaf, va);
      var f := r.value.frame;
      ReachTable(fmt, levels, s1.root, s1.mem, owner', f, va);
      LevelBound(fmt, s1.mem, f, leaf, va);
      SlotDecides(fmt, levels, s1, owner', f, leaf, va);
    }
  }

  /** In a table at the page's level the entry is unused exactly when nothing there is mapped,
      unless it links to a lower table. */
  lemma SlotDecides(fmt: PteFormat, levels: Level, s: State, owner: map<nat, Loc>, f: nat, leaf: Level, va: nat)
    requires Inv(fmt, levels, s, owner) && f in owner && owner[f].level == leaf <= 3 && Serves(levels, owner[f], va)
    ensures var e := Entry(s.mem, f, Index(va, leaf));
            var t := Translate(fmt, levels, s, va);
            && (IsUnused(e) ==> t.None?)
            && (!IsUnused(e) && leaf == 1 ==> t.Some? && t.value.level == 1)
  {
    hide Block, Size, Index, TranslateFrom, ListsOwned, FreshSupply, Serves;
    var i := Index(va, leaf);
    BlockIsPage(levels, owner[f], va, va);
    assert TableOk(fmt, owner, s.mem, f);
    assert EntryOk(fmt, owner, owner[f], i, s.mem[f][i]);
    if NoLink(fmt, leaf, Entry(s.mem, f, i)) {
      BlockTranslation(fmt, levels, s.root, s.mem, owner, f, i, va);
    }
  }

  // ----- runs -----

  datatype Op = Map(va: nat, target: nat, leaf: Level, flags: MappingFlags) | Unmap(va: nat)

  datatype Outcome = Mapped(r: Result<()>) | Unmapped(page: Result<(nat, Level)>)

  function Step(fmt: PteFormat, levels: Level, s: State, op: Op): (State, Outcome) {
    match op
    case Map(va, target, leaf, flags) =>
      var (s', r) := MapPage(fmt, levels, s, va, target, leaf, flags);
      (s', Mapped(r))
    case Unmap(va) =>
      var (s', r) := UnmapPage(fmt, levels, s, va);
      (s', Unmapped(r))
  }

  /** The state after a run of calls, and what each call returned. */
  function Run(fmt: PteFormat, levels: Level, s: State, ops: seq<Op>): (State, seq<Outcome>)
    decreases |ops|
  {
    if ops == [] then (s, [])
    else
      var (s1, out) := Step(fmt, levels, s, ops[0]);
      var (s2, outs) := Run(fmt, levels, s1, ops[1..]);
      (s2, [out] + outs)
  }

  ghost predicate Accepts(fmt: PteFormat, op: Op) {
    op.Map? ==> MapAccepts(fmt, op.target, op.leaf, op.flags)
  }

  /** The flat map: every address of the index range that is mapped, with its translation. */
  type Flat = imap<nat, Mapping>

  ghost function FlatOf(fmt: PteFormat, levels: Level, s: State): Flat
    requires 3 <= levels <= 4
  {
    imap v: nat | v < Span(levels) && Translate(fmt, levels, s, v).Some? :: Translate(fmt, levels, s, v).value
  }

  /** What a call does to the flat map, given what it returned. */
  ghost function FlatStep(fmt: PteFormat, levels: Level, m: Flat, op: Op, out: Outcome): Flat
    requires 3 <= levels <= 4
  {
    match (op, out)
    case (Map(va, target, leaf, flags), Mapped(Ok(_))) =>
      imap v: nat | v < Span(levels) && (v in m || SamePage(levels, leaf, va, v)) ::
        if SamePage(levels, leaf, va, v) then MappedAt(fmt, target, leaf, flags, v) else m[v]
    case (Unmap(va), Unmapped(Ok((_, lv)))) =>
      imap v: nat | v in m && !SamePage(levels, lv, va, v) :: m[v]
    case _ => m
  }

  /** What a call may return, given the flat map. */
  ghost predicate Allowed(fmt: PteFormat, levels: Level, m: Flat, op: Op, out: Outcome)
    requires 3 <= levels <= 4
  {
    match (op, out)
    case (Map(va, target, leaf, flags), Mapped(r)) =>
      var at := va % Span(levels);
      && (r.Ok? ==> forall v: nat | v < Span(levels) && SamePage(levels, leaf, va, v) :: v !in m)
      && (r == Err(MappedToHugePage) <==> at in m && m[at].level > leaf)
      && (r == Err(AlreadyMapped) ==> (at in m && m[at].level == leaf) || leaf > 1)
      && (r == Err(NoMemory) ==> at !in m)
      && r != Err(NotMapped) && r != Err(NotAligned)
    case (Unmap(va), Unmapped(r)) =>
      var at := va % Span(levels);
      if at in m then r == Ok((m[at].paddr - at % Size(m[at].level), m[at].level)) else r == Err(NotMapped)
    case _ => false
  }

  /** The calls take the flat map `m` to `m'`, each with an outcome allowed where it happens. */
  ghost predicate Simulates(fmt: PteFormat, levels: Level, m: Flat, ops: seq<Op>, outs: seq<Outcome>, m': Flat)
    requires 3 <= levels <= 4
  {
    && |outs| == |ops|
    && if ops == [] then m' == m
       else Allowed(fmt, levels, m, ops[0], outs[0])
            && Simulates(fmt, levels, FlatStep(fmt, levels, m, ops[0], outs[0]), ops[1..], outs[1..], m')
  }

  /** Addresses that differ by a multiple of the index range translate alike. */
  lemma TranslatePeriodic(fmt: PteFormat, levels: Level, mem: map<nat, seq<Word>>, f: nat, lv: Level, va: nat)
    requires 3 <= levels <= 4 && lv <= levels
    ensures TranslateFrom(fmt, mem, f, lv, va % Span(levels)) == TranslateFrom(fmt, mem, f, lv, va)
    decreases lv
  {
    SameDigits(levels, va, lv);
    hide Size, Block, Span, Index;
    var e := Entry(mem, f, Index(va, lv));
    if lv > 1 {
      TranslatePeriodic(fmt, levels, mem, fmt.paddr(e), lv - 1, va);
    }
  }

  lemma SameDigits(levels: Level, va: nat, lv: Level)
    requires 3 <= levels <= 4 && lv <= levels
    ensures Index(va % Span(levels), lv) == Index(va, lv)
    ensures va % Span(levels) % Size(lv) == va % Size(lv)
    ensures Block(levels, va % Span(levels), lv) == Block(levels, va, lv)
  {
    var m := SpanParts(levels, lv);
    hide Size, Span;
    ModOfReduced(va, Size(lv), 512 * m, Span(levels));
    DigitOfReduced(va, Size(lv), 512, m, Span(levels));
    ModOfReduced(va, Span(levels), 1, Span(levels));
  }

  lemma FlatAt(fmt: PteFormat, levels: Level, s: State, va: nat)
    requires 3 <= levels <= 4
    ensures var m, at := FlatOf(fmt, levels, s), va % Span(levels);
            && (at in m <==> Translate(fmt, levels, s, va).Some?)
            && (at in m ==> m[at] == Translate(fmt, levels, s, va).value)
  {
    SpanBound(levels, va);
    hide Size, Span, TranslateFrom;
    TranslatePeriodic(fmt, levels, s.mem, s.root, levels, va);
  }

  lemma SpanBound(levels: Level, va: nat)
    requires 3 <= levels <= 4
    ensures Span(levels) > 0 && va % Span(levels) < Span(levels)
  {
  }

  lemma StepCorrect(fmt: PteFormat, levels: Level, s: State, owner: map<nat, Loc>, op: Op)
    returns (owner': map<nat, Loc>)
    requires Inv(fmt, levels, s, owner) && Accepts(fmt, op) && 3 <= levels <= 4
    ensures var (s', out) := Step(fmt, levels, s, op);
            && Inv(fmt, levels, s', owner')
            && Allowed(fmt, levels, FlatOf(fmt, levels, s), op, out)
            && FlatOf(fmt, levels, s') == FlatStep(fmt, levels, FlatOf(fmt, levels, s), op, out)
  {
    hide Inv, Size, Block, Span, Index, TranslateFrom, MapPage, UnmapPage, MapAccepts, AlignDown;
    FlatAt(fmt, levels, s, op.va);
    match op
    case Map(va, target, leaf, flags) =>
      owner' := MapCorrect(fmt, levels, s, owner, va, target, leaf, flags);
      AcceptsLeaf(fmt, target, leaf, flags);
      MapOutcome(fmt, levels, s, owner, va, target, leaf, flags);
    case Unmap(va) =>
      owner' := owner;
      UnmapCorrect(fmt, levels, s, owner, va);
      OffsetInPage(fmt, levels, s, va);
  }

  lemma AcceptsLeaf(fmt: PteFormat, target: nat, leaf: Level, flags: MappingFlags)
    requires MapAccepts(fmt, target, leaf, flags)
    ensures leaf <= 3
  {
  }

  lemma OffsetInPage(fmt: PteFormat, levels: Level, s: State, va: nat)
    requires 3 <= levels <= 4
    ensures var t := Translate(fmt, levels, s, va);
            t.Some? ==> va % Span(levels) % Size(t.value.level) == va % Size(t.value.level)
  {
    LevelBound(fmt, s.mem, s.root, levels, va);
    var t := Translate(fmt, levels, s, va);
    if t.Some? {
      SameDigits(levels, va, t.value.level);
    }
  }

  /** Every run from a table in order takes the flat map where the calls' outcomes say. */
  lemma {:induction false} RunCorrect(fmt: PteFormat, levels: Level, s: State, owner: map<nat, Loc>, ops: seq<Op>)
    returns (owner': map<nat, Loc>)
    requires Inv(fmt, levels, s, owner) && 3 <= levels <= 4
    requires forall op | op in ops :: Accepts(fmt, op)
    ensures var (s', outs) := Run(fmt, levels, s, ops);
            && Inv(fmt, levels, s', owner')
            && Simulates(fmt, levels, FlatOf(fmt, levels, s), ops, outs, FlatOf(fmt, levels, s'))
    decreases |ops|
  {
    hide Inv, FlatOf, FlatStep, Allowed, Step, Accepts;
    owner' := owner;
    if ops != [] {
      var owner1 := StepCorrect(fmt, levels, s, owner, ops[0]);
      var (s1, out) := Step(fmt, levels, s, ops[0]);
      owner' := RunCorrect(fmt, levels, s1, owner1, ops[1..]);
      var (s', outs) := Run(fmt, levels, s1, ops[1..]);
      assert ([out] + outs)[1..] == outs;
    }
  }

  // ----- a new table -----

  /** `try_new`: the root is the first frame the allocator gives. */
  function TryNew(supply: seq<Option<nat>>): Result<State> {
    var (s, r) := AllocTable(State(0, [], map[], supply));
    match r
    case Err(error) => Err(error)
    case Ok(root) => Ok(s.(root := root, tables := [root]))
  }

  /** A new table is in order and maps nothing. */
  lemma NewTable(fmt: PteFormat, levels: Level, supply: seq<Option<nat>>)
    requires 3 <= levels <= 4 && Lawful(fmt) && FreshSupply(fmt, map[], supply) && TryNew(supply).Ok?
    ensures var s := TryNew(supply).value;
            && Inv(fmt, levels, s, map[s.root := Loc(levels, 0)])
            && FlatOf(fmt, levels, s) == imap[]
  {
    var s := TryNew(supply).value;
    var owner := map[s.root := Loc(levels, 0)];
    assert TableOk(fmt, owner, s.mem, s.root);
    forall v: nat ensures Translate(fmt, levels, s, v) == None {
      IndexBelow(v, levels);
      EmptyTable(fmt, s.mem, s.root, levels, v);
    }
  }

  /** From a new table of three or four levels, every run of `map` and `unmap` behaves as one
      flat partial map: `query` at any address is that map at the address modulo the index range. */
  lemma FlatMapRefinement(fmt: PteFormat, levels: Level, supply: seq<Option<nat>>, ops: seq<Op>, va: nat)
    requires 3 <= levels <= 4 && Lawful(fmt) && FreshSupply(fmt, map[], supply) && TryNew(supply).Ok?
    requires forall op | op in ops :: Accepts(fmt, op)
    ensures var (s, outs) := Run(fmt, levels, TryNew(supply).value, ops);
            var m, at := FlatOf(fmt, levels, s), va % Span(levels);
            && Simulates(fmt, levels, imap[], ops, outs, m)
            && QueryPage(fmt, levels, s, va) == if at in m then Ok(m[at]) else Err(NotMapped)
  {
    hide Inv, FlatOf, Size, Span, TranslateFrom, Simulates, QueryPage;
    NewTable(fmt, levels, supply);
    var s0 := TryNew(supply).value;
    var owner := RunCorrect(fmt, levels, s0, map[s0.root := Loc(levels, 0)], ops);
    var s := Run(fmt, levels, s0, ops).0;
    QueryCorrect(fmt, levels, s, owner, va);
    FlatAt(fmt, levels, s, va);
  }
}
