/** `PageTable64` as the source has it: tables in memory that the methods change in place,
    the list of table frames, and loops over regions. */
module PageTable {
  import opened Options
  import opened PageTableEntry
  import opened PageWalk
  import opened PageMap
  import opened PageRegions
  import opened PageFrames

  class PageTable64 {
    const fmt: PteFormat
    const levels: Level
    var rootPaddr: nat
    var intrmTables: seq<nat>
    /** Physical memory, frame by frame. */
    var mem: map<nat, seq<Word>>
    /** What the frame allocator will answer. */
    var supply: seq<Option<nat>>
    ghost var owner: map<nat, Loc>

    ghost function Snapshot(): State
      reads this
    {
      State(rootPaddr, intrmTables, mem, supply)
    }

    ghost predicate Valid()
      reads this
    {
      Inv(fmt, levels, Snapshot(), owner)
    }

    constructor (fmt: PteFormat, levels: Level, root: nat, supply: seq<Option<nat>>)
      requires 3 <= levels <= 4 && Lawful(fmt) && FreshSupply(fmt, map[], [Some(root)] + supply)
      ensures Valid() && this.fmt == fmt && this.levels == levels
      ensures Snapshot() == PageRuns.TryNew([Some(root)] + supply).value
    {
      this.fmt := fmt;
      this.levels := levels;
      rootPaddr := root;
      intrmTables := [root];
      mem := map[root := seq(512, _ => 0)];
      this.supply := supply;
      owner := map[root := Loc(levels, 0)];
      new;
      var s := PageRuns.TryNew([Some(root)] + supply).value;
      assert ([Some(root)] + supply)[1..] == supply;
      PageRuns.NewTable(fmt, levels, [Some(root)] + supply);
    }

    /** Takes the first frame the allocator gives as the root, or fails with it. */
    static method TryNew(fmt: PteFormat, levels: Level, supply: seq<Option<nat>>) returns (r: Result<PageTable64>)
      requires 3 <= levels <= 4 && Lawful(fmt) && FreshSupply(fmt, map[], supply)
      ensures r.Err? <==> supply == [] || supply[0] == None
      ensures r.Err? ==> r.error == NoMemory
      ensures r.Ok? ==> fresh(r.value) && r.value.Valid() && r.value.fmt == fmt && r.value.levels == levels
      ensures r.Ok? ==> PageRuns.TryNew(supply) == Ok(r.value.Snapshot())
      ensures r.Ok? ==> forall va: nat :: Translate(fmt, levels, r.value.Snapshot(), va) == None
    {
      hide Inv, Translate;
      if supply == [] || supply[0] == None {
        return Err(NoMemory);
      }
      assert [Some(supply[0].value)] + supply[1..] == supply;
      var table := new PageTable64(fmt, levels, supply[0].value, supply[1..]);
      NothingMapped(fmt, levels, supply);
      r := Ok(table);
    }

    /** Reads entry `i` of the table in frame `f`. */
    method ReadEntry(f: nat, i: nat) returns (e: Word)
      requires Valid() && f in owner && i < 512
      ensures e == Entry(mem, f, i)
    {
      EntryInOrder(fmt, levels, rootPaddr, mem, owner, f, i);
      assert TableOk(fmt, owner, mem, f);
      e := mem[f][i];
    }

    method NextTableMut(e: Word) returns (r: Result<nat>)
      ensures r == NextTable(fmt, e)
    {
      if !fmt.isPresent(e) {
        return Err(NotMapped);
      } else if fmt.isHuge(e) {
        return Err(MappedToHugePage);
      }
      return Ok(fmt.paddr(e));
    }

    method AllocFrame() returns (r: Result<nat>)
      modifies this`mem, this`supply
      ensures (Snapshot(), r) == AllocTable(old(Snapshot()))
    {
      if supply == [] {
        return Err(NoMemory);
      }
      var next := supply[0];
      supply := supply[1..];
      match next {
        case None => r := Err(NoMemory);
        case Some(paddr) =>
          mem := mem[paddr := seq(512, _ => 0)];
          r := Ok(paddr);
      }
    }

    method NextTableMutOrCreate(f: nat, i: nat) returns (r: Result<nat>)
      requires Valid() && f in owner && i < 512 && owner[f].level > 1
      modifies this`mem, this`supply, this`intrmTables, this`owner
      ensures Valid() && Extends(old(owner), owner)
      ensures (Snapshot(), r) == NextTableOrCreate(fmt, old(Snapshot()), f, i)
      ensures r.Ok? ==> r.value in owner && owner[r.value] == Loc(old(owner)[f].level - 1, old(owner)[f].prefix * 512 + i)
    {
      hide Inv;
      ghost var owner' := CreateStep(fmt, levels, Snapshot(), owner, f, i);
      var e := ReadEntry(f, i);
      if IsUnused(e) {
        ghost var s := Snapshot();
        r := AllocFrame();
        if r.Ok? {
          var paddr := r.value;
          intrmTables := intrmTables + [paddr];
          InMemory(fmt, levels, s, owner, f);
          var t: seq<Word> := mem[f];
          mem := mem[f := t[i := fmt.newTable(paddr)]];
        }
      } else {
        r := NextTableMut(e);
      }
      owner := owner';
    }

    /** The lookup walk, level by level. */
    method GetEntryMut(va: nat) returns (r: Result<Slot>)
      requires Valid()
      ensures r == Walk(fmt, mem, rootPaddr, levels, va)
      ensures r.Ok? ==> r.value.frame in owner && r.value.index < 512
    {
      hide Inv, Index;
      var p3 := rootPaddr;
      RootServes(fmt, levels, Snapshot(), owner, va);
      IndexesBelow(va);
      LevelsOf(fmt, levels, Snapshot(), owner);
      if levels == 4 {
        var p4e := ReadEntry(rootPaddr, Index(va, 4));
        WalkDown(fmt, levels, Snapshot(), owner, rootPaddr, va);
        var next := NextTableMut(p4e);
        if next.Err? {
          return Err(next.error);
        }
        p3 := next.value;
      }
      var p3e := ReadEntry(p3, Index(va, 3));
      if fmt.isHuge(p3e) {
        return Ok(Slot(p3, Index(va, 3), 3));
      }
      WalkDown(fmt, levels, Snapshot(), owner, p3, va);
      var next := NextTableMut(p3e);
      if next.Err? {
        return Err(next.error);
      }
      var p2 := next.value;
      var p2e := ReadEntry(p2, Index(va, 2));
      if fmt.isHuge(p2e) {
        return Ok(Slot(p2, Index(va, 2), 2));
      }
      WalkDown(fmt, levels, Snapshot(), owner, p2, va);
      next := NextTableMut(p2e);
      if next.Err? {
        return Err(next.error);
      }
      return Ok(Slot(next.value, Index(va, 1), 1));
    }

    /** The creating walk, level by level. */
    method GetEntryMutOrCreate(va: nat, pageSize: Level) returns (r: Result<Slot>)
      requires Valid() && pageSize <= 3
      modifies this`mem, this`supply, this`intrmTables, this`owner
      ensures Valid() && Extends(old(owner), owner)
      ensures (Snapshot(), r) == WalkOrCreate(fmt, old(Snapshot()), rootPaddr, levels, pageSize, va)
      ensures r.Ok? ==> r.value.frame in owner && r.value.index < 512
    {
      hide Inv, Index, NextTableOrCreate;
      var p3 := rootPaddr;
      RootServes(fmt, levels, Snapshot(), owner, va);
      IndexesBelow(va);
      LevelsOf(fmt, levels, Snapshot(), owner);
      if levels == 4 {
        var next := NextTableMutOrCreate(rootPaddr, Index(va, 4));
        if next.Err? {
          return Err(next.error);
        }
        p3 := next.value;
      }
      if pageSize == 3 {
        return Ok(Slot(p3, Index(va, 3), 3));
      }
      var next := NextTableMutOrCreate(p3, Index(va, 3));
      if next.Err? {
        return Err(next.error);
      }
      var p2 := next.value;
      if pageSize == 2 {
        return Ok(Slot(p2, Index(va, 2), 2));
      }
      next := NextTableMutOrCreate(p2, Index(va, 2));
      if next.Err? {
        return Err(next.error);
      }
      return Ok(Slot(next.value, Index(va, 1), 1));
    }

    method WriteEntry(slot: Slot, e: Word)
      requires slot.frame in mem && slot.index < |mem[slot.frame]|
      modifies this`mem
      ensures mem == SetEntry(old(mem), slot.frame, slot.index, e)
    {
      var t: seq<Word> := mem[slot.frame];
      mem := mem[slot.frame := t[slot.index := e]];
    }

    method Map(va: nat, target: nat, pageSize: Level, flags: MappingFlags) returns (r: Result<()>)
      requires Valid() && MapAccepts(fmt, target, pageSize, flags)
      modifies this`mem, this`supply, this`intrmTables, this`owner
      ensures Valid()
      ensures (Snapshot(), r) == MapPage(fmt, levels, old(Snapshot()), va, target, pageSize, flags)
    {
      hide Inv, WalkOrCreate, SetEntry, AlignDown, Size;
      ghost var owner' := MapCorrect(fmt, levels, Snapshot(), owner, va, target, pageSize, flags);
      PageRuns.AcceptsLeaf(fmt, target, pageSize, flags);
      var slot := GetEntryMutOrCreate(va, pageSize);
      if slot.Err? {
        r := Err(slot.error);
      } else {
        var entry := ReadEntry(slot.value.frame, slot.value.index);
        if !IsUnused(entry) {
          r := Err(AlreadyMapped);
        } else {
          InMemory(fmt, levels, Snapshot(), owner, slot.value.frame);
          WriteEntry(slot.value, fmt.newPage(AlignDown(target, pageSize), flags, pageSize > 1));
          r := Ok(());
        }
      }
      owner := owner';
    }

    method Unmap(va: nat) returns (r: Result<(nat, Level)>)
      requires Valid()
      modifies this`mem
      ensures Valid()
      ensures (Snapshot(), r) == UnmapPage(fmt, levels, old(Snapshot()), va)
    {
      hide Inv, Walk, SetEntry;
      UnmapCorrect(fmt, levels, Snapshot(), owner, va);
      var slot := GetEntryMut(va);
      if slot.Err? {
        return Err(slot.error);
      }
      var entry := ReadEntry(slot.value.frame, slot.value.index);
      if IsUnused(entry) {
        return Err(NotMapped);
      }
      var paddr := fmt.paddr(entry);
      InMemory(fmt, levels, Snapshot(), owner, slot.value.frame);
      WriteEntry(slot.value, 0);
      return Ok((paddr, slot.value.level));
    }

    /** The translation of `va`, or `NotMapped` where there is none. */
    method Query(va: nat) returns (r: Result<Mapping>)
      requires Valid()
      ensures r == match Translate(fmt, levels, Snapshot(), va) case None => Err(NotMapped) case Some(m) => Ok(m)
    {
      hide Inv, Walk, Size, TranslateFrom;
      QueryCorrect(fmt, levels, Snapshot(), owner, va);
      var slot := GetEntryMut(va);
      if slot.Err? {
        return Err(slot.error);
      }
      var entry := ReadEntry(slot.value.frame, slot.value.index);
      if IsUnused(entry) {
        return Err(NotMapped);
      }
      var off := va % Size(slot.value.level);
      return Ok(Mapping(fmt.paddr(entry) + off, fmt.flags(entry), slot.value.level));
    }

    /** The biggest page, if huge ones are allowed, that both addresses and the size admit. */
    static method PickPageSize(va: nat, pa: nat, size: nat, allowHuge: bool) returns (pageSize: Level)
      ensures pageSize <= 3 && (pageSize > 1 ==> allowHuge && Admits(va, pa, size, pageSize))
      ensures forall m: Level | allowHuge && pageSize < m <= 3 :: !Admits(va, pa, size, m)
      ensures pageSize == PickLevel(va, pa, size, allowHuge)
    {
      pageSize := 1;
      if allowHuge {
        if Aligned(va, 3) && Aligned(pa, 3) && size >= Size(3) {
          pageSize := 3;
        } else if Aligned(va, 2) && Aligned(pa, 2) && size >= Size(2) {
          pageSize := 2;
        }
      }
    }

    method MapRegion(va: nat, pa: nat, size: nat, flags: MappingFlags, allowHuge: bool) returns (r: Result<()>)
      requires Valid() && RegionFits(fmt, pa, size, flags)
      modifies this`mem, this`supply, this`intrmTables, this`owner
      ensures Valid()
      ensures (Snapshot(), r) == PageRegions.MapRegion(fmt, levels, old(Snapshot()), va, pa, size, flags, allowHuge)
    {
      hide Inv, MapPage, MapPages, MapAccepts, AlignDown, RegionFits, Aligned, Size, PickLevel;
      if !Aligned(va, 1) || !Aligned(pa, 1) || !Aligned(size, 1) {
        return Err(NotAligned);
      }
      MapPagesEnd(fmt, levels, flags, allowHuge);
      var v: nat, p: nat, left: nat := va, pa, size;
      while left > 0
        invariant Valid() && RegionFits(fmt, p, left, flags)
        invariant Aligned(v, 1) && Aligned(p, 1) && Aligned(left, 1)
        invariant MapPages(fmt, levels, Snapshot(), v, p, left, flags, allowHuge)
               == MapPages(fmt, levels, old(Snapshot()), va, pa, size, flags, allowHuge)
        decreases left
      {
        StepFits(fmt, v, p, left, flags, allowHuge);
        MapPagesStep(fmt, levels, Snapshot(), v, p, left, flags, allowHuge);
        var pageSize := PickPageSize(v, p, left, allowHuge);
        r := Map(v, p, pageSize, flags);
        if r.Err? {
          return r;
        }
        v, p, left := v + Size(pageSize), p + Size(pageSize), left - Size(pageSize);
      }
      return Ok(());
    }

    method UnmapRegion(va: nat, size: nat) returns (end: UnmapEnd)
      requires Valid()
      modifies this`mem
      ensures Valid()
      ensures (Snapshot(), end) == UnmapPages(fmt, levels, old(Snapshot()), va, size)
    {
      hide Inv, UnmapPage;
      var v: nat, left: nat := va, size;
      while left > 0
        invariant Valid()
        invariant UnmapPages(fmt, levels, Snapshot(), v, left) == UnmapPages(fmt, levels, old(Snapshot()), va, size)
        decreases left
      {
        var r := Unmap(v);
        if r.Err? {
          return Failed(r.error);
        }
        var pageSize := r.value.1;
        if !Aligned(v, pageSize) || Size(pageSize) > left {
          return Panicked;
        }
        v, left := v + Size(pageSize), left - Size(pageSize);
      }
      return Done;
    }

    /** Frees every table the walk can pass, each exactly once. */
    method Drop() returns (freed: seq<nat>)
      requires Valid()
      ensures forall f: nat :: f in freed <==> Reachable(fmt, levels, Snapshot(), f)
      ensures forall j, k | 0 <= j < k < |freed| :: freed[j] != freed[k]
    {
      hide Inv, Reachable;
      freed := [];
      for i := 0 to |intrmTables|
        invariant freed == intrmTables[..i]
      {
        freed := freed + [intrmTables[i]];
      }
      assert freed == intrmTables;
      forall f: nat
        ensures f in freed <==> Reachable(fmt, levels, Snapshot(), f)
      {
        ListIsReachable(fmt, levels, Snapshot(), owner, f);
      }
      ListIsReachable(fmt, levels, Snapshot(), owner, 0);
    }
  }

  lemma NothingMapped(fmt: PteFormat, levels: Level, supply: seq<Option<nat>>)
    requires 3 <= levels <= 4 && Lawful(fmt) && FreshSupply(fmt, map[], supply) && PageRuns.TryNew(supply).Ok?
    ensures forall va: nat :: Translate(fmt, levels, PageRuns.TryNew(supply).value, va) == None
  {
    var s := PageRuns.TryNew(supply).value;
    forall va: nat ensures Translate(fmt, levels, s, va) == None {
      IndexBelow(va, levels);
      EmptyTable(fmt, s.mem, s.root, levels, va);
    }
  }

  lemma MapPagesStep(fmt: PteFormat, levels: Level, s: State, va: nat, pa: nat, size: nat,
                     flags: MappingFlags, allowHuge: bool)
    requires size > 0 && Aligned(size, 1) && Size(PickLevel(va, pa, size, allowHuge)) <= size
    ensures var lv := PickLevel(va, pa, size, allowHuge);
            var (s1, r) := MapPage(fmt, levels, s, va, pa, lv, flags);
            MapPages(fmt, levels, s, va, pa, size, flags, allowHuge)
            == if r.Err? then (s1, r)
               else MapPages(fmt, levels, s1, va + Size(lv), pa + Size(lv), size - Size(lv), flags, allowHuge)
  {
    hide MapPage, PickLevel;
  }

  lemma MapPagesEnd(fmt: PteFormat, levels: Level, flags: MappingFlags, allowHuge: bool)
    ensures forall s, va: nat, pa: nat :: MapPages(fmt, levels, s, va, pa, 0, flags, allowHuge) == (s, Ok(()))
  {
  }

  lemma IndexesBelow(va: nat)
    ensures Index(va, 1) < 512 && Index(va, 2) < 512 && Index(va, 3) < 512 && Index(va, 4) < 512
  {
  }

  lemma LevelsOf(fmt: PteFormat, levels: Level, s: State, owner: map<nat, Loc>)
    requires Inv(fmt, levels, s, owner)
    ensures 3 <= levels <= 4
  {
  }

  /** A table followed from an owned table is owned, one level down. */
  lemma WalkDown(fmt: PteFormat, levels: Level, s: State, owner: map<nat, Loc>, f: nat, va: nat)
    requires Inv(fmt, levels, s, owner) && f in owner && owner[f].level > 1
    ensures var r := NextTable(fmt, Entry(s.mem, f, Index(va, owner[f].level)));
            r.Ok? ==> r.value in owner && owner[r.value].level == owner[f].level - 1
  {
    hide TableOk, Parent, Lawful, Index;
    var i := Index(va, owner[f].level);
    IndexBelow(va, owner[f].level);
    if IsUnused(Entry(s.mem, f, i)) {
      EntryInOrder(fmt, levels, s.root, s.mem, owner, f, i);
    } else {
      LinkedTable(fmt, levels, s.root, s.mem, owner, f, i);
    }
  }

  lemma InMemory(fmt: PteFormat, levels: Level, s: State, owner: map<nat, Loc>, f: nat)
    requires Inv(fmt, levels, s, owner) && f in owner
    ensures f in s.mem && |s.mem[f]| == 512
    ensures s.supply != [] && s.supply[0].Some? ==> s.supply[0].value != f
  {
    assert TableOk(fmt, owner, s.mem, f);
  }
}
