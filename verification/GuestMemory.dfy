/** Guest physical memory: disjoint regions, and the nested page table that maps them. */
module GuestMemory {
  import opened Options

  const PAGE := 4096
  const U64_SIZE := 0x1_0000_0000_0000_0000

  /** A region at `start`; `offset` is the wrapped distance from host to guest addresses. */
  datatype Region = Region(start: nat, size: nat, flags: nat, offset: nat)

  datatype Outcome = Mapped | Overlap | TableFull

  function WrappingSub(a: nat, b: nat): (r: nat)
    requires a < U64_SIZE && b < U64_SIZE
    ensures r < U64_SIZE
  {
    if a >= b then a - b else a + U64_SIZE - b
  }

  function NewOffset(gpa: nat, hpa: nat, size: nat, flags: nat): (r: Region)
    requires gpa % PAGE == 0 && hpa % PAGE == 0 && size % PAGE == 0
    requires gpa < U64_SIZE && hpa < U64_SIZE && size < U64_SIZE
    ensures WellFormed(r)
  {
    Region(gpa, size, flags, WrappingSub(gpa, hpa))
  }

  function Target(r: Region, gpa: nat): nat
    requires gpa < U64_SIZE && r.offset < U64_SIZE
  {
    WrappingSub(gpa, r.offset)
  }

  /** Addresses of a region go to host memory in step, from its host start on. */
  lemma TargetInStep(gpa: nat, hpa: nat, size: nat, flags: nat, a: nat)
    requires gpa % PAGE == 0 && hpa % PAGE == 0 && size % PAGE == 0
    requires gpa <= a < gpa + size && size < U64_SIZE && a < U64_SIZE && hpa < U64_SIZE
    ensures Target(NewOffset(gpa, hpa, size, flags), a) == (hpa + (a - gpa)) % U64_SIZE
  {
  }

  /** The end address as the code computes it, in 64 bits. */
  function End(r: Region): nat {
    (r.start + r.size) % U64_SIZE
  }

  predicate IsOverlapWith(r: Region, other: Region) {
    !(End(r) <= other.start || End(other) <= r.start)
  }

  predicate Overlaps(r: Region, other: Region) {
    !(r.start + r.size <= other.start || other.start + other.size <= r.start)
  }

  /** A page-aligned region, as `new_offset` makes it. */
  predicate WellFormed(r: Region) {
    r.start % PAGE == 0 && r.size % PAGE == 0 && r.start < U64_SIZE && r.size < U64_SIZE && r.offset < U64_SIZE
  }

  /** A region whose end address is an address too. */
  predicate Sound(r: Region) {
    WellFormed(r) && r.start + r.size < U64_SIZE
  }

  lemma EndOf(r: Region)
    requires WellFormed(r)
    ensures End(r) == if Sound(r) then r.start + r.size else r.start + r.size - U64_SIZE
  {
  }

  /** `p` is a page of the region. */
  predicate HasPage(r: Region, p: nat) {
    p % PAGE == 0 && r.start <= p < r.start + r.size
  }

  datatype Entry = Entry(target: nat, flags: nat)

  function EntryOf(r: Region, p: nat): Entry
    requires Sound(r) && HasPage(r, p)
  {
    Entry(Target(r, p), r.flags)
  }

  // ----- neighbours -----

  ghost predicate Disjoint(regions: map<nat, Region>) {
    && (forall k | k in regions :: regions[k].start == k && regions[k].size > 0 && Sound(regions[k]))
    && (forall j, k | j in regions && k in regions && j < k :: j + regions[j].size <= k)
  }

  ghost predicate IsLastBelow(keys: set<nat>, x: nat, k: Option<nat>) {
    if k.None? then forall j | j in keys :: j >= x
    else k.value in keys && k.value < x && forall j | j in keys && j < x :: j <= k.value
  }

  ghost predicate IsFirstFrom(keys: set<nat>, x: nat, k: Option<nat>) {
    if k.None? then forall j | j in keys :: j < x
    else k.value in keys && k.value >= x && forall j | j in keys && j >= x :: k.value <= j
  }

  /** The greatest key below `x` in key order. */
  method LastBelow(keys: set<nat>, x: nat) returns (k: Option<nat>)
    ensures IsLastBelow(keys, x, k)
  {
    k := None;
    var rest := keys;
    while rest != {}
      invariant rest <= keys && IsLastBelow(keys - rest, x, k)
      decreases rest
    {
      var j :| j in rest;
      if j < x && (k.None? || k.value < j) {
        k := Some(j);
      }
      assert keys - (rest - {j}) == keys - rest + {j};
      rest := rest - {j};
    }
    assert keys - {} == keys;
  }

  /** The least key from `x` on in key order. */
  method FirstFrom(keys: set<nat>, x: nat) returns (k: Option<nat>)
    ensures IsFirstFrom(keys, x, k)
  {
    k := None;
    var rest := keys;
    while rest != {}
      invariant rest <= keys && IsFirstFrom(keys - rest, x, k)
      decreases rest
    {
      var j :| j in rest;
      if j >= x && (k.None? || j < k.value) {
        k := Some(j);
      }
      assert keys - (rest - {j}) == keys - rest + {j};
      rest := rest - {j};
    }
    assert keys - {} == keys;
  }

  ghost predicate Free(regions: map<nat, Region>, r: Region) {
    forall k | k in regions :: !Overlaps(regions[k], r)
  }

  /** What the test comes to for a region that wraps around: only a region that reaches over its
      start and begins below its wrapped end is noticed. */
  ghost predicate FreeWrapped(regions: map<nat, Region>, r: Region) {
    forall k | k in regions :: !(k < r.start < k + regions[k].size && k < End(r))
  }

  /** Testing the two neighbours is as good as testing all regions. */
  lemma NeighboursSuffice(regions: map<nat, Region>, r: Region, before: Option<nat>, after: Option<nat>)
    requires Disjoint(regions) && r.size > 0 && WellFormed(r)
    requires IsLastBelow(regions.Keys, r.start, before) && IsFirstFrom(regions.Keys, r.start, after)
    ensures (if Sound(r) then Free(regions, r) else FreeWrapped(regions, r)) <==>
      (before.Some? ==> !IsOverlapWith(regions[before.value], r)) && (after.Some? ==> !IsOverlapWith(regions[after.value], r))
  {
    EndOf(r);
    forall k | k in regions ensures End(regions[k]) == k + regions[k].size {
      EndOf(regions[k]);
    }
    hide End, WellFormed;
  }

  // ----- the nested table -----

  /** Every page of a region is mapped as the region says. */
  ghost predicate Covers(table: map<nat, Entry>, regions: map<nat, Region>) {
    forall k, p: nat | k in regions && Sound(regions[k]) && HasPage(regions[k], p) ::
      p in table && table[p] == EntryOf(regions[k], p)
  }

  /** Every mapped page belongs to a region. */
  ghost predicate Exact(table: map<nat, Entry>, regions: map<nat, Region>) {
    forall p: nat | p in table :: exists k | k in regions :: HasPage(regions[k], p)
  }

  class GuestPageTable {
    var table: map<nat, Entry>

    constructor ()
      ensures table == map[]
    {
      table := map[];
    }

    /** Fails on a mapped page, and where the table cannot grow. */
    method Map(p: nat, e: Entry, full: set<nat>) returns (ok: bool)
      modifies this
      ensures ok == (p !in old(table) && p !in full)
      ensures table == if ok then old(table)[p := e] else old(table)
    {
      ok := p !in table && p !in full;
      if ok {
        table := table[p := e];
      }
    }

    method Unmap(p: nat) returns (ok: bool)
      modifies this
      ensures ok == (p in old(table)) && table == old(table) - {p}
    {
      ok := p in table;
      table := table - {p};
    }
  }

  /** `now` is `was` with the pages of `r` below `end` added. */
  ghost predicate Added(was: map<nat, Entry>, now: map<nat, Entry>, r: Region, end: nat)
    requires Sound(r)
  {
    && (forall p: nat | p in now :: if HasPage(r, p) && p < end then now[p] == EntryOf(r, p) else p in was && now[p] == was[p])
    && (forall p: nat | p in was && !(HasPage(r, p) && p < end) :: p in now)
    && (forall p: nat | HasPage(r, p) && p < end :: p in now)
  }

  /** `now` is `was` without the pages of `r` below `end`. */
  ghost predicate Dropped(was: map<nat, Entry>, now: map<nat, Entry>, r: Region, end: nat) {
    && (forall p: nat | p in now :: p in was && now[p] == was[p] && !(HasPage(r, p) && p < end))
    && (forall p: nat | p in was && !(HasPage(r, p) && p < end) :: p in now)
  }

  lemma NextPage(p: nat, start: nat)
    requires p % PAGE == 0 && start % PAGE == 0 && p < start + PAGE
    ensures p <= start
  {
  }

  lemma AddedStep(was: map<nat, Entry>, now: map<nat, Entry>, r: Region, start: nat)
    requires Sound(r) && HasPage(r, start) && Added(was, now, r, start)
    ensures Added(was, now[start := EntryOf(r, start)], r, start + PAGE)
  {
    hide EntryOf;
    forall p: nat | HasPage(r, p) ensures p < start + PAGE <==> p <= start {
      if p < start + PAGE {
        NextPage(p, start);
      }
    }
  }

  lemma DroppedStep(was: map<nat, Entry>, now: map<nat, Entry>, r: Region, start: nat)
    requires HasPage(r, start) && Dropped(was, now, r, start)
    ensures Dropped(was, now - {start}, r, start + PAGE)
  {
    forall p: nat | HasPage(r, p) ensures p < start + PAGE <==> p <= start {
      if p < start + PAGE {
        NextPage(p, start);
      }
    }
  }

  lemma PagesAhead(r: Region, start: nat, p: nat)
    requires r.start % PAGE == 0 && r.size % PAGE == 0 && start % PAGE == 0 && r.start <= start < r.start + r.size
    ensures start + PAGE <= r.start + r.size && (start + PAGE) % PAGE == 0 && HasPage(r, start)
    ensures HasPage(r, p) && p < start + PAGE ==> p <= start
  {
    NextPage(start, start);
  }

  /** The outcome of mapping a region: all its pages, or those below the first one that cannot be mapped. */
  ghost predicate MapsTo(r: Region, was: map<nat, Entry>, now: map<nat, Entry>, full: set<nat>, ok: bool, end: nat)
    requires Sound(r)
  {
    && r.start <= end <= r.start + r.size && Added(was, now, r, end)
    && (ok ==> end == r.start + r.size)
    && (ok <==> forall p: nat | HasPage(r, p) :: p !in was && p !in full)
    && (forall p: nat | HasPage(r, p) && p < end :: p !in was && p !in full)
    && (!ok ==> HasPage(r, end) && (end in was || end in full))
  }

  /** Maps the pages one by one, up to the end as computed: a region that wraps around maps nothing. */
  method MapTo(r: Region, npt: GuestPageTable, full: set<nat>) returns (ok: bool, ghost end: nat)
    requires WellFormed(r)
    modifies npt
    ensures !Sound(r) ==> ok && npt.table == old(npt.table)
    ensures Sound(r) ==> MapsTo(r, old(npt.table), npt.table, full, ok, end)
  {
    var start := r.start;
    EndOf(r);
    hide Added, EntryOf, End;
    if Sound(r) {
      AddedNone(npt.table, r);
    }
    while start < End(r)
      invariant r.start <= start && start % PAGE == 0
      invariant !Sound(r) ==> start == r.start && npt.table == old(npt.table)
      invariant Sound(r) ==> start <= r.start + r.size && Added(old(npt.table), npt.table, r, start)
      invariant forall p: nat | HasPage(r, p) && p < start :: p !in old(npt.table) && p !in full
    {
      AddedStep(old(npt.table), npt.table, r, start);
      AddedAt(old(npt.table), npt.table, r, start);
      EntryIs(r, start);
      forall p: nat ensures start + PAGE <= r.start + r.size && (HasPage(r, p) && p < start + PAGE ==> p <= start) {
        PagesAhead(r, start, p);
      }
      var mapped := npt.Map(start, Entry(Target(r, start), r.flags), full);
      if !mapped {
        return false, start;
      }
      start := start + PAGE;
    }
    return true, start;
  }

  lemma EntryIs(r: Region, p: nat)
    requires Sound(r) && HasPage(r, p)
    ensures EntryOf(r, p) == Entry(Target(r, p), r.flags)
  {
  }

  lemma AddedNone(t: map<nat, Entry>, r: Region)
    requires Sound(r)
    ensures Added(t, t, r, r.start)
  {
  }

  lemma AddedAt(was: map<nat, Entry>, now: map<nat, Entry>, r: Region, start: nat)
    requires Sound(r) && Added(was, now, r, start)
    ensures start in now <==> start in was
  {
  }

  /** Unmaps the pages one by one; no page of a mapped region is missing. */
  method UnmapTo(r: Region, npt: GuestPageTable) returns (ok: bool)
    requires WellFormed(r) && (Sound(r) ==> forall p: nat | HasPage(r, p) :: p in npt.table)
    modifies npt
    ensures ok && Dropped(old(npt.table), npt.table, r, if Sound(r) then r.start + r.size else r.start)
  {
    var start := r.start;
    EndOf(r);
    hide Dropped, HasPage, End;
    DroppedNone(npt.table, r);
    while start < End(r)
      invariant r.start <= start <= r.start + r.size && start % PAGE == 0 && (!Sound(r) ==> start == r.start)
      invariant Dropped(old(npt.table), npt.table, r, start)
    {
      PagesAhead(r, start, start);
      DroppedStep(old(npt.table), npt.table, r, start);
      DroppedAt(old(npt.table), npt.table, r, start);
      var unmapped := npt.Unmap(start);
      if !unmapped {
        return false;
      }
      start := start + PAGE;
    }
    return true;
  }

  lemma DroppedNone(t: map<nat, Entry>, r: Region)
    ensures Dropped(t, t, r, r.start)
  {
  }

  lemma DroppedAt(was: map<nat, Entry>, now: map<nat, Entry>, r: Region, start: nat)
    requires Dropped(was, now, r, start)
    ensures start in now <==> start in was
  {
  }

  // ----- the memory set -----

  class GuestPhysMemorySet {
    var regions: map<nat, Region>
    const npt: GuestPageTable

    /** Regions are disjoint and mapped as they say. */
    ghost predicate Valid()
      reads this, npt
    {
      Disjoint(regions) && Covers(npt.table, regions)
    }

    constructor ()
      ensures Valid() && regions == map[] && npt.table == map[] && fresh(npt)
    {
      var t := new GuestPageTable();
      npt := t;
      regions := map[];
    }

    /** Accepts a region that ends at an address exactly if it overlaps no stored one. */
    method TestFreeArea(other: Region) returns (free: bool)
      requires Disjoint(regions) && WellFormed(other) && other.size > 0
      ensures free <==> if Sound(other) then Free(regions, other) else FreeWrapped(regions, other)
    {
      var before := LastBelow(regions.Keys, other.start);
      var after := FirstFrom(regions.Keys, other.start);
      NeighboursSuffice(regions, other, before, after);
      if before.Some? {
        if IsOverlapWith(regions[before.value], other) {
          return false;
        }
      }
      if after.Some? {
        if IsOverlapWith(regions[after.value], other) {
          return false;
        }
      }
      return true;
    }

    /**
     * Stores and maps a region, unless it overlaps one or the table gives out on the way. A region
     * that wraps around and gets past the test is stored with none of its pages mapped.
     */
    method MapRegion(region: Region, full: set<nat>) returns (r: Outcome, ghost end: nat)
      requires Valid() && WellFormed(region)
      modifies this, npt
      ensures Valid() <==> Sound(region) || r != Mapped
      ensures region.size == 0 ==> r == Mapped && regions == old(regions) && npt.table == old(npt.table)
      ensures region.size > 0 ==>
        (r == Overlap <==> if Sound(region) then !Free(old(regions), region) else !FreeWrapped(old(regions), region))
      ensures r == Overlap ==> regions == old(regions) && npt.table == old(npt.table)
      ensures r == Mapped && region.size > 0 ==> regions == old(regions)[region.start := region]
      ensures r == Mapped && region.size > 0 && Sound(region) ==>
        Added(old(npt.table), npt.table, region, region.start + region.size)
      ensures r == TableFull ==>
        Sound(region) && regions == old(regions) && MapsTo(region, old(npt.table), npt.table, full, false, end)
      ensures !Sound(region) ==> npt.table == old(npt.table)
      ensures !Sound(region) && r == Mapped && old(Exact(npt.table, regions)) ==>
        HasPage(region, region.start) && (region.start !in npt.table || !Free(old(regions), region))
      ensures old(Exact(npt.table, regions)) && region.size > 0 && Sound(region) ==>
        (Exact(npt.table, regions) <==> LeavesNothing(old(regions), region, full))
      ensures old(Exact(npt.table, regions)) && region.size > 0 && Sound(region) && Free(old(regions), region) ==>
        (r == Mapped <==> forall p: nat | HasPage(region, p) :: p !in full)
    {
      end := region.start;
      if region.size == 0 {
        return Mapped, end;
      }
      var free := TestFreeArea(region);
      if !free {
        return Overlap, end;
      }
      ghost var was := npt.table;
      var ok, reached := MapTo(region, npt, full);
      end := reached;
      if Sound(region) {
        StillCovers(regions, region, was, npt.table, end);
      }
      if !ok {
        if Exact(was, regions) {
          StopsShort(regions, region, was, npt.table, end);
        }
        return TableFull, end;
      }
      if Sound(region) {
        NowCovers(regions, region, was, npt.table);
      } else {
        NotDisjoint(regions, region);
      }
      regions := regions[region.start := region];
      return Mapped, end;
    }

    /** Unmaps every region and forgets it; no unmapping can fail, so it does not panic. */
    method Clear()
      requires Valid()
      modifies this, npt
      ensures Valid() && regions == map[] && Cleared(old(npt.table), npt.table, old(regions), old(regions).Keys)
      ensures old(Exact(npt.table, regions)) ==> npt.table == map[]
    {
      hide EntryOf, Cleared, Exact, Disjoint, Covers, Dropped;
      ghost var was, done := npt.table, {};
      ClearedNone(was, regions);
      var rest := regions.Keys;
      while rest != {}
        invariant regions == old(regions) && Disjoint(regions) && Covers(was, regions)
        invariant done == regions.Keys - rest && rest <= regions.Keys && Cleared(was, npt.table, regions, done)
        decreases rest
      {
        var k :| k in rest;
        StillMapped(was, npt.table, regions, done, k);
        ghost var now := npt.table;
        var ok := UnmapTo(regions[k], npt);
        assert ok;
        ClearStep(was, now, npt.table, regions, done, k);
        done := done + {k};
        rest := rest - {k};
      }
      assert done == regions.Keys;
      if Exact(was, regions) {
        NothingLeft(was, npt.table, regions);
      }
      regions := map[];
      NoRegions(npt.table);
    }
  }

  /** Any run of successful calls on a new set leaves its table translating exactly as its regions say. */
  method MapAll(memory: GuestPhysMemorySet, list: seq<Region>, fulls: seq<set<nat>>) returns (ok: bool)
    requires memory.Valid() && Exact(memory.npt.table, memory.regions)
    requires |fulls| == |list| && forall r | r in list :: Sound(r)
    modifies memory, memory.npt
    ensures memory.Valid()
    ensures ok ==> Exact(memory.npt.table, memory.regions)
    ensures ok ==> forall r | r in list && r.size > 0 :: r in memory.regions.Values
  {
    hide Disjoint, Covers, Exact, WellFormed, Added, MapsTo, Free, FreeWrapped;
    for i := 0 to |list|
      invariant memory.Valid() && Exact(memory.npt.table, memory.regions)
      invariant forall j | 0 <= j < i && list[j].size > 0 :: Stored(memory.regions, list[j])
    {
      StartFree(memory.regions, list[i]);
      assert list[i] in list;
      var r, _ := memory.MapRegion(list[i], fulls[i]);
      if r != Mapped {
        return false;
      }
    }
    return true;
  }

  /** A table that gives out at a region's second page keeps the first, and clearing the set does not drop it. */
  method LeftBehind(flags: nat) returns (memory: GuestPhysMemorySet)
    ensures fresh(memory) && memory.Valid() && memory.regions == map[] && memory.npt.table == map[0 := Entry(0, flags)]
  {
    var region := Region(0, 2 * PAGE, flags, 0);
    memory := new GuestPhysMemorySet();
    var r, end := memory.MapRegion(region, {PAGE});
    assert HasPage(region, 0) && HasPage(region, PAGE);
    assert r == TableFull && end == PAGE;
    assert memory.npt.table == map[0 := Entry(0, flags)];
    memory.Clear();
  }

  /** The region of the last page ends past the last address: it is stored, and its page is not mapped. */
  method LastPage(flags: nat) returns (memory: GuestPhysMemorySet)
    ensures fresh(memory) && memory.npt.table == map[] && !memory.Valid()
    ensures memory.regions == map[U64_SIZE - PAGE := Region(U64_SIZE - PAGE, PAGE, flags, 0)]
  {
    memory := new GuestPhysMemorySet();
    var r, _ := memory.MapRegion(Region(U64_SIZE - PAGE, PAGE, flags, 0), {});
  }

  ghost predicate Stored(regions: map<nat, Region>, r: Region) {
    r.start in regions && regions[r.start] == r
  }

  lemma StartFree(regions: map<nat, Region>, r: Region)
    ensures Disjoint(regions) && Free(regions, r) && r.size > 0 ==> r.start !in regions
  {
  }

  /** `now` is `was` without the pages of the regions in `done`. */
  ghost predicate Cleared(was: map<nat, Entry>, now: map<nat, Entry>, regions: map<nat, Region>, done: set<nat>) {
    && (forall p: nat | p in now :: p in was && now[p] == was[p])
    && (forall p: nat | p in was :: p in now <==> forall k | k in regions && k in done :: !HasPage(regions[k], p))
  }

  lemma NoRegions(table: map<nat, Entry>)
    ensures Disjoint(map[]) && Covers(table, map[])
  {
  }

  lemma ClearedNone(was: map<nat, Entry>, regions: map<nat, Region>)
    ensures Cleared(was, was, regions, {})
  {
  }

  lemma ClearStep(was: map<nat, Entry>, now: map<nat, Entry>, next: map<nat, Entry>,
                  regions: map<nat, Region>, done: set<nat>, k: nat)
    requires Cleared(was, now, regions, done) && k in regions && Dropped(now, next, regions[k], regions[k].start + regions[k].size)
    ensures Cleared(was, next, regions, done + {k})
  {
    forall p: nat | p in was
      ensures p in next <==> forall j | j in regions && j in done + {k} :: !HasPage(regions[j], p)
    {
      if p in now && !HasPage(regions[k], p) {
        assert p in next;
      } else if p !in now {
        assert p !in next;
      }
    }
  }

  lemma StillMapped(was: map<nat, Entry>, now: map<nat, Entry>, regions: map<nat, Region>, done: set<nat>, k: nat)
    requires Disjoint(regions) && Covers(was, regions) && Cleared(was, now, regions, done) && k in regions && k !in done
    ensures Sound(regions[k]) && forall p: nat | HasPage(regions[k], p) :: p in now
  {
    hide EntryOf, Sound;
    assert Sound(regions[k]);
  }

  lemma NothingLeft(was: map<nat, Entry>, now: map<nat, Entry>, regions: map<nat, Region>)
    requires Cleared(was, now, regions, regions.Keys) && Exact(was, regions)
    ensures now == map[]
  {
    forall p: nat | p in was ensures p !in now {
      var k :| k in regions && HasPage(regions[k], p);
      assert k in regions.Keys;
    }
  }

  lemma StillCovers(regions: map<nat, Region>, r: Region, was: map<nat, Entry>, now: map<nat, Entry>, end: nat)
    requires Disjoint(regions) && Free(regions, r) && Sound(r) && Covers(was, regions) && Added(was, now, r, end)
    ensures Covers(now, regions)
    ensures Exact(was, regions) ==> forall p: nat | HasPage(r, p) :: p !in was
  {
    hide EntryOf, Sound;
  }

  /**
   * The call leaves no page behind that belongs to no region: it is refused at once, it cannot
   * map even its first page, or it maps all of them.
   */
  ghost predicate LeavesNothing(regions: map<nat, Region>, r: Region, full: set<nat>) {
    !Free(regions, r) || r.start in full || forall p: nat | HasPage(r, p) :: p !in full
  }

  lemma StopsShort(regions: map<nat, Region>, r: Region, was: map<nat, Entry>, now: map<nat, Entry>, end: nat)
    requires Sound(r) && Free(regions, r) && Disjoint(regions) && r.start <= end < r.start + r.size
    requires Added(was, now, r, end) && Exact(was, regions)
    ensures Exact(now, regions) <==> end == r.start
  {
    hide EntryOf;
    if end > r.start {
      assert HasPage(r, r.start) && r.start in now;
    }
  }

  lemma NowDisjoint(regions: map<nat, Region>, r: Region)
    requires Disjoint(regions) && Free(regions, r) && Sound(r) && r.size > 0
    ensures r.start !in regions && Disjoint(regions[r.start := r])
  {
    hide Sound;
  }

  lemma NotDisjoint(regions: map<nat, Region>, r: Region)
    requires !Sound(r)
    ensures !Disjoint(regions[r.start := r])
  {
    assert regions[r.start := r][r.start] == r;
  }

  lemma NowExact(regions: map<nat, Region>, r: Region, was: map<nat, Entry>, now: map<nat, Entry>)
    requires Sound(r) && r.start !in regions && Exact(was, regions) && Added(was, now, r, r.start + r.size)
    ensures Exact(now, regions[r.start := r])
  {
    hide EntryOf, Sound;
    var rs := regions[r.start := r];
    forall p: nat | p in now ensures exists k | k in rs :: HasPage(rs[k], p) {
      if HasPage(r, p) {
        assert HasPage(rs[r.start], p);
      } else {
        var k :| k in regions && HasPage(regions[k], p);
        assert HasPage(rs[k], p);
      }
    }
  }

  lemma NowCovers(regions: map<nat, Region>, r: Region, was: map<nat, Entry>, now: map<nat, Entry>)
    requires Disjoint(regions) && Free(regions, r) && Sound(r) && r.size > 0 && Covers(now, regions)
    requires Added(was, now, r, r.start + r.size)
    ensures var rs := regions[r.start := r]; Disjoint(rs) && Covers(now, rs) && (Exact(was, regions) ==> Exact(now, rs))
  {
    NowDisjoint(regions, r);
    if Exact(was, regions) {
      NowExact(regions, r, was, now);
    }
    hide EntryOf, Sound, Exact, Disjoint, Free;
  }

  /** Mapped pages are exactly the pages of the regions, and each goes where its one region says. */
  lemma TranslatesByRegion(regions: map<nat, Region>, table: map<nat, Entry>, p: nat)
    requires Disjoint(regions) && Covers(table, regions) && Exact(table, regions) && p % PAGE == 0
    ensures p in table <==> exists k | k in regions :: HasPage(regions[k], p)
    ensures forall k | k in regions && HasPage(regions[k], p) ::
      && Sound(regions[k]) && table[p] == EntryOf(regions[k], p)
      && forall j | j in regions && HasPage(regions[j], p) :: j == k
  {
    hide EntryOf;
  }
}
