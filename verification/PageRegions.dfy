/** Mapping and unmapping contiguous regions: huge pages are invisible except for their size,
    and unmapping a region just mapped gives every translation back. */
module PageRegions {
  import opened Arith
  import opened Options
  import opened PageTableEntry
  import opened PageWalk
  import opened PageMap
  import opened PageRuns

  predicate Aligned(a: nat, lv: Level) {
    a % Size(lv) == 0
  }

  /** A page of this level can stand at the start of the region. */
  predicate Admits(va: nat, pa: nat, size: nat, lv: Level) {
    Aligned(va, lv) && Aligned(pa, lv) && size >= Size(lv)
  }

  /** The page size `map_region` picks for the next step. */
  function PickLevel(va: nat, pa: nat, size: nat, allowHuge: bool): (lv: Level)
    ensures lv <= 3 && (lv > 1 ==> allowHuge && Admits(va, pa, size, lv))
    ensures forall m: Level | allowHuge && lv < m <= 3 :: !Admits(va, pa, size, m)
  {
    if allowHuge && Aligned(va, 3) && Aligned(pa, 3) && size >= Size(3) then 3
    else if allowHuge && Aligned(va, 2) && Aligned(pa, 2) && size >= Size(2) then 2
    else 1
  }

  /** The loop of `map_region`. */
  function MapPages(fmt: PteFormat, levels: Level, s: State, va: nat, pa: nat, size: nat,
                    flags: MappingFlags, allowHuge: bool): (State, Result<()>)
    decreases size
  {
    if size < Size(1) then (s, Ok(()))
    else
      var lv := PickLevel(va, pa, size, allowHuge);
      var (s1, r) := MapPage(fmt, levels, s, va, pa, lv, flags);
      if r.Err? then (s1, r)
      else MapPages(fmt, levels, s1, va + Size(lv), pa + Size(lv), size - Size(lv), flags, allowHuge)
  }

  /** `PageTable64::map_region`. */
  function MapRegion(fmt: PteFormat, levels: Level, s: State, va: nat, pa: nat, size: nat,
                     flags: MappingFlags, allowHuge: bool): (State, Result<()>)
  {
    if !Aligned(va, 1) || !Aligned(pa, 1) || !Aligned(size, 1) then (s, Err(NotAligned))
    else MapPages(fmt, levels, s, va, pa, size, flags, allowHuge)
  }

  /** How `unmap_region` ends: `Panicked` where one of its two assertions fails. */
  datatype UnmapEnd = Done | Failed(error: PagingError) | Panicked

  /** The loop of `unmap_region`. */
  function UnmapPages(fmt: PteFormat, levels: Level, s: State, va: nat, size: nat): (State, UnmapEnd)
    decreases size
  {
    if size == 0 then (s, Done)
    else
      var (s1, r) := UnmapPage(fmt, levels, s, va);
      match r
      case Err(error) => (s1, Failed(error))
      case Ok((_, lv)) =>
        if !Aligned(va, lv) || Size(lv) > size then (s1, Panicked)
        else UnmapPages(fmt, levels, s1, va + Size(lv), size - Size(lv))
  }

  // ----- addresses of a region -----

  /** `v`, taken modulo the index range, lies `d` bytes into the region from `va`. */
  predicate InRegion(levels: Level, va: nat, size: nat, v: nat)
    requires 3 <= levels <= 4
  {
    va % Span(levels) <= v % Span(levels) < va % Span(levels) + size
  }

  function Offset(levels: Level, va: nat, v: nat): int
    requires 3 <= levels <= 4
  {
    v % Span(levels) - va % Span(levels)
  }

  /** The page of level `lv` that holds `v` lies inside the region. */
  predicate PageInside(levels: Level, va: nat, size: nat, v: nat, lv: Level)
    requires 3 <= levels <= 4
  {
    && va % Span(levels) <= AlignDown(v % Span(levels), lv)
    && AlignDown(v % Span(levels), lv) + Size(lv) <= va % Span(levels) + size
  }

  /** The region does not run past the end of the index range. */
  predicate NoWrap(levels: Level, va: nat, size: nat)
    requires 3 <= levels <= 4
  {
    va % Span(levels) + size <= Span(levels)
  }

  /** The page that starts at an aligned address is the addresses up to its size. */
  lemma PageIsRange(levels: Level, lv: Level, va: nat, v: nat)
    requires 3 <= levels <= 4 && lv <= 3 && Aligned(va, lv)
    ensures SamePage(levels, lv, va, v) <==> InRegion(levels, va, Size(lv), v)
    ensures SamePage(levels, lv, va, v) ==>
              && v % Size(lv) == Offset(levels, va, v) && PageInside(levels, va, Size(lv), v, lv)
    ensures NoWrap(levels, va, Size(lv))
  {
    SameDigits(levels, va, lv);
    SameDigits(levels, v, lv);
    PageRange(levels, lv, va % Span(levels), v % Span(levels));
  }

  lemma PageRange(levels: Level, lv: Level, x: nat, y: nat)
    requires 3 <= levels <= 4 && lv <= 3 && x < Span(levels) && y < Span(levels) && x % Size(lv) == 0
    ensures x / Size(lv) == y / Size(lv) <==> x <= y < x + Size(lv)
    ensures x / Size(lv) == y / Size(lv) ==> y % Size(lv) == y - x && y / Size(lv) * Size(lv) == x
    ensures x + Size(lv) <= Span(levels)
  {
    var m := SpanParts(levels, lv);
    hide Size, Span;
    AlignedRange(x, y, Size(lv));
    AlignedRange(x, Span(levels), Size(lv));
    Quotient(512 * m, 0, Size(lv));
  }

  lemma AlignedRange(x: nat, y: nat, d: nat)
    requires d > 0 && x % d == 0
    ensures x / d == y / d <==> x <= y < x + d
    ensures x / d == y / d ==> y % d == y - x && y / d * d == x
    ensures y % d == 0 && x < y ==> x + d <= y
  {
    var p, q := x / d, y / d;
    assert x == p * d && y == q * d + y % d;
    if p < q {
      MulMonotone(p + 1, q, d);
    } else if q < p {
      MulMonotone(q + 1, p, d);
    }
  }

  /** Cutting the first `d` bytes off a region. */
  lemma SplitRegion(levels: Level, va: nat, size: nat, d: nat, v: nat)
    requires 3 <= levels <= 4 && NoWrap(levels, va, size) && 0 < d <= size
    ensures NoWrap(levels, va + d, size - d)
    ensures d < size ==> (va + d) % Span(levels) == va % Span(levels) + d
    ensures InRegion(levels, va, size, v) <==> InRegion(levels, va, d, v) || InRegion(levels, va + d, size - d, v)
    ensures !(InRegion(levels, va, d, v) && InRegion(levels, va + d, size - d, v))
    ensures InRegion(levels, va + d, size - d, v) ==> Offset(levels, va, v) == Offset(levels, va + d, v) + d
  {
  }

  // ----- what the region maps to -----

  /** `t` sends an address `off` bytes into the region to the same offset from `pa`. */
  predicate Reaches(fmt: PteFormat, t: Option<Mapping>, pa: nat, off: int, flags: MappingFlags) {
    t.Some? && t.value.paddr == pa + off && t.value.flags == fmt.stored(flags)
  }

  /** From `s` to `s'` exactly the region was added, in pages that lie inside it. */
  ghost predicate RegionAdded(fmt: PteFormat, levels: Level, s: State, s': State,
                              va: nat, pa: nat, size: nat, flags: MappingFlags, v: nat)
    requires 3 <= levels <= 4
  {
    var t, t' := Translate(fmt, levels, s, v), Translate(fmt, levels, s', v);
    if InRegion(levels, va, size, v) then
      && t.None? && Reaches(fmt, t', pa, Offset(levels, va, v), flags)
      && PageInside(levels, va, size, v, t'.value.level)
    else t' == t
  }

  /** Nothing outside the region changed, and inside it an address is as before or as asked. */
  ghost predicate RegionTouched(fmt: PteFormat, levels: Level, s: State, s': State,
                                va: nat, pa: nat, size: nat, flags: MappingFlags, v: nat)
    requires 3 <= levels <= 4
  {
    var t, t' := Translate(fmt, levels, s, v), Translate(fmt, levels, s', v);
    t' == t || (InRegion(levels, va, size, v) && t.None? && Reaches(fmt, t', pa, Offset(levels, va, v), flags))
  }

  /** The physical addresses of the region fit the entries and the flags make present leaves. */
  ghost predicate RegionFits(fmt: PteFormat, pa: nat, size: nat, flags: MappingFlags) {
    pa + size <= fmt.physLimit && fmt.mappable(flags)
  }

  ghost predicate RegionAccepts(fmt: PteFormat, levels: Level, va: nat, pa: nat, size: nat, flags: MappingFlags) {
    && 3 <= levels <= 4 && Aligned(va, 1) && Aligned(pa, 1) && Aligned(size, 1) && NoWrap(levels, va, size)
    && RegionFits(fmt, pa, size, flags)
  }

  /** A step of the loop maps an aligned page that fits. */
  lemma StepFits(fmt: PteFormat, va: nat, pa: nat, size: nat, flags: MappingFlags, allowHuge: bool)
    requires Aligned(va, 1) && Aligned(pa, 1) && Aligned(size, 1) && RegionFits(fmt, pa, size, flags) && size > 0
    ensures var lv := PickLevel(va, pa, size, allowHuge);
            && Size(lv) <= size && Aligned(va, lv) && MapAccepts(fmt, pa, lv, flags) && AlignDown(pa, lv) == pa
            && Aligned(va + Size(lv), 1) && Aligned(pa + Size(lv), 1) && Aligned(size - Size(lv), 1)
            && RegionFits(fmt, pa + Size(lv), size - Size(lv), flags)
  {
    var lv := PickLevel(va, pa, size, allowHuge);
    AlignedSum(va, lv);
    AlignedSum(pa, lv);
    AlignedSum(size - Size(lv), lv);
  }

  /** A step of the loop stays in the region, and leaves a region to map. */
  lemma StepAccepts(fmt: PteFormat, levels: Level, va: nat, pa: nat, size: nat, flags: MappingFlags, allowHuge: bool)
    requires RegionAccepts(fmt, levels, va, pa, size, flags) && size >= Size(1)
    ensures var lv := PickLevel(va, pa, size, allowHuge);
            && Size(lv) <= size && Aligned(va, lv) && MapAccepts(fmt, pa, lv, flags) && AlignDown(pa, lv) == pa
            && RegionAccepts(fmt, levels, va + Size(lv), pa + Size(lv), size - Size(lv), flags)
  {
    StepFits(fmt, va, pa, size, flags, allowHuge);
    hide Size, PickLevel, MapAccepts, AlignDown, RegionFits;
    SplitRegion(levels, va, size, Size(PickLevel(va, pa, size, allowHuge)), 0);
  }

  lemma AlignedSum(a: nat, lv: Level)
    requires lv <= 3
    ensures Aligned(a + Size(lv), 1) == Aligned(a, 1)
    ensures Aligned(a, lv) ==> AlignDown(a, lv) == a && Aligned(a, 1)
  {
    var n := match lv case 1 => 1 case 2 => 512 case _ => 0x4_0000;
    ModAddMultiple(a, n, 0x1000);
    ModOfReduced(a, 0x1000, n, Size(lv));
  }

  /** One page, then the rest of the region. */
  lemma AddedThenAdded(fmt: PteFormat, levels: Level, s: State, s1: State, s': State,
                       va: nat, pa: nat, size: nat, flags: MappingFlags, lv: Level, v: nat)
    requires 3 <= levels <= 4 && lv <= 3 && Aligned(va, lv) && AlignDown(pa, lv) == pa
    requires NoWrap(levels, va, size) && Size(lv) <= size
    requires SamePage(levels, lv, va, v) ==> Translate(fmt, levels, s, v) == None
    requires Translate(fmt, levels, s1, v)
          == if SamePage(levels, lv, va, v) then Some(MappedAt(fmt, pa, lv, flags, v)) else Translate(fmt, levels, s, v)
    ensures RegionAdded(fmt, levels, s1, s', va + Size(lv), pa + Size(lv), size - Size(lv), flags, v) ==>
              RegionAdded(fmt, levels, s, s', va, pa, size, flags, v)
    ensures RegionTouched(fmt, levels, s1, s', va + Size(lv), pa + Size(lv), size - Size(lv), flags, v) ==>
              RegionTouched(fmt, levels, s, s', va, pa, size, flags, v)
  {
    PageIsRange(levels, lv, va, v);
    SplitRegion(levels, va, size, Size(lv), v);
    hide TranslateFrom, Size, Span, SamePage;
  }

  /** A successful `map_region` adds exactly the region; a failed one touches nothing else. */
  lemma MapPagesCorrect(fmt: PteFormat, levels: Level, s: State, owner: map<nat, Loc>,
                        va: nat, pa: nat, size: nat, flags: MappingFlags, allowHuge: bool)
    returns (owner': map<nat, Loc>)
    requires Inv(fmt, levels, s, owner) && RegionAccepts(fmt, levels, va, pa, size, flags)
    ensures var (s', r) := MapPages(fmt, levels, s, va, pa, size, flags, allowHuge);
            && Inv(fmt, levels, s', owner')
            && forall v: nat ::
                 if r.Ok? then RegionAdded(fmt, levels, s, s', va, pa, size, flags, v)
                 else RegionTouched(fmt, levels, s, s', va, pa, size, flags, v)
    decreases size
  {
    hide Inv, Size, TranslateFrom, SamePage, PickLevel, MapPage, MapAccepts, AlignDown, RegionAdded, RegionTouched,
         RegionAccepts;
    NothingToMap(fmt, levels, s, va, pa, size, flags);
    if size < Size(1) {
      owner' := owner;
    } else {
      var lv := PickLevel(va, pa, size, allowHuge);
      StepAccepts(fmt, levels, va, pa, size, flags, allowHuge);
      owner' := MapCorrect(fmt, levels, s, owner, va, pa, lv, flags);
      var (s1, r1) := MapPage(fmt, levels, s, va, pa, lv, flags);
      if r1.Ok? {
        owner' := MapPagesCorrect(fmt, levels, s1, owner', va + Size(lv), pa + Size(lv), size - Size(lv), flags, allowHuge);
        var (s', r) := MapPages(fmt, levels, s1, va + Size(lv), pa + Size(lv), size - Size(lv), flags, allowHuge);
        forall v: nat
          ensures if r.Ok? then RegionAdded(fmt, levels, s, s', va, pa, size, flags, v)
                  else RegionTouched(fmt, levels, s, s', va, pa, size, flags, v)
        {
          AddedThenAdded(fmt, levels, s, s1, s', va, pa, size, flags, lv, v);
        }
      } else {
        forall v: nat ensures RegionTouched(fmt, levels, s, s1, va, pa, size, flags, v) {
          Untouched(fmt, levels, s, s1, va, pa, size, flags, v);
        }
      }
    }
  }

  lemma NothingToMap(fmt: PteFormat, levels: Level, s: State, va: nat, pa: nat, size: nat, flags: MappingFlags)
    requires RegionAccepts(fmt, levels, va, pa, size, flags)
    ensures 3 <= levels <= 4 && NoWrap(levels, va, size)
    ensures size < Size(1) ==> forall v: nat :: RegionAdded(fmt, levels, s, s, va, pa, size, flags, v)
  {
  }

  lemma Untouched(fmt: PteFormat, levels: Level, s: State, s': State,
                  va: nat, pa: nat, size: nat, flags: MappingFlags, v: nat)
    requires 3 <= levels <= 4 && Translate(fmt, levels, s', v) == Translate(fmt, levels, s, v)
    ensures RegionTouched(fmt, levels, s, s', va, pa, size, flags, v)
  {
  }

  /** Huge pages change only the page size: where both ways of mapping a region succeed,
      every address gets the same physical address and flags. */
  lemma HugePagesInvisible(fmt: PteFormat, levels: Level, s: State, owner: map<nat, Loc>,
                           va: nat, pa: nat, size: nat, flags: MappingFlags, v: nat)
    requires Inv(fmt, levels, s, owner) && RegionAccepts(fmt, levels, va, pa, size, flags)
    requires MapRegion(fmt, levels, s, va, pa, size, flags, true).1.Ok?
    requires MapRegion(fmt, levels, s, va, pa, size, flags, false).1.Ok?
    ensures var t := Translate(fmt, levels, MapRegion(fmt, levels, s, va, pa, size, flags, true).0, v);
            var t' := Translate(fmt, levels, MapRegion(fmt, levels, s, va, pa, size, flags, false).0, v);
            && (t.Some? <==> t'.Some?)
            && (t.Some? ==> t.value.paddr == t'.value.paddr && t.value.flags == t'.value.flags)
  {
    var _ := MapPagesCorrect(fmt, levels, s, owner, va, pa, size, flags, true);
    var _ := MapPagesCorrect(fmt, levels, s, owner, va, pa, size, flags, false);
    hide TranslateFrom, MapPages, Inv, InRegion, Offset, PageInside, Size;
    var s1 := MapPages(fmt, levels, s, va, pa, size, flags, true).0;
    var s2 := MapPages(fmt, levels, s, va, pa, size, flags, false).0;
    assert RegionAdded(fmt, levels, s, s1, va, pa, size, flags, v);
    assert RegionAdded(fmt, levels, s, s2, va, pa, size, flags, v);
  }

  // ----- unmapping the region again -----

  /** Relative to `s0`, the table `s` has just the region on top, in pages that lie inside it. */
  ghost predicate OnTop(fmt: PteFormat, levels: Level, s0: State, s: State, va: nat, size: nat, v: nat)
    requires 3 <= levels <= 4
  {
    var t0, t := Translate(fmt, levels, s0, v), Translate(fmt, levels, s, v);
    if InRegion(levels, va, size, v) then t0.None? && t.Some? && PageInside(levels, va, size, v, t.value.level)
    else t == t0
  }

  /** The page that holds the first address of the region starts there and fits. */
  lemma FirstPage(fmt: PteFormat, levels: Level, s0: State, s: State, va: nat, size: nat)
    requires 3 <= levels <= 4 && size > 0 && OnTop(fmt, levels, s0, s, va, size, va)
    ensures var t := Translate(fmt, levels, s, va);
            t.Some? && t.value.level <= 4 && Aligned(va, t.value.level) && Size(t.value.level) <= size
  {
    LevelBound(fmt, s.mem, s.root, levels, va);
    var t := Translate(fmt, levels, s, va);
    assert InRegion(levels, va, size, va);
    SameDigits(levels, va, t.value.level);
    AlignedStart(va % Span(levels), t.value.level);
  }

  lemma AlignedStart(x: nat, lv: Level)
    requires x <= AlignDown(x, lv)
    ensures x % Size(lv) == 0
  {
  }

  /** A page translates as a whole: all its addresses have its level. */
  lemma PageUniform(fmt: PteFormat, levels: Level, s: State, owner: map<nat, Loc>, v: nat, w: nat)
    requires Inv(fmt, levels, s, owner) && 3 <= levels <= 4
    requires Translate(fmt, levels, s, v).Some? && SamePage(levels, Translate(fmt, levels, s, v).value.level, v, w)
    ensures Translate(fmt, levels, s, w).Some?
    ensures Translate(fmt, levels, s, w).value.level == Translate(fmt, levels, s, v).value.level <= 3
  {
    hide Size, Block, TranslateFrom, Index, Tree, Serves, Walk, FreshSupply, ListsOwned;
    RootServes(fmt, levels, s, owner, v);
    WalkCorrect(fmt, levels, s.root, s.mem, owner, s.root, v);
    var slot := Walk(fmt, s.mem, s.root, levels, v).value;
    BlockIsPage(levels, owner[slot.frame], v, w);
    BlockTranslation(fmt, levels, s.root, s.mem, owner, slot.frame, slot.index, w);
  }

  /** The pages behind the first page of the region start behind it. */
  lemma StartsAfter(fmt: PteFormat, levels: Level, s: State, owner: map<nat, Loc>, va: nat, size: nat, v: nat)
    requires Inv(fmt, levels, s, owner) && 3 <= levels <= 4 && NoWrap(levels, va, size)
    requires Translate(fmt, levels, s, va).Some? && Translate(fmt, levels, s, v).Some?
    requires var lv := Translate(fmt, levels, s, va).value.level;
             Aligned(va, lv) && Size(lv) <= size && InRegion(levels, va + Size(lv), size - Size(lv), v)
    requires PageInside(levels, va, size, v, Translate(fmt, levels, s, v).value.level)
    ensures var lv := Translate(fmt, levels, s, va).value.level;
            PageInside(levels, va + Size(lv), size - Size(lv), v, Translate(fmt, levels, s, v).value.level)
  {
    hide Translate, Inv, Size, Span, AlignDown, PageInside, InRegion, SamePage;
    var lv, m := Translate(fmt, levels, s, va).value.level, Translate(fmt, levels, s, v).value.level;
    PageLevel(fmt, levels, s, owner, va);
    PageLevel(fmt, levels, s, owner, v);
    SpanBound(levels, v);
    var start := AlignDown(v % Span(levels), m);
    InItsPage(levels, m, v);
    OtherPage(fmt, levels, s, owner, va, size, v);
    PageIsRange(levels, lv, va, start);
    BehindPage(levels, va, size, lv, v, m);
  }

  lemma PageLevel(fmt: PteFormat, levels: Level, s: State, owner: map<nat, Loc>, v: nat)
    requires Inv(fmt, levels, s, owner) && 3 <= levels <= 4 && Translate(fmt, levels, s, v).Some?
    ensures Translate(fmt, levels, s, v).value.level <= 3
  {
    hide Inv, Translate, Block;
    PageUniform(fmt, levels, s, owner, v, v);
  }

  /** The page of an address behind the first page does not start in the first page. */
  lemma OtherPage(fmt: PteFormat, levels: Level, s: State, owner: map<nat, Loc>, va: nat, size: nat, v: nat)
    requires Inv(fmt, levels, s, owner) && 3 <= levels <= 4 && NoWrap(levels, va, size)
    requires Translate(fmt, levels, s, va).Some? && Translate(fmt, levels, s, v).Some?
    requires var lv := Translate(fmt, levels, s, va).value.level;
             Aligned(va, lv) && Size(lv) <= size && InRegion(levels, va + Size(lv), size - Size(lv), v)
    ensures var lv, m := Translate(fmt, levels, s, va).value.level, Translate(fmt, levels, s, v).value.level;
            !SamePage(levels, lv, va, AlignDown(v % Span(levels), m))
  {
    hide Translate, Inv, Size, Span, AlignDown, InRegion, Block;
    var lv, m := Translate(fmt, levels, s, va).value.level, Translate(fmt, levels, s, v).value.level;
    PageLevel(fmt, levels, s, owner, va);
    PageLevel(fmt, levels, s, owner, v);
    SpanBound(levels, v);
    var start := AlignDown(v % Span(levels), m);
    InItsPage(levels, m, v);
    PageUniform(fmt, levels, s, owner, v, start);
    SplitRegion(levels, va, size, Size(lv), v);
    PageIsRange(levels, lv, va, v);
    if SamePage(levels, lv, va, start) {
      PageUniform(fmt, levels, s, owner, va, start);
    }
  }

  lemma BehindPage(levels: Level, va: nat, size: nat, lv: Level, v: nat, m: Level)
    requires 3 <= levels <= 4 && NoWrap(levels, va, size) && Size(lv) <= size
    requires InRegion(levels, va + Size(lv), size - Size(lv), v) && PageInside(levels, va, size, v, m)
    requires AlignDown(v % Span(levels), m) % Span(levels) == AlignDown(v % Span(levels), m)
    requires !InRegion(levels, va, Size(lv), AlignDown(v % Span(levels), m))
    ensures PageInside(levels, va + Size(lv), size - Size(lv), v, m)
  {
    hide Size, Span, AlignDown;
    SplitRegion(levels, va, size, Size(lv), v);
  }

  lemma InItsPage(levels: Level, m: Level, v: nat)
    requires 3 <= levels <= 4 && m <= 3
    ensures var start := AlignDown(v % Span(levels), m);
            start % Span(levels) == start && SamePage(levels, m, v, start)
  {
    StartOfPage(v % Span(levels), m);
  }

  lemma StartOfPage(x: nat, m: Level)
    ensures AlignDown(x, m) <= x && AlignDown(x, m) / Size(m) == x / Size(m)
  {
  }

  /** Taking the first page off the region. */
  lemma OffThenOff(fmt: PteFormat, levels: Level, s0: State, s: State, owner: map<nat, Loc>, s1: State,
                   va: nat, size: nat, v: nat)
    requires Inv(fmt, levels, s, owner) && 3 <= levels <= 4 && NoWrap(levels, va, size)
    requires Translate(fmt, levels, s, va).Some?
    requires var lv := Translate(fmt, levels, s, va).value.level; lv <= 3 && Aligned(va, lv) && Size(lv) <= size
    requires OnTop(fmt, levels, s0, s, va, size, v)
    requires Translate(fmt, levels, s1, v)
          == if SamePage(levels, Translate(fmt, levels, s, va).value.level, va, v) then None
             else Translate(fmt, levels, s, v)
    ensures var lv := Translate(fmt, levels, s, va).value.level;
            OnTop(fmt, levels, s0, s1, va + Size(lv), size - Size(lv), v)
  {
    hide TranslateFrom, Size, Span, SamePage, Inv, PageInside;
    var lv := Translate(fmt, levels, s, va).value.level;
    PageIsRange(levels, lv, va, v);
    SplitRegion(levels, va, size, Size(lv), v);
    if InRegion(levels, va + Size(lv), size - Size(lv), v) {
      StartsAfter(fmt, levels, s, owner, va, size, v);
    }
  }

  /** `unmap` of the first address of what lies on top takes off one page that fits. */
  lemma UnmapFirst(fmt: PteFormat, levels: Level, s0: State, s: State, owner: map<nat, Loc>, va: nat, size: nat)
    returns (lv: Level, va': nat, size': nat)
    requires Inv(fmt, levels, s, owner) && 3 <= levels <= 4 && NoWrap(levels, va, size) && size > 0
    requires forall v: nat :: OnTop(fmt, levels, s0, s, va, size, v)
    ensures var (s1, r) := UnmapPage(fmt, levels, s, va);
            && r.Ok? && r.value.1 == lv && Aligned(va, lv) && Size(lv) <= size
            && va' == va + Size(lv) && size' == size - Size(lv) && NoWrap(levels, va', size')
            && Inv(fmt, levels, s1, owner) && forall v: nat :: OnTop(fmt, levels, s0, s1, va', size', v)
  {
    hide TranslateFrom, Size, SamePage, Inv, OnTop, UnmapPage, InRegion, Aligned, NoWrap;
    assert OnTop(fmt, levels, s0, s, va, size, va);
    FirstPage(fmt, levels, s0, s, va, size);
    UnmapCorrect(fmt, levels, s, owner, va);
    lv := Translate(fmt, levels, s, va).value.level;
    va', size' := va + Size(lv), size - Size(lv);
    SamePageReflexive(levels, lv, va);
    PageUniform(fmt, levels, s, owner, va, va);
    var s1 := UnmapPage(fmt, levels, s, va).0;
    forall v: nat ensures OnTop(fmt, levels, s0, s1, va', size', v) {
      assert OnTop(fmt, levels, s0, s, va, size, v);
      OffThenOff(fmt, levels, s0, s, owner, s1, va, size, v);
    }
    SplitRegion(levels, va, size, Size(lv), va);
  }

  lemma SamePageReflexive(levels: Level, lv: Level, va: nat)
    requires 3 <= levels <= 4
    ensures SamePage(levels, lv, va, va)
  {
  }

  lemma NothingOnTop(fmt: PteFormat, levels: Level, s0: State, s: State, va: nat)
    requires 3 <= levels <= 4
    requires forall v: nat :: OnTop(fmt, levels, s0, s, va, 0, v)
    ensures SameTranslations(fmt, levels, s0, s)
  {
    forall v: nat ensures Translate(fmt, levels, s, v) == Translate(fmt, levels, s0, v) {
      assert OnTop(fmt, levels, s0, s, va, 0, v);
    }
  }

  /** Unmapping what lies on top gives every translation of `s0` back, without a panic. */
  lemma UnmapPagesCorrect(fmt: PteFormat, levels: Level, s0: State, s: State, owner: map<nat, Loc>, va: nat, size: nat)
    requires Inv(fmt, levels, s, owner) && 3 <= levels <= 4 && NoWrap(levels, va, size)
    requires forall v: nat :: OnTop(fmt, levels, s0, s, va, size, v)
    ensures var (s', end) := UnmapPages(fmt, levels, s, va, size);
            end == Done && Inv(fmt, levels, s', owner) && SameTranslations(fmt, levels, s0, s')
    decreases size
  {
    hide Size, Inv, OnTop, UnmapPage, Aligned, NoWrap, SameTranslations;
    if size == 0 {
      NothingOnTop(fmt, levels, s0, s, va);
    } else {
      var lv, va', size' := UnmapFirst(fmt, levels, s0, s, owner, va, size);
      UnmapPagesCorrect(fmt, levels, s0, UnmapPage(fmt, levels, s, va).0, owner, va', size');
    }
  }

  /** `unmap_region` after a successful `map_region`, with or without huge pages: no assertion
      fails, no error is returned and every translation is as it was before. */
  lemma UnmapRegionRestores(fmt: PteFormat, levels: Level, s: State, owner: map<nat, Loc>,
                            va: nat, pa: nat, size: nat, flags: MappingFlags, allowHuge: bool)
    requires Inv(fmt, levels, s, owner) && RegionAccepts(fmt, levels, va, pa, size, flags)
    requires MapRegion(fmt, levels, s, va, pa, size, flags, allowHuge).1.Ok?
    ensures var s1 := MapRegion(fmt, levels, s, va, pa, size, flags, allowHuge).0;
            var (s2, end) := UnmapPages(fmt, levels, s1, va, size);
            end == Done && SameTranslations(fmt, levels, s, s2)
  {
    hide TranslateFrom, Size, Inv, MapPages, UnmapPages, InRegion, Offset, PageInside, NoWrap;
    var owner' := MapPagesCorrect(fmt, levels, s, owner, va, pa, size, flags, allowHuge);
    var s1 := MapPages(fmt, levels, s, va, pa, size, flags, allowHuge).0;
    forall v: nat ensures OnTop(fmt, levels, s, s1, va, size, v) {
      assert RegionAdded(fmt, levels, s, s1, va, pa, size, flags, v);
    }
    UnmapPagesCorrect(fmt, levels, s, s1, owner', va, size);
  }

  // ----- how unmapping a region ends -----

  /** The first `d` bytes of the region are whole pages. */
  ghost predicate Whole(fmt: PteFormat, levels: Level, s: State, va: nat, d: nat)
    requires 3 <= levels <= 4
  {
    forall v: nat | InRegion(levels, va, d, v) ::
      Translate(fmt, levels, s, v).Some? && PageInside(levels, va, d, v, Translate(fmt, levels, s, v).value.level)
  }

  /** Behind `d` bytes of whole pages comes the end, a hole, or a page that does not lie in the region. */
  ghost predicate StopsAt(fmt: PteFormat, levels: Level, s: State, va: nat, size: nat, d: nat, end: UnmapEnd)
    requires 3 <= levels <= 4
  {
    var t := Translate(fmt, levels, s, va + d);
    match end
    case Done => d == size
    case Failed(error) => d < size && error == NotMapped && t.None?
    case Panicked => d < size && t.Some? && !PageInside(levels, va, size, va + d, t.value.level)
  }

  /** The pages that are gone: the whole ones, and the one that failed the assertion. */
  ghost predicate Gone(fmt: PteFormat, levels: Level, s: State, va: nat, d: nat, end: UnmapEnd, v: nat)
    requires 3 <= levels <= 4
  {
    var t := Translate(fmt, levels, s, va + d);
    InRegion(levels, va, d, v) || (end == Panicked && t.Some? && SamePage(levels, t.value.level, va + d, v))
  }

  lemma PanicsThere(levels: Level, va: nat, size: nat, lv: Level)
    requires 3 <= levels <= 4 && lv <= 3 && (!Aligned(va, lv) || Size(lv) > size)
    ensures !PageInside(levels, va, size, va, lv)
  {
    SameDigits(levels, va, lv);
    StartOfPage(va % Span(levels), lv);
    hide Size, Span;
    if Aligned(va, lv) {
      AlignedRange(va % Span(levels), va % Span(levels), Size(lv));
    } else if va % Span(levels) <= AlignDown(va % Span(levels), lv) {
      AlignedStart(va % Span(levels), lv);
    }
  }

  /** After the first page the translations behind it are what they were. */
  lemma BehindFirst(fmt: PteFormat, levels: Level, s: State, s1: State, va: nat, size: nat, lv: Level, v: nat)
    requires 3 <= levels <= 4 && NoWrap(levels, va, size) && lv <= 3 && Aligned(va, lv) && Size(lv) <= size
    requires Translate(fmt, levels, s1, v) == if SamePage(levels, lv, va, v) then None else Translate(fmt, levels, s, v)
    ensures SamePage(levels, lv, va, v) <==> InRegion(levels, va, Size(lv), v)
    ensures InRegion(levels, va + Size(lv), size - Size(lv), v) ==> Translate(fmt, levels, s1, v) == Translate(fmt, levels, s, v)
  {
    hide Size, Span, TranslateFrom, SamePage, InRegion;
    PageIsRange(levels, lv, va, v);
    SplitRegion(levels, va, size, Size(lv), v);
  }

  /** `s1` is `s` without the page of level `lv` that begins at `va`. */
  ghost predicate FirstGone(fmt: PteFormat, levels: Level, s: State, s1: State, va: nat, lv: Level)
    requires 3 <= levels <= 4
  {
    && lv <= 3 && Aligned(va, lv) && Translate(fmt, levels, s, va).Some? && Translate(fmt, levels, s, va).value.level == lv
    && forall v: nat ::
         Translate(fmt, levels, s1, v) == if SamePage(levels, lv, va, v) then None else Translate(fmt, levels, s, v)
  }

  lemma WholeAt(fmt: PteFormat, levels: Level, s: State, owner: map<nat, Loc>, s1: State, va: nat, lv: Level, d: nat, v: nat)
    requires Inv(fmt, levels, s, owner) && 3 <= levels <= 4 && NoWrap(levels, va, Size(lv) + d)
    requires FirstGone(fmt, levels, s, s1, va, lv) && Whole(fmt, levels, s1, va + Size(lv), d)
    requires InRegion(levels, va, Size(lv) + d, v)
    ensures Translate(fmt, levels, s, v).Some?
    ensures PageInside(levels, va, Size(lv) + d, v, Translate(fmt, levels, s, v).value.level)
  {
    hide Size, Span, TranslateFrom, SamePage, Inv, AlignDown;
    PageIsRange(levels, lv, va, v);
    SplitRegion(levels, va, Size(lv) + d, Size(lv), v);
    if InRegion(levels, va, Size(lv), v) {
      PageUniform(fmt, levels, s, owner, va, v);
    } else {
      assert Translate(fmt, levels, s1, v) == Translate(fmt, levels, s, v);
    }
  }

  lemma WholeMore(fmt: PteFormat, levels: Level, s: State, owner: map<nat, Loc>, s1: State, va: nat, lv: Level, d: nat)
    requires Inv(fmt, levels, s, owner) && 3 <= levels <= 4 && NoWrap(levels, va, Size(lv) + d)
    requires FirstGone(fmt, levels, s, s1, va, lv) && Whole(fmt, levels, s1, va + Size(lv), d)
    ensures Whole(fmt, levels, s, va, Size(lv) + d)
  {
    hide Size, Translate, Inv, FirstGone, InRegion, PageInside;
    forall v: nat | InRegion(levels, va, Size(lv) + d, v)
      ensures Translate(fmt, levels, s, v).Some?
      ensures PageInside(levels, va, Size(lv) + d, v, Translate(fmt, levels, s, v).value.level)
    {
      WholeAt(fmt, levels, s, owner, s1, va, lv, d, v);
    }
  }

  /** Where the rest of the loop stops, the whole loop does. */
  lemma StopsLater(fmt: PteFormat, levels: Level, s: State, owner: map<nat, Loc>, s1: State, va: nat, size: nat, lv: Level,
                   d: nat, end: UnmapEnd)
    requires Inv(fmt, levels, s, owner) && 3 <= levels <= 4 && NoWrap(levels, va, size) && Size(lv) <= size
    requires FirstGone(fmt, levels, s, s1, va, lv) && d <= size - Size(lv)
    requires StopsAt(fmt, levels, s1, va + Size(lv), size - Size(lv), d, end)
    ensures StopsAt(fmt, levels, s, va, size, Size(lv) + d, end)
    ensures d < size - Size(lv) ==> Translate(fmt, levels, s1, va + Size(lv) + d) == Translate(fmt, levels, s, va + Size(lv) + d)
  {
    hide Size, Span, TranslateFrom, SamePage, Inv;
    var at := va + Size(lv) + d;
    if d < size - Size(lv) {
      WithinRegion(levels, va, size, Size(lv) + d);
      SplitRegion(levels, va, size, Size(lv), at);
      PageIsRange(levels, lv, va, at);
      assert Translate(fmt, levels, s1, at) == Translate(fmt, levels, s, at);
      if end == Panicked {
        InsideSmaller(fmt, levels, s, owner, va, size, lv, at);
      }
    }
  }

  lemma WithinRegion(levels: Level, va: nat, size: nat, d: nat)
    requires 3 <= levels <= 4 && NoWrap(levels, va, size) && d < size
    ensures (va + d) % Span(levels) == va % Span(levels) + d && InRegion(levels, va, size, va + d)
  {
    hide Size;
    if d > 0 {
      SplitRegion(levels, va, size, d, va);
    }
  }

  /** A page behind the first one that lies in the region lies behind the first one. */
  lemma InsideSmaller(fmt: PteFormat, levels: Level, s: State, owner: map<nat, Loc>, va: nat, size: nat, lv: Level, v: nat)
    requires Inv(fmt, levels, s, owner) && 3 <= levels <= 4 && NoWrap(levels, va, size) && Size(lv) <= size
    requires Translate(fmt, levels, s, va).Some? && Translate(fmt, levels, s, va).value.level == lv && Aligned(va, lv)
    requires Translate(fmt, levels, s, v).Some? && InRegion(levels, va + Size(lv), size - Size(lv), v)
    ensures PageInside(levels, va, size, v, Translate(fmt, levels, s, v).value.level) ==>
      PageInside(levels, va + Size(lv), size - Size(lv), v, Translate(fmt, levels, s, v).value.level)
  {
    hide Size, Span, TranslateFrom, SamePage, Inv, PageInside, InRegion;
    if PageInside(levels, va, size, v, Translate(fmt, levels, s, v).value.level) {
      StartsAfter(fmt, levels, s, owner, va, size, v);
    }
  }

  /** What is gone after the rest of the loop, and the first page, is gone after the whole loop. */
  lemma GoneLater(fmt: PteFormat, levels: Level, s: State, s1: State, va: nat, size: nat, lv: Level, d: nat, end: UnmapEnd, v: nat)
    requires 3 <= levels <= 4 && NoWrap(levels, va, size) && Size(lv) + d <= size && FirstGone(fmt, levels, s, s1, va, lv)
    requires end == Panicked ==>
      d < size - Size(lv) && Translate(fmt, levels, s1, va + Size(lv) + d) == Translate(fmt, levels, s, va + Size(lv) + d)
    ensures Gone(fmt, levels, s, va, Size(lv) + d, end, v) <==>
      SamePage(levels, lv, va, v) || Gone(fmt, levels, s1, va + Size(lv), d, end, v)
  {
    hide Size, Span, TranslateFrom, SamePage;
    PageIsRange(levels, lv, va, v);
    SplitRegion(levels, va, Size(lv) + d, Size(lv), v);
  }

  /** The loop removes whole pages up to where it stops; it reports a hole, and panics at a page that
      does not lie in the region, which it has then removed. */
  lemma {:induction false} UnmapStops(fmt: PteFormat, levels: Level, s: State, owner: map<nat, Loc>, va: nat, size: nat) returns (d: nat)
    requires Inv(fmt, levels, s, owner) && 3 <= levels <= 4 && NoWrap(levels, va, size)
    ensures var (s', end) := UnmapPages(fmt, levels, s, va, size);
      && d <= size && Whole(fmt, levels, s, va, d) && StopsAt(fmt, levels, s, va, size, d, end) && Inv(fmt, levels, s', owner)
      && forall v: nat :: Translate(fmt, levels, s', v) == if Gone(fmt, levels, s, va, d, end, v) then None else Translate(fmt, levels, s, v)
    decreases size
  {
    hide Size, Inv, UnmapPage, Translate, NoWrap, Aligned, SamePage, StopsAt, Whole, Gone;
    d := 0;
    NothingWhole(fmt, levels, s, va, size);
    if size > 0 {
      UnmapCorrect(fmt, levels, s, owner, va);
      var (s1, r) := UnmapPage(fmt, levels, s, va);
      if r.Ok? {
        var lv := r.value.1;
        SamePageReflexive(levels, lv, va);
        PageUniform(fmt, levels, s, owner, va, va);
        if !Aligned(va, lv) || Size(lv) > size {
          PanicStop(fmt, levels, s, va, size, lv);
        } else {
          assert FirstGone(fmt, levels, s, s1, va, lv);
          SplitRegion(levels, va, size, Size(lv), va);
          var d1 := UnmapStops(fmt, levels, s1, owner, va + Size(lv), size - Size(lv));
          d := Size(lv) + d1;
          UnmapOnward(fmt, levels, s, owner, s1, va, size, lv, d1);
        }
      }
    }
  }

  lemma NothingWhole(fmt: PteFormat, levels: Level, s: State, va: nat, size: nat)
    requires 3 <= levels <= 4
    ensures Whole(fmt, levels, s, va, 0) && (size == 0 ==> StopsAt(fmt, levels, s, va, size, 0, Done))
    ensures size > 0 && Translate(fmt, levels, s, va).None? ==> StopsAt(fmt, levels, s, va, size, 0, Failed(NotMapped))
    ensures forall v: nat, end | end != Panicked :: !Gone(fmt, levels, s, va, 0, end, v)
  {
    hide Span, Translate;
  }

  lemma PanicStop(fmt: PteFormat, levels: Level, s: State, va: nat, size: nat, lv: Level)
    requires 3 <= levels <= 4 && lv <= 3 && (!Aligned(va, lv) || Size(lv) > size) && size > 0
    requires Translate(fmt, levels, s, va).Some? && Translate(fmt, levels, s, va).value.level == lv
    ensures StopsAt(fmt, levels, s, va, size, 0, Panicked)
    ensures forall v: nat :: Gone(fmt, levels, s, va, 0, Panicked, v) <==> SamePage(levels, lv, va, v)
  {
    hide Span, Translate, Size;
    PanicsThere(levels, va, size, lv);
  }

  lemma UnmapOnward(fmt: PteFormat, levels: Level, s: State, owner: map<nat, Loc>, s1: State, va: nat, size: nat, lv: Level, d: nat)
    requires Inv(fmt, levels, s, owner) && 3 <= levels <= 4 && NoWrap(levels, va, size) && Size(lv) <= size
    requires FirstGone(fmt, levels, s, s1, va, lv) && d <= size - Size(lv) && Whole(fmt, levels, s1, va + Size(lv), d)
    requires var (s', end) := UnmapPages(fmt, levels, s1, va + Size(lv), size - Size(lv));
      && StopsAt(fmt, levels, s1, va + Size(lv), size - Size(lv), d, end)
      && forall v: nat :: Translate(fmt, levels, s', v) == if Gone(fmt, levels, s1, va + Size(lv), d, end, v) then None else Translate(fmt, levels, s1, v)
    ensures Whole(fmt, levels, s, va, Size(lv) + d)
    ensures var (s', end) := UnmapPages(fmt, levels, s1, va + Size(lv), size - Size(lv));
      && StopsAt(fmt, levels, s, va, size, Size(lv) + d, end)
      && forall v: nat :: Translate(fmt, levels, s', v) == if Gone(fmt, levels, s, va, Size(lv) + d, end, v) then None else Translate(fmt, levels, s, v)
  {
    hide Size, Inv, UnmapPages, Translate, SamePage, StopsAt, Whole, Gone;
    var (s', end) := UnmapPages(fmt, levels, s1, va + Size(lv), size - Size(lv));
    ShorterFits(levels, va, size, Size(lv) + d);
    WholeMore(fmt, levels, s, owner, s1, va, lv, d);
    StopsLater(fmt, levels, s, owner, s1, va, size, lv, d, end);
    PanicsEarly(fmt, levels, s1, va + Size(lv), size - Size(lv), d, end);
    forall v: nat
      ensures Translate(fmt, levels, s', v) == if Gone(fmt, levels, s, va, Size(lv) + d, end, v) then None else Translate(fmt, levels, s, v)
    {
      GoneLater(fmt, levels, s, s1, va, size, lv, d, end, v);
    }
  }

  lemma ShorterFits(levels: Level, va: nat, size: nat, d: nat)
    requires 3 <= levels <= 4 && NoWrap(levels, va, size) && d <= size
    ensures NoWrap(levels, va, d)
  {
    hide Span;
  }

  lemma PanicsEarly(fmt: PteFormat, levels: Level, s: State, va: nat, size: nat, d: nat, end: UnmapEnd)
    requires 3 <= levels <= 4 && StopsAt(fmt, levels, s, va, size, d, end)
    ensures end == Panicked ==> d < size
  {
  }

  /** Only one place can be the one where the loop stops, so each end has its exact condition. */
  lemma StopsOnce(fmt: PteFormat, levels: Level, s: State, va: nat, size: nat, d: nat, end: UnmapEnd, d': nat, end': UnmapEnd)
    requires 3 <= levels <= 4 && NoWrap(levels, va, size) && d <= d' <= size
    requires Whole(fmt, levels, s, va, d) && StopsAt(fmt, levels, s, va, size, d, end)
    requires Whole(fmt, levels, s, va, d') && StopsAt(fmt, levels, s, va, size, d', end')
    ensures d == d' && end == end'
  {
    hide Span, Translate, Size, AlignDown;
    if d < d' {
      ShorterFits(levels, va, size, d');
      WithinRegion(levels, va, d', d);
    }
  }

  /** Whole pages lead up to a place in the region where the loop stops with `end`. */
  ghost predicate LeadsTo(fmt: PteFormat, levels: Level, s: State, va: nat, size: nat, end: UnmapEnd)
    requires 3 <= levels <= 4
  {
    exists d: nat :: d < size && Whole(fmt, levels, s, va, d) && StopsAt(fmt, levels, s, va, size, d, end)
  }

  /** `unmap_region` succeeds exactly if the region is whole pages, reports NotMapped exactly if whole
      pages lead up to a hole, and panics exactly if they lead up to a page that sticks out. */
  lemma UnmapEnds(fmt: PteFormat, levels: Level, s: State, owner: map<nat, Loc>, va: nat, size: nat)
    requires Inv(fmt, levels, s, owner) && 3 <= levels <= 4 && NoWrap(levels, va, size)
    ensures var end := UnmapPages(fmt, levels, s, va, size).1;
      && (end == Done <==> Whole(fmt, levels, s, va, size))
      && (end.Failed? ==> end.error == NotMapped)
      && (end.Failed? <==> LeadsTo(fmt, levels, s, va, size, Failed(NotMapped)))
      && (end == Panicked <==> LeadsTo(fmt, levels, s, va, size, Panicked))
  {
    hide Whole, UnmapPages, Inv, Translate, StopsAt, NoWrap, Gone;
    var d := UnmapStops(fmt, levels, s, owner, va, size);
    var end := UnmapPages(fmt, levels, s, va, size).1;
    forall d': nat, end' | d' <= size && Whole(fmt, levels, s, va, d') && StopsAt(fmt, levels, s, va, size, d', end')
      ensures d' == d && end' == end
    {
      if d <= d' {
        StopsOnce(fmt, levels, s, va, size, d, end, d', end');
      } else {
        StopsOnce(fmt, levels, s, va, size, d', end', d, end);
      }
    }
    EndsOf(fmt, levels, s, va, size, d, end);
  }

  lemma EndsOf(fmt: PteFormat, levels: Level, s: State, va: nat, size: nat, d: nat, end: UnmapEnd)
    requires 3 <= levels <= 4 && StopsAt(fmt, levels, s, va, size, d, end)
    ensures StopsAt(fmt, levels, s, va, size, size, Done)
    ensures if end == Done then d == size else d < size
    ensures end.Failed? ==> end.error == NotMapped
  {
    hide Translate;
  }
}
