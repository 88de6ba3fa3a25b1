/** The slab heap: seven size classes of blocks carved from chunks of a buddy allocator. */
module SlabAllocator {
  import opened Arith
  import opened Options

  /** A request; alignments are powers of two. */
  datatype Layout = Layout(size: nat, align: nat)

  const SET_SIZE := 64
  const CLASSES := 7

  function ClassSize(c: nat): (n: nat)
    ensures 64 <= n <= 4096
  {
    if c == 0 then 64 else if c == 1 then 128 else if c == 2 then 256 else if c == 3 then 512
    else if c == 4 then 1024 else if c == 5 then 2048 else 4096
  }

  /** The size class of a request; `CLASSES` stands for the buddy allocator. */
  function LayoutToAllocator(l: Layout): (c: nat)
    ensures c <= CLASSES && (c == CLASSES <==> l.size > 4096)
    ensures c < CLASSES ==> l.size <= ClassSize(c) && (l.align <= 4096 ==> l.align <= ClassSize(c))
    ensures forall d: nat | d < c && c < CLASSES :: ClassSize(d) < l.size || ClassSize(d) < l.align
  {
    if l.size > 4096 then 7
    else if l.size <= 64 && l.align <= 64 then 0
    else if l.size <= 128 && l.align <= 128 then 1
    else if l.size <= 256 && l.align <= 256 then 2
    else if l.size <= 512 && l.align <= 512 then 3
    else if l.size <= 1024 && l.align <= 1024 then 4
    else if l.size <= 2048 && l.align <= 2048 then 5
    else 6
  }

  // ----- powers of two -----

  ghost predicate IsPow2(n: nat) {
    exists k: nat :: n == Pow2(k)
  }

  lemma {:induction false} PowersDivide(j: nat, k: nat)
    requires j <= k
    ensures Pow2(k) % Pow2(j) == 0
  {
    if j < k {
      PowersDivide(j, k - 1);
      var q := Pow2(k - 1) / Pow2(j);
      assert Pow2(k) == 2 * (q * Pow2(j)) == (2 * q) * Pow2(j) + 0;
      Quotient(2 * q, 0, Pow2(j));
    } else {
      Quotient(1, 0, Pow2(j));
    }
  }

  lemma SmallerDivides(a: nat, b: nat)
    requires IsPow2(a) && IsPow2(b) && a <= b
    ensures b % a == 0
  {
    var j: nat :| a == Pow2(j);
    var k: nat :| b == Pow2(k);
    if k < j {
      PowersGrow(k, j);
      PowersDivide(j, j);
    } else {
      PowersDivide(j, k);
    }
  }

  lemma ClassSizeIsPow2(c: nat)
    ensures IsPow2(ClassSize(c))
  {
    assert 64 == Pow2(6) && 128 == Pow2(7) && 256 == Pow2(8) && 512 == Pow2(9);
    assert 1024 == Pow2(10) && 2048 == Pow2(11) && 4096 == Pow2(12);
  }

  lemma DividesThrough(x: nat, b: nat, a: nat)
    requires a > 0 && b > 0 && x % b == 0 && b % a == 0
    ensures x % a == 0
  {
    var p, q := x / b, b / a;
    assert x == p * b && b == q * a;
    assert p * (q * a) == (p * q) * a + 0;
    Quotient(p * q, 0, a);
  }

  // ----- the heap as a value -----

  /** What a piece of memory is used for: a free block of a class, or a live allocation. */
  datatype Use = Free(class_: nat) | Live(layout: Layout)

  /** A piece of memory and the buddy chunk it was carved from. */
  datatype Piece = Piece(chunk: nat, use: Use)

  /** Free lists and block counts of the classes, and what the buddy allocator handed out. */
  datatype State = State(
    free: seq<seq<nat>>,
    total: seq<nat>,
    buddyTotal: nat,
    buddyActual: nat,
    top: nat,
    memory: set<(nat, nat)>,
    chunks: map<nat, nat>,
    pieces: map<nat, Piece>)

  function Max(a: nat, b: nat): nat {
    if a < b then b else a
  }

  function RoundUp(n: nat, p: nat): (r: nat)
    requires p > 0
    ensures r >= n && r >= p
    decreases n - p
  {
    if p >= n then p else RoundUp(n, 2 * p)
  }

  /** The bytes the buddy allocator takes for a request. */
  function BuddySize(l: Layout): (n: nat)
    ensures n >= l.size && n > 0
  {
    Max(RoundUp(l.size, 1), Max(l.align, 8))
  }

  function Extent(u: Use): (n: nat)
    ensures n > 0
  {
    match u
    case Free(c) => ClassSize(c)
    case Live(l) => if LayoutToAllocator(l) < CLASSES then ClassSize(LayoutToAllocator(l)) else BuddySize(l)
  }

  predicate InClass(u: Use, c: nat) {
    u == Free(c) || (u.Live? && LayoutToAllocator(u.layout) == c)
  }

  ghost predicate Shape(s: State) {
    |s.free| == CLASSES && |s.total| == CLASSES
  }

  /** No two pieces overlap. */
  ghost predicate Apart(pieces: map<nat, Piece>) {
    forall a, b | a in pieces && b in pieces && a < b :: a + Extent(pieces[a].use) <= b
  }

  ghost predicate ChunksApart(chunks: map<nat, nat>) {
    && (forall g | g in chunks :: chunks[g] > 0)
    && (forall g, h | g in chunks && h in chunks && g < h :: g + chunks[g] <= h)
  }

  /** The bytes in chunks that start below `n`. */
  ghost function SumBelow(chunks: map<nat, nat>, n: nat): nat {
    if n == 0 then 0 else SumBelow(chunks, n - 1) + if n - 1 in chunks then chunks[n - 1] else 0
  }

  ghost predicate Within(memory: set<(nat, nat)>, a: nat, n: nat) {
    exists r | r in memory :: r.0 <= a && a + n <= r.0 + r.1
  }

  ghost predicate ChunksInside(chunks: map<nat, nat>, memory: set<(nat, nat)>) {
    forall g | g in chunks :: Within(memory, g, chunks[g])
  }

  /** Every piece lies in its chunk, and a large allocation is its whole chunk. */
  ghost predicate Backed(pieces: map<nat, Piece>, chunks: map<nat, nat>) {
    forall a | a in pieces :: BackedPiece(a, pieces[a], chunks)
  }

  ghost predicate BackedPiece(a: nat, p: Piece, chunks: map<nat, nat>) {
    && p.chunk in chunks && p.chunk <= a && a + Extent(p.use) <= p.chunk + chunks[p.chunk]
    && (p.use.Live? && p.use.layout.size > 4096 ==> p.chunk == a && chunks[a] == Extent(p.use))
  }

  ghost predicate AlignedPiece(a: nat, u: Use) {
    match u
    case Free(c) => c < CLASSES && a % ClassSize(c) == 0
    case Live(l) =>
      && IsPow2(l.align)
      && a % (if l.size > 4096 then l.align else ClassSize(LayoutToAllocator(l))) == 0
  }

  ghost predicate Aligned(pieces: map<nat, Piece>) {
    forall a | a in pieces :: AlignedPiece(a, pieces[a].use)
  }

  ghost predicate Distinct(q: seq<nat>) {
    forall i, j | 0 <= i < j < |q| :: q[i] != q[j]
  }

  /** The free list of a class holds exactly its free blocks, each once. */
  ghost predicate ListsFree(q: seq<nat>, pieces: map<nat, Piece>, c: nat) {
    && Distinct(q)
    && (forall a | a in q :: a in pieces && pieces[a].use == Free(c))
    && (forall a | a in pieces && pieces[a].use == Free(c) :: a in q)
  }

  ghost function LiveIn(pieces: map<nat, Piece>, c: nat): set<nat> {
    set a | a in pieces && pieces[a].use.Live? && InClass(pieces[a].use, c)
  }

  ghost predicate Counted(q: seq<nat>, total: nat, pieces: map<nat, Piece>, c: nat) {
    total == |q| + |LiveIn(pieces, c)|
  }

  ghost predicate ListsClass(q: seq<nat>, total: nat, pieces: map<nat, Piece>, c: nat) {
    ListsFree(q, pieces, c) && Counted(q, total, pieces, c)
  }

  ghost predicate Lists(s: State)
    requires Shape(s)
  {
    forall c: nat | c < CLASSES :: ListsClass(s.free[c], s.total[c], s.pieces, c)
  }

  ghost predicate Inv(s: State) {
    && Shape(s)
    && Apart(s.pieces) && ChunksApart(s.chunks) && ChunksInside(s.chunks, s.memory)
    && Backed(s.pieces, s.chunks) && Aligned(s.pieces)
    && Lists(s)
    && (forall r | r in s.memory :: r.0 + r.1 <= s.top)
    && s.buddyActual == SumBelow(s.chunks, s.top) && s.buddyActual <= s.buddyTotal
  }

  // ----- the operations -----

  function BlockAt(start: nat, size: nat, k: nat): nat {
    start + k * size
  }

  /** `n` blocks of `size` bytes from `start` on, last block first. */
  function Carve(start: nat, size: nat, n: nat): (q: seq<nat>)
    ensures |q| == n && forall i | 0 <= i < n :: q[i] == BlockAt(start, size, n - 1 - i)
  {
    seq(n, i requires 0 <= i < n => BlockAt(start, size, n - 1 - i))
  }

  function ChunkLayout(c: nat): Layout {
    Layout(SET_SIZE * ClassSize(c), 4096)
  }

  /** Whether a correct buddy allocator may answer a request of `l` with address `g`. */
  ghost predicate BuddyMay(s: State, l: Layout, g: nat) {
    && l.align > 0 && g % l.align == 0
    && Within(s.memory, g, BuddySize(l))
    && (forall h | h in s.chunks :: g + BuddySize(l) <= h || h + s.chunks[h] <= g)
    && s.buddyActual + BuddySize(l) <= s.buddyTotal
  }

  ghost function Take(s: State, l: Layout, g: nat): State {
    s.(chunks := s.chunks[g := BuddySize(l)], buddyActual := s.buddyActual + BuddySize(l))
  }

  ghost function Grow(s: State, c: nat, g: nat): State
    requires Shape(s) && c < CLASSES
  {
    var blocks := Carve(g, ClassSize(c), SET_SIZE);
    Take(s, ChunkLayout(c), g).(
      free := s.free[c := blocks + s.free[c]],
      total := s.total[c := s.total[c] + SET_SIZE],
      pieces := s.pieces + map a | a in blocks :: Piece(g, Free(c)))
  }

  ghost function Pop(s: State, c: nat, l: Layout): State
    requires Shape(s) && c < CLASSES && s.free[c] != [] && s.free[c][0] in s.pieces
  {
    var a := s.free[c][0];
    s.(free := s.free[c := s.free[c][1..]], pieces := s.pieces[a := s.pieces[a].(use := Live(l))])
  }

  /** The buddy request an allocation makes, if any. */
  ghost function BuddyRequest(s: State, l: Layout): Option<Layout>
    requires Shape(s)
  {
    var c := LayoutToAllocator(l);
    if c == CLASSES then Some(l) else if s.free[c] == [] then Some(ChunkLayout(c)) else None
  }

  /** A request is sound, and a buddy answer that will be used is one a correct buddy may give. */
  ghost predicate MayAllocate(s: State, l: Layout, answer: Option<nat>)
    requires Shape(s)
  {
    && IsPow2(l.align)
    && (answer.Some? && BuddyRequest(s, l).Some? ==> BuddyMay(s, BuddyRequest(s, l).value, answer.value))
  }

  ghost function Allocate(s: State, l: Layout, answer: Option<nat>): (State, Option<nat>)
    requires Inv(s) && MayAllocate(s, l, answer)
  {
    var c := LayoutToAllocator(l);
    if BuddyRequest(s, l).Some? && answer.None? then (s, None)
    else if c == CLASSES then
      var t := Take(s, l, answer.value);
      (t.(pieces := t.pieces[answer.value := Piece(answer.value, Live(l))]), Some(answer.value))
    else if s.free[c] != [] then (Pop(s, c, l), Some(s.free[c][0]))
    else
      var t := Grow(s, c, answer.value);
      (Pop(t, c, l), Some(t.free[c][0]))
  }

  ghost predicate IsLive(s: State, ptr: nat, l: Layout) {
    ptr in s.pieces && s.pieces[ptr].use == Live(l)
  }

  ghost function Deallocate(s: State, ptr: nat, l: Layout): State
    requires Inv(s) && IsLive(s, ptr, l)
  {
    var c := LayoutToAllocator(l);
    if c == CLASSES then
      ChunkCounted(s, ptr);
      s.(pieces := s.pieces - {ptr}, chunks := s.chunks - {ptr},
         buddyActual := s.buddyActual - BuddySize(l))
    else
      s.(free := s.free[c := [ptr] + s.free[c]], pieces := s.pieces[ptr := s.pieces[ptr].(use := Free(c))])
  }

  // ----- chunks -----

  lemma {:induction false} SumAdd(chunks: map<nat, nat>, g: nat, v: nat, n: nat)
    requires g !in chunks
    ensures SumBelow(chunks[g := v], n) == SumBelow(chunks, n) + if g < n then v else 0
  {
    if n > 0 {
      SumAdd(chunks, g, v, n - 1);
    }
  }

  lemma SumRemove(chunks: map<nat, nat>, g: nat, n: nat)
    requires g in chunks && g < n
    ensures SumBelow(chunks, n) == SumBelow(chunks - {g}, n) + chunks[g]
  {
    SumAdd(chunks - {g}, g, chunks[g], n);
    assert (chunks - {g})[g := chunks[g]] == chunks;
  }

  lemma ChunkCounted(s: State, g: nat)
    requires Inv(s) && g in s.chunks
    ensures s.buddyActual == SumBelow(s.chunks - {g}, s.top) + s.chunks[g]
  {
    assert Within(s.memory, g, s.chunks[g]);
    SumRemove(s.chunks, g, s.top);
  }

  lemma TakeChunks(s: State, l: Layout, g: nat)
    requires ChunksApart(s.chunks) && ChunksInside(s.chunks, s.memory) && BuddyMay(s, l, g)
    ensures g !in s.chunks
    ensures var t := Take(s, l, g); ChunksApart(t.chunks) && ChunksInside(t.chunks, t.memory)
  {
    hide BuddySize, Within;
  }

  lemma TakeBacked(s: State, l: Layout, g: nat)
    requires Backed(s.pieces, s.chunks) && BuddyMay(s, l, g) && g !in s.chunks
    ensures forall a | a in s.pieces :: a + Extent(s.pieces[a].use) <= g || g + BuddySize(l) <= a
    ensures Backed(s.pieces, Take(s, l, g).chunks)
  {
    hide BuddySize, Within, Extent;
    forall a | a in s.pieces
      ensures a + Extent(s.pieces[a].use) <= g || g + BuddySize(l) <= a
      ensures BackedPiece(a, s.pieces[a], Take(s, l, g).chunks)
    {
      assert BackedPiece(a, s.pieces[a], s.chunks);
    }
  }

  /** A new chunk overlaps no piece, and keeps what is said of chunks. */
  lemma TakeKeeps(s: State, l: Layout, g: nat)
    requires Inv(s) && BuddyMay(s, l, g)
    ensures g !in s.chunks
    ensures forall a | a in s.pieces :: a + Extent(s.pieces[a].use) <= g || g + BuddySize(l) <= a
    ensures Inv(Take(s, l, g))
  {
    TakeChunks(s, l, g);
    TakeBacked(s, l, g);
    SumAdd(s.chunks, g, BuddySize(l), s.top);
    assert g < s.top && s.buddyActual + BuddySize(l) <= s.buddyTotal;
    hide Apart, Aligned, Backed, ListsFree, Counted, ChunksApart, ChunksInside, Extent, BuddyMay, SumBelow, BuddySize;
  }

  // ----- growing -----

  lemma {:induction false} RoundPow2(k: nat, j: nat)
    requires j <= k
    ensures RoundUp(Pow2(k), Pow2(j)) == Pow2(k)
    decreases k - j
  {
    if j < k {
      PowersGrow(j + 1, k);
      RoundPow2(k, j + 1);
    }
  }

  lemma ChunkSizes(c: nat)
    requires c < CLASSES
    ensures BuddySize(ChunkLayout(c)) == SET_SIZE * ClassSize(c)
  {
    assert 4096 == Pow2(12) && 8192 == Pow2(13) && 16384 == Pow2(14) && 32768 == Pow2(15);
    assert 65536 == Pow2(16) && 131072 == Pow2(17) && 262144 == Pow2(18);
    assert SET_SIZE * ClassSize(c) == Pow2(12 + c);
    RoundPow2(12 + c, 0);
  }

  /** The blocks carved from a chunk lie in it, side by side. */
  lemma CarveApart(g: nat, size: nat, n: nat, i: nat, j: nat)
    requires i < j < n
    ensures var q := Carve(g, size, n); q[j] + size <= q[i]
  {
    var x, y := n - 1 - i, n - 1 - j;
    MulMonotone(y + 1, x, size);
    assert (y + 1) * size == y * size + size;
  }

  lemma CarveInside(g: nat, size: nat, n: nat, i: nat)
    requires i < n
    ensures var q := Carve(g, size, n); g <= q[i] && q[i] + size <= g + n * size
  {
    var x := n - 1 - i;
    MulMonotone(x + 1, n, size);
    assert (x + 1) * size == x * size + size;
  }

  lemma CarveAligned(g: nat, size: nat, n: nat, i: nat)
    requires i < n && size > 0 && g % size == 0
    ensures Carve(g, size, n)[i] % size == 0
  {
    ModAddMultiple(g, n - 1 - i, size);
  }

  lemma GrowApart(s: State, c: nat, g: nat)
    requires Inv(s) && c < CLASSES && BuddyMay(s, ChunkLayout(c), g)
    ensures Apart(Grow(s, c, g).pieces)
  {
    hide Inv, BuddyMay, Carve, Extent, BuddySize, Grow, ClassSize;
    InvParts(s);
    var t, n, q := Grow(s, c, g), ClassSize(c), Carve(g, ClassSize(c), SET_SIZE);
    ExtentFree(c);
    TakeKeeps(s, ChunkLayout(c), g);
    ChunkSizes(c);
    forall a, b | a in t.pieces && b in t.pieces && a < b ensures a + Extent(t.pieces[a].use) <= b {
      GrownPiece(s, c, g, a);
      GrownPiece(s, c, g, b);
      if a in q {
        BlockInside(g, n, SET_SIZE, a);
        if b in q {
          BlocksApart(g, n, SET_SIZE, a, b);
        }
      } else if b in q {
        BlockInside(g, n, SET_SIZE, b);
      }
    }
  }

  /** A piece of the grown heap is a new block or an old piece. */
  lemma GrownPiece(s: State, c: nat, g: nat, a: nat)
    requires Shape(s) && c < CLASSES && a in Grow(s, c, g).pieces
    ensures var p := Grow(s, c, g).pieces[a];
      if a in Carve(g, ClassSize(c), SET_SIZE) then p.use == Free(c) else a in s.pieces && p == s.pieces[a]
  {
    hide Carve;
  }

  lemma BlockInside(g: nat, n: nat, k: nat, a: nat)
    requires a in Carve(g, n, k)
    ensures g <= a && a + n <= g + k * n
  {
    var i: nat :| i < |Carve(g, n, k)| && Carve(g, n, k)[i] == a;
    CarveInside(g, n, k, i);
  }

  lemma BlocksApart(g: nat, n: nat, k: nat, a: nat, b: nat)
    requires a in Carve(g, n, k) && b in Carve(g, n, k) && a < b
    ensures a + n <= b
  {
    var q := Carve(g, n, k);
    var i: nat :| i < |q| && q[i] == a;
    var j: nat :| j < |q| && q[j] == b;
    if i < j {
      CarveApart(g, n, k, i, j);
    } else {
      CarveApart(g, n, k, j, i);
    }
  }

  lemma ExtentFree(c: nat)
    ensures Extent(Free(c)) == ClassSize(c)
  {
  }

  lemma InvParts(s: State)
    requires Inv(s)
    ensures Shape(s) && Apart(s.pieces) && ChunksApart(s.chunks) && ChunksInside(s.chunks, s.memory)
    ensures Backed(s.pieces, s.chunks) && Aligned(s.pieces) && Lists(s)
  {
  }

  /** A carved block is no piece of before. */
  lemma CarveFresh(s: State, c: nat, g: nat, i: nat)
    requires Inv(s) && c < CLASSES && BuddyMay(s, ChunkLayout(c), g) && i < SET_SIZE
    ensures var a := Carve(g, ClassSize(c), SET_SIZE)[i];
      a !in s.pieces && g <= a && a + ClassSize(c) <= g + SET_SIZE * ClassSize(c) && a % ClassSize(c) == 0
  {
    hide Inv;
    TakeKeeps(s, ChunkLayout(c), g);
    ChunkSizes(c);
    CarveInside(g, ClassSize(c), SET_SIZE, i);
    ChunkAligned(g, c);
    CarveAligned(g, ClassSize(c), SET_SIZE, i);
  }

  lemma ChunkAligned(g: nat, c: nat)
    requires g % 4096 == 0
    ensures g % ClassSize(c) == 0
  {
    ClassSizeIsPow2(c);
    ClassSizeIsPow2(6);
    SmallerDivides(ClassSize(c), 4096);
    DividesThrough(g, 4096, ClassSize(c));
  }

  lemma GrowBacked(s: State, c: nat, g: nat)
    requires Inv(s) && c < CLASSES && BuddyMay(s, ChunkLayout(c), g)
    ensures Backed(Grow(s, c, g).pieces, Grow(s, c, g).chunks) && Aligned(Grow(s, c, g).pieces)
  {
    InvParts(s);
    TakeKeeps(s, ChunkLayout(c), g);
    InvParts(Take(s, ChunkLayout(c), g));
    hide Inv, BuddyMay, Carve, Apart, ChunksApart, ChunksInside, Lists, BuddySize, LayoutToAllocator;
    var t, q := Grow(s, c, g), Carve(g, ClassSize(c), SET_SIZE);
    ChunkSizes(c);
    forall a | a in t.pieces ensures BackedPiece(a, t.pieces[a], t.chunks) && AlignedPiece(a, t.pieces[a].use) {
      if a in q {
        var i: nat :| i < |q| && q[i] == a;
        CarveFresh(s, c, g, i);
      }
    }
  }

  lemma GrowLists(s: State, c: nat, g: nat)
    requires Inv(s) && c < CLASSES && BuddyMay(s, ChunkLayout(c), g)
    ensures Lists(Grow(s, c, g))
  {
    hide Inv, BuddyMay, Backed, Aligned, Apart, ChunksApart, ChunksInside, Carve, Extent, BuddySize;
    InvParts(s);
    var t, q := Grow(s, c, g), Carve(g, ClassSize(c), SET_SIZE);
    forall a | a in q ensures a !in s.pieces {
      var i: nat :| i < |q| && q[i] == a;
      CarveFresh(s, c, g, i);
    }
    assert Distinct(q) by {
      forall i, j | 0 <= i < j < |q| ensures q[i] != q[j] {
        CarveApart(g, ClassSize(c), SET_SIZE, i, j);
      }
    }
    forall d: nat | d < CLASSES
      ensures ListsClass(t.free[d], t.total[d], t.pieces, d)
    {
      assert ListsClass(s.free[d], s.total[d], s.pieces, d);
      assert LiveIn(t.pieces, d) == LiveIn(s.pieces, d);
      if d == c {
        AppendLists(q, s.free[c], s.pieces, t.pieces, c);
      }
    }
  }

  lemma AppendLists(q: seq<nat>, old_: seq<nat>, before: map<nat, Piece>, after: map<nat, Piece>, c: nat)
    requires Distinct(q) && ListsFree(old_, before, c) && (forall a | a in q :: a !in before)
    requires after.Keys == before.Keys + (set a | a in q)
    requires forall a | a in after :: if a in q then after[a].use == Free(c) else after[a] == before[a]
    ensures ListsFree(q + old_, after, c)
  {
    var r := q + old_;
    assert forall a :: a in r <==> a in q || a in old_;
    forall i, j | 0 <= i < j < |r| ensures r[i] != r[j] {
      if i < |q| <= j {
        assert r[j] == old_[j - |q|] && r[j] in before && r[i] in q;
      }
    }
  }

  lemma GrowKeeps(s: State, c: nat, g: nat)
    requires Inv(s) && c < CLASSES && BuddyMay(s, ChunkLayout(c), g)
    ensures Inv(Grow(s, c, g))
  {
    TakeKeeps(s, ChunkLayout(c), g);
    GrowApart(s, c, g);
    GrowBacked(s, c, g);
    GrowLists(s, c, g);
    var t := Take(s, ChunkLayout(c), g);
    assert Inv(t);
    hide Apart, Backed, Aligned, Lists, ChunksApart, ChunksInside, BuddySize, BuddyMay;
    assert Grow(s, c, g).chunks == t.chunks;
  }

  // ----- taking a block and giving it back -----

  /** Changing the use of a piece to one of the same extent. */
  lemma ReuseKeeps(pieces: map<nat, Piece>, chunks: map<nat, nat>, a: nat, u: Use)
    requires Apart(pieces) && Backed(pieces, chunks) && Aligned(pieces)
    requires a in pieces && Extent(u) == Extent(pieces[a].use) && AlignedPiece(a, u)
    requires u.Live? ==> u.layout.size <= 4096
    ensures var p := pieces[a := pieces[a].(use := u)]; Apart(p) && Backed(p, chunks) && Aligned(p)
  {
    hide Extent, AlignedPiece;
  }

  /** A piece that stays outside class `d` does not matter to it. */
  lemma OtherClass(q: seq<nat>, total: nat, pieces: map<nat, Piece>, d: nat, a: nat, u: Use)
    requires ListsClass(q, total, pieces, d) && a in pieces && !InClass(pieces[a].use, d) && !InClass(u, d)
    ensures ListsClass(q, total, pieces[a := pieces[a].(use := u)], d)
  {
    hide LayoutToAllocator;
    assert LiveIn(pieces[a := pieces[a].(use := u)], d) == LiveIn(pieces, d);
  }

  lemma TakeFirst(q: seq<nat>, total: nat, pieces: map<nat, Piece>, c: nat, l: Layout)
    requires ListsClass(q, total, pieces, c) && q != [] && LayoutToAllocator(l) == c
    ensures q[0] in pieces && pieces[q[0]].use == Free(c)
    ensures ListsClass(q[1..], total, pieces[q[0] := pieces[q[0]].(use := Live(l))], c)
  {
    hide LayoutToAllocator;
    var a := q[0];
    assert LiveIn(pieces[a := pieces[a].(use := Live(l))], c) == LiveIn(pieces, c) + {a};
    assert |LiveIn(pieces, c) + {a}| == |LiveIn(pieces, c)| + 1;
    hide LiveIn;
    TailList(q, pieces, c, Live(l));
  }

  lemma TailList(q: seq<nat>, pieces: map<nat, Piece>, c: nat, u: Use)
    requires ListsFree(q, pieces, c) && q != [] && u.Live?
    ensures ListsFree(q[1..], pieces[q[0] := pieces[q[0]].(use := u)], c)
  {
    assert q == [q[0]] + q[1..];
  }

  lemma PutFirst(q: seq<nat>, total: nat, pieces: map<nat, Piece>, c: nat, a: nat)
    requires ListsClass(q, total, pieces, c) && a in pieces && pieces[a].use.Live? && InClass(pieces[a].use, c)
    ensures ListsClass([a] + q, total, pieces[a := pieces[a].(use := Free(c))], c)
  {
    hide LayoutToAllocator;
    var p := pieces[a := pieces[a].(use := Free(c))];
    assert LiveIn(pieces, c) == LiveIn(p, c) + {a};
    assert |LiveIn(p, c) + {a}| == |LiveIn(p, c)| + 1;
    hide LiveIn;
    PrependList(q, pieces, c, a);
  }

  lemma PrependList(q: seq<nat>, pieces: map<nat, Piece>, c: nat, a: nat)
    requires ListsFree(q, pieces, c) && a in pieces && pieces[a].use.Live?
    ensures ListsFree([a] + q, pieces[a := pieces[a].(use := Free(c))], c)
  {
    assert forall b :: b in [a] + q <==> b == a || b in q;
  }

  lemma PopLists(s: State, c: nat, l: Layout)
    requires Shape(s) && Lists(s) && c < CLASSES && s.free[c] != [] && LayoutToAllocator(l) == c
    ensures s.free[c][0] in s.pieces && s.pieces[s.free[c][0]].use == Free(c)
    ensures Lists(Pop(s, c, l))
  {
    hide LayoutToAllocator, ListsFree, Counted;
    assert ListsClass(s.free[c], s.total[c], s.pieces, c);
    TakeFirst(s.free[c], s.total[c], s.pieces, c, l);
    forall d: nat | d < CLASSES ensures ListsClass(Pop(s, c, l).free[d], s.total[d], Pop(s, c, l).pieces, d) {
      assert ListsClass(s.free[d], s.total[d], s.pieces, d);
      if d != c {
        OtherClass(s.free[d], s.total[d], s.pieces, d, s.free[c][0], Live(l));
      }
    }
  }

  lemma PopKeeps(s: State, c: nat, l: Layout)
    requires Inv(s) && c < CLASSES && s.free[c] != [] && LayoutToAllocator(l) == c && IsPow2(l.align)
    ensures s.free[c][0] in s.pieces && Inv(Pop(s, c, l))
  {
    hide LayoutToAllocator, Lists, Apart, Backed, Aligned, ChunksApart, ChunksInside, IsPow2;
    PopLists(s, c, l);
    var a := s.free[c][0];
    SameClass(c, l);
    AlignedAt(s.pieces, a);
    ReuseKeeps(s.pieces, s.chunks, a, Live(l));
  }

  lemma SameClass(c: nat, l: Layout)
    requires LayoutToAllocator(l) == c < CLASSES
    ensures Extent(Live(l)) == Extent(Free(c)) == ClassSize(c) && l.size <= 4096
  {
  }

  lemma AlignedAt(pieces: map<nat, Piece>, a: nat)
    requires Aligned(pieces) && a in pieces
    ensures AlignedPiece(a, pieces[a].use)
  {
  }

  lemma PushLists(s: State, ptr: nat, l: Layout)
    requires Inv(s) && IsLive(s, ptr, l) && LayoutToAllocator(l) < CLASSES
    ensures Lists(Deallocate(s, ptr, l))
  {
    InvParts(s);
    hide LayoutToAllocator, ListsFree, Counted, Inv, Extent, Apart, Backed, Aligned, ChunksApart, ChunksInside;
    var t, c := Deallocate(s, ptr, l), LayoutToAllocator(l);
    forall d: nat | d < CLASSES ensures ListsClass(t.free[d], s.total[d], t.pieces, d) {
      assert ListsClass(s.free[d], s.total[d], s.pieces, d);
      if d == c {
        PutFirst(s.free[c], s.total[c], s.pieces, c, ptr);
      } else {
        OtherClass(s.free[d], s.total[d], s.pieces, d, ptr, Free(c));
      }
    }
  }

  lemma PushKeeps(s: State, ptr: nat, l: Layout)
    requires Inv(s) && IsLive(s, ptr, l) && LayoutToAllocator(l) < CLASSES
    ensures Inv(Deallocate(s, ptr, l))
  {
    hide LayoutToAllocator, Lists, Apart, Backed, Aligned, ChunksApart, ChunksInside, IsPow2;
    PushLists(s, ptr, l);
    var c := LayoutToAllocator(l);
    SameClass(c, l);
    AlignedAt(s.pieces, ptr);
    ReuseKeeps(s.pieces, s.chunks, ptr, Free(c));
  }

  // ----- large allocations -----

  /** A piece that overlaps no other may join them. */
  lemma AddPiece(pieces: map<nat, Piece>, chunks: map<nat, nat>, g: nat, p: Piece)
    requires Apart(pieces) && Backed(pieces, chunks) && Aligned(pieces)
    requires forall a | a in pieces :: a + Extent(pieces[a].use) <= g || g + Extent(p.use) <= a
    requires BackedPiece(g, p, chunks) && AlignedPiece(g, p.use)
    ensures g !in pieces
    ensures Apart(pieces[g := p]) && Backed(pieces[g := p], chunks) && Aligned(pieces[g := p])
  {
    hide Extent, BackedPiece, AlignedPiece;
  }

  lemma LargePiece(l: Layout, g: nat, chunks: map<nat, nat>)
    requires l.size > 4096 && IsPow2(l.align) && g % l.align == 0 && g in chunks && chunks[g] == BuddySize(l)
    ensures Extent(Live(l)) == BuddySize(l)
    ensures BackedPiece(g, Piece(g, Live(l)), chunks) && AlignedPiece(g, Live(l))
  {
  }

  lemma LargeKeeps(s: State, l: Layout, g: nat)
    requires Inv(s) && l.size > 4096 && IsPow2(l.align) && BuddyMay(s, l, g)
    ensures Inv(Allocate(s, l, Some(g)).0)
  {
    hide Extent, BuddySize, Apart, Backed, Aligned, ChunksApart, ChunksInside, Lists, SumBelow, IsPow2;
    TakeKeeps(s, l, g);
    var t, u := Take(s, l, g), Allocate(s, l, Some(g)).0;
    LargePiece(l, g, t.chunks);
    AddPiece(t.pieces, t.chunks, g, Piece(g, Live(l)));
    assert u.pieces - {g} == t.pieces - {g};
    OtherLists(t, u, g);
  }

  /** Adding or dropping a large allocation does not touch the classes. */
  lemma OtherLists(t: State, u: State, g: nat)
    requires Shape(t) && Lists(t) && u.free == t.free && u.total == t.total
    requires g in t.pieces ==> LargeUse(t.pieces[g].use)
    requires g in u.pieces ==> LargeUse(u.pieces[g].use)
    requires u.pieces - {g} == t.pieces - {g}
    ensures Lists(u)
  {
    hide LayoutToAllocator;
    forall a | a != g ensures a in u.pieces <==> a in t.pieces
      ensures a in u.pieces ==> u.pieces[a] == t.pieces[a]
    {
      assert a in u.pieces - {g} <==> a in t.pieces - {g};
      if a in u.pieces {
        assert (u.pieces - {g})[a] == (t.pieces - {g})[a];
      }
    }
    forall d: nat | d < CLASSES
      ensures ListsClass(u.free[d], u.total[d], u.pieces, d)
    {
      assert ListsClass(t.free[d], t.total[d], t.pieces, d);
      assert LiveIn(u.pieces, d) == LiveIn(t.pieces, d);
    }
  }

  predicate LargeUse(u: Use) {
    u.Live? && LayoutToAllocator(u.layout) == CLASSES
  }

  lemma DropChunk(s: State, g: nat)
    requires Apart(s.pieces) && Backed(s.pieces, s.chunks)
    requires g in s.pieces && s.pieces[g].use.Live? && s.pieces[g].use.layout.size > 4096
    ensures Backed(s.pieces - {g}, s.chunks - {g}) && Apart(s.pieces - {g})
  {
    hide Extent;
    assert BackedPiece(g, s.pieces[g], s.chunks);
    forall a | a in s.pieces - {g} ensures BackedPiece(a, s.pieces[a], s.chunks - {g}) {
      assert BackedPiece(a, s.pieces[a], s.chunks);
    }
  }

  lemma FreeLargeKeeps(s: State, ptr: nat, l: Layout)
    requires Inv(s) && IsLive(s, ptr, l) && LayoutToAllocator(l) == CLASSES
    ensures Inv(Deallocate(s, ptr, l))
  {
    var t := Deallocate(s, ptr, l);
    InvParts(s);
    assert BackedPiece(ptr, s.pieces[ptr], s.chunks);
    ChunkCounted(s, ptr);
    DropChunk(s, ptr);
    assert Lists(t) by {
      hide Inv, Extent, BuddySize, Apart, Backed, Aligned, ChunksApart, ChunksInside, LayoutToAllocator, BackedPiece;
      OtherLists(s, t, ptr);
    }
    assert ChunksApart(t.chunks) && ChunksInside(t.chunks, t.memory) && Aligned(t.pieces);
    hide Lists, Apart, Backed, Aligned, ChunksApart, ChunksInside, SumBelow, BuddySize;
  }

  // ----- every run -----

  /** The heap right after it was given its first memory. */
  ghost function NewHeap(start: nat, size: nat, top: nat): State {
    State(seq(CLASSES, _ => []), seq(CLASSES, _ => 0), size, 0, top, {(start, size)}, map[], map[])
  }

  datatype Op = Alloc(layout: Layout, answer: Option<nat>) | Dealloc(ptr: nat, layout: Layout) | AddMemory(start: nat, size: nat)

  /** Callers free what they were given, with the same layout, and add memory that fits the address space. */
  ghost predicate Enabled(s: State, op: Op)
    requires Inv(s)
  {
    match op
    case Alloc(l, answer) => MayAllocate(s, l, answer)
    case Dealloc(ptr, l) => IsLive(s, ptr, l)
    case AddMemory(start, size) => start + size <= s.top
  }

  ghost function Step(s: State, op: Op): State
    requires Inv(s) && Enabled(s, op)
  {
    match op
    case Alloc(l, answer) => Allocate(s, l, answer).0
    case Dealloc(ptr, l) => Deallocate(s, ptr, l)
    case AddMemory(start, size) => s.(memory := s.memory + {(start, size)}, buddyTotal := s.buddyTotal + size)
  }

  lemma AllocateKeeps(s: State, l: Layout, answer: Option<nat>)
    requires Inv(s) && MayAllocate(s, l, answer)
    ensures Inv(Allocate(s, l, answer).0)
    ensures var (t, r) := Allocate(s, l, answer);
      if r.None? then t == s && answer.None? else IsLive(t, r.value, l)
  {
    hide Inv, LayoutToAllocator, BuddyMay, IsPow2, Carve, BuddySize, Apart, ChunksApart, ChunksInside, Backed, Aligned, Lists;
    var c := LayoutToAllocator(l);
    InvParts(s);
    if BuddyRequest(s, l).Some? && answer.None? {
    } else if c == CLASSES {
      LargeRequest(l);
      LargeKeeps(s, l, answer.value);
    } else if s.free[c] != [] {
      PopKeeps(s, c, l);
    } else {
      GrowKeeps(s, c, answer.value);
      InvParts(Grow(s, c, answer.value));
      PopKeeps(Grow(s, c, answer.value), c, l);
    }
  }

  lemma LargeRequest(l: Layout)
    ensures LayoutToAllocator(l) == CLASSES <==> l.size > 4096
  {
  }

  lemma StepKeeps(s: State, op: Op)
    requires Inv(s) && Enabled(s, op)
    ensures Inv(Step(s, op))
  {
    match op
    case Alloc(l, answer) => AllocateKeeps(s, l, answer);
    case Dealloc(ptr, l) =>
      if LayoutToAllocator(l) == CLASSES {
        FreeLargeKeeps(s, ptr, l);
      } else {
        PushKeeps(s, ptr, l);
      }
    case AddMemory(start, size) =>
      var t := Step(s, op);
      MoreMemory(s.chunks, s.memory, (start, size));
      assert Lists(t);
  }

  lemma MoreMemory(chunks: map<nat, nat>, memory: set<(nat, nat)>, r: (nat, nat))
    requires ChunksInside(chunks, memory)
    ensures ChunksInside(chunks, memory + {r})
  {
    forall g | g in chunks ensures Within(memory + {r}, g, chunks[g]) {
      assert Within(memory, g, chunks[g]);
      var m :| m in memory && m.0 <= g && g + chunks[g] <= m.0 + m.1;
      assert m in memory + {r};
    }
  }

  ghost predicate Runs(s: State, ops: seq<Op>)
    requires Inv(s)
    decreases |ops|
  {
    ops == [] || (Enabled(s, ops[0]) && (StepKeeps(s, ops[0]); Runs(Step(s, ops[0]), ops[1..])))
  }

  ghost function Run(s: State, ops: seq<Op>): (t: State)
    requires Inv(s) && Runs(s, ops)
    ensures Inv(t)
    decreases |ops|
  {
    if ops == [] then s else StepKeeps(s, ops[0]); Run(Step(s, ops[0]), ops[1..])
  }

  /** What callers rely on: live allocations overlap nothing, and lie aligned in heap memory. */
  ghost predicate SafeAllocations(s: State) {
    && (forall p: nat, l, q: nat, m | IsLive(s, p, l) && IsLive(s, q, m) && p != q :: p + l.size <= q || q + m.size <= p)
    && (forall p: nat, l, b: nat, c: nat | IsLive(s, p, l) && b in s.pieces && s.pieces[b].use == Free(c) ::
          p + l.size <= b || b + ClassSize(c) <= p)
    && (forall p: nat, l | IsLive(s, p, l) :: Within(s.memory, p, l.size))
    && (forall p: nat, l | IsLive(s, p, l) && (l.align <= 4096 || l.size > 4096) :: l.align > 0 && p % l.align == 0)
  }

  lemma LiveInside(s: State, p: nat, l: Layout)
    requires Inv(s) && IsLive(s, p, l)
    ensures Within(s.memory, p, l.size)
  {
    var g: nat := s.pieces[p].chunk;
    assert BackedPiece(p, s.pieces[p], s.chunks);
    assert l.size <= Extent(Live(l));
    assert Within(s.memory, g, s.chunks[g]);
    var r :| r in s.memory && r.0 <= g && g + s.chunks[g] <= r.0 + r.1;
    assert r.0 <= p && p + l.size <= r.0 + r.1;
  }

  lemma LiveAligned(s: State, p: nat, l: Layout)
    requires Inv(s) && IsLive(s, p, l) && (l.align <= 4096 || l.size > 4096)
    ensures l.align > 0 && p % l.align == 0
  {
    hide Lists, ChunksInside, ChunksApart, Apart, Backed;
    assert AlignedPiece(p, s.pieces[p].use);
    if l.size <= 4096 {
      var c := LayoutToAllocator(l);
      ClassSizeIsPow2(c);
      SmallerDivides(l.align, ClassSize(c));
      DividesThrough(p, ClassSize(c), l.align);
    }
  }

  lemma InvIsSafe(s: State)
    requires Inv(s)
    ensures SafeAllocations(s)
  {
    forall p: nat, l | IsLive(s, p, l) ensures Within(s.memory, p, l.size) {
      LiveInside(s, p, l);
    }
    forall p: nat, l | IsLive(s, p, l) && (l.align <= 4096 || l.size > 4096) ensures l.align > 0 && p % l.align == 0 {
      LiveAligned(s, p, l);
    }
    InvParts(s);
    hide Inv, Backed, Aligned, Lists, ChunksApart, ChunksInside, Within, Apart, ClassSize;
    forall p: nat, l, b: nat | IsLive(s, p, l) && b in s.pieces && p != b
      ensures p + l.size <= b || b + Extent(s.pieces[b].use) <= p
    {
      LiveApart(s.pieces, p, l, b);
    }
    forall b: nat, l | IsLive(s, b, l) ensures l.size <= Extent(s.pieces[b].use) {
      LiveFits(l);
    }
  }

  lemma LiveApart(pieces: map<nat, Piece>, p: nat, l: Layout, b: nat)
    requires Apart(pieces) && p in pieces && pieces[p].use == Live(l) && b in pieces && p != b
    ensures p + l.size <= b || b + Extent(pieces[b].use) <= p
  {
    LiveFits(l);
    hide Extent;
  }

  lemma LiveFits(l: Layout)
    ensures l.size <= Extent(Live(l))
  {
  }

  lemma NewHeapKeeps(start: nat, size: nat, top: nat)
    requires start + size <= top
    ensures Inv(NewHeap(start, size, top))
  {
    NoChunks(top);
    var s := NewHeap(start, size, top);
    forall c: nat | c < CLASSES ensures ListsClass(s.free[c], s.total[c], s.pieces, c) {
      assert LiveIn(s.pieces, c) == {};
    }
  }

  lemma {:induction false} NoChunks(n: nat)
    ensures var none: map<nat, nat> := map[]; SumBelow(none, n) == 0
  {
    if n > 0 {
      NoChunks(n - 1);
    }
  }

  /** In every run of a new heap, live allocations overlap nothing and lie aligned in heap memory. */
  lemma EveryRunSafe(start: nat, size: nat, top: nat, ops: seq<Op>)
    requires start + size <= top && (NewHeapKeeps(start, size, top); Runs(NewHeap(start, size, top), ops))
    ensures (NewHeapKeeps(start, size, top); SafeAllocations(Run(NewHeap(start, size, top), ops)))
  {
    NewHeapKeeps(start, size, top);
    InvIsSafe(Run(NewHeap(start, size, top), ops));
  }

  // ----- byte accounting -----

  function TotalBytes(total: seq<nat>, buddyTotal: nat): int
    requires |total| == CLASSES
  {
    total[0] * 64 + total[1] * 128 + total[2] * 256 + total[3] * 512 + total[4] * 1024 + total[5] * 2048
    + total[6] * 4096 + buddyTotal
  }

  function UsedBytes(total: seq<nat>, free: seq<seq<nat>>, buddyActual: nat): int
    requires |total| == CLASSES && |free| == CLASSES
  {
    (total[0] - |free[0]|) * 64 + (total[1] - |free[1]|) * 128 + (total[2] - |free[2]|) * 256
    + (total[3] - |free[3]|) * 512 + (total[4] - |free[4]|) * 1024 + (total[5] - |free[5]|) * 2048
    + (total[6] - |free[6]|) * 4096 + buddyActual
  }

  ghost function Available(s: State): int
    requires Shape(s)
  {
    TotalBytes(s.total, s.buddyTotal) - UsedBytes(s.total, s.free, s.buddyActual)
  }

  /** Neither subtraction of the accounting can underflow. */
  lemma NoUnderflow(s: State)
    requires Inv(s)
    ensures forall c: nat | c < CLASSES :: s.total[c] >= |s.free[c]|
    ensures Available(s) >= 0
  {
    forall c: nat | c < CLASSES ensures s.total[c] >= |s.free[c]| {
      assert ListsClass(s.free[c], s.total[c], s.pieces, c);
    }
  }

  lemma ClassAccount(s: State, t: State, c: nat, change: int)
    requires Shape(s) && Shape(t) && c < CLASSES && t.total == s.total
    requires t.buddyTotal == s.buddyTotal && t.buddyActual == s.buddyActual
    requires t.free == s.free[c := t.free[c]] && |t.free[c]| == |s.free[c]| + change
    ensures Available(t) == Available(s) + change * ClassSize(c)
  {
  }

  lemma GrowAccount(s: State, c: nat, g: nat)
    requires Shape(s) && c < CLASSES
    ensures Available(Grow(s, c, g)) == Available(s)
  {
    ChunkSizes(c);
    hide BuddySize;
  }

  /** The bytes a successful allocation is charged for, whether or not its class had to grow. */
  lemma AllocateAccount(s: State, l: Layout, answer: Option<nat>)
    requires Inv(s) && MayAllocate(s, l, answer)
    ensures Shape(Allocate(s, l, answer).0)
    ensures var (t, r) := Allocate(s, l, answer);
      Available(t) == Available(s) - if r.Some? then Extent(Live(l)) else 0
  {
    hide Inv, BuddyMay, IsPow2, LayoutToAllocator;
    var c := LayoutToAllocator(l);
    AllocateKeeps(s, l, answer);
    InvParts(s);
    if c < CLASSES {
      SameClass(c, l);
      if s.free[c] != [] {
        PopAccount(s, c, l);
      } else if answer.Some? {
        var t := Grow(s, c, answer.value);
        GrowKeeps(s, c, answer.value);
        GrowAccount(s, c, answer.value);
        PopAccount(t, c, l);
      }
    }
  }

  /** Memory that is added is available, and nothing that was is lost. */
  lemma AddMemoryAccount(s: State, start: nat, size: nat)
    requires Inv(s) && start + size <= s.top
    ensures var t := Step(s, AddMemory(start, size));
      Shape(t) && Available(t) == Available(s) + size && Within(t.memory, start, size)
    ensures forall a: nat, n: nat | Within(s.memory, a, n) :: Within(Step(s, AddMemory(start, size)).memory, a, n)
  {
    InvParts(s);
    var t := Step(s, AddMemory(start, size));
    assert (start, size) in t.memory;
    hide Inv;
    forall a: nat, n: nat | Within(s.memory, a, n) ensures Within(t.memory, a, n) {
      var m :| m in s.memory && m.0 <= a && a + n <= m.0 + m.1;
      assert m in t.memory;
    }
  }

  lemma PopAccount(s: State, c: nat, l: Layout)
    requires Inv(s) && c < CLASSES && s.free[c] != []
    ensures s.free[c][0] in s.pieces && Available(Pop(s, c, l)) == Available(s) - ClassSize(c)
  {
    assert ListsClass(s.free[c], s.total[c], s.pieces, c);
    hide Inv;
    ClassAccount(s, Pop(s, c, l), c, -1);
  }

  lemma DeallocateAccount(s: State, ptr: nat, l: Layout)
    requires Inv(s) && IsLive(s, ptr, l)
    ensures Available(Deallocate(s, ptr, l)) == Available(s) + Extent(Live(l))
  {
    var c, t := LayoutToAllocator(l), Deallocate(s, ptr, l);
    InvParts(s);
    if c < CLASSES {
      ClassAccount(s, t, c, 1);
    } else {
      ChunkCounted(s, ptr);
    }
  }

  // ----- alignments above a page -----

  /** A heap whose buddy allocator answers a request of `l` so that the block is misaligned. */
  lemma Misaligned(l: Layout)
    requires IsPow2(l.align) && l.align > 4096 && l.size <= 4096
    ensures var s := NewHeap(64 * l.align, 262144, 64 * l.align + 262144);
      && Inv(s) && MayAllocate(s, l, Some(64 * l.align))
      && Allocate(s, l, Some(64 * l.align)).1.Some?
      && Allocate(s, l, Some(64 * l.align)).1.value % l.align != 0
  {
    hide Inv, BuddyMay, BuddySize, Pow2;
    var g := 64 * l.align;
    var s := NewHeap(g, 262144, g + 262144);
    NewHeapKeeps(g, 262144, g + 262144);
    LastBlockMisaligned(l.align);
    FirstChunk(g);
    hide IsPow2;
    FirstBlock(s, l, g);
  }

  lemma FirstBlock(s: State, l: Layout, g: nat)
    requires Inv(s) && l.align > 4096 && l.size <= 4096 && Shape(s) && s.free[6] == []
    requires IsPow2(l.align) && BuddyMay(s, ChunkLayout(6), g)
    ensures MayAllocate(s, l, Some(g)) && Allocate(s, l, Some(g)).1 == Some(g + 63 * 4096)
  {
    hide Inv, BuddyMay, IsPow2, BuddySize, LayoutToAllocator, Carve, BlockAt;
    LastClass(l);
    GrowKeeps(s, 6, g);
    var q := Carve(g, ClassSize(6), SET_SIZE);
    assert (q + s.free[6])[0] == q[0] == BlockAt(g, ClassSize(6), 63);
    BlockNumber63(g);
  }

  lemma LastClass(l: Layout)
    requires l.align > 4096 && l.size <= 4096
    ensures LayoutToAllocator(l) == 6
  {
  }

  lemma BlockNumber63(g: nat)
    ensures BlockAt(g, ClassSize(6), 63) == g + 63 * 4096
  {
  }

  lemma FirstChunk(g: nat)
    requires g % 4096 == 0
    ensures BuddyMay(NewHeap(g, 262144, g + 262144), ChunkLayout(6), g)
  {
    ChunkSizes(6);
    hide BuddySize;
    assert (g, 262144) in NewHeap(g, 262144, g + 262144).memory;
  }

  lemma LastBlockMisaligned(align: nat)
    requires IsPow2(align) && align > 4096
    ensures 64 * align % 4096 == 0 && (64 * align + 63 * 4096) % align != 0
  {
    assert 4096 == Pow2(12) && 8192 == Pow2(13);
    AboveAPage(align);
    SmallerDivides(8192, align);
    hide IsPow2;
    OddBlock(align, align / 8192);
    if (64 * align + 63 * 4096) % align == 0 {
      DividesThrough(64 * align + 63 * 4096, align, 8192);
    }
  }

  lemma OddBlock(align: nat, q: nat)
    requires align == 8192 * q
    ensures 64 * align % 4096 == 0 && (64 * align + 63 * 4096) % 8192 == 4096
  {
    Quotient(128 * q, 0, 4096);
    Quotient(64 * q + 31, 4096, 8192);
  }

  lemma AboveAPage(n: nat)
    requires IsPow2(n) && n > 4096
    ensures n >= 8192
  {
    var k: nat :| n == Pow2(k);
    assert 4096 == Pow2(12) && 8192 == Pow2(13);
    if k <= 12 {
      PowersGrow(k, 12);
    } else {
      PowersGrow(13, k);
    }
  }
}
