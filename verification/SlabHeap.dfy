/** The slab heap as code: free lists threaded through the free blocks, updated in place. */
module SlabHeap {
  import opened Options
  import opened SlabAllocator
  import Arith

  function LinkTo(blocks: seq<nat>, i: nat): Option<nat> {
    if i < |blocks| then Some(blocks[i]) else None
  }

  /** `blocks` are consecutive blocks of a chunk, from number `k` on. */
  ghost predicate Ascending(blocks: seq<nat>, start: nat, size: nat, k: nat) {
    forall j | 0 <= j < |blocks| :: blocks[j] == BlockAt(start, size, k + j)
  }

  ghost predicate Descending(blocks: seq<nat>, start: nat, size: nat, k: nat) {
    k <= |blocks| && forall j | 0 <= j < k :: blocks[j] == BlockAt(start, size, k - 1 - j)
  }

  lemma AscendingStep(blocks: seq<nat>, start: nat, size: nat, k: nat)
    requires size > 0 && Ascending(blocks, start, size, k + 1)
    ensures BlockAt(start, size, k) !in blocks && Ascending([BlockAt(start, size, k)] + blocks, start, size, k)
  {
    hide BlockAt;
    forall j | 0 <= j < |blocks| ensures blocks[j] != BlockAt(start, size, k) {
      BlocksDiffer(start, size, k, k + 1 + j);
    }
  }

  lemma DescendingStep(blocks: seq<nat>, start: nat, size: nat, k: nat, was: seq<nat>)
    requires size > 0 && Descending(blocks, start, size, k)
    requires blocks[k..] == was && BlockAt(start, size, k) !in was
    ensures BlockAt(start, size, k) !in blocks && Descending([BlockAt(start, size, k)] + blocks, start, size, k + 1)
    ensures ([BlockAt(start, size, k)] + blocks)[k + 1..] == was
  {
    hide BlockAt;
    forall j | 0 <= j < |blocks| ensures blocks[j] != BlockAt(start, size, k) {
      if j < k {
        BlocksDiffer(start, size, k - 1 - j, k);
      } else {
        assert blocks[j] == was[j - k];
      }
    }
  }

  lemma DescendingIsCarve(blocks: seq<nat>, start: nat, size: nat, n: nat, was: seq<nat>)
    requires Descending(blocks, start, size, n) && blocks[n..] == was
    ensures blocks == Carve(start, size, n) + was
  {
    hide BlockAt;
    assert blocks[..n] == Carve(start, size, n);
    assert blocks == blocks[..n] + blocks[n..];
  }

  lemma AscendingTail(blocks: seq<nat>, start: nat, size: nat, k: nat)
    requires Ascending(blocks, start, size, k) && blocks != []
    ensures blocks[0] == BlockAt(start, size, k) && Ascending(blocks[1..], start, size, k + 1)
  {
    hide BlockAt;
  }

  /** A stack of free blocks; each block's first word links to the next one. */
  class FreeBlockList {
    var len: nat
    var head: Option<nat>
    var next: map<nat, Option<nat>>
    ghost var blocks: seq<nat>

    ghost predicate Valid()
      reads this
    {
      && len == |blocks| && head == LinkTo(blocks, 0) && Distinct(blocks)
      && forall i | 0 <= i < |blocks| :: blocks[i] in next && next[blocks[i]] == LinkTo(blocks, i + 1)
    }

    constructor (start: nat, blockSize: nat, n: nat)
      requires blockSize > 0
      ensures Valid() && |blocks| == n && Ascending(blocks, start, blockSize, 0)
    {
      len, head, next, blocks := 0, None, map[], [];
      new;
      var i := n;
      assert Valid() && Ascending(blocks, start, blockSize, i);
      hide Ascending, BlockAt, LinkTo, Distinct;
      while i > 0
        invariant 0 <= i <= n && Valid() && |blocks| == n - i && Ascending(blocks, start, blockSize, i)
      {
        i := i - 1;
        AscendingStep(blocks, start, blockSize, i);
        Push(BlockAt(start, blockSize, i));
      }
    }

    method Pop() returns (r: Option<nat>)
      requires Valid()
      modifies this
      ensures Valid() && r == LinkTo(old(blocks), 0)
      ensures blocks == if old(blocks) == [] then [] else old(blocks[1..])
    {
      r := head;
      if head.Some? {
        head := next[head.value];
        len := len - 1;
        blocks := blocks[1..];
      }
    }

    method Push(a: nat)
      requires Valid() && a !in blocks
      modifies this
      ensures Valid() && blocks == [a] + old(blocks)
    {
      next := next[a := head];
      len := len + 1;
      head := Some(a);
      blocks := [a] + blocks;
    }
  }

  lemma BlocksDiffer(start: nat, size: nat, i: nat, j: nat)
    requires i < j && size > 0
    ensures BlockAt(start, size, i) < BlockAt(start, size, j)
  {
    Arith.MulMonotone(i + 1, j, size);
    assert (i + 1) * size == i * size + size;
  }

  /** The buddy allocator's own counters; where it finds memory is up to it. */
  class Buddy {
    var total: nat
    var actual: nat

    constructor (size: nat)
      ensures total == size && actual == 0
    {
      total, actual := size, 0;
    }

    method Alloc(l: Layout, answer: Option<nat>) returns (r: Option<nat>)
      modifies this
      ensures r == answer && total == old(total)
      ensures actual == old(actual) + if r.Some? then BuddySize(l) else 0
    {
      r := answer;
      if r.Some? {
        actual := actual + BuddySize(l);
      }
    }

    method Dealloc(l: Layout)
      requires BuddySize(l) <= actual
      modifies this
      ensures total == old(total) && actual == old(actual) - BuddySize(l)
    {
      actual := actual - BuddySize(l);
    }

    method AddToHeap(size: nat)
      modifies this
      ensures total == old(total) + size && actual == old(actual)
    {
      total := total + size;
    }
  }

  /** The blocks of one size class. */
  class Slab {
    const blockSize: nat
    const list: FreeBlockList
    var totalBlocks: nat

    ghost predicate Valid()
      reads this, list
    {
      list.Valid() && blockSize > 0
    }

    ghost predicate Holds(free: seq<nat>, total: nat)
      reads this, list
    {
      Valid() && list.blocks == free && totalBlocks == total
    }

    constructor (start: nat, size: nat, blockSize: nat)
      requires blockSize > 0
      ensures Valid() && fresh(list) && this.blockSize == blockSize && totalBlocks == size / blockSize
      ensures |list.blocks| == totalBlocks && Ascending(list.blocks, start, blockSize, 0)
    {
      var l := new FreeBlockList(start, blockSize, size / blockSize);
      this.blockSize := blockSize;
      list := l;
      totalBlocks := size / blockSize;
    }

    /** Carves a chunk into blocks; they end up on the list last block first. */
    method Grow(start: nat, n: nat)
      requires Valid() && forall i: nat | i < n :: BlockAt(start, blockSize, i) !in list.blocks
      modifies this, list
      ensures Valid() && totalBlocks == old(totalBlocks) + n
      ensures list.blocks == Carve(start, blockSize, n) + old(list.blocks)
    {
      totalBlocks := totalBlocks + n;
      var blocks := new FreeBlockList(start, blockSize, n);
      ghost var was, k := list.blocks, 0;
      ghost var rest := blocks.blocks;
      var block := blocks.Pop();
      assert Descending(was, start, blockSize, 0);
      hide Ascending, Descending, BlockAt, Carve, Distinct;
      while block.Some?
        invariant fresh(blocks) && blocks.Valid() && list.Valid() && k + |rest| == n
        invariant totalBlocks == old(totalBlocks) + n
        invariant Ascending(rest, start, blockSize, k) && block == LinkTo(rest, 0)
        invariant blocks.blocks == if rest == [] then [] else rest[1..]
        invariant Descending(list.blocks, start, blockSize, k) && k <= |list.blocks| && list.blocks[k..] == was
        decreases |rest|
      {
        AscendingTail(rest, start, blockSize, k);
        DescendingStep(list.blocks, start, blockSize, k, was);
        list.Push(block.value);
        rest := rest[1..];
        block := blocks.Pop();
        k := k + 1;
      }
      DescendingIsCarve(list.blocks, start, blockSize, n, was);
    }

    /** Pops a block, after growing by a chunk of the buddy allocator if there is none. */
    method Allocate(buddy: Buddy, answer: Option<nat>, ghost free: seq<nat>, ghost total: nat) returns (r: Option<nat>)
      requires Holds(free, total)
      modifies this, list, buddy
      ensures buddy.total == old(buddy.total)
      ensures var x := ClassAfter(free, total, answer, blockSize);
        Holds(x.free, x.total) && r == x.result && buddy.actual == old(buddy.actual) + x.taken
    {
      r := list.Pop();
      if r.None? {
        var chunk := buddy.Alloc(Layout(SET_SIZE * blockSize, 4096), answer);
        if chunk.Some? {
          Arith.Quotient(SET_SIZE, 0, blockSize);
          Grow(chunk.value, SET_SIZE * blockSize / blockSize);
          r := list.Pop();
          NoneBehind(Carve(answer.value, blockSize, SET_SIZE));
        }
      }
    }

    method Deallocate(ptr: nat, ghost free: seq<nat>, ghost total: nat)
      requires Holds(free, total) && ptr !in free
      modifies this, list
      ensures Holds([ptr] + free, total)
    {
      list.Push(ptr);
    }

    method UsedBlocks(ghost free: seq<nat>, ghost total: nat) returns (n: nat)
      requires Holds(free, total) && |free| <= total
      ensures n == total - |free|
    {
      n := totalBlocks - list.len;
    }
  }

  lemma NoneBehind(q: seq<nat>)
    ensures q + [] == q
  {
  }

  datatype ClassResult = ClassResult(free: seq<nat>, total: nat, taken: nat, result: Option<nat>)

  /** What an allocation does to its class: new list and count, bytes taken from the buddy, and the block. */
  ghost function ClassAfter(free: seq<nat>, total: nat, answer: Option<nat>, size: nat): ClassResult {
    if free != [] then ClassResult(free[1..], total, 0, Some(free[0]))
    else if answer.None? then ClassResult(free, total, 0, None)
    else
      var q := Carve(answer.value, size, SET_SIZE);
      ClassResult(q[1..], total + SET_SIZE, BuddySize(Layout(SET_SIZE * size, 4096)), Some(q[0]))
  }

  lemma ClassEffect(s: State, l: Layout, answer: Option<nat>, c: nat)
    requires Inv(s) && MayAllocate(s, l, answer) && c == LayoutToAllocator(l) < CLASSES
    ensures Shape(s) && ClassChange(s, Allocate(s, l, answer).0, c,
      ClassAfter(s.free[c], s.total[c], answer, ClassSize(c)), Allocate(s, l, answer).1)
  {
    hide Inv, BuddyMay, IsPow2, LayoutToAllocator, BuddySize, BlockAt, ClassSize, Carve;
    ShapeOf(s);
    if s.free[c] == [] && answer.Some? {
      GrowEffect(s, l, answer.value, c);
    }
  }

  lemma GrowEffect(s: State, l: Layout, g: nat, c: nat)
    requires Inv(s) && MayAllocate(s, l, Some(g)) && c == LayoutToAllocator(l) < CLASSES && s.free[c] == []
    ensures ClassChange(s, Allocate(s, l, Some(g)).0, c,
      ClassAfter(s.free[c], s.total[c], Some(g), ClassSize(c)), Allocate(s, l, Some(g)).1)
  {
    hide Inv, BuddyMay, IsPow2, LayoutToAllocator, BuddySize, BlockAt, ClassSize, Carve;
    ShapeOf(s);
    GrowKeeps(s, c, g);
    NoneBehind(Carve(g, ClassSize(c), SET_SIZE));
    var t := Grow(s, c, g);
    assert Allocate(s, l, Some(g)).0 == Pop(t, c, l);
  }

  lemma ShapeOf(s: State)
    requires Inv(s)
    ensures Shape(s)
  {
  }

  lemma LargeEffect(s: State, l: Layout, answer: Option<nat>)
    requires Inv(s) && MayAllocate(s, l, answer) && LayoutToAllocator(l) == CLASSES
    ensures var (t, r) := Allocate(s, l, answer);
      && t.free == s.free && t.total == s.total && t.buddyTotal == s.buddyTotal && r == answer
      && t.buddyActual == s.buddyActual + if r.Some? then BuddySize(l) else 0
  {
    hide Inv, BuddyMay, IsPow2, BuddySize;
  }

  lemma DeallocateKeeps(s: State, ptr: nat, l: Layout)
    requires Inv(s) && IsLive(s, ptr, l)
    ensures Inv(Deallocate(s, ptr, l))
  {
    hide Inv, Deallocate;
    StepKeeps(s, Dealloc(ptr, l));
  }

  lemma DeallocateEffect(s: State, ptr: nat, l: Layout)
    requires Inv(s) && IsLive(s, ptr, l)
    ensures var t, c := Deallocate(s, ptr, l), LayoutToAllocator(l);
      && t.total == s.total && t.buddyTotal == s.buddyTotal
      && t.free == (if c < CLASSES then s.free[c := [ptr] + s.free[c]] else s.free)
      && t.buddyActual == s.buddyActual - if c < CLASSES then 0 else BuddySize(l)
  {
    hide BuddySize;
  }

  ghost predicate ClassChange(s: State, t: State, c: nat, x: ClassResult, r: Option<nat>)
    requires Shape(s) && c < CLASSES
  {
    && t.free == s.free[c := x.free] && t.total == s.total[c := x.total]
    && t.buddyTotal == s.buddyTotal && t.buddyActual == s.buddyActual + x.taken && r == x.result
  }

  /** One empty slab for each size class. */
  method EmptySlabs() returns (slabs: seq<Slab>, lists: seq<FreeBlockList>)
    ensures OneForEachClass(slabs, lists)
    ensures forall c | 0 <= c < CLASSES :: fresh(slabs[c]) && fresh(lists[c]) && slabs[c].Holds([], 0)
  {
    slabs, lists := [], [];
    for c := 0 to CLASSES
      invariant |slabs| == |lists| == c
      invariant forall i | 0 <= i < c :: fresh(slabs[i]) && fresh(lists[i]) && slabs[i].Holds([], 0)
      invariant forall i | 0 <= i < c :: slabs[i].blockSize == ClassSize(i) && slabs[i].list == lists[i]
      invariant forall i, j | 0 <= i < j < c :: slabs[i] != slabs[j] && lists[i] != lists[j]
    {
      var slab := new Slab(0, 0, ClassSize(c));
      assert slab.Holds([], 0);
      hide Slab.Holds;
      slabs, lists := slabs + [slab], lists + [slab.list];
    }
  }

  ghost predicate OneForEachClass(slabs: seq<Slab>, lists: seq<FreeBlockList>) {
    && |slabs| == CLASSES && |lists| == CLASSES
    && (forall c | 0 <= c < CLASSES :: slabs[c].blockSize == ClassSize(c) && slabs[c].list == lists[c])
    && (forall c, d | 0 <= c < d < CLASSES :: slabs[c] != slabs[d] && lists[c] != lists[d])
  }

  class Heap {
    const slabs: seq<Slab>
    const lists: seq<FreeBlockList>
    const buddy: Buddy
    ghost var state: State

    /** The slabs and counters hold what the abstract state says. */
    ghost predicate Valid()
      reads this, buddy, slabs, lists
    {
      && OneForEachClass(slabs, lists) && Inv(state)
      && (forall c | 0 <= c < CLASSES :: slabs[c].Holds(state.free[c], state.total[c]))
      && buddy.total == state.buddyTotal && buddy.actual == state.buddyActual
    }

    constructor (start: nat, size: nat, ghost top: nat)
      requires start % 4096 == 0 && size >= 0x8000 && size % 0x8000 == 0 && start + size <= top
      ensures Valid() && state == NewHeap(start, size, top)
    {
      hide Inv, Slab.Holds;
      var classes, free := EmptySlabs();
      slabs, lists := classes, free;
      var b := new Buddy(size);
      buddy := b;
      state := NewHeap(start, size, top);
      NewHeapKeeps(start, size, top);
    }

    method Allocate(l: Layout, answer: Option<nat>) returns (r: Option<nat>)
      requires Valid() && MayAllocate(state, l, answer)
      modifies this, buddy, slabs, lists
      ensures Valid() && (state, r) == SlabAllocator.Allocate(old(state), l, answer)
    {
      hide Inv, Slab.Holds, BuddySize, LayoutToAllocator, ClassAfter, MayAllocate, SlabAllocator.Allocate;
      var c := LayoutToAllocator(l);
      AllocateKeeps(state, l, answer);
      ghost var (t, _) := SlabAllocator.Allocate(state, l, answer);
      if c < CLASSES {
        ClassEffect(state, l, answer, c);
      } else {
        LargeEffect(state, l, answer);
      }
      if c < CLASSES {
        r := slabs[c].Allocate(buddy, answer, state.free[c], state.total[c]);
      } else {
        r := buddy.Alloc(l, answer);
      }
      state := t;
    }

    method Deallocate(ptr: nat, l: Layout)
      requires Valid() && IsLive(state, ptr, l)
      modifies this, buddy, slabs, lists
      ensures Valid() && state == SlabAllocator.Deallocate(old(state), ptr, l)
    {
      hide Inv, Slab.Holds, BuddySize, LayoutToAllocator, SlabAllocator.Deallocate, IsLive;
      ShapeOf(state);
      DeallocateKeeps(state, ptr, l);
      NotListed(state, ptr, l);
      var c := LayoutToAllocator(l);
      ghost var t := SlabAllocator.Deallocate(state, ptr, l);
      DeallocateEffect(state, ptr, l);
      if c < CLASSES {
        slabs[c].Deallocate(ptr, state.free[c], state.total[c]);
      } else {
        buddy.Dealloc(l);
      }
      state := t;
    }

    method AddMemory(start: nat, size: nat)
      requires Valid() && start % 4096 == 0 && size % 4096 == 0 && start + size <= state.top
      modifies this, buddy
      ensures Valid() && state == Step(old(state), Op.AddMemory(start, size))
    {
      StepKeeps(state, Op.AddMemory(start, size));
      hide Inv;
      buddy.AddToHeap(size);
      state := Step(state, Op.AddMemory(start, size));
    }

    /** The heap's byte count; what it says of each operation is in the accounting lemmas. */
    method AvailableBytes() returns (n: nat)
      requires Valid()
      ensures n == Available(state)
    {
      NoUnderflow(state);
      hide Inv;
      var total := slabs[0].totalBlocks * 64 + slabs[1].totalBlocks * 128 + slabs[2].totalBlocks * 256
        + slabs[3].totalBlocks * 512 + slabs[4].totalBlocks * 1024 + slabs[5].totalBlocks * 2048
        + slabs[6].totalBlocks * 4096 + buddy.total;
      var u0 := slabs[0].UsedBlocks(state.free[0], state.total[0]);
      var u1 := slabs[1].UsedBlocks(state.free[1], state.total[1]);
      var u2 := slabs[2].UsedBlocks(state.free[2], state.total[2]);
      var u3 := slabs[3].UsedBlocks(state.free[3], state.total[3]);
      var u4 := slabs[4].UsedBlocks(state.free[4], state.total[4]);
      var u5 := slabs[5].UsedBlocks(state.free[5], state.total[5]);
      var u6 := slabs[6].UsedBlocks(state.free[6], state.total[6]);
      var used := u0 * 64 + u1 * 128 + u2 * 256 + u3 * 512 + u4 * 1024 + u5 * 2048 + u6 * 4096 + buddy.actual;
      n := total - used;
    }
  }

  lemma NotListed(s: State, ptr: nat, l: Layout)
    requires Inv(s) && IsLive(s, ptr, l)
    ensures LayoutToAllocator(l) < CLASSES ==> ptr !in s.free[LayoutToAllocator(l)]
    ensures LayoutToAllocator(l) == CLASSES ==> BuddySize(l) <= s.buddyActual
  {
    var c := LayoutToAllocator(l);
    if c < CLASSES {
      assert ListsClass(s.free[c], s.total[c], s.pieces, c);
    } else {
      assert BackedPiece(ptr, s.pieces[ptr], s.chunks);
      ChunkCounted(s, ptr);
    }
  }
}
