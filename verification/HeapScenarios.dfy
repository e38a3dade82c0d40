/** Three short runs of the kernel heap: one that faults, one that ruins it, and one after which it is not empty. */
module HeapScenarios {
  import opened Machine
  import opened Heap
  import opened HeapSteps
  import opened FirstFit
  import opened Coalescing
  import opened Frames
  import opened KernelState
  import opened Requests
  import opened HeapTheorems
  import opened KernelMemory

  /** A heap at rest is the one that its live blocks suggest. */
  lemma LayoutIs(k: Layout, w: World, c: Chunks, top: int)
    requires Resting(k, w) && AtRest(c, k.base, top) && Live(w.c) == Live(c)
    ensures w.c == c && w.end == top
    ensures (forall a :: a in c ==> !c[a].free) ==> w.l == []
  {
    LayoutFromLive(w.c, c, k.base, w.top, top);
    if forall a :: a in c ==> !c[a].free { NothingIsListed(k, w); }
  }

  lemma NothingIsListed(k: Layout, w: World)
    requires Resting(k, w) && forall a :: a in w.c ==> !w.c[a].free
    ensures w.l == []
  {
    if w.l != [] { var a := FreeNode(w.c, w.l); }
  }

  lemma FreeNode(c: Chunks, l: seq<int>) returns (a: int)
    requires Members(c, l) && l != []
    ensures a in c && c[a].free
  {
    a := l[0];
  }

  /** Neither on the free list nor on the page free list is anything. */
  ghost predicate NothingListed(k: Layout, w: World) {
    true == (Resting(k, w) && w.l == [] && w.pf == [])
  }

  lemma NothingFits(k: Layout, w: World, bytes: nat)
    requires NothingListed(k, w)
    ensures !Listable(w.c, w.l, 8, bytes) && Align(w.end, 8) == w.end && EndPage(w.end, w.hi)
  {
    RestingIsShrunk(k, w);
    Aligned(w.end);
  }

  lemma Aligned(a: nat)
    requires a % 8 == 0
    ensures Align(a, 8) == a
  {
  }

  /** Then the next block comes last. */
  lemma BlockComesLast(k: Layout, w: World, w': World, u: nat)
    requires NothingListed(k, w) && Resting(k, w') && Extended(w, w', w.end, 8 * u) && 1 <= u
    ensures NothingListed(k, w') && w'.c == w.c[w.end := Chunk(u, false)] && w'.end == w.end + 8 * u + 8
    ensures w'.frontier == w.frontier + PAGE_SIZE * (w'.hi - w.hi) && EndPage(w'.end, w'.hi) && w.hi <= w'.hi
    ensures UserMap(w') == Live(w'.c)
  {
    NothingDrawn(k, w, w', u);
    var c := w.c[w.end := Chunk(u, false)];
    ChunksOf(k, w);
    LastAdded(w.c, c, k.base, w.top, w'.end, u);
    LiveIsUsers(w);
    LiveIsUsers(w');
    LayoutIs(k, w', c, w'.end);
  }

  lemma NothingDrawn(k: Layout, w: World, w': World, u: nat)
    requires NothingListed(k, w) && Resting(k, w') && Extended(w, w', w.end, 8 * u)
    ensures w'.pf == [] == w.pf && w.l == [] && w'.frontier == w.frontier + PAGE_SIZE * (w'.hi - w.hi) && w.hi <= w'.hi
    ensures Resting(k, w) && EndPage(w'.end, w'.hi) && w'.end == w.end + 8 * u + 8 && UserMap(w') == UserMap(w)[w.end := 8 * u]
  {
  }

  lemma ChunksOf(k: Layout, w: World)
    requires Resting(k, w) && w.l == []
    ensures AtRest(w.c, k.base, w.top) && w.top == w.end && forall a :: a in w.c ==> !w.c[a].free
  {
  }

  lemma LastAdded(c: Chunks, c': Chunks, base: int, top: int, top': int, u: nat)
    requires AtRest(c, base, top) && 1 <= u && top' == top + 8 * u + 8 && c' == c[top := Chunk(u, false)]
    requires forall a :: a in c ==> !c[a].free
    ensures AtRest(c', base, top') && Live(c') == Live(c)[top := 8 * u] && forall a :: a in c' ==> !c'[a].free
  {
    ExtendKeepsTiling(c, base, top, Chunk(u, false));
    NoFreeChunk(c', top');
    assert top !in c;
    LiveAdded(c, c', top, u);
  }

  lemma LiveAdded(c: Chunks, c': Chunks, top: int, u: nat)
    requires c' == c[top := Chunk(u, false)]
    ensures Live(c') == Live(c)[top := 8 * u]
  {
  }

  lemma NoFreeChunk(c: Chunks, top: int)
    requires forall a :: a in c ==> !c[a].free
    ensures Coalesced(c) && LastLive(c, top)
  {
  }

  lemma LiveIsUsers(w: World)
    requires w.pf == []
    ensures UserMap(w) == Live(w.c)
  {
  }

  method AllocLast(kernel: Kernel, bytes: Word, ghost u: nat) returns (vma: Word)
    requires NothingListed(kernel.layout, kernel.W()) && bytes == 8 * u && 1 <= u && kernel.end + bytes + 8 <= HEAP_LIMIT
    requires kernel.heapEndPma + bytes + 3 * PAGE_SIZE < WORD_LIMIT
    modifies kernel, kernel.mem, kernel.pte
    ensures NothingListed(kernel.layout, kernel.W()) && vma == old(kernel.end) && kernel.end == vma + bytes + 8
    ensures kernel.chunks == old(kernel.chunks)[vma := Chunk(u, false)] && UserMap(kernel.W()) == Live(kernel.chunks)
    ensures kernel.heapEndPma < old(kernel.heapEndPma) + bytes + 8 + PAGE_SIZE
  {
    ghost var w := kernel.W();
    NothingFits(kernel.layout, w, bytes);
    assert Units(bytes) == u;
    var a := kernel.Alloc(8, bytes);
    vma := a.vma;
    BlockComesLast(kernel.layout, w, kernel.W(), u);
  }

  // ----- Freeing the only block -----

  /** A new kernel heap with one block. */
  method NewWithBlock(heapStart: Word, nextPma: Word, entries: array<Word>, bytes: Word, ghost u: nat, ghost boot: map<Word, Place>)
    returns (kernel: Kernel, vma: Word)
    requires entries.Length == PAGES && PAGE_SIZE <= heapStart && heapStart + bytes + PAGE_SIZE <= HEAP_LIMIT
    requires nextPma % PAGE_SIZE == 0 && nextPma + 2 * bytes + 9 * PAGE_SIZE < WORD_LIMIT && UsedByBoot(boot, nextPma)
    requires FreeAbove(entries[..], Align(heapStart, 8) / PAGE_SIZE) && bytes == 8 * u && 1 <= u
    modifies entries
    ensures fresh(kernel) && fresh(kernel.mem) && kernel.pte == entries
    ensures NothingListed(kernel.layout, kernel.W()) && kernel.chunks == map[vma := Chunk(u, false)] && vma in UserMap(kernel.W())
    ensures vma == kernel.layout.base == Align(heapStart, 8) + 8 && kernel.end == vma + bytes + 8 && kernel.Room(8, 8)
  {
    kernel := new Kernel(heapStart, nextPma, entries, boot);
    AlignIsLeast(heapStart, 8);
    vma := AllocLast(kernel, bytes, u);
    NothingFits(kernel.layout, kernel.W(), 8);
  }

  /** A block between blocks that are not free is merged with nothing. */
  lemma MergesNothing(c: Chunks, l: seq<int>, v: int)
    requires v in c && forall a :: a in c && c[a].free ==> Next(c, v) != a && Next(c, a) != v
    ensures MergeBoth(c, l, v) == Merge(c, l, v)
  {
  }

  lemma OnlyOutcome(c: Chunks, v: nat, u: nat, end: nat)
    requires c == map[v := Chunk(u, false)] && end == v + 8 * u + 8
    ensures FreeOutcome(c, [], [], v, end) == SpanOutcome(map[], [], [], v, end)
    ensures MergeBoth(c, [], v) == Merge(c, [], v)
  {
    MergesNothing(c, [], v);
    assert c - {v} == map[];
  }

  lemma LargeOutcome(v: nat, end: nat)
    requires v % 8 == 0 && end == v + 4 * PAGE_SIZE + 8
    ensures SpanOutcome(map[], [], [], v, end) == if v % PAGE_SIZE == PAGE_SIZE - 16 then Adrift else Crashed
  {
    var low := PageAbove(v);
    var high := PageAbove(end);
    EndRemainder(v, low);
    EndRemainder(end, high);
    assert low + 4 <= high <= low + 5;
  }

  /**
   The last step of `kmalloc_test` on a new heap: four pages are allocated and freed. Unless the first block is 16 bytes below
   a page boundary, the kernel faults in the second turn of the page loop.
   */
  method FreeLargeBlock(heapStart: Word, nextPma: Word, entries: array<Word>, ghost boot: map<Word, Place>)
    returns (kernel: Kernel, r: FreeResult)
    requires entries.Length == PAGES && PAGE_SIZE <= heapStart && heapStart + 5 * PAGE_SIZE <= HEAP_LIMIT
    requires nextPma % PAGE_SIZE == 0 && nextPma + 17 * PAGE_SIZE < WORD_LIMIT && UsedByBoot(boot, nextPma)
    requires FreeAbove(entries[..], Align(heapStart, 8) / PAGE_SIZE)
    modifies entries
    ensures kernel.layout.base == Align(heapStart, 8) + 8
    ensures r == if kernel.layout.base % PAGE_SIZE == PAGE_SIZE - 16 then Adrift else Crashed
  {
    var vma;
    kernel, vma := NewWithBlock(heapStart, nextPma, entries, 4 * PAGE_SIZE, 2048, boot);
    OnlyOutcome(kernel.chunks, vma, 2048, kernel.end);
    AlignIsLeast(heapStart, 8);
    AddByte(Align(heapStart, 8), 8);
    LargeOutcome(vma, kernel.end);
    r := kernel.Free(vma);
  }

  lemma PageOutcome(v: nat, end: nat)
    requires v % PAGE_SIZE == 8 && end == v + PAGE_SIZE + 8
    ensures SpanOutcome(map[], [], [], v, end) == Broken
  {
    var low := PageAbove(v);
    var high := PageAbove(end);
    EndRemainder(v, low);
    EndRemainder(end, high);
    assert high == low + 1;
  }

  /** On a heap that starts at a page boundary, as after boot, a block of one page is freed without a fault, and ruins the heap for good. */
  method FreePageBlock(heapStart: Word, nextPma: Word, entries: array<Word>, ghost boot: map<Word, Place>) returns (kernel: Kernel, r: FreeResult)
    requires entries.Length == PAGES && PAGE_SIZE <= heapStart && heapStart + 5 * PAGE_SIZE <= HEAP_LIMIT && heapStart % PAGE_SIZE == 0
    requires nextPma % PAGE_SIZE == 0 && nextPma + 17 * PAGE_SIZE < WORD_LIMIT && UsedByBoot(boot, nextPma)
    requires FreeAbove(entries[..], Align(heapStart, 8) / PAGE_SIZE)
    modifies entries
    ensures r == Broken && kernel.end == kernel.layout.base
    ensures forall w' :: SameFacts(kernel.W(), w') && w'.end == kernel.end ==> !Resting(kernel.layout, w')
  {
    PagesAreAligned(heapStart);
    var vma;
    kernel, vma := NewWithBlock(heapStart, nextPma, entries, PAGE_SIZE, 512, boot);
    OnlyOutcome(kernel.chunks, vma, 512, kernel.end);
    DivUnique(vma, PAGE_SIZE, heapStart / PAGE_SIZE, 8);
    PageOutcome(vma, kernel.end);
    r := kernel.Free(vma);
    forall w' | SameFacts(kernel.W(), w') && w'.end == kernel.end ensures !Resting(kernel.layout, w') {
      RuinIsFinal(kernel.layout, kernel.W(), w');
    }
  }

  // ----- Freeing everything -----

  function LastTwo(first: int): map<int, nat> {
    map[first + 16 := 8, first + 32 := 4088]
  }

  lemma FirstStep(c: Chunks, l: seq<int>, base: nat, end: nat)
    requires c == ThreeBlocks(base, false) && end == base + 4128
    ensures base in c && Next(c, base) != end && MergeBoth(c, l, base) == Merge(c, l, base)
    ensures Live(c) - {base} == LastTwo(base)
    ensures c[base := Chunk(c[base].units, true)] == ThreeBlocks(base, true)
  {
    MergesNothing(c, l, base);
  }

  lemma SecondStep(c: Chunks, base: nat, end: nat, b: nat)
    requires c == ThreeBlocks(base, true) && end == base + 4128 && base == PAGE_SIZE * b + 8
    ensures base + 32 in c && Next(c, base + 32) == end && LastTwo(base) - {base + 32} == map[base + 16 := 8]
    ensures MergeBoth(c, [base], base + 32) == Merge(c, [base], base + 32) && FreeSafe(c, [base], base + 32, end)
  {
    var v := base + 32;
    MergesNothing(c, [base], v);
    SingleCapacity(c - {v}, base);
    EndPageIsAlign(end, b + 2);
    EndPageIsAlign(v, b + 1);
  }

  lemma ThirdStep(c: Chunks, base: nat, end: nat, b: nat)
    requires c == TwoBlocks(base) && end == base + 32 && base == PAGE_SIZE * b + 8
    ensures base + 16 in c && Next(c, base + 16) == end
    ensures MergeBoth(c, [], base + 16) == Merge(c, [], base + 16) && FreeSafe(c, [], base + 16, end)
  {
    var v := base + 16;
    MergesNothing(c, [], v);
    EndPageIsAlign(end, b + 1);
    EndPageIsAlign(v, b + 1);
  }

  /** With room for two blocks, one of them a caller's and one of them listed, there are no other chunks. */
  lemma NodeComesFirst(k: Layout, w: World)
    requires Resting(k, w) && w.pf != [] && UserMap(w) == map[k.base + 16 := 8] && w.end == k.base + 32
    ensures w.c == TwoBlocks(k.base) && w.l == []
  {
    var n := w.pf[0];
    NodeIsLive(k, w, n);
    assert k.base + 16 in UserMap(w);
    OnlyTwo(w.c, k.base, w.top, n);
    NothingIsListed(k, w);
  }

  lemma NodeIsLive(k: Layout, w: World, n: int)
    requires Resting(k, w) && n in w.pf
    ensures n in w.c && !w.c[n].free && n !in UserMap(w) && w.top == w.end && Tiling(w.c, k.base, w.top)
  {
    assert n in Live(w.c);
  }

  lemma OnlyTwo(c: Chunks, base: int, top: int, n: int)
    requires Tiling(c, base, top) && top == base + 32 && n in c && n != base + 16 && !c[n].free
    requires base + 16 in c && c[base + 16] == Chunk(1, false)
    ensures c == TwoBlocks(base)
  {
    assert Next(c, n) <= top;
    assert n == base;
    assert forall a :: a in c ==> a == base || a == base + 16;
  }

  /**
   Three blocks are allocated on a new heap and all of them are freed. No caller holds a block any more, but the first of the
   three has become a node of the page free list: it holds the frame of the page that went with the third.
   */
  method FreeThreeBlocks(heapStart: Word, nextPma: Word, entries: array<Word>, ghost boot: map<Word, Place>) returns (kernel: Kernel)
    requires entries.Length == PAGES && PAGE_SIZE <= heapStart && heapStart + 2 * PAGE_SIZE <= HEAP_LIMIT && heapStart % PAGE_SIZE == 0
    requires nextPma % PAGE_SIZE == 0 && nextPma + 8 * PAGE_SIZE < WORD_LIMIT && UsedByBoot(boot, nextPma)
    requires FreeAbove(entries[..], Align(heapStart, 8) / PAGE_SIZE)
    modifies entries
    ensures kernel.Idle() && UserMap(kernel.W()) == map[]
    ensures |kernel.pages| == 1 && kernel.chunks != map[] && kernel.end > kernel.layout.base
  {
    PagesAreAligned(heapStart);
    kernel := new Kernel(heapStart, nextPma, entries, boot);
    var first, second, third := AllocThree(kernel);
    FreeThree(kernel, first, second, third, heapStart / PAGE_SIZE);
    StillListed(kernel.layout, kernel.W());
  }

  lemma PagesAreAligned(a: nat)
    requires a % PAGE_SIZE == 0
    ensures Align(a, 8) == a == PAGE_SIZE * (a / PAGE_SIZE)
  {
  }

  lemma StillListed(k: Layout, w: World)
    requires Resting(k, w) && UserMap(w) == map[] && w.pf != []
    ensures w.c != map[] && w.end > k.base
  {
    ListNeedsLive(k, w);
    EmptyWithoutListedPages(k, w);
  }

  method AllocThree(kernel: Kernel) returns (first: Word, second: Word, third: Word)
    requires NothingListed(kernel.layout, kernel.W()) && kernel.chunks == map[]
    requires kernel.end + PAGE_SIZE + 40 <= HEAP_LIMIT && kernel.heapEndPma + 7 * PAGE_SIZE < WORD_LIMIT
    modifies kernel, kernel.mem, kernel.pte
    ensures NothingListed(kernel.layout, kernel.W()) && first == old(kernel.end) && second == first + 16 && third == first + 32
    ensures kernel.chunks == ThreeBlocks(first, false) && kernel.end == first + 4128
  {
    first, second := AllocTwo(kernel);
    third := AllocLast(kernel, PAGE_SIZE - 8, 511);
    BlockByBlock(first);
  }

  method AllocTwo(kernel: Kernel) returns (first: Word, second: Word)
    requires NothingListed(kernel.layout, kernel.W()) && kernel.chunks == map[]
    requires kernel.end + PAGE_SIZE + 40 <= HEAP_LIMIT && kernel.heapEndPma + 7 * PAGE_SIZE < WORD_LIMIT
    modifies kernel, kernel.mem, kernel.pte
    ensures NothingListed(kernel.layout, kernel.W()) && first == old(kernel.end) && second == first + 16 && kernel.end == first + 32
    ensures kernel.chunks == TwoBlocks(first) && kernel.heapEndPma <= old(kernel.heapEndPma) + 2 * PAGE_SIZE + 32
  {
    first := AllocLast(kernel, 8, 1);
    second := AllocLast(kernel, 8, 1);
    BlockByBlock(first);
  }

  lemma BlockByBlock(first: int)
    ensures var c: Chunks := map[]; c[first := Chunk(1, false)][first + 16 := Chunk(1, false)] == TwoBlocks(first)
    ensures TwoBlocks(first)[first + 32 := Chunk(511, false)] == ThreeBlocks(first, false)
  {
  }

  function TwoBlocks(first: int): Chunks {
    map[first := Chunk(1, false), first + 16 := Chunk(1, false)]
  }

  /** The chunks before and after the first one is freed. */
  function ThreeBlocks(first: int, free: bool): Chunks {
    map[first := Chunk(1, free), first + 16 := Chunk(1, false), first + 32 := Chunk(511, false)]
  }

  method FreeThree(kernel: Kernel, first: Word, second: Word, third: Word, ghost b: nat)
    requires NothingListed(kernel.layout, kernel.W()) && first == kernel.layout.base == PAGE_SIZE * b + 8
    requires second == first + 16 && third == first + 32 && kernel.end == first + 4128
    requires kernel.chunks == ThreeBlocks(first, false)
    modifies kernel, kernel.mem, kernel.pte
    ensures kernel.Idle() && UserMap(kernel.W()) == map[] && |kernel.pages| == 1
  {
    AtEndPage(kernel.layout, kernel.W(), b + 2);
    FreeFirst(kernel, first);
    FreeThird(kernel, first, third, b);
    AtEndPage(kernel.layout, kernel.W(), b + 1);
    FreeSecond(kernel, first, second, b);
    AtEndPage(kernel.layout, kernel.W(), b + 1);
  }

  lemma AtEndPage(k: Layout, w: World, p: int)
    requires Resting(k, w) && EndPage(w.end, p)
    ensures w.hi == p
  {
  }

  /** Frees a block between live ones. */
  method FreeInside(kernel: Kernel, v: Word)
    requires kernel.Idle() && v in UserMap(kernel.W()) && v in kernel.chunks && Next(kernel.chunks, v) != kernel.end
    requires MergeBoth(kernel.chunks, kernel.order, v) == Merge(kernel.chunks, kernel.order, v)
    modifies kernel, kernel.mem, kernel.pte
    ensures kernel.Idle() && UserMap(kernel.W()) == UserMap(old(kernel.W())) - {v} && kernel.end == old(kernel.end)
    ensures kernel.chunks == old(kernel.chunks)[v := Chunk(old(kernel.chunks)[v].units, true)] && kernel.order == [v] + old(kernel.order)
    ensures |kernel.pages| + kernel.hi == |old(kernel.pages)| + old(kernel.hi)
  {
    var r := kernel.Free(v);
  }

  /** Frees the last block, after a live one, together with its pages. */
  method FreeEnd(kernel: Kernel, v: Word)
    requires kernel.Idle() && v in UserMap(kernel.W()) && v in kernel.chunks && Next(kernel.chunks, v) == kernel.end
    requires MergeBoth(kernel.chunks, kernel.order, v) == Merge(kernel.chunks, kernel.order, v)
    requires FreeSafe(kernel.chunks, kernel.order, v, kernel.end)
    modifies kernel, kernel.mem, kernel.pte
    ensures kernel.Idle() && UserMap(kernel.W()) == UserMap(old(kernel.W())) - {v} && kernel.end == v
    ensures |kernel.pages| + kernel.hi == |old(kernel.pages)| + old(kernel.hi)
  {
    OutcomeIsSafe(kernel.chunks, kernel.order, kernel.pages, v, kernel.end);
    var r := kernel.Free(v);
  }

  method FreeFirst(kernel: Kernel, first: Word)
    requires kernel.Idle() && kernel.order == [] && kernel.pages == []
    requires kernel.chunks == ThreeBlocks(first, false) && kernel.end == first + 4128
    modifies kernel, kernel.mem, kernel.pte
    ensures kernel.Idle() && kernel.order == [first] && |kernel.pages| + kernel.hi == old(kernel.hi)
    ensures kernel.chunks == ThreeBlocks(first, true) && kernel.end == old(kernel.end)
    ensures UserMap(kernel.W()) == LastTwo(first)
  {
    LiveIsUsers(kernel.W());
    FirstStep(kernel.chunks, kernel.order, first, kernel.end);
    FreeInside(kernel, first);
  }

  method FreeThird(kernel: Kernel, first: Word, third: Word, ghost b: nat)
    requires kernel.Idle() && kernel.order == [first] && first == PAGE_SIZE * b + 8 && third == first + 32
    requires kernel.chunks == ThreeBlocks(first, true) && kernel.end == first + 4128
    requires UserMap(kernel.W()) == LastTwo(first)
    modifies kernel, kernel.mem, kernel.pte
    ensures kernel.Idle() && |kernel.pages| + kernel.hi == |old(kernel.pages)| + old(kernel.hi) && kernel.end == first + 32
    ensures UserMap(kernel.W()) == map[first + 16 := 8]
  {
    SecondStep(kernel.chunks, first, kernel.end, b);
    FreeEnd(kernel, third);
  }

  method FreeSecond(kernel: Kernel, first: Word, second: Word, ghost b: nat)
    requires kernel.Idle() && kernel.pages != [] && first == kernel.layout.base == PAGE_SIZE * b + 8 && second == first + 16
    requires UserMap(kernel.W()) == map[second := 8] && kernel.end == first + 32
    modifies kernel, kernel.mem, kernel.pte
    ensures kernel.Idle() && |kernel.pages| + kernel.hi == |old(kernel.pages)| + old(kernel.hi) && kernel.end == second
    ensures UserMap(kernel.W()) == map[]
  {
    NodeComesFirst(kernel.layout, kernel.W());
    ThirdStep(kernel.chunks, first, kernel.end, b);
    FreeEnd(kernel, second);
  }
}
