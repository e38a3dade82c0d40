/** What the invariant of the kernel heap means, and where `free` loses it. */
module HeapTheorems {
  import opened Machine
  import opened Heap
  import opened HeapSteps
  import opened FirstFit
  import opened Coalescing
  import opened Frames
  import opened KernelState
  import opened Requests

  /** The chunks, the free set, the end of the heap and the mapped pages are a function of the live blocks. */
  lemma HistoryIndependence(k: Layout, w: World, w': World)
    requires Resting(k, w) && Resting(k, w') && Live(w.c) == Live(w'.c)
    ensures w.c == w'.c && w.end == w'.end && w.hi == w'.hi
    ensures forall a :: a in w.l <==> a in w'.l
    ensures |w.l| == |w'.l|
  {
    LayoutFromLive(w.c, w'.c, k.base, w.top, w'.top);
    SameFreeSet(w.c, w.l, w'.l);
  }

  lemma SameFreeSet(c: Chunks, l: seq<int>, l': seq<int>)
    requires Members(c, l) && Members(c, l')
    ensures forall a :: a in l <==> a in l'
    ensures |l| == |l'|
  {
    var s, s' := set a | a in l, set a | a in l';
    DistinctCount(l);
    DistinctCount(l');
    assert s == s' by {
      forall a ensures a in l <==> a in l' {
        if a in l { assert a in c && c[a].free; }
        if a in l' { assert a in c && c[a].free; }
      }
    }
  }

  lemma {:induction false} DistinctCount(l: seq<int>)
    requires Distinct(l)
    ensures |set a | a in l| == |l|
  {
    if l != [] {
      var r := l[1..];
      assert forall i :: 0 <= i < |r| ==> r[i] == l[i + 1];
      DistinctCount(r);
      assert l[0] !in r;
      assert (set a | a in l) == (set a | a in r) + {l[0]};
    }
  }

  /** Once every block is freed, in any order and after any history, the heap is as `alloc_new_heap` made it. */
  lemma AllFreed(k: Layout, w: World)
    requires Resting(k, w) && Live(w.c) == map[]
    ensures w.c == map[] && w.end == k.base && w.l == [] && w.head == 0 && w.pf == []
    ensures w.hi == k.firstPage + 1
  {
    ListNeedsLive(k, w);
    HeapIsEmpty(k, w);
    FirstPage(k, w);
  }

  lemma HeapIsEmpty(k: Layout, w: World)
    requires Resting(k, w) && Live(w.c) == map[]
    ensures w.c == map[] && w.end == k.base && w.l == [] && w.head == 0
  {
    EmptyWhenAllFreed(w.c, w.l, k.base, w.top);
  }

  lemma FirstPage(k: Layout, w: World)
    requires Resting(k, w) && w.end == k.base
    ensures w.hi == k.firstPage + 1
  {
    PageFacts(k, w);
    OnePage(k.base, k.firstPage, w.hi);
  }

  lemma PageFacts(k: Layout, w: World)
    requires Resting(k, w)
    ensures PAGE_SIZE * k.firstPage <= k.base - 8 < PAGE_SIZE * (k.firstPage + 1) && k.firstPage + 1 <= w.hi
    ensures EndPage(w.end, w.hi) && k.base == 8 * (k.base / 8)
  {
  }

  lemma OnePage(base: int, page: int, hi: int)
    requires PAGE_SIZE * page <= base - 8 < PAGE_SIZE * (page + 1) && page + 1 <= hi && EndPage(base, hi) && base == 8 * (base / 8)
    ensures hi == page + 1
  {
  }

  /** With no block left to a caller, it is so exactly when no freed page is waiting on the page free list, whose nodes are blocks. */
  lemma EmptyWithoutListedPages(k: Layout, w: World)
    requires Resting(k, w) && UserMap(w) == map[]
    ensures w.c == map[] && w.end == k.base <==> w.pf == []
  {
    ListNeedsLive(k, w);
    if w.pf == [] {
      assert Live(w.c) == UserMap(w);
      AllFreed(k, w);
    } else {
      assert Live(w.c) != map[];
    }
  }

  lemma ListNeedsLive(k: Layout, w: World)
    requires Ok(k, w)
    ensures w.pf != [] ==> Live(w.c) != map[]
  {
    assert w.pf != [] ==> w.pf[0] in Live(w.c);
  }

  /** Blocks that callers hold lie inside the heap, 8-byte aligned, and apart from each other. */
  lemma BlocksAreDisjoint(k: Layout, w: World, a: int, b: int)
    requires Ok(k, w) && a in UserMap(w) && b in UserMap(w)
    ensures k.base <= a && a + UserMap(w)[a] + 8 <= w.end && a % 8 == 0
    ensures a < b ==> a + UserMap(w)[a] + 8 <= b
  {
    LiveIsBelow(w.m, w.c, w.l, w.head, k.base, w.top, a);
    ChunksAreAligned(w.c, k.base, w.top, a);
    if a < b { assert Next(w.c, a) <= b; }
  }

  /** The sizes in memory lead from the first chunk through every chunk, in address order, to the end of the heap. */
  lemma WalkCoversHeap(k: Layout, w: World)
    requires Resting(k, w)
    ensures forall a :: a in Walk(w.m, k.base, w.end) <==> a in w.c
    ensures var walk := Walk(w.m, k.base, w.end); forall i, j :: 0 <= i < j < |walk| ==> walk[i] < walk[j]
  {
    WalkVisitsAll(w.m, w.c, k.base, w.top, k.base);
  }

  // ----- Frames -----

  ghost predicate BehindPage(k: Layout, w: World, f: Word, p: int) {
    k.lo <= p < w.hi && 0 <= p < |w.pte| && Present(w.pte[p]) && FrameOf(w.pte[p]) == f
  }

  ghost predicate OnList(w: World, f: Word, i: int) {
    0 <= i < |w.pf| && 0 <= w.pf[i] < |w.m| && w.m[w.pf[i]] == f
  }

  /** Every frame below the frontier is where boot put it, behind one heap page, on the page free list once, or with a caller. */
  lemma FramesConserved(k: Layout, w: World, f: Word)
    requires Ok(k, w) && w.stray == 0 && f % PAGE_SIZE == 0 && f < w.frontier
    ensures (exists p :: BehindPage(k, w, f, p)) || (exists i :: OnList(w, f, i)) || f in HeldFrames(w.owner) || f in FixedFrames(w.owner)
    ensures !((exists p :: BehindPage(k, w, f, p)) && (exists i :: OnList(w, f, i)))
    ensures f in HeldFrames(w.owner) + FixedFrames(w.owner) ==>
      !(exists p :: BehindPage(k, w, f, p)) && !(exists i :: OnList(w, f, i))
    ensures HeldFrames(w.owner) !! FixedFrames(w.owner)
    ensures forall p, q :: BehindPage(k, w, f, p) && BehindPage(k, w, f, q) ==> p == q
    ensures forall i, j :: OnList(w, f, i) && OnList(w, f, j) ==> i == j
  {
    assert f in w.owner;
    assert forall p :: BehindPage(k, w, f, p) ==> w.owner[f] == Mapped(p);
    assert forall i :: OnList(w, f, i) ==> w.owner[f] == Listed(w.pf[i]);
    match w.owner[f]
    case Mapped(p) => assert BehindPage(k, w, f, p);
    case Listed(n) =>
      var i :| 0 <= i < |w.pf| && w.pf[i] == n;
      assert OnList(w, f, i);
    case Held =>
    case Fixed =>
  }

  /** The mapped heap pages are exactly those that overlap the heap from its first page up to `end`. */
  lemma MappedPagesAreHeapPages(k: Layout, w: World, p: int)
    requires Resting(k, w) && k.firstPage <= p < PAGES - 1
    ensures p < |w.pte| && (Present(w.pte[p]) <==> PAGE_SIZE * p < w.end)
  {
  }

  // ----- Where `free` breaks the heap -----

  /** The same memory, page table and variables of `page.c`; and what callers hold, and what boot fixed, they still hold and fix. */
  ghost predicate SameFacts(w: World, w': World) {
    && w'.m == w.m && w'.pte == w.pte && w'.pageHead == w.pageHead && w'.frontier == w.frontier
    && HeldFrames(w.owner) <= HeldFrames(w'.owner) && FixedFrames(w.owner) <= FixedFrames(w'.owner)
  }

  /**
   What `free` leaves behind when it breaks the heap is beyond repair: there are no chunks, lists and places of frames at all with which
   the invariant would hold.
   */
  lemma RuinIsFinal(k: Layout, w: World, w': World)
    requires Ruined(k, w, w.end) && SameFacts(w, w') && w'.end == w.end
    ensures !Resting(k, w')
  {
    if Lost(w, w.end) {
      LostNode(k, w', w.pageHead);
    } else {
      StrayFrame(k, w, w');
    }
  }

  /** No heap that ends at or below a block has that block on its page free list. */
  lemma LostNode(k: Layout, w: World, n: Word)
    requires 0 < n && w.end <= n && (w.pageHead == n || n in w.pf)
    ensures !Resting(k, w)
  {
    if Resting(k, w) {
      HeadIsBelowAll(k, w, n);
    }
  }

  lemma HeadIsBelowAll(k: Layout, w: World, n: Word)
    requires Ok(k, w) && 0 < n && (w.pageHead == n || n in w.pf)
    ensures n in Live(w.c) && n < w.top
  {
    var i :| 0 <= i < |w.pf| && w.pf[i] == n;
    LiveIsBelow(w.m, w.c, w.l, w.head, k.base, w.top, n);
  }

  /** A page free list that names a frame which is accounted for elsewhere cannot be accounted for. */
  lemma StrayFrame(k: Layout, w: World, w': World)
    requires Ok(k, w) && w.stray != 0 && SameFacts(w, w')
    ensures !Resting(k, w')
  {
    if Resting(k, w') {
      SameList(w, w');
      SamePages(k, w, w');
      var i := ListedAt(w, w.stray);
      var f := w.m[w.stray];
      assert f in w.owner ==> (w.owner[f] == Held ==> f in HeldFrames(w.owner)) && (w.owner[f] == Fixed ==> f in FixedFrames(w.owner));
      ListedOnce(k, w', i);
      match w.owner[f]
      case Mapped(p) => MappedOnce(k, w, p); MappedOnce(k, w', p); MappedAt(k, w, f);
      case Listed(o) => var j := ListedAs(w, f); ListedOnce(k, w', j);
      case Held =>
      case Fixed =>
    }
  }

  /** Memory and head determine the page free list. */
  lemma SameList(w: World, w': World)
    requires ListOk(w) && ListOk(w') && w'.m == w.m && w'.pageHead == w.pageHead
    ensures w'.pf == w.pf
  {
    var n := if |w.pf| <= |w'.pf| then |w.pf| else |w'.pf|;
    SamePrefix(w.m, w.pf, w'.pf, w.pageHead, Live(w.c), Live(w'.c), n);
    assert At(w.pf, n) == At(w'.pf, n);
  }

  lemma {:induction false} SamePrefix(m: seq<Word>, pf: seq<int>, pf': seq<int>, head: int, live: map<int, nat>, live': map<int, nat>, n: nat)
    requires PageList(m, pf, head, live) && PageList(m, pf', head, live') && n <= |pf| && n <= |pf'|
    ensures pf[..n] == pf'[..n] && At(pf, n) == At(pf', n)
  {
    if n > 0 {
      SamePrefix(m, pf, pf', head, live, live', n - 1);
      assert PageLinked(m, pf, n - 1) && PageLinked(m, pf', n - 1);
      assert pf[n - 1] == pf'[n - 1];
      assert pf[..n] == pf[..n - 1] + [pf[n - 1]] && pf'[..n] == pf'[..n - 1] + [pf'[n - 1]];
    }
  }

  /** The page table determines where the heap pages end. */
  lemma SamePages(k: Layout, w: World, w': World)
    requires Ok(k, w) && Ok(k, w') && w'.pte == w.pte && w'.frontier == w.frontier
    ensures w'.hi == w.hi && forall f: Word :: f in w'.owner <==> f in w.owner
  {
    PresentBelow(k, w, w'.hi);
    PresentBelow(k, w', w.hi);
  }

  lemma PresentBelow(k: Layout, w: World, p: int)
    requires Ok(k, w) && k.firstPage <= p < PAGES
    ensures |w.pte| == PAGES && k.firstPage < w.hi < PAGES && (p < w.hi ==> Present(w.pte[p])) && (w.hi <= p < PAGES - 1 ==> !Present(w.pte[p]))
    ensures forall f: Word :: f in w.owner <==> f < w.frontier && f % PAGE_SIZE == 0
  {
  }

  lemma ListedAt(w: World, n: int) returns (i: nat)
    requires ListOk(w) && n in w.pf
    ensures i < |w.pf| && w.pf[i] == n && 0 <= n < |w.m|
  {
    i :| 0 <= i < |w.pf| && w.pf[i] == n;
  }

  lemma ListedAs(w: World, f: Word) returns (j: nat)
    requires ListOk(w) && f in w.owner && w.owner[f].Listed?
    ensures j < |w.pf| && w.pf[j] == w.owner[f].node != w.stray && w.m[w.pf[j]] == f
  {
    j :| 0 <= j < |w.pf| && w.pf[j] == w.owner[f].node;
  }

  lemma ListedOnce(k: Layout, w: World, i: int)
    requires Ok(k, w) && w.stray == 0 && 0 <= i < |w.pf|
    ensures 0 <= w.pf[i] < |w.m| && w.m[w.pf[i]] in w.owner && w.owner[w.m[w.pf[i]]] == Listed(w.pf[i])
  {
  }

  lemma MappedOnce(k: Layout, w: World, p: int)
    requires Ok(k, w) && k.lo <= p < w.hi
    ensures 0 <= p < |w.pte| && FrameOf(w.pte[p]) in w.owner && w.owner[FrameOf(w.pte[p])] == Mapped(p)
  {
  }

  lemma MappedAt(k: Layout, w: World, f: Word)
    requires Ok(k, w) && f in w.owner && w.owner[f].Mapped?
    ensures k.lo <= w.owner[f].page < w.hi && 0 <= w.owner[f].page < |w.pte| && FrameOf(w.pte[w.owner[f].page]) == f
  {
  }

  /** A page loop of `n` pages runs to its end exactly if the free list can serve `n` requests of a page list node in a row. */
  lemma PagesNeedService(k: Layout, w: World, v: nat, n: nat)
    requires Ok(k, w) && PageSpan(v, w.end) == PAGE_SIZE * n
    ensures SpanServed(w.c, w.l, v, w.end) <==> w.end % PAGE_SIZE != 0 && CanServe(w.c, w.l, n)
  {
    CapacityIsExact(w.c, w.l, k.base, w.top, n);
  }
}
