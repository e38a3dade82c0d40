/** Requests to `alloc` and the conditions of `free`. */
module Requests {
  import opened Machine
  import opened Heap
  import opened HeapSteps
  import opened FirstFit
  import opened HeapMoves
  import opened HeapStages
  import opened Coalescing
  import opened Frames
  import opened KernelState

  /** What `alloc` comes to: a block, the `die()` branch, or an access to a page that is not mapped. */
  datatype AllocResult = Block(vma: Word) | Died | Faulted

  /**
   What `free` comes to: a heap in order, a heap that is not, or an access to a page that is not mapped. `Adrift` is none of these: it
   stands for a page loop that goes on over a page free list that is no longer sound, which the model does not follow.
   */
  datatype FreeResult = Intact | Broken | Crashed | Adrift

  /** Units of 8 bytes that a request is rounded up to. */
  function Units(bytes: nat): nat {
    if bytes == 0 then 1 else (bytes + 7) / 8
  }

  lemma UnitsRound(bytes: nat)
    ensures 1 <= Units(bytes)
    ensures 8 * Units(bytes) == if bytes != 0 then Align(bytes, 8) else 8
  {
  }

  /** The alignments of the kernel: powers of two from the list node size up to a page. */
  predicate IsAlignment(a: int) {
    a in {8, 16, 32, 64, 128, 256, 512, 1024, 2048, 4096}
  }

  /** The request is served from the free list: minimal alignment, and some node fits. */
  ghost predicate Listable(c: Chunks, l: seq<int>, alignment: int, bytes: nat) {
    alignment == 8 && Search(c, l, 8 * Units(bytes), 0) < |l|
  }

  lemma EndPageIsAlign(end: nat, hi: int)
    requires EndPage(end, hi)
    ensures PAGE_SIZE * hi == Align(end, PAGE_SIZE)
    ensures end % PAGE_SIZE == 0 <==> end == PAGE_SIZE * hi
    ensures end - end % PAGE_SIZE == if end == PAGE_SIZE * hi then end else PAGE_SIZE * (hi - 1)
  {
    if end == PAGE_SIZE * hi {
      DivUnique(end, PAGE_SIZE, hi, 0);
    } else {
      DivUnique(end, PAGE_SIZE, hi - 1, end - PAGE_SIZE * (hi - 1));
    }
  }

  /** The bytes of the pages that `free` unmaps when the heap shrinks from `end` to `v`. */
  function PageSpan(v: nat, end: nat): int {
    Align(end, PAGE_SIZE) - Align(v, PAGE_SIZE)
  }

  /** The page loop of `free` can run from `end` down to `v` without breaking the heap. */
  ghost predicate SpanServed(c: Chunks, l: seq<int>, v: nat, end: nat) {
    end % PAGE_SIZE != 0 && PageSpan(v, end) <= PAGE_SIZE * Capacity(c, l)
  }

  /**
   What the page loop comes to. It makes a request for every page from `end` down to `v`, and `end` on a page boundary costs one more, for
   the page above. As long as the free list serves the requests, that page alone does harm. A request that is not served extends the heap
   at `end`: that faults if the page below `end` is given back by then, and otherwise puts a node where `free` cuts it off.
   */
  ghost function SpanOutcome(c: Chunks, l: seq<int>, pf: seq<int>, v: nat, end: nat): FreeResult {
    var span, served := PageSpan(v, end), PAGE_SIZE * Capacity(c, l);
    if end % PAGE_SIZE != 0 then
      if span <= served then Intact
      else if served == 0 && span == PAGE_SIZE then Broken
      else if served == 0 && end % PAGE_SIZE == PAGE_SIZE - 8 then Adrift
      else Crashed
    else
      if span < served || span == 0 then Broken
      else if served == PAGE_SIZE || (served == 0 && pf != []) then Adrift
      else Crashed
  }

  /** The first page boundary that is not below `v`. */
  lemma PageAbove(v: nat) returns (p: nat)
    ensures EndPage(v, p) && Align(v, PAGE_SIZE) == PAGE_SIZE * p
  {
    p := if v % PAGE_SIZE == 0 then v / PAGE_SIZE else v / PAGE_SIZE + 1;
    EndPageIsAlign(v, p);
  }

  lemma EndRemainder(end: nat, hi: int)
    requires EndPage(end, hi)
    ensures end % PAGE_SIZE == if end == PAGE_SIZE * hi then 0 else end - PAGE_SIZE * (hi - 1)
  {
    if end == PAGE_SIZE * hi {
      DivUnique(end, PAGE_SIZE, hi, 0);
    } else {
      DivUnique(end, PAGE_SIZE, hi - 1, end - PAGE_SIZE * (hi - 1));
    }
  }

  /** The pages of the span, counted. */
  lemma SpanPages(v: nat, end: nat, hi: int) returns (low: nat)
    requires EndPage(end, hi)
    ensures EndPage(v, low) && PageSpan(v, end) == PAGE_SIZE * (hi - low)
    ensures end % PAGE_SIZE == if end == PAGE_SIZE * hi then 0 else end - PAGE_SIZE * (hi - 1)
  {
    low := PageAbove(v);
    EndPageIsAlign(end, hi);
    EndRemainder(end, hi);
  }

  /** A request that is not served, after `given` turns that were. */
  lemma StuckOutcome(c: Chunks, l: seq<int>, pf: seq<int>, v: nat, end: nat, hi0: int, hi: int)
    requires EndPage(end, hi0) && v <= PAGE_SIZE * (hi - 1) && hi < hi0
    requires Capacity(c, l) == hi0 - hi + if end == PAGE_SIZE * hi0 then 1 else 0
    ensures SpanOutcome(c, l, pf, v, end) == Crashed
  {
    var low := SpanPages(v, end, hi0);
  }

  /** A request that is not served in the first turn. */
  lemma LostOutcome(c: Chunks, l: seq<int>, pf: seq<int>, v: nat, end: nat, hi: int, page: int)
    requires EndPage(end, hi) && Capacity(c, l) == 0 && v <= page
    requires page == PAGE_SIZE * if end == PAGE_SIZE * hi then hi else hi - 1
    ensures SpanOutcome(c, l, pf, v, end) ==
      if page - PAGE_SIZE < v then Broken
      else if end == PAGE_SIZE * hi - 8 || (end == PAGE_SIZE * hi && pf != []) then Adrift
      else Crashed
  {
    var low := SpanPages(v, end, hi);
  }

  /** A request that is not served in the second turn, after one for the page above the heap. */
  lemma AliasOutcome(c: Chunks, l: seq<int>, pf: seq<int>, v: nat, end: nat, hi: int)
    requires end == PAGE_SIZE * hi && Capacity(c, l) == 1 && v <= PAGE_SIZE * (hi - 1)
    ensures SpanOutcome(c, l, pf, v, end) == Adrift
  {
    var low := SpanPages(v, end, hi);
  }

  /** All requests are served. */
  lemma ServedOutcome(c: Chunks, l: seq<int>, pf: seq<int>, v: nat, end: nat, hi0: int, hi: int)
    requires EndPage(end, hi0) && EndPage(v, hi) && hi0 - hi + (if end == PAGE_SIZE * hi0 then 1 else 0) <= Capacity(c, l)
    ensures SpanOutcome(c, l, pf, v, end) == if end % PAGE_SIZE == 0 then Broken else Intact
  {
    EndPageIsAlign(end, hi0);
    EndPageIsAlign(v, hi);
  }

  /**
   `free` of the block at `v` leaves the heap intact: either the merged block is not the last one, or `end`
   is inside a page and the free list can serve one 8-byte request for each page given back.
   */
  ghost predicate FreeSafe(c: Chunks, l: seq<int>, v: int, end: nat)
    requires v in c
  {
    var g := MergeBoth(c, l, v);
    g.v in g.c && 0 <= g.v && (Next(g.c, g.v) == end ==> SpanServed(g.c - {g.v}, g.l, g.v, end))
  }

  /** The page free list starts at a block that `free` cuts off, on a page that it has just unmapped. */
  ghost predicate Lost(w: World, v: int) {
    true == (
      && 0 < w.pageHead && v <= w.pageHead
      && w.pageHead / PAGE_SIZE < |w.pte| && !Present(w.pte[w.pageHead / PAGE_SIZE])
    )
  }

  /** What `free` leaves behind when it breaks the heap: such a list, or one that records a frame which is in use. */
  ghost predicate Ruined(k: Layout, w: World, v: int) {
    Lost(w, v) || (Ok(k, w) && w.stray != 0)
  }

  /** What `free` of the block at `v` comes to, in a heap at rest. */
  ghost function FreeOutcome(c: Chunks, l: seq<int>, pf: seq<int>, v: int, end: nat): FreeResult
    requires v in c
  {
    var g := MergeBoth(c, l, v);
    if g.v in g.c && 0 <= g.v then (if Next(g.c, g.v) == end then SpanOutcome(g.c - {g.v}, g.l, pf, g.v, end) else Intact) else Broken
  }

  // ----- page_free -----

  /** The first node of the page free list names the frame of page `p`, which is not mapped any more. */
  ghost predicate PageRecorded(w: World, w': World, p: int) {
    true == (
      && 0 <= p < |w.pte| == |w'.pte| && !Present(w'.pte[p]) && FrameOf(w'.pte[p]) == FrameOf(w.pte[p])
      && w'.pf != [] && 0 <= w'.pf[0] < |w'.m| && w'.m[w'.pf[0]] == FrameOf(w.pte[p])
    )
  }

  /** One turn of the page loop of `free`. */
  ghost predicate LoopStep(w: World, w': World, page: int) {
    true == (
      && w'.top == w.top && w'.end == w.end && w'.frontier == w.frontier
      && Capacity(w'.c, w'.l) == Capacity(w.c, w.l) - 1 && |w'.pf| == |w.pf| + 1
      && (if page == PAGE_SIZE * w.hi then w'.hi == w.hi && w'.stray != 0 else w'.hi == w.hi - 1 && w'.stray == w.stray)
    )
  }

  lemma PageNumber(page: int, p: int)
    requires page == PAGE_SIZE * p && 0 <= page
    ensures page / PAGE_SIZE == p
  {
    DivUnique(page, PAGE_SIZE, p, 0);
  }

  /** A node in the heap is neither on a page below the heap nor on one that `free` gives back. */
  lemma NodeIsElsewhere(k: Layout, w: World, node: Word, p: int)
    requires Ok(k, w) && node in Live(w.c) && (0 <= p < k.firstPage || w.top <= PAGE_SIZE * p)
    ensures node / PAGE_SIZE != p && k.base <= node && node + 16 <= w.top <= PAGE_SIZE * w.hi
  {
    LiveIsBelow(w.m, w.c, w.l, w.head, k.base, w.top, node);
    assert PAGE_SIZE * (node / PAGE_SIZE) <= node < PAGE_SIZE * (node / PAGE_SIZE + 1);
  }

  lemma NotQuiteWhole(w: World)
    requires Shrunk(w) && EndPage(w.end, w.hi)
    ensures w.end == PAGE_SIZE * w.hi || w.end == PAGE_SIZE * w.hi - 8 || w.end + 16 <= PAGE_SIZE * w.hi
  {
  }

  /** The node that growth in the page loop of `free` hands out is on the page that is then unmapped. */
  lemma NodeIsLost(k: Layout, w: World, w1: World, w2: World, node: Word, p: int)
    requires Ok(k, w) && node == w.end && EndPage(w.end, w.hi)
    requires if w.end == PAGE_SIZE * w.hi then p == w.hi else p == w.hi - 1
    requires |w1.pte| == PAGES && 0 <= p < PAGES && w2.pte == Recorded(w1, p, node).pte && w2.pageHead == node
    ensures node / PAGE_SIZE == p && Lost(w2, w.end)
  {
    DivUnique(node, PAGE_SIZE, p, node - PAGE_SIZE * p);
    Unmapped(w1.pte[p]);
  }

  /** Even so, the node is not inside any block. */
  lemma LostKeepsUsers(k: Layout, w: World, w1: World, w2: World, node: Word, p: int)
    requires Ok(k, w) && node == w.end && w.top < w.end && SameForUsers(w, w1) && |w1.m| == WORD_LIMIT
    requires 0 <= p < |w1.pte| && w2.m == Recorded(w1, p, node).m
    ensures Preserved(w.m, w2.m, UserMap(w))
  {
    forall a, x | a in UserMap(w) && 0 <= x < |w.m| && a <= x < a + UserMap(w)[a] ensures w2.m[x] == w.m[x] {
      LiveIsBelow(w.m, w.c, w.l, w.head, k.base, w.top, a);
    }
  }

  lemma Unmapped(e: Word)
    ensures !Present(e - e % 2) && FrameOf(e - e % 2) == FrameOf(e)
  {
    DivUnique(e - e % 2, PAGE_SIZE, e / PAGE_SIZE, e % PAGE_SIZE - e % 2);
  }

  lemma RecordedIs(k: Layout, w: World, w1: World, w3: World, p: int, node: Word)
    requires 0 <= p < |w1.pte| == |w.pte| && w1.pte[p] == w.pte[p] && w3 == Accounted(k, w1, p, node)
    requires 0 <= node && node + 8 <= |w1.m|
    ensures PageRecorded(w, w3, p)
  {
    Unmapped(w1.pte[p]);
  }

  /** `page_free` has been given a block of the heap as its node. */
  ghost predicate GotNode(k: Layout, w: World, w1: World, node: Word) {
    true == (
      && (if w.top == w.end then Resting(k, w) && Resting(k, w1) && (ServedFirst(w, w1, node, 1) || Extended(w, w1, node, 8))
          else CutOff(k, w) && CutOff(k, w1) && ServedFirst(w, w1, node, 1))
      && node !in Live(w.c) && UserMap(w1) == UserMap(w)[node := 8] && Preserved(w.m, w1.m, UserMap(w))
    )
  }

  /** `page_free` has been given memory at the end of a heap that is about to be cut off. */
  ghost predicate GotEnd(k: Layout, w: World, w1: World, node: Word) {
    true == (
      && CutOff(k, w) && w.stray == 0 && EndPage(w.end, w.hi) && node == w.end
      && Reserved(k, w1) && w1.end == w.end + 16 && EndPage(w1.end, w1.hi) && SameForUsers(w, w1)
      && w1.top == w.top && (w.pf == [] || w1.hi == w.hi ==> SameChunks(w, w1))
    )
  }

  /** The page that `page_free` is called for: one of boot, or the next one of the page loop of `free`. */
  ghost predicate Freeable(k: Layout, w: World, page: int, p: int) {
    true == (
      && page == PAGE_SIZE * p && 0 <= p < PAGES - 1 && |w.pte| == PAGES
      && (if w.top == w.end then Resting(k, w) && p < k.firstPage && FrameOf(w.pte[p]) in FixedFrames(w.owner)
          else CutOff(k, w) && w.top <= page && k.firstPage <= p && p == if w.end == PAGE_SIZE * w.hi && w.stray == 0 then w.hi else w.hi - 1)
    )
  }

  /** What `page_free` has done for it. */
  ghost predicate Freed(k: Layout, w: World, w': World, page: int, p: int) {
    true == (
      && UserMap(w') == UserMap(w) && HeldFrames(w'.owner) == HeldFrames(w.owner) && Preserved(w.m, w'.m, UserMap(w))
      && PageRecorded(w, w', p)
      && (if w.top == w.end then Resting(k, w') else CutOff(k, w') && LoopStep(w, w', page))
    )
  }

  lemma PageFreed(k: Layout, w: World, w1: World, w': World, page: int, p: int, node: Word)
    requires Freeable(k, w, page, p) && GotNode(k, w, w1, node) && |w1.pte| == PAGES && 0 <= p < PAGES && w' == Accounted(k, w1, p, node)
    ensures Freed(k, w, w', page, p)
  {
    if w.top == w.end {
      RestRecord(k, w, w1, w', p, node);
    } else {
      LoopRecord(k, w, w1, w', page, p, node);
    }
  }

  /** The next request cannot be served, and the descriptor to be written is on a page that is not mapped. */
  ghost predicate NextFaults(w: World) {
    true == (
      && !Listable(w.c, w.l, 8, 8)
      && 4 <= w.end && (w.end - 4) / PAGE_SIZE < |w.pte| && !Present(w.pte[(w.end - 4) / PAGE_SIZE])
    )
  }

  /**
   The page free list has come to start at the end of the heap `w`, on page `p`, which is unmapped. If the heap did not grow into a new
   page in the same turn, or did and that page is `p` and came from the frontier, the next turn will fault.
   */
  ghost predicate ListLost(k: Layout, w: World, w': World, p: int) {
    true == (
      && HeapOk(k, w') && w'.top == w.top && w'.end == w.end + 16 && w'.hi == p && Lost(w', w.end) && |w'.pte| == PAGES
      && (w.end + 16 <= PAGE_SIZE * w.hi || (w.end == PAGE_SIZE * w.hi && w.pf == []) ==> NextFaults(w'))
    )
  }

  lemma PageLost(k: Layout, w: World, w1: World, w2: World, page: int, p: int, node: Word)
    requires Freeable(k, w, page, p) && GotEnd(k, w, w1, node) && |w1.pte| == PAGES && 0 <= p < PAGES && !Listable(w.c, w.l, 8, 8)
    requires w2 == Recorded(w1, p, node).(hi := p)
    ensures ListLost(k, w, w2, p) && Preserved(w.m, w2.m, UserMap(w))
  {
    NodeIsLost(k, w, w1, w2, node, p);
    WholeMemory(k, w1);
    LostKeepsUsers(k, w, w1, w2, node, p);
    LostKeepsHeap(k, w, w1, w2, page, p, node);
    if w.end + 16 <= PAGE_SIZE * w.hi || (w.end == PAGE_SIZE * w.hi && w.pf == []) {
      NextIsLost(w, w1, w2, p);
    }
  }

  lemma NotBoth(k: Layout, w: World, w1: World, node: Word)
    ensures !(GotNode(k, w, w1, node) && GotEnd(k, w, w1, node))
  {
  }

  lemma LostKeepsHeap(k: Layout, w: World, w1: World, w2: World, page: int, p: int, node: Word)
    requires Freeable(k, w, page, p) && GotEnd(k, w, w1, node) && |w1.pte| == PAGES && 0 <= p < PAGES
    requires w2 == Recorded(w1, p, node).(hi := p)
    ensures HeapOk(k, w2)
  {
    CoreIsLocal(w1.m, w2.m, w1.c, w1.l, w1.head, k.base, w1.top);
  }

  lemma NextIsLost(w: World, w1: World, w2: World, p: int)
    requires EndPage(w.end, w.hi) && !Listable(w.c, w.l, 8, 8) && EndPage(w1.end, w1.hi) && w1.end == w.end + 16 && |w1.pte| == PAGES && 0 <= w.end
    requires w.pf == [] || w1.hi == w.hi ==> SameChunks(w, w1)
    requires if w.end == PAGE_SIZE * w.hi then w.pf == [] && p == w.hi else w.end + 16 <= PAGE_SIZE * w.hi && p == w.hi - 1
    requires 0 <= p < PAGES && w2.pte == w1.pte[p := w1.pte[p] - w1.pte[p] % 2] && w2.c == w1.c && w2.l == w1.l && w2.end == w1.end
    ensures NextFaults(w2)
  {
    Unmapped(w1.pte[p]);
    DivUnique(w1.end - 4, PAGE_SIZE, p, w1.end - 4 - PAGE_SIZE * p);
  }

  lemma WholeMemory(k: Layout, w: World)
    requires Ok(k, w)
    ensures |w.m| == WORD_LIMIT && |w.pte| == PAGES && PAGE_SIZE * w.hi <= WORD_LIMIT && 8 <= k.base <= w.top
  {
  }

  /** The node is on a mapped page. It is on the page that is freed exactly if it lies at the end. */
  lemma NodeIsMapped(k: Layout, w: World, w1: World, page: int, p: int, node: Word)
    requires Freeable(k, w, page, p) && (GotNode(k, w, w1, node) || GotEnd(k, w, w1, node))
    ensures |w1.m| == WORD_LIMIT && |w1.pte| == PAGES && k.base <= node && node + 8 <= PAGE_SIZE * w1.hi <= WORD_LIMIT
    ensures if node / PAGE_SIZE == p then GotEnd(k, w, w1, node) else GotNode(k, w, w1, node)
  {
    if GotEnd(k, w, w1, node) {
      EndIsMapped(k, w, w1, page, p, node);
    } else {
      BlockIsMapped(k, w, w1, page, p, node);
    }
  }

  lemma EndIsMapped(k: Layout, w: World, w1: World, page: int, p: int, node: Word)
    requires Freeable(k, w, page, p) && GotEnd(k, w, w1, node)
    ensures |w1.m| == WORD_LIMIT && |w1.pte| == PAGES && k.base <= node && node + 8 <= PAGE_SIZE * w1.hi <= WORD_LIMIT
    ensures node / PAGE_SIZE == p
  {
    EndIsReachable(k, w);
    EndIsReachable(k, w1);
    WholeMemory(k, w1);
    DivUnique(node, PAGE_SIZE, p, node - PAGE_SIZE * p);
  }

  lemma BlockIsMapped(k: Layout, w: World, w1: World, page: int, p: int, node: Word)
    requires Freeable(k, w, page, p) && GotNode(k, w, w1, node)
    ensures |w1.m| == WORD_LIMIT && |w1.pte| == PAGES && k.base <= node && node + 8 <= PAGE_SIZE * w1.hi <= WORD_LIMIT
    ensures node / PAGE_SIZE != p
  {
    GotNodeFacts(k, w, w1, page, p, node);
    WholeMemory(k, w1);
    NodeIsElsewhere(k, w1, node, p);
  }

  lemma GotNodeFacts(k: Layout, w: World, w1: World, page: int, p: int, node: Word)
    requires Freeable(k, w, page, p) && GotNode(k, w, w1, node)
    ensures Ok(k, w1) && node in Live(w1.c) && (0 <= p < k.firstPage || w1.top <= PAGE_SIZE * p)
  {
    assert node in UserMap(w1);
  }

  /** A turn of the loop, with a request that is served. */
  lemma LoopRecord(k: Layout, w: World, w1: World, w3: World, page: int, p: int, node: Word)
    requires CutOff(k, w) && CutOff(k, w1) && ServedFirst(w, w1, node, 1) && page == PAGE_SIZE * p && w.top <= page
    requires node !in Live(w.c) && UserMap(w1) == UserMap(w)[node := 8] && Preserved(w.m, w1.m, UserMap(w))
    requires p == w.hi - 1 || (p == w.hi < PAGES - 1 && w.stray == 0)
    requires k.firstPage <= p < |w1.pte| == |w.pte| == PAGES && w3 == Accounted(k, w1, p, node)
    ensures CutOff(k, w3) && LoopStep(w, w3, page) && PageRecorded(w, w3, p)
    ensures UserMap(w3) == UserMap(w) && HeldFrames(w3.owner) == HeldFrames(w.owner) && Preserved(w.m, w3.m, UserMap(w))
  {
    assert node in UserMap(w1);
    LiveIsBelow(w1.m, w1.c, w1.l, w1.head, k.base, w1.top, node);
    RecordedIs(k, w, w1, w3, p, node);
    if p == w.hi {
      StrayRecord(k, w1, w3, p, node);
    } else {
      HeapRecord(k, w1, w3, p, node);
    }
    RecordedUsers(w, w1, w3, node);
    LoopCounts(k, w, w1, w3, page, p, node);
  }

  lemma StrayRecord(k: Layout, w: World, w': World, p: int, node: Word)
    requires CutOff(k, w) && w.stray == 0 && node in UserMap(w) && p == w.hi < PAGES - 1 && |w.pte| == PAGES
    requires w' == Accounted(k, w, p, node)
    ensures CutOff(k, w') && node != 0 && w'.stray == node
    ensures UserMap(w') == UserMap(w) - {node} && w'.owner == w.owner && Preserved(w.m, w'.m, UserMap(w) - {node})
  {
    NotMapped(k, w, p);
    StrayStep(k, w, w', node, FrameOf(w.pte[p]));
  }

  lemma HeapRecord(k: Layout, w: World, w': World, p: int, node: Word)
    requires CutOff(k, w) && node in UserMap(w) && p == w.hi - 1 && w.top <= PAGE_SIZE * p && 0 <= p < |w.pte|
    requires w' == Accounted(k, w, p, node)
    ensures CutOff(k, w') && HeldFrames(w'.owner) == HeldFrames(w.owner)
    ensures UserMap(w') == UserMap(w) - {node} && Preserved(w.m, w'.m, UserMap(w) - {node})
  {
    AboveFirst(k, w, p);
    AccountedIsGivenBack(k, w, p, node);
    RecordStep(k, w, w', node, p);
  }

  lemma AccountedIsGivenBack(k: Layout, w: World, p: int, node: Word)
    requires k.firstPage <= p == w.hi - 1 && 0 <= p < |w.pte|
    ensures Accounted(k, w, p, node) == GivenBack(w, p, node)
  {
  }

  lemma LoopCounts(k: Layout, w: World, w1: World, w3: World, page: int, p: int, node: Word)
    requires CutOff(k, w) && ServedFirst(w, w1, node, 1) && page == PAGE_SIZE * p && 0 <= p < |w1.pte|
    requires w3 == Accounted(k, w1, p, node) && (p == w.hi ==> node != 0) && (p == w.hi - 1 ==> k.firstPage <= p) && p <= w.hi
    requires p == w.hi - 1 || p == w.hi
    ensures LoopStep(w, w3, page)
  {
    ServedCapacity(k, w, w1, node);
  }

  /** The page that the loop has come to is one of the heap, or the one right above it. */
  lemma LoopPage(k: Layout, w: World, p: int)
    requires Ok(k, w) && w.top <= PAGE_SIZE * p <= w.end && (p == w.hi - 1 || p == w.hi)
    ensures k.firstPage <= p < PAGES - 1 && |w.pte| == PAGES
  {
  }

  lemma NotMapped(k: Layout, w: World, p: int)
    requires Ok(k, w) && p == w.hi < PAGES - 1
    ensures |w.pte| == PAGES && w.pte[p := w.pte[p] - w.pte[p] % 2] == w.pte
  {
    AboveHeap(k, w, p);
  }

  lemma AboveFirst(k: Layout, w: World, p: int)
    requires Ok(k, w) && w.top <= PAGE_SIZE * p
    ensures k.firstPage <= p
  {
  }

  /** The same at rest, for a page that boot mapped. */
  lemma RestRecord(k: Layout, w: World, w1: World, w3: World, p: int, node: Word)
    requires Resting(k, w) && Resting(k, w1) && (ServedFirst(w, w1, node, 1) || Extended(w, w1, node, 8))
    requires UserMap(w1) == UserMap(w)[node := 8] && node !in Live(w.c) && Preserved(w.m, w1.m, UserMap(w))
    requires 0 <= p < k.firstPage && p < |w.pte| == |w1.pte| && FrameOf(w.pte[p]) in FixedFrames(w.owner)
    requires w3 == Accounted(k, w1, p, node)
    ensures Resting(k, w3) && PageRecorded(w, w3, p)
    ensures UserMap(w3) == UserMap(w) && HeldFrames(w3.owner) == HeldFrames(w.owner) && Preserved(w.m, w3.m, UserMap(w))
  {
    assert node in UserMap(w1);
    BelowHeap(k, w, p);
    RestSame(w, w1, node, p);
    BelowHeap(k, w1, p);
    NodeInHeap(k, w1, node);
    RecordedIs(k, w, w1, w3, p, node);
    GiveUpPage(k, w1, w3, p, node);
    RecordedUsers(w, w1, w3, node);
  }

  lemma RestSame(w: World, w1: World, node: Word, p: int)
    requires ServedFirst(w, w1, node, 1) || Extended(w, w1, node, 8)
    requires 0 <= p < w.hi && p < |w.pte|
    ensures p < |w1.pte| && w1.pte[p] == w.pte[p] && HeldFrames(w1.owner) == HeldFrames(w.owner) && FixedFrames(w1.owner) == FixedFrames(w.owner)
  {
  }

  lemma NodeInHeap(k: Layout, w: World, node: Word)
    requires Ok(k, w) && node in UserMap(w)
    ensures |w.m| == WORD_LIMIT && 0 <= node && node + 16 <= w.top <= WORD_LIMIT
  {
    LiveIsBelow(w.m, w.c, w.l, w.head, k.base, w.top, node);
  }

  lemma GiveUpPage(k: Layout, w: World, w': World, p: int, node: Word)
    requires Resting(k, w) && node in UserMap(w) && 0 <= p < k.firstPage && p < w.hi && p < |w.pte|
    requires FrameOf(w.pte[p]) in FixedFrames(w.owner) && w' == Accounted(k, w, p, node)
    ensures Resting(k, w') && UserMap(w') == UserMap(w) - {node} && HeldFrames(w'.owner) == HeldFrames(w.owner)
    ensures Preserved(w.m, w'.m, UserMap(w) - {node})
  {
    NodeInHeap(k, w, node);
    GiveUpStep(k, w, w', node, p, FrameOf(w.pte[p]));
  }

  lemma BelowHeap(k: Layout, w: World, p: int)
    requires Ok(k, w) && p < k.firstPage
    ensures p < w.hi && |w.pte| == PAGES
  {
  }

  lemma EndIsReachable(k: Layout, w: World)
    requires Ok(k, w) && EndPage(w.end, w.hi)
    ensures w.end <= PAGE_SIZE * w.hi <= WORD_LIMIT && |w.m| == WORD_LIMIT && 8 <= k.base <= w.top
  {
    PageBound(w.end, w.hi);
  }

  lemma PageBound(end: int, hi: int)
    requires EndPage(end, hi) && end <= HEAP_LIMIT
    ensures PAGE_SIZE * hi <= HEAP_LIMIT
  {
  }

  /** Growth starts at an end that is 8-byte aligned, with only the alignment that was asked for in between. */
  lemma GrowthEnd(k: Layout, w: World, alignment: nat)
    requires Resting(k, w) || (CutOff(k, w) && alignment == 8)
    requires IsAlignment(alignment)
    ensures var a := Align(w.end, alignment);
      && a % alignment == 0 && w.end <= a && (a - w.end) % 8 == 0 && (alignment == 8 ==> a == w.end)
    ensures Resting(k, w) ==> Align(w.end, alignment) <= PAGE_SIZE * w.hi && forall b :: b in Live(w.c) ==> b < w.end
  {
    if Resting(k, w) {
      AlignedEnd(k, w, alignment);
      TopIsAligned(w.c, k.base, w.top);
    }
  }

  lemma NewBlockLayout(c: Chunks, c': Chunks, base: int, top: int, top': int, u: nat)
    requires Tiling(c, base, top) && Coalesced(c) && top !in c && 1 <= u
    requires top' == top + 8 * u + 8 && c' == c[top := Chunk(u, false)]
    ensures Coalesced(c') && LastLive(c', top') && Live(c') == Live(c)[top := 8 * u]
  {
    assert Next(c', top) == top';
    assert forall a :: a in c' && c'[a].free ==> a in c && Next(c', a) == Next(c, a) <= top;
  }

  /** `n` frames have been drawn between the two states: from the page free list while it lasts, then from the frontier. */
  ghost predicate FramesDrawn(w: World, w': World, n: int) {
    if 0 <= n <= |w.pf| then w'.pf == w.pf[n..] && w'.frontier == w.frontier
    else w'.pf == [] && w'.frontier == w.frontier + PAGE_SIZE * (n - |w.pf|)
  }

  /** The first fitting node `n` has served a request for `u` units, and nothing else has changed. */
  ghost predicate ServedFirst(w: World, w': World, n: int, u: nat) {
    var k := Search(w.c, w.l, 8 * u, 0);
    && k < |w.l| && n == w.l[k] && n in w.c && Fits(w.c[n].Size(), 8 * u)
    && w' == w.(m := w'.m, head := w'.head, c := ServeChunks(w.c, n, u), l := ServeList(w.c, w.l, k, u))
  }

  /** A live block of `bytes` at `n` has been added for a caller. */
  ghost predicate AddsBlock(w: World, w': World, n: int, bytes: nat) {
    true == (n !in Live(w.c) && UserMap(w') == UserMap(w)[n := bytes] && Preserved(w.m, w'.m, UserMap(w)))
  }

  /** The cases of `alloc` for `bytes`, rounded up to `size`. */
  ghost predicate AllocCase(k: Layout, w: World, w': World, alignment: nat, bytes: nat, size: nat, r: AllocResult)
    requires alignment > 0
  {
    true == (
      if Listable(w.c, w.l, alignment, bytes) then
        r.Block? && ServedFirst(w, w', r.vma, Units(bytes)) && AddsBlock(w, w', r.vma, size) && r.vma % 8 == 0
        && (if w.top == w.end then Resting(k, w') else CutOff(k, w'))
      else if !EndPage(w.end, w.hi) then r == Faulted
      else if Align(w.end, alignment) - w.end == 8 then r == Died
      else r.Block? && r.vma == Align(w.end, alignment) && Grown(k, w, w', r.vma, size)
    )
  }

  lemma ListCase(k: Layout, w: World, w': World, n: Word, bytes: nat, size: nat)
    requires Resting(k, w) || CutOff(k, w)
    requires Listable(w.c, w.l, 8, bytes) && ServedFirst(w, w', n, Units(bytes)) && AddsBlock(w, w', n, size)
    requires Ok(k, w') && LastLive(w'.c, w'.top)
    ensures AllocCase(k, w, w', 8, bytes, size, Block(n))
  {
    ListBlockAligned(k, w, n);
    if w.top != w.end {
      StillShrunk(w, w');
    }
  }

  lemma StillShrunk(w: World, w': World)
    requires Shrunk(w) && w'.end == w.end && w'.hi == w.hi
    ensures Shrunk(w')
  {
  }

  lemma AllocFacts(k: Layout, w: World, w': World, alignment: nat, bytes: nat, size: nat, r: AllocResult)
    requires Resting(k, w) || (CutOff(k, w) && alignment == 8)
    requires IsAlignment(alignment) && AllocCase(k, w, w', alignment, bytes, size, r)
    ensures r == Faulted <==> !EndPage(w.end, w.hi) && !Listable(w.c, w.l, alignment, bytes)
    ensures r == Died <==> EndPage(w.end, w.hi) && !Listable(w.c, w.l, alignment, bytes) && Align(w.end, alignment) - w.end == 8
    ensures r.Block? && w.top == w.end ==> Resting(k, w') && AddsBlock(w, w', r.vma, size) && r.vma % alignment == 0
    ensures r.Block? ==> Preserved(w.m, w'.m, UserMap(w))
    ensures r.Block? && Listable(w.c, w.l, alignment, bytes) ==>
      ServedFirst(w, w', r.vma, Units(bytes)) && AddsBlock(w, w', r.vma, size) && (w.top == w.end || CutOff(k, w'))
    ensures r.Block? && !Listable(w.c, w.l, alignment, bytes) ==>
      r.vma == Align(w.end, alignment) && Grown(k, w, w', r.vma, size)
  {
    GrowthEnd(k, w, alignment);
    if r.Block? && !Listable(w.c, w.l, alignment, bytes) {
      GrownFacts(k, w, w', r.vma, size);
    }
  }

  // ----- alloc, by sizes alone -----

  /** `n` is `bytes` rounded up: the least positive multiple of 8 that is not below it. */
  ghost predicate RoundedUp(bytes: nat, n: int) {
    n % 8 == 0 && 8 <= n && bytes <= n && (n == 8 || n - 8 < bytes)
  }

  /** A chunk of `size` can hold `n` bytes: exactly, or with room for a descriptor and the smallest chunk. */
  ghost predicate Enough(size: int, n: int) {
    size == n || n + 16 <= size
  }

  /** The `i`-th node of the free list is the first that can hold `n` bytes. */
  ghost predicate FirstEnough(c: Chunks, l: seq<int>, n: int, i: int) {
    true == (
      && 0 <= i < |l| && l[i] in c && Enough(c[l[i]].Size(), n)
      && forall j :: 0 <= j < i && l[j] in c ==> !Enough(c[l[j]].Size(), n)
    )
  }

  /** No free chunk can. */
  ghost predicate NoneEnough(c: Chunks, n: int) {
    true == (forall a :: a in c && c[a].free ==> !Enough(c[a].Size(), n))
  }

  /** The front of chunk `a`, the `i`-th of the free list, is a live block of `n` bytes; what is left of it takes its place in the list. */
  ghost predicate ChunkUsed(w: World, w': World, a: int, i: int, n: int) {
    true == (
      && 0 <= i < |w.l| && a in w.c && 8 <= n
      && w' == w.(m := w'.m, head := w'.head, c := w'.c, l := w'.l)
      && (w.c[a].Size() == n ==> w'.c == w.c[a := Chunk(n / 8, false)] && w'.l == w.l[..i] + w.l[i + 1..])
      && (w.c[a].Size() != n ==> n + 16 <= w.c[a].Size() && w'.l == w.l[i := a + n + 8])
      && (n + 16 <= w.c[a].Size() ==> w'.c == w.c[a := Chunk(n / 8, false)][a + n + 8 := Chunk((w.c[a].Size() - n - 8) / 8, true)])
    )
  }

  /** What sizes decide: with the least alignment, the first chunk that can hold the block, and otherwise the end of the heap. */
  ghost predicate BySize(w: World, w': World, alignment: nat, n: int, r: AllocResult) {
    true == (
      && (NoneEnough(w.c, n) || exists i :: FirstEnough(w.c, w.l, n, i))
      && (alignment == 8 ==> forall i :: FirstEnough(w.c, w.l, n, i) ==> r.Block? && r.vma == w.l[i] && ChunkUsed(w, w', w.l[i], i, n))
      && (alignment == 8 && NoneEnough(w.c, n) ==> r == Block(w.end) && w'.end == w.end + n + 8)
      && (alignment > 8 ==> r == Died || (r.Block? && w.end <= r.vma < w.end + alignment && r.vma % alignment == 0 && w'.end == r.vma + n + 8))
    )
  }

  lemma SizesDecide(k: Layout, w: World, w': World, alignment: nat, bytes: nat, n: nat, r: AllocResult)
    requires Resting(k, w) && IsAlignment(alignment) && RoundedUp(bytes, n) && AllocCase(k, w, w', alignment, bytes, n, r)
    ensures BySize(w, w', alignment, n, r)
  {
    UnitsAreRounded(bytes, n);
    GrowthEnd(k, w, alignment);
    FirstOrNone(k, w, n);
    ListInChunks(k, w);
    if alignment == 8 {
      forall i | FirstEnough(w.c, w.l, n, i) ensures r.Block? && r.vma == w.l[i] && ChunkUsed(w, w', w.l[i], i, n) {
        FirstServes(k, w, w', bytes, n, i, r);
      }
      if NoneEnough(w.c, n) {
        NoneServes(k, w, bytes, n);
        GrownEnd(k, w, w', alignment, bytes, n, r);
      }
    } else {
      AlignIsLeast(w.end, alignment);
      GrownEnd(k, w, w', alignment, bytes, n, r);
    }
  }

  lemma AllSizesDecide(k: Layout, w: World, w': World, alignment: nat, bytes: nat, r: AllocResult)
    requires IsAlignment(alignment) && AllocCase(k, w, w', alignment, bytes, 8 * Units(bytes), r)
    ensures Resting(k, w) ==> forall n :: RoundedUp(bytes, n) ==> BySize(w, w', alignment, n, r)
  {
    if Resting(k, w) {
      forall n | RoundedUp(bytes, n) ensures BySize(w, w', alignment, n, r) {
        UnitsAreRounded(bytes, n);
        SizesDecide(k, w, w', alignment, bytes, n, r);
      }
    }
  }

  lemma UnitsAreRounded(bytes: nat, n: nat)
    requires RoundedUp(bytes, n)
    ensures n == 8 * Units(bytes)
  {
  }

  lemma FitsIsEnough(c: Chunk, n: nat)
    requires n % 8 == 0
    ensures Fits(c.Size(), n) <==> Enough(c.Size(), n)
  {
  }

  lemma FirstServes(k: Layout, w: World, w': World, bytes: nat, n: nat, i: int, r: AllocResult)
    requires InChunks(w.c, w.l) && n % 8 == 0 && n == 8 * Units(bytes) && FirstEnough(w.c, w.l, n, i) && AllocCase(k, w, w', 8, bytes, n, r)
    ensures r.Block? && r.vma == w.l[i] && ChunkUsed(w, w', w.l[i], i, n)
  {
    FirstIsFound(w.c, w.l, n, i);
    FoundServes(k, w, w', bytes, n, i, r);
    ChunkIsUsed(w, w', w.l[i], i, n, Units(bytes));
  }

  lemma FoundServes(k: Layout, w: World, w': World, bytes: nat, n: nat, i: int, r: AllocResult)
    requires n == 8 * Units(bytes) && Search(w.c, w.l, n, 0) == i && 0 <= i < |w.l| && AllocCase(k, w, w', 8, bytes, n, r)
    ensures r.Block? && r.vma == w.l[i] && ServedFirst(w, w', w.l[i], Units(bytes)) && 1 <= Units(bytes)
  {
    UnitsRound(bytes);
  }

  lemma FirstIsFound(c: Chunks, l: seq<int>, n: nat, i: int)
    requires InChunks(c, l) && n % 8 == 0 && FirstEnough(c, l, n, i)
    ensures 0 <= i < |l| && Search(c, l, n, 0) == i
  {
    FitsIsEnough(c[l[i]], n);
    forall j | 0 <= j < i ensures !Fits(c[l[j]].Size(), n) {
      FitsIsEnough(c[l[j]], n);
    }
    SearchFindsFirst(c, l, n, 0, i);
  }

  lemma FirstOrNone(k: Layout, w: World, n: nat)
    requires Ok(k, w) && n % 8 == 0
    ensures NoneEnough(w.c, n) || exists i :: FirstEnough(w.c, w.l, n, i)
  {
    ListInChunks(k, w);
    var i := FitOrNone(w.c, w.l, n);
    if i < |w.l| {
      FitIsFirst(w.c, w.l, n, i);
    } else {
      NoFitIsNone(k, w, n);
    }
  }

  lemma FitIsFirst(c: Chunks, l: seq<int>, n: nat, i: int)
    requires IsFirstFit(c, l, n, i) && n % 8 == 0
    ensures FirstEnough(c, l, n, i)
  {
    forall j | 0 <= j <= i ensures Fits(c[l[j]].Size(), n) <==> Enough(c[l[j]].Size(), n) {
      FitsIsEnough(c[l[j]], n);
    }
  }

  lemma NoFitIsNone(k: Layout, w: World, n: nat)
    requires Ok(k, w) && n % 8 == 0 && NoFit(w.c, w.l, n)
    ensures NoneEnough(w.c, n)
  {
    forall a | a in w.c && w.c[a].free ensures !Enough(w.c[a].Size(), n) {
      var j :| 0 <= j < |w.l| && w.l[j] == a;
      FitsIsEnough(w.c[a], n);
    }
  }

  lemma ListInChunks(k: Layout, w: World)
    requires Ok(k, w)
    ensures InChunks(w.c, w.l) && forall i :: 0 <= i < |w.l| ==> w.c[w.l[i]].free
  {
  }

  lemma ChunkIsUsed(w: World, w': World, a: int, i: int, n: nat, u: nat)
    requires n == 8 * u && 1 <= u && ServedFirst(w, w', a, u) && Search(w.c, w.l, n, 0) == i && 0 <= i < |w.l| && w.l[i] == a
    ensures ChunkUsed(w, w', a, i, n)
  {
    ServeIs(w.c, w.l, i, u);
  }

  lemma NoneServes(k: Layout, w: World, bytes: nat, n: nat)
    requires Ok(k, w) && n == 8 * Units(bytes) && NoneEnough(w.c, n)
    ensures !Listable(w.c, w.l, 8, bytes)
  {
    ListInChunks(k, w);
    forall j | 0 <= j < |w.l| ensures !Fits(w.c[w.l[j]].Size(), n) {
      FitsIsEnough(w.c[w.l[j]], n);
    }
    SearchFindsFirst(w.c, w.l, n, 0, |w.l|);
  }

  lemma GrownEnd(k: Layout, w: World, w': World, alignment: nat, bytes: nat, n: nat, r: AllocResult)
    requires alignment > 0 && AllocCase(k, w, w', alignment, bytes, n, r) && !Listable(w.c, w.l, alignment, bytes) && EndPage(w.end, w.hi)
    requires w.top == w.end
    ensures r == Died <==> Align(w.end, alignment) - w.end == 8
    ensures r != Died ==> r == Block(Align(w.end, alignment)) && w'.end == r.vma + n + 8
  {
  }

  lemma GrownFacts(k: Layout, w: World, w': World, vma: int, bytes: nat)
    requires Grown(k, w, w', vma, bytes) && w.end <= vma
    requires w.top == w.end ==> forall b :: b in Live(w.c) ==> b < w.end
    ensures Preserved(w.m, w'.m, UserMap(w))
    ensures w.top == w.end ==> Resting(k, w') && AddsBlock(w, w', vma, bytes)
  {
  }

  lemma HeldIsAligned(k: Layout, w: World, f: Word)
    requires Ok(k, w) && f in HeldFrames(w.owner)
    ensures f % PAGE_SIZE == 0 && f in w.owner && w.owner[f] == Held
  {
  }

  /** The aligned end lies in the last mapped page, a multiple of 8 bytes further on. */
  lemma AlignedEnd(k: Layout, w: World, alignment: nat)
    requires Resting(k, w) && IsAlignment(alignment)
    ensures var a := Align(w.end, alignment);
      && a % alignment == 0 && w.end <= a <= PAGE_SIZE * w.hi && (a - w.end) % 8 == 0
    ensures forall b :: b in Live(w.c) ==> b < w.end
  {
    TopIsAligned(w.c, k.base, w.top);
    AlignIsLeast(w.end, alignment);
    PageIsAligned(w.hi, alignment);
    EightDivides(Align(w.end, alignment), alignment);
    EightApart(Align(w.end, alignment), w.end);
    assert forall b :: b in Live(w.c) ==> Next(w.c, b) <= w.top;
  }

  lemma PageIsAligned(hi: nat, alignment: nat)
    requires IsAlignment(alignment)
    ensures (PAGE_SIZE * hi) % alignment == 0
  {
    var q := PAGE_SIZE / alignment;
    assert PAGE_SIZE == q * alignment;
    assert PAGE_SIZE * hi == (q * hi) * alignment;
    MultipleMod(q * hi, alignment);
  }

  lemma EightDivides(a: nat, alignment: nat)
    requires IsAlignment(alignment) && a % alignment == 0
    ensures a % 8 == 0
  {
    var q, r := a / alignment, alignment / 8;
    assert a == q * alignment && alignment == r * 8;
    assert a == (q * r) * 8;
    MultipleMod(q * r, 8);
  }

  lemma EightApart(a: nat, b: nat)
    requires a % 8 == 0 && b % 8 == 0 && b <= a
    ensures (a - b) % 8 == 0
  {
    assert a - b == 8 * (a / 8 - b / 8);
  }

  lemma ListBlockAligned(k: Layout, w: World, n: int)
    requires Ok(k, w) && n in w.c
    ensures n % 8 == 0
  {
    ChunksAreAligned(w.c, k.base, w.top, n);
  }

  lemma HeadIsBelow(k: Layout, w: World)
    requires Ok(k, w) && w.pf != []
    ensures w.pageHead == w.pf[0] && k.base <= w.pf[0] && w.pf[0] + 16 <= w.top
  {
    LiveIsBelow(w.m, w.c, w.l, w.head, k.base, w.top, w.pf[0]);
  }

  /** An 8-byte request during a shrink is served exactly if there is capacity, and uses up one unit of it. */
  lemma ServedCapacity(k: Layout, w: World, w': World, n: int)
    requires CutOff(k, w)
    ensures Listable(w.c, w.l, 8, 8) <==> Capacity(w.c, w.l) > 0
    ensures ServedFirst(w, w', n, 1) ==> Capacity(w'.c, w'.l) == Capacity(w.c, w.l) - 1
  {
    CapacityPositive(w.c, w.l);
    var i := FitOrNone(w.c, w.l, 8);
    SearchFindsFirst(w.c, w.l, 8, 0, i);
    if ServedFirst(w, w', n, 1) {
      CapacityDrops(w.c, w'.c, w.l, w'.l, k.base, w.top, i);
    }
  }

  /** The descriptor below `end` can be written as long as the page loop of `free` has not given its page back. */
  lemma DescriptorPage(k: Layout, w: World)
    requires Ok(k, w) && Shrunk(w)
    ensures 0 <= (w.end - 4) / PAGE_SIZE < |w.pte|
    ensures Present(w.pte[(w.end - 4) / PAGE_SIZE]) <==> EndPage(w.end, w.hi)
  {
    var p := (w.end - 4) / PAGE_SIZE;
    EndBounds(k, w);
    PageOf(w.end - 4);
    WordBefore(w.end, w.end / 8, w.hi, p);
    AboveHeap(k, w, p);
  }

  lemma GrowthPage(k: Layout, w: World)
    requires Resting(k, w) || CutOff(k, w)
    ensures 0 <= (w.end - 4) / PAGE_SIZE < |w.pte|
    ensures Present(w.pte[(w.end - 4) / PAGE_SIZE]) <==> EndPage(w.end, w.hi)
  {
    if Resting(k, w) {
      RestingIsShrunk(k, w);
    }
    DescriptorPage(k, w);
  }

  lemma EndBounds(k: Layout, w: World)
    requires Ok(k, w) && Shrunk(w)
    ensures PAGE_SIZE * k.firstPage + 8 <= w.end <= HEAP_LIMIT && w.end == 8 * (w.end / 8) && PAGE_SIZE * (w.hi - 1) < w.end
  {
  }

  lemma PageOf(a: nat)
    ensures PAGE_SIZE * (a / PAGE_SIZE) <= a < PAGE_SIZE * (a / PAGE_SIZE + 1)
  {
  }

  lemma WordBefore(end: int, u: int, hi: int, p: int)
    requires end == 8 * u && PAGE_SIZE * p <= end - 4 < PAGE_SIZE * (p + 1) && PAGE_SIZE * (hi - 1) < end
    ensures p < hi <==> EndPage(end, hi)
  {
  }

  lemma AboveHeap(k: Layout, w: World, p: int)
    requires Ok(k, w) && k.firstPage <= p < PAGES - 1
    ensures |w.pte| == PAGES && (Present(w.pte[p]) <==> p < w.hi)
  {
  }

  lemma RestingIsShrunk(k: Layout, w: World)
    requires Resting(k, w)
    ensures Shrunk(w)
  {
    TopIsAligned(w.c, k.base, w.top);
  }

  /** All pages above the block are unmapped and `end` has been lowered to it. */
  lemma EndStep(k: Layout, w: World, w': World)
    requires CutOff(k, w) && EndPage(w.top, w.hi) && w' == w.(end := w.top)
    ensures Ok(k, w') && UserMap(w') == UserMap(w) && (w.stray == 0 ==> Resting(k, w'))
  {
    MapOnly(k, w, w');
  }

  lemma MergedIsInHeap(k: Layout, w: World, v: int)
    requires Merging(k, w, v)
    ensures k.base <= v && Next(w.c, v) <= w.top && 1 <= w.c[v].units && w.m[v - 4] == Tag(w.c[v])
  {
    EveryNextIsBelow(w, k.base, v);
  }

  /** The node of `page_free` is allocated for a caller and then belongs to the page free list. */
  lemma RecordedUsers(w: World, w1: World, w2: World, node: int)
    requires node !in UserMap(w) && UserMap(w1) == UserMap(w)[node := 8] && UserMap(w2) == UserMap(w1) - {node}
    requires Preserved(w.m, w1.m, UserMap(w)) && Preserved(w1.m, w2.m, UserMap(w1) - {node})
    ensures UserMap(w2) == UserMap(w) && Preserved(w.m, w2.m, UserMap(w))
  {
    PreservedTrans(w.m, w1.m, w2.m, UserMap(w), UserMap(w), UserMap(w1) - {node});
  }

  /** What callers see is untouched: their blocks, word for word. */
  ghost predicate SameForUsers(w: World, w': World) {
    UserMap(w') == UserMap(w) && Preserved(w.m, w'.m, UserMap(w))
  }

  lemma SameForUsersTrans(w: World, w1: World, w2: World)
    requires SameForUsers(w, w1) && SameForUsers(w1, w2)
    ensures SameForUsers(w, w2)
  {
    PreservedTrans(w.m, w1.m, w2.m, UserMap(w), UserMap(w), UserMap(w));
  }

  /** The pages below the end of the heap are mapped as before, and the frames of boot are where they were. */
  ghost predicate SameBelow(w: World, w': World) {
    true == (
      && |w'.pte| == |w.pte| && (forall p :: 0 <= p < w.hi && p < |w.pte| ==> w'.pte[p] == w.pte[p])
      && FixedFrames(w'.owner) == FixedFrames(w.owner)
    )
  }

  ghost predicate SameChunks(w: World, w': World) {
    w'.c == w.c && w'.l == w.l
  }

  /** `page_new` has handed out frame `f`: the first one on the page free list, else the one at the frontier. */
  ghost predicate OneDrawn(w: World, w': World, f: Word) {
    true == (
      && SameForUsers(w, w')
      && f !in HeldFrames(w.owner) && HeldFrames(w'.owner) == HeldFrames(w.owner) + {f}
      && (if w.pf == [] then f == w.frontier && w'.frontier == w.frontier + PAGE_SIZE && w'.pf == [] && SameChunks(w, w')
          else 0 <= w.pf[0] < |w.m| && f == w.m[w.pf[0]] && w'.frontier == w.frontier)
    )
  }

  /** `page_new` has handed out frame `f` while `alloc` extends the heap. */
  ghost predicate DrawnInGrowth(k: Layout, w: World, w': World, f: Word) {
    true == (
      && Reserved(k, w') && w'.top == w.top && w'.end == w.end && w'.hi == w.hi && SameBelow(w, w') && OneDrawn(w, w', f)
      && (w.pf != [] ==> w'.pf == w.pf[1..])
    )
  }

  lemma DrawnIsAligned(k: Layout, w: World, w': World, f: Word)
    requires DrawnInGrowth(k, w, w', f)
    ensures Reserved(k, w') && w'.hi == w.hi && w'.end == w.end && f % PAGE_SIZE == 0 && f in w'.owner && w'.owner[f] == Held
  {
    HeldIsAligned(k, w', f);
  }

  /** Frame `f` is behind the page that was the first above the heap; what that page holds is not known. */
  ghost predicate PageAdded(k: Layout, w: World, w': World, f: Word) {
    true == (
      && Ok(k, w') && w' == w.(m := w'.m, pte := w'.pte, hi := w.hi + 1, owner := w'.owner)
      && 0 <= w.hi < |w.pte| && f % PAGE_SIZE == 0 && w'.pte == w.pte[w.hi := HeapEntry(f)]
      && HeldFrames(w'.owner) == HeldFrames(w.owner) - {f} && FixedFrames(w'.owner) == FixedFrames(w.owner)
      && Preserved(w.m, w'.m, Live(w.c))
    )
  }

  /** A frame is taken off the page free list, and then its node is freed. */
  lemma FrameDrawn(k: Layout, w: World, w1: World, w2: World, node: int, f: Word)
    requires w.pf != [] && 0 <= w.pf[0] < |w.m| && f == w.m[w.pf[0]] && w1.m == w.m && w1.frontier == w.frontier
    requires UserMap(w1) - {node} == UserMap(w) && UserMap(w2) == UserMap(w1) - {node} && Preserved(w1.m, w2.m, UserMap(w1) - {node})
    requires f !in HeldFrames(w.owner) && HeldFrames(w1.owner) == HeldFrames(w.owner) + {f} && FixedFrames(w1.owner) == FixedFrames(w.owner)
    requires HeldFrames(w2.owner) == HeldFrames(w1.owner) && w2.frontier == w1.frontier
    requires w1.top == w.top && w1.end == w.end && w1.hi == w.hi && w1.pte == w.pte && w1.pf == w.pf[1..]
    requires w.top < w.end ==> Reserved(k, w2) && w2 == w1.(m := w2.m, head := w2.head, c := w2.c, l := w2.l)
    ensures OneDrawn(w, w2, f)
    ensures w.top < w.end ==> DrawnInGrowth(k, w, w2, f)
  {
  }

  lemma FrontierDrawn(k: Layout, w: World, w': World, f: Word)
    requires w.pf == [] && Ok(k, w') && f == w.frontier && f + PAGE_SIZE < WORD_LIMIT
    requires w' == w.(frontier := f + PAGE_SIZE, owner := w'.owner)
    requires f !in HeldFrames(w.owner) && HeldFrames(w'.owner) == HeldFrames(w.owner) + {f} && FixedFrames(w'.owner) == FixedFrames(w.owner)
    ensures OneDrawn(w, w', f)
    ensures Reserved(k, w) ==> DrawnInGrowth(k, w, w', f)
  {
  }

  lemma OutcomeIsSafe(c: Chunks, l: seq<int>, pf: seq<int>, v: int, end: nat)
    requires v in c
    ensures FreeOutcome(c, l, pf, v, end) == Intact <==> FreeSafe(c, l, v, end)
  {
  }

  /** Pages have been mapped above the heap, each to a frame drawn as `page_new` draws them. */
  ghost predicate PagesMapped(w: World, w': World) {
    true == (
      && w'.top == w.top && w'.end == w.end && w.hi <= w'.hi && SameBelow(w, w')
      && SameForUsers(w, w') && HeldFrames(w'.owner) == HeldFrames(w.owner) && FramesDrawn(w, w', w'.hi - w.hi)
      && (w.pf == [] || w'.hi == w.hi ==> SameChunks(w, w'))
    )
  }

  // ----- The page loop of free -----

  /** The page loop of `free` started in `w0` and has come to `page`. */
  ghost predicate InLoop(k: Layout, w0: World, w: World, page: int) {
    true == (
      && CutOff(k, w) && w.top == w0.top && w.end == w0.end && w.frontier == w0.frontier
      && UserMap(w) == UserMap(w0) && HeldFrames(w.owner) == HeldFrames(w0.owner) && Preserved(w0.m, w.m, UserMap(w0))
      && w.hi <= w0.hi && EndPage(w0.end, w0.hi) && page <= w.end
      && LoopCount(w0.end == PAGE_SIZE * w0.hi, w0, w, page)
    )
  }

  /** `whole` says that the loop started a page too high. */
  ghost predicate LoopCount(whole: bool, w0: World, w: World, page: int) {
    true == (
      && page == PAGE_SIZE * (if whole && page == w.end then w.hi else w.hi - 1)
      && (w.stray == 0 <==> !whole || page == w.end) && (whole && page == w.end ==> w.hi == w0.hi)
      && w0.hi - w.hi + (if w.stray == 0 then 0 else 1) == Capacity(w0.c, w0.l) - Capacity(w.c, w.l)
      && |w.pf| - |w0.pf| == Capacity(w0.c, w0.l) - Capacity(w.c, w.l)
    )
  }

  /** `a & ~0xfff` */
  function PageStart(a: Word): Word {
    a - a % PAGE_SIZE
  }

  lemma LoopStarts(k: Layout, w: World)
    requires CutOff(k, w) && w.stray == 0 && EndPage(w.end, w.hi)
    ensures InLoop(k, w, w, PageStart(w.end))
  {
    EndPageIsAlign(w.end, w.hi);
    assert LoopCount(w.end == PAGE_SIZE * w.hi, w, w, w.end - w.end % PAGE_SIZE);
  }

  lemma LoopTurns(k: Layout, w0: World, w: World, w': World, page: int, p: int)
    requires InLoop(k, w0, w, page) && Freed(k, w, w', page, p)
    ensures InLoop(k, w0, w', page - PAGE_SIZE)
  {
    PreservedTrans(w0.m, w.m, w'.m, UserMap(w0), UserMap(w0), UserMap(w));
    assert LoopCount(w0.end == PAGE_SIZE * w0.hi, w0, w', page - PAGE_SIZE);
  }

  /** The loop is at a page that it can free. */
  lemma LoopIsAtPage(k: Layout, w0: World, w: World, page: int)
    requires InLoop(k, w0, w, page)
    ensures CutOff(k, w) && page <= w.end && w.top == w0.top
    ensures page == PAGE_SIZE * (w.hi - 1) || (page == PAGE_SIZE * w.hi == w.end && w.stray == 0)
    ensures w.stray == 0 && w.end == PAGE_SIZE * w.hi ==> page == w.end
    ensures w.stray != 0 <==> w.end % PAGE_SIZE == 0 && page != w.end
  {
    EndPageIsAlign(w0.end, w0.hi);
  }

  lemma LoopIsInside(k: Layout, w0: World, w: World, page: int)
    requires InLoop(k, w0, w, page)
    ensures w.top == w0.top && w.end == w0.end && w.frontier == w0.frontier && page <= w.end
  {
  }

  lemma LoopIsFreeable(k: Layout, w0: World, w: World, page: nat)
    requires InLoop(k, w0, w, page) && w.top <= page
    ensures Freeable(k, w, page, page / PAGE_SIZE)
  {
    LoopIsAtPage(k, w0, w, page);
    var p := if page == PAGE_SIZE * w.hi then w.hi else w.hi - 1;
    LoopPage(k, w, p);
    PageNumber(page, p);
  }

  /** A request in the loop that is not served, when the page below `end` is given back. */
  lemma LoopIsStuck(k: Layout, w0: World, w: World, page: int)
    requires InLoop(k, w0, w, page) && w.top <= page && !Listable(w.c, w.l, 8, 8) && !EndPage(w.end, w.hi) && 0 <= w0.top
    ensures SpanOutcome(w0.c, w0.l, w0.pf, w0.top, w0.end) == Crashed
  {
    ServedCapacity(k, w, w, 0);
    StuckOutcome(w0.c, w0.l, w0.pf, w0.top, w0.end, w0.hi, w.hi);
  }

  /** How the loop ends that started in `w0` and loses the page free list in `w`, at `page`. */
  ghost predicate LossOutcome(w0: World, w: World, page: int)
    requires 0 <= w0.top
  {
    true == (SpanOutcome(w0.c, w0.l, w0.pf, w0.top, w0.end) ==
      if page - PAGE_SIZE < w0.top then Broken
      else if w.end == PAGE_SIZE * w.hi - 8 || (w.end == PAGE_SIZE * w.hi && w.pf != []) then Adrift
      else Crashed)
  }

  /** The same when it is not. */
  lemma LoopLoses(k: Layout, w0: World, w: World, page: int)
    requires InLoop(k, w0, w, page) && w.top <= page && !Listable(w.c, w.l, 8, 8) && EndPage(w.end, w.hi) && 0 <= w0.top
    ensures w.stray != 0 ==> SpanOutcome(w0.c, w0.l, w0.pf, w0.top, w0.end) == Adrift
    ensures w.stray == 0 ==> LossOutcome(w0, w, page)
  {
    ServedCapacity(k, w, w, 0);
    if w.stray == 0 {
      LostOutcome(w0.c, w0.l, w0.pf, w0.top, w0.end, w0.hi, page);
    } else {
      AliasOutcome(w0.c, w0.l, w0.pf, w0.top, w0.end, w0.hi);
    }
  }

  /** What a request that is not served tells about the loop. */
  lemma LoopRoom(k: Layout, w0: World, w: World, page: int)
    requires InLoop(k, w0, w, page) && w.top <= page && 0 <= w0.top
    ensures !Listable(w.c, w.l, 8, 8) ==> !SpanServed(w0.c, w0.l, w0.top, w0.end)
    ensures !Listable(w.c, w.l, 8, 8) && !EndPage(w.end, w.hi) ==> SpanOutcome(w0.c, w0.l, w0.pf, w0.top, w0.end) == Crashed
    ensures !Listable(w.c, w.l, 8, 8) && EndPage(w.end, w.hi) && w.stray == 0 ==> LossOutcome(w0, w, page)
    ensures w.end == w0.end && w.frontier == w0.frontier && w.top == w0.top
    ensures Shrunk(w) && (w.pageHead != 0 <==> w.pf != [])
  {
    if !Listable(w.c, w.l, 8, 8) {
      if EndPage(w.end, w.hi) {
        LoopLoses(k, w0, w, page);
      } else {
        LoopIsStuck(k, w0, w, page);
      }
    }
  }

  /** The loop of `free` that started in `w0` has left everything in order, apart from `end`. */
  ghost predicate LoopDone(k: Layout, w0: World, w: World) {
    true == (
      && CutOff(k, w) && w.stray == 0 && w.top == w0.top && w.end == w0.end && EndPage(w.top, w.hi) && w.frontier == w0.frontier
      && HeldFrames(w.owner) == HeldFrames(w0.owner) && SameForUsers(w0, w) && |w.pf| + w.hi == |w0.pf| + w0.hi
    )
  }

  /** It has run to its end and has lost the page free list, or has left a node on it that records a frame which is not its own. */
  ghost predicate LoopBroke(k: Layout, w0: World, w: World) {
    true == (
      && (Lost(w, w0.top) || (CutOff(k, w) && w.stray != 0 && w.top == w0.top && EndPage(w.top, w.hi)))
      && Preserved(w0.m, w.m, UserMap(w0))
    )
  }

  lemma LoopLost(k: Layout, w0: World, w: World, w': World, page: int)
    requires InLoop(k, w0, w, page) && Lost(w', w.end) && Preserved(w.m, w'.m, UserMap(w)) && w.top <= w.end
    ensures LoopBroke(k, w0, w')
  {
    PreservedTrans(w0.m, w.m, w'.m, UserMap(w0), UserMap(w0), UserMap(w));
  }

  /** The loop has run to its end. */
  lemma LoopEnds(k: Layout, w0: World, w: World, page: int, r: FreeResult)
    requires InLoop(k, w0, w, page) && page < w.top && k.base <= w.top < w0.end && 0 <= w0.top
    requires r == if PageStart(w.end) == w.end then Broken else Intact
    ensures r == SpanOutcome(w0.c, w0.l, w0.pf, w0.top, w0.end)
    ensures r == Intact ==> LoopDone(k, w0, w)
    ensures r == Broken ==> LoopBroke(k, w0, w)
  {
    EndPageIsAlign(w0.end, w0.hi);
    TopIsMapped(k, w);
    ServedOutcome(w0.c, w0.l, w0.pf, w0.top, w0.end, w0.hi, w.hi);
  }

  /** The last block `v` of `w0` is gone and `end` has been lowered to it; the page loop of `free` has left the result `r`. */
  ghost predicate Lowered(k: Layout, w0: World, w: World, v: int, r: FreeResult) {
    true == (
      && w.end == v && Preserved(w0.m, w.m, UserMap(w0) - {v})
      && (if r == Intact then Resting(k, w) && GivenUp(w0, w, v) else Ruined(k, w, v))
    )
  }

  /** Nothing has gone but the block `v`; each page that is not mapped any more is on the page free list. */
  ghost predicate GivenUp(w0: World, w: World, v: int) {
    true == (
      && w.frontier == w0.frontier && HeldFrames(w.owner) == HeldFrames(w0.owner)
      && UserMap(w) == UserMap(w0) - {v} && |w.pf| + w.hi == |w0.pf| + w0.hi
    )
  }

  lemma EndLowered(k: Layout, w0: World, w1: World, w2: World, w3: World, v: Word, r: FreeResult)
    requires w1 == w0.(c := w1.c, top := v) && UserMap(w1) == UserMap(w0) - {v} && w3 == w2.(end := v)
    requires if r == Intact then LoopDone(k, w1, w2) else LoopBroke(k, w1, w2)
    ensures Lowered(k, w0, w3, v, r)
  {
    if CutOff(k, w2) && EndPage(w2.top, w2.hi) && w2.top == v {
      EndStep(k, w2, w3);
    }
  }

  /** The cases of `free`. */
  ghost predicate FreeCase(k: Layout, w: World, w': World, v: int, r: FreeResult)
    requires v in w.c
  {
    var g := MergeBoth(w.c, w.l, v);
    true == (
      && g.v in g.c && 0 <= g.v
      && (if Next(g.c, g.v) != w.end then r == Intact && PutBack(k, w, w', v, g)
          else w.top == w.end && r == SpanOutcome(g.c - {g.v}, g.l, w.pf, g.v, w.end))
      && (Next(g.c, g.v) == w.end && (r == Intact || r == Broken) ==> LastFreed(k, w, w', v, g.v, r))
    )
  }

  /** The merged block is at the head of the free list. */
  ghost predicate PutBack(k: Layout, w: World, w': World, v: int, g: Merge) {
    true == (
      && g.v in g.c && w' == w.(m := w'.m, head := w'.head, c := g.c[g.v := Chunk(g.c[g.v].units, true)], l := [g.v] + g.l)
      && (if w.top == w.end then Resting(k, w') else Reserved(k, w'))
      && UserMap(w') == UserMap(w) - {v} && Preserved(w.m, w'.m, UserMap(w) - {v})
    )
  }

  /** The merged block, which starts at `low`, has gone with the end of the heap. */
  ghost predicate LastFreed(k: Layout, w: World, w': World, v: int, low: int, r: FreeResult) {
    true == (
      && w'.end == low && Preserved(w.m, w'.m, UserMap(w) - {v})
      && (if r == Intact then Resting(k, w') && GivenUp(w, w', v) else Ruined(k, w', low))
    )
  }

  /** The block at `v` has been merged into the one at `v'`. */
  ghost predicate MergedBlock(w: World, w1: World, v: int, v': int) {
    true == (
      && w1 == w.(m := w1.m, head := w1.head, c := w1.c, l := w1.l)
      && v in w.c && v' in w1.c && 0 <= v' && Merge(w1.c, w1.l, v') == MergeBoth(w.c, w.l, v)
      && UserMap(w1) - {v'} == UserMap(w) - {v} && Preserved(w.m, w1.m, UserMap(w) - {v})
    )
  }

  lemma SpanOfBlock(w: World, w1: World, v: int, v': int)
    requires MergedBlock(w, w1, v, v') && v in w.c && v' in w1.c && 0 <= v' && Next(w1.c, v') == w.end
    ensures w1.end == w.end && w1.frontier == w.frontier
    ensures FreeSafe(w.c, w.l, v, w.end) ==> SpanServed(w1.c - {v'}, w1.l, v', w1.end)
  {
  }

  lemma ListedCase(k: Layout, w: World, w1: World, w2: World, v: int, v': int)
    requires MergedBlock(w, w1, v, v') && v in w.c && v' in w1.c && Next(w1.c, v') != w1.end
    requires PutBack(k, w1, w2, v', Merge(w1.c, w1.l, v'))
    ensures FreeCase(k, w, w2, v, Intact)
  {
    var users := UserMap(w) - {v};
    PreservedTrans(w.m, w1.m, w2.m, users, users, users);
    assert PutBack(k, w, w2, v, Merge(w1.c, w1.l, v'));
  }

  lemma ShrunkCase(k: Layout, w: World, w1: World, w2: World, v: int, v': int, r: FreeResult)
    requires MergedBlock(w, w1, v, v') && v in w.c && v' in w1.c && 0 <= v' && Next(w1.c, v') == w1.end && w1.top == w1.end
    requires r == SpanOutcome(w1.c - {v'}, w1.l, w1.pf, v', w1.end)
    requires r == Intact || r == Broken ==> Lowered(k, w1, w2, v', r)
    ensures FreeCase(k, w, w2, v, r)
  {
    if r == Intact || r == Broken {
      var users := UserMap(w) - {v};
      PreservedTrans(w.m, w1.m, w2.m, users, users, users);
      assert LastFreed(k, w, w2, v, v', r);
    }
  }

  lemma FreeFacts(k: Layout, w: World, w': World, v: int, r: FreeResult)
    requires v in w.c && FreeCase(k, w, w', v, r) && (Resting(k, w) || (Reserved(k, w) && w.top < w.end))
    ensures w.top < w.end ==> r == Intact && Reserved(k, w') && w' == w.(m := w'.m, head := w'.head, c := w'.c, l := w'.l)
    ensures w.top == w.end ==> r == FreeOutcome(w.c, w.l, w.pf, v, w.end)
    ensures r == Intact && w.top == w.end ==> Resting(k, w') && HeldFrames(w'.owner) == HeldFrames(w.owner) && |w'.pf| + w'.hi == |w.pf| + w.hi
    ensures r == Intact ==> w'.frontier == w.frontier && UserMap(w') == UserMap(w) - {v}
    ensures r == Broken ==> w'.end == MergeBoth(w.c, w.l, v).v && Ruined(k, w', w'.end)
    ensures r == Intact || r == Broken ==> Preserved(w.m, w'.m, UserMap(w) - {v})
    ensures var g := MergeBoth(w.c, w.l, v);
      g.v in g.c && (Next(g.c, g.v) != w.end ==> w'.end == w.end && w'.c == g.c[g.v := Chunk(g.c[g.v].units, true)] && w'.l == [g.v] + g.l)
      && (Next(g.c, g.v) == w.end && r == Intact ==> w'.end == g.v)
  {
  }

  lemma TopIsMapped(k: Layout, w: World)
    requires Ok(k, w)
    ensures w.top <= PAGE_SIZE * w.hi
  {
  }

  /** Memory has been reserved and described above all chunks, where `free` does not see it. */
  ghost predicate Loosened(w: World, w': World) {
    true == (
      && w'.top == w.top && w'.end == w.end + 16
      && SameForUsers(w, w') && HeldFrames(w'.owner) == HeldFrames(w.owner) && FramesDrawn(w, w', w'.hi - w.hi)
      && (w.pf == [] || w'.hi == w.hi ==> SameChunks(w, w'))
    )
  }

  /** A block of `bytes` has been added at `vma`, which is the end of the heap in `w` plus padding. */
  ghost predicate Extended(w: World, w': World, vma: int, bytes: nat) {
    true == (
      && w'.end == vma + bytes + 8 && w.hi <= w'.hi && SameBelow(w, w')
      && UserMap(w') == UserMap(w)[vma := bytes] && Preserved(w.m, w'.m, UserMap(w))
      && HeldFrames(w'.owner) == HeldFrames(w.owner) && FramesDrawn(w, w', w'.hi - w.hi)
    )
  }

  /** A frame has been drawn and mapped. */
  lemma MappedOne(w: World, w1: World, w2: World, w3: World, f: Word, k: Layout)
    requires PagesMapped(w, w1) && DrawnInGrowth(k, w1, w2, f) && PageAdded(k, w2, w3, f)
    ensures PagesMapped(w, w3) && Reserved(k, w3) && w3.end == w1.end && w3.hi == w1.hi + 1
  {
    OneMapped(k, w1, w2, w3, f);
    MoreMapped(w, w1, w3);
  }

  /** Page by page. */
  lemma MoreMapped(w: World, w1: World, w3: World)
    requires PagesMapped(w, w1) && PagesMapped(w1, w3) && w3.hi == w1.hi + 1
    ensures PagesMapped(w, w3)
  {
    SameForUsersTrans(w, w1, w3);
    SameBelowTrans(w, w1, w3);
    OneMoreDrawn(w, w1, w3, w1.hi - w.hi);
  }

  lemma SameBelowTrans(w: World, w1: World, w2: World)
    requires SameBelow(w, w1) && SameBelow(w1, w2) && w.hi <= w1.hi
    ensures SameBelow(w, w2)
  {
  }

  lemma OneMapped(k: Layout, w1: World, w2: World, w3: World, f: Word)
    requires DrawnInGrowth(k, w1, w2, f) && PageAdded(k, w2, w3, f)
    ensures PagesMapped(w1, w3) && Reserved(k, w3) && w3.end == w1.end && w3.hi == w1.hi + 1
  {
    AddedIsSame(k, w2, w3, f);
    SameForUsersTrans(w1, w2, w3);
    SameBelowTrans(w1, w2, w3);
    OneMoreDrawn(w1, w1, w2, 0);
    AddedIsReserved(k, w2, w3, f);
    SameHeld(w1, w2, w3, f);
  }

  lemma AddedIsReserved(k: Layout, w: World, w': World, f: Word)
    requires PageAdded(k, w, w', f) && Reserved(k, w)
    ensures Reserved(k, w')
  {
  }

  lemma SameHeld(w1: World, w2: World, w3: World, f: Word)
    requires f !in HeldFrames(w1.owner) && HeldFrames(w2.owner) == HeldFrames(w1.owner) + {f}
    requires HeldFrames(w3.owner) == HeldFrames(w2.owner) - {f}
    ensures HeldFrames(w3.owner) == HeldFrames(w1.owner)
  {
  }

  lemma AddedIsSame(k: Layout, w: World, w': World, f: Word)
    requires PageAdded(k, w, w', f)
    ensures SameForUsers(w, w') && SameBelow(w, w')
  {
    PreservedUsers(w.m, w'.m, Live(w.c), w.pf);
  }

  /** The page loop of `alloc` started in `w` and has come to `page`. */
  ghost predicate GrowthLoop(k: Layout, w: World, w1: World, page: int) {
    true == (Reserved(k, w1) && PagesMapped(w, w1) && page == PAGE_SIZE * w1.hi && PAGE_SIZE * (w1.hi - 1) < w1.end == w.end)
  }

  lemma GrowthStarts(k: Layout, w: World, oldEnd: nat)
    requires Reserved(k, w) && EndPage(oldEnd, w.hi) && oldEnd < w.end
    ensures GrowthLoop(k, w, w, Align(oldEnd, PAGE_SIZE))
  {
    EndPageIsAlign(oldEnd, w.hi);
    assert PagesMapped(w, w);
  }

  lemma GrowthTurns(k: Layout, w: World, w1: World, w2: World, page: int)
    requires GrowthLoop(k, w, w1, page) && page < w.end && PagesMapped(w, w2) && Reserved(k, w2) && w2.end == w1.end && w2.hi == w1.hi + 1
    ensures GrowthLoop(k, w, w2, page + PAGE_SIZE)
  {
  }

  lemma FramesAreLeft(k: Layout, w: World, w1: World, page: int, oldEnd: int)
    requires GrowthLoop(k, w, w1, page) && page < w.end && EndPage(oldEnd, w.hi) && w.frontier + (w.end - oldEnd) + 2 * PAGE_SIZE < WORD_LIMIT
    ensures Reserved(k, w1) && page == PAGE_SIZE * w1.hi && w1.frontier + PAGE_SIZE < WORD_LIMIT && w1.hi + 2 < PAGES && PagesMapped(w, w1)
  {
    BelowLimit(k, w1);
  }

  lemma BelowLimit(k: Layout, w: World)
    requires Reserved(k, w)
    ensures w.end <= HEAP_LIMIT
  {
  }

  lemma OneMoreDrawn(w: World, w1: World, w2: World, n: int)
    requires FramesDrawn(w, w1, n) && 0 <= n && (w1.pf != [] ==> w2.pf == w1.pf[1..])
    requires if w1.pf == [] then w2.pf == [] && w2.frontier == w1.frontier + PAGE_SIZE else w2.frontier == w1.frontier
    ensures FramesDrawn(w, w2, n + 1)
  {
  }

  /** The reserved region becomes a block. */
  lemma AdoptStep(k: Layout, w: World, w': World, vma: int, bytes: Word, u: nat)
    requires Reserved(k, w) && EndPage(w.end, w.hi) && vma == w.top && w.end == vma + bytes + 8 && bytes == 8 * u && 1 <= u
    requires w' == w.(m := NewLast(w.m, vma, bytes), c := w.c[vma := Chunk(u, false)], top := w.end)
    ensures Resting(k, w') && UserMap(w') == UserMap(w)[vma := bytes]
    ensures Preserved(w.m, w'.m, UserMap(w)) && vma !in Live(w.c)
  {
    ExtendStep(w.m, w'.m, w.c, w'.c, w.l, w.head, k.base, w.top, w'.top, u);
    NewBlockLayout(w.c, w'.c, k.base, w.top, w'.top, u);
    NewBlockStep(k, w, w', bytes);
  }

  lemma NewLastAbove(m: seq<Word>, vma: int, bytes: Word, top: int)
    requires top + 4 <= vma
    ensures |NewLast(m, vma, bytes)| == |m| && forall x :: 0 <= x < top && x < |m| ==> NewLast(m, vma, bytes)[x] == m[x]
  {
  }

  /** Inside the page loop of `free` it becomes none: its descriptors lie above all chunks. */
  lemma LooseBlock(k: Layout, w: World, w1: World, w2: World, w3: World, vma: Word)
    requires w.end + 16 < WORD_LIMIT && w1 == w.(end := w.end + 16) && PagesMapped(w1, w2) && Reserved(k, w2) && EndPage(w2.end, w2.hi)
    requires vma == w.end && w.top + 16 <= vma && w3 == w2.(m := NewLast(w2.m, vma, 8))
    ensures Grown(k, w, w3, vma, 8)
  {
    NewLastAbove(w2.m, vma, 8, w2.top);
    LooseStep(k, w2, w3);
    LooseIs(w, w1, w2, w3);
  }

  lemma LooseIs(w: World, w1: World, w2: World, w3: World)
    requires w.end + 16 < WORD_LIMIT && w1 == w.(end := w.end + 16) && PagesMapped(w1, w2)
    requires w3 == w2.(m := w3.m) && SameForUsers(w2, w3)
    ensures Loosened(w, w3)
  {
    SameForUsersTrans(w, w1, w2);
    SameForUsersTrans(w, w2, w3);
  }

  /** Padding at the end of the heap has become a free chunk, or there was none. */
  ghost predicate Padded(w: World, w': World) {
    true == (
      && SameForUsers(w, w') && w'.pf == w.pf && w'.frontier == w.frontier && w'.hi == w.hi && w'.owner == w.owner && w'.pte == w.pte
      && (if w.top == w.end then w'.top == w'.end else w' == w)
    )
  }

  /** A block has been added at `vma`, above the end of the heap in `w`; inside the page loop of `free`, only its descriptors have. */
  ghost predicate Grown(k: Layout, w: World, w': World, vma: int, bytes: nat) {
    true == (
      if w.top == w.end then Resting(k, w') && Extended(w, w', vma, bytes)
      else vma == w.end && Reserved(k, w') && EndPage(w'.end, w'.hi) && Loosened(w, w')
    )
  }

  /** Padding, pages and descriptors together add one block. */
  lemma GrownBlock(k: Layout, w: World, w0: World, w1: World, w2: World, w3: World, vma: Word, bytes: Word, u: nat)
    requires w.top == w.end && w0.end == vma && bytes == 8 * u && 1 <= u && vma + bytes + 8 < WORD_LIMIT
    requires Padded(w, w0) && w1 == w0.(end := vma + bytes + 8) && PagesMapped(w1, w2) && Reserved(k, w2) && EndPage(w2.end, w2.hi)
    requires w3 == w2.(m := NewLast(w2.m, vma, bytes), c := w2.c[vma := Chunk(u, false)], top := w2.end)
    ensures Grown(k, w, w3, vma, bytes)
  {
    AdoptStep(k, w2, w3, vma, bytes, u);
    ExtendedBy(w, w0, w1, w2, w3, vma, bytes);
  }

  lemma ExtendedBy(w: World, w0: World, w1: World, w2: World, w3: World, vma: Word, bytes: Word)
    requires vma + bytes + 8 < WORD_LIMIT
    requires Padded(w, w0) && w1 == w0.(end := vma + bytes + 8) && PagesMapped(w1, w2) && w2.end == vma + bytes + 8
    requires w3.end == w2.end && w3.hi == w2.hi && w3.owner == w2.owner && w3.pte == w2.pte && w3.pf == w2.pf && w3.frontier == w2.frontier
    requires UserMap(w3) == UserMap(w2)[vma := bytes] && Preserved(w2.m, w3.m, UserMap(w2))
    ensures Extended(w, w3, vma, bytes)
  {
    SameForUsersTrans(w, w1, w2);
    PreservedTrans(w.m, w2.m, w3.m, UserMap(w), UserMap(w), UserMap(w2));
  }

  /** `boot` holds the frames that boot has used: all of those below `limit`. */
  ghost predicate UsedByBoot(boot: map<Word, Place>, limit: Word) {
    true == ((forall f :: f in boot <==> 0 <= f < limit && f % PAGE_SIZE == 0) && forall f :: f in boot ==> boot[f] == Fixed)
  }

  /** No page above page `page` is mapped, up to that of the boot stack. */
  ghost predicate FreeAbove(pte: seq<Word>, page: int) {
    true == (|pte| == PAGES && forall p :: 0 <= p && page < p < PAGES - 1 ==> !Present(pte[p]))
  }

  lemma FreeAboveKept(pte: seq<Word>, page: int, e: Word)
    requires FreeAbove(pte, page) && 0 <= page < |pte|
    ensures FreeAbove(pte[page := e], page)
  {
  }

  /** The heap that `alloc_new_heap` sets up. */
  lemma FirstWorld(k: Layout, w: World, first: int, page: int, isNew: bool, pma: Word, boot: map<Word, Place>)
    requires PAGE_SIZE <= first && first % 8 == 0 && first + 8 <= HEAP_LIMIT && page == first / PAGE_SIZE
    requires |w.m| == WORD_LIMIT && w.m[first] == 0 && |w.pte| == PAGES && pma % PAGE_SIZE == 0 && pma + PAGE_SIZE < WORD_LIMIT
    requires k == Layout(first + 8, if isNew then page else page + 1, page)
    requires w == World(w.m, w.pte, 0, first + 8, 0, if isNew then pma + PAGE_SIZE else pma, map[], [], first + 8, [], page + 1,
                        if isNew then boot[pma := Mapped(page)] else boot, 0) && UsedByBoot(boot, pma)
    requires Present(w.pte[page]) && (isNew ==> w.pte[page] == HeapEntry(pma)) && FreeAbove(w.pte, page)
    ensures Resting(k, w) && UserMap(w) == map[] && HeldFrames(w.owner) == {}
    ensures FixedFrames(w.owner) == boot.Keys
  {
    DivMultiple(first, page);
    FirstHeap(k, w, first);
    FirstMap(k, w, page, isNew, pma, boot);
    FirstList(w);
    KeepFixed(boot, pma, Mapped(page));
    assert FixedFrames(boot) == boot.Keys;
  }

  lemma DivMultiple(first: nat, page: int)
    requires page == first / PAGE_SIZE
    ensures PAGE_SIZE * page <= first < PAGE_SIZE * (page + 1)
  {
  }

  lemma FirstHeap(k: Layout, w: World, first: int)
    requires |w.m| == WORD_LIMIT && 0 < first && first % 8 == 0 && first + 8 <= HEAP_LIMIT && w.m[first] == 0
    requires k.base == first + 8 == w.top && w.c == map[] && w.l == [] && w.head == 0
    requires w.top <= PAGE_SIZE * w.hi <= WORD_LIMIT
    ensures HeapOk(k, w) && TrailClear(w.m, w.c, w.top, 0)
  {
    assert Core(w.m, w.c, w.l, w.head, k.base, w.top);
  }

  lemma FirstMap(k: Layout, w: World, page: int, isNew: bool, pma: Word, boot: map<Word, Place>)
    requires 1 <= page && page + 1 < PAGES && |w.pte| == PAGES && pma % PAGE_SIZE == 0 && pma + PAGE_SIZE < WORD_LIMIT
    requires k.lo == (if isNew then page else page + 1) && k.firstPage == page
    requires PAGE_SIZE * page <= k.base - 8 < PAGE_SIZE * (page + 1)
    requires w.hi == page + 1 && w.frontier == (if isNew then pma + PAGE_SIZE else pma)
    requires UsedByBoot(boot, pma) && w.owner == if isNew then boot[pma := Mapped(page)] else boot
    requires Present(w.pte[page]) && (isNew ==> w.pte[page] == HeapEntry(pma))
    requires forall p :: page < p < PAGES - 1 ==> !Present(w.pte[p])
    ensures MapOk(k, w) && HeldFrames(w.owner) == {}
  {
    HeapEntryFrame(pma);
    FirstFrontier(w.owner, isNew, pma, page, boot);
    assert MapAccounted(w.pte, k.lo, w.hi, w.owner);
  }

  lemma FirstList(w: World)
    requires w.c == map[] && w.pf == [] && w.pageHead == 0 && w.stray == 0 && forall f :: f in w.owner ==> !w.owner[f].Listed?
    ensures ListOk(w) && UserMap(w) == map[]
  {
    assert Live(w.c) == map[];
  }

  lemma FirstFrontier(owner: map<Word, Place>, isNew: bool, pma: Word, page: int, boot: map<Word, Place>)
    requires pma % PAGE_SIZE == 0 && pma + PAGE_SIZE < WORD_LIMIT
    requires UsedByBoot(boot, pma) && owner == if isNew then boot[pma := Mapped(page)] else boot
    ensures Frontier(owner, if isNew then pma + PAGE_SIZE else pma)
  {
    assert (pma + PAGE_SIZE) % PAGE_SIZE == 0 by { AddByte(pma, PAGE_SIZE); }
    forall f: Word | pma < f < pma + PAGE_SIZE ensures f % PAGE_SIZE != 0 {
      BetweenMultiples(pma, f);
    }
  }
}
