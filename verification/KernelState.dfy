/** The whole state of the kernel heap and its frames as one value, and its transitions. */
module KernelState {
  import opened Machine
  import opened Heap
  import opened HeapSteps
  import opened HeapMoves
  import opened HeapStages
  import opened FirstFit
  import opened Coalescing
  import opened Frames

  /** What never changes: the first payload address, the first heap page that the heap itself mapped, and the first heap page. */
  datatype Layout = Layout(base: int, lo: int, firstPage: int)

  /**
   Memory `m`, page table `pte`, and the variables of the source: `head` and `end` of the heap context,
   `pageHead` (page_free_list) and `frontier` (kernel_heap_end_pma). The rest is what they represent: the
   chunks up to `top`, the free list `l`, the page free list `pf`, the first unmapped heap page `hi`, and
   the place of every frame. `stray` is 0, or a node of the page free list that records a frame which is
   accounted for elsewhere.
   */
  datatype World = World(
    m: seq<Word>, pte: seq<Word>, head: Word, end: Word, pageHead: Word, frontier: Word,
    c: Chunks, l: seq<int>, top: int, pf: seq<int>, hi: int, owner: map<Word, Place>, stray: int)

  /** The heap stays below the page of the boot stack, with one unmapped page in between. */
  const HEAP_LIMIT := WORD_LIMIT - 2 * PAGE_SIZE

  ghost predicate HeapOk(k: Layout, w: World) {
    true == (
      && |w.m| == WORD_LIMIT
      && Core(w.m, w.c, w.l, w.head, k.base, w.top)
      && Coalesced(w.c)
      && w.top <= PAGE_SIZE * w.hi <= WORD_LIMIT
    )
  }

  ghost predicate MapOk(k: Layout, w: World) {
    true == (
      && MapAccounted(w.pte, k.lo, w.hi, w.owner)
      && Frontier(w.owner, w.frontier)
      && 1 <= k.firstPage <= k.lo && PAGE_SIZE * k.firstPage <= k.base - 8 < PAGE_SIZE * (k.firstPage + 1)
      && k.lo <= k.firstPage + 1 <= w.hi
      && (forall p :: k.firstPage <= p < w.hi ==> Present(w.pte[p]))
    )
  }

  ghost predicate ListOk(w: World) {
    true == (
      && PageList(w.m, w.pf, w.pageHead, Live(w.c)) && ListAccounted(w.m, w.pf, w.owner, w.stray)
      && (w.stray == 0 || w.stray in w.pf)
    )
  }

  /** As `ListOk`, while the block at `v` is being freed. */
  ghost predicate ListOkBut(w: World, v: int) {
    true == (
      && PageList(w.m, w.pf, w.pageHead, Live(w.c) - {v}) && ListAccounted(w.m, w.pf, w.owner, w.stray)
      && (w.stray == 0 || w.stray in w.pf)
    )
  }

  /** What holds whenever one of the mutually recursive operations starts or ends. */
  ghost predicate Ok(k: Layout, w: World) {
    true == (
      && HeapOk(k, w) && MapOk(k, w) && ListOk(w)
      && TrailClear(w.m, w.c, w.top, 0)
      && k.base % 8 == 0 && w.top <= w.end <= HEAP_LIMIT
    )
  }

  /** Page `hi` is the first one above a heap that ends at `end`. */
  ghost predicate EndPage(end: int, hi: int) {
    PAGE_SIZE * (hi - 1) < end <= PAGE_SIZE * hi
  }

  /** Between operations. */
  ghost predicate Resting(k: Layout, w: World) {
    Ok(k, w) && w.stray == 0 && w.top == w.end && LastLive(w.c, w.top) && EndPage(w.end, w.hi)
  }

  /** `alloc` has raised `end` but not yet written the descriptors of the new block. */
  ghost predicate Reserved(k: Layout, w: World) {
    Ok(k, w) && w.stray == 0 && w.top + 16 <= w.end
  }

  /** `free` has cut off the last block but not yet lowered `end`. */
  ghost predicate CutOff(k: Layout, w: World) {
    Ok(k, w) && w.top + 16 <= w.end && LastLive(w.c, w.top) && Shrunk(w)
  }

  /** Inside the page loop of `free`, `end` is where it was before: at or above the last page that is mapped. */
  ghost predicate Shrunk(w: World) {
    true == (w.end % 8 == 0 && PAGE_SIZE * (w.hi - 1) < w.end)
  }

  /** `free` has merged the block at `v` with its free neighbours; the merged block is on no list yet. */
  ghost predicate Merging(k: Layout, w: World, v: int) {
    true == (
      && HeapOk(k, w) && MapOk(k, w) && ListOkBut(w, v) && TrailClear(w.m, w.c, w.top, v)
      && v in w.c && !w.c[v].free && !NextFree(w.c, v) && !PrevFree(w.c, v)
      && k.base % 8 == 0 && w.top <= w.end <= HEAP_LIMIT && (w.top == w.end || w.top + 16 <= w.end) && w.stray == 0
      && (w.top == w.end ==> LastLive(w.c, w.top) && EndPage(w.end, w.hi))
    )
  }

  /** The blocks that callers hold. */
  ghost function UserMap(w: World): map<int, nat> {
    Users(Live(w.c), w.pf)
  }

  ghost function HeldFrames(owner: map<Word, Place>): set<Word> {
    set f | f in owner && owner[f] == Held
  }

  /** Frames that boot put where they are. */
  ghost function FixedFrames(owner: map<Word, Place>): set<Word> {
    set f | f in owner && owner[f] == Fixed
  }

  lemma HoldFrame(owner: map<Word, Place>, f: Word)
    requires f in owner ==> owner[f] != Held
    ensures f !in HeldFrames(owner) && HeldFrames(owner[f := Held]) == HeldFrames(owner) + {f}
  {
  }

  lemma KeepFixed(owner: map<Word, Place>, f: Word, place: Place)
    requires place != Fixed && (f in owner ==> owner[f] != Fixed)
    ensures FixedFrames(owner[f := place]) == FixedFrames(owner)
  {
  }

  lemma MoveFrame(owner: map<Word, Place>, f: Word, place: Place)
    requires place != Held
    ensures HeldFrames(owner[f := place]) == HeldFrames(owner) - {f}
  {
  }

  /** Moving a frame that is not on the page free list elsewhere does not concern that list. */
  lemma RemapKeepsList(m: seq<Word>, pf: seq<int>, owner: map<Word, Place>, stray: int, f: Word, place: Place)
    requires (forall i :: 0 <= i < |pf| ==> 0 <= pf[i] < |m|) && ListAccounted(m, pf, owner, stray)
    requires f in owner && !owner[f].Listed? && !place.Listed?
    ensures ListAccounted(m, pf, owner[f := place], stray)
  {
  }

  lemma LiveIsBelow(m: seq<Word>, c: Chunks, l: seq<int>, head: int, base: int, top: int, a: int)
    requires Core(m, c, l, head, base, top) && a in Live(c)
    ensures base <= a && a + Live(c)[a] + 8 <= top && 8 <= Live(c)[a]
  {
    assert Next(c, a) <= top;
  }

  // ----- Frames -----

  /** The first node leaves the page free list; its frame is then held by a caller. */
  lemma PopStep(k: Layout, w: World, w': World)
    requires Ok(k, w) && w.stray == 0 && w.pf != []
    requires w' == w.(pf := w.pf[1..], pageHead := w.m[w.pf[0] + 4], owner := w.owner[w.m[w.pf[0]] := Held])
    ensures Ok(k, w') && w.pf[0] == w.pageHead
    ensures w.pf[0] in UserMap(w') && UserMap(w') - {w.pf[0]} == UserMap(w)
    ensures w.m[w.pf[0]] !in HeldFrames(w.owner)
    ensures HeldFrames(w'.owner) == HeldFrames(w.owner) + {w.m[w.pf[0]]} && FixedFrames(w'.owner) == FixedFrames(w.owner)
  {
    var f := w.m[w.pf[0]];
    KeepFixed(w.owner, f, Held);
    PopPage(w.m, w.pf, w.pageHead, Live(w.c), w.owner, 0);
    PoppedIsUsers(Live(w.c), w.pf);
    HoldFrame(w.owner, f);
    PopKeepsMap(k, w, w', f);
  }

  /** A node taken off the page free list counts as a caller's block until it is freed. */
  lemma PoppedIsUsers(live: map<int, nat>, pf: seq<int>)
    requires pf != [] && Distinct(pf) && pf[0] in live
    ensures pf[0] in Users(live, pf[1..])
    ensures Users(live, pf[1..]) - {pf[0]} == Users(live, pf)
  {
    var r := pf[1..];
    assert forall i :: 0 <= i < |r| ==> r[i] == pf[i + 1] != pf[0];
    forall a ensures a in pf <==> a == pf[0] || a in r {
      if a in pf && a != pf[0] {
        var j :| 0 <= j < |pf| && pf[j] == a;
        assert r[j - 1] == a;
      }
    }
  }

  lemma PopKeepsMap(k: Layout, w: World, w': World, f: Word)
    requires MapOk(k, w) && f in w.owner && !w.owner[f].Mapped?
    requires w'.pte == w.pte && w'.hi == w.hi && w'.frontier == w.frontier && w'.owner == w.owner[f := Held]
    ensures MapOk(k, w')
  {
  }

  /** A frame from the frontier, held by a caller. */
  lemma FreshStep(k: Layout, w: World, w': World)
    requires Ok(k, w) && w.frontier + PAGE_SIZE < WORD_LIMIT
    requires w' == w.(frontier := w.frontier + PAGE_SIZE, owner := w.owner[w.frontier := Held])
    ensures Ok(k, w') && w.frontier !in HeldFrames(w.owner)
    ensures HeldFrames(w'.owner) == HeldFrames(w.owner) + {w.frontier} && FixedFrames(w'.owner) == FixedFrames(w.owner)
  {
    KeepFixed(w.owner, w.frontier, Held);
    FreshFrame(w.owner, w.frontier, w.m, w.pf, w.stray, w.pte, k.lo, w.hi);
    HoldFrame(w.owner, w.frontier);
  }

  /** A held frame is mapped at the page just above the heap; the contents of that page are arbitrary. */
  lemma MapStep(k: Layout, w: World, w': World, m': seq<Word>, f: Word)
    requires Ok(k, w) && w.hi + 2 < PAGES && f % PAGE_SIZE == 0 && f in w.owner && w.owner[f] == Held
    requires |m'| == |w.m| && forall x :: 0 <= x < PAGE_SIZE * w.hi ==> m'[x] == w.m[x]
    requires w' == w.(m := m', pte := w.pte[w.hi := HeapEntry(f)], hi := w.hi + 1, owner := w.owner[f := Mapped(w.hi)])
    ensures Ok(k, w') && HeldFrames(w'.owner) == HeldFrames(w.owner) - {f} && FixedFrames(w'.owner) == FixedFrames(w.owner)
    ensures Preserved(w.m, m', Live(w.c))
  {
    KeepFixed(w.owner, f, Mapped(w.hi));
    CoreIsLocal(w.m, m', w.c, w.l, w.head, k.base, w.top);
    MapPage(w.pte, k.lo, w.hi, w.owner, f);
    HeapEntryFrame(f);
    RemapKeepsList(w.m, w.pf, w.owner, w.stray, f, Mapped(w.hi));
    ListKept(w.m, m', w.pf, w.pageHead, Live(w.c), Live(w.c), w'.owner, w.stray);
    MoveFrame(w.owner, f, Mapped(w.hi));
    MapStepMap(k, w, w', f);
  }

  lemma MapStepMap(k: Layout, w: World, w': World, f: Word)
    requires MapOk(k, w) && f in w.owner && w.hi + 2 < PAGES && f % PAGE_SIZE == 0
    requires w'.frontier == w.frontier && w'.hi == w.hi + 1 && w'.owner == w.owner[f := Mapped(w.hi)]
    requires w'.pte == w.pte[w.hi := HeapEntry(f)] && MapAccounted(w'.pte, k.lo, w'.hi, w'.owner)
    ensures MapOk(k, w')
  {
  }

  /** The stores of `page_free` for page `p`, with the node that it was given. */
  ghost function Recorded(w: World, p: int, node: Word): World
    requires 0 <= p < |w.pte|
  {
    w.(m := Poke(Poke(w.m, node, FrameOf(w.pte[p])), node + 4, w.pageHead), pte := w.pte[p := w.pte[p] - w.pte[p] % 2], pageHead := node)
  }

  /**
   What they stand for: the frame goes to the page free list - from below the heap, or from its topmost page.
   The frame that a page above the heap names is not one that the list can have.
   */
  ghost function Accounted(k: Layout, w: World, p: int, node: Word): World
    requires 0 <= p < |w.pte|
  {
    if p >= w.hi then Recorded(w, p, node).(pf := [node] + w.pf, stray := node)
    else if p < k.firstPage then Recorded(w, p, node).(pf := [node] + w.pf, owner := w.owner[FrameOf(w.pte[p]) := Listed(node)])
    else GivenBack(w, p, node)
  }

  ghost function GivenBack(w: World, p: int, node: Word): World
    requires 0 <= p < |w.pte|
  {
    Recorded(w, p, node).(pf := [node] + w.pf, owner := w.owner[FrameOf(w.pte[p]) := Listed(node)], hi := w.hi - 1)
  }

  lemma GivenBackIs(w: World, w': World, p: int, node: Word, f: Word)
    requires 0 <= p < |w.pte| && w' == GivenBack(w, p, node) && f == FrameOf(w.pte[p])
    ensures w'.m == Poke(Poke(w.m, node, f), node + 4, w.pageHead) && |w'.m| == |w.m| && w'.pte == w.pte[p := w.pte[p] - w.pte[p] % 2]
    ensures w'.owner == w.owner[f := Listed(node)] && w'.pageHead == node && w'.pf == [node] + w.pf && w'.hi == w.hi - 1
    ensures w'.c == w.c && w'.l == w.l && w'.head == w.head && w'.top == w.top && w'.end == w.end && w'.stray == w.stray && w'.frontier == w.frontier
  {
  }

  /** The topmost heap page goes; its frame is recorded in `node`, which joins the page free list. */
  lemma RecordStep(k: Layout, w: World, w': World, node: Word, p: int)
    requires CutOff(k, w) && p == w.hi - 1 && w.top <= PAGE_SIZE * p && 0 <= p < |w.pte|
    requires node in UserMap(w) && w' == GivenBack(w, p, node)
    ensures CutOff(k, w')
    ensures UserMap(w') == UserMap(w) - {node} && HeldFrames(w'.owner) == HeldFrames(w.owner)
    ensures Preserved(w.m, w'.m, UserMap(w) - {node})
  {
    var f := FrameOf(w.pte[p]);
    GivenBackIs(w, w', p, node, f);
    NodeInside(k, w, node);
    RecordFrame(k, w, w', node, p, f);
    RecordList(k, w, w'.m, w.m, node, f, w.stray);
    StillCutOff(k, w, w', node);
    UsersPushed(Live(w.c), w.pf, node);
    MoveFrame(w.owner, f, Listed(node));
  }

  lemma NodeInside(k: Layout, w: World, node: int)
    requires CutOff(k, w) && node in UserMap(w)
    ensures HeapOk(k, w) && MapOk(k, w) && ListOk(w) && TrailClear(w.m, w.c, w.top, 0)
    ensures k.base <= node && node + 16 <= w.top && 8 <= Live(w.c)[node]
  {
    LiveIsBelow(w.m, w.c, w.l, w.head, k.base, w.top, node);
  }

  lemma RecordFrame(k: Layout, w: World, w': World, node: Word, p: int, f: Word)
    requires MapOk(k, w) && HeapOk(k, w) && p == w.hi - 1 && w.top <= PAGE_SIZE * p && 0 <= p < |w.pte| && f == FrameOf(w.pte[p])
    requires w'.frontier == w.frontier && w'.hi == p && w'.owner == w.owner[f := Listed(node)]
    requires w'.pte == w.pte[p := w.pte[p] - w.pte[p] % 2]
    ensures f in w.owner && w.owner[f] == Mapped(p) && MapOk(k, w')
  {
    MappedAbove(k, w);
    UnmapPage(w.pte, k.lo, w.hi, w.owner, Listed(node));
    RecordMap(k, w, w', f, node);
  }

  /** The pages above the heap's own first one are the heap's. */
  lemma MappedAbove(k: Layout, w: World)
    requires MapOk(k, w) && HeapOk(k, w) && w.top <= PAGE_SIZE * (w.hi - 1)
    ensures k.lo < w.hi && MapAccounted(w.pte, k.lo, w.hi, w.owner)
  {
  }

  lemma StillCutOff(k: Layout, w: World, w': World, node: Word)
    requires CutOff(k, w) && w.top <= PAGE_SIZE * (w.hi - 1)
    requires w'.c == w.c && w'.l == w.l && w'.head == w.head && w'.top == w.top && w'.end == w.end && w'.hi == w.hi - 1
    requires w'.pf == [node] + w.pf && w'.stray == w.stray && |w'.m| == |w.m|
    requires Core(w'.m, w'.c, w'.l, w'.head, k.base, w'.top) && TrailClear(w'.m, w'.c, w'.top, 0) && MapOk(k, w')
    requires PageList(w'.m, w'.pf, w'.pageHead, Live(w'.c)) && ListAccounted(w'.m, w'.pf, w'.owner, w'.stray)
    ensures CutOff(k, w')
  {
  }

  lemma RecordList(k: Layout, w: World, m': seq<Word>, m: seq<Word>, node: Word, f: Word, stray: int)
    requires HeapOk(k, w) && ListOk(w) && TrailClear(m, w.c, w.top, 0) && m == w.m && stray == w.stray
    requires node in UserMap(w) && f in w.owner && !w.owner[f].Listed? && k.base <= node && node + 16 <= w.top
    requires 8 <= Live(w.c)[node] && m' == Poke(Poke(m, node, f), node + 4, w.pageHead)
    ensures Core(m', w.c, w.l, w.head, k.base, w.top) && TrailClear(m', w.c, w.top, 0)
    ensures PageList(m', [node] + w.pf, node, Live(w.c)) && ListAccounted(m', [node] + w.pf, w.owner[f := Listed(node)], stray)
    ensures Preserved(m, m', UserMap(w) - {node})
  {
    PayloadStores(m, m', w.c, w.l, w.head, k.base, w.top, node);
    PushPage(m, m', w.pf, w.pageHead, Live(w.c), w.owner, stray, node, f);
    UsersWithout(Live(w.c), w.pf, node);
    PreservedUsers(m, m', Live(w.c) - {node}, w.pf);
  }

  lemma RecordMap(k: Layout, w: World, w': World, f: Word, node: Word)
    requires MapOk(k, w) && HeapOk(k, w) && w.top <= PAGE_SIZE * (w.hi - 1) && f in w.owner
    requires w'.frontier == w.frontier && w'.hi == w.hi - 1 && w'.owner == w.owner[f := Listed(node)]
    requires w'.pte == w.pte[w.hi - 1 := w.pte[w.hi - 1] - w.pte[w.hi - 1] % 2]
    requires MapAccounted(w'.pte, k.lo, w'.hi, w'.owner)
    ensures MapOk(k, w')
  {
  }

  /** The loop starts a page too high: the node records what a page above the heap was last mapped to, if it ever was. */
  lemma StrayStep(k: Layout, w: World, w': World, node: Word, x: Word)
    requires CutOff(k, w) && w.stray == 0 && node in UserMap(w)
    requires w' == w.(m := Poke(Poke(w.m, node, x), node + 4, w.pageHead), pageHead := node, pf := [node] + w.pf, stray := node)
    ensures CutOff(k, w') && node != 0
    ensures UserMap(w') == UserMap(w) - {node}
    ensures Preserved(w.m, w'.m, UserMap(w) - {node})
  {
    LiveIsBelow(w.m, w.c, w.l, w.head, k.base, w.top, node);
    StrayList(k, w, w'.m, w.m, node, x);
    UsersPushed(Live(w.c), w.pf, node);
    MapOnly(k, w, w');
  }

  lemma StrayList(k: Layout, w: World, m': seq<Word>, m: seq<Word>, node: Word, x: Word)
    requires HeapOk(k, w) && ListOk(w) && TrailClear(m, w.c, w.top, 0) && m == w.m && w.stray == 0
    requires node in UserMap(w) && 8 <= k.base <= node && node + 16 <= w.top
    requires 8 <= Live(w.c)[node] && m' == Poke(Poke(m, node, x), node + 4, w.pageHead)
    ensures Core(m', w.c, w.l, w.head, k.base, w.top) && TrailClear(m', w.c, w.top, 0)
    ensures PageList(m', [node] + w.pf, node, Live(w.c)) && ListAccounted(m', [node] + w.pf, w.owner, node)
    ensures Preserved(m, m', UserMap(w) - {node})
  {
    PayloadStores(m, m', w.c, w.l, w.head, k.base, w.top, node);
    PushStray(m, m', w.pf, w.pageHead, Live(w.c), w.owner, node);
    UsersWithout(Live(w.c), w.pf, node);
    PreservedUsers(m, m', Live(w.c) - {node}, w.pf);
  }

  /** A page below the heap is given up: its frame, which boot had put there, joins the page free list. */
  lemma GiveUpStep(k: Layout, w: World, w': World, node: Word, p: int, f: Word)
    requires Resting(k, w) && node in UserMap(w) && 0 <= p < k.firstPage && p < |w.pte|
    requires f == FrameOf(w.pte[p]) && f in w.owner && w.owner[f] == Fixed
    requires w' == w.(m := Poke(Poke(w.m, node, f), node + 4, w.pageHead), pte := w.pte[p := w.pte[p] - w.pte[p] % 2],
                      pageHead := node, pf := [node] + w.pf, owner := w.owner[f := Listed(node)])
    ensures Resting(k, w')
    ensures UserMap(w') == UserMap(w) - {node} && HeldFrames(w'.owner) == HeldFrames(w.owner)
    ensures Preserved(w.m, w'.m, UserMap(w) - {node})
  {
    LiveIsBelow(w.m, w.c, w.l, w.head, k.base, w.top, node);
    RecordList(k, w, w'.m, w.m, node, f, 0);
    UsersPushed(Live(w.c), w.pf, node);
    MoveFrame(w.owner, f, Listed(node));
    GiveUpMap(k, w, w', f, node, p);
  }

  lemma GiveUpMap(k: Layout, w: World, w': World, f: Word, node: Word, p: int)
    requires MapOk(k, w) && 0 <= p < k.firstPage && p < |w.pte| && f in w.owner && w.owner[f] == Fixed
    requires w'.frontier == w.frontier && w'.hi == w.hi && w'.owner == w.owner[f := Listed(node)]
    requires w'.pte == w.pte[p := w.pte[p] - w.pte[p] % 2]
    ensures MapOk(k, w')
  {
  }

  /** Stores above the chunks, but inside the reserved region, concern neither chunks nor callers. */
  lemma LooseStep(k: Layout, w: World, w': World)
    requires Reserved(k, w) && w' == w.(m := w'.m) && |w'.m| == |w.m|
    requires forall x :: 0 <= x < w.top ==> w'.m[x] == w.m[x]
    ensures Reserved(k, w') && UserMap(w') == UserMap(w) && Preserved(w.m, w'.m, UserMap(w))
  {
    CoreIsLocal(w.m, w'.m, w.c, w.l, w.head, k.base, w.top);
    ListKept(w.m, w'.m, w.pf, w.pageHead, Live(w.c), Live(w.c), w.owner, w.stray);
    PreservedUsers(w.m, w'.m, Live(w.c), w.pf);
    MapOnly(k, w, w');
  }

  // ----- Blocks -----

  /** A free-list node has become the live block `n`. */
  lemma ServeStep(k: Layout, w: World, w': World, n: int, bytes: nat)
    requires Ok(k, w) && w' == w.(m := w'.m, head := w'.head, c := w'.c, l := w'.l) && n !in Live(w.c)
    requires BlockServed(w.m, w'.m, w.c, w'.c, w'.l, w'.head, k.base, w.top, n, bytes)
    ensures Ok(k, w') && UserMap(w') == UserMap(w)[n := bytes] && LastLive(w'.c, w'.top)
    ensures Preserved(w.m, w'.m, UserMap(w))
  {
    ServedHeap(k, w, w', n, bytes);
    ListKept(w.m, w'.m, w.pf, w.pageHead, Live(w.c), Live(w'.c), w.owner, w.stray);
    UsersAdded(Live(w.c), w.pf, n, bytes);
    PreservedUsers(w.m, w'.m, Live(w.c), w.pf);
  }

  lemma ServedHeap(k: Layout, w: World, w': World, n: int, bytes: nat)
    requires Ok(k, w) && w'.top == w.top && w'.hi == w.hi
    requires BlockServed(w.m, w'.m, w.c, w'.c, w'.l, w'.head, k.base, w.top, n, bytes)
    ensures HeapOk(k, w') && TrailClear(w'.m, w'.c, w'.top, 0) && LastLive(w'.c, w'.top)
    ensures Live(w'.c) == Live(w.c)[n := bytes] && Preserved(w.m, w'.m, Live(w.c))
  {
  }

  lemma UsersAdded(live: map<int, nat>, pf: seq<int>, n: int, bytes: nat)
    requires n !in live && forall i :: 0 <= i < |pf| ==> pf[i] in live
    ensures Users(live[n := bytes], pf) == Users(live, pf)[n := bytes]
  {
    assert n !in pf;
  }

  /** The caller's block `v` has been merged with its free neighbours into the block `v'`. */
  lemma MergeStep(k: Layout, w: World, w': World, v: int, v': int)
    requires Reserved(k, w) || Resting(k, w)
    requires v in UserMap(w)
    requires w' == w.(m := w'.m, head := w'.head, c := w'.c, l := w'.l)
    requires HeapOk(k, w') && TrailClear(w'.m, w'.c, w'.top, v')
    requires v' in w'.c && !w'.c[v'].free && !NextFree(w'.c, v') && !PrevFree(w'.c, v')
    requires LastLive(w.c, w.top) ==> LastLive(w'.c, w.top)
    requires Live(w'.c) - {v'} == Live(w.c) - {v} && Preserved(w.m, w'.m, Live(w.c) - {v})
    ensures Merging(k, w', v')
    ensures UserMap(w') - {v'} == UserMap(w) - {v}
    ensures Preserved(w.m, w'.m, UserMap(w) - {v})
  {
    ListWithout(w.m, w.pf, w.pageHead, Live(w.c), v);
    ListKept(w.m, w'.m, w.pf, w.pageHead, Live(w.c) - {v}, Live(w'.c) - {v'}, w.owner, w.stray);
    UsersWithout(Live(w.c), w.pf, v);
    UsersWithout(Live(w'.c), w.pf, v');
    PreservedUsers(w.m, w'.m, Live(w.c) - {v}, w.pf);
    MapOnly(k, w, w');
  }

  lemma MapOnly(k: Layout, w: World, w': World)
    requires MapOk(k, w) && w'.pte == w.pte && w'.hi == w.hi && w'.owner == w.owner && w'.frontier == w.frontier
    ensures MapOk(k, w')
  {
  }

  /** The merged block `v` is back on the free list. */
  lemma InsertStep(k: Layout, w: World, w': World, v: int)
    requires Merging(k, w, v) && Next(w.c, v) != w.end
    requires w' == w.(m := w'.m, head := w'.head, c := w'.c, l := w'.l)
    requires Inserted(w.m, w'.m, w.c, w'.c, w'.l, w'.head, k.base, w.top, v)
    ensures if w.top == w.end then Resting(k, w') else Reserved(k, w')
    ensures UserMap(w') == UserMap(w) - {v}
    ensures Preserved(w.m, w'.m, UserMap(w) - {v})
  {
    InsertedHeap(k, w, w', v);
    ListKept(w.m, w'.m, w.pf, w.pageHead, Live(w.c) - {v}, Live(w'.c), w.owner, w.stray);
    UsersWithout(Live(w.c), w.pf, v);
    PreservedUsers(w.m, w'.m, Live(w.c) - {v}, w.pf);
    MapOnly(k, w, w');
  }

  lemma InsertedHeap(k: Layout, w: World, w': World, v: int)
    requires Merging(k, w, v) && Next(w.c, v) != w.end && w'.top == w.top && w'.hi == w.hi
    requires Inserted(w.m, w'.m, w.c, w'.c, w'.l, w'.head, k.base, w.top, v)
    ensures HeapOk(k, w') && TrailClear(w'.m, w'.c, w'.top, 0)
    ensures Live(w'.c) == Live(w.c) - {v} && Preserved(w.m, w'.m, Live(w.c) - {v})
    ensures w.top == w.end ==> LastLive(w'.c, w'.top)
  {
  }

  /** The merged last block `v` is cut off. */
  lemma CutStep(k: Layout, w: World, w': World, v: int)
    requires Merging(k, w, v) && Next(w.c, v) == w.end
    requires w' == w.(c := w.c - {v}, top := v)
    ensures CutOff(k, w') && w.top == w.end && EndPage(w'.end, w'.hi)
    ensures UserMap(w') == UserMap(w) - {v}
  {
    assert Next(w.c, v) <= w.top by { EveryNextIsBelow(w, k.base, v); }
    assert w.end % 8 == 0 by { TopIsAligned(w.c, k.base, w.top); }
    CutStage(w.m, w.c, w'.c, w.l, w.head, k.base, w.top, v);
    UsersWithout(Live(w.c), w.pf, v);
    MapOnly(k, w, w');
  }

  lemma EveryNextIsBelow(w: World, base: int, v: int)
    requires Core(w.m, w.c, w.l, w.head, base, w.top) && v in w.c
    ensures Next(w.c, v) <= w.top && base <= v && 1 <= w.c[v].units
  {
  }

  /** Padding has been added at the end. */
  lemma PadStep(k: Layout, w: World, w': World)
    requires Resting(k, w) && w' == w.(m := w'.m, head := w'.head, c := w'.c, l := w'.l, top := w'.end, end := w'.end)
    requires HeapOk(k, w') && TrailClear(w'.m, w'.c, w'.top, 0) && w'.end <= HEAP_LIMIT
    requires Live(w'.c) == Live(w.c) && Preserved(w.m, w'.m, Live(w.c))
    ensures Ok(k, w') && UserMap(w') == UserMap(w)
    ensures Preserved(w.m, w'.m, UserMap(w))
  {
    PadList(k, w, w');
    PreservedUsers(w.m, w'.m, Live(w.c), w.pf);
    MapOnly(k, w, w');
  }

  lemma PadList(k: Layout, w: World, w': World)
    requires Ok(k, w) && w'.pf == w.pf && w'.pageHead == w.pageHead && w'.owner == w.owner && w'.stray == w.stray
    requires Live(w'.c) == Live(w.c) && Preserved(w.m, w'.m, Live(w.c))
    ensures ListOk(w')
  {
    ListKept(w.m, w'.m, w.pf, w.pageHead, Live(w.c), Live(w'.c), w.owner, w.stray);
  }

  /** The reserved region has become the live block at the old top. */
  lemma NewBlockStep(k: Layout, w: World, w': World, bytes: nat)
    requires Reserved(k, w) && EndPage(w.end, w.hi) && w' == w.(m := w'.m, c := w'.c, top := w.end)
    requires HeapOk(k, w') && TrailClear(w'.m, w'.c, w'.top, 0) && LastLive(w'.c, w'.top)
    requires w.top !in w.c && Live(w'.c) == Live(w.c)[w.top := bytes] && Preserved(w.m, w'.m, Live(w.c))
    ensures Resting(k, w') && UserMap(w') == UserMap(w)[w.top := bytes]
    ensures Preserved(w.m, w'.m, UserMap(w))
  {
    ListKept(w.m, w'.m, w.pf, w.pageHead, Live(w.c), Live(w'.c), w.owner, w.stray);
    UsersAdded(Live(w.c), w.pf, w.top, bytes);
    PreservedUsers(w.m, w'.m, Live(w.c), w.pf);
    MapOnly(k, w, w');
  }
}
