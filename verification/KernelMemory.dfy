/** The kernel heap and its physical frames: alloc.c and the frame half of page.c. */
module KernelMemory {
  import opened Machine
  import opened Heap
  import opened HeapSteps
  import opened HeapMoves
  import opened HeapStages
  import opened FirstFit
  import opened Coalescing
  import opened Frames
  import opened KernelState
  import opened Requests

  class Kernel {
    /** Virtual memory: the word stored at each word-aligned address. */
    const mem: array<Word>
    /** The page table entry of each virtual page. */
    const pte: array<Word>
    // The fields of kernel_ctxt.
    var freeList: Word
    var end: Word
    // page_free_list and kernel_heap_end_pma.
    var pageFreeList: Word
    var heapEndPma: Word

    // What the above stands for; see `World`.
    ghost const layout: Layout
    ghost var chunks: Chunks
    ghost var order: seq<int>
    ghost var top: int
    ghost var pages: seq<int>
    ghost var hi: int
    ghost var owner: map<Word, Place>
    ghost var stray: int

    /** The whole state as a value. */
    ghost function W(): World
      reads this, mem, pte
    {
      World(mem[..], pte[..], freeList, end, pageFreeList, heapEndPma, chunks, order, top, pages, hi, owner, stray)
    }

    /** `kmalloc_init` for the first heap of the kernel: no page has been freed yet, and no page above the first is mapped. */
    constructor (heapStart: Word, nextPma: Word, entries: array<Word>, ghost boot: map<Word, Place>)
      requires entries.Length == PAGES && PAGE_SIZE <= heapStart && heapStart + 16 <= HEAP_LIMIT
      requires nextPma % PAGE_SIZE == 0 && nextPma + PAGE_SIZE < WORD_LIMIT && UsedByBoot(boot, nextPma)
      requires FreeAbove(entries[..], Align(heapStart, 8) / PAGE_SIZE)
      modifies entries
      ensures Idle() && chunks == map[] && order == [] && pages == [] && UserMap(W()) == map[]
      ensures layout.base == Align(heapStart, 8) + 8 == end && HeldFrames(owner) == {}
      ensures heapEndPma == if old(Present(entries[Align(heapStart, 8) / PAGE_SIZE])) then nextPma else nextPma + PAGE_SIZE
      ensures FixedFrames(owner) == boot.Keys
      ensures fresh(mem) && pte == entries
    {
      var first := Align(heapStart, 8);
      AlignIsLeast(heapStart, 8);
      var page := first / PAGE_SIZE;
      var words := new Word[WORD_LIMIT];
      words[first] := 0;
      var isNew := !Present(entries[page]);
      HeapEntryFrame(nextPma);
      if isNew {
        FreeAboveKept(entries[..], page, HeapEntry(nextPma));
        entries[page] := HeapEntry(nextPma);
      }
      assert FreeAbove(entries[..], page);
      mem, pte := words, entries;
      freeList, pageFreeList := 0, 0;
      end := first + 8;
      heapEndPma := if isNew then nextPma + PAGE_SIZE else nextPma;
      layout := Layout(first + 8, if isNew then page else page + 1, page);
      chunks, order, pages, top, hi, stray := map[], [], [], first + 8, page + 1, 0;
      owner := if isNew then boot[nextPma := Mapped(page)] else boot;
      new;
      FirstWorld(layout, W(), first, page, isNew, nextPma, boot);
    }

    /** Between operations. */
    ghost predicate Idle()
      reads this, mem, pte
    {
      Resting(layout, W())
    }

    /** Inside `alloc`, once `end` has been raised. */
    ghost predicate Growing()
      reads this, mem, pte
    {
      Reserved(layout, W())
    }

    /** Inside the page loop of `free`. */
    ghost predicate Shrinking()
      reads this, mem, pte
    {
      CutOff(layout, W())
    }

    ghost predicate HeapInv()
      reads `chunks, `order, `freeList, `top, `hi, mem
    {
      && mem.Length == WORD_LIMIT
      && Core(mem[..], chunks, order, freeList, layout.base, top)
      && Coalesced(chunks)
      && top <= PAGE_SIZE * hi <= WORD_LIMIT
    }

    /** Addresses at or above the first descriptor, in mapped heap pages. */
    ghost predicate Reachable(a: int)
      reads `hi
    {
      layout.base - 8 <= a < PAGE_SIZE * hi && 0 <= a < WORD_LIMIT
    }

    ghost predicate NodeOrNull(a: int)
      reads `hi
    {
      a != 0 ==> Reachable(a) && Reachable(a + 4)
    }

    method Load(a: int) returns (w: Word)
      requires mem.Length == WORD_LIMIT && Reachable(a)
      ensures w == mem[..][a]
    {
      w := mem[a];
    }

    method Store(a: int, w: Word)
      requires mem.Length == WORD_LIMIT && Reachable(a)
      modifies mem
      ensures mem[..] == Poke(old(mem[..]), a, w)
    {
      mem[a] := w;
    }

    method NodeUnlink(n: Word, ghost k: nat)
      requires HeapInv()
      requires k < |order| && order[k] == n
      modifies this`freeList, mem
      ensures mem[..] == Unlink(old(mem[..]), n)
      ensures freeList == HeadAfterUnlink(old(mem[..]), n, old(freeList))
    {
      NodeAt(mem[..], chunks, order, freeList, layout.base, top, k);
      UnlinkAt(n);
    }

    /** The loads and stores of `alloc_node_unlink`. */
    method UnlinkAt(n: Word)
      requires mem.Length == WORD_LIMIT && Reachable(n) && Reachable(n + 4)
      requires mem[n] != n && NodeOrNull(mem[n]) && NodeOrNull(mem[n + 4])
      modifies this`freeList, mem
      ensures mem[..] == Unlink(old(mem[..]), n)
      ensures freeList == HeadAfterUnlink(old(mem[..]), n, old(freeList))
    {
      var prev := Load(n);
      var next := Load(n + 4);
      if prev != 0 {
        Store(prev + 4, next);
      } else {
        freeList := next;
      }
      if next != 0 {
        Store(next, prev);
      }
    }

    method NodeAdd(n: Word)
      requires mem.Length == WORD_LIMIT && Reachable(n) && Reachable(n + 4) && (freeList != 0 ==> Reachable(freeList))
      modifies this`freeList, mem
      ensures mem[..] == Pushed(old(mem[..]), n, old(freeList))
      ensures freeList == n
    {
      Store(n, 0);
      Store(n + 4, freeList);
      if freeList != 0 {
        Store(freeList, n);
      }
      freeList := n;
    }

    /** `alloc_get_size`: the size word with the flags masked off. */
    method GetSize(a: Word, ghost k: Chunk) returns (size: Word)
      requires mem.Length == WORD_LIMIT && Reachable(a - 4) && mem[..][a - 4] == Tag(k)
      ensures size == k.Size()
    {
      TagBits(k);
      var s := Load(a - 4);
      size := s - s % 8;
    }

    /** The free bit of a size word. */
    method IsFree(x: int, ghost k: Chunk) returns (free: bool)
      requires mem.Length == WORD_LIMIT && Reachable(x) && mem[..][x] == Tag(k)
      ensures free == k.free
    {
      TagBits(k);
      var s := Load(x);
      free := s % 2 == 1;
    }

    /** `alloc_clear_free`: clears the free bit in both copies of the tag. */
    method ClearFree(a: Word, ghost k: Chunk)
      requires mem.Length == WORD_LIMIT && Reachable(a - 4) && Reachable(a + k.Size())
      requires 1 <= k.units && mem[..][a - 4] == Tag(k) && mem[..][a + k.Size()] == Tag(k)
      modifies mem
      ensures mem[..] == Retagged(old(mem[..]), a, a + k.Size() + 8, k.Size())
    {
      TagBits(k);
      var size := GetSize(a, k);
      var s := Load(a - 4);
      Store(a - 4, s - s % 2);
      var p := Load(a + size);
      Store(a + size, p - p % 2);
    }

    /** `alloc_set_free`: sets the free bit in both copies of the tag. */
    method SetFree(a: Word, ghost k: Chunk)
      requires mem.Length == WORD_LIMIT && Reachable(a - 4) && Reachable(a + k.Size())
      requires 1 <= k.units && !k.free && mem[..][a - 4] == Tag(k) && mem[..][a + k.Size()] == Tag(k)
      modifies mem
      ensures k.Size() + 1 < WORD_LIMIT
      ensures mem[..] == Retagged(old(mem[..]), a, a + k.Size() + 8, k.Size() + 1)
    {
      TagBits(k);
      var size := GetSize(a, k);
      var s := Load(a - 4);
      assert s == 8 * k.units;
      Store(a - 4, s + 1 - s % 2);
      TagBits(Chunk(k.units, true));
      var p := Load(a + size);
      Store(a + size, p + 1 - p % 2);
    }

    /** A perfect fit leaves the free list whole. */
    method TakeWhole(n: Word, ghost k: nat)
      requires HeapInv() && LastLive(chunks, top) && TrailClear(mem[..], chunks, top, 0)
      requires k < |order| && order[k] == n
      modifies this`freeList, this`chunks, this`order, mem
      ensures chunks == old(chunks)[n := Chunk(old(chunks)[n].units, false)] && order == RemoveAt(old(order), k)
      ensures BlockServed(old(mem[..]), mem[..], old(chunks), chunks, order, freeList, layout.base, top, n, old(chunks)[n].Size())
    {
      ghost var m, c, l := mem[..], chunks, order;
      ReadTag(m, c, layout.base, top, n);
      NodeUnlink(n, k);
      UnlinkedReads(m, mem[..], c, l, old(freeList), layout.base, top, k, n);
      ClearFree(n, c[n]);
      chunks := c[n := Chunk(c[n].units, false)];
      order := RemoveAt(order, k);
      TakeStep(m, mem[..], c, chunks, l, order, old(freeList), freeList, layout.base, top, k, c[n].Size());
    }

    /** A larger chunk is cut; the remainder takes the place of the node in the free list. */
    method Split(n: Word, bytes: Word, ghost k: nat, ghost u: nat)
      requires HeapInv() && LastLive(chunks, top) && TrailClear(mem[..], chunks, top, 0)
      requires k < |order| && order[k] == n
      requires bytes == 8 * u && 1 <= u && u + 2 <= chunks[n].units
      modifies this`freeList, this`chunks, this`order, mem
      ensures chunks == SplitAt(old(chunks), n, u) && order == old(order)[k := n + bytes + 8]
      ensures BlockServed(old(mem[..]), mem[..], old(chunks), chunks, order, freeList, layout.base, top, n, bytes)
    {
      ghost var m, c, l, head := mem[..], chunks, order, freeList;
      var tag;
      ghost var m1;
      tag, m1 := SplitStores(n, bytes, k, u);
      chunks, order := SplitAt(c, n, u), l[k := n + bytes + 8];
      SplitStage(m, m1, mem[..], c, chunks, l, order, head, freeList, layout.base, top, k, u, n, bytes, n + bytes + 8, tag);
    }

    /** The stores of a split. */
    method SplitStores(n: Word, bytes: Word, ghost k: nat, ghost u: nat) returns (tag: Word, ghost m1: seq<Word>)
      requires HeapInv() && k < |order| && order[k] == n
      requires bytes == 8 * u && 1 <= u && u + 2 <= chunks[n].units
      modifies this`freeList, mem
      ensures n in chunks && tag == 8 * (chunks[n].units - u - 1) + 1 && n + bytes + 8 < WORD_LIMIT
      ensures m1 == SplitTags(old(mem[..]), n, bytes, Next(chunks, n), tag) && |m1| == WORD_LIMIT
      ensures mem[..] == Moved(m1, n + bytes + 8, m1[n], m1[n + 4])
      ensures freeList == if m1[n] != 0 then old(freeList) else n + bytes + 8
    {
      NodeIsFree(chunks, order, k);
      NodeAt(mem[..], chunks, order, freeList, layout.base, top, k);
      ReadTag(mem[..], chunks, layout.base, top, n);
      var size := GetSize(n, chunks[n]);
      tag, m1 := SplitBy(n, bytes, size, chunks[n], u);
    }

    /** The same for a node, its neighbours and its chunk that can be reached. */
    method SplitBy(n: Word, bytes: Word, size: Word, ghost chunk: Chunk, ghost u: nat) returns (tag: Word, ghost m1: seq<Word>)
      requires mem.Length == WORD_LIMIT && Reachable(n - 4) && Reachable(n + chunk.Size())
      requires size == chunk.Size() && chunk.free && mem[..][n - 4] == Tag(chunk)
      requires bytes == 8 * u && 1 <= u && u + 2 <= chunk.units && n + size < WORD_LIMIT
      requires NodeOrNull(mem[..][n]) && NodeOrNull(mem[..][n + 4])
      modifies this`freeList, mem
      ensures tag == 8 * (chunk.units - u - 1) + 1 && n + bytes + 8 < WORD_LIMIT
      ensures m1 == SplitTags(old(mem[..]), n, bytes, n + size + 8, tag) && |m1| == WORD_LIMIT
      ensures mem[..] == Moved(m1, n + bytes + 8, m1[n], m1[n + 4])
      ensures freeList == if m1[n] != 0 then old(freeList) else n + bytes + 8
    {
      tag := SplitDescriptors(n, bytes, size, chunk, u);
      m1 := mem[..];
      MoveNode(n, n + bytes + 8, m1);
    }

    method SplitDescriptors(n: Word, bytes: Word, size: Word, ghost chunk: Chunk, ghost u: nat) returns (tag: Word)
      requires mem.Length == WORD_LIMIT && Reachable(n - 4) && Reachable(n + chunk.Size())
      requires size == chunk.Size() && chunk.free && mem[..][n - 4] == Tag(chunk)
      requires bytes == 8 * u && 1 <= u && u + 2 <= chunk.units
      modifies mem
      ensures tag == 8 * (chunk.units - u - 1) + 1
      ensures mem[..] == SplitTags(old(mem[..]), n, bytes, n + size + 8, tag)
    {
      Store(n + bytes, bytes);
      var s := Load(n - 4);
      tag := s - bytes - 8;
      Store(n + bytes + 4, tag);
      Store(n + size, tag);
      Store(n - 4, bytes);
    }

    /** Copies the list node at `n` to `n'` and points its neighbours at the copy. */
    method MoveNode(n: Word, n': Word, ghost m: seq<Word>)
      requires mem.Length == WORD_LIMIT && Reachable(n) && Reachable(n + 4) && Reachable(n') && Reachable(n' + 4)
      requires NodeOrNull(mem[n]) && NodeOrNull(mem[n + 4])
      requires n' != n && n' != n + 4 && n' + 4 != n && m == mem[..]
      modifies this`freeList, mem
      ensures mem[..] == Moved(m, n', m[n], m[n + 4])
      ensures freeList == if m[n] != 0 then old(freeList) else n'
    {
      var prev := Load(n);
      var next := Load(n + 4);
      Store(n', prev);
      Store(n' + 4, next);
      if prev != 0 {
        Store(prev + 4, n');
      } else {
        freeList := n';
      }
      if next != 0 {
        Store(next, n');
      }
    }

    /** Writes both copies of the tag of a chunk of `size` bytes. */
    method WriteTags(a: Word, size: Word, tag: Word)
      requires mem.Length == WORD_LIMIT && Reachable(a - 4) && Reachable(a + size)
      modifies mem
      ensures mem[..] == Retagged(old(mem[..]), a, a + size + 8, tag)
    {
      Store(a - 4, tag);
      Store(a + size, tag);
    }

    /** `chunk_next->size & KM_CHUNK_FREE`. */
    method NextIsFree(v: Word) returns (free: bool)
      requires HeapInv() && TrailClear(mem[..], chunks, top, 0)
      requires v in chunks && !chunks[v].free
      ensures free == NextFree(chunks, v)
    {
      ReadTag(mem[..], chunks, layout.base, top, v);
      var size := GetSize(v, chunks[v]);
      var s := Load(v + size + 4);
      free := s % 2 == 1;
      assert HasNext(chunks, v, top);
      if Next(chunks, v) in chunks {
        ReadTag(mem[..], chunks, layout.base, top, Next(chunks, v));
      }
    }

    /** Merges the live block at `v` with a free chunk after it. */
    method MergeNext(v: Word)
      requires HeapInv() && TrailClear(mem[..], chunks, top, 0)
      requires v in chunks && !chunks[v].free
      modifies this`freeList, this`chunks, this`order, mem
      ensures HeapInv() && TrailClear(mem[..], chunks, top, v)
      ensures Merge(chunks, order, v) == MergeAfter(old(chunks), old(order), v)
      ensures Preserved(old(mem[..]), mem[..], Live(old(chunks)) - {v})
    {
      var free := NextIsFree(v);
      if free {
        ghost var k :| 0 <= k < |order| && order[k] == Next(chunks, v);
        AbsorbNext(v, k);
      }
    }

    method AbsorbNext(v: Word, ghost k: nat)
      requires HeapInv() && TrailClear(mem[..], chunks, top, 0)
      requires v in chunks && !chunks[v].free && NextFree(chunks, v) && k < |order| && order[k] == Next(chunks, v)
      modifies this`freeList, this`chunks, this`order, mem
      ensures HeapInv() && TrailClear(mem[..], chunks, top, v)
      ensures Merge(chunks, order, v) == MergeAfter(old(chunks), old(order), v)
      ensures Preserved(old(mem[..]), mem[..], Live(old(chunks)) - {v})
    {
      ghost var m, c, l := mem[..], chunks, order;
      var tag := AbsorbStores(v, k);
      chunks := Merged(c, v, false);
      order := RemoveAt(l, k);
      MergeAfterStage(m, mem[..], c, chunks, l, order, old(freeList), freeList, layout.base, top, k, v, tag);
    }

    method AbsorbStores(v: Word, ghost k: nat) returns (tag: Word)
      requires HeapInv() && v in chunks && NextFree(chunks, v) && k < |order| && order[k] == Next(chunks, v)
      modifies this`freeList, mem
      ensures tag == Merged(chunks, v, false)[v].Size() && Next(Merged(chunks, v, false), v) == v + tag + 8
      ensures mem[..] == Retagged(Unlink(old(mem[..]), order[k]), v, v + tag + 8, tag)
      ensures freeList == HeadAfterUnlink(old(mem[..]), order[k], old(freeList))
    {
      ghost var m, c := mem[..], chunks;
      ReadTag(m, c, layout.base, top, v);
      ReadTag(m, c, layout.base, top, order[k]);
      var size := GetSize(v, c[v]);
      var nextSize := GetSize(v + size + 8, c[order[k]]);
      tag := size + nextSize + 8;
      UnlinkAndTag(v + size + 8, k, v, tag);
    }

    /** Merges the live block at `v` with a free chunk before it. */
    method MergePrev(v: Word) returns (v': Word)
      requires HeapInv() && TrailClear(mem[..], chunks, top, v)
      requires v in chunks && !chunks[v].free && !NextFree(chunks, v)
      modifies this`freeList, this`chunks, this`order, mem
      ensures HeapInv() && TrailClear(mem[..], chunks, top, v')
      ensures Merge(chunks, order, v') == MergeBefore(old(chunks), old(order), v)
      ensures Preserved(old(mem[..]), mem[..], Live(old(chunks)) - {v})
    {
      ghost var prev := SizePrevLeadsBack(mem[..], chunks, layout.base, top, v);
      var free := IsFree(v - 8, prev);
      if free {
        var prevSize := GetSizePrev(v, prev);
        v' := v - prevSize - 8;
        ghost var k :| 0 <= k < |order| && order[k] == v';
        AbsorbPrev(v, v', prevSize, k);
      } else {
        v' := v;
      }
    }

    method AbsorbPrev(v: Word, p: Word, prevSize: Word, ghost k: nat)
      requires HeapInv() && TrailClear(mem[..], chunks, top, v)
      requires v in chunks && !chunks[v].free && !NextFree(chunks, v)
      requires p in chunks && chunks[p].free && Next(chunks, p) == v && prevSize == chunks[p].Size()
      requires k < |order| && order[k] == p
      modifies this`freeList, this`chunks, this`order, mem
      ensures HeapInv() && TrailClear(mem[..], chunks, top, p)
      ensures Merge(chunks, order, p) == MergeBefore(old(chunks), old(order), v)
      ensures Preserved(old(mem[..]), mem[..], Live(old(chunks)) - {v})
    {
      ghost var m, c, l := mem[..], chunks, order;
      ReadTag(m, c, layout.base, top, v);
      ReadTag(m, c, layout.base, top, p);
      var size := GetSize(v, c[v]);
      var tag := prevSize + size + 8;
      UnlinkAndTag(p, k, p, tag);
      chunks := Merged(c, p, false);
      order := RemoveAt(l, k);
      MergeBeforeStage(m, mem[..], c, chunks, l, order, old(freeList), freeList, layout.base, top, k, p, v, tag);
    }

    /** Unlinks node `n`, then writes the size of the merged chunk at `a`. */
    method UnlinkAndTag(n: Word, ghost k: nat, a: Word, size: Word)
      requires HeapInv() && k < |order| && order[k] == n
      requires Reachable(a - 4) && Reachable(a + size)
      modifies this`freeList, mem
      ensures mem[..] == Retagged(Unlink(old(mem[..]), n), a, a + size + 8, size)
      ensures freeList == HeadAfterUnlink(old(mem[..]), n, old(freeList))
    {
      NodeUnlink(n, k);
      WriteTags(a, size, size);
    }

    /** `alloc_get_size_prev`. */
    method GetSizePrev(v: Word, ghost k: Chunk) returns (size: Word)
      requires mem.Length == WORD_LIMIT && Reachable(v - 8) && mem[..][v - 8] == Tag(k)
      ensures size == k.Size()
    {
      TagBits(k);
      var s := Load(v - 8);
      size := s - s % 8;
    }

    /** A merged block goes back onto the free list. */
    method Insert(v: Word)
      requires HeapInv() && TrailClear(mem[..], chunks, top, v)
      requires v in chunks && !chunks[v].free && !NextFree(chunks, v) && !PrevFree(chunks, v)
      modifies this`freeList, this`chunks, this`order, mem
      ensures chunks == old(chunks)[v := Chunk(old(chunks)[v].units, true)] && order == [v] + old(order)
      ensures Inserted(old(mem[..]), mem[..], old(chunks), chunks, order, freeList, layout.base, top, v)
    {
      ghost var m, c, l, head := mem[..], chunks, order, freeList;
      InsertStores(v);
      chunks, order := c[v := Chunk(c[v].units, true)], [v] + l;
      InsertStage(m, mem[..], c, chunks, l, head, layout.base, top, v, c[v].Size() + 1);
    }

    method InsertStores(v: Word)
      requires HeapInv() && v in chunks && !chunks[v].free
      modifies this`freeList, mem
      ensures chunks[v].Size() + 1 < WORD_LIMIT && freeList == v
      ensures mem[..] == Pushed(Retagged(old(mem[..]), v, v + chunks[v].Size() + 8, chunks[v].Size() + 1), v, old(freeList))
    {
      ReadTag(mem[..], chunks, layout.base, top, v);
      FirstNode(mem[..], chunks, order, freeList, layout.base, top);
      SetFree(v, chunks[v]);
      NodeAdd(v);
    }

    /** Alignment padding of `gap` bytes at the end of the heap becomes a free chunk. */
    method PadEnd(gap: Word, ghost g: nat)
      requires HeapInv() && LastLive(chunks, top) && top == end
      requires gap == 8 * g + 8 && 1 <= g && end + gap <= PAGE_SIZE * hi && end + gap < WORD_LIMIT
      modifies this`freeList, this`end, this`chunks, this`order, this`top, mem
      ensures HeapInv() && TrailClear(mem[..], chunks, top, 0)
      ensures end == old(end) + gap && top == end
      ensures chunks == old(chunks)[old(top) := Chunk(g, true)] && order == [old(top)] + old(order)
      ensures Live(chunks) == Live(old(chunks))
      ensures Preserved(old(mem[..]), mem[..], Live(old(chunks)))
    {
      ghost var m, c, l := mem[..], chunks, order;
      PadStores(gap);
      end := end + gap;
      top := end;
      chunks := c[old(top) := Chunk(g, true)];
      order := [old(top)] + l;
      PadStage(m, mem[..], c, chunks, l, old(freeList), layout.base, old(end), top, g, gap - 7);
    }

    method PadStores(gap: Word)
      requires HeapInv() && top == end && 16 <= gap && end + gap <= PAGE_SIZE * hi && end + gap < WORD_LIMIT
      modifies this`freeList, mem
      ensures mem[..] == Pushed(Retagged(old(mem[..]), end, end + gap, gap - 7), end, old(freeList)) && freeList == end
    {
      FirstNode(mem[..], chunks, order, freeList, layout.base, top);
      WriteTags(end, gap - 8, gap - 8 + 1);
      NodeAdd(end);
    }

    /** Node `k` of the free list serves the request. */
    method Serve(n: Word, size: Word, bytes: Word, ghost k: nat, ghost u: nat)
      requires HeapInv() && LastLive(chunks, top) && TrailClear(mem[..], chunks, top, 0)
      requires k < |order| && order[k] == n && n in chunks && size == chunks[n].Size()
      requires bytes == 8 * u && 1 <= u && Fits(size, bytes)
      modifies this`freeList, this`chunks, this`order, mem
      ensures chunks == ServeChunks(old(chunks), n, u) && order == ServeList(old(chunks), old(order), k, u)
      ensures BlockServed(old(mem[..]), mem[..], old(chunks), chunks, order, freeList, layout.base, top, n, bytes)
    {
      ServeIs(chunks, order, k, u);
      if size == bytes {
        TakeWhole(n, k);
      } else {
        Split(n, bytes, k, u);
      }
    }

    /** The search loop: the first node that fits, or NULL. */
    method FindFit(bytes: Word) returns (n: Word, size: Word, ghost k: nat)
      requires HeapInv() && bytes + 8 < WORD_LIMIT
      ensures k == Search(chunks, order, bytes, 0) && n == At(order, k)
      ensures n != 0 <==> k < |order|
      ensures n != 0 ==> n in chunks && chunks[n].free && size == chunks[n].Size() && Fits(size, bytes)
    {
      n, size, k := freeList, 0, 0;
      while n != 0
        invariant k <= |order| && n == At(order, k) && (n != 0 <==> k < |order|)
        invariant forall j :: 0 <= j < k ==> !Fits(chunks[order[j]].Size(), bytes)
        decreases |order| - k
      {
        var next;
        size, next := VisitNode(n, k);
        if size == bytes || size > bytes + 8 {
          break;
        }
        n := next;
        k := k + 1;
      }
      SearchFindsFirst(chunks, order, bytes, 0, k);
    }

    /** The size of the chunk at a list node, and the next node. */
    method VisitNode(n: Word, ghost k: nat) returns (size: Word, next: Word)
      requires HeapInv() && k < |order| && order[k] == n
      ensures n in chunks && chunks[n].free && size == chunks[n].Size() && next == At(order, k + 1)
      ensures next != 0 <==> k + 1 < |order|
    {
      NodeAt(mem[..], chunks, order, freeList, layout.base, top, k);
      NodeIsFree(chunks, order, k);
      ReadTag(mem[..], chunks, layout.base, top, n);
      size := GetSize(n, chunks[n]);
      next := Load(n + 4);
    }

    /** Writes the descriptors of a block at `vma`, at the end of the heap. */
    method WriteDescriptors(vma: Word, bytes: Word)
      requires mem.Length == WORD_LIMIT && layout.base <= vma && vma + bytes + 8 <= PAGE_SIZE * hi <= WORD_LIMIT
      requires 8 <= layout.base && 8 <= bytes
      modifies mem
      ensures mem[..] == NewLast(old(mem[..]), vma, bytes)
    {
      Store(vma - 4, bytes);
      Store(vma + bytes, bytes);
      Store(vma + bytes + 4, 0);
    }

    method MergeNeighbours(v: Word) returns (v': Word)
      requires HeapInv() && TrailClear(mem[..], chunks, top, 0) && v in chunks && !chunks[v].free
      modifies this`freeList, this`chunks, this`order, mem
      ensures HeapInv() && TrailClear(mem[..], chunks, top, v')
      ensures Merge(chunks, order, v') == MergeBoth(old(chunks), old(order), v)
      ensures v' in chunks && !chunks[v'].free && !NextFree(chunks, v') && !PrevFree(chunks, v')
      ensures Live(chunks) - {v'} == Live(old(chunks)) - {v}
      ensures LastLive(old(chunks), top) ==> LastLive(chunks, top)
      ensures Preserved(old(mem[..]), mem[..], Live(old(chunks)) - {v})
    {
      ghost var m, c, l := mem[..], chunks, order;
      MergeNext(v);
      ghost var m1, c1, l1 := mem[..], chunks, order;
      MergeAfterFacts(c, c1, l, layout.base, top, v);
      v' := MergePrev(v);
      MergeBeforeFacts(c1, chunks, l1, layout.base, top, v, v');
      PreservedTrans(m, m1, mem[..], Live(c) - {v}, Live(c) - {v}, Live(c1) - {v});
    }

    /** A newly mapped page holds whatever its frame held before. */
    method LoseContents(page: Word)
      requires mem.Length == WORD_LIMIT && page + PAGE_SIZE <= WORD_LIMIT
      modifies mem
      ensures forall x :: 0 <= x < WORD_LIMIT && (x < page || page + PAGE_SIZE <= x) ==> mem[x] == old(mem[x])
    {
      var i := 0;
      while i < PAGE_SIZE
        invariant 0 <= i <= PAGE_SIZE
        invariant forall x :: 0 <= x < WORD_LIMIT && (x < page || page + PAGE_SIZE <= x) ==> mem[x] == old(mem[x])
      {
        mem[page + i] := *;
        i := i + 1;
      }
    }

    // ----- alloc -----

    /** The free-list half of `alloc`: first fit. */
    method FromFreeList(bytes: Word, ghost u: nat) returns (n: Word)
      requires Ok(layout, W()) && LastLive(chunks, top)
      requires bytes == 8 * u && 1 <= u && bytes + 8 < WORD_LIMIT
      modifies this`freeList, this`chunks, this`order, mem
      ensures n == 0 ==> Search(old(chunks), old(order), bytes, 0) == |old(order)| && W() == old(W())
      ensures n != 0 ==> Search(old(chunks), old(order), bytes, 0) < |old(order)| && Ok(layout, W()) && LastLive(chunks, top)
      ensures n != 0 ==> ServedFirst(old(W()), W(), n, u) && AddsBlock(old(W()), W(), n, bytes)
    {
      ghost var w := W();
      assert HeapInv();
      var size;
      ghost var k;
      n, size, k := FindFit(bytes);
      if n != 0 {
        Serve(n, size, bytes, k, u);
        ServeStep(layout, w, W(), n, bytes);
      }
    }

    /** That half of `alloc`, as one of its cases. */
    method FromList(bytes: Word, size: Word) returns (n: Word)
      requires (Idle() || Shrinking()) && size == 8 * Units(bytes) && size + 8 < WORD_LIMIT
      modifies this`freeList, this`chunks, this`order, mem
      ensures n == 0 ==> W() == old(W()) && !Listable(chunks, order, 8, bytes)
      ensures n != 0 ==> AllocCase(layout, old(W()), W(), 8, bytes, size, Block(n))
    {
      ghost var w := W();
      UnitsRound(bytes);
      n := FromFreeList(size, Units(bytes));
      if n != 0 {
        ListCase(layout, w, W(), n, bytes, size);
      }
    }

    /** `page_set_entry` for the page just above the heap, with a frame held by a caller. */
    method MapHeapPage(page: Word, pma: Word)
      requires Ok(layout, W()) && page == PAGE_SIZE * hi && hi + 2 < PAGES && pma % PAGE_SIZE == 0
      requires pma in owner && owner[pma] == Held
      modifies `hi, `owner, mem, pte
      ensures PageAdded(layout, old(W()), W(), pma)
    {
      ghost var w := W();
      DivUnique(page, PAGE_SIZE, hi, 0);
      pte[page / PAGE_SIZE] := HeapEntry(pma);
      LoseContents(page);
      owner := owner[pma := Mapped(hi)];
      hi := hi + 1;
      assert pte[..] == w.pte[w.hi := HeapEntry(pma)];
      MapStep(layout, w, W(), mem[..], pma);
    }

    /** The page loop of `alloc`: maps a frame at every page from the old end up to `end`. */
    method MapPages(oldEnd: Word)
      requires Growing() && top <= oldEnd && oldEnd + 16 <= end && EndPage(oldEnd, hi)
      requires heapEndPma + (end - oldEnd) + 2 * PAGE_SIZE < WORD_LIMIT
      modifies this, mem, pte
      decreases 2, 0
      ensures Growing() && EndPage(end, hi) && PagesMapped(old(W()), W())
    {
      ghost var w := W();
      GrowthStarts(layout, w, oldEnd);
      var page := Align(oldEnd, PAGE_SIZE);
      while page < end
        invariant GrowthLoop(layout, w, W(), page)
        decreases end - page
      {
        MapOnePage(page, w, oldEnd);
        page := page + PAGE_SIZE;
      }
    }

    /** One turn of the page loop of `alloc`; the loop started in `w`. */
    method MapOnePage(page: Word, ghost w: World, ghost oldEnd: int)
      requires GrowthLoop(layout, w, W(), page) && page < end == w.end
      requires EndPage(oldEnd, w.hi) && w.frontier + (w.end - oldEnd) + 2 * PAGE_SIZE < WORD_LIMIT
      modifies this, mem, pte
      decreases 1, 1
      ensures GrowthLoop(layout, w, W(), page + PAGE_SIZE)
    {
      ghost var w1 := W();
      FramesAreLeft(layout, w, w1, page, oldEnd);
      var pma, ok := PageNew();
      ghost var w2 := W();
      DrawnIsAligned(layout, w1, w2, pma);
      MapHeapPage(page, pma);
      MappedOne(w, w1, w2, W(), pma, layout);
      GrowthTurns(layout, w, w1, W(), page);
    }

    /** Extends the heap by a block of `bytes` at the aligned end; inside the page loop of `free`, by one for `page_free`. */
    method ExtendHeap(alignment: Word, bytes: Word, ghost u: nat) returns (r: AllocResult)
      requires Idle() || (Shrinking() && stray == 0 && EndPage(end, hi) && alignment == 8 && bytes == 8)
      requires IsAlignment(alignment) && bytes == 8 * u && 1 <= u && Room(alignment, bytes)
      modifies this, mem, pte
      decreases 3, 0
      ensures r != Faulted
      ensures r == Died <==> Align(old(end), alignment) - old(end) == 8
      ensures r.Block? ==> r.vma == Align(old(end), alignment) && Grown(layout, old(W()), W(), r.vma, bytes)
    {
      ghost var w := W();
      var room := PadTo(alignment);
      if !room {
        return Died;
      }
      var vma := AppendBlock(bytes, u, w);
      r := Block(vma);
    }

    /** Aligns the end of the heap; a gap of one descriptor leaves no room for padding. */
    method PadTo(alignment: Word) returns (room: bool)
      requires Idle() || (Shrinking() && stray == 0 && EndPage(end, hi) && alignment == 8)
      requires IsAlignment(alignment) && Align(end, alignment) <= HEAP_LIMIT
      modifies this`freeList, this`end, this`chunks, this`order, this`top, mem
      ensures !room <==> Align(old(end), alignment) - old(end) == 8
      ensures room ==> end == Align(old(end), alignment) && Padded(old(W()), W())
      ensures room ==> Ok(layout, W()) && stray == 0 && EndPage(end, hi) && (top == end || (top + 16 <= end && W() == old(W())))
    {
      GrowthEnd(layout, W(), alignment);
      var gap: Word := Align(end, alignment) - end;
      if gap != 0 {
        if gap <= 8 {
          return false;
        }
        Pad(gap);
      }
      room := true;
    }

    /** Reserves, maps and describes a block at the end of the heap, which was `w` before padding. */
    method AppendBlock(bytes: Word, ghost u: nat, ghost w: World) returns (vma: Word)
      requires Ok(layout, W()) && stray == 0 && EndPage(end, hi) && bytes == 8 * u && 1 <= u
      requires top == end || (top + 16 <= end && bytes == 8 && w == W())
      requires end + bytes + 8 <= HEAP_LIMIT && heapEndPma + bytes + 3 * PAGE_SIZE < WORD_LIMIT
      requires Padded(w, W())
      modifies this, mem, pte
      decreases 2, 2
      ensures vma == old(end)
      ensures Grown(layout, w, W(), vma, bytes)
    {
      ghost var w0 := W();
      vma := Reserve(bytes);
      ghost var w2 := W();
      Describe(vma, bytes, u, w0.top == vma);
      if w0.top == vma {
        GrownBlock(layout, w, w0, w0.(end := vma + bytes + 8), w2, W(), vma, bytes, u);
      } else {
        LooseBlock(layout, w, w0.(end := vma + 16), w2, W(), vma);
      }
    }

    /** Inside the page loop of `free` the heap does not come to have the new block as a chunk. */
    method Describe(vma: Word, bytes: Word, ghost u: nat, ghost chunk: bool)
      requires mem.Length == WORD_LIMIT && layout.base <= vma && vma + bytes + 8 <= PAGE_SIZE * hi <= WORD_LIMIT
      requires 8 <= layout.base && 8 <= bytes && pte.Length == PAGES
      modifies `chunks, `top, mem
      ensures W() == if chunk then old(W()).(m := NewLast(old(mem[..]), vma, bytes), c := old(chunks)[vma := Chunk(u, false)], top := end)
        else old(W()).(m := NewLast(old(mem[..]), vma, bytes))
    {
      WriteDescriptors(vma, bytes);
      if chunk {
        chunks := chunks[vma := Chunk(u, false)];
        top := end;
      }
    }

    /** Raises `end`, and then maps the pages that the new block needs. */
    method Reserve(bytes: Word) returns (vma: Word)
      requires Ok(layout, W()) && stray == 0 && EndPage(end, hi) && 8 <= bytes && (top == end || top + 16 <= end)
      requires end + bytes + 8 <= HEAP_LIMIT && heapEndPma + bytes + 3 * PAGE_SIZE < WORD_LIMIT
      modifies this, mem, pte
      decreases 2, 1
      ensures Growing() && EndPage(end, hi) && vma == old(end) && end == vma + bytes + 8
      ensures PagesMapped(old(W()).(end := vma + bytes + 8), W())
      ensures layout.base <= vma && end <= PAGE_SIZE * hi <= WORD_LIMIT && mem.Length == WORD_LIMIT && 8 <= layout.base
    {
      vma := end;
      end := end + bytes + 8;
      MapPages(vma);
      EndIsReachable(layout, W());
    }

    method Pad(gap: Word)
      requires Idle() && 16 <= gap && gap % 8 == 0 && end + gap <= PAGE_SIZE * hi && end + gap <= HEAP_LIMIT
      modifies this`freeList, this`end, this`chunks, this`order, this`top, mem
      ensures Ok(layout, W()) && top == end == old(end) + gap
      ensures W() == old(W()).(m := mem[..], head := freeList, c := chunks, l := order, top := top, end := end)
      ensures Padded(old(W()), W()) && EndPage(end, hi)
    {
      ghost var w := W();
      assert HeapInv();
      PadEnd(gap, gap / 8 - 1);
      PadStep(layout, w, W());
    }

    /** Virtual and physical memory for growth by a block of `bytes`; the source does not check for it. */
    ghost predicate Room(alignment: nat, bytes: nat)
      requires alignment > 0
      reads `end, `heapEndPma
    {
      && Align(end, alignment) + bytes + 8 <= HEAP_LIMIT
      && heapEndPma + bytes + 3 * PAGE_SIZE < WORD_LIMIT
    }

    /** The request of `page_free` inside the page loop of `free`: the heap may not be growable any more. */
    ghost predicate LoopRequest(alignment: int, bytes: int)
      reads this, mem, pte
    {
      Shrinking() && alignment == 8 && bytes == 8 && (stray == 0 || Listable(chunks, order, 8, 8) || !EndPage(end, hi))
    }

    /**
     `alloc`. Inside the page loop of `free` the heap is extended at its old end, if the page of the last descriptor is still
     mapped; if it is not, the fault comes here, before further pages are mapped, and not at the store after that.
     */
    method Alloc(alignment: Word, bytes: Word) returns (r: AllocResult)
      requires Idle() || LoopRequest(alignment, bytes)
      requires IsAlignment(alignment) && bytes + 24 < WORD_LIMIT
      requires EndPage(end, hi) && !Listable(chunks, order, alignment, bytes) ==> Room(alignment, 8 * Units(bytes))
      modifies this, mem, pte
      decreases 4
      ensures r == Faulted <==> old(!EndPage(end, hi) && !Listable(chunks, order, alignment, bytes))
      ensures r == Died <==>
        old(EndPage(end, hi) && !Listable(chunks, order, alignment, bytes) && Align(end, alignment) - end == 8)
      ensures old(top == end) && r.Block? ==> Idle() && r.vma !in Live(old(chunks)) && r.vma % alignment == 0
      ensures old(top == end) && r.Block? ==> UserMap(W()) == UserMap(old(W()))[r.vma := 8 * Units(bytes)]
      ensures r.Block? ==> Preserved(old(mem[..]), mem[..], UserMap(old(W())))
      // By sizes: the first node of the free list that is large enough, and the end of the heap if no free chunk is.
      ensures old(top == end) ==> forall n :: RoundedUp(bytes, n) ==> BySize(old(W()), W(), alignment, n, r)
      // From the free list: first fit, and nothing but memory, chunks and free list changes.
      ensures r.Block? && old(Listable(chunks, order, alignment, bytes)) ==>
        (if old(top == end) then Idle() else Shrinking()) && ServedFirst(old(W()), W(), r.vma, Units(bytes))
        && r.vma !in Live(old(chunks)) && UserMap(W()) == UserMap(old(W()))[r.vma := 8 * Units(bytes)]
      // By growth: at the aligned end, drawing frames from the page free list first.
      ensures r.Block? && old(top == end && !Listable(chunks, order, alignment, bytes)) ==>
        r.vma == Align(old(end), alignment) && Extended(old(W()), W(), r.vma, 8 * Units(bytes))
      // Inside the page loop of `free`, growth adds no chunk.
      ensures r.Block? && old(top < end && !Listable(chunks, order, alignment, bytes)) ==>
        r.vma == old(end) && Growing() && EndPage(end, hi) && Loosened(old(W()), W())
    {
      r := AllocByCase(alignment, bytes);
      AllocFacts(layout, old(W()), W(), alignment, bytes, 8 * Units(bytes), r);
      AllSizesDecide(layout, old(W()), W(), alignment, bytes, r);
    }

    method AllocByCase(alignment: Word, bytes: Word) returns (r: AllocResult)
      requires Idle() || LoopRequest(alignment, bytes)
      requires IsAlignment(alignment) && bytes + 24 < WORD_LIMIT
      requires EndPage(end, hi) && !Listable(chunks, order, alignment, bytes) ==> Room(alignment, 8 * Units(bytes))
      modifies this, mem, pte
      decreases 3, 1
      ensures AllocCase(layout, old(W()), W(), alignment, bytes, 8 * Units(bytes), r)
    {
      ghost var w := W();
      UnitsRound(bytes);
      ghost var u := Units(bytes);
      var size: Word := if bytes != 0 then Align(bytes, 8) else 8;
      if alignment == 8 {
        var n := FromList(bytes, size);
        if n != 0 {
          return Block(n);
        }
      }
      GrowthPage(layout, w);
      GrowthEnd(layout, w, alignment);
      if !Present(pte[(end - 4) / PAGE_SIZE]) {
        return Faulted;
      }
      r := ExtendHeap(alignment, size, u);
    }

    // ----- page_new and page_free -----

    /** `page_new`: a frame from the page free list, else from the frontier. It fails if freeing the list node breaks the heap. */
    method PageNew() returns (pma: Word, ok: bool)
      requires Growing() || (Idle() && (pages != [] ==> FreeSafe(chunks, order, pages[0], end) || Room(8, 8)))
      requires pages == [] ==> heapEndPma + PAGE_SIZE < WORD_LIMIT
      modifies this, mem, pte
      decreases if top < end then 1 else 8, 0
      ensures old(top < end) ==> ok && DrawnInGrowth(layout, old(W()), W(), pma)
      ensures old(top == end) ==> (ok <==> old(pages) == [] || FreeSafe(old(chunks), old(order), old(pages)[0], old(end)))
      ensures ok ==> OneDrawn(old(W()), W(), pma)
      ensures ok && old(top == end) ==> Idle()
    {
      if pageFreeList != 0 {
        pma, ok := FrameFromList();
      } else {
        pma := FreshFrontier();
        ok := true;
        FrontierDrawn(layout, old(W()), W(), pma);
      }
    }

    /** The first frame of the page free list; its node is freed. */
    method FrameFromList() returns (pma: Word, ok: bool)
      requires pages != []
      requires Growing() || (Idle() && (FreeSafe(chunks, order, pages[0], end) || Room(8, 8)))
      modifies this, mem, pte
      decreases if top < end then 0 else 7, 2
      ensures old(top < end) ==> ok && DrawnInGrowth(layout, old(W()), W(), pma)
      ensures old(top == end) ==> (ok <==> FreeSafe(old(chunks), old(order), old(pages)[0], old(end)))
      ensures ok ==> OneDrawn(old(W()), W(), pma)
      ensures ok && old(top == end) ==> Idle()
    {
      ghost var w := W();
      var node;
      pma, node := PopFrame();
      ghost var w1 := W();
      OutcomeIsSafe(w1.c, w1.l, w1.pf, node, w1.end);
      var r := Free(node);
      ok := r == Intact;
      if ok {
        FrameDrawn(layout, w, w1, W(), node, pma);
      }
    }

    /** A frame that was never handed out before. */
    method FreshFrontier() returns (pma: Word)
      requires Ok(layout, W()) && heapEndPma + PAGE_SIZE < WORD_LIMIT
      modifies `heapEndPma, `owner
      ensures Ok(layout, W()) && pma == old(heapEndPma)
      ensures W() == old(W()).(frontier := pma + PAGE_SIZE, owner := old(owner)[pma := Held])
      ensures HeldFrames(owner) == HeldFrames(old(owner)) + {pma} && pma !in HeldFrames(old(owner))
      ensures FixedFrames(owner) == FixedFrames(old(owner))
    {
      ghost var w := W();
      pma := heapEndPma;
      heapEndPma := heapEndPma + PAGE_SIZE;
      owner := owner[pma := Held];
      FreshStep(layout, w, W());
    }

    /** Takes the first node off the page free list; the node itself is still to be freed. */
    method PopFrame() returns (pma: Word, node: Word)
      requires Ok(layout, W()) && stray == 0 && pages != []
      modifies `pageFreeList, `pages, `owner
      ensures Ok(layout, W()) && node == old(pages)[0] && pma == mem[..][node]
      ensures W() == old(W()).(pf := old(pages)[1..], pageHead := pageFreeList, owner := old(owner)[pma := Held])
      ensures HeldFrames(owner) == HeldFrames(old(owner)) + {pma} && pma !in HeldFrames(old(owner))
      ensures FixedFrames(owner) == FixedFrames(old(owner))
      ensures node in UserMap(W()) && UserMap(W()) - {node} == UserMap(old(W()))
    {
      ghost var w := W();
      HeadIsBelow(layout, w);
      node := pageFreeList;
      pma := Load(node);
      pageFreeList := Load(node + 4);
      pages := pages[1..];
      owner := owner[pma := Held];
      PopStep(layout, w, W());
    }

    /**
     `page_free`, at rest for a page that boot mapped, and for the pages that the heap gives back. If the heap grows in the page
     loop of `free`, the page free list then starts at a node on the very page that is unmapped.
     */
    method PageFree(page: Word) returns (r: FreeResult)
      requires Freeable(layout, W(), page, page / PAGE_SIZE) && (Idle() || LoopRequest(8, 8))
      requires EndPage(end, hi) && !Listable(chunks, order, 8, 8) ==> Room(8, 8)
      modifies this, mem, pte
      decreases 5, 1
      ensures r == Crashed <==> old(!EndPage(end, hi) && !Listable(chunks, order, 8, 8))
      ensures r == Broken <==> old(top < end && EndPage(end, hi) && !Listable(chunks, order, 8, 8))
      ensures r == Broken ==> ListLost(layout, old(W()), W(), page / PAGE_SIZE) && Preserved(old(mem[..]), mem[..], UserMap(old(W())))
      ensures r != Adrift
      ensures r == Intact ==> Freed(layout, old(W()), W(), page, page / PAGE_SIZE)
    {
      ghost var w := W();
      var a := RequestNode();
      if a == Faulted {
        return Crashed;
      }
      r := RecordPage(a.vma, page, w);
    }

    /** The rest of `page_free`, called in `w`, which has been given the node. */
    method RecordPage(node: Word, page: Word, ghost w: World) returns (r: FreeResult)
      requires Freeable(layout, w, page, page / PAGE_SIZE)
      requires GotNode(layout, w, W(), node) || (GotEnd(layout, w, W(), node) && !Listable(w.c, w.l, 8, 8))
      modifies this, mem, pte
      ensures (r == Intact || r == Broken) && (r == Broken <==> old(GotEnd(layout, w, W(), node)))
      ensures r == Broken ==> ListLost(layout, w, W(), page / PAGE_SIZE) && Preserved(w.m, mem[..], UserMap(w))
      ensures r == Intact ==> Freed(layout, w, W(), page, page / PAGE_SIZE)
    {
      ghost var w1, p := W(), page / PAGE_SIZE;
      NodeIsMapped(layout, w, w1, page, p, node);
      NotBoth(layout, w, w1, node);
      WriteNode(node, page);
      r := if node / PAGE_SIZE == page / PAGE_SIZE then Broken else Intact;
      Settle(w, w1, page, p, node, r);
    }

    /** What the stores of `page_free` come to, as far as chunks, lists and frames are concerned. */
    ghost method Settle(w: World, w1: World, page: int, p: int, node: Word, r: FreeResult)
      requires Freeable(layout, w, page, p)
      requires if r == Broken then GotEnd(layout, w, w1, node) && !Listable(w.c, w.l, 8, 8) else GotNode(layout, w, w1, node)
      requires |w1.pte| == PAGES && 0 <= p < PAGES && W() == Recorded(w1, p, node)
      modifies `pages, `owner, `hi, `stray
      ensures if r == Broken then ListLost(layout, w, W(), p) && Preserved(w.m, mem[..], UserMap(w)) else Freed(layout, w, W(), page, p)
    {
      if r == Broken {
        hi := p;
        PageLost(layout, w, w1, W(), page, p, node);
      } else {
        Account(w1, p, node);
        PageFreed(layout, w, w1, W(), page, p, node);
      }
    }

    /** The `kmalloc` of `page_free`. */
    method RequestNode() returns (a: AllocResult)
      requires Idle() || LoopRequest(8, 8)
      requires EndPage(end, hi) && !Listable(chunks, order, 8, 8) ==> Room(8, 8)
      modifies this, mem, pte
      decreases 5, 0
      ensures a != Died
      ensures a == Faulted <==> old(!EndPage(end, hi) && !Listable(chunks, order, 8, 8))
      ensures a.Block? ==> if old(top < end && !Listable(chunks, order, 8, 8)) then GotEnd(layout, old(W()), W(), a.vma)
        else GotNode(layout, old(W()), W(), a.vma)
    {
      GrowthEnd(layout, W(), 8);
      a := Alloc(8, 8);
    }

    ghost method Account(w: World, p: int, node: Word)
      requires 0 <= p < |w.pte| && W() == Recorded(w, p, node)
      modifies `pages, `owner, `hi, `stray
      ensures W() == Accounted(layout, w, p, node)
    {
      var f := FrameOf(w.pte[p]);
      pages := [node] + pages;
      if p >= hi {
        stray := node;
      } else {
        owner := owner[f := Listed(node)];
        hi := if p < layout.firstPage then hi else hi - 1;
      }
    }

    /** The stores of `page_free`. */
    method WriteNode(node: Word, page: Word)
      requires mem.Length == WORD_LIMIT && Reachable(node) && Reachable(node + 4) && page / PAGE_SIZE < pte.Length == PAGES
      modifies `pageFreeList, mem, pte
      ensures W() == Recorded(old(W()), page / PAGE_SIZE, node)
    {
      var entry := pte[page / PAGE_SIZE];
      Store(node, FrameOf(entry));
      Store(node + 4, pageFreeList);
      pte[page / PAGE_SIZE] := entry - entry % 2;
      pageFreeList := node;
      assert pte[..] == old(pte[..])[page / PAGE_SIZE := entry - entry % 2];
    }

    // ----- free -----

    /** The page loop of `free`. */
    method GivePagesBack(v: Word) returns (r: FreeResult)
      requires Shrinking() && stray == 0 && top == v && EndPage(end, hi)
      requires SpanServed(chunks, order, v, end) || Room(8, 8)
      modifies this, mem, pte
      decreases 5, 3
      ensures r == SpanOutcome(old(chunks), old(order), old(pages), v, old(end))
      ensures r == Intact ==> LoopDone(layout, old(W()), W())
      ensures r == Broken ==> LoopBroke(layout, old(W()), W())
    {
      ghost var w := W();
      LoopStarts(layout, w);
      var page := PageStart(end);
      while page >= v
        invariant InLoop(layout, w, W(), page)
        decreases page
      {
        LoopIsInside(layout, w, W(), page);
        r := GivePageBack(v, page, w);
        if r != Intact {
          return;
        }
        page := page - PAGE_SIZE;
      }
      r := if PageStart(end) == end then Broken else Intact;
      LoopEnds(layout, w, W(), page, r);
    }

    /** One turn of the page loop of `free`, which started in `w`. */
    method GivePageBack(v: Word, page: Word, ghost w: World) returns (r: FreeResult)
      requires InLoop(layout, w, W(), page) && v <= page && top == v == w.top
      requires SpanServed(w.c, w.l, v, w.end) || Room(8, 8)
      modifies this, mem, pte
      decreases 5, 2
      ensures r == Intact ==> InLoop(layout, w, W(), page - PAGE_SIZE)
      ensures r != Intact ==> r == SpanOutcome(w.c, w.l, w.pf, v, w.end)
      ensures r == Broken ==> LoopBroke(layout, w, W())
    {
      ghost var w1 := W();
      var stop := Aliases(page, w);
      if stop {
        return Adrift;
      }
      var listed := pageFreeList != 0;
      LoopIsFreeable(layout, w, w1, page);
      LoopRoom(layout, w, w1, page);
      r := PageFree(page);
      if r == Broken {
        r := AfterLoss(v, page, listed, w1);
        LoopLost(layout, w, w1, W(), page);
      } else if r == Intact {
        LoopTurns(layout, w, w1, W(), page, page / PAGE_SIZE);
      }
    }

    /**
     Whether the next request will map the page above the heap to the frame that the page free list names by mistake. What is then
     stored on that page is stored elsewhere too.
     */
    method Aliases(page: Word, ghost w: World) returns (stop: bool)
      requires InLoop(layout, w, W(), page) && top <= page && 0 <= w.top
      ensures stop <==> stray != 0 && EndPage(end, hi) && !Listable(chunks, order, 8, 8)
      ensures stop ==> SpanOutcome(w.c, w.l, w.pf, w.top, w.end) == Adrift
    {
      LoopIsAtPage(layout, w, W(), page);
      if end % PAGE_SIZE == 0 && page != end {
        var n := FindServed();
        GrowthPage(layout, W());
        stop := n == 0 && Present(pte[(end - 4) / PAGE_SIZE]);
        if stop {
          LoopLoses(layout, w, W(), page);
        }
      } else {
        stop := false;
      }
    }

    /** The rest of a page loop that has just lost the page free list, at `page`. */
    method AfterLoss(v: Word, page: Word, listed: bool, ghost w: World) returns (r: FreeResult)
      requires ListLost(layout, w, W(), page / PAGE_SIZE) && mem.Length == WORD_LIMIT && v <= w.end && EndPage(w.end, w.hi) && Shrunk(w)
      requires listed <==> w.pf != []
      ensures r == if page - PAGE_SIZE < v then Broken
        else if w.end == PAGE_SIZE * w.hi - 8 || (w.end == PAGE_SIZE * w.hi && listed) then Adrift
        else Crashed
    {
      var was := end - 16;
      if page - PAGE_SIZE < v {
        return Broken;
      }
      EndRemainder(w.end, w.hi);
      NotQuiteWhole(w);
      if was % PAGE_SIZE == PAGE_SIZE - 8 || (was % PAGE_SIZE == 0 && listed) {
        return Adrift;
      }
      var fault := NextRequestFaults();
      r := if fault then Crashed else Adrift;
    }

    /** The next request of the loop, up to its first store to the page below `end`. */
    method NextRequestFaults() returns (fault: bool)
      requires HeapInv() && NextFaults(W())
      ensures fault
    {
      var n, size;
      ghost var k;
      n, size, k := FindFit(8);
      assert Units(8) == 1;
      fault := n == 0 && !Present(pte[(end - 4) / PAGE_SIZE]);
    }

    /** Whether the free list would serve the next request of the loop. */
    method FindServed() returns (n: Word)
      requires Shrinking()
      ensures n != 0 <==> Listable(chunks, order, 8, 8)
    {
      assert HeapInv();
      var size;
      ghost var k;
      n, size, k := FindFit(8);
    }

    /** Gives the pages of the last block back and lowers the end of the heap to the block. */
    method Shrink(v: Word) returns (r: FreeResult)
      requires Merging(layout, W(), v) && v in chunks && Next(chunks, v) == end
      requires SpanServed(chunks - {v}, order, v, end) || Room(8, 8)
      modifies this, mem, pte
      decreases 6, 0
      ensures r == SpanOutcome(old(chunks) - {v}, old(order), old(pages), v, old(end))
      ensures r == Intact || r == Broken ==> Lowered(layout, old(W()), W(), v, r)
    {
      ghost var w0 := W();
      CutLast(v);
      ghost var w := W();
      r := GivePagesBack(v);
      if r == Intact || r == Broken {
        LowerEnd(v, w0, w, r);
      }
    }

    /** The end of `free`; the last block was cut off in `w0`, and the page loop started in `w1`. */
    method LowerEnd(v: Word, ghost w0: World, ghost w1: World, r: FreeResult)
      requires w1 == w0.(c := w1.c, top := v) && UserMap(w1) == UserMap(w0) - {v}
      requires if r == Intact then LoopDone(layout, w1, W()) else LoopBroke(layout, w1, W())
      modifies `end
      ensures Lowered(layout, w0, W(), v, r)
    {
      ghost var w2 := W();
      end := v;
      EndLowered(layout, w0, w1, w2, W(), v, r);
    }

    ghost method CutLast(v: Word)
      requires Merging(layout, W(), v) && v in chunks && Next(chunks, v) == end
      modifies `chunks, `top
      ensures W() == old(W()).(c := old(chunks) - {v}, top := v)
      ensures Shrinking() && stray == 0 && top == v && EndPage(end, hi) && UserMap(W()) == UserMap(old(W())) - {v}
    {
      ghost var w := W();
      chunks, top := chunks - {v}, v;
      CutStep(layout, w, W(), v);
    }

    /**
     `free`. The result says whether the heap is in order afterwards. If it is broken, the page free list starts at a block that is cut
     off, or it names a frame that is not its own.
     */
    method Free(v: Word) returns (r: FreeResult)
      requires (Growing() || Idle()) && v in UserMap(W())
      requires top == end ==> FreeSafe(chunks, order, v, end) || Room(8, 8)
      modifies this, mem, pte
      decreases if top < end then 0 else 7, 1
      ensures old(top < end) ==> r == Intact && Growing()
      ensures old(top < end) ==> W() == old(W()).(m := mem[..], head := freeList, c := chunks, l := order)
      ensures old(top == end) ==> r == FreeOutcome(old(chunks), old(order), old(pages), v, old(end))
      ensures r == Broken ==> end == MergeBoth(old(chunks), old(order), v).v && Ruined(layout, W(), end)
      ensures r == Intact && old(top == end) ==> Idle() && HeldFrames(owner) == HeldFrames(old(owner))
      ensures r == Intact && old(top == end) ==> |pages| + hi == |old(pages)| + old(hi)
      ensures r == Intact ==> heapEndPma == old(heapEndPma)
      // The merged block heads the free list, unless it was the last one.
      ensures var g := MergeBoth(old(chunks), old(order), v);
        g.v in g.c && (Next(g.c, g.v) != old(end) ==>
          end == old(end) && chunks == g.c[g.v := Chunk(g.c[g.v].units, true)] && order == [g.v] + g.l)
        && (Next(g.c, g.v) == old(end) && r == Intact ==> end == g.v)
      ensures r == Intact ==> UserMap(W()) == UserMap(old(W())) - {v}
      ensures r == Intact || r == Broken ==> Preserved(old(mem[..]), mem[..], UserMap(old(W())) - {v})
    {
      r := FreeByCase(v);
      FreeFacts(layout, old(W()), W(), v, r);
    }

    method FreeByCase(v: Word) returns (r: FreeResult)
      requires (Growing() || Idle()) && v in UserMap(W())
      requires top == end ==> FreeSafe(chunks, order, v, end) || Room(8, 8)
      modifies this, mem, pte
      decreases if top < end then 0 else 7, 0
      ensures FreeCase(layout, old(W()), W(), v, r)
    {
      ghost var w := W();
      var v', last := MergeBlock(v);
      if last {
        r := CutOffEnd(v', w, v);
      } else {
        PutOnList(v', w, v);
        r := Intact;
      }
    }

    /** The block at `was` in `w`, merged into the one at `v`, goes with the end of the heap. */
    method CutOffEnd(v: Word, ghost w: World, ghost was: int) returns (r: FreeResult)
      requires Merging(layout, W(), v) && v in chunks && Next(chunks, v) == end == top && MergedBlock(w, W(), was, v) && was in w.c
      requires FreeSafe(w.c, w.l, was, end) || Room(8, 8)
      modifies this, mem, pte
      decreases 6, 1
      ensures FreeCase(layout, w, W(), was, r)
    {
      ghost var w1 := W();
      SpanOfBlock(w, w1, was, v);
      r := Shrink(v);
      ShrunkCase(layout, w, w1, W(), was, v, r);
    }

    /** The merges of `free`: afterwards the block at `v'` is live, on no list, and between chunks that are not free. */
    method MergeBlock(v: Word) returns (v': Word, last: bool)
      requires (Growing() || Idle()) && v in UserMap(W())
      modifies this`freeList, this`chunks, this`order, mem
      ensures Merging(layout, W(), v') && MergedBlock(old(W()), W(), v, v')
      ensures v' in chunks && (last <==> Next(chunks, v') == end) && (last ==> top == end)
    {
      ghost var w := W();
      assert HeapInv();
      v' := MergeNeighbours(v);
      MergeStep(layout, w, W(), v, v');
      MergedIsInHeap(layout, W(), v');
      var size := GetSize(v', chunks[v']);
      last := v' + size + 8 == end;
    }

    /** The block at `was` in `w`, merged into the one at `v`, goes back onto the free list. */
    method PutOnList(v: Word, ghost w: World, ghost was: int)
      requires Merging(layout, W(), v) && v in chunks && Next(chunks, v) != end && MergedBlock(w, W(), was, v)
      modifies this`freeList, this`chunks, this`order, mem
      ensures was in w.c && FreeCase(layout, w, W(), was, Intact)
    {
      ghost var w1 := W();
      assert HeapInv();
      Insert(v);
      InsertStep(layout, w1, W(), v);
      ListedCase(layout, w, w1, W(), was, v);
    }
  }
}
