/** Each stage of `alloc` and `free` from one well-formed heap to the next, on values. */
module HeapStages {
  import opened Machine
  import opened Heap
  import opened HeapSteps
  import opened HeapMoves
  import opened Coalescing

  lemma TagBits(k: Chunk)
    ensures Tag(k) - Tag(k) % 8 == k.Size()
    ensures Tag(k) % 2 == if k.free then 1 else 0
  {
    var bit := if k.free then 1 else 0;
    DivUnique(Tag(k), 8, k.units, bit);
    DivUnique(Tag(k), 2, 4 * k.units, bit);
  }

  /** What a descriptor read finds: size, and free flag in bit 0, in both copies. */
  lemma ReadTag(m: seq<Word>, c: Chunks, base: int, top: int, a: int)
    requires Tiling(c, base, top) && top <= |m| && Tags(m, c, base, top) && a in c
    ensures base <= a && Next(c, a) <= top && 1 <= c[a].units
    ensures m[a - 4] == Tag(c[a]) && m[Next(c, a) - 8] == Tag(c[a])
    ensures Tag(c[a]) - Tag(c[a]) % 8 == c[a].Size()
    ensures Tag(c[a]) % 2 == if c[a].free then 1 else 0
  {
    TagBits(c[a]);
  }

  /** The links of a list node lead to its neighbours, and all of them lie inside the heap. */
  lemma NodeAt(m: seq<Word>, c: Chunks, l: seq<int>, head: int, base: int, top: int, k: nat)
    requires Core(m, c, l, head, base, top) && k < |l|
    ensures base <= l[k] && l[k] + 16 <= top && l[k] in c && m[l[k]] == At(l, k - 1) && m[l[k] + 4] == At(l, k + 1)
    ensures At(l, k - 1) != 0 ==> base <= At(l, k - 1) && At(l, k - 1) + 16 <= top && At(l, k - 1) != l[k]
    ensures At(l, k + 1) != 0 ==> base <= At(l, k + 1) && At(l, k + 1) + 16 <= top
  {
    FreeNodesAreSpaced(c, l, base, top);
    assert Linked(m, l, k);
  }

  lemma FirstNode(m: seq<Word>, c: Chunks, l: seq<int>, head: int, base: int, top: int)
    requires Core(m, c, l, head, base, top)
    ensures 8 <= base <= top && (head != 0 ==> base <= head && head + 16 <= top)
  {
    FreeNodesAreSpaced(c, l, base, top);
  }

  lemma NodeIsFree(c: Chunks, l: seq<int>, k: nat)
    requires Members(c, l) && k < |l| && forall i :: 0 <= i < |l| ==> 0 < l[i]
    ensures l[k] in c && c[l[k]].free && (At(l, k + 1) != 0 <==> k + 1 < |l|)
  {
  }

  /** Unlinking a node leaves every descriptor as it was. */
  lemma UnlinkKeepsTags(m: seq<Word>, m1: seq<Word>, c: Chunks, l: seq<int>, head: int, base: int, top: int, k: int)
    requires Core(m, c, l, head, base, top) && 0 <= k < |l| && m1 == Unlink(m, l[k])
    ensures |m1| == |m| && Tags(m1, c, base, top) && m1[top - 4] == m[top - 4]
  {
    FreeNodesAreSpaced(c, l, base, top);
    UnlinkKeepsLinks(m, m1, l, RemoveAt(l, k), head, k);
    LinkStoresKeepTags(m, m1, c, l, base, top);
  }

  /** Unlinking a node leaves the tags of that node and of any other chunk `a` readable. */
  lemma UnlinkedReads(m: seq<Word>, m1: seq<Word>, c: Chunks, l: seq<int>, head: int, base: int, top: int, k: int, a: int)
    requires Core(m, c, l, head, base, top) && 0 <= k < |l| && m1 == Unlink(m, l[k]) && a in c
    ensures |m1| == |m|
    ensures m1[a - 4] == Tag(c[a]) && m1[Next(c, a) - 8] == Tag(c[a])
    ensures m1[l[k] - 4] == Tag(c[l[k]])
  {
    UnlinkKeepsTags(m, m1, c, l, head, base, top, k);
  }

  /** A free bit that is clear after the last chunk stays clear if no chunk became last. */
  lemma TrailKept(m: seq<Word>, m': seq<Word>, c: Chunks, c': Chunks, top: int)
    requires TrailClear(m, c, top, 0) && |m'| == |m| && m'[top - 4] == m[top - 4]
    requires forall b :: b in c' && !c'[b].free && Next(c', b) == top ==> b in c && c'[b] == c[b]
    ensures TrailClear(m', c', top, 0)
  {
  }

  // ----- A perfect fit -----

  lemma TakeLayout(c: Chunks, c': Chunks, base: int, top: int, n: int)
    requires Tiling(c, base, top) && Coalesced(c) && LastLive(c, top) && n in c && c[n].free
    requires c' == c[n := Chunk(c[n].units, false)]
    ensures Tiling(c', base, top) && Coalesced(c') && LastLive(c', top)
    ensures Next(c', n) == Next(c, n) != top
  {
    FlipKeepsTiling(c, base, top, n, false);
    assert Next(c', n) == Next(c, n);
  }

  lemma TakeLive(c: Chunks, c': Chunks, n: int)
    requires n in c && c[n].free && c' == c[n := Chunk(c[n].units, false)]
    ensures Live(c) - {n} == Live(c) && Live(c') == Live(c)[n := c[n].Size()]
    ensures forall b :: b in c' && c'[b].free <==> b in c && c[b].free && b != n
    ensures forall b :: b in c' && b != n ==> b in c && c'[b] == c[b]
  {
  }

  /** `alloc` has made a live block of `bytes` at `n` out of a free chunk; tags, links and chunks agree, and no other block has changed. */
  ghost predicate BlockServed(m: seq<Word>, m': seq<Word>, c: Chunks, c': Chunks, l': seq<int>, head': int, base: int, top: int, n: int, bytes: nat) {
    true == (
      && Core(m', c', l', head', base, top) && Coalesced(c') && LastLive(c', top) && TrailClear(m', c', top, 0)
      && Live(c') == Live(c)[n := bytes] && Preserved(m, m', Live(c))
    )
  }

  lemma TakeStep(m: seq<Word>, m': seq<Word>, c: Chunks, c': Chunks, l: seq<int>, l': seq<int>,
                 head: int, head': int, base: int, top: int, k: int, size: Word)
    requires Core(m, c, l, head, base, top) && Coalesced(c) && LastLive(c, top) && TrailClear(m, c, top, 0) && 0 <= k < |l|
    requires c' == c[l[k] := Chunk(c[l[k]].units, false)] && l' == RemoveAt(l, k) && size == c[l[k]].Size()
    requires head' == HeadAfterUnlink(m, l[k], head)
    requires m' == Retagged(Unlink(m, l[k]), l[k], Next(c, l[k]), size)
    ensures BlockServed(m, m', c, c', l', head', base, top, l[k], size)
  {
    TakeLayout(c, c', base, top, l[k]);
    TakeLive(c, c', l[k]);
    UnlinkAndRetag(m, m', c, c', l, l', head, head', base, top, k, l[k], l[k], size);
    TrailKept(m, m', c, c', top);
  }

  // ----- A split -----

  lemma SplitLayout(c: Chunks, c': Chunks, base: int, top: int, n: int, u: nat)
    requires Tiling(c, base, top) && Coalesced(c) && LastLive(c, top) && n in c && c[n].free
    requires 1 <= u && u + 2 <= c[n].units && c' == SplitAt(c, n, u)
    ensures Coalesced(c') && LastLive(c', top)
    ensures Next(c', n) != top
  {
    SplitKeepsTiling(c, c', base, top, n, u);
    var r := n + 8 * u + 8;
    assert Next(c', n) == r && Next(c', r) == Next(c, n);
    forall a, b | a in c' && b in c' && c'[a].free && c'[b].free ensures Next(c', a) != b {
      if a != r && b == r {
        assert a in c && n in c;
      }
    }
  }

  lemma SplitTagsLength(m: seq<Word>, n: int, bytes: Word, next: int, tag: Word)
    ensures |SplitTags(m, n, bytes, next, tag)| == |m|
  {
  }

  lemma SplitStage(m: seq<Word>, m1: seq<Word>, m': seq<Word>, c: Chunks, c': Chunks, l: seq<int>, l': seq<int>,
                   head: int, head': int, base: int, top: int, k: nat, u: nat, n: int, bytes: Word, n': Word, tag: Word)
    requires Core(m, c, l, head, base, top) && Coalesced(c) && LastLive(c, top) && TrailClear(m, c, top, 0) && 0 <= k < |l|
    requires n == l[k] && bytes == 8 * u && n' == n + bytes + 8
    requires 1 <= u && u + 2 <= c[n].units && tag == 8 * (c[n].units - u - 1) + 1
    requires m1 == SplitTags(m, n, bytes, Next(c, n), tag)
    requires m' == Moved(m1, n', m1[n], m1[n + 4])
    requires c' == SplitAt(c, n, u) && l' == l[k := n']
    requires head' == if m1[n] != 0 then head else n'
    ensures BlockServed(m, m', c, c', l', head', base, top, n, bytes)
  {
    NodeAt(m, c, l, head, base, top, k);
    SplitTagsLength(m, n, bytes, Next(c, n), tag);
    SplitLayout(c, c', base, top, n, u);
    SplitStep(m, m1, m', c, c', l, l', head, head', base, top, k, u, n, n', tag);
    SplitLive(c, c', n, u);
    SplitTrail(m, m', c, c', base, top, n, u);
  }

  lemma SplitTrail(m: seq<Word>, m': seq<Word>, c: Chunks, c': Chunks, base: int, top: int, n: int, u: nat)
    requires TrailClear(m, c, top, 0) && |m'| == |m| && m'[top - 4] == m[top - 4] && Tiling(c, base, top)
    requires n in c && u + 2 <= c[n].units && c' == SplitAt(c, n, u) && Next(c', n) != top
    ensures TrailClear(m', c', top, 0)
  {
    TrailKept(m, m', c, c', top);
  }

  // ----- Alignment padding pushed onto the free list -----

  lemma PadStage(m: seq<Word>, m': seq<Word>, c: Chunks, c': Chunks, l: seq<int>, head: Word,
                 base: int, top: Word, top': int, g: nat, tag: Word)
    requires Core(m, c, l, head, base, top) && Coalesced(c) && LastLive(c, top)
    requires 1 <= g && top' == top + 8 * g + 8 <= |m| && tag == 8 * g + 1
    requires c' == c[top := Chunk(g, true)]
    requires m' == Pushed(Retagged(m, top, top', tag), top, head)
    ensures Core(m', c', [top] + l, top, base, top') && Coalesced(c')
    ensures Preserved(m, m', Live(c)) && Live(c') == Live(c)
    ensures TrailClear(m', c', top', 0)
  {
    ExtendKeepsTiling(c, base, top, Chunk(g, true));
    assert top !in c;
    PadLayout(c, c', base, top, top', g);
    RetagAndPush(m, m', c, c', l, head, base, top, top', top, tag);
  }

  lemma PadLayout(c: Chunks, c': Chunks, base: int, top: int, top': int, g: nat)
    requires Tiling(c, base, top) && Coalesced(c) && LastLive(c, top) && top !in c
    requires 1 <= g && top' == top + 8 * g + 8 && c' == c[top := Chunk(g, true)]
    ensures Coalesced(c') && Live(c') == Live(c) == Live(c) - {top} && Next(c', top) == top'
    ensures forall a :: a in c' && !c'[a].free ==> Next(c', a) != top'
    ensures forall b :: b in c' && b != top ==> b in c && c'[b] == c[b]
    ensures forall b :: b in c ==> b in c'
  {
    assert Next(c', top) == top';
    forall a, b | a in c' && b in c' && c'[a].free && c'[b].free ensures Next(c', a) != b {
      if b == top && a != top { assert Next(c, a) != top; }
    }
  }

  // ----- The end of `free` -----

  /** The live block at `v` has become a free chunk, and nothing else has changed. */
  ghost predicate Inserted(m: seq<Word>, m': seq<Word>, c: Chunks, c': Chunks, l': seq<int>, head': int, base: int, top: int, v: int) {
    true == (
      && Core(m', c', l', head', base, top) && Coalesced(c') && TrailClear(m', c', top, 0)
      && Preserved(m, m', Live(c) - {v}) && Live(c') == Live(c) - {v}
      && (v in c && Next(c, v) != top && LastLive(c, top) ==> LastLive(c', top))
    )
  }

  lemma InsertStage(m: seq<Word>, m': seq<Word>, c: Chunks, c': Chunks, l: seq<int>, head: Word,
                    base: int, top: int, v: Word, tag: Word)
    requires Core(m, c, l, head, base, top) && Coalesced(c) && TrailClear(m, c, top, v)
    requires v in c && !c[v].free && !NextFree(c, v) && !PrevFree(c, v)
    requires c' == c[v := Chunk(c[v].units, true)] && tag == c[v].Size() + 1
    requires m' == Pushed(Retagged(m, v, Next(c, v), tag), v, head)
    ensures Inserted(m, m', c, c', [v] + l, v, base, top, v)
  {
    FlipKeepsTiling(c, base, top, v, true);
    InsertLayout(c, c', base, top, v);
    RetagAndPush(m, m', c, c', l, head, base, top, top, v, tag);
  }

  lemma InsertLayout(c: Chunks, c': Chunks, base: int, top: int, v: int)
    requires Tiling(c, base, top) && Coalesced(c) && v in c && !c[v].free && !NextFree(c, v) && !PrevFree(c, v)
    requires c' == c[v := Chunk(c[v].units, true)]
    ensures Coalesced(c') && Live(c') == Live(c) - {v} && Next(c', v) == Next(c, v)
    ensures forall b :: b in c' && b != v ==> b in c && c'[b] == c[b]
    ensures forall b :: b in c ==> b in c'
    ensures Next(c, v) != top && LastLive(c, top) ==> LastLive(c', top)
  {
    assert Next(c', v) == Next(c, v);
    forall a, b | a in c' && b in c' && c'[a].free && c'[b].free ensures Next(c', a) != b {
      if a == v { assert Next(c, v) in c ==> !c[Next(c, v)].free; }
    }
  }

  /** Cutting the last block off: the heap ends where the block began. */
  lemma CutStage(m: seq<Word>, c: Chunks, c': Chunks, l: seq<int>, head: int, base: int, top: int, v: int)
    requires Core(m, c, l, head, base, top) && Coalesced(c)
    requires v in c && !c[v].free && Next(c, v) == top && !PrevFree(c, v) && c' == c - {v}
    ensures Core(m, c', l, head, base, v) && Coalesced(c') && LastLive(c', v)
    ensures Live(c') == Live(c) - {v}
    ensures TrailClear(m, c', v, 0)
    ensures base <= v < top
  {
    CutKeepsTiling(c, base, top, v);
    TagBits(c[v]);
    assert m[v - 4] == Tag(c[v]);
    CutKeepsMembers(c, c', l, v);
  }

  lemma CutKeepsMembers(c: Chunks, c': Chunks, l: seq<int>, v: int)
    requires Members(c, l) && v in c && !c[v].free && c' == c - {v}
    ensures Members(c', l)
  {
  }

  // ----- Merges -----

  lemma MergeAfterStage(m: seq<Word>, m': seq<Word>, c: Chunks, c': Chunks, l: seq<int>, l': seq<int>,
                        head: int, head': int, base: int, top: int, k: int, v: int, tag: Word)
    requires Core(m, c, l, head, base, top) && Coalesced(c) && TrailClear(m, c, top, 0)
    requires v in c && !c[v].free && NextFree(c, v) && 0 <= k < |l| && l[k] == Next(c, v)
    requires c' == Merged(c, v, false) && l' == RemoveAt(l, k)
    requires head' == HeadAfterUnlink(m, l[k], head)
    requires tag == c'[v].Size() && m' == Retagged(Unlink(m, l[k]), v, Next(c', v), tag)
    ensures Core(m', c', l', head', base, top)
    ensures Preserved(m, m', Live(c) - {v})
    ensures TrailClear(m', c', top, v)
    ensures Coalesced(c')
    ensures Merge(c', l', v) == MergeAfter(c, l, v)
  {
    MergeKeepsTiling(c, base, top, v, false);
    MergeChanges(c, c', base, top, v);
    UnlinkAndRetag(m, m', c, c', l, l', head, head', base, top, k, v, v, tag);
    WithoutIsRemove(l, k);
  }

  lemma MergeChanges(c: Chunks, c': Chunks, base: int, top: int, a: int)
    requires Tiling(c, base, top) && Coalesced(c) && a in c && Next(c, a) in c && c' == Merged(c, a, false)
    requires c[a].free != c[Next(c, a)].free
    ensures Next(c', a) == Next(c, Next(c, a))
    ensures var f := if c[a].free then a else Next(c, a);
      && (forall b :: b in c' && c'[b].free <==> b in c && c[b].free && b != f)
      && (forall b :: b in c' && b != a ==> b in c && c'[b] == c[b])
    ensures forall b :: b in c && b != a && b != Next(c, a) ==> b in c'
    ensures Coalesced(c')
  {
  }

  lemma MergeBeforeStage(m: seq<Word>, m': seq<Word>, c: Chunks, c': Chunks, l: seq<int>, l': seq<int>,
                         head: int, head': int, base: int, top: int, k: int, p: int, v: int, tag: Word)
    requires Core(m, c, l, head, base, top) && Coalesced(c) && TrailClear(m, c, top, v)
    requires v in c && !c[v].free && p in c && c[p].free && Next(c, p) == v && 0 <= k < |l| && l[k] == p
    requires c' == Merged(c, p, false) && l' == RemoveAt(l, k)
    requires head' == HeadAfterUnlink(m, p, head)
    requires tag == c'[p].Size() && m' == Retagged(Unlink(m, p), p, Next(c', p), tag)
    ensures Core(m', c', l', head', base, top)
    ensures Preserved(m, m', Live(c) - {v})
    ensures TrailClear(m', c', top, p)
    ensures Coalesced(c')
    ensures Merge(c', l', p) == MergeBefore(c, l, v)
  {
    MergeKeepsTiling(c, base, top, p, false);
    MergeChanges(c, c', base, top, p);
    UnlinkAndRetag(m, m', c, c', l, l', head, head', base, top, k, p, v, tag);
    WithoutIsRemove(l, k);
    BeforeIs(c, base, top, p, v);
  }

  // ----- Pages above the heap -----

  /** A heap does not depend on memory from its end on. */
  lemma CoreIsLocal(m: seq<Word>, m': seq<Word>, c: Chunks, l: seq<int>, head: int, base: int, top: int)
    requires Core(m, c, l, head, base, top) && |m'| == |m|
    requires forall x :: 0 <= x < top ==> m'[x] == m[x]
    ensures Core(m', c, l, head, base, top)
    ensures TrailClear(m, c, top, 0) ==> TrailClear(m', c, top, 0)
    ensures Preserved(m, m', Live(c))
  {
    LinksAreLocal(m, m', c, l, head, base, top);
  }

  lemma LinksAreLocal(m: seq<Word>, m': seq<Word>, c: Chunks, l: seq<int>, head: int, base: int, top: int)
    requires Tiling(c, base, top) && top <= |m| && Members(c, l) && Links(m, l, head) && |m'| == |m|
    requires forall x :: 0 <= x < top ==> m'[x] == m[x]
    ensures Links(m', l, head)
  {
    FreeNodesAreSpaced(c, l, base, top);
    NonLinkStores(m, m', l, head);
  }

  /** Stores into the payload of a live block do not concern the heap. */
  lemma PayloadStores(m: seq<Word>, m': seq<Word>, c: Chunks, l: seq<int>, head: int, base: int, top: int, n: int)
    requires Core(m, c, l, head, base, top) && TrailClear(m, c, top, 0) && |m'| == |m|
    requires n in c && !c[n].free
    requires forall x :: 0 <= x < |m| && m'[x] != m[x] ==> n <= x < n + c[n].Size()
    ensures Core(m', c, l, head, base, top) && TrailClear(m', c, top, 0)
    ensures Preserved(m, m', Live(c) - {n})
  {
    assert Next(c, n) <= top;
    PayloadMissesTags(m, m', c, base, top, n);
    PayloadMissesLinks(m, m', c, l, head, base, top, n);
    forall a, x | a in Live(c) - {n} && 0 <= x < |m| && a <= x < a + Live(c)[a] ensures m'[x] == m[x] {
      assert a in c && a != n;
    }
  }

  lemma PayloadMissesTags(m: seq<Word>, m': seq<Word>, c: Chunks, base: int, top: int, n: int)
    requires Tiling(c, base, top) && top <= |m| && |m'| == |m| && n in c
    requires forall x :: 0 <= x < |m| && m'[x] != m[x] ==> n <= x < n + c[n].Size()
    ensures Tags(m, c, base, top) ==> Tags(m', c, base, top)
    ensures m'[top - 4] == m[top - 4]
  {
    forall a | a in c ensures m'[a - 4] == m[a - 4] && m'[Next(c, a) - 8] == m[Next(c, a) - 8] {
      assert Next(c, a) <= top;
    }
  }

  lemma PayloadMissesLinks(m: seq<Word>, m': seq<Word>, c: Chunks, l: seq<int>, head: int, base: int, top: int, n: int)
    requires Tiling(c, base, top) && top <= |m| && |m'| == |m| && Members(c, l) && Links(m, l, head)
    requires n in c && !c[n].free
    requires forall x :: 0 <= x < |m| && m'[x] != m[x] ==> n <= x < n + c[n].Size()
    ensures Links(m', l, head)
  {
    forall i | 0 <= i < |l| ensures l[i] + 8 <= n || n + c[n].Size() <= l[i] {
      assert l[i] in c && l[i] != n;
    }
    NonLinkStores(m, m', l, head);
  }
}
