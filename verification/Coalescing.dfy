/** The two merges at the start of `free`, as functions of the heap before the call. */
module Coalescing {
  import opened Machine
  import opened Heap
  import opened HeapSteps
  import opened HeapMoves
  import opened FirstFit

  /** `l` with its first `x` taken out. */
  function Without(l: seq<int>, x: int): seq<int> {
    if l == [] then [] else if l[0] == x then l[1..] else [l[0]] + Without(l[1..], x)
  }

  lemma {:induction false} WithoutIsRemove(l: seq<int>, k: int)
    requires 0 <= k < |l| && Distinct(l)
    ensures Without(l, l[k]) == RemoveAt(l, k)
  {
    if k > 0 {
      WithoutIsRemove(l[1..], k - 1);
      assert RemoveAt(l, k) == [l[0]] + RemoveAt(l[1..], k - 1);
    }
  }

  predicate NextFree(c: Chunks, v: int)
    requires v in c
  {
    Next(c, v) in c && c[Next(c, v)].free
  }

  ghost predicate PrevFree(c: Chunks, v: int) {
    exists p :: p in c && c[p].free && Next(c, p) == v
  }

  ghost function Before(c: Chunks, v: int): int
    requires PrevFree(c, v)
  {
    var p :| p in c && c[p].free && Next(c, p) == v;
    p
  }

  /** The free bit of `size_prev` tells whether the chunk before is free, and its size leads there. */
  lemma SizePrevLeadsBack(m: seq<Word>, c: Chunks, base: int, top: int, v: int) returns (k: Chunk)
    requires Tiling(c, base, top) && top <= |m| && Tags(m, c, base, top) && v in c
    ensures m[v - 8] == Tag(k)
    ensures PrevFree(c, v) <==> k.free
    ensures k.free ==> v - k.Size() - 8 in c && c[v - k.Size() - 8] == k && Next(c, v - k.Size() - 8) == v
  {
    if v == base {
      k := Chunk(0, false);
    } else {
      var p := Predecessor(c, base, top, v, base);
      k := c[p];
      assert forall q :: q in c && Next(c, q) == v ==> q == p;
    }
  }

  /** Chunks, free list and block after the merges. */
  datatype Merge = Merge(c: Chunks, l: seq<int>, v: int)

  ghost function MergeAfter(c: Chunks, l: seq<int>, v: int): Merge
    requires v in c
  {
    if NextFree(c, v) then Merge(Merged(c, v, false), Without(l, Next(c, v)), v) else Merge(c, l, v)
  }

  ghost function MergeBefore(c: Chunks, l: seq<int>, v: int): Merge
    requires v in c
  {
    if PrevFree(c, v) then Merge(Merged(c, Before(c, v), false), Without(l, Before(c, v)), Before(c, v)) else Merge(c, l, v)
  }

  ghost function MergeBoth(c: Chunks, l: seq<int>, v: int): Merge
    requires v in c
  {
    var g := MergeAfter(c, l, v);
    MergeBefore(g.c, g.l, v)
  }

  lemma BeforeIs(c: Chunks, base: int, top: int, p: int, v: int)
    requires Tiling(c, base, top) && p in c && c[p].free && Next(c, p) == v
    ensures PrevFree(c, v) && Before(c, v) == p
  {
    var q := Before(c, v);
    assert q == p;
  }

  /** Merging with the next chunk: the block then has no free chunk after it. */
  lemma MergeAfterFacts(c: Chunks, c': Chunks, l: seq<int>, base: int, top: int, v: int)
    requires Tiling(c, base, top) && Coalesced(c) && v in c && !c[v].free
    requires c' == MergeAfter(c, l, v).c
    ensures Tiling(c', base, top) && Coalesced(c')
    ensures v in c' && !c'[v].free && !NextFree(c', v)
    ensures Live(c') - {v} == Live(c) - {v}
    ensures LastLive(c, top) ==> LastLive(c', top)
  {
    if NextFree(c, v) {
      MergeKeepsTiling(c, base, top, v, false);
    }
  }

  /** Merging with the previous chunk: the result is one live block between live neighbours. */
  lemma MergeBeforeFacts(c: Chunks, c': Chunks, l: seq<int>, base: int, top: int, v: int, v': int)
    requires Tiling(c, base, top) && Coalesced(c) && v in c && !c[v].free && !NextFree(c, v)
    requires c' == MergeBefore(c, l, v).c && v' == MergeBefore(c, l, v).v
    ensures Tiling(c', base, top) && Coalesced(c')
    ensures v' in c' && !c'[v'].free && !NextFree(c', v') && !PrevFree(c', v')
    ensures Live(c') - {v'} == Live(c) - {v}
    ensures LastLive(c, top) ==> LastLive(c', top)
  {
    if PrevFree(c, v) {
      MergeKeepsTiling(c, base, top, v', false);
      assert Next(c', v') == Next(c, v);
      MergedLive(c, c', base, top, v', v);
    }
  }

  lemma MergedLive(c: Chunks, c': Chunks, base: int, top: int, p: int, v: int)
    requires Tiling(c, base, top) && p in c && v in c && c[p].free && !c[v].free && Next(c, p) == v
    requires c' == Merged(c, p, false)
    ensures Live(c') - {p} == Live(c) - {v}
  {
    assert p < v;
  }
}
