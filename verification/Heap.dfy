/**
 The boundary-tag heap of alloc.c, on values.

 Memory is a sequence with one cell per byte address; the cell at address `x` holds the 32-bit
 word stored at `x`, and only word-aligned addresses are ever used. A chunk is named by its payload
 address `a`; its descriptor is the two words at `a - 8` (size_prev) and `a - 4` (size).

 The layout predicates are stated as equations `true == (...)`, which makes the verifier pass each of
 them on as one fact instead of taking it apart at every call.
 */
module Heap {
  import opened Machine

  /** A chunk; sizes are multiples of 8, so they are kept in units of 8 bytes. */
  datatype Chunk = Chunk(units: nat, free: bool) {
    function Size(): nat { 8 * units }
  }

  type Chunks = map<int, Chunk>

  /** Payload address of the chunk that follows the chunk at `a`. */
  function Next(c: Chunks, a: int): int
    requires a in c
  {
    a + c[a].Size() + 8
  }

  /** The size word of a descriptor: the size, with the free flag in bit 0. */
  function Tag(k: Chunk): int {
    k.Size() + if k.free then 1 else 0
  }

  /** The chunk at `a` is followed by a chunk or by the end of the heap. */
  predicate HasNext(c: Chunks, a: int, top: int)
    requires a in c
  {
    Next(c, a) == top || Next(c, a) in c
  }

  /** Every chunk has room for a list node and lies between `base` and `top`. */
  ghost predicate Sized(c: Chunks, base: int, top: int) {
    && (forall a :: a in c ==> base <= a && 1 <= c[a].units)
    && (forall a :: a in c ==> Next(c, a) <= top)
  }

  ghost predicate Chained(c: Chunks, top: int) {
    forall a {:trigger HasNext(c, a, top)} :: a in c ==> HasNext(c, a, top)
  }

  ghost predicate Apart(c: Chunks) {
    forall a, b :: a in c && b in c && a < b ==> Next(c, a) <= b
  }

  /** The chunks tile the addresses from `base` up to `top`, without gaps or overlaps. */
  ghost predicate Tiling(c: Chunks, base: int, top: int) {
    true == (
      && 8 <= base <= top
      && (base < top ==> base in c)
      && Sized(c, base, top) && Chained(c, top) && Apart(c)
    )
  }

  /** Both copies of every chunk's size and free flag are in memory. */
  ghost predicate Tags(m: seq<Word>, c: Chunks, base: int, top: int)
    requires Tiling(c, base, top) && top <= |m|
  {
    true == (
      && m[base - 8] == 0
      && (forall a :: a in c ==> m[a - 4] == Tag(c[a]))
      && (forall a :: a in c ==> m[Next(c, a) - 8] == Tag(c[a]))
    )
  }

  /** If the last chunk is live (and is not `but`), the descriptor after it has its free bit clear. */
  ghost predicate TrailClear(m: seq<Word>, c: Chunks, top: int, but: int) {
    true == (4 <= top <= |m| && forall a :: a in c && Next(c, a) == top && !c[a].free && a != but ==> m[top - 4] % 2 == 0)
  }

  ghost predicate Distinct(l: seq<int>) {
    forall i, j :: 0 <= i < j < |l| ==> l[i] != l[j]
  }

  /** `l` lists exactly the free chunks, each once. */
  ghost predicate Members(c: Chunks, l: seq<int>) {
    true == (
      && (forall i :: 0 <= i < |l| ==> l[i] in c && c[l[i]].free)
      && (forall a :: a in c && c[a].free ==> a in l)
      && Distinct(l)
    )
  }

  /** The `i`-th node of `l`, or NULL outside the list. */
  function At(l: seq<int>, i: int): int {
    if 0 <= i < |l| then l[i] else 0
  }

  /** The `i`-th node of `l` links to its neighbours in `l`. */
  predicate Linked(m: seq<Word>, l: seq<int>, i: int)
    requires 0 <= i < |l| && 0 <= l[i] && l[i] + 4 < |m|
  {
    m[l[i]] == At(l, i - 1) && m[l[i] + 4] == At(l, i + 1)
  }

  /** `l` is stored in memory as a doubly linked list that starts at `head`. */
  ghost predicate Links(m: seq<Word>, l: seq<int>, head: int) {
    true == (
      && head == At(l, 0)
      && (forall i :: 0 <= i < |l| ==> 0 < l[i] && l[i] + 8 <= |m|)
      && (forall i {:trigger Linked(m, l, i)} :: 0 <= i < |l| ==> Linked(m, l, i))
    )
  }

  /** The nodes of `l` do not overlap. */
  ghost predicate Spaced(l: seq<int>) {
    forall i, j :: 0 <= i < |l| && 0 <= j < |l| && i != j ==> l[i] + 8 <= l[j] || l[j] + 8 <= l[i]
  }

  /** No two neighbouring chunks are both free. */
  ghost predicate Coalesced(c: Chunks) {
    true == (forall a, b :: a in c && b in c && c[a].free && c[b].free ==> Next(c, a) != b)
  }

  /** The last chunk is not free. */
  ghost predicate LastLive(c: Chunks, top: int) {
    true == (forall a :: a in c && c[a].free ==> Next(c, a) != top)
  }

  /** Everything that ties memory to the chunks and to the free list. */
  ghost predicate Core(m: seq<Word>, c: Chunks, l: seq<int>, head: int, base: int, top: int) {
    true == (
      && Tiling(c, base, top) && top <= |m|
      && Tags(m, c, base, top)
      && Members(c, l)
      && Links(m, l, head)
    )
  }

  /** The blocks handed out and not yet freed, with their sizes. */
  function Live(c: Chunks): map<int, nat> {
    map a | a in c && !c[a].free :: c[a].Size()
  }

  /** No word of a block in `live` differs between the two memories. */
  ghost predicate Preserved(m: seq<Word>, m': seq<Word>, live: map<int, nat>) {
    && |m'| == |m|
    && (forall a, x :: a in live && 0 <= x < |m| && a <= x < a + live[a] ==> m'[x] == m[x])
  }

  function RemoveAt<T>(s: seq<T>, k: int): seq<T>
    requires 0 <= k < |s|
  {
    s[..k] + s[k + 1..]
  }

  /** `x` is one of the two link words of a node of `l`. */
  ghost predicate IsLink(l: seq<int>, x: int) {
    exists i :: 0 <= i < |l| && (x == l[i] || x == l[i] + 4)
  }

  /** Only link words of `l` differ between the two memories. */
  ghost predicate OnlyLinks(m: seq<Word>, m': seq<Word>, l: seq<int>) {
    && |m'| == |m|
    && (forall x :: 0 <= x < |m| && m'[x] != m[x] ==> IsLink(l, x))
  }

  lemma FreeNodesAreSpaced(c: Chunks, l: seq<int>, base: int, top: int)
    requires Tiling(c, base, top) && Members(c, l)
    ensures Spaced(l)
    ensures forall i :: 0 <= i < |l| ==> base <= l[i] && l[i] + 16 <= top
  {
  }

  /** Link words lie in payloads of free chunks, so a descriptor word is never one of them. */
  lemma LinksMissTags(c: Chunks, l: seq<int>, base: int, top: int)
    requires Tiling(c, base, top) && Members(c, l)
    ensures !IsLink(l, base - 8) && !IsLink(l, top - 4)
    ensures forall a :: a in c ==> !IsLink(l, a - 4) && !IsLink(l, Next(c, a) - 8)
  {
    forall a, i | a in c && 0 <= i < |l|
      ensures a - 4 != l[i] && a - 4 != l[i] + 4 && Next(c, a) - 8 != l[i] && Next(c, a) - 8 != l[i] + 4
    {
      assert l[i] in c;
    }
  }

  /** Nor is it a word of a live payload. */
  lemma LinksMissPayloads(c: Chunks, l: seq<int>, base: int, top: int, m: seq<Word>, m': seq<Word>)
    requires Tiling(c, base, top) && Members(c, l) && OnlyLinks(m, m', l) && top <= |m|
    ensures Preserved(m, m', Live(c))
  {
    forall a, x | a in Live(c) && 0 <= x < |m| && a <= x < a + Live(c)[a] ensures !IsLink(l, x) {
      forall i | 0 <= i < |l| ensures x != l[i] && x != l[i] + 4 {
        assert l[i] in c && l[i] != a;
      }
    }
  }

  /** Every chunk but the first has a chunk right before it. */
  lemma {:induction false} Predecessor(c: Chunks, base: int, top: int, v: int, a: int) returns (p: int)
    requires Tiling(c, base, top) && v in c && a in c && a < v
    ensures p in c && Next(c, p) == v
    decreases v - a
  {
    assert HasNext(c, a, top);
    if Next(c, a) == v {
      p := a;
    } else {
      p := Predecessor(c, base, top, v, Next(c, a));
    }
  }

  /** Payload addresses are multiples of 8 if the first one is. */
  lemma {:induction false} ChunksAreAligned(c: Chunks, base: int, top: int, a: int)
    requires Tiling(c, base, top) && base % 8 == 0 && a in c
    ensures a % 8 == 0
    decreases a
  {
    if a != base {
      var p := Predecessor(c, base, top, a, base);
      ChunksAreAligned(c, base, top, p);
      assert a == p + 8 * (c[p].units + 1);
    }
  }

  lemma {:induction false} LastChunk(c: Chunks, base: int, top: int, a: int) returns (p: int)
    requires Tiling(c, base, top) && a in c
    ensures p in c && Next(c, p) == top
    decreases top - a
  {
    assert HasNext(c, a, top);
    if Next(c, a) == top {
      p := a;
    } else {
      p := LastChunk(c, base, top, Next(c, a));
    }
  }

  lemma TopIsAligned(c: Chunks, base: int, top: int)
    requires Tiling(c, base, top) && base % 8 == 0
    ensures top % 8 == 0
  {
    if base < top {
      var p := LastChunk(c, base, top, base);
      ChunksAreAligned(c, base, top, p);
      assert top == p + 8 * (c[p].units + 1);
    }
  }

  // ----- The layout is determined by the live blocks -----

  /** A heap at rest: tiled, fully coalesced, and not ending in a free chunk. */
  ghost predicate AtRest(c: Chunks, base: int, top: int) {
    Tiling(c, base, top) && Coalesced(c) && LastLive(c, top)
  }

  /** Two heaps at rest with the same live blocks agree chunk by chunk from a common chunk on. */
  lemma {:induction false} AgreeFrom(c: Chunks, c': Chunks, base: int, top: int, top': int, a: int)
    requires AtRest(c, base, top) && AtRest(c', base, top') && Live(c) == Live(c')
    requires (a == top || a in c) && (a == top' || a in c') && base <= a <= top && a <= top'
    ensures top == top'
    ensures forall b :: a <= b && b in c ==> b in c' && c'[b] == c[b]
    ensures forall b :: a <= b && b in c' ==> b in c
    decreases top - a
  {
    if a in c && a in c' {
      SameChunk(c, c', base, top, top', a);
      assert HasNext(c, a, top) && HasNext(c', a, top');
      AgreeFrom(c, c', base, top, top', Next(c, a));
    } else if a in c {
      ReachesAbove(c', c, base, top', top, a);
    } else if a in c' {
      ReachesAbove(c, c', base, top, top', a);
    }
  }

  lemma ReachesAbove(c: Chunks, c': Chunks, base: int, top: int, top': int, a: int)
    requires AtRest(c, base, top) && AtRest(c', base, top') && Live(c) == Live(c')
    requires a in c'
    ensures a < top
  {
    assert HasNext(c', a, top');
    var b := if c'[a].free then Next(c', a) else a;
    assert b in Live(c');
    assert b in Live(c);
  }

  lemma SameChunk(c: Chunks, c': Chunks, base: int, top: int, top': int, a: int)
    requires AtRest(c, base, top) && AtRest(c', base, top') && Live(c) == Live(c')
    requires a in c && a in c'
    ensures c[a] == c'[a]
  {
    assert !c[a].free <==> a in Live(c);
    assert !c'[a].free <==> a in Live(c');
    if c[a].free {
      assert HasNext(c, a, top) && HasNext(c', a, top');
      var n, n' := Next(c, a), Next(c', a);
      assert n in Live(c) && n' in Live(c');
      assert n' in c && n in c';
    } else {
      assert Live(c)[a] == Live(c')[a];
    }
  }

  /** History independence: the chunk map and the end of a heap at rest follow from its live blocks alone. */
  lemma LayoutFromLive(c: Chunks, c': Chunks, base: int, top: int, top': int)
    requires AtRest(c, base, top) && AtRest(c', base, top') && Live(c) == Live(c')
    ensures c == c' && top == top'
  {
    AgreeFrom(c, c', base, top, top', base);
    assert forall b :: b in c ==> base <= b && b in c';
    assert forall b :: b in c' ==> base <= b && b in c;
  }

  /** A heap at rest without live blocks is back in its initial state. */
  lemma EmptyWhenAllFreed(c: Chunks, l: seq<int>, base: int, top: int)
    requires AtRest(c, base, top) && Members(c, l) && Live(c) == map[]
    ensures c == map[] && top == base && l == []
  {
    assert l != [] ==> l[0] in c;
    LayoutFromLive(c, map[], base, top, base);
  }

  // ----- The descriptor walk -----

  /** The walk of the source: from `a`, hop over each chunk by the size found in memory. */
  ghost function Walk(m: seq<Word>, a: int, top: int): seq<int>
    decreases top - a
  {
    if a >= top || a < 4 || a - 4 >= |m| || m[a - 4] < 8 then []
    else [a] + Walk(m, a + m[a - 4] / 8 * 8 + 8, top)
  }

  /** Reading sizes from memory visits exactly the chunks, in address order, and stops at `top`. */
  lemma {:induction false} WalkVisitsAll(m: seq<Word>, c: Chunks, base: int, top: int, a: int)
    requires Tiling(c, base, top) && top <= |m| && Tags(m, c, base, top)
    requires a == top || a in c
    ensures forall b :: b in Walk(m, a, top) <==> b in c && a <= b
    ensures forall i, j :: 0 <= i < j < |Walk(m, a, top)| ==> Walk(m, a, top)[i] < Walk(m, a, top)[j]
    decreases top - a
  {
    if a != top {
      assert m[a - 4] / 8 * 8 == c[a].Size();
      assert HasNext(c, a, top);
      WalkVisitsAll(m, c, base, top, Next(c, a));
      var w := Walk(m, Next(c, a), top);
      assert Walk(m, a, top) == [a] + w;
      forall i, j | 0 <= i < j < |[a] + w| ensures ([a] + w)[i] < ([a] + w)[j] {
        assert w[j - 1] in w;
      }
      forall b ensures b in [a] + w <==> b in c && a <= b {
        assert b in w <==> b in c && Next(c, a) <= b;
      }
    }
  }
}
