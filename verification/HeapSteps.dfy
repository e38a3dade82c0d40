/** What each group of stores in alloc.c does to a heap, on values. */
module HeapSteps {
  import opened Machine
  import opened Heap

  /** Memory after one store. */
  function Poke(m: seq<Word>, x: int, w: Word): seq<Word> {
    if 0 <= x < |m| then m[x := w] else m
  }

  // ----- Free list -----

  /** Memory after `alloc_node_unlink`: the neighbours of a node point at each other. */
  function Unlinked(m: seq<Word>, prev: Word, next: Word): seq<Word> {
    var m1 := if prev != 0 then Poke(m, prev + 4, next) else m;
    if next != 0 then Poke(m1, next, prev) else m1
  }

  lemma UnlinkKeepsLinks(m: seq<Word>, m': seq<Word>, l: seq<int>, l': seq<int>, head: int, k: int)
    requires Links(m, l, head) && Spaced(l) && 0 <= k < |l|
    requires m' == Unlinked(m, m[l[k]], m[l[k] + 4]) && l' == RemoveAt(l, k)
    ensures Links(m', l', if m[l[k]] != 0 then head else m[l[k] + 4])
    ensures OnlyLinks(m, m', l)
  {
    assert Linked(m, l, k);
    UnlinkStores(m, m', l, k);
    forall i | 0 <= i < |l'| ensures 0 < l'[i] && l'[i] + 8 <= |m'| && Linked(m', l', i) {
      UnlinkedNode(m, m', l, l', k, i);
    }
    assert 0 < |l'| ==> l'[0] == if k == 0 then l[1] else l[0];
  }

  lemma UnlinkedNode(m: seq<Word>, m': seq<Word>, l: seq<int>, l': seq<int>, k: int, i: int)
    requires 0 <= k < |l| && l' == RemoveAt(l, k) && 0 <= i < |l'| && |m'| == |m|
    requires forall j :: 0 <= j < |l| ==> 0 < l[j] && l[j] + 8 <= |m|
    requires forall j {:trigger Linked(m, l, j)} :: 0 <= j < |l| ==> Linked(m, l, j)
    requires forall j :: 0 <= j < |l| ==> m'[l[j]] == if j == k + 1 then At(l, k - 1) else m[l[j]]
    requires forall j :: 0 <= j < |l| ==> m'[l[j] + 4] == if j == k - 1 then At(l, k + 1) else m[l[j] + 4]
    ensures 0 < l'[i] && l'[i] + 8 <= |m'| && Linked(m', l', i)
  {
    var o := if i < k then i else i + 1;
    assert l'[i] == l[o] && Linked(m, l, o);
    assert At(l', i - 1) == if o == k + 1 then At(l, k - 1) else At(l, o - 1);
    assert At(l', i + 1) == if o == k - 1 then At(l, k + 1) else At(l, o + 1);
  }

  lemma UnlinkStores(m: seq<Word>, m': seq<Word>, l: seq<int>, k: int)
    requires Spaced(l) && 0 <= k < |l| && (forall i :: 0 <= i < |l| ==> 0 < l[i] && l[i] + 8 <= |m|)
    requires Linked(m, l, k) && m' == Unlinked(m, m[l[k]], m[l[k] + 4])
    ensures OnlyLinks(m, m', l)
    ensures forall i :: 0 <= i < |l| ==> m'[l[i]] == if i == k + 1 then At(l, k - 1) else m[l[i]]
    ensures forall i :: 0 <= i < |l| ==> m'[l[i] + 4] == if i == k - 1 then At(l, k + 1) else m[l[i] + 4]
  {
    assert m[l[k]] != 0 ==> m[l[k]] == l[k - 1];
    assert m[l[k] + 4] != 0 ==> m[l[k] + 4] == l[k + 1];
  }

  /** Memory after `alloc_node_add` has pushed `n` in front of `head`. */
  function Pushed(m: seq<Word>, n: Word, head: Word): seq<Word> {
    var m1 := Poke(Poke(m, n, 0), n + 4, head);
    if head != 0 then Poke(m1, head, n) else m1
  }

  lemma PushKeepsLinks(m: seq<Word>, l: seq<int>, head: Word, n: Word)
    requires Links(m, l, head) && Spaced([n] + l) && 0 < n && n + 8 <= |m|
    ensures Links(Pushed(m, n, head), [n] + l, n)
    ensures OnlyLinks(m, Pushed(m, n, head), [n] + l)
  {
    var r, m' := [n] + l, Pushed(m, n, head);
    forall i | 0 <= i < |r| ensures 0 < r[i] && r[i] + 8 <= |m'| && Linked(m', r, i) {
      if i > 0 {
        assert r[i] == l[i - 1] && Linked(m, l, i - 1);
        assert r[0] == n;
      } else {
        assert |l| > 0 ==> r[1] == l[0];
      }
    }
    assert r[0] == n;
    assert head != 0 ==> head == r[1];
  }

  /** Memory after the node at `n` has been copied to `n'` and its neighbours redirected. */
  function Moved(m: seq<Word>, n': Word, prev: Word, next: Word): seq<Word> {
    var m1 := Poke(Poke(m, n', prev), n' + 4, next);
    var m2 := if prev != 0 then Poke(m1, prev + 4, n') else m1;
    if next != 0 then Poke(m2, next, n') else m2
  }

  lemma MoveKeepsLinks(m: seq<Word>, m': seq<Word>, l: seq<int>, l': seq<int>, head: int, k: int, n': Word)
    requires Links(m, l, head) && 0 <= k < |l| && l' == l[k := n']
    requires Spaced(l') && 0 < n' && n' + 8 <= |m|
    requires m' == Moved(m, n', m[l[k]], m[l[k] + 4])
    ensures Links(m', l', if m[l[k]] != 0 then head else n')
    ensures OnlyLinks(m, m', l')
  {
    assert Linked(m, l, k);
    MovedStores(m, m', l, l', k, n');
    forall i | 0 <= i < |l'| ensures 0 < l'[i] && l'[i] + 8 <= |m'| && Linked(m', l', i) {
      assert Linked(m, l, i);
      MovedNode(m, m', l, l', k, n', i);
    }
  }

  lemma MovedNode(m: seq<Word>, m': seq<Word>, l: seq<int>, l': seq<int>, k: int, n': Word, i: int)
    requires 0 <= k < |l| && 0 <= i < |l| && l' == l[k := n'] && |m'| == |m| && 0 < n' && n' + 8 <= |m|
    requires forall j :: 0 <= j < |l| ==> 0 < l[j] && l[j] + 8 <= |m|
    requires Linked(m, l, i)
    requires m'[n'] == At(l, k - 1) && m'[n' + 4] == At(l, k + 1)
    requires i != k ==> m'[l[i] + 4] == if i == k - 1 then n' else m[l[i] + 4]
    requires i != k ==> m'[l[i]] == if i == k + 1 then n' else m[l[i]]
    ensures 0 < l'[i] && l'[i] + 8 <= |m'| && Linked(m', l', i)
  {
    assert At(l', i - 1) == if i - 1 == k then n' else At(l, i - 1);
    assert At(l', i + 1) == if i + 1 == k then n' else At(l, i + 1);
  }

  /** The word at each link address after a move, and nothing else changes. */
  lemma MovedStores(m: seq<Word>, m': seq<Word>, l: seq<int>, l': seq<int>, k: int, n': Word)
    requires 0 <= k < |l| && l' == l[k := n'] && Spaced(l') && 0 < n' && n' + 8 <= |m|
    requires forall j :: 0 <= j < |l| ==> 0 < l[j] && l[j] + 8 <= |m|
    requires Linked(m, l, k)
    requires m' == Moved(m, n', m[l[k]], m[l[k] + 4])
    ensures OnlyLinks(m, m', l')
    ensures m'[n'] == At(l, k - 1) && m'[n' + 4] == At(l, k + 1)
    ensures forall i :: 0 <= i < |l| && i != k ==> m'[l[i] + 4] == if i == k - 1 then n' else m[l[i] + 4]
    ensures forall i :: 0 <= i < |l| && i != k ==> m'[l[i]] == if i == k + 1 then n' else m[l[i]]
  {
    assert l'[k] == n';
    assert forall i :: 0 <= i < |l| && i != k ==> l'[i] == l[i];
    assert k > 0 ==> m[l[k]] == l'[k - 1];
    assert k + 1 < |l| ==> m[l[k] + 4] == l'[k + 1];
  }

  lemma PokeKeepsLinks(m: seq<Word>, l: seq<int>, head: int, x: int, w: Word)
    requires Links(m, l, head) && !IsLink(l, x)
    ensures Links(Poke(m, x, w), l, head)
  {
    forall i | 0 <= i < |l| ensures Linked(Poke(m, x, w), l, i) {
      assert Linked(m, l, i);
    }
  }

  // ----- Tiling -----

  lemma FlipKeepsTiling(c: Chunks, base: int, top: int, a: int, free: bool)
    requires Tiling(c, base, top) && a in c
    ensures Tiling(c[a := Chunk(c[a].units, free)], base, top)
  {
    var c' := c[a := Chunk(c[a].units, free)];
    forall b | b in c' ensures HasNext(c', b, top) {
      assert HasNext(c, b, top);
    }
  }

  /** `c` with the chunk after `a` merged into the chunk at `a`. */
  function Merged(c: Chunks, a: int, free: bool): Chunks
    requires a in c && Next(c, a) in c
  {
    (c - {Next(c, a)})[a := Chunk(c[a].units + c[Next(c, a)].units + 1, free)]
  }

  lemma MergeKeepsTiling(c: Chunks, base: int, top: int, a: int, free: bool)
    requires Tiling(c, base, top) && a in c && Next(c, a) in c
    ensures Tiling(Merged(c, a, free), base, top)
  {
    MergeKeepsApart(c, a, free);
    MergeKeepsChained(c, top, a, free);
    var c' := Merged(c, a, free);
    assert Next(c', a) == Next(c, Next(c, a));
  }

  lemma MergeKeepsApart(c: Chunks, a: int, free: bool)
    requires Apart(c) && a in c && Next(c, a) in c
    ensures Apart(Merged(c, a, free))
  {
    var c', n := Merged(c, a, free), Next(c, a);
    assert Next(c', a) == Next(c, n);
    forall b, d | b in c' && d in c' && b < d ensures Next(c', b) <= d {
      assert b in c && d in c && d != n;
    }
  }

  lemma MergeKeepsChained(c: Chunks, top: int, a: int, free: bool)
    requires Chained(c, top) && Apart(c) && a in c && Next(c, a) in c
    ensures Chained(Merged(c, a, free), top)
  {
    var c', n := Merged(c, a, free), Next(c, a);
    assert Next(c', a) == Next(c, n) && HasNext(c, n, top);
    forall b | b in c' ensures HasNext(c', b, top) {
      assert HasNext(c, b, top);
      assert b != a ==> Next(c', b) == Next(c, b) != n;
    }
  }

  /** `c` with the free chunk at `a` cut into a live chunk of `u` units and a free remainder. */
  function SplitAt(c: Chunks, a: int, u: nat): Chunks
    requires a in c && u + 2 <= c[a].units
  {
    c[a := Chunk(u, false)][a + 8 * u + 8 := Chunk(c[a].units - u - 1, true)]
  }

  lemma SplitKeepsTiling(c: Chunks, c': Chunks, base: int, top: int, a: int, u: nat)
    requires Tiling(c, base, top) && a in c && 1 <= u && u + 2 <= c[a].units && c' == SplitAt(c, a, u)
    ensures a + 8 * u + 8 !in c
    ensures Tiling(c', base, top)
  {
    InsideIsNoChunk(c, a, a + 8 * u + 8);
    SplitKeepsApart(c, c', a, u);
    SplitKeepsChained(c, c', top, a, u);
  }

  lemma InsideIsNoChunk(c: Chunks, a: int, x: int)
    requires Apart(c) && a in c && a < x < Next(c, a)
    ensures x !in c
  {
  }

  lemma SplitKeepsChained(c: Chunks, c': Chunks, top: int, a: int, u: nat)
    requires Chained(c, top) && a in c && u + 2 <= c[a].units && a + 8 * u + 8 !in c && c' == SplitAt(c, a, u)
    ensures Chained(c', top)
  {
    var n := a + 8 * u + 8;
    forall b | b in c' ensures HasNext(c', b, top) {
      assert HasNext(c, if b == n then a else b, top);
    }
  }

  lemma SplitKeepsApart(c: Chunks, c': Chunks, a: int, u: nat)
    requires Apart(c) && a in c && u + 2 <= c[a].units && a + 8 * u + 8 !in c && c' == SplitAt(c, a, u)
    ensures Apart(c')
  {
    var n := a + 8 * u + 8;
    assert Next(c', a) == n && Next(c', n) == Next(c, a);
    forall b, d | b in c' && d in c' && b < d ensures Next(c', b) <= d {
      assert (b == n || b in c) && (d == n || d in c);
    }
  }

  lemma ExtendKeepsTiling(c: Chunks, base: int, top: int, k: Chunk)
    requires Tiling(c, base, top) && 1 <= k.units
    ensures top !in c
    ensures Tiling(c[top := k], base, top + k.Size() + 8)
  {
    var c', top' := c[top := k], top + k.Size() + 8;
    assert top !in c;
    forall b | b in c' ensures HasNext(c', b, top') {
      if b != top { assert HasNext(c, b, top); }
    }
  }

  lemma CutKeepsTiling(c: Chunks, base: int, top: int, a: int)
    requires Tiling(c, base, top) && a in c && Next(c, a) == top
    ensures Tiling(c - {a}, base, a)
  {
    var c' := c - {a};
    forall b | b in c' ensures HasNext(c', b, a) {
      assert HasNext(c, b, top);
    }
    if base < a { assert base in c'; }
  }

  // ----- Descriptors -----

  /** Memory after both copies of the tag of a chunk have been written. */
  function Retagged(m: seq<Word>, a: int, next: int, tag: Word): seq<Word> {
    Poke(Poke(m, a - 4, tag), next - 8, tag)
  }

  lemma LinkStoresKeepTags(m: seq<Word>, m': seq<Word>, c: Chunks, l: seq<int>, base: int, top: int)
    requires Tiling(c, base, top) && top <= |m| && Members(c, l) && OnlyLinks(m, m', l)
    ensures Tags(m, c, base, top) ==> Tags(m', c, base, top)
    ensures m'[top - 4] == m[top - 4]
    ensures Preserved(m, m', Live(c))
  {
    LinksMissPayloads(c, l, base, top, m, m');
    LinksMissTags(c, l, base, top);
  }

  /** Retagging the one chunk that differs between `c` and `c'` brings memory in line with `c'`. */
  lemma RetagMatches(m: seq<Word>, m': seq<Word>, c: Chunks, c': Chunks, base: int, top: int, top': int, a: int, tag: Word)
    requires Tiling(c, base, top) && top <= |m| && Tags(m, c, base, top)
    requires Tiling(c', base, top') && top' <= |m|
    requires a in c' && tag == Tag(c'[a]) && m' == Retagged(m, a, Next(c', a), tag)
    requires forall b :: b in c' && b != a ==> b in c && c'[b] == c[b]
    ensures Tags(m', c', base, top')
    ensures Preserved(m, m', Live(c'))
    ensures m'[top' - 4] == m[top' - 4]
  {
    assert Next(c', a) <= top';
    forall b | b in c' ensures m'[b - 4] == Tag(c'[b]) && m'[Next(c', b) - 8] == Tag(c'[b]) {
      if b != a { RetagMisses(m, m', c', base, top', a, b, tag); }
    }
  }

  lemma RetagMisses(m: seq<Word>, m': seq<Word>, c: Chunks, base: int, top: int, a: int, b: int, tag: Word)
    requires Tiling(c, base, top) && top <= |m| && a in c && b in c && a != b
    requires m' == Retagged(m, a, Next(c, a), tag)
    ensures m'[b - 4] == m[b - 4] && m'[Next(c, b) - 8] == m[Next(c, b) - 8]
  {
  }

  lemma RetagKeepsLinks(m: seq<Word>, c: Chunks, l: seq<int>, head: int, base: int, top: int, a: int, tag: Word)
    requires Tiling(c, base, top) && top <= |m| && Members(c, l) && Links(m, l, head) && a in c
    ensures Links(Retagged(m, a, Next(c, a), tag), l, head)
  {
    LinksMissTags(c, l, base, top);
    PokeKeepsLinks(m, l, head, a - 4, tag);
    PokeKeepsLinks(Poke(m, a - 4, tag), l, head, Next(c, a) - 8, tag);
  }
}
