/** The heap transitions of alloc.c: how memory, chunks and free list change together. */
module HeapMoves {
  import opened Machine
  import opened Heap
  import opened HeapSteps

  /** The list head after node `k` has been unlinked. */
  function HeadAfterUnlink(m: seq<Word>, n: int, head: int): int
    requires 0 <= n && n + 4 < |m|
  {
    if m[n] != 0 then head else m[n + 4]
  }

  function Unlink(m: seq<Word>, n: int): seq<Word>
    requires 0 <= n && n + 4 < |m|
  {
    Unlinked(m, m[n], m[n + 4])
  }

  lemma RemoveKeepsMembers(c: Chunks, c': Chunks, l: seq<int>, k: int)
    requires Members(c, l) && 0 <= k < |l|
    requires forall a :: a in c' && c'[a].free <==> a in c && c[a].free && a != l[k]
    ensures Members(c', RemoveAt(l, k))
  {
    var r := RemoveAt(l, k);
    assert forall i :: 0 <= i < |r| ==> r[i] == l[if i < k then i else i + 1];
    forall a | a in c' && c'[a].free ensures a in r {
      var j :| 0 <= j < |l| && l[j] == a;
      assert r[if j < k then j else j - 1] == a;
    }
    forall i | 0 <= i < |r| ensures r[i] in c' && c'[r[i]].free {
      var o := if i < k then i else i + 1;
      assert l[o] in c && c[l[o]].free && l[o] != l[k];
    }
  }

  lemma PushKeepsMembers(c: Chunks, c': Chunks, l: seq<int>, n: int)
    requires Members(c, l)
    requires forall a :: a in c' && c'[a].free <==> a == n || (a in c && c[a].free)
    requires n in c ==> !c[n].free
    ensures Members(c', [n] + l)
  {
    var r := [n] + l;
    assert forall i :: 0 < i < |r| ==> r[i] == l[i - 1];
    forall i | 0 <= i < |r| ensures r[i] in c' && c'[r[i]].free {
      if i > 0 { assert l[i - 1] in c && c[l[i - 1]].free; }
    }
    forall a | a in c' && c'[a].free ensures a in r {
      if a != n { assert a in l; }
    }
  }

  /** Taking a node off the list, then retagging a chunk that is live afterwards; `v` is not promised to stay. */
  lemma UnlinkAndRetag(m: seq<Word>, m': seq<Word>, c: Chunks, c': Chunks, l: seq<int>, l': seq<int>,
                       head: int, head': int, base: int, top: int, k: int, a: int, v: int, tag: Word)
    requires Core(m, c, l, head, base, top) && 0 <= k < |l|
    requires Tiling(c', base, top)
    requires forall b :: b in c' && c'[b].free <==> b in c && c[b].free && b != l[k]
    requires forall b :: b in c' && b != a ==> b in c && c'[b] == c[b]
    requires a in c' && tag == Tag(c'[a]) && !c'[a].free && (a == v || a == l[k])
    requires forall b :: b in c && b != a && b != v && !c[b].free ==> b in c'
    requires l' == RemoveAt(l, k) && head' == HeadAfterUnlink(m, l[k], head)
    requires m' == Retagged(Unlink(m, l[k]), a, Next(c', a), tag)
    ensures Core(m', c', l', head', base, top)
    ensures Preserved(m, m', Live(c) - {v})
    ensures m'[top - 4] == m[top - 4]
  {
    RemoveKeepsMembers(c, c', l, k);
    UnlinkTags(m, m', c, c', l, base, top, k, a, v, tag, head);
    UnlinkLinks(m, m', c, c', l, l', head, base, top, k, a, tag);
  }

  lemma UnlinkTags(m: seq<Word>, m': seq<Word>, c: Chunks, c': Chunks, l: seq<int>, base: int, top: int, k: int, a: int, v: int, tag: Word, head: int)
    requires Tiling(c, base, top) && top <= |m| && Members(c, l) && Tags(m, c, base, top) && Links(m, l, head) && 0 <= k < |l|
    requires Tiling(c', base, top)
    requires forall b :: b in c' && b != a ==> b in c && c'[b] == c[b]
    requires a in c' && tag == Tag(c'[a]) && (a == v || a == l[k])
    requires forall b :: b in c && b != a && b != v && !c[b].free ==> b in c'
    requires m' == Retagged(Unlink(m, l[k]), a, Next(c', a), tag)
    ensures Tags(m', c', base, top)
    ensures Preserved(m, m', Live(c) - {v})
    ensures m'[top - 4] == m[top - 4]
  {
    var m1 := Unlink(m, l[k]);
    FreeNodesAreSpaced(c, l, base, top);
    UnlinkKeepsLinks(m, m1, l, RemoveAt(l, k), head, k);
    LinkStoresKeepTags(m, m1, c, l, base, top);
    RetagMatches(m1, m', c, c', base, top, top, a, tag);
    PreservedTrans(m, m1, m', Live(c) - {v}, Live(c), Live(c'));
  }

  lemma UnlinkLinks(m: seq<Word>, m': seq<Word>, c: Chunks, c': Chunks, l: seq<int>, l': seq<int>, head: int, base: int, top: int, k: int, a: int, tag: Word)
    requires Tiling(c, base, top) && top <= |m| && Members(c, l) && Links(m, l, head) && 0 <= k < |l|
    requires Tiling(c', base, top) && l' == RemoveAt(l, k) && Members(c', l') && a in c'
    requires m' == Retagged(Unlink(m, l[k]), a, Next(c', a), tag)
    ensures Links(m', l', HeadAfterUnlink(m, l[k], head))
  {
    FreeNodesAreSpaced(c, l, base, top);
    UnlinkKeepsLinks(m, Unlink(m, l[k]), l, l', head, k);
    RetagKeepsLinks(Unlink(m, l[k]), c', l', HeadAfterUnlink(m, l[k], head), base, top, a, tag);
  }

  /** Retagging a chunk as free, then pushing it onto the list. */
  lemma RetagAndPush(m: seq<Word>, m': seq<Word>, c: Chunks, c': Chunks, l: seq<int>, head: Word, base: int, top: int, top': int, a: Word, tag: Word)
    requires Core(m, c, l, head, base, top)
    requires Tiling(c', base, top') && top' <= |m|
    requires a in c' && c'[a].free && tag == Tag(c'[a])
    requires a in c ==> !c[a].free
    requires forall b :: b in c' && b != a ==> b in c && c'[b] == c[b]
    requires forall b :: b in c ==> b in c'
    requires m' == Pushed(Retagged(m, a, Next(c', a), tag), a, head)
    ensures Core(m', c', [a] + l, a, base, top')
    ensures Preserved(m, m', Live(c) - {a})
    ensures m'[top' - 4] == m[top' - 4]
  {
    PushKeepsMembers(c, c', l, a);
    PushTags(m, c, c', l, head, base, top, top', a, tag);
    PushLinks(m, c', l, head, base, top', a, tag);
  }

  lemma PushTags(m: seq<Word>, c: Chunks, c': Chunks, l: seq<int>, head: Word, base: int, top: int, top': int, a: int, tag: Word)
    requires Tiling(c, base, top) && top <= |m| && Tags(m, c, base, top) && Links(m, l, head)
    requires Tiling(c', base, top') && top' <= |m| && Members(c', [a] + l)
    requires a in c' && a < WORD_LIMIT && c'[a].free && tag == Tag(c'[a])
    requires forall b :: b in c' && b != a ==> b in c && c'[b] == c[b]
    requires forall b :: b in c ==> b in c'
    ensures var m' := Pushed(Retagged(m, a, Next(c', a), tag), a, head);
      && Tags(m', c', base, top')
      && Preserved(m, m', Live(c) - {a})
      && m'[top' - 4] == m[top' - 4]
  {
    var m1 := Retagged(m, a, Next(c', a), tag);
    RetagMatches(m, m1, c, c', base, top, top', a, tag);
    PushStores(m1, l, head, a);
    LinkStoresKeepTags(m1, Pushed(m1, a, head), c', [a] + l, base, top');
    PreservedTrans(m, m1, Pushed(m1, a, head), Live(c) - {a}, Live(c'), Live(c'));
  }

  lemma PreservedTrans(m: seq<Word>, m1: seq<Word>, m2: seq<Word>, live: map<int, nat>, live1: map<int, nat>, live2: map<int, nat>)
    requires Preserved(m, m1, live1) && Preserved(m1, m2, live2)
    requires forall a :: a in live ==> a in live1 && live1[a] == live[a]
    requires forall a :: a in live ==> a in live2 && live2[a] == live[a]
    ensures Preserved(m, m2, live)
  {
  }

  lemma PushStores(m: seq<Word>, l: seq<int>, head: Word, n: Word)
    requires head == At(l, 0)
    ensures OnlyLinks(m, Pushed(m, n, head), [n] + l)
  {
    var r := [n] + l;
    assert r[0] == n;
    assert head != 0 ==> r[1] == head;
  }

  lemma PushLinks(m: seq<Word>, c: Chunks, l: seq<int>, head: Word, base: int, top: int, a: int, tag: Word)
    requires Tiling(c, base, top) && top <= |m| && Members(c, [a] + l) && Links(m, l, head)
    requires a in c && a < WORD_LIMIT
    ensures Links(Pushed(Retagged(m, a, Next(c, a), tag), a, head), [a] + l, a)
  {
    FreeNodesAreSpaced(c, [a] + l, base, top);
    RetagKeepsOldLinks(m, c, l, head, base, top, a, tag);
    assert ([a] + l)[0] == a;
    PushKeepsLinks(Retagged(m, a, Next(c, a), tag), l, head, a);
  }

  /** Tag words of the chunk at `a` are not links of a list whose nodes are other free chunks. */
  lemma RetagKeepsOldLinks(m: seq<Word>, c: Chunks, l: seq<int>, head: int, base: int, top: int, a: int, tag: Word)
    requires Tiling(c, base, top) && top <= |m| && Members(c, [a] + l) && Links(m, l, head) && a in c
    ensures Links(Retagged(m, a, Next(c, a), tag), l, head)
  {
    LinksMissTags(c, [a] + l, base, top);
    forall x | IsLink(l, x) ensures IsLink([a] + l, x) {
      var i :| 0 <= i < |l| && (x == l[i] || x == l[i] + 4);
      assert ([a] + l)[i + 1] == l[i];
    }
    PokeKeepsLinks(m, l, head, a - 4, tag);
    PokeKeepsLinks(Poke(m, a - 4, tag), l, head, Next(c, a) - 8, tag);
  }

  /** The stores of a split, in program order, before the list node is moved. */
  function SplitTags(m: seq<Word>, a: int, bytes: Word, next: int, tag: Word): seq<Word> {
    Poke(Poke(Poke(Poke(m, a + bytes, bytes), a + bytes + 4, tag), next - 8, tag), a - 4, bytes)
  }

  lemma SplitMatches(m: seq<Word>, m': seq<Word>, c: Chunks, c': Chunks, base: int, top: int, a: int, u: nat, tag: Word)
    requires Tiling(c, base, top) && top <= |m| && Tags(m, c, base, top)
    requires a in c && 1 <= u && u + 2 <= c[a].units && tag == 8 * (c[a].units - u - 1) + 1
    requires a + 8 * u + 8 !in c && c' == SplitAt(c, a, u) && Tiling(c', base, top)
    requires 8 * u < WORD_LIMIT && m' == SplitTags(m, a, 8 * u, Next(c, a), tag)
    ensures Tags(m', c', base, top)
    ensures m'[top - 4] == m[top - 4]
  {
    var n := a + 8 * u + 8;
    assert Next(c', a) == n && Next(c', n) == Next(c, a) <= top;
    SplitOwnTags(m, m', a, u, Next(c, a), tag);
    forall b | b in c' ensures m'[b - 4] == Tag(c'[b]) && m'[Next(c', b) - 8] == Tag(c'[b]) {
      if b != a && b != n {
        SplitMissesOthers(m, m', c, base, top, a, u, tag, b);
      }
    }
  }

  lemma SplitOwnTags(m: seq<Word>, m': seq<Word>, a: int, u: nat, next: int, tag: Word)
    requires 4 <= a && 1 <= u && a + 8 * u + 24 <= next <= |m| && 8 * u < WORD_LIMIT
    requires m' == SplitTags(m, a, 8 * u, next, tag)
    ensures m'[a - 4] == 8 * u && m'[a + 8 * u] == 8 * u
    ensures m'[a + 8 * u + 4] == tag && m'[next - 8] == tag
  {
  }

  lemma SplitMissesOthers(m: seq<Word>, m': seq<Word>, c: Chunks, base: int, top: int, a: int, u: nat, tag: Word, b: int)
    requires Tiling(c, base, top) && top <= |m|
    requires a in c && b in c && a != b && 1 <= u && u + 2 <= c[a].units
    requires 8 * u < WORD_LIMIT && m' == SplitTags(m, a, 8 * u, Next(c, a), tag)
    ensures m'[b - 4] == m[b - 4] && m'[Next(c, b) - 8] == m[Next(c, b) - 8]
  {
  }

  lemma SplitPreserves(m: seq<Word>, m': seq<Word>, c: Chunks, base: int, top: int, a: int, u: nat, tag: Word)
    requires Tiling(c, base, top) && top <= |m|
    requires a in c && c[a].free && 1 <= u && u + 2 <= c[a].units
    requires 8 * u < WORD_LIMIT && m' == SplitTags(m, a, 8 * u, Next(c, a), tag)
    ensures Preserved(m, m', Live(c))
  {
  }

  lemma ReplaceKeepsMembers(c: Chunks, c': Chunks, l: seq<int>, l': seq<int>, k: int, u: nat, n: int)
    requires Members(c, l) && 0 <= k < |l| && u + 2 <= c[l[k]].units && n == l[k] + 8 * u + 8 && n !in c
    requires c' == SplitAt(c, l[k], u) && l' == l[k := n]
    ensures Members(c', l')
  {
    forall i | 0 <= i < |l'| ensures l'[i] in c' && c'[l'[i]].free {
      if i != k { assert l[i] in c && l[i] != l[k]; }
    }
    forall a | a in c' && c'[a].free ensures a in l' {
      if a == n {
        assert l'[k] == n;
      } else {
        var j :| 0 <= j < |l| && l[j] == a;
        assert l'[j] == a;
      }
    }
    forall i, j | 0 <= i < j < |l'| ensures l'[i] != l'[j] {
      assert l[i] in c && l[j] in c;
    }
  }

  lemma SplitStep(m: seq<Word>, m1: seq<Word>, m': seq<Word>, c: Chunks, c': Chunks, l: seq<int>, l': seq<int>,
                  head: int, head': int, base: int, top: int, k: int, u: nat, n: int, n': Word, tag: Word)
    requires Core(m, c, l, head, base, top) && 0 <= k < |l| && n == l[k] && n in c && c[n].free
    requires 1 <= u && u + 2 <= c[n].units && tag == 8 * (c[n].units - u - 1) + 1
    requires n' == n + 8 * u + 8 && 8 * u < WORD_LIMIT && 0 <= n && n + 4 < |m1| == |m|
    requires m1 == SplitTags(m, n, 8 * u, Next(c, n), tag)
    requires m' == Moved(m1, n', m1[n], m1[n + 4])
    requires c' == SplitAt(c, n, u) && l' == l[k := n']
    requires head' == if m1[n] != 0 then head else n'
    ensures n' !in c
    ensures Core(m', c', l', head', base, top)
    ensures Preserved(m, m', Live(c))
    ensures m'[top - 4] == m[top - 4]
  {
    SplitKeepsTiling(c, c', base, top, n, u);
    ReplaceKeepsMembers(c, c', l, l', k, u, n');
    SplitKeepsLinks(m, m1, c, l, head, base, top, k, u, tag);
    SplitLinks(m1, m', c, c', l, l', head, head', base, top, k, n');
    SplitKeepsRest(m, m1, m', c, c', l', base, top, n, u, tag);
  }

  lemma SplitLinks(m1: seq<Word>, m': seq<Word>, c: Chunks, c': Chunks, l: seq<int>, l': seq<int>,
                   head: int, head': int, base: int, top: int, k: int, n': Word)
    requires Tiling(c, base, top) && top <= |m1| && Members(c, l) && Links(m1, l, head) && 0 <= k < |l|
    requires Tiling(c', base, top) && Members(c', l') && l' == l[k := n']
    requires m' == Moved(m1, n', m1[l[k]], m1[l[k] + 4])
    requires head' == if m1[l[k]] != 0 then head else n'
    ensures Links(m', l', head') && OnlyLinks(m1, m', l')
  {
    FreeNodesAreSpaced(c, l, base, top);
    FreeNodesAreSpaced(c', l', base, top);
    assert l'[k] == n';
    MoveKeepsLinks(m1, m', l, l', head, k, n');
  }

  lemma SplitKeepsRest(m: seq<Word>, m1: seq<Word>, m': seq<Word>, c: Chunks, c': Chunks, r: seq<int>, base: int, top: int, n: int, u: nat, tag: Word)
    requires Tiling(c, base, top) && top <= |m| && Tags(m, c, base, top)
    requires n in c && c[n].free && 1 <= u && u + 2 <= c[n].units && tag == 8 * (c[n].units - u - 1) + 1
    requires n + 8 * u + 8 !in c && c' == SplitAt(c, n, u) && Tiling(c', base, top) && Members(c', r)
    requires 8 * u < WORD_LIMIT && m1 == SplitTags(m, n, 8 * u, Next(c, n), tag) && OnlyLinks(m1, m', r)
    ensures Tags(m', c', base, top)
    ensures Preserved(m, m', Live(c))
    ensures m'[top - 4] == m[top - 4]
  {
    SplitMatches(m, m1, c, c', base, top, n, u, tag);
    SplitPreserves(m, m1, c, base, top, n, u, tag);
    LinkStoresKeepTags(m1, m', c', r, base, top);
    SplitLive(c, c', n, u);
    PreservedTrans(m, m1, m', Live(c), Live(c), Live(c'));
  }

  lemma SplitLive(c: Chunks, c': Chunks, n: int, u: nat)
    requires n in c && c[n].free && u + 2 <= c[n].units && n + 8 * u + 8 !in c && c' == SplitAt(c, n, u)
    ensures n !in Live(c) && Live(c') == Live(c)[n := 8 * u]
  {
  }

  lemma SplitKeepsLinks(m: seq<Word>, m': seq<Word>, c: Chunks, l: seq<int>, head: int, base: int, top: int, k: int, u: nat, tag: Word)
    requires Tiling(c, base, top) && top <= |m| && Members(c, l) && Links(m, l, head) && 0 <= k < |l|
    requires 1 <= u && u + 2 <= c[l[k]].units && 8 * u < WORD_LIMIT
    requires m' == SplitTags(m, l[k], 8 * u, Next(c, l[k]), tag)
    ensures Links(m', l, head)
  {
    SplitAddresses(c, l, base, top, l[k], 8 * u);
    NonLinkStores(m, m', l, head);
  }

  lemma SplitAddresses(c: Chunks, l: seq<int>, base: int, top: int, n: int, bytes: int)
    requires Tiling(c, base, top) && Members(c, l) && n in c && 8 <= bytes && bytes + 16 <= c[n].Size()
    ensures !IsLink(l, n + bytes) && !IsLink(l, n + bytes + 4) && !IsLink(l, Next(c, n) - 8) && !IsLink(l, n - 4)
  {
    LinksMissTags(c, l, base, top);
    InteriorIsNoLink(c, l, base, top, n, n + bytes);
    InteriorIsNoLink(c, l, base, top, n, n + bytes + 4);
  }

  /** Beyond its first two words, the payload of a chunk holds no link. */
  lemma InteriorIsNoLink(c: Chunks, l: seq<int>, base: int, top: int, a: int, x: int)
    requires Tiling(c, base, top) && Members(c, l) && a in c && a + 8 <= x < a + c[a].Size()
    ensures !IsLink(l, x)
  {
    forall i | 0 <= i < |l| ensures x != l[i] && x != l[i] + 4 {
      assert l[i] in c;
    }
  }

  /** Stores to addresses that hold no link leave the list intact. */
  lemma NonLinkStores(m: seq<Word>, m': seq<Word>, l: seq<int>, head: int)
    requires Links(m, l, head) && |m'| == |m|
    requires forall x :: 0 <= x < |m| && IsLink(l, x) ==> m'[x] == m[x]
    ensures Links(m', l, head)
  {
    forall i | 0 <= i < |l| ensures Linked(m', l, i) {
      assert Linked(m, l, i);
      assert IsLink(l, l[i]) && IsLink(l, l[i] + 4);
    }
  }

  /** Writing the descriptors of a new last chunk. */
  function NewLast(m: seq<Word>, a: int, bytes: Word): seq<Word> {
    Poke(Retagged(m, a, a + bytes + 8, bytes), a + bytes + 4, 0)
  }

  lemma ExtendStep(m: seq<Word>, m': seq<Word>, c: Chunks, c': Chunks, l: seq<int>, head: int, base: int, top: int, top': int, u: nat)
    requires Core(m, c, l, head, base, top) && 1 <= u && top' == top + 8 * u + 8 <= |m| <= WORD_LIMIT
    requires c' == c[top := Chunk(u, false)] && m' == NewLast(m, top, 8 * u)
    ensures top !in c
    ensures Core(m', c', l, head, base, top')
    ensures Preserved(m, m', Live(c))
    ensures TrailClear(m', c', top', 0)
  {
    ExtendKeepsTiling(c, base, top, Chunk(u, false));
    LiveChunkKeepsMembers(c, c', l, top, u);
    var m1 := Retagged(m, top, top', 8 * u);
    ExtendTags(m, m1, m', c, c', base, top, top', u);
    ExtendLinks(m, m1, m', c', l, head, base, top, top', 8 * u);
  }

  lemma LiveChunkKeepsMembers(c: Chunks, c': Chunks, l: seq<int>, a: int, u: nat)
    requires Members(c, l) && a !in c && c' == c[a := Chunk(u, false)]
    ensures Members(c', l)
  {
    assert forall b :: b in c' && c'[b].free ==> b in c && c[b].free;
  }

  lemma ExtendTags(m: seq<Word>, m1: seq<Word>, m': seq<Word>, c: Chunks, c': Chunks, base: int, top: int, top': int, u: nat)
    requires Tiling(c, base, top) && top' == top + 8 * u + 8 <= |m| <= WORD_LIMIT && Tags(m, c, base, top)
    requires top !in c && c' == c[top := Chunk(u, false)] && Tiling(c', base, top')
    requires m1 == Retagged(m, top, top', 8 * u) && m' == Poke(m1, top' - 4, 0)
    ensures Tags(m', c', base, top') && Preserved(m, m', Live(c)) && m'[top' - 4] == 0
  {
    assert Next(c', top) == top';
    RetagMatches(m, m1, c, c', base, top, top', top, 8 * u);
    PokeTrailKeepsTags(m1, m', c', base, top', 0);
    PreservedTrans(m, m1, m', Live(c), Live(c'), Live(c'));
  }

  lemma PokeTrailKeepsTags(m: seq<Word>, m': seq<Word>, c: Chunks, base: int, top: int, w: Word)
    requires Tiling(c, base, top) && top <= |m| && Tags(m, c, base, top) && m' == Poke(m, top - 4, w)
    ensures Tags(m', c, base, top) && Preserved(m, m', Live(c))
  {
  }

  lemma ExtendLinks(m: seq<Word>, m1: seq<Word>, m': seq<Word>, c: Chunks, l: seq<int>, head: int, base: int, top: int, top': int, bytes: Word)
    requires top in c && Next(c, top) == top' && top' <= |m|
    requires Tiling(c, base, top') && Members(c, l) && Links(m, l, head)
    requires m1 == Retagged(m, top, top', bytes) && m' == Poke(m1, top' - 4, 0)
    ensures Links(m', l, head)
  {
    LinksMissTags(c, l, base, top');
    RetagKeepsLinks(m, c, l, head, base, top', top, bytes);
    PokeKeepsLinks(m1, l, head, top' - 4, 0);
  }
}
