/** Where every physical frame of the kernel heap is (page.c), on values. */
module Frames {
  import opened Machine
  import opened Heap

  /** The one place a frame is in: where boot put it, behind a heap page, on the page free list, or with a caller. */
  datatype Place = Fixed | Mapped(page: int) | Listed(node: int) | Held

  function FrameOf(entry: Word): Word {
    entry - entry % PAGE_SIZE
  }

  predicate Present(entry: Word) {
    entry % 2 == 1
  }

  /** `PAGE_WRITE | PAGE_PRESENT` set on a page-aligned frame. */
  function HeapEntry(pma: Word): Word
    requires pma % PAGE_SIZE == 0
  {
    pma + 3
  }

  /** The `i`-th node of the page free list links to the next one. */
  predicate PageLinked(m: seq<Word>, pf: seq<int>, i: int)
    requires 0 <= i < |pf| && 0 <= pf[i] && pf[i] + 4 < |m|
  {
    m[pf[i] + 4] == At(pf, i + 1)
  }

  /** `pf` is the page free list: distinct live heap blocks, linked in memory from `head`. */
  ghost predicate PageList(m: seq<Word>, pf: seq<int>, head: int, live: map<int, nat>) {
    && head == At(pf, 0) && Distinct(pf)
    && (forall i :: 0 <= i < |pf| ==> pf[i] in live && 8 <= live[pf[i]])
    && (forall i :: 0 <= i < |pf| ==> 0 < pf[i] && pf[i] + 8 <= |m|)
    && (forall i {:trigger PageLinked(m, pf, i)} :: 0 <= i < |pf| ==> PageLinked(m, pf, i))
  }

  /**
   Frames recorded on the page free list are accounted for there, and nowhere else. The node `stray`, if it is not 0,
   is left out of the account: it records a frame that is not its to record.
   */
  ghost predicate ListAccounted(m: seq<Word>, pf: seq<int>, owner: map<Word, Place>, stray: int)
    requires forall i :: 0 <= i < |pf| ==> 0 <= pf[i] < |m|
  {
    && (forall i :: 0 <= i < |pf| && pf[i] != stray ==> m[pf[i]] in owner && owner[m[pf[i]]] == Listed(pf[i]))
    && (forall f :: f in owner && owner[f].Listed? ==> owner[f].node in pf && owner[f].node != stray && m[owner[f].node] == f)
  }

  /** Heap pages `lo` up to `hi` are mapped, each to a frame of its own, and no page from `hi` up to the stack page is. */
  ghost predicate MapAccounted(pte: seq<Word>, lo: int, hi: int, owner: map<Word, Place>) {
    && 0 <= lo <= hi < PAGES && |pte| == PAGES
    && (forall p :: lo <= p < hi ==> Present(pte[p]) && FrameOf(pte[p]) in owner && owner[FrameOf(pte[p])] == Mapped(p))
    && (forall f :: f in owner && owner[f].Mapped? ==> lo <= owner[f].page < hi && FrameOf(pte[owner[f].page]) == f)
    && (forall p :: hi <= p < PAGES - 1 ==> !Present(pte[p]))
  }

  const PAGES := 0x10_0000

  /** The frames are the page-aligned addresses below the frontier. */
  ghost predicate Frontier(owner: map<Word, Place>, frontier: Word) {
    frontier % PAGE_SIZE == 0 && forall f :: f in owner <==> 0 <= f < frontier && f % PAGE_SIZE == 0
  }

  lemma HeapEntryFrame(pma: Word)
    requires pma % PAGE_SIZE == 0
    ensures FrameOf(HeapEntry(pma)) == pma && Present(HeapEntry(pma))
  {
  }

  /** The page free list survives any change that leaves its nodes alone. */
  lemma ListKept(m: seq<Word>, m': seq<Word>, pf: seq<int>, head: int, live: map<int, nat>, live': map<int, nat>, owner: map<Word, Place>, stray: int)
    requires PageList(m, pf, head, live) && ListAccounted(m, pf, owner, stray)
    requires Preserved(m, m', live)
    requires forall i :: 0 <= i < |pf| ==> pf[i] in live' && 8 <= live'[pf[i]]
    ensures PageList(m', pf, head, live') && ListAccounted(m', pf, owner, stray)
  {
    forall i | 0 <= i < |pf| ensures PageLinked(m', pf, i) && m'[pf[i]] == m[pf[i]] {
      assert PageLinked(m, pf, i);
      assert pf[i] in live;
    }
  }

  /** Taking the first node off the page free list; its frame is then held by the caller. */
  lemma PopPage(m: seq<Word>, pf: seq<int>, head: int, live: map<int, nat>, owner: map<Word, Place>, stray: int)
    requires PageList(m, pf, head, live) && ListAccounted(m, pf, owner, stray) && pf != [] && pf[0] != stray
    ensures PageList(m, pf[1..], m[pf[0] + 4], live)
    ensures pf[0] !in pf[1..]
    ensures m[pf[0]] in owner && ListAccounted(m, pf[1..], owner[m[pf[0]] := Held], stray)
  {
    PopList(m, pf, head, live);
    PopAccount(m, pf, owner, stray);
  }

  lemma PopList(m: seq<Word>, pf: seq<int>, head: int, live: map<int, nat>)
    requires PageList(m, pf, head, live) && pf != []
    ensures PageList(m, pf[1..], m[pf[0] + 4], live)
    ensures pf[0] !in pf[1..]
  {
    var r := pf[1..];
    assert PageLinked(m, pf, 0);
    assert forall i :: 0 <= i < |r| ==> r[i] == pf[i + 1];
    forall i | 0 <= i < |r| ensures PageLinked(m, r, i) {
      assert PageLinked(m, pf, i + 1);
    }
  }

  lemma PopAccount(m: seq<Word>, pf: seq<int>, owner: map<Word, Place>, stray: int)
    requires pf != [] && Distinct(pf) && forall i :: 0 <= i < |pf| ==> 0 <= pf[i] < |m|
    requires ListAccounted(m, pf, owner, stray) && pf[0] != stray
    ensures m[pf[0]] in owner && ListAccounted(m, pf[1..], owner[m[pf[0]] := Held], stray)
  {
    var r, owner' := pf[1..], owner[m[pf[0]] := Held];
    assert forall i :: 0 <= i < |r| ==> r[i] == pf[i + 1] != pf[0];
    forall i | 0 <= i < |r| && r[i] != stray ensures m[r[i]] in owner' && owner'[m[r[i]]] == Listed(r[i]) {
      assert m[pf[i + 1]] in owner && owner[m[pf[i + 1]]] == Listed(pf[i + 1]);
    }
    forall f | f in owner' && owner'[f].Listed? ensures owner'[f].node in r && owner'[f].node != stray && m[owner'[f].node] == f {
      var j :| 0 <= j < |pf| && pf[j] == owner[f].node;
      assert j != 0 && r[j - 1] == pf[j];
    }
  }

  /** Pushing a node that records frame `f`. */
  lemma PushPage(m: seq<Word>, m': seq<Word>, pf: seq<int>, head: Word, live: map<int, nat>, owner: map<Word, Place>, stray: int, n: int, f: Word)
    requires PageList(m, pf, head, live) && ListAccounted(m, pf, owner, stray) && n != stray
    requires n in live && 8 <= live[n] && 0 < n && n + 8 <= |m| && n !in pf
    requires f in owner && !owner[f].Listed?
    requires Preserved(m, m', live - {n}) && m'[n] == f && m'[n + 4] == head
    ensures PageList(m', [n] + pf, n, live) && ListAccounted(m', [n] + pf, owner[f := Listed(n)], stray)
  {
    forall i | 0 <= i < |pf| ensures m'[pf[i]] == m[pf[i]] && m'[pf[i] + 4] == m[pf[i] + 4] {
      assert pf[i] in live - {n} && (live - {n})[pf[i]] == live[pf[i]];
    }
    PushList(m, m', pf, head, live, n);
    PushAccount(m, m', pf, owner, stray, n, f);
  }

  /** Pushing a node that records a frame without taking it over. */
  lemma PushStray(m: seq<Word>, m': seq<Word>, pf: seq<int>, head: Word, live: map<int, nat>, owner: map<Word, Place>, n: int)
    requires PageList(m, pf, head, live) && ListAccounted(m, pf, owner, 0)
    requires n in live && 8 <= live[n] && 0 < n && n + 8 <= |m| && n !in pf
    requires Preserved(m, m', live - {n}) && m'[n + 4] == head
    ensures PageList(m', [n] + pf, n, live) && ListAccounted(m', [n] + pf, owner, n)
  {
    forall i | 0 <= i < |pf| ensures m'[pf[i]] == m[pf[i]] && m'[pf[i] + 4] == m[pf[i] + 4] {
      assert pf[i] in live - {n} && (live - {n})[pf[i]] == live[pf[i]];
    }
    PushList(m, m', pf, head, live, n);
    var r := [n] + pf;
    assert r[0] == n && forall i :: 0 < i < |r| ==> r[i] == pf[i - 1];
  }

  lemma PushList(m: seq<Word>, m': seq<Word>, pf: seq<int>, head: Word, live: map<int, nat>, n: int)
    requires PageList(m, pf, head, live) && |m'| == |m|
    requires n in live && 8 <= live[n] && 0 < n && n + 8 <= |m| && n !in pf
    requires forall i :: 0 <= i < |pf| ==> m'[pf[i] + 4] == m[pf[i] + 4]
    requires m'[n + 4] == head
    ensures PageList(m', [n] + pf, n, live)
  {
    var r := [n] + pf;
    assert forall i :: 0 < i < |r| ==> r[i] == pf[i - 1];
    forall i | 0 <= i < |r| ensures 0 < r[i] && r[i] + 8 <= |m'| && PageLinked(m', r, i) {
      if i > 0 { assert PageLinked(m, pf, i - 1); }
    }
  }

  lemma PushAccount(m: seq<Word>, m': seq<Word>, pf: seq<int>, owner: map<Word, Place>, stray: int, n: int, f: Word)
    requires (forall i :: 0 <= i < |pf| ==> 0 <= pf[i] < |m|) && 0 <= n < |m| == |m'| && n !in pf
    requires ListAccounted(m, pf, owner, stray) && n != stray && f in owner && !owner[f].Listed?
    requires forall i :: 0 <= i < |pf| ==> m'[pf[i]] == m[pf[i]]
    requires m'[n] == f
    ensures ListAccounted(m', [n] + pf, owner[f := Listed(n)], stray)
  {
    var r, owner' := [n] + pf, owner[f := Listed(n)];
    assert r[0] == n && forall i :: 0 < i < |r| ==> r[i] == pf[i - 1];
    forall i | 0 <= i < |r| && r[i] != stray ensures m'[r[i]] in owner' && owner'[m'[r[i]]] == Listed(r[i]) {
      if i > 0 { assert m[pf[i - 1]] in owner && owner[m[pf[i - 1]]] == Listed(pf[i - 1]); }
    }
    forall g | g in owner' && owner'[g].Listed? ensures owner'[g].node in r && owner'[g].node != stray && m'[owner'[g].node] == g {
      if g != f {
        var j :| 0 <= j < |pf| && pf[j] == owner[g].node;
        assert r[j + 1] == pf[j];
      }
    }
  }

  /** Mapping a held frame at the page just above the heap. */
  lemma MapPage(pte: seq<Word>, lo: int, hi: int, owner: map<Word, Place>, f: Word)
    requires MapAccounted(pte, lo, hi, owner) && hi + 1 < PAGES && f % PAGE_SIZE == 0
    requires f in owner && owner[f] == Held
    ensures MapAccounted(pte[hi := HeapEntry(f)], lo, hi + 1, owner[f := Mapped(hi)])
  {
    HeapEntryFrame(f);
  }

  /** Unmapping the topmost heap page. */
  lemma UnmapPage(pte: seq<Word>, lo: int, hi: int, owner: map<Word, Place>, place: Place)
    requires MapAccounted(pte, lo, hi, owner) && lo < hi && !place.Mapped?
    ensures FrameOf(pte[hi - 1]) in owner && owner[FrameOf(pte[hi - 1])] == Mapped(hi - 1)
    ensures MapAccounted(pte[hi - 1 := pte[hi - 1] - pte[hi - 1] % 2], lo, hi - 1, owner[FrameOf(pte[hi - 1]) := place])
  {
    var e := pte[hi - 1];
    assert (e - e % 2) % 2 == 0;
    assert Present(e);
  }

  /** The live blocks that are not nodes of the page free list: those that callers hold. */
  function Users(live: map<int, nat>, pf: seq<int>): map<int, nat> {
    map a | a in live && a !in pf :: live[a]
  }

  lemma UsersWithout(live: map<int, nat>, pf: seq<int>, v: int)
    ensures Users(live - {v}, pf) == Users(live, pf) - {v}
  {
  }

  lemma UsersPushed(live: map<int, nat>, pf: seq<int>, n: int)
    ensures Users(live, [n] + pf) == Users(live, pf) - {n}
  {
    assert forall a :: a in [n] + pf <==> a == n || a in pf;
  }

  lemma PreservedUsers(m: seq<Word>, m': seq<Word>, live: map<int, nat>, pf: seq<int>)
    requires Preserved(m, m', live)
    ensures Preserved(m, m', Users(live, pf))
  {
  }

  /** A fresh frame from the frontier, held by the caller. */
  lemma FreshFrame(owner: map<Word, Place>, frontier: Word, m: seq<Word>, pf: seq<int>, stray: int, pte: seq<Word>, lo: int, hi: int)
    requires Frontier(owner, frontier) && frontier + PAGE_SIZE < WORD_LIMIT
    requires (forall i :: 0 <= i < |pf| ==> 0 <= pf[i] < |m|) && ListAccounted(m, pf, owner, stray)
    requires MapAccounted(pte, lo, hi, owner)
    ensures frontier !in owner
    ensures Frontier(owner[frontier := Held], frontier + PAGE_SIZE)
    ensures ListAccounted(m, pf, owner[frontier := Held], stray)
    ensures MapAccounted(pte, lo, hi, owner[frontier := Held])
  {
    var owner' := owner[frontier := Held];
    forall f ensures f in owner' <==> 0 <= f < frontier + PAGE_SIZE && f % PAGE_SIZE == 0 {
      if frontier < f < frontier + PAGE_SIZE {
        BetweenMultiples(frontier, f);
      }
    }
  }

  lemma BetweenMultiples(a: nat, f: nat)
    requires a % PAGE_SIZE == 0 && a < f < a + PAGE_SIZE
    ensures f % PAGE_SIZE != 0
  {
    DivUnique(f, PAGE_SIZE, a / PAGE_SIZE, f - a);
  }

  /** The page free list does not need a block that is not one of its nodes. */
  lemma ListWithout(m: seq<Word>, pf: seq<int>, head: int, live: map<int, nat>, v: int)
    requires PageList(m, pf, head, live) && v !in pf
    ensures PageList(m, pf, head, live - {v})
  {
  }
}
