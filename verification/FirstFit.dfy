/** The first-fit search of alloc.c, and how many minimal requests a free list can serve. */
module FirstFit {
  import opened Machine
  import opened Heap
  import opened HeapSteps
  import opened HeapMoves

  /** The size test of the search loop: a perfect fit, or room for the block, a descriptor and a remainder. */
  predicate Fits(size: int, bytes: int) {
    size == bytes || size > bytes + 8
  }

  ghost predicate InChunks(c: Chunks, l: seq<int>) {
    forall i :: 0 <= i < |l| ==> l[i] in c
  }

  /** The search stops at node `k` of `l`. */
  ghost predicate IsFirstFit(c: Chunks, l: seq<int>, bytes: int, k: int) {
    && InChunks(c, l) && 0 <= k < |l| && Fits(c[l[k]].Size(), bytes)
    && (forall j :: 0 <= j < k ==> !Fits(c[l[j]].Size(), bytes))
  }

  /** No node of `l` serves the request. */
  ghost predicate NoFit(c: Chunks, l: seq<int>, bytes: int) {
    forall j :: 0 <= j < |l| && l[j] in c ==> !Fits(c[l[j]].Size(), bytes)
  }

  /** The chunks after node `n` has served a request for `u` units: taken whole, or split with the remainder left free. */
  function ServeChunks(c: Chunks, n: int, u: nat): Chunks
    requires n in c && Fits(c[n].Size(), 8 * u)
  {
    if c[n].units == u then c[n := Chunk(u, false)] else SplitAt(c, n, u)
  }

  /** The free list after node `k` has served a request: a remainder keeps its place in the list. */
  function ServeList(c: Chunks, l: seq<int>, k: int, u: nat): seq<int>
    requires 0 <= k < |l| && l[k] in c
  {
    if c[l[k]].units == u then RemoveAt(l, k) else l[k := l[k] + 8 * u + 8]
  }

  /** A perfect fit, or a chunk that is cut. */
  lemma ServeIs(c: Chunks, l: seq<int>, k: nat, u: nat)
    requires k < |l| && l[k] in c && Fits(c[l[k]].Size(), 8 * u)
    ensures c[l[k]].Size() == 8 * u ==> ServeChunks(c, l[k], u) == c[l[k] := Chunk(u, false)] && ServeList(c, l, k, u) == RemoveAt(l, k)
    ensures c[l[k]].Size() != 8 * u ==>
      u + 2 <= c[l[k]].units && ServeChunks(c, l[k], u) == SplitAt(c, l[k], u) && ServeList(c, l, k, u) == l[k := l[k] + 8 * u + 8]
  {
  }

  lemma FitOrNone(c: Chunks, l: seq<int>, bytes: int) returns (k: int)
    requires InChunks(c, l)
    ensures IsFirstFit(c, l, bytes, k) || (NoFit(c, l, bytes) && k == |l|)
  {
    k := 0;
    while k < |l| && !Fits(c[l[k]].Size(), bytes)
      invariant 0 <= k <= |l|
      invariant forall j :: 0 <= j < k ==> !Fits(c[l[j]].Size(), bytes)
    {
      k := k + 1;
    }
  }

  // ----- How many 8-byte requests in a row a free list serves -----

  /** Requests of 8 bytes that one chunk can serve: each takes 16 bytes, the last one may fit exactly. */
  function Slots(units: nat): nat {
    if units == 1 then 1 else if units > 2 then 1 + Slots(units - 2) else 0
  }

  ghost function Capacity(c: Chunks, l: seq<int>): nat {
    if l == [] then 0 else (if l[0] in c then Slots(c[l[0]].units) else 0) + Capacity(c, l[1..])
  }

  lemma {:induction false} CapacitySplit(c: Chunks, l: seq<int>, k: int)
    requires InChunks(c, l) && 0 <= k < |l|
    ensures InChunks(c, l[..k]) && InChunks(c, l[k + 1..])
    ensures Capacity(c, l) == Capacity(c, l[..k]) + Slots(c[l[k]].units) + Capacity(c, l[k + 1..])
  {
    if k > 0 {
      assert forall i :: 0 <= i < |l[1..]| ==> l[1..][i] == l[i + 1];
      CapacitySplit(c, l[1..], k - 1);
      assert l[1..][..k - 1] == l[..k][1..] && l[1..][k..] == l[k + 1..];
    } else {
      assert l[..0] == [];
    }
  }

  lemma {:induction false} CapacityAppend(c: Chunks, l: seq<int>, l': seq<int>)
    requires InChunks(c, l) && InChunks(c, l')
    ensures InChunks(c, l + l') && Capacity(c, l + l') == Capacity(c, l) + Capacity(c, l')
  {
    if l == [] {
      assert l + l' == l';
    } else {
      assert forall i :: 0 <= i < |l[1..]| ==> l[1..][i] == l[i + 1];
      CapacityAppend(c, l[1..], l');
      assert (l + l')[1..] == l[1..] + l';
    }
  }

  lemma {:induction false} CapacityLocal(c: Chunks, c': Chunks, l: seq<int>)
    requires InChunks(c, l) && InChunks(c', l)
    requires forall i :: 0 <= i < |l| ==> c'[l[i]].units == c[l[i]].units
    ensures Capacity(c', l) == Capacity(c, l)
  {
    if l != [] {
      assert forall i :: 0 <= i < |l[1..]| ==> l[1..][i] == l[i + 1];
      CapacityLocal(c, c', l[1..]);
    }
  }

  /** A free list serves an 8-byte request exactly if its capacity is not used up. */
  lemma {:induction false} CapacityPositive(c: Chunks, l: seq<int>)
    requires InChunks(c, l)
    ensures Capacity(c, l) == 0 <==> NoFit(c, l, 8)
  {
    if l != [] {
      var r := l[1..];
      assert forall i :: 0 <= i < |r| ==> r[i] == l[i + 1];
      CapacityPositive(c, r);
      assert Slots(c[l[0]].units) == 0 <==> !Fits(c[l[0]].Size(), 8);
      if NoFit(c, r, 8) && !Fits(c[l[0]].Size(), 8) {
        forall j | 0 <= j < |l| ensures !Fits(c[l[j]].Size(), 8) {
          assert j > 0 ==> l[j] == r[j - 1];
        }
      }
    }
  }

  /** Serving one 8-byte request uses up exactly one unit of capacity. */
  lemma CapacityDrops(c: Chunks, c': Chunks, l: seq<int>, l': seq<int>, base: int, top: int, k: int)
    requires Tiling(c, base, top) && Members(c, l) && 0 <= k < |l| && Fits(c[l[k]].Size(), 8)
    requires c' == ServeChunks(c, l[k], 1) && l' == ServeList(c, l, k, 1)
    ensures InChunks(c', l') && Capacity(c', l') == Capacity(c, l) - 1
  {
    if c[l[k]].units != 1 {
      InsideIsNoChunk(c, l[k], l[k] + 16);
    }
    ServingCosts(c, c', l, l', k);
  }

  lemma ServingCosts(c: Chunks, c': Chunks, l: seq<int>, l': seq<int>, k: int)
    requires InChunks(c, l) && Distinct(l) && 0 <= k < |l| && Fits(c[l[k]].Size(), 8)
    requires c' == ServeChunks(c, l[k], 1) && l' == ServeList(c, l, k, 1)
    requires c[l[k]].units != 1 ==> l[k] + 16 !in c
    ensures InChunks(c', l') && Capacity(c', l') == Capacity(c, l) - 1
  {
    var n := l[k];
    if c[n].units == 1 {
      assert forall j :: 0 <= j < |l| && j != k ==> l[j] != n;
      ReplaceNode(c, c', l, k, []);
      assert l' == l[..k] + ([] + l[k + 1..]);
    } else {
      SplitCosts(c, c', l, l', k, n + 16);
    }
  }

  lemma SplitCosts(c: Chunks, c': Chunks, l: seq<int>, l': seq<int>, k: int, r: int)
    requires InChunks(c, l) && Distinct(l) && 0 <= k < |l| && r !in c && c[l[k]].units > 2
    requires c' == c[l[k] := Chunk(1, false)][r := Chunk(c[l[k]].units - 2, true)] && l' == l[k := r]
    ensures InChunks(c', l') && Capacity(c', l') == Capacity(c, l) - 1
  {
    forall j | 0 <= j < |l| && j != k ensures l[j] in c' && c'[l[j]] == c[l[j]] {
      assert l[j] in c && l[j] != l[k];
    }
    ReplaceNode(c, c', l, k, [r]);
    UpdateAsParts(l, k, r);
    SingleCapacity(c', r);
  }

  lemma UpdateAsParts(l: seq<int>, k: int, r: int)
    requires 0 <= k < |l|
    ensures l[k := r] == l[..k] + ([r] + l[k + 1..])
  {
  }

  lemma SingleCapacity(c: Chunks, r: int)
    requires r in c
    ensures InChunks(c, [r]) && Capacity(c, [r]) == Slots(c[r].units)
  {
    assert [r][1..] == [];
  }

  lemma ReplaceNode(c: Chunks, c': Chunks, l: seq<int>, k: int, mid: seq<int>)
    requires InChunks(c, l) && 0 <= k < |l| && InChunks(c', mid)
    requires forall j :: 0 <= j < |l| && j != k ==> l[j] in c' && c'[l[j]] == c[l[j]]
    ensures var l' := l[..k] + (mid + l[k + 1..]);
      InChunks(c', l') && Capacity(c', l') == Capacity(c, l) - Slots(c[l[k]].units) + Capacity(c', mid)
  {
    var a, b := l[..k], l[k + 1..];
    CapacitySplit(c, l, k);
    assert forall i :: 0 <= i < |b| ==> b[i] == l[k + 1 + i];
    CapacityLocal(c, c', a);
    CapacityLocal(c, c', b);
    CapacityAppend(c', mid, b);
    CapacityAppend(c', a, mid + b);
  }

  /** Where the search loop stops when it starts at node `k`: at the first fitting node, or past the end. */
  ghost function Search(c: Chunks, l: seq<int>, bytes: int, k: nat): (r: nat)
    requires k <= |l|
    ensures k <= r <= |l|
    decreases |l| - k
  {
    if k == |l| || (l[k] in c && Fits(c[l[k]].Size(), bytes)) then k else Search(c, l, bytes, k + 1)
  }

  lemma {:induction false} SearchFindsFirst(c: Chunks, l: seq<int>, bytes: int, k: nat, r: nat)
    requires InChunks(c, l) && k <= r <= |l|
    requires r < |l| ==> Fits(c[l[r]].Size(), bytes)
    requires forall j :: k <= j < r ==> !Fits(c[l[j]].Size(), bytes)
    ensures Search(c, l, bytes, k) == r
    decreases r - k
  {
    if k < r { SearchFindsFirst(c, l, bytes, k + 1, r); }
  }

  /** `count` requests of 8 bytes in a row are all served from the free list. */
  ghost predicate CanServe(c: Chunks, l: seq<int>, count: nat)
    decreases count
  {
    count == 0 ||
    (var k := Search(c, l, 8, 0);
     && k < |l| && l[k] in c && Fits(c[l[k]].Size(), 8)
     && CanServe(ServeChunks(c, l[k], 1), ServeList(c, l, k, 1), count - 1))
  }

  lemma ServeKeepsMembers(c: Chunks, c': Chunks, l: seq<int>, l': seq<int>, base: int, top: int, k: int)
    requires Tiling(c, base, top) && Members(c, l) && 0 <= k < |l| && Fits(c[l[k]].Size(), 8)
    requires c' == ServeChunks(c, l[k], 1) && l' == ServeList(c, l, k, 1)
    ensures Tiling(c', base, top)
    ensures Members(c', l')
  {
    if c[l[k]].units == 1 {
      FlipKeepsTiling(c, base, top, l[k], false);
      RemoveKeepsMembers(c, c', l, k);
    } else {
      SplitKeepsTiling(c, c', base, top, l[k], 1);
      ReplaceKeepsMembers(c, c', l, l', k, 1, l[k] + 16);
    }
  }

  /** `count` requests in a row are served if and only if there is capacity for as many. */
  ghost predicate ServesUpTo(c: Chunks, l: seq<int>, count: nat) {
    true == (CanServe(c, l, count) <==> count <= Capacity(c, l))
  }

  /** `c'` and `l'` are what `c` and `l` are after the first of `count` requests. */
  ghost predicate GoesOn(c: Chunks, l: seq<int>, c': Chunks, l': seq<int>, count: nat) {
    true == (count > 0 && Capacity(c', l') == Capacity(c, l) - 1 && (CanServe(c, l, count) <==> CanServe(c', l', count - 1)))
  }

  lemma NoRequests(c: Chunks, l: seq<int>)
    ensures ServesUpTo(c, l, 0)
  {
  }

  lemma OneMoreRequest(c: Chunks, l: seq<int>, c': Chunks, l': seq<int>, count: nat)
    requires count > 0 && ServesUpTo(c', l', count - 1) && GoesOn(c, l, c', l', count)
    ensures ServesUpTo(c, l, count)
  {
  }

  /** The capacity is exact: that many requests in a row are served, and not one more. */
  lemma {:induction false} CapacityIsExact(c: Chunks, l: seq<int>, base: int, top: int, count: nat)
    requires Tiling(c, base, top) && Members(c, l)
    ensures ServesUpTo(c, l, count)
    decreases count
  {
    if count == 0 {
      NoRequests(c, l);
    } else {
      var served, c', l' := ServeFirst(c, l, base, top, count);
      if served {
        CapacityIsExact(c', l', base, top, count - 1);
        OneMoreRequest(c, l, c', l', count);
      }
    }
  }

  /** The first of `count` requests is served if and only if there is capacity, and it uses up one unit. */
  lemma ServeFirst(c: Chunks, l: seq<int>, base: int, top: int, count: nat) returns (served: bool, c': Chunks, l': seq<int>)
    requires Tiling(c, base, top) && Members(c, l) && count > 0
    ensures !served ==> ServesUpTo(c, l, count)
    ensures served ==> Tiling(c', base, top) && Members(c', l') && GoesOn(c, l, c', l', count)
  {
    AllInChunks(c, l);
    var k := FirstOfList(c, l, count);
    served, c', l' := k < |l|, c, l;
    if served {
      c', l' := ServeOnce(c, l, base, top, k);
    }
  }

  lemma AllInChunks(c: Chunks, l: seq<int>)
    requires Members(c, l)
    ensures InChunks(c, l)
  {
  }

  /** The first fit serves the first of `count` requests, and there is one if and only if there is capacity. */
  lemma FirstOfList(c: Chunks, l: seq<int>, count: nat) returns (k: nat)
    requires InChunks(c, l) && count > 0
    ensures k <= |l| && (k < |l| <==> Capacity(c, l) > 0) && (k < |l| ==> Fits(c[l[k]].Size(), 8))
    ensures CanServe(c, l, count) <==> k < |l| && CanServe(ServeChunks(c, l[k], 1), ServeList(c, l, k, 1), count - 1)
  {
    k := FitOrNone(c, l, 8);
    SearchFindsFirst(c, l, 8, 0, k);
    CapacityPositive(c, l);
  }

  lemma ServeOnce(c: Chunks, l: seq<int>, base: int, top: int, k: int) returns (c': Chunks, l': seq<int>)
    requires Tiling(c, base, top) && Members(c, l) && 0 <= k < |l| && Fits(c[l[k]].Size(), 8)
    ensures c' == ServeChunks(c, l[k], 1) && l' == ServeList(c, l, k, 1)
    ensures Tiling(c', base, top) && Members(c', l')
    ensures Capacity(c', l') == Capacity(c, l) - 1
  {
    c', l' := ServeChunks(c, l[k], 1), ServeList(c, l, k, 1);
    ServeKeepsMembers(c, c', l, l', base, top, k);
    CapacityDrops(c, c', l, l', base, top, k);
  }
}
