/** The page table of the kernel heap is the flat view of two-level tables, first of those that boot builds. */
module HeapTables {
  import opened Machine
  import opened Frames
  import opened PageTables
  import opened Paging
  import opened BootSpace
  import opened BootTables
  import opened KernelState
  import opened Requests

  /** The entry of each page, zero where there is no table. */
  ghost function FlatEntries(t: Tables): (pte: seq<Word>)
    requires t.Shaped()
    ensures |pte| == PAGES
    ensures forall p :: 0 <= p < PAGES ==> pte[p] == if p in Flat(t) then Flat(t)[p] else 0
  {
    seq(PAGES, p requires 0 <= p < PAGES => if p in Flat(t) then Flat(t)[p] else 0)
  }

  // ----- The heap after boot -----

  /** The first page of the kernel heap. */
  function HeapPage(k: Linked): int
    requires k.Ok()
  {
    k.bssEnd + 3 + k.Tables().count
  }

  /** All frames below `limit`, as boot has used them. */
  function BootFrames(limit: Word): map<Word, Place> {
    map f: Word | 0 <= f < limit && f % PAGE_SIZE == 0 :: Fixed
  }

  lemma NotPresent(t: Tables, p: int)
    requires t.Shaped() && 0 <= p < PAGES && Translate(t, PAGE_SIZE * p) == Fault
    ensures !Present(FlatEntries(t)[p])
  {
    DivUnique(PAGE_SIZE * p, PAGE_SIZE, p, 0);
    IndexSplit(PAGE_SIZE * p, 0, 0, 0);
  }

  /** Boot leaves page tables and frames in the state that a new kernel heap is set up in. */
  lemma HeapAfterBoot(t: Tables, k: Linked)
    requires k.Ok() && Final(t, k) && HeapPage(k) + 2 < PAGES
    ensures var heapStart, nextPma := PAGE_SIZE * HeapPage(k), PAGE_SIZE * (k.KernelEndPma() + |SlotsAll(k.All())|);
      && PAGE_SIZE <= heapStart && heapStart + 16 <= HEAP_LIMIT && Align(heapStart, 8) / PAGE_SIZE == HeapPage(k)
      && t.Shaped() && FreeAbove(FlatEntries(t), Align(heapStart, 8) / PAGE_SIZE)
      && 0 <= nextPma && nextPma % PAGE_SIZE == 0 && nextPma + PAGE_SIZE < WORD_LIMIT && UsedByBoot(BootFrames(nextPma), nextPma)
  {
    HeapStart(k);
    NothingAbove(t, k);
  }

  lemma HeapStart(k: Linked)
    requires k.Ok() && HeapPage(k) + 2 < PAGES
    ensures var heapStart, nextPma := PAGE_SIZE * HeapPage(k), PAGE_SIZE * (k.KernelEndPma() + |SlotsAll(k.All())|);
      && PAGE_SIZE <= heapStart && heapStart + 16 <= HEAP_LIMIT && Align(heapStart, 8) / PAGE_SIZE == HeapPage(k)
      && 0 <= nextPma && nextPma % PAGE_SIZE == 0 && nextPma + PAGE_SIZE < WORD_LIMIT && UsedByBoot(BootFrames(nextPma), nextPma)
  {
    var q, frames := HeapPage(k), k.KernelEndPma() + |SlotsAll(k.All())|;
    FitMeansNoMoreTables(k);
    DivUnique(PAGE_SIZE * q, PAGE_SIZE, q, 0);
    DivUnique(PAGE_SIZE * q, 8, 512 * q, 0);
    DivUnique(PAGE_SIZE * frames, PAGE_SIZE, frames, 0);
  }

  lemma NothingAbove(t: Tables, k: Linked)
    requires k.Ok() && Final(t, k) && HeapPage(k) + 2 < PAGES
    ensures t.Shaped() && FreeAbove(FlatEntries(t), HeapPage(k))
  {
    var q := HeapPage(k);
    DivUnique(PAGE_SIZE * q, PAGE_SIZE, q, 0);
    NothingAboveHeapEnd(t, k, PAGE_SIZE * q);
    forall p | q < p < PAGES - 1 ensures !Present(FlatEntries(t)[p]) {
      DivUnique(PAGE_SIZE * p, PAGE_SIZE, p, 0);
      NothingAboveHeapEnd(t, k, PAGE_SIZE * p);
      NotPresent(t, p);
    }
  }

  /** The slot of the first heap page has a table unless the page starts a slot, other than the last one. */
  lemma HeapSlot(k: Linked)
    requires k.Ok() && HeapPage(k) < PAGES - 1
    ensures HeapPage(k) / ENTRIES in SlotsAll(k.All()) <==> HeapPage(k) % ENTRIES != 0 || HeapPage(k) / ENTRIES == ENTRIES - 1
  {
    var q, all := HeapPage(k), k.All();
    RangesOk(k);
    SlotsAllFrom(all, q / ENTRIES);
    assert all[7] == k.Tables() && all[5] == k.Fixed()[5];
    assert all[5].Slot(0) == ENTRIES - 1;
    if q % ENTRIES != 0 {
      SomeTable(k);
      assert all[7].Slot(k.Tables().count - 1) == (q - 1) / ENTRIES == q / ENTRIES;
    } else {
      forall n, i | 0 <= n < |all| && 0 <= i < all[n].count ensures all[n].Slot(i) < q / ENTRIES || all[n].Slot(i) == ENTRIES - 1 {
        assert n < 7 ==> all[n] == k.Fixed()[n];
      }
    }
  }

  lemma SomeTable(k: Linked)
    requires k.Ok()
    ensures k.Tables().count > 0
  {
    RangesOk(k);
    assert forall i :: 0 <= i < |k.Fixed()| ==> k.Fixed()[i].Valid() by {
      assert forall i :: 0 <= i < |k.Fixed()| ==> k.Fixed()[i] == k.All()[i];
    }
    SlotsAllFrom(k.Fixed(), ENTRIES - 1);
    assert k.Fixed()[5].Slot(0) == ENTRIES - 1;
  }

  /**
   `alloc_new_heap` asks whether the first heap page is present. That faults exactly if the page starts a slot that has no table - the
   lookup table is then zero - and page zero is not mapped.
   */
  lemma HeapStartReadable(t: Tables, k: Linked)
    requires k.Ok() && Final(t, k) && TablesFit(k) && HeapPage(k) < PAGES - 1
    ensures t.Shaped() && 0 <= EntryAddress(t, PAGE_SIZE * HeapPage(k)) < WORD_LIMIT
    ensures Translate(t, EntryAddress(t, PAGE_SIZE * HeapPage(k))).At? <==>
      || HeapPage(k) % ENTRIES != 0 || HeapPage(k) / ENTRIES == ENTRIES - 1 || exists n :: 0 <= n < |k.All()| && k.All()[n].Has(0)
  {
    var q, vma: Word := HeapPage(k), PAGE_SIZE * HeapPage(k);
    HeapSlot(k);
    AddressOfPage(vma, q);
    if q / ENTRIES in SlotsAll(k.All()) {
      SlotWithTable(t, k, vma);
    } else {
      SlotWithoutTable(t, k, vma);
    }
  }

  lemma AddressOfPage(vma: Word, q: int)
    requires 0 <= q < PAGES && vma == PAGE_SIZE * q
    ensures DirIndex(vma) == q / ENTRIES && TableIndex(vma) == q % ENTRIES
  {
    DivUnique(vma, PAGE_SIZE, q, 0);
    IndexSplit(vma, 0, 0, 0);
  }

  lemma SlotWithTable(t: Tables, k: Linked, vma: Word)
    requires k.Ok() && Final(t, k) && TablesFit(k) && DirIndex(vma) in SlotsAll(k.All())
    ensures t.Shaped() && EntryAddress(t, vma) < WORD_LIMIT && Translate(t, EntryAddress(t, vma)).At?
  {
    SlotIsFound(t, k, DirIndex(vma));
    FoundIsReadable(t, vma);
  }

  lemma FoundIsReadable(t: Tables, vma: Word)
    requires t.Shaped() && Present(t.dir[DirIndex(vma)]) && Found(t, DirIndex(vma))
    ensures EntryAddress(t, vma) < WORD_LIMIT && Translate(t, EntryAddress(t, vma)).At?
  {
    LookupLeadsToTable(t, vma);
  }

  lemma SlotIsFound(t: Tables, k: Linked, d: int)
    requires k.Ok() && Final(t, k) && TablesFit(k) && 0 <= d < ENTRIES && d in SlotsAll(k.All())
    ensures t.Shaped() && Present(t.dir[d]) && Found(t, d)
  {
    SelfDescription(t, k);
    BuiltEntry(t, SlotsAll(k.All()), k.KernelEndPma(), MapAll(k.All()), PAGE_SIZE * (k.bssEnd + 3), d, 0);
  }

  lemma SlotWithoutTable(t: Tables, k: Linked, vma: Word)
    requires k.Ok() && Final(t, k) && DirIndex(vma) !in SlotsAll(k.All()) && TableIndex(vma) == 0
    ensures t.Shaped() && EntryAddress(t, vma) == 0
    ensures Translate(t, 0).At? <==> exists n :: 0 <= n < |k.All()| && k.All()[n].Has(0)
  {
    BuiltEntry(t, SlotsAll(k.All()), k.KernelEndPma(), MapAll(k.All()), PAGE_SIZE * (k.bssEnd + 3), DirIndex(vma), 0);
    BootMapsAll(t, k, 0);
  }

  lemma ThreeSlots(s: seq<int>, a: int, b: int, c: int)
    requires SlotsOk(s) && a != b && a != c && b != c && forall d :: d in s <==> d == a || d == b || d == c
    ensures |s| == 3
  {
    SlotCount(s);
    assert (set d | d in s) == {a, b, c};
  }

  lemma {:induction false} SlotCount(s: seq<int>)
    requires SlotsOk(s)
    ensures |set d | d in s| == |s|
  {
    if s != [] {
      var r := s[1..];
      assert forall i :: 0 <= i < |r| ==> r[i] == s[i + 1];
      assert forall d :: d in r ==> d in s;
      SlotCount(r);
      assert s[0] !in r && (set d | d in s) == (set d | d in r) + {s[0]};
    }
  }

  /** A kernel whose tables fit, and whose heap cannot be set up: the tables end where their slot does. */
  lemma SomeHeapFaults() returns (k: Linked)
    ensures k.Ok() && TablesFit(k) && HeapPage(k) < PAGES - 1
    ensures HeapPage(k) % ENTRIES == 0 && HeapPage(k) / ENTRIES != ENTRIES - 1 && forall n :: 0 <= n < |k.All()| ==> !k.All()[n].Has(0)
  {
    k := Linked(0x100, 0x110, 0xE0000, 0xE03FA, 0xE0000, 0xE0010, 0xE03FA, 0x108, 0x109, 0x10A);
    var fixed := k.Fixed();
    RangesOk(k);
    assert forall i :: 0 <= i < |fixed| ==> fixed[i] == k.All()[i];
    assert fixed[0].Slot(0) == 0 && fixed[1].Slot(0) == 0x380 && fixed[5].Slot(0) == 0x3FF;
    forall d ensures d in SlotsAll(fixed) <==> d == 0 || d == 0x380 || d == 0x3FF {
      SlotsAllFrom(fixed, d);
      assert forall n, i :: 0 <= n < |fixed| && 0 <= i < fixed[n].count ==> fixed[n].Slot(i) in {0, 0x380, 0x3FF};
    }
    ThreeSlots(SlotsAll(fixed), 0, 0x380, 0x3FF);
    NoExtraTables(k.KernelEndPma(), 3);
    FitByAddress(k);
  }

  // ----- The changes that the heap makes -----

  /** The same history on the flat table. */
  ghost function EntriesRun(pte: seq<Word>, h: History): (r: seq<Word>)
    requires |pte| == PAGES
    ensures |r| == PAGES
  {
    if h == [] then pte
    else
      var r := EntriesRun(pte, h[..|h| - 1]);
      var p := h[|h| - 1].0 / PAGE_SIZE;
      r[p := Changed(h[|h| - 1].1, r[p])]
  }

  /** Over every history of changes that spare the tables, the flat table stays the view of the two-level ones. */
  lemma {:induction false} EntriesRefine(t: Tables, h: History)
    requires t.Shaped() && OwnTables(t) && Coherent(t) && Allowed(t, h)
    ensures OwnTables(Run(t, h)) && Coherent(Run(t, h)) && FlatEntries(Run(t, h)) == EntriesRun(FlatEntries(t), h)
  {
    RunRefines(t, h);
    if h != [] {
      var g := h[..|h| - 1];
      assert forall i :: 0 <= i < |g| ==> g[i] == h[i];
      EntriesRefine(t, g);
      OneMoreEntry(Run(t, g), h[|h| - 1].0, h[|h| - 1].1);
    }
  }

  lemma OneMoreEntry(t: Tables, vma: Word, c: Change)
    requires t.Shaped() && OwnTables(t) && Coherent(t) && Present(t.dir[DirIndex(vma)]) && OffTables(t, vma)
    ensures var p, pte := vma / PAGE_SIZE, FlatEntries(t); FlatEntries(Apply(t, vma, c)) == pte[p := Changed(c, pte[p])]
  {
    ApplyRefines(t, vma, c);
  }

  /** Changes to heap pages, all of them in slots with tables. */
  ghost predicate HeapHistory(t: Tables, h: History, firstPage: int)
    requires t.Shaped()
  {
    forall i :: 0 <= i < |h| ==> firstPage <= h[i].0 / PAGE_SIZE && Present(t.dir[DirIndex(h[i].0)])
  }

  /** No table lies in the heap. */
  ghost predicate TablesBelow(t: Tables, firstPage: int)
    requires t.Shaped()
  {
    forall d :: 0 <= d < ENTRIES && Present(t.dir[d]) ==> t.lookup[d] / PAGE_SIZE < firstPage
  }

  lemma HeapHistoryIsAllowed(t: Tables, h: History, firstPage: int)
    requires t.Shaped() && TablesBelow(t, firstPage) && HeapHistory(t, h, firstPage)
    ensures Allowed(t, h)
  {
  }

  /** So it is after boot. */
  lemma BootTablesBelow(t: Tables, k: Linked)
    requires k.Ok() && Final(t, k) && TablesFit(k)
    ensures t.Shaped() && TablesBelow(t, HeapPage(k))
  {
    var slots := SlotsAll(k.All());
    FitMeansNoMoreTables(k);
    SelfDescription(t, k);
    forall d | 0 <= d < ENTRIES && Present(t.dir[d]) ensures t.lookup[d] / PAGE_SIZE < HeapPage(k) {
      BuiltEntry(t, slots, k.KernelEndPma(), MapAll(k.All()), PAGE_SIZE * (k.bssEnd + 3), d, 0);
      var j :| 0 <= j < |slots| && slots[j] == d;
      BuiltFrame(t, slots, k.KernelEndPma(), MapAll(k.All()), PAGE_SIZE * (k.bssEnd + 3), j);
      DivUnique(t.lookup[d], PAGE_SIZE, k.bssEnd + 3 + j, 0);
    }
  }

  /** Whatever the heap does to its pages after boot, its flat page table is what the processor walks, and all tables stay reachable. */
  lemma HeapPagesRefine(t: Tables, k: Linked, h: History)
    requires k.Ok() && Final(t, k) && TablesFit(k) && t.Shaped() && HeapHistory(t, h, HeapPage(k))
    ensures OwnTables(Run(t, h)) && Coherent(Run(t, h)) && FlatEntries(Run(t, h)) == EntriesRun(FlatEntries(t), h)
  {
    SelfDescription(t, k);
    BootTablesBelow(t, k);
    HeapHistoryIsAllowed(t, h, HeapPage(k));
    EntriesRefine(t, h);
  }

  /** Mapping a page above the heap is such a change. */
  lemma AddedIsChange(k: Layout, w: World, w': World, f: Word)
    requires PageAdded(k, w, w', f) && |w.pte| == PAGES
    ensures 0 <= w.hi < PAGES && f % PAGE_SIZE == 0 && w'.pte == EntriesRun(w.pte, [(PAGE_SIZE * w.hi, SetEntry(HeapEntry(f)))])
  {
    OneChange(w.pte, w.hi, SetEntry(HeapEntry(f)));
  }

  /** So is giving a page back. */
  lemma RecordedIsChange(w: World, p: int, node: Word)
    requires 0 <= p < |w.pte| == PAGES
    ensures Recorded(w, p, node).pte == EntriesRun(w.pte, [(PAGE_SIZE * p, Unmap)])
  {
    OneChange(w.pte, p, Unmap);
  }

  lemma OneChange(pte: seq<Word>, p: int, change: Change)
    requires 0 <= p < |pte| == PAGES
    ensures EntriesRun(pte, [(PAGE_SIZE * p, change)]) == pte[p := Changed(change, pte[p])]
  {
    var h: History := [(PAGE_SIZE * p, change)];
    DivUnique(PAGE_SIZE * p, PAGE_SIZE, p, 0);
    assert h[..0] == [] && EntriesRun(pte, h[..0]) == pte;
  }
}
