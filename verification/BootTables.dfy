/** The tables that init.c builds, in physical memory, and how they describe themselves. */
module BootTables {
  import opened Machine
  import opened Frames
  import opened PageTables
  import opened BootSpace

  /** The `j`-th table is at frame `base + j`, and listed at a distance from the first. */
  ghost predicate Placed(t: Tables, slots: seq<int>, base: int, offset: int, j: int)
    requires t.Shaped() && 0 <= j < |slots| && 0 <= slots[j] < ENTRIES
  {
    t.dir[slots[j]] == PAGE_SIZE * (base + j) + 7 && t.lookup[slots[j]] == offset + PAGE_SIZE * j
  }

  /** Entry `i` of the `j`-th table is that of the page it stands for. */
  ghost predicate Holds(t: Tables, slots: seq<int>, base: int, m: map<int, Word>, j: int, i: int)
    requires t.Shaped() && 0 <= j < |slots| && 0 <= i < ENTRIES && 0 <= PAGE_SIZE * (base + j) + 4 * i < WORD_LIMIT
  {
    t.phys[PAGE_SIZE * (base + j) + 4 * i] == Get(m, ENTRIES * slots[j] + i)
  }

  /** The slots in `slots` have a table each, in this order in memory from frame `base` on, and describe the pages of `m`. */
  ghost predicate Built(t: Tables, slots: seq<int>, base: int, m: map<int, Word>, offset: int) {
    true == (
      && t.Shaped() && SlotsOk(slots) && 0 <= base && base + |slots| <= PAGES
      && (forall j :: 0 <= j < |slots| ==> 0 <= slots[j] < ENTRIES && Placed(t, slots, base, offset, j))
      && (forall d :: 0 <= d < ENTRIES && d !in slots ==> t.dir[d] == 0 && t.lookup[d] == 0)
      && (forall j, i {:trigger Holds(t, slots, base, m, j, i)} :: 0 <= j < |slots| && 0 <= i < ENTRIES ==> Holds(t, slots, base, m, j, i))
      && (forall p :: p in m ==> 0 <= p < PAGES && p / ENTRIES in slots))
  }

  /** The tables are those that the processor walks. */
  lemma BuiltEntry(t: Tables, slots: seq<int>, base: int, m: map<int, Word>, offset: int, d: int, i: int)
    requires Built(t, slots, base, m, offset) && 0 <= d < ENTRIES && 0 <= i < ENTRIES
    ensures t.Shaped() && (Present(t.dir[d]) <==> d in slots)
    ensures d in slots ==> t.dir[d] % 8 == 7 && Entry(t, d, i) == Get(m, ENTRIES * d + i)
    ensures d !in slots ==> Get(m, ENTRIES * d + i) == 0
  {
    if d in slots {
      var j :| 0 <= j < |slots| && slots[j] == d;
      assert Placed(t, slots, base, offset, j) && Holds(t, slots, base, m, j, i);
      TableFrameIs(base + j);
      assert PAGE_SIZE * (base + j) + 7 == 8 * (512 * (base + j)) + 7;
    } else {
      DivUnique(ENTRIES * d + i, ENTRIES, d, i);
    }
  }

  lemma TableFrameIs(frame: int)
    requires 0 <= frame < PAGES
    ensures FrameOf(PAGE_SIZE * frame + 7) == PAGE_SIZE * frame && Present(PAGE_SIZE * frame + 7)
  {
    DivUnique(PAGE_SIZE * frame + 7, PAGE_SIZE, frame, 7);
  }

  lemma BuiltFrame(t: Tables, slots: seq<int>, base: int, m: map<int, Word>, offset: int, j: int)
    requires Built(t, slots, base, m, offset) && 0 <= j < |slots|
    ensures t.Shaped() && 0 <= slots[j] < ENTRIES && Present(t.dir[slots[j]])
    ensures FrameOf(t.dir[slots[j]]) == PAGE_SIZE * (base + j) && t.lookup[slots[j]] == offset + PAGE_SIZE * j
  {
    assert Placed(t, slots, base, offset, j);
    TableFrameIs(base + j);
  }

  lemma BuiltOwnTables(t: Tables, slots: seq<int>, base: int, m: map<int, Word>, offset: int)
    requires Built(t, slots, base, m, offset)
    ensures t.Shaped() && OwnTables(t)
  {
    forall d, d' | 0 <= d < d' < ENTRIES && Present(t.dir[d]) && Present(t.dir[d'])
      ensures FrameOf(t.dir[d]) != FrameOf(t.dir[d'])
    {
      var j :| 0 <= j < |slots| && slots[j] == d;
      var j' :| 0 <= j' < |slots| && slots[j'] == d';
      BuiltFrame(t, slots, base, m, offset, j);
      BuiltFrame(t, slots, base, m, offset, j');
    }
  }

  /** What the processor makes of an address in tables that are built. */
  lemma BuiltTranslate(t: Tables, slots: seq<int>, base: int, m: map<int, Word>, offset: int, vma: Word)
    requires Built(t, slots, base, m, offset)
    ensures t.Shaped()
    ensures var e := Get(m, vma / PAGE_SIZE);
      Translate(t, vma) == (if Present(e) then At(FrameOf(e) + vma % PAGE_SIZE) else Fault)
      && (e != 0 ==> t.dir[DirIndex(vma)] % 8 == 7 && Entry(t, DirIndex(vma), TableIndex(vma)) == e)
  {
    IndexSplit(vma, 0, 0, 0);
    assert vma / PAGE_SIZE == ENTRIES * DirIndex(vma) + TableIndex(vma);
    BuiltEntry(t, slots, base, m, offset, DirIndex(vma), TableIndex(vma));
  }

  // ----- Steps -----

  ghost predicate Cleared(phys: seq<Word>, phys': seq<Word>, frame: int)
    requires |phys| == |phys'| == WORD_LIMIT && 0 <= frame < PAGES
  {
    && (forall i :: 0 <= i < ENTRIES ==> phys'[PAGE_SIZE * frame + 4 * i] == 0)
    && (forall a :: 0 <= a < WORD_LIMIT && !(PAGE_SIZE * frame <= a < PAGE_SIZE * frame + PAGE_SIZE) ==> phys'[a] == phys[a])
  }

  /** A cleared page becomes the table of a slot without one. */
  lemma TableStep(t: Tables, t': Tables, slots: seq<int>, slots': seq<int>, base: int, m: map<int, Word>, offset: int, d: int)
    requires Built(t, slots, base, m, offset) && 0 <= d < ENTRIES && d !in slots && base + |slots| < PAGES
    requires t'.Shaped() && Cleared(t.phys, t'.phys, base + |slots|) && slots' == slots + [d]
    requires t'.dir == t.dir[d := PAGE_SIZE * (base + |slots|) + 7]
    requires 0 <= offset && offset + PAGE_SIZE * |slots| < WORD_LIMIT
    requires t'.lookup == t.lookup[d := offset + PAGE_SIZE * |slots|]
    ensures Built(t', slots', base, m, offset)
  {
    assert SlotsOk(slots');
    forall j | 0 <= j < |slots'| ensures 0 <= slots'[j] < ENTRIES && Placed(t', slots', base, offset, j) {
      assert j < |slots| ==> Placed(t, slots, base, offset, j);
    }
    forall j, i | 0 <= j < |slots'| && 0 <= i < ENTRIES ensures Holds(t', slots', base, m, j, i) {
      if j < |slots| {
        assert Holds(t, slots, base, m, j, i);
      } else {
        DivUnique(ENTRIES * d + i, ENTRIES, d, i);
      }
    }
  }

  /** One entry of one table is written. */
  lemma EntryStep(t: Tables, t': Tables, slots: seq<int>, base: int, m: map<int, Word>, m': map<int, Word>, offset: int, j: int, i: int, e: Word)
    requires Built(t, slots, base, m, offset) && 0 <= j < |slots| && 0 <= i < ENTRIES && 0 <= slots[j] < ENTRIES
    requires 0 <= PAGE_SIZE * (base + j) + 4 * i < |t.phys|
    requires t' == t.(phys := t.phys[PAGE_SIZE * (base + j) + 4 * i := e])
    requires m' == m[ENTRIES * slots[j] + i := e]
    ensures Built(t', slots, base, m', offset)
  {
    assert forall k :: 0 <= k < |slots| && Placed(t, slots, base, offset, k) ==> Placed(t', slots, base, offset, k);
    forall k, l | 0 <= k < |slots| && 0 <= l < ENTRIES ensures Holds(t', slots, base, m', k, l) {
      assert Holds(t, slots, base, m, k, l);
      if ENTRIES * slots[k] + l == ENTRIES * slots[j] + i {
        assert slots[k] == slots[j] && l == i;
      }
    }
    DivUnique(ENTRIES * slots[j] + i, ENTRIES, slots[j], i);
  }

  // ----- The tables describe themselves -----

  /** When the last loop of `init_map_kernel` has put real addresses in the lookup table. */
  ghost predicate Final(t: Tables, k: Linked)
    requires k.Ok()
  {
    && (forall i :: 0 <= i < |k.All()| ==> k.All()[i].Valid())
    && Built(t, SlotsAll(k.All()), k.KernelEndPma(), MapAll(k.All()), PAGE_SIZE * (k.bssEnd + 3))
  }

  /**
   After boot every mapping that was asked for is in force, with the flags that were asked for in an entry under a directory entry that
   allows everything; and there are no other mappings.
   */
  lemma BootMapsAll(t: Tables, k: Linked, vma: Word)
    requires k.Ok() && Final(t, k)
    ensures t.Shaped()
    ensures forall n :: 0 <= n < |k.All()| && k.All()[n].Has(vma / PAGE_SIZE) ==>
      Translate(t, vma) == At(k.All()[n].EntryOf(vma / PAGE_SIZE) - k.All()[n].flags + vma % PAGE_SIZE)
      && t.dir[DirIndex(vma)] % 8 == 7 && Entry(t, DirIndex(vma), TableIndex(vma)) == k.All()[n].EntryOf(vma / PAGE_SIZE)
    ensures Translate(t, vma).At? ==> exists n :: 0 <= n < |k.All()| && k.All()[n].Has(vma / PAGE_SIZE)
  {
    RangesOk(k);
    AllMapped(k.All());
    BuiltTranslate(t, SlotsAll(k.All()), k.KernelEndPma(), MapAll(k.All()), PAGE_SIZE * (k.bssEnd + 3), vma);
    forall n | 0 <= n < |k.All()| && k.All()[n].Has(vma / PAGE_SIZE)
      ensures Translate(t, vma) == At(k.All()[n].EntryOf(vma / PAGE_SIZE) - k.All()[n].flags + vma % PAGE_SIZE)
      ensures t.dir[DirIndex(vma)] % 8 == 7 && Entry(t, DirIndex(vma), TableIndex(vma)) == k.All()[n].EntryOf(vma / PAGE_SIZE)
    {
      var r := k.All()[n];
      EntryFrame(r, vma / PAGE_SIZE);
    }
  }

  lemma EntryFrame(r: Range, p: int)
    requires r.Valid() && r.Has(p)
    ensures 0 <= r.EntryOf(p) < WORD_LIMIT && Present(r.EntryOf(p)) && FrameOf(r.EntryOf(p)) == r.EntryOf(p) - r.flags
  {
    DivUnique(r.EntryOf(p), PAGE_SIZE, r.frame + p - r.page, r.flags);
    assert r.EntryOf(p) == 2 * (2048 * (r.frame + p - r.page)) + r.flags;
  }

  /** The `j`-th table can be reached at its listed address exactly when the last mapping loop covers it. */
  lemma TableFound(t: Tables, k: Linked, j: int)
    requires k.Ok() && Final(t, k) && 0 <= j < |SlotsAll(k.All())| && |SlotsAll(k.All())| <= ENTRIES
    ensures t.Shaped() && 0 <= SlotsAll(k.All())[j] < ENTRIES
    ensures Found(t, SlotsAll(k.All())[j]) <==> j < k.Tables().count
  {
    var slots, base, m, offset := SlotsAll(k.All()), k.KernelEndPma(), MapAll(k.All()), PAGE_SIZE * (k.bssEnd + 3);
    var page := k.bssEnd + 3 + j;
    BuiltFrame(t, slots, base, m, offset, j);
    RangesOk(k);
    DivUnique(t.lookup[slots[j]], PAGE_SIZE, page, 0);
    BootMapsAll(t, k, t.lookup[slots[j]]);
    assert k.All()[7] == k.Tables();
    assert k.Tables().Has(page) <==> j < k.Tables().count;
    assert forall n :: 0 <= n < 7 ==> !k.All()[n].Has(page);
  }

  /**
   * Boot leaves page tables that describe themselves - each can be reached at the address that the lookup table has for it -
   * exactly when the addresses given to the tables lie in directory slots that already have one.
   */
  lemma SelfDescription(t: Tables, k: Linked)
    requires k.Ok() && Final(t, k)
    ensures t.Shaped() && OwnTables(t)
    ensures Coherent(t) <==> TablesFit(k)
  {
    var slots := SlotsAll(k.All());
    BuiltOwnTables(t, slots, k.KernelEndPma(), MapAll(k.All()), PAGE_SIZE * (k.bssEnd + 3));
    FitMeansNoMoreTables(k);
    forall d | 0 <= d < ENTRIES && d !in slots ensures Found(t, d) {
      BuiltEntry(t, slots, k.KernelEndPma(), MapAll(k.All()), PAGE_SIZE * (k.bssEnd + 3), d, 0);
    }
    forall j | 0 <= j < |slots| ensures 0 <= slots[j] < ENTRIES && (Found(t, slots[j]) <==> j < k.Tables().count) {
      TableFound(t, k, j);
    }
    if !TablesFit(k) {
      assert !Found(t, slots[k.FixedTables()]);
    }
  }

  /** No page from the end of the kernel heap up to the stack page is mapped. */
  lemma NothingAboveHeapEnd(t: Tables, k: Linked, vma: Word)
    requires k.Ok() && Final(t, k)
    requires k.bssEnd + 3 + k.Tables().count <= vma / PAGE_SIZE < PAGES - 1
    ensures t.Shaped() && Translate(t, vma) == Fault
  {
    BootMapsAll(t, k, vma);
    RangesOk(k);
    assert forall n :: 0 <= n < |k.All()| ==> !k.All()[n].Has(vma / PAGE_SIZE);
  }

  // ----- The address space, region by region -----

  /** Every address of page `p` leads to the same offset in frame `f`, through entries with the low bits `flags` and 7. */
  ghost predicate Leads(t: Tables, p: int, f: int, flags: int)
    requires t.Shaped()
  {
    true == (forall vma: Word :: vma / PAGE_SIZE == p ==>
      && Translate(t, vma) == At(PAGE_SIZE * f + vma % PAGE_SIZE)
      && Entry(t, DirIndex(vma), TableIndex(vma)) % PAGE_SIZE == flags && t.dir[DirIndex(vma)] % 8 == 7)
  }

  /** No address of page `p` leads anywhere. */
  ghost predicate LeadsNowhere(t: Tables, p: int)
    requires t.Shaped()
  {
    true == (forall vma: Word :: vma / PAGE_SIZE == p ==> Translate(t, vma) == Fault)
  }

  ghost predicate LeadsAt(t: Tables, page: int, frame: int, flags: int, i: int)
    requires t.Shaped()
  {
    Leads(t, page + i, frame + i, flags)
  }

  /** `count` pages from `page` on lead to the frames from `frame` on. */
  ghost predicate LeadsFrom(t: Tables, page: int, count: int, frame: int, flags: int)
    requires t.Shaped()
  {
    true == (forall i :: 0 <= i < count ==> LeadsAt(t, page, frame, flags, i))
  }

  ghost predicate InKernel(k: Linked, tables: nat, p: int) {
    k.initStart <= p < k.initBssEnd || k.textStart <= p < k.bssEnd + 3 + tables || p == PAGES - 1
  }

  /**
   The address space of the kernel: the init section at its own addresses; text and read-only data behind it in memory, for everyone to
   read; data for everyone to write; then the page directory, the lookup table, the screen, and `tables` page tables; the stack in the
   last page; and nothing else.
   */
  ghost predicate KernelSpace(t: Tables, k: Linked, tables: nat) {
    true == (
      && t.Shaped()
      && LeadsFrom(t, k.initStart, k.initBssEnd - k.initStart, k.initStart, 3)
      && LeadsFrom(t, k.textStart, k.rodataEnd - k.textStart, k.initBssEnd, 5)
      && LeadsFrom(t, k.rodataEnd, k.bssEnd - k.rodataEnd, k.initBssEnd + k.rodataEnd - k.textStart, 7)
      && Leads(t, k.bssEnd, k.pageDir, 3)
      && Leads(t, k.bssEnd + 1, k.lookup, 3)
      && Leads(t, k.bssEnd + 2, 0xB8, 7)
      && LeadsFrom(t, k.bssEnd + 3, tables, k.initBssEnd + k.kernelEnd - k.kernelStart, 3)
      && Leads(t, PAGES - 1, k.stackPage, 3)
      && (forall p :: 0 <= p < PAGES && !InKernel(k, tables, p) ==> LeadsNowhere(t, p)))
  }

  /** A page of the `n`-th range. */
  lemma RangeLeads(t: Tables, k: Linked, n: int, p: int, f: int, flags: int)
    requires k.Ok() && Final(t, k) && 0 <= n < |k.All()| && k.All()[n].Has(p)
    requires f == k.All()[n].frame + p - k.All()[n].page && flags == k.All()[n].flags
    ensures t.Shaped() && Leads(t, p, f, flags)
  {
    var r := k.All()[n];
    EntryFrame(r, p);
    BootMapsAll(t, k, 0);
    forall vma: Word | vma / PAGE_SIZE == p
      ensures Translate(t, vma) == At(PAGE_SIZE * f + vma % PAGE_SIZE)
      ensures Entry(t, DirIndex(vma), TableIndex(vma)) % PAGE_SIZE == flags && t.dir[DirIndex(vma)] % 8 == 7
    {
      BootMapsAll(t, k, vma);
      DivUnique(r.EntryOf(p), PAGE_SIZE, f, flags);
    }
  }

  lemma RangeLeadsFrom(t: Tables, k: Linked, n: int, page: int, count: nat, frame: int, flags: Flags)
    requires k.Ok() && Final(t, k) && 0 <= n < |k.All()| && k.All()[n] == Range(page, frame, count, flags)
    ensures t.Shaped() && LeadsFrom(t, page, count, frame, flags)
  {
    BootMapsAll(t, k, 0);
    forall i | 0 <= i < count ensures LeadsAt(t, page, frame, flags, i) {
      RangeLeads(t, k, n, page + i, frame + i, flags);
    }
  }

  lemma RangeLeadsOne(t: Tables, k: Linked, n: int, page: int, frame: int, flags: Flags)
    requires k.Ok() && Final(t, k) && 0 <= n < |k.All()| && k.All()[n] == Range(page, frame, 1, flags)
    ensures t.Shaped() && Leads(t, page, frame, flags)
  {
    RangeLeads(t, k, n, page, frame, flags);
  }

  lemma NothingLeads(t: Tables, k: Linked, p: int)
    requires k.Ok() && Final(t, k) && 0 <= p < PAGES && !InKernel(k, k.Tables().count, p)
    ensures t.Shaped() && LeadsNowhere(t, p)
  {
    BootMapsAll(t, k, 0);
    RangesOk(k);
    assert forall n :: 0 <= n < |k.All()| ==> !k.All()[n].Has(p);
    forall vma: Word | vma / PAGE_SIZE == p ensures Translate(t, vma) == Fault {
      BootMapsAll(t, k, vma);
    }
  }

  /** Boot builds that address space. */
  lemma BootSpaceIs(t: Tables, k: Linked)
    requires k.Ok() && Final(t, k)
    ensures KernelSpace(t, k, k.Tables().count)
  {
    RangeLeadsFrom(t, k, 0, k.initStart, k.initBssEnd - k.initStart, k.initStart, 3);
    RangeLeadsFrom(t, k, 1, k.textStart, k.rodataEnd - k.textStart, k.initBssEnd, 5);
    RangeLeadsFrom(t, k, 2, k.rodataEnd, k.bssEnd - k.rodataEnd, k.initBssEnd + k.rodataEnd - k.textStart, 7);
    RangeLeadsOne(t, k, 3, k.bssEnd, k.pageDir, 3);
    RangeLeadsOne(t, k, 4, k.bssEnd + 1, k.lookup, 3);
    RangeLeadsOne(t, k, 5, PAGES - 1, k.stackPage, 3);
    RangeLeadsOne(t, k, 6, k.bssEnd + 2, 0xB8, 7);
    RangeLeadsFrom(t, k, 7, k.bssEnd + 3, k.Tables().count, k.initBssEnd + k.kernelEnd - k.kernelStart, 3);
    forall p | 0 <= p < PAGES && !InKernel(k, k.Tables().count, p) ensures LeadsNowhere(t, p) {
      NothingLeads(t, k, p);
    }
  }
}
