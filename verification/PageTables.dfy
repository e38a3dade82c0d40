/** Two-level page tables and their shadow in virtual memory: page.c over the 32-bit paging of the i386. */
module PageTables {
  import opened Machine
  import opened Frames

  const ENTRIES := 1024
  const SPAN := 0x40_0000

  type Frame = f: Word | f % PAGE_SIZE == 0 witness 0
  type Flags = f: Word | f < PAGE_SIZE

  /** The page directory, `page_table_lookup`, and physical memory, a word at each aligned address. */
  datatype Tables = Tables(dir: seq<Word>, lookup: seq<Word>, phys: seq<Word>) {
    ghost predicate Shaped() {
      |dir| == ENTRIES && |lookup| == ENTRIES && |phys| == WORD_LIMIT
    }
  }

  datatype Access = Fault | At(pma: int)

  function DirIndex(vma: Word): (d: int)
    ensures 0 <= d < ENTRIES
  {
    vma / SPAN
  }

  function TableIndex(vma: Word): (i: int)
    ensures 0 <= i < ENTRIES
  {
    vma / PAGE_SIZE % ENTRIES
  }

  /** Directory index, table index and offset are the digits of an address, and stand for it alone. */
  lemma IndexSplit(vma: Word, d: int, i: int, offset: int)
    requires 0 <= d && 0 <= i < ENTRIES && 0 <= offset < PAGE_SIZE
    ensures vma == d * SPAN + i * PAGE_SIZE + offset <==> d == DirIndex(vma) && i == TableIndex(vma) && offset == vma % PAGE_SIZE
    ensures vma / PAGE_SIZE / ENTRIES == DirIndex(vma)
  {
    var page := vma / PAGE_SIZE;
    assert page == ENTRIES * (page / ENTRIES) + TableIndex(vma);
    DivUnique(vma, SPAN, page / ENTRIES, TableIndex(vma) * PAGE_SIZE + vma % PAGE_SIZE);
    if vma == d * SPAN + i * PAGE_SIZE + offset {
      DivUnique(vma, PAGE_SIZE, d * ENTRIES + i, offset);
      DivUnique(page, ENTRIES, d, i);
    }
  }

  /** The entry of the `i`-th page under directory slot `d`. */
  function Entry(t: Tables, d: int, i: int): Word
    requires t.Shaped() && 0 <= d < ENTRIES && 0 <= i < ENTRIES
  {
    t.phys[FrameOf(t.dir[d]) + 4 * i]
  }

  /** The page walk of the processor (section 4.3 of the Intel SDM, volume 3A), with 4 KiB pages only. */
  function Translate(t: Tables, vma: Word): Access
    requires t.Shaped()
  {
    var d := DirIndex(vma);
    var e := Entry(t, d, TableIndex(vma));
    if Present(t.dir[d]) && Present(e) then At(FrameOf(e) + vma % PAGE_SIZE) else Fault
  }

  /** The table that slot `d` uses can be reached at its address in the lookup table. */
  ghost predicate Found(t: Tables, d: int)
    requires t.Shaped() && 0 <= d < ENTRIES
  {
    true == (Present(t.dir[d]) ==> t.lookup[d] % PAGE_SIZE == 0 && Translate(t, t.lookup[d]) == At(FrameOf(t.dir[d])))
  }

  /** So can every table. */
  ghost predicate Coherent(t: Tables)
    requires t.Shaped()
  {
    forall d :: 0 <= d < ENTRIES ==> Found(t, d)
  }

  /** No two directory slots share a table. */
  ghost predicate OwnTables(t: Tables)
    requires t.Shaped()
  {
    forall d, d' :: 0 <= d < d' < ENTRIES && Present(t.dir[d]) && Present(t.dir[d']) ==> FrameOf(t.dir[d]) != FrameOf(t.dir[d'])
  }

  /** The address space as one map from page number to entry. */
  ghost function Flat(t: Tables): map<int, Word>
    requires t.Shaped()
  {
    map p | 0 <= p < PAGES && Present(t.dir[p / ENTRIES]) :: Entry(t, p / ENTRIES, p % ENTRIES)
  }

  /** What the routines of page.c do to the entry of one page. */
  datatype Change = SetEntry(entry: Word) | Remap(pma: Frame) | Unmap | Delete | SetFlags(flags: Flags)

  function Changed(c: Change, e: Word): Word {
    match c
    case SetEntry(entry) => entry
    case Remap(pma) => AlignedRoom(pma); e % PAGE_SIZE + pma
    case Unmap => e - e % 2
    case Delete => 0
    case SetFlags(flags) => AlignedRoom(FrameOf(e)); FrameOf(e) + flags
  }

  lemma AlignedRoom(f: Word)
    requires f % PAGE_SIZE == 0
    ensures f + PAGE_SIZE <= WORD_LIMIT
  {
  }

  /** The half of the entry that a change is about, and the half that it keeps. */
  lemma ChangedHalves(c: Change, e: Word)
    ensures c.Remap? ==> FrameOf(Changed(c, e)) == c.pma && Changed(c, e) % PAGE_SIZE == e % PAGE_SIZE
    ensures c.SetFlags? ==> FrameOf(Changed(c, e)) == FrameOf(e) && Changed(c, e) % PAGE_SIZE == c.flags
    ensures c.Unmap? ==> FrameOf(Changed(c, e)) == FrameOf(e) && !Present(Changed(c, e)) && Changed(c, e) / 2 == e / 2
    ensures c.Delete? ==> !Present(Changed(c, e)) && FrameOf(Changed(c, e)) == 0
  {
    if c.Remap? {
      DivUnique(Changed(c, e), PAGE_SIZE, c.pma / PAGE_SIZE, e % PAGE_SIZE);
    } else if c.SetFlags? {
      DivUnique(Changed(c, e), PAGE_SIZE, e / PAGE_SIZE, c.flags);
    } else if c.Unmap? {
      DivUnique(Changed(c, e), PAGE_SIZE, e / PAGE_SIZE, e % PAGE_SIZE - e % 2);
    }
  }

  /** Physical memory after a store to the entry of the page of `vma`. */
  function Written(t: Tables, vma: Word, e: Word): Tables
    requires t.Shaped()
  {
    t.(phys := t.phys[FrameOf(t.dir[DirIndex(vma)]) + 4 * TableIndex(vma) := e])
  }

  function Apply(t: Tables, vma: Word, c: Change): Tables
    requires t.Shaped()
  {
    Written(t, vma, Changed(c, Entry(t, DirIndex(vma), TableIndex(vma))))
  }

  /** A store through the lookup table lands on the table that the processor walks. */
  lemma LookupLeadsToTable(t: Tables, vma: Word)
    requires t.Shaped() && Found(t, DirIndex(vma)) && Present(t.dir[DirIndex(vma)])
    ensures t.lookup[DirIndex(vma)] + 4 * TableIndex(vma) < WORD_LIMIT
    ensures Translate(t, t.lookup[DirIndex(vma)] + 4 * TableIndex(vma))
            == At(FrameOf(t.dir[DirIndex(vma)]) + 4 * TableIndex(vma))
  {
    var table := t.lookup[DirIndex(vma)];
    AlignedRoom(table);
    SamePage(table, 4 * TableIndex(vma));
  }

  lemma SamePage(f: Word, offset: int)
    requires f % PAGE_SIZE == 0 && 0 <= offset < PAGE_SIZE && f + offset < WORD_LIMIT
    ensures (f + offset) / PAGE_SIZE == f / PAGE_SIZE && (f + offset) % PAGE_SIZE == offset
    ensures DirIndex(f + offset) == DirIndex(f) && TableIndex(f + offset) == TableIndex(f)
  {
    DivUnique(f + offset, PAGE_SIZE, f / PAGE_SIZE, offset);
    IndexSplit(f, 0, 0, 0);
    IndexSplit(f + offset, 0, 0, 0);
  }

  /** Distinct entries lie at distinct addresses. */
  lemma EntriesApart(t: Tables, d: int, i: int, d': int, i': int)
    requires t.Shaped() && OwnTables(t)
    requires 0 <= d < ENTRIES && 0 <= i < ENTRIES && 0 <= d' < ENTRIES && 0 <= i' < ENTRIES
    requires Present(t.dir[d]) && Present(t.dir[d'])
    requires FrameOf(t.dir[d]) + 4 * i == FrameOf(t.dir[d']) + 4 * i'
    ensures d == d' && i == i'
  {
    var f, f' := FrameOf(t.dir[d]), FrameOf(t.dir[d']);
    DivUnique(f + 4 * i, PAGE_SIZE, f / PAGE_SIZE, 4 * i);
    DivUnique(f + 4 * i, PAGE_SIZE, f' / PAGE_SIZE, 4 * i');
  }

  lemma WrittenEntry(t: Tables, vma: Word, e: Word, d: int, i: int)
    requires t.Shaped() && OwnTables(t) && Present(t.dir[DirIndex(vma)])
    requires 0 <= d < ENTRIES && 0 <= i < ENTRIES && Present(t.dir[d])
    ensures Entry(Written(t, vma, e), d, i) == if d == DirIndex(vma) && i == TableIndex(vma) then e else Entry(t, d, i)
  {
    if FrameOf(t.dir[d]) + 4 * i == FrameOf(t.dir[DirIndex(vma)]) + 4 * TableIndex(vma) {
      EntriesApart(t, d, i, DirIndex(vma), TableIndex(vma));
    }
  }

  /** Storing one entry changes one page of the address space. */
  lemma WriteRefines(t: Tables, vma: Word, e: Word)
    requires t.Shaped() && OwnTables(t) && Present(t.dir[DirIndex(vma)])
    ensures Written(t, vma, e).Shaped() && OwnTables(Written(t, vma, e))
    ensures vma / PAGE_SIZE in Flat(t) && Flat(t)[vma / PAGE_SIZE] == Entry(t, DirIndex(vma), TableIndex(vma))
    ensures Flat(Written(t, vma, e)) == Flat(t)[vma / PAGE_SIZE := e]
  {
    var t' := Written(t, vma, e);
    var page := vma / PAGE_SIZE;
    IndexSplit(vma, 0, 0, 0);
    forall p | 0 <= p < PAGES && Present(t.dir[p / ENTRIES])
      ensures Entry(t', p / ENTRIES, p % ENTRIES) == if p == page then e else Entry(t, p / ENTRIES, p % ENTRIES)
    {
      WrittenEntry(t, vma, e, p / ENTRIES, p % ENTRIES);
    }
  }

  /** The table pages among which `vma` must not be changed: no directory slot reaches its table through the page of `vma`. */
  ghost predicate OffTables(t: Tables, vma: Word)
    requires t.Shaped()
  {
    forall d :: 0 <= d < ENTRIES && Present(t.dir[d]) ==> t.lookup[d] / PAGE_SIZE != vma / PAGE_SIZE
  }

  /** The new entry leaves every table that is reached through the page of `vma` where it was. */
  ghost predicate KeepsTables(t: Tables, vma: Word, e: Word)
    requires t.Shaped()
  {
    forall d :: 0 <= d < ENTRIES && Present(t.dir[d]) ==> KeepsTable(t, vma, e, d)
  }

  ghost predicate KeepsTable(t: Tables, vma: Word, e: Word, d: int)
    requires t.Shaped() && 0 <= d < ENTRIES
  {
    t.lookup[d] / PAGE_SIZE == vma / PAGE_SIZE ==> Present(e) && FrameOf(e) == FrameOf(t.dir[d])
  }

  lemma SamePageNumber(a: Word, b: Word)
    ensures a / PAGE_SIZE == b / PAGE_SIZE <==> DirIndex(a) == DirIndex(b) && TableIndex(a) == TableIndex(b)
  {
    IndexSplit(a, 0, 0, 0);
    IndexSplit(b, 0, 0, 0);
    assert a / PAGE_SIZE == ENTRIES * DirIndex(a) + TableIndex(a);
    assert b / PAGE_SIZE == ENTRIES * DirIndex(b) + TableIndex(b);
  }

  /** What the processor sees after one entry is changed. */
  lemma WriteTranslate(t: Tables, vma: Word, e: Word, a: Word)
    requires t.Shaped() && OwnTables(t) && Present(t.dir[DirIndex(vma)])
    requires Translate(t, a).At?
    ensures Translate(Written(t, vma, e), a)
            == if a / PAGE_SIZE != vma / PAGE_SIZE then Translate(t, a)
               else if Present(e) then At(FrameOf(e) + a % PAGE_SIZE) else Fault
  {
    WrittenEntry(t, vma, e, DirIndex(a), TableIndex(a));
    SamePageNumber(a, vma);
  }

  lemma WriteFound(t: Tables, vma: Word, e: Word, d: int)
    requires t.Shaped() && OwnTables(t) && Present(t.dir[DirIndex(vma)])
    requires 0 <= d < ENTRIES && Present(t.dir[d]) && Found(t, d)
    ensures Found(Written(t, vma, e), d) <==> KeepsTable(t, vma, e, d)
  {
    WriteTranslate(t, vma, e, t.lookup[d]);
  }

  /** The shadow survives a changed entry exactly when no table moves away from its page. */
  lemma WriteCoherent(t: Tables, vma: Word, e: Word)
    requires t.Shaped() && OwnTables(t) && Coherent(t) && Present(t.dir[DirIndex(vma)])
    ensures Coherent(Written(t, vma, e)) <==> KeepsTables(t, vma, e)
  {
    forall d | 0 <= d < ENTRIES
      ensures Found(Written(t, vma, e), d) <==> (Present(t.dir[d]) ==> KeepsTable(t, vma, e, d))
    {
      if Present(t.dir[d]) {
        WriteFound(t, vma, e, d);
      }
    }
  }

  /** A store through the shadow that is not to a table page: the next state of the address space, in one line. */
  lemma ApplyRefines(t: Tables, vma: Word, c: Change)
    requires t.Shaped() && OwnTables(t) && Coherent(t) && Present(t.dir[DirIndex(vma)]) && OffTables(t, vma)
    ensures vma / PAGE_SIZE in Flat(t)
    ensures var t' := Apply(t, vma, c);
      t'.Shaped() && OwnTables(t') && Coherent(t') && Flat(t') == Flat(t)[vma / PAGE_SIZE := Changed(c, Flat(t)[vma / PAGE_SIZE])]
  {
    var e := Changed(c, Entry(t, DirIndex(vma), TableIndex(vma)));
    WriteRefines(t, vma, e);
    WriteCoherent(t, vma, e);
  }

  /** A history of changes to pages. */
  type History = seq<(Word, Change)>

  ghost predicate Allowed(t: Tables, h: History)
    requires t.Shaped()
  {
    forall k :: 0 <= k < |h| ==> Present(t.dir[DirIndex(h[k].0)]) && OffTables(t, h[k].0)
  }

  function Run(t: Tables, h: History): (r: Tables)
    requires t.Shaped()
    ensures r.Shaped() && r.dir == t.dir && r.lookup == t.lookup
  {
    if h == [] then t else var r := Run(t, h[..|h| - 1]); Apply(r, h[|h| - 1].0, h[|h| - 1].1)
  }

  /** The same history on a flat table. */
  ghost function FlatRun(m: map<int, Word>, h: History): map<int, Word> {
    if h == [] then m
    else
      var r := FlatRun(m, h[..|h| - 1]);
      var p := h[|h| - 1].0 / PAGE_SIZE;
      if p in r then r[p := Changed(h[|h| - 1].1, r[p])] else r
  }

  /** Over every history, the two-level tables act as one flat map, and stay reachable. */
  lemma {:induction false} RunRefines(t: Tables, h: History)
    requires t.Shaped() && OwnTables(t) && Coherent(t) && Allowed(t, h)
    ensures OwnTables(Run(t, h)) && Coherent(Run(t, h))
    ensures Flat(Run(t, h)) == FlatRun(Flat(t), h)
  {
    if h != [] {
      var g := h[..|h| - 1];
      assert forall k :: 0 <= k < |g| ==> g[k] == h[k];
      RunRefines(t, g);
      ApplyRefines(Run(t, g), h[|h| - 1].0, h[|h| - 1].1);
    }
  }

  // ----- Directory slots -----

  function WithSlot(t: Tables, d: int, table: Word, e: Word): Tables
    requires t.Shaped() && 0 <= d < ENTRIES
  {
    t.(dir := t.dir[d := e], lookup := t.lookup[d := table])
  }

  /** No other slot's table is reached through slot `d`. */
  ghost predicate FreeOfTables(t: Tables, d: int)
    requires t.Shaped()
  {
    forall d' :: 0 <= d' < ENTRIES && d' != d && Present(t.dir[d']) ==> DirIndex(t.lookup[d']) != d
  }

  /** Whether the entry written to slot `d` can be reached at the address noted for it. */
  ghost predicate Reaches(t: Tables, d: int, table: Word, e: Word)
    requires t.Shaped() && 0 <= d < ENTRIES
  {
    Present(e) ==> table % PAGE_SIZE == 0 && Translate(WithSlot(t, d, table, e), table) == At(FrameOf(e))
  }

  /** Setting a slot through which no other table is reached keeps the shadow exactly when the slot's own table is found. */
  lemma SlotCoherent(t: Tables, d: int, table: Word, e: Word)
    requires t.Shaped() && 0 <= d < ENTRIES && Coherent(t) && FreeOfTables(t, d)
    ensures Coherent(WithSlot(t, d, table, e)) <==> Reaches(t, d, table, e)
  {
    var t' := WithSlot(t, d, table, e);
    assert Present(e) ==> t'.dir[d] == e && t'.lookup[d] == table;
    forall d' | 0 <= d' < ENTRIES && d' != d ensures Found(t', d') {
      assert Found(t, d');
    }
    assert Found(t', d) <==> Reaches(t, d, table, e);
  }

  /** Emptying a slot keeps the shadow exactly when no other table is reached through it. */
  lemma EmptySlotCoherent(t: Tables, d: int)
    requires t.Shaped() && 0 <= d < ENTRIES && Coherent(t)
    ensures Coherent(WithSlot(t, d, 0, 0)) <==> FreeOfTables(t, d)
  {
    var t' := WithSlot(t, d, 0, 0);
    if FreeOfTables(t, d) {
      SlotCoherent(t, d, 0, 0);
    } else {
      var d' :| 0 <= d' < ENTRIES && d' != d && Present(t.dir[d']) && DirIndex(t.lookup[d']) == d;
      assert t'.dir[d'] == t.dir[d'] && Translate(t', t'.lookup[d']) == Fault;
      assert !Found(t', d');
    }
  }

  /** A page through which the processor can reach some address is in a present slot, and none of a slot's neighbours move. */
  lemma SlotTranslate(t: Tables, d: int, table: Word, e: Word, a: Word)
    requires t.Shaped() && 0 <= d < ENTRIES && DirIndex(a) != d
    ensures Translate(WithSlot(t, d, table, e), a) == Translate(t, a)
  {
  }

  /** The frame of the page at `table`, as `page_get_pma` reads it. */
  function TableFrame(t: Tables, table: Word): Frame
    requires t.Shaped()
  {
    FrameOf(Entry(t, DirIndex(table), TableIndex(table)))
  }

  ghost predicate Unused(t: Tables, f: Frame)
    requires t.Shaped()
  {
    forall d :: 0 <= d < ENTRIES && Present(t.dir[d]) ==> FrameOf(t.dir[d]) != f
  }

  /** A table mapped into an empty slot can be reached. */
  lemma MapTableCoherent(t: Tables, d: int, table: Word, flags: Flags, e: Word)
    requires t.Shaped() && 0 <= d < ENTRIES && Coherent(t) && OwnTables(t)
    requires !Present(t.dir[d]) && flags % 2 == 1 && table % PAGE_SIZE == 0 && Translate(t, table).At?
    requires Unused(t, TableFrame(t, table)) && e == TableFrame(t, table) + flags
    ensures Present(e) && FrameOf(e) == TableFrame(t, table)
    ensures Coherent(WithSlot(t, d, table, e)) && OwnTables(WithSlot(t, d, table, e))
  {
    ChangedHalves(SetFlags(flags), TableFrame(t, table));
    forall d' | 0 <= d' < ENTRIES && d' != d && Present(t.dir[d']) ensures DirIndex(t.lookup[d']) != d {
      assert Found(t, d');
    }
    assert FreeOfTables(t, d);
    SlotTranslate(t, d, table, e, table);
    SlotCoherent(t, d, table, e);
    OwnTablesWithSlot(t, d, table, e);
  }

  lemma OwnTablesWithSlot(t: Tables, d: int, table: Word, e: Word)
    requires t.Shaped() && 0 <= d < ENTRIES && OwnTables(t) && !Present(t.dir[d]) && Unused(t, FrameOf(e))
    ensures OwnTables(WithSlot(t, d, table, e))
  {
    assert WithSlot(t, d, table, e).dir[d] == e;
  }

  /** It adds the pages that it describes, and changes no other page. */
  lemma MapTableRefines(t: Tables, d: int, table: Word, e: Word)
    requires t.Shaped() && 0 <= d < ENTRIES && !Present(t.dir[d]) && Present(e)
    ensures Flat(WithSlot(t, d, table, e))
            == Flat(t) + map p | 0 <= p < PAGES && p / ENTRIES == d :: t.phys[FrameOf(e) + 4 * (p % ENTRIES)]
  {
    var t' := WithSlot(t, d, table, e);
    assert t'.dir[d] == e;
    forall p | 0 <= p < PAGES ensures p in Flat(t') <==> p in Flat(t) || p / ENTRIES == d {
    }
  }
}
