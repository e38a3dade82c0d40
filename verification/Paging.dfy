/** The paging routines of page.c, which reach every table at its virtual address. */
module Paging {
  import opened Machine
  import opened Frames
  import opened PageTables

  class Mmu {
    /** `page_dir` and `page_table_lookup`. */
    const dir: array<Word>
    const lookup: array<Word>
    const phys: array<Word>

    constructor (dir: array<Word>, lookup: array<Word>, phys: array<Word>)
      ensures this.dir == dir && this.lookup == lookup && this.phys == phys
    {
      this.dir, this.lookup, this.phys := dir, lookup, phys;
    }

    ghost function T(): Tables
      reads dir, lookup, phys
    {
      Tables(dir[..], lookup[..], phys[..])
    }

    ghost predicate Wired()
    {
      dir.Length == ENTRIES && lookup.Length == ENTRIES && phys.Length == WORD_LIMIT
      && dir != lookup && dir != phys && lookup != phys
    }

    ghost predicate Valid()
      reads dir, lookup, phys
    {
      Wired() && OwnTables(T()) && Coherent(T())
    }

    /** What the processor does for each access to memory. */
    method Walk(vma: Word) returns (pma: Word)
      requires Wired() && Translate(T(), vma).At?
      ensures At(pma) == Translate(T(), vma)
    {
      var e := phys[FrameOf(dir[DirIndex(vma)]) + 4 * TableIndex(vma)];
      AlignedRoom(FrameOf(e));
      pma := FrameOf(e) + vma % PAGE_SIZE;
    }

    method Load(vma: Word) returns (w: Word)
      requires Wired() && Translate(T(), vma).At?
      ensures w == T().phys[Translate(T(), vma).pma]
    {
      var pma := Walk(vma);
      w := phys[pma];
    }

    method Store(vma: Word, w: Word)
      requires Wired() && Translate(T(), vma).At?
      modifies phys
      ensures T() == old(T()).(phys := old(T()).phys[Translate(old(T()), vma).pma := w])
    {
      var pma := Walk(vma);
      phys[pma] := w;
    }

    /** The entry of the page of `vma` can be read at the address that the lookup table leads to. */
    ghost predicate Readable(vma: Word)
      requires Wired()
      reads dir, lookup, phys
    {
      EntryAddress(T(), vma) < WORD_LIMIT && Translate(T(), EntryAddress(T(), vma)).At?
    }

    /** `page_get_entry`. */
    method GetEntry(vma: Word) returns (e: Word)
      requires Wired() && (Readable(vma) || (Present(dir[DirIndex(vma)]) && Found(T(), DirIndex(vma))))
      ensures Readable(vma) && e == T().phys[Translate(T(), EntryAddress(T(), vma)).pma]
      ensures Present(dir[DirIndex(vma)]) && Found(T(), DirIndex(vma)) ==>
        e == Entry(T(), DirIndex(vma), TableIndex(vma)) && vma / PAGE_SIZE in Flat(T()) && e == Flat(T())[vma / PAGE_SIZE]
    {
      if Present(dir[DirIndex(vma)]) && Found(T(), DirIndex(vma)) {
        LookupLeadsToTable(T(), vma);
        FlatEntry(T(), vma);
      }
      e := Load(lookup[DirIndex(vma)] + 4 * TableIndex(vma));
    }

    method GetPma(vma: Word) returns (pma: Frame)
      requires Wired() && (Readable(vma) || (Present(dir[DirIndex(vma)]) && Found(T(), DirIndex(vma))))
      ensures Readable(vma) && pma == FrameOf(T().phys[Translate(T(), EntryAddress(T(), vma)).pma])
      ensures Present(dir[DirIndex(vma)]) && Found(T(), DirIndex(vma)) ==>
        pma == TableFrame(T(), vma) && (Translate(T(), vma).At? ==> Translate(T(), vma) == At(pma + vma % PAGE_SIZE))
    {
      var e := GetEntry(vma);
      FrameIsAligned(e);
      pma := FrameOf(e);
    }

    method IsPresent(vma: Word) returns (b: bool)
      requires Valid() && Present(dir[DirIndex(vma)])
      ensures b <==> Translate(T(), vma).At?
    {
      assert Found(T(), DirIndex(vma));
      var e := GetEntry(vma);
      b := Present(e);
    }

    /** The store that every change to a page comes down to. */
    method PutEntry(vma: Word, e: Word)
      requires Valid() && Present(dir[DirIndex(vma)])
      modifies phys
      ensures T() == Written(old(T()), vma, e)
    {
      assert Found(T(), DirIndex(vma));
      LookupLeadsToTable(T(), vma);
      Store(lookup[DirIndex(vma)] + 4 * TableIndex(vma), e);
    }

    /** One page changes, and the tables stay reachable exactly when the change spares them. */
    ghost predicate Follows(t: Tables, vma: Word, c: Change)
      requires t.Shaped() && Wired()
      reads dir, lookup, phys
    {
      && T() == Apply(t, vma, c)
      && vma / PAGE_SIZE in Flat(t)
      && var e := Changed(c, Flat(t)[vma / PAGE_SIZE]);
      && Flat(T()) == Flat(t)[vma / PAGE_SIZE := e]
      && (Valid() <==> KeepsTables(t, vma, e))
    }

    lemma ApplyFollows(t: Tables, vma: Word, c: Change)
      requires Wired() && t.Shaped() && OwnTables(t) && Coherent(t) && Present(t.dir[DirIndex(vma)])
      requires T() == Apply(t, vma, c)
      ensures Follows(t, vma, c)
    {
      var e := Changed(c, Entry(t, DirIndex(vma), TableIndex(vma)));
      WriteRefines(t, vma, e);
      WriteCoherent(t, vma, e);
    }

    /** `page_remap`. */
    method RemapPage(vma: Word, pma: Frame)
      requires Valid() && Present(dir[DirIndex(vma)])
      modifies phys
      ensures Follows(old(T()), vma, Remap(pma))
    {
      assert Found(T(), DirIndex(vma));
      var e := GetEntry(vma);
      ChangedWords(e, pma, 0);
      PutEntry(vma, e % PAGE_SIZE + pma);
      ApplyFollows(old(T()), vma, Remap(pma));
    }

    method SetPageEntry(vma: Word, entry: Word)
      requires Valid() && Present(dir[DirIndex(vma)])
      modifies phys
      ensures Follows(old(T()), vma, SetEntry(entry))
    {
      PutEntry(vma, entry);
      ApplyFollows(old(T()), vma, SetEntry(entry));
    }

    method UnmapPage(vma: Word)
      requires Valid() && Present(dir[DirIndex(vma)])
      modifies phys
      ensures Follows(old(T()), vma, Unmap)
    {
      assert Found(T(), DirIndex(vma));
      var e := GetEntry(vma);
      ChangedWords(e, 0, 0);
      PutEntry(vma, e - e % 2);
      ApplyFollows(old(T()), vma, Unmap);
    }

    method DeletePage(vma: Word)
      requires Valid() && Present(dir[DirIndex(vma)])
      modifies phys
      ensures Follows(old(T()), vma, Delete)
    {
      PutEntry(vma, 0);
      ApplyFollows(old(T()), vma, Delete);
    }

    method SetPageFlags(vma: Word, flags: Flags)
      requires Valid() && Present(dir[DirIndex(vma)])
      modifies phys
      ensures Follows(old(T()), vma, SetFlags(flags))
    {
      assert Found(T(), DirIndex(vma));
      var e := GetEntry(vma);
      ChangedWords(e, 0, flags);
      PutEntry(vma, FrameOf(e) + flags);
      ApplyFollows(old(T()), vma, SetFlags(flags));
    }

    /** `page_set_dir_entry`. */
    method SetDirEntry(d: int, table: Word, e: Word)
      requires Wired() && 0 <= d < ENTRIES
      modifies dir, lookup
      ensures T() == WithSlot(old(T()), d, table, e)
    {
      lookup[d] := table;
      dir[d] := e;
    }

    /** `page_table_unmap`. */
    method TableUnmap(vma: Word)
      requires Valid()
      modifies dir, lookup
      ensures T() == WithSlot(old(T()), DirIndex(vma), 0, 0)
      ensures Coherent(T()) <==> FreeOfTables(old(T()), DirIndex(vma))
    {
      var d := DirIndex(vma);
      lookup[d] := 0;
      dir[d] := 0;
      EmptySlotCoherent(old(T()), d);
    }

    /**
     `page_table_map`. If the table is reached through the very slot that is set, its frame is looked up in the table itself,
     because the lookup table has already changed.
     */
    method TableMap(table: Word, vma: Word, flags: Flags)
      requires Valid() && Translate(T(), table).At? && (DirIndex(table) == DirIndex(vma) ==> table % PAGE_SIZE == 0)
      modifies dir, lookup
      ensures NotedFrame(old(T()), DirIndex(vma), table) + flags < WORD_LIMIT
      ensures T() == WithSlot(old(T()), DirIndex(vma), table, NotedFrame(old(T()), DirIndex(vma), table) + flags)
      ensures FreeOfTables(old(T()), DirIndex(vma)) ==> (Coherent(T()) <==> flags % 2 == 0 || FindsItself(old(T()), DirIndex(vma), table))
      ensures (!Present(old(dir[DirIndex(vma)])) && flags % 2 == 1 && table % PAGE_SIZE == 0
               && Unused(old(T()), TableFrame(old(T()), table))) ==> Valid()
    {
      ghost var t := T();
      var d := DirIndex(vma);
      lookup[d] := table;
      assert T() == WithSlot(t, d, table, t.dir[d]);
      var pma := NotedPma(table, d, t);
      AlignedRoom(pma);
      dir[d] := pma + flags;
      if FreeOfTables(t, d) {
        SlotCoherent(t, d, table, dir[d]);
        ReachesItself(t, d, table, flags, dir[d]);
      }
      if !Present(t.dir[d]) && flags % 2 == 1 && table % PAGE_SIZE == 0 && Unused(t, TableFrame(t, table)) {
        MapTableCoherent(t, d, table, flags, dir[d]);
      }
    }

    /** The frame of a table that has just been noted for slot `d` of `t`. */
    method NotedPma(table: Word, d: int, ghost t: Tables) returns (pma: Frame)
      requires Wired() && t.Shaped() && 0 <= d < ENTRIES && T() == WithSlot(t, d, table, t.dir[d])
      requires Coherent(t) && Translate(t, table).At? && (DirIndex(table) == d ==> table % PAGE_SIZE == 0)
      ensures pma == NotedFrame(t, d, table)
    {
      if DirIndex(table) == d {
        NotedInItself(t, d, table);
      } else {
        assert Found(t, DirIndex(table));
        SlotFoundElsewhere(t, d, table, DirIndex(table));
      }
      pma := GetPma(table);
    }
  }

  /**
   A table mapped at `table` through slot `d` will be found there: it lies on a page boundary, and, if it is itself in that slot, what it
   has for its own page is the frame that is then used for it.
   */
  ghost predicate FindsItself(t: Tables, d: int, table: Word)
    requires t.Shaped() && 0 <= d < ENTRIES && (DirIndex(table) == d ==> table % PAGE_SIZE == 0)
  {
    true == (
      && table % PAGE_SIZE == 0
      && (DirIndex(table) == d ==>
            var f := NotedFrame(t, d, table);
            f + 4 * TableIndex(table) < WORD_LIMIT
            && Present(t.phys[f + 4 * TableIndex(table)]) && FrameOf(t.phys[f + 4 * TableIndex(table)]) == f)
    )
  }

  /** That is the exact condition, and it is about the tables before the change. */
  lemma ReachesItself(t: Tables, d: int, table: Word, flags: Flags, e: Word)
    requires t.Shaped() && 0 <= d < ENTRIES && Translate(t, table).At? && (DirIndex(table) == d ==> table % PAGE_SIZE == 0)
    requires e == NotedFrame(t, d, table) + flags
    ensures Reaches(t, d, table, e) <==> flags % 2 == 0 || FindsItself(t, d, table)
  {
    var f := NotedFrame(t, d, table);
    ChangedHalves(SetFlags(flags), f);
    AlignedRoom(f);
    if DirIndex(table) != d {
      SlotTranslate(t, d, table, e, table);
    } else {
      assert WithSlot(t, d, table, e).dir[d] == e;
    }
  }

  /** Tables that are all reachable, and a new one in the slot of the first that is lost when it is mapped there. */
  lemma SomeTableIsLost() returns (t: Tables, table: Word)
    ensures t.Shaped() && OwnTables(t) && Coherent(t) && FreeOfTables(t, 0)
    ensures DirIndex(table) == 0 && table % PAGE_SIZE == 0 && Translate(t, table).At?
    ensures !FindsItself(t, 0, table) && NotedFrame(t, 0, table) == 0 && !Coherent(WithSlot(t, 0, table, 3))
  {
    // Slot 0 has the table in frame 1, which maps pages 1 and 2 to frames 1 and 2; the table in frame 2 is empty.
    var none := seq(ENTRIES, _ => 0);
    t := Tables(none[0 := 0x1003], none[0 := 0x1000], seq(WORD_LIMIT, a => if a == 0x1004 then 0x1003 else if a == 0x1008 then 0x2003 else 0));
    table := 0x2000;
    assert Found(t, 0);
    SlotCoherent(t, 0, table, 3);
    ReachesItself(t, 0, table, 3, 3);
  }

  /** Where `page_get_entry` looks for the entry of the page of `vma`. */
  function EntryAddress(t: Tables, vma: Word): int
    requires t.Shaped()
  {
    t.lookup[DirIndex(vma)] + 4 * TableIndex(vma)
  }

  /** What `page_get_pma` gives for a table that is already noted for slot `d`. */
  function NotedFrame(t: Tables, d: int, table: Word): Frame
    requires t.Shaped() && 0 <= d < ENTRIES && (DirIndex(table) == d ==> table % PAGE_SIZE == 0)
  {
    if DirIndex(table) == d then
      FrameIsAligned(Entry(t, d, TableIndex(table)));
      var f := FrameOf(Entry(t, d, TableIndex(table)));
      AlignedRoom(f);
      FrameIsAligned(t.phys[f + 4 * TableIndex(table)]);
      FrameOf(t.phys[f + 4 * TableIndex(table)])
    else TableFrame(t, table)
  }

  /** An address noted for its own slot is followed as any other in that slot. */
  lemma NotedInItself(t: Tables, d: int, table: Word)
    requires t.Shaped() && 0 <= d < ENTRIES && DirIndex(table) == d && table % PAGE_SIZE == 0 && Translate(t, table).At?
    ensures var t' := WithSlot(t, d, table, t.dir[d]);
      EntryAddress(t', table) < WORD_LIMIT
      && Translate(t', EntryAddress(t', table)) == At(FrameOf(Entry(t, d, TableIndex(table))) + 4 * TableIndex(table))
  {
    var t' := WithSlot(t, d, table, t.dir[d]);
    assert t'.dir == t.dir;
    AlignedRoom(table);
    SamePage(table, 4 * TableIndex(table));
  }

  /** What is stored for each of the changes. */
  lemma ChangedWords(e: Word, pma: Frame, flags: Flags)
    ensures e % PAGE_SIZE + pma == Changed(Remap(pma), e) < WORD_LIMIT
    ensures FrameOf(e) + flags == Changed(SetFlags(flags), e) < WORD_LIMIT
    ensures 0 <= e - e % 2 == Changed(Unmap, e)
  {
    AlignedRoom(pma);
    AlignedRoom(FrameOf(e));
  }

  lemma FrameIsAligned(e: Word)
    ensures FrameOf(e) % PAGE_SIZE == 0
  {
    DivUnique(FrameOf(e), PAGE_SIZE, e / PAGE_SIZE, 0);
  }

  lemma FlatEntry(t: Tables, vma: Word)
    requires t.Shaped() && Present(t.dir[DirIndex(vma)])
    ensures vma / PAGE_SIZE in Flat(t) && Flat(t)[vma / PAGE_SIZE] == Entry(t, DirIndex(vma), TableIndex(vma))
  {
    IndexSplit(vma, 0, 0, 0);
  }

  /** A new address noted for one slot is not looked at by any other. */
  lemma SlotFoundElsewhere(t: Tables, d: int, table: Word, d': int)
    requires t.Shaped() && 0 <= d < ENTRIES && 0 <= d' < ENTRIES && d' != d && Found(t, d')
    ensures Found(WithSlot(t, d, table, t.dir[d]), d')
  {
    var t' := WithSlot(t, d, table, t.dir[d]);
    assert t'.dir == t.dir;
    assert t'.lookup[d'] == t.lookup[d'];
    assert Translate(t', t.lookup[d']) == Translate(t, t.lookup[d']);
  }
}
