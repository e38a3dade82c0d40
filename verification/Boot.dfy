/** The construction of the first page tables, before paging is on: init.c. */
module Boot {
  import opened Machine
  import opened Frames
  import opened PageTables
  import opened BootSpace
  import opened BootTables

  const VGA_WIDTH := 80
  const VGA_HEIGHT := 25

  class Init {
    const k: Linked
    /** `init_page_struct.page_dir` and `init_page_struct.page_table_lookup`. */
    const dir: array<Word>
    const lookup: array<Word>
    const phys: array<Word>
    var nextPma: Word
    var nextVma: Word
    var vgaVma: Word
    var tableOffset: Word

    /** The slots with tables, and the entries of the pages mapped so far. */
    ghost var slots: seq<int>
    ghost var m: map<int, Word>
    /** Physical memory as the loader left it. */
    ghost const loaded: seq<Word>

    ghost function T(): Tables
      reads dir, lookup, phys
    {
      Tables(dir[..], lookup[..], phys[..])
    }

    ghost predicate Building()
      reads this, dir, lookup, phys
    {
      true == (
        && k.Ok() && dir != lookup && dir != phys && lookup != phys
        && Built(T(), slots, k.KernelEndPma(), m, PAGE_SIZE)
        && SameBelow(phys[..], loaded, PAGE_SIZE * k.KernelEndPma())
        && |slots| <= ENTRIES
        && nextPma == PAGE_SIZE * (k.KernelEndPma() + |slots|)
        && tableOffset == PAGE_SIZE * (|slots| + 1))
    }

    /** `init_page_struct` starts out as zeros. */
    constructor (k: Linked, memory: array<Word>)
      requires k.Ok() && memory.Length == WORD_LIMIT
      ensures Building() && slots == [] && m == map[] && this.k == k && phys == memory && loaded == memory[..] && fresh(dir) && fresh(lookup)
    {
      this.k := k;
      dir := new Word[ENTRIES](_ => 0);
      lookup := new Word[ENTRIES](_ => 0);
      phys := memory;
      nextPma := PAGE_SIZE * k.KernelEndPma();
      nextVma, vgaVma := 0, 0;
      tableOffset := PAGE_SIZE;
      slots, m := [], map[];
      loaded := memory[..];
    }

    /** `init_page_clear`, eight bytes at a time. */
    method PageClear(pma: Word, ghost frame: int)
      requires 0 <= frame < PAGES && pma == PAGE_SIZE * frame && phys.Length == WORD_LIMIT
      modifies phys
      ensures Cleared(old(phys[..]), phys[..], frame)
    {
      ghost var start := phys[..];
      var i := 0;
      while i < PAGE_SIZE / 8
        invariant 0 <= i <= PAGE_SIZE / 8 && ClearedUpTo(start, phys[..], frame, 2 * i)
      {
        ghost var was := phys[..];
        phys[pma + 8 * i] := 0;
        phys[pma + 8 * i + 4] := 0;
        ClearedTwoMore(start, was, phys[..], frame, 2 * i);
        i := i + 1;
      }
      AllCleared(start, phys[..], frame);
    }

    /** `init_page_table_new`. */
    method TableNew(vma: Word) returns (table: Word)
      requires Building() && |slots| < ENTRIES
      modifies this`nextPma, this`tableOffset, lookup, phys
      ensures table == old(nextPma) && nextPma == old(nextPma) + PAGE_SIZE && tableOffset == old(tableOffset) + PAGE_SIZE
      ensures Cleared(old(phys[..]), phys[..], k.KernelEndPma() + |slots|)
      ensures lookup[..] == old(lookup[..])[DirIndex(vma) := old(tableOffset)]
    {
      MultipleAligned(k.KernelEndPma() + |slots|);
      table := Align(nextPma, PAGE_SIZE);
      PageClear(table, k.KernelEndPma() + |slots|);
      nextPma := table + PAGE_SIZE;
      lookup[DirIndex(vma)] := tableOffset;
      tableOffset := tableOffset + PAGE_SIZE;
    }

    /** Gives the slot of an address a table if it has none: the first half of `init_page_map`. */
    method TableFor(vma: Word) returns (table: Word, ghost j: int)
      requires Building()
      modifies this`nextPma, this`tableOffset, this`slots, dir, lookup, phys
      ensures Building() && slots == AddSlot(old(slots), DirIndex(vma))
      ensures 0 <= j < |slots| && slots[j] == DirIndex(vma) && table == PAGE_SIZE * (k.KernelEndPma() + j)
    {
      var d := DirIndex(vma);
      ghost var t := T();
      BuiltEntry(t, slots, k.KernelEndPma(), m, PAGE_SIZE, d, 0);
      if Present(dir[d]) {
        j :| 0 <= j < |slots| && slots[j] == d;
        BuiltFrame(t, slots, k.KernelEndPma(), m, PAGE_SIZE, j);
        table := FrameOf(dir[d]);
      } else {
        NotAllSlots(slots, d);
        table := TableNew(vma);
        dir[d] := table + 7;
        TableStep(t, T(), slots, slots + [d], k.KernelEndPma(), m, PAGE_SIZE, d);
        j := |slots|;
        slots := slots + [d];
      }
    }

    /** `init_page_map`. */
    method PageMap(vma: Word, pma: Word, flags: Flags, ghost page: int, ghost frame: int)
      requires Building()
      requires 0 <= page < PAGES && vma == PAGE_SIZE * page && 0 <= frame < PAGES && pma == PAGE_SIZE * frame
      modifies this`nextPma, this`tableOffset, this`slots, this`m, dir, lookup, phys
      ensures Building() && slots == AddSlot(old(slots), page / ENTRIES) && m == WithPage(old(m), page, frame, flags)
    {
      PageOfAddress(vma, page);
      NotMappedYet(T(), slots, k.KernelEndPma(), m, vma, page);
      var isNew := !Present(dir[DirIndex(vma)]);
      var table, j := TableFor(vma);
      ghost var t, e, i := T(), Get(m, page), TableIndex(vma);
      TableEntry(t, slots, k.KernelEndPma(), m, j, vma, page);
      PointEntry(table + 4 * TableIndex(vma), pma, flags, isNew, frame, e);
      m := WithPage(m, page, frame, flags);
      EntryStep(t, T(), slots, k.KernelEndPma(), old(m), m, PAGE_SIZE, j, i, Pointed(e, frame, flags));
    }

    /** The stores of `init_page_map` to the entry. */
    method PointEntry(at: Word, pma: Word, flags: Flags, isNew: bool, ghost frame: int, ghost e: Word)
      requires phys.Length == WORD_LIMIT && phys[at] == e && 0 <= frame < PAGES && pma == PAGE_SIZE * frame && (isNew ==> e == 0)
      modifies phys
      ensures phys[..] == old(phys[..])[at := Pointed(e, frame, flags)]
    {
      PointedStep(e, frame, flags);
      if isNew {
        phys[at] := pma;
      } else {
        phys[at] := phys[at] % PAGE_SIZE + pma;
      }
      phys[at] := FrameOf(phys[at]) + BitOr(phys[at] % PAGE_SIZE, flags);
    }

    /** The loop that maps a stretch of pages, which `init_map_kernel` has five times; `i` is a distance from `vma` and from `pma`. */
    method MapUpTo(start: Word, limit: Word, vma: Word, pma: Word, flags: Flags, ghost r: Range) returns (i: Word)
      requires Building() && r.Valid() && r.flags == flags
      requires vma + start == PAGE_SIZE * r.page && pma + start == PAGE_SIZE * r.frame
      requires start + PAGE_SIZE * r.count - PAGE_SIZE < limit <= start + PAGE_SIZE * r.count < WORD_LIMIT
      modifies this`nextPma, this`tableOffset, this`slots, this`m, dir, lookup, phys
      ensures Building() && Maps(old(slots), slots, old(m), m, r) && i == start + PAGE_SIZE * r.count
    {
      ghost var n := 0;
      MapsNone(slots, m, r);
      i := start;
      while i < limit
        invariant Building() && n <= r.count && i == start + PAGE_SIZE * n
        invariant MapsFirst(old(slots), slots, old(m), m, r, n)
      {
        InStretch(start, limit, i, n, r.count);
        MapOneMore(start, i, vma, pma, flags, r, n, old(slots), old(m));
        i := i + PAGE_SIZE;
        n := n + 1;
      }
      InStretch(start, limit, i, n, r.count);
    }

    /** One turn of that loop. */
    method MapOneMore(start: Word, i: Word, vma: Word, pma: Word, flags: Flags,
                      ghost r: Range, ghost n: nat, ghost s0: seq<int>, ghost m0: map<int, Word>)
      requires Building() && r.Valid() && r.flags == flags && n < r.count && MapsFirst(s0, slots, m0, m, r, n)
      requires vma + start == PAGE_SIZE * r.page && pma + start == PAGE_SIZE * r.frame && i == start + PAGE_SIZE * n
      modifies this`nextPma, this`tableOffset, this`slots, this`m, dir, lookup, phys
      ensures Building() && MapsFirst(s0, slots, m0, m, r, n + 1)
    {
      ghost var s1, m1 := slots, m;
      PageMap(vma + i, pma + i, flags, r.page + n, r.frame + n);
      MapsOneMore(s0, s1, slots, m0, m1, m, r, n);
    }

    /** One page at `nextVma`. */
    method MapNext(pma: Word, flags: Flags, ghost r: Range)
      requires Building() && r.Valid() && r.count == 1 && r.flags == flags
      requires nextVma == PAGE_SIZE * r.page && pma == PAGE_SIZE * r.frame && nextVma + PAGE_SIZE < WORD_LIMIT
      modifies this`nextPma, this`nextVma, this`tableOffset, this`slots, this`m, dir, lookup, phys
      ensures Building() && Maps(old(slots), slots, old(m), m, r) && nextVma == old(nextVma) + PAGE_SIZE
    {
      ghost var s, m0 := slots, m;
      MapsNone(s, m0, r);
      PageMap(nextVma, pma, flags, r.page, r.frame);
      MapsOneMore(s, s, slots, m0, m0, m, r, 0);
      nextVma := nextVma + PAGE_SIZE;
    }

    /** The stack, in the last page of the address space. */
    method MapStack()
      requires Building()
      modifies this`nextPma, this`tableOffset, this`slots, this`m, dir, lookup, phys
      ensures Building() && Maps(old(slots), slots, old(m), m, k.Fixed()[5])
    {
      ghost var r := k.Fixed()[5];
      ghost var s, m0 := slots, m;
      MapsNone(s, m0, r);
      PageMap(WORD_LIMIT - PAGE_SIZE, PAGE_SIZE * k.stackPage, 3, r.page, r.frame);
      MapsOneMore(s, s, slots, m0, m0, m, r, 0);
    }

    /** The sections of the kernel image. */
    method MapSections(ghost rs: seq<Range>)
      requires Building() && Done(rs, 0, slots, m) && rs == k.Fixed()
      modifies this`nextPma, this`tableOffset, this`slots, this`m, dir, lookup, phys
      ensures Building() && Done(rs, 3, slots, m)
    {
      ghost var s, m0 := slots, m;
      var i := MapUpTo(PAGE_SIZE * k.initStart, PAGE_SIZE * k.initBssEnd, 0, 0, 3, rs[0]);
      DoneNext(rs, 0, s, slots, m0, m);
      var text, image := PAGE_SIZE * k.textStart, PAGE_SIZE * k.initBssEnd;
      s, m0 := slots, m;
      i := MapUpTo(0, PAGE_SIZE * k.rodataEnd - text, text, image, 5, rs[1]);
      DoneNext(rs, 1, s, slots, m0, m);
      s, m0 := slots, m;
      i := MapUpTo(i, PAGE_SIZE * k.bssEnd - text, text, image, 7, rs[2]);
      DoneNext(rs, 2, s, slots, m0, m);
    }

    /** The page directory, the lookup table, the stack and the screen. */
    method MapPages(ghost rs: seq<Range>)
      requires Building() && Done(rs, 3, slots, m) && rs == k.Fixed() && nextVma == PAGE_SIZE * k.bssEnd
      modifies this`nextPma, this`nextVma, this`vgaVma, this`tableOffset, this`slots, this`m, dir, lookup, phys
      ensures Building() && Done(rs, 7, slots, m)
      ensures nextVma == PAGE_SIZE * (k.bssEnd + 3) && vgaVma == PAGE_SIZE * (k.bssEnd + 2)
    {
      MapDirectory(rs);
      ghost var s, m0 := slots, m;
      MapStack();
      DoneNext(rs, 5, s, slots, m0, m);
      MapScreen(rs);
    }

    /** The page directory and the lookup table. */
    method MapDirectory(ghost rs: seq<Range>)
      requires Building() && Done(rs, 3, slots, m) && rs == k.Fixed() && nextVma == PAGE_SIZE * k.bssEnd
      modifies this`nextPma, this`nextVma, this`tableOffset, this`slots, this`m, dir, lookup, phys
      ensures Building() && Done(rs, 5, slots, m) && nextVma == PAGE_SIZE * (k.bssEnd + 2)
    {
      ghost var s, m0 := slots, m;
      MapNext(PAGE_SIZE * k.pageDir, 3, rs[3]);
      DoneNext(rs, 3, s, slots, m0, m);
      s, m0 := slots, m;
      MapNext(PAGE_SIZE * k.lookup, 3, rs[4]);
      DoneNext(rs, 4, s, slots, m0, m);
    }

    method MapScreen(ghost rs: seq<Range>)
      requires Building() && Done(rs, 6, slots, m) && rs == k.Fixed() && nextVma == PAGE_SIZE * (k.bssEnd + 2)
      modifies this`nextPma, this`nextVma, this`vgaVma, this`tableOffset, this`slots, this`m, dir, lookup, phys
      ensures Building() && Done(rs, 7, slots, m)
      ensures nextVma == PAGE_SIZE * (k.bssEnd + 3) && vgaVma == PAGE_SIZE * (k.bssEnd + 2)
    {
      ghost var s, m0 := slots, m;
      vgaVma := nextVma;
      var i := MapUpTo(0, VGA_WIDTH * VGA_HEIGHT * 2, nextVma, 0xB8000, 7, rs[6]);
      DoneNext(rs, 6, s, slots, m0, m);
      nextVma := nextVma + i;
    }

    /** The fixed mappings, in order. */
    method MapFixed()
      requires Building() && slots == [] && m == map[]
      modifies this`nextPma, this`nextVma, this`vgaVma, this`tableOffset, this`slots, this`m, dir, lookup, phys
      ensures Building() && slots == SlotsAll(k.Fixed()) && m == MapAll(k.Fixed())
      ensures nextVma == PAGE_SIZE * (k.bssEnd + 3) && vgaVma == PAGE_SIZE * (k.bssEnd + 2)
    {
      FixedValid(k);
      MapSections(k.Fixed());
      nextVma := PAGE_SIZE * k.bssEnd;
      MapPages(k.Fixed());
      assert k.Fixed()[..7] == k.Fixed();
    }

    /** Maps the tables behind everything else; returns how much was mapped. */
    method MapTables() returns (size: Word)
      requires Building() && slots == SlotsAll(k.Fixed()) && m == MapAll(k.Fixed()) && nextVma == PAGE_SIZE * (k.bssEnd + 3)
      modifies this`nextPma, this`tableOffset, this`slots, this`m, dir, lookup, phys
      ensures Building() && slots == SlotsAll(k.All()) && m == MapAll(k.All())
      ensures size == PAGE_SIZE * k.Tables().count
    {
      var endPma := PAGE_SIZE * k.KernelEndPma();
      var initSize := nextPma - endPma;
      var aligned := Align(endPma, ENTRIES * PAGE_SIZE);
      var extra := if nextPma < aligned then 0 else (nextPma - aligned) / (ENTRIES * PAGE_SIZE);
      RangesOk(k);
      assert extra == ExtraTables(k.KernelEndPma(), k.FixedTables());
      assert k.All()[..7] == k.Fixed() && k.All()[7] == k.Tables();
      size := MapUpTo(0, initSize + extra * PAGE_SIZE, nextVma, endPma, 3, k.Tables());
    }

    /** Turns distances into addresses in the lookup table. */
    method FixLookup()
      requires Building() && nextVma + PAGE_SIZE * ENTRIES < WORD_LIMIT
      modifies lookup
      ensures Built(T(), slots, k.KernelEndPma(), m, nextVma) && phys[..] == old(phys[..])
    {
      ghost var t := T();
      LookupBound(t, slots, k.KernelEndPma(), m);
      var i := 0;
      while i < ENTRIES
        invariant 0 <= i <= ENTRIES
        invariant forall d :: 0 <= d < i ==> lookup[d] == if t.lookup[d] == 0 then 0 else t.lookup[d] + nextVma - PAGE_SIZE
        invariant forall d :: i <= d < ENTRIES ==> lookup[d] == t.lookup[d]
      {
        if lookup[i] != 0 {
          lookup[i] := lookup[i] + nextVma - PAGE_SIZE;
        }
        i := i + 1;
      }
      Relocated(t, T(), slots, k.KernelEndPma(), m, nextVma);
    }

    /**
     * `init_map_kernel`: the whole address space of the kernel, and where its heap will begin.
     * Nothing is written over the kernel image.
     */
    method MapKernel()
      requires Building() && slots == [] && m == map[]
      modifies this`nextPma, this`nextVma, this`vgaVma, this`tableOffset, this`slots, this`m, dir, lookup, phys
      ensures Final(T(), k) && (Coherent(T()) <==> TablesFit(k))
      ensures nextVma == PAGE_SIZE * (k.bssEnd + 3 + k.Tables().count) && KernelSpace(T(), k, k.Tables().count)
      ensures nextPma == PAGE_SIZE * (k.KernelEndPma() + |SlotsAll(k.All())|)
      ensures vgaVma == PAGE_SIZE * (k.bssEnd + 2)
      ensures SameBelow(phys[..], loaded, PAGE_SIZE * k.KernelEndPma())
    {
      var size := MapEverything();
      Finish(size);
      BootSpaceIs(T(), k);
    }

    /** All mappings; the lookup table still holds distances. */
    method MapEverything() returns (size: Word)
      requires Building() && slots == [] && m == map[]
      modifies this`nextPma, this`nextVma, this`vgaVma, this`tableOffset, this`slots, this`m, dir, lookup, phys
      ensures Building() && slots == SlotsAll(k.All()) && m == MapAll(k.All()) && size == PAGE_SIZE * k.Tables().count
      ensures nextVma == PAGE_SIZE * (k.bssEnd + 3) && vgaVma == PAGE_SIZE * (k.bssEnd + 2)
      ensures nextPma == PAGE_SIZE * (k.KernelEndPma() + |slots|) && SameBelow(phys[..], loaded, PAGE_SIZE * k.KernelEndPma())
    {
      MapFixed();
      size := MapTables();
    }

    /** The lookup table, and the start of the heap. */
    method Finish(size: Word)
      requires Building() && slots == SlotsAll(k.All()) && m == MapAll(k.All())
      requires nextVma == PAGE_SIZE * (k.bssEnd + 3) && size == PAGE_SIZE * k.Tables().count
      modifies this`nextVma, lookup
      ensures Final(T(), k) && (Coherent(T()) <==> TablesFit(k)) && phys[..] == old(phys[..])
      ensures nextVma == PAGE_SIZE * (k.bssEnd + 3 + k.Tables().count)
    {
      SpaceIsEnough(k);
      FixLookup();
      KernelIsMapped(T(), k);
      nextVma := nextVma + size;
    }
  }

  /** A distance that has come `n` pages from `start` is below the limit as long as pages are left. */
  lemma InStretch(start: int, limit: int, i: int, n: int, count: int)
    requires start + PAGE_SIZE * count - PAGE_SIZE < limit <= start + PAGE_SIZE * count && i == start + PAGE_SIZE * n
    ensures i < limit <==> n < count
  {
  }

  lemma KernelIsMapped(t: Tables, k: Linked)
    requires k.Ok() && (forall i :: 0 <= i < |k.All()| ==> k.All()[i].Valid())
    requires Built(t, SlotsAll(k.All()), k.KernelEndPma(), MapAll(k.All()), PAGE_SIZE * (k.bssEnd + 3))
    ensures Final(t, k) && t.Shaped() && (Coherent(t) <==> TablesFit(k))
  {
    SelfDescription(t, k);
  }

  lemma SpaceIsEnough(k: Linked)
    requires k.Ok()
    ensures forall i :: 0 <= i < |k.All()| ==> k.All()[i].Valid()
    ensures PAGE_SIZE * (k.bssEnd + 3) + PAGE_SIZE * ENTRIES < WORD_LIMIT && PAGE_SIZE * (k.bssEnd + 3 + k.Tables().count) < WORD_LIMIT
  {
    RangesOk(k);
  }

  /** The first `n` words of a page are cleared. */
  ghost predicate ClearedUpTo(phys: seq<Word>, phys': seq<Word>, frame: int, n: nat) {
    true == (
      && |phys| == |phys'| == WORD_LIMIT && 0 <= frame < PAGES && n <= ENTRIES
      && (forall i :: 0 <= i < n ==> phys'[PAGE_SIZE * frame + 4 * i] == 0)
      && (forall a :: 0 <= a < WORD_LIMIT && !(PAGE_SIZE * frame <= a < PAGE_SIZE * frame + PAGE_SIZE) ==> phys'[a] == phys[a])
    )
  }

  lemma ClearedTwoMore(start: seq<Word>, m: seq<Word>, m': seq<Word>, frame: int, n: nat)
    requires ClearedUpTo(start, m, frame, n) && n + 2 <= ENTRIES && 0 <= frame < PAGES && |m| == WORD_LIMIT
    requires m' == m[PAGE_SIZE * frame + 4 * n := 0][PAGE_SIZE * frame + 4 * n + 4 := 0]
    ensures ClearedUpTo(start, m', frame, n + 2)
  {
  }

  lemma AllCleared(start: seq<Word>, m: seq<Word>, frame: int)
    requires ClearedUpTo(start, m, frame, ENTRIES)
    ensures |start| == |m| == WORD_LIMIT && 0 <= frame < PAGES && Cleared(start, m, frame)
  {
  }

  /** Memory below `limit` is as it was. */
  ghost predicate SameBelow(phys: seq<Word>, was: seq<Word>, limit: int) {
    true == (|phys| == |was| && limit <= |was| && forall a :: 0 <= a < limit ==> phys[a] == was[a])
  }

  /** All of a range mapped. */
  ghost predicate Maps(slots: seq<int>, slots': seq<int>, m: map<int, Word>, m': map<int, Word>, r: Range) {
    MapsFirst(slots, slots', m, m', r, r.count)
  }

  ghost predicate MapsFirst(slots: seq<int>, slots': seq<int>, m: map<int, Word>, m': map<int, Word>, r: Range, n: nat) {
    true == (r.Valid() && n <= r.count && slots' == SlotsFirst(slots, r, n) && m' == MapFirst(m, r, n))
  }

  lemma MapsNone(slots: seq<int>, m: map<int, Word>, r: Range)
    requires r.Valid()
    ensures MapsFirst(slots, slots, m, m, r, 0)
  {
  }

  lemma MapsOneMore(slots: seq<int>, slots1: seq<int>, slots2: seq<int>, m: map<int, Word>, m1: map<int, Word>, m2: map<int, Word>,
                    r: Range, n: nat)
    requires MapsFirst(slots, slots1, m, m1, r, n) && n < r.count && 0 <= r.frame + n < PAGES
    requires slots2 == AddSlot(slots1, r.Slot(n)) && m2 == WithPage(m1, r.page + n, r.frame + n, r.flags)
    ensures MapsFirst(slots, slots2, m, m2, r, n + 1)
  {
  }

  /** The first `n` ranges mapped. */
  ghost predicate Done(rs: seq<Range>, n: nat, slots: seq<int>, m: map<int, Word>) {
    true == (
      && n <= |rs| && (forall i :: 0 <= i < |rs| ==> rs[i].Valid())
      && slots == SlotsAll(rs[..n]) && m == MapAll(rs[..n]))
  }

  lemma FixedValid(k: Linked)
    requires k.Ok()
    ensures Done(k.Fixed(), 0, [], map[])
  {
  }

  lemma DoneNext(rs: seq<Range>, n: nat, slots: seq<int>, slots': seq<int>, m: map<int, Word>, m': map<int, Word>)
    requires n < |rs| && Done(rs, n, slots, m) && Maps(slots, slots', m, m', rs[n])
    ensures Done(rs, n + 1, slots', m')
  {
    var r := rs[..n + 1];
    assert r[..n] == rs[..n] && r[n] == rs[n];
  }

  lemma LookupBound(t: Tables, slots: seq<int>, base: int, m: map<int, Word>)
    requires Built(t, slots, base, m, PAGE_SIZE) && |slots| <= ENTRIES
    ensures t.Shaped() && forall d :: 0 <= d < ENTRIES ==> t.lookup[d] <= PAGE_SIZE * ENTRIES
  {
    forall d | 0 <= d < ENTRIES ensures t.lookup[d] <= PAGE_SIZE * ENTRIES {
      if d in slots {
        var j :| 0 <= j < |slots| && slots[j] == d;
        BuiltFrame(t, slots, base, m, PAGE_SIZE, j);
      }
    }
  }

  /** The lookup table names the same tables, at addresses that start elsewhere. */
  lemma Relocated(t: Tables, t': Tables, slots: seq<int>, base: int, m: map<int, Word>, vma: Word)
    requires Built(t, slots, base, m, PAGE_SIZE) && t'.Shaped() && t'.dir == t.dir && t'.phys == t.phys
    requires forall d :: 0 <= d < ENTRIES ==> t'.lookup[d] == if t.lookup[d] == 0 then 0 else t.lookup[d] + vma - PAGE_SIZE
    ensures Built(t', slots, base, m, vma)
  {
    forall j | 0 <= j < |slots| ensures Placed(t', slots, base, vma, j) {
      assert Placed(t, slots, base, PAGE_SIZE, j);
    }
    assert forall j, i {:trigger Holds(t', slots, base, m, j, i)} ::
      0 <= j < |slots| && 0 <= i < ENTRIES && Holds(t, slots, base, m, j, i) ==> Holds(t', slots, base, m, j, i);
  }

  lemma MultipleAligned(n: nat)
    ensures Align(PAGE_SIZE * n, PAGE_SIZE) == PAGE_SIZE * n
  {
    DivUnique(PAGE_SIZE * n, PAGE_SIZE, n, 0);
  }

  lemma NotAllSlots(slots: seq<int>, d: int)
    requires SlotsOk(slots) && 0 <= d < ENTRIES && d !in slots
    ensures |slots| < ENTRIES
  {
    SlotsBound(slots, ENTRIES);
  }

  lemma PageOfAddress(vma: Word, page: int)
    requires 0 <= page < PAGES && vma == PAGE_SIZE * page
    ensures page == ENTRIES * DirIndex(vma) + TableIndex(vma) && page / ENTRIES == DirIndex(vma)
  {
    DivUnique(vma, PAGE_SIZE, page, 0);
    IndexSplit(vma, 0, 0, 0);
  }

  lemma NotMappedYet(t: Tables, slots: seq<int>, base: int, m: map<int, Word>, vma: Word, page: int)
    requires Built(t, slots, base, m, PAGE_SIZE) && page == ENTRIES * DirIndex(vma) + TableIndex(vma)
    ensures t.Shaped() && (!Present(t.dir[DirIndex(vma)]) ==> Get(m, page) == 0)
  {
    BuiltEntry(t, slots, base, m, PAGE_SIZE, DirIndex(vma), TableIndex(vma));
  }

  lemma TableEntry(t: Tables, slots: seq<int>, base: int, m: map<int, Word>, j: int, vma: Word, page: int)
    requires Built(t, slots, base, m, PAGE_SIZE) && 0 <= j < |slots| && slots[j] == DirIndex(vma)
    requires page == ENTRIES * DirIndex(vma) + TableIndex(vma)
    ensures t.Shaped() && 0 <= PAGE_SIZE * (base + j) + 4 * TableIndex(vma) < WORD_LIMIT
    ensures t.phys[PAGE_SIZE * (base + j) + 4 * TableIndex(vma)] == Get(m, page)
  {
    BuiltEntry(t, slots, base, m, PAGE_SIZE, DirIndex(vma), TableIndex(vma));
    BuiltFrame(t, slots, base, m, PAGE_SIZE, j);
  }

  /** The two stores of `init_page_map` to one entry. */
  lemma PointedStep(e: Word, frame: int, flags: Flags)
    requires 0 <= frame < PAGES
    ensures 0 <= e % PAGE_SIZE + PAGE_SIZE * frame < WORD_LIMIT
    ensures FrameOf(e % PAGE_SIZE + PAGE_SIZE * frame) == PAGE_SIZE * frame
    ensures (e % PAGE_SIZE + PAGE_SIZE * frame) % PAGE_SIZE == e % PAGE_SIZE
    ensures Pointed(e, frame, flags) == PAGE_SIZE * frame + BitOr(e % PAGE_SIZE, flags) < WORD_LIMIT
  {
    DivUnique(e % PAGE_SIZE + PAGE_SIZE * frame, PAGE_SIZE, frame, e % PAGE_SIZE);
  }
}
