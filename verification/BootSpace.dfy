/** The address space that init.c builds, on values. */
module BootSpace {
  import opened Machine
  import opened Frames
  import opened PageTables

  /** `count` pages from `page` on, mapped to as many frames from number `frame` on. */
  datatype Range = Range(page: int, frame: int, count: nat, flags: Flags) {
    predicate Valid() {
      && 0 <= page && page + count <= PAGES && flags % 2 == 1
      && 0 <= frame && frame + count <= PAGES
    }

    predicate Has(p: int) {
      page <= p < page + count
    }

    function EntryOf(p: int): int {
      PAGE_SIZE * (frame + p - page) + flags
    }

    /** The directory slot of the `i`-th page. */
    function Slot(i: int): int {
      (page + i) / ENTRIES
    }
  }

  /** Bitwise or. */
  function BitOr(a: nat, b: nat): nat {
    if a == 0 then b
    else (if a % 2 == 1 || b % 2 == 1 then 1 else 0) + 2 * BitOr(a / 2, b / 2)
  }

  function Pow2(n: nat): nat {
    if n == 0 then 1 else 2 * Pow2(n - 1)
  }

  lemma {:induction false} BitOrBound(a: nat, b: nat, n: nat)
    requires a < Pow2(n) && b < Pow2(n)
    ensures BitOr(a, b) < Pow2(n)
  {
    if a != 0 {
      BitOrBound(a / 2, b / 2, n - 1);
    }
  }

  lemma FlagsOr(a: Flags, b: Flags)
    ensures BitOr(a, b) < PAGE_SIZE
    ensures b % 2 == 1 ==> BitOr(a, b) % 2 == 1
  {
    assert Pow2(12) == PAGE_SIZE;
    BitOrBound(a, b, 12);
  }

  /** An entry that is pointed to another frame, and gains flags. */
  function Pointed(e: Word, frame: int, flags: Flags): Word
    requires 0 <= frame < PAGES
  {
    FlagsOr(e % PAGE_SIZE, flags);
    PAGE_SIZE * frame + BitOr(e % PAGE_SIZE, flags)
  }

  lemma PointedFacts(e: Word, frame: int, flags: Flags)
    requires 0 <= frame < PAGES
    ensures FrameOf(Pointed(e, frame, flags)) == PAGE_SIZE * frame
    ensures flags % 2 == 1 ==> Present(Pointed(e, frame, flags))
  {
    var low := BitOr(e % PAGE_SIZE, flags);
    FlagsOr(e % PAGE_SIZE, flags);
    DivUnique(Pointed(e, frame, flags), PAGE_SIZE, frame, low);
    assert Pointed(e, frame, flags) == 2 * (2048 * frame) + low;
  }

  /** The entry of a page, zero when it was never mapped. */
  function Get(m: map<int, Word>, p: int): Word {
    if p in m then m[p] else 0
  }

  function WithPage(m: map<int, Word>, page: int, frame: int, flags: Flags): map<int, Word>
    requires 0 <= frame < PAGES
  {
    m[page := Pointed(Get(m, page), frame, flags)]
  }

  /** The first `n` pages of a range mapped, in order. */
  function MapFirst(m: map<int, Word>, r: Range, n: nat): map<int, Word>
    requires r.Valid() && n <= r.count
  {
    if n == 0 then m else WithPage(MapFirst(m, r, n - 1), r.page + n - 1, r.frame + n - 1, r.flags)
  }

  function MapAll(rs: seq<Range>): map<int, Word>
    requires forall i :: 0 <= i < |rs| ==> rs[i].Valid()
  {
    if rs == [] then map[] else MapFirst(MapAll(rs[..|rs| - 1]), rs[|rs| - 1], rs[|rs| - 1].count)
  }

  // ----- What a range maps -----

  ghost predicate FirstMapped(m: map<int, Word>, m': map<int, Word>, r: Range, n: nat) {
    forall p {:trigger r.Has(p)} {:trigger Get(m', p)} ::
      Get(m', p) == if r.Has(p) && p < r.page + n then r.EntryOf(p) else Get(m, p)
  }

  /** A range that is not mapped yet is mapped as asked for, and no other page is touched. */
  lemma {:induction false} RangeMaps(m: map<int, Word>, r: Range, n: nat)
    requires r.Valid() && n <= r.count
    requires forall p :: r.Has(p) ==> Get(m, p) == 0
    ensures FirstMapped(m, MapFirst(m, r, n), r, n)
  {
    if n != 0 {
      RangeMaps(m, r, n - 1);
      assert r.Has(r.page + n - 1);
    }
  }

  ghost predicate Disjoint(rs: seq<Range>) {
    forall i, j, p :: 0 <= i < j < |rs| && rs[i].Has(p) ==> !rs[j].Has(p)
  }

  /** Disjoint ranges are all mapped as asked for, and nothing else is. */
  lemma {:induction false} AllMapped(rs: seq<Range>)
    requires Disjoint(rs) && forall i :: 0 <= i < |rs| ==> rs[i].Valid()
    ensures forall i, p :: 0 <= i < |rs| && rs[i].Has(p) ==> Get(MapAll(rs), p) == rs[i].EntryOf(p)
    ensures forall p :: Get(MapAll(rs), p) != 0 ==> exists i :: 0 <= i < |rs| && rs[i].Has(p)
  {
    if rs != [] {
      var init, last := rs[..|rs| - 1], rs[|rs| - 1];
      assert forall i :: 0 <= i < |init| ==> init[i] == rs[i];
      AllMapped(init);
      RangeMaps(MapAll(init), last, last.count);
      forall p | Get(MapAll(rs), p) != 0 ensures exists i :: 0 <= i < |rs| && rs[i].Has(p) {
        if !last.Has(p) {
          var i :| 0 <= i < |init| && init[i].Has(p);
          assert rs[i].Has(p);
        }
      }
    }
  }

  // ----- Which slots get a table -----

  function AddSlot(slots: seq<int>, d: int): seq<int> {
    if d in slots then slots else slots + [d]
  }

  function SlotsFirst(slots: seq<int>, r: Range, n: nat): (s: seq<int>)
    ensures slots <= s
  {
    if n == 0 then slots else AddSlot(SlotsFirst(slots, r, n - 1), r.Slot(n - 1))
  }

  function SlotsAll(rs: seq<Range>): seq<int> {
    if rs == [] then [] else SlotsFirst(SlotsAll(rs[..|rs| - 1]), rs[|rs| - 1], rs[|rs| - 1].count)
  }

  /** Slots are numbered `0` to `1023`, and none is listed twice. */
  ghost predicate SlotsOk(slots: seq<int>) {
    && (forall d :: d in slots ==> 0 <= d < ENTRIES)
    && (forall i, j :: 0 <= i < j < |slots| ==> slots[i] != slots[j])
  }

  lemma {:induction false} SlotsFirstOk(slots: seq<int>, r: Range, n: nat)
    requires SlotsOk(slots) && r.Valid() && n <= r.count
    ensures SlotsOk(SlotsFirst(slots, r, n))
    ensures forall i :: 0 <= i < n ==> r.Slot(i) in SlotsFirst(slots, r, n)
  {
    if n != 0 {
      SlotsFirstOk(slots, r, n - 1);
      var s := SlotsFirst(slots, r, n - 1);
      assert forall d :: d in AddSlot(s, r.Slot(n - 1)) <==> d in s || d == r.Slot(n - 1);
    }
  }

  lemma {:induction false} SlotsAllOk(rs: seq<Range>)
    requires forall i :: 0 <= i < |rs| ==> rs[i].Valid()
    ensures SlotsOk(SlotsAll(rs))
  {
    if rs != [] {
      SlotsAllOk(rs[..|rs| - 1]);
      SlotsFirstOk(SlotsAll(rs[..|rs| - 1]), rs[|rs| - 1], rs[|rs| - 1].count);
    }
  }

  lemma {:induction false} SlotsFirstFrom(slots: seq<int>, r: Range, n: nat, d: int)
    requires d in SlotsFirst(slots, r, n)
    ensures d in slots || exists i :: 0 <= i < n && r.Slot(i) == d
  {
    if n != 0 && d in SlotsFirst(slots, r, n - 1) {
      SlotsFirstFrom(slots, r, n - 1, d);
    } else if n != 0 {
      assert r.Slot(n - 1) == d;
    }
  }

  /** A slot gets a table exactly when some page of some range lies in it. */
  lemma {:induction false} SlotsAllFrom(rs: seq<Range>, d: int)
    requires forall i :: 0 <= i < |rs| ==> rs[i].Valid()
    ensures d in SlotsAll(rs) <==> exists n, i :: 0 <= n < |rs| && 0 <= i < rs[n].count && rs[n].Slot(i) == d
  {
    if rs != [] {
      var init, last := rs[..|rs| - 1], rs[|rs| - 1];
      assert forall i :: 0 <= i < |init| ==> init[i] == rs[i];
      SlotsAllFrom(init, d);
      SlotsAllOk(init);
      SlotsFirstOk(SlotsAll(init), last, last.count);
      if d in SlotsAll(rs) {
        SlotsFirstFrom(SlotsAll(init), last, last.count, d);
      }
    }
  }

  /** A range that stays in slots with tables needs no further table. */
  lemma {:induction false} NoSlotAdded(slots: seq<int>, r: Range, n: nat)
    requires forall i :: 0 <= i < n ==> r.Slot(i) in slots
    ensures SlotsFirst(slots, r, n) == slots
  {
    if n != 0 {
      NoSlotAdded(slots, r, n - 1);
    }
  }

  /** A range that leaves them needs one. */
  lemma {:induction false} SlotAdded(slots: seq<int>, r: Range, n: nat, i: nat)
    requires SlotsOk(slots) && r.Valid() && n <= r.count && i < n && r.Slot(i) !in slots
    ensures |SlotsFirst(slots, r, n)| > |slots|
  {
    SlotsFirstOk(slots, r, n);
    assert |SlotsFirst(slots, r, n)| == |slots| ==> SlotsFirst(slots, r, n) == slots;
  }

  /** There are at most 1024 slots, and they are all listed when there are as many. */
  lemma {:induction false} SlotsBound(slots: seq<int>, n: nat)
    requires SlotsOk(slots) && forall d :: d in slots ==> d < n
    ensures |slots| <= n
    ensures |slots| == n ==> forall d :: 0 <= d < n ==> d in slots
    decreases n
  {
    if slots != [] {
      assert slots[0] in slots;
      if n - 1 in slots {
        var k :| 0 <= k < |slots| && slots[k] == n - 1;
        var rest := slots[..k] + slots[k + 1..];
        assert forall d :: d in rest ==> d in slots;
        SlotsBound(rest, n - 1);
      } else {
        SlotsBound(slots, n - 1);
      }
    }
  }

  // ----- What the linker script promises, and what init_map_kernel makes of it -----

  /** Page numbers of the linker symbols of mem.h, and of the parts of `init_page_struct`. */
  datatype Linked = Linked(
    initStart: int, initBssEnd: int, kernelStart: int, kernelEnd: int,
    textStart: int, rodataEnd: int, bssEnd: int,
    pageDir: int, lookup: int, stackPage: int)
  {
    /** Sections lie in order, and 1025 pages fit behind the kernel in both address spaces, below the stack page. */
    predicate Ok() {
      && 0 <= initStart <= initBssEnd <= textStart <= rodataEnd <= bssEnd <= kernelEnd
      && 0 <= kernelStart <= textStart
      && bssEnd + 3 + 1025 < PAGES && KernelEndPma() + 1025 < PAGES
      && 0 <= pageDir < PAGES && 0 <= lookup < PAGES && 0 <= stackPage < PAGES
    }

    /** `kernel_end_pma`, where the first page table goes. */
    function KernelEndPma(): int {
      kernelEnd - kernelStart + initBssEnd
    }

    /** The mappings of `init_map_kernel`, before those of the tables themselves. */
    function Fixed(): seq<Range>
      requires Ok()
    {
      [ Range(initStart, initStart, initBssEnd - initStart, 3),
        Range(textStart, initBssEnd, rodataEnd - textStart, 5),
        Range(rodataEnd, initBssEnd + rodataEnd - textStart, bssEnd - rodataEnd, 7),
        Range(bssEnd, pageDir, 1, 3),
        Range(bssEnd + 1, lookup, 1, 3),
        Range(PAGES - 1, stackPage, 1, 3),
        Range(bssEnd + 2, 0xB8, 1, 7) ]
    }

    /** How many tables the fixed mappings take. */
    function FixedTables(): nat
      requires Ok()
    {
      |SlotsAll(Fixed())|
    }

    function Tables(): Range
      requires Ok()
    {
      Range(bssEnd + 3, KernelEndPma(), FixedTables() + ExtraTables(KernelEndPma(), FixedTables()), 3)
    }

    function All(): seq<Range>
      requires Ok()
    {
      Fixed() + [Tables()]
    }
  }

  /** `n_new_tables`. */
  function ExtraTables(base: nat, tables: nat): nat {
    var aligned := Align(PAGE_SIZE * base, SPAN);
    var next := PAGE_SIZE * (base + tables);
    if next < aligned then 0 else (next - aligned) / SPAN
  }

  /** The estimate is zero, except that it can be one when every slot has a table already. */
  lemma NoExtraTables(base: nat, tables: nat)
    requires tables <= ENTRIES
    ensures tables < ENTRIES ==> ExtraTables(base, tables) == 0
    ensures ExtraTables(base, tables) <= 1
  {
    AlignIsLeast(PAGE_SIZE * base, SPAN);
  }

  lemma RangesOk(k: Linked)
    requires k.Ok()
    ensures SlotsOk(SlotsAll(k.Fixed())) && k.FixedTables() <= ENTRIES
    ensures k.Tables().count <= 1025
    ensures forall i :: 0 <= i < |k.All()| ==> k.All()[i].Valid()
    ensures Disjoint(k.All())
  {
    assert forall i :: 0 <= i < |k.Fixed()| ==> k.Fixed()[i].Valid();
    SlotsAllOk(k.Fixed());
    SlotsBound(SlotsAll(k.Fixed()), ENTRIES);
    NoExtraTables(k.KernelEndPma(), k.FixedTables());
    assert k.Tables().Valid();
  }

  /** The addresses at which the lookup table will name the tables lie in slots that have one. */
  predicate TablesFit(k: Linked)
    requires k.Ok()
  {
    forall i :: 0 <= i < k.FixedTables() ==> k.Tables().Slot(i) in SlotsAll(k.Fixed())
  }

  /** Then mapping the tables takes no further table, and otherwise it does. */
  lemma FitMeansNoMoreTables(k: Linked)
    requires k.Ok()
    ensures TablesFit(k) <==> |SlotsAll(k.All())| <= k.FixedTables()
    ensures SlotsAll(k.Fixed()) <= SlotsAll(k.All()) && SlotsOk(SlotsAll(k.All())) && |SlotsAll(k.All())| <= ENTRIES
    ensures !TablesFit(k) ==> k.Tables().count == k.FixedTables()
  {
    RangesOk(k);
    var slots, r := SlotsAll(k.Fixed()), k.Tables();
    assert k.All()[..|k.All()| - 1] == k.Fixed();
    SlotsAllOk(k.All());
    SlotsBound(SlotsAll(k.All()), ENTRIES);
    NoExtraTables(k.KernelEndPma(), k.FixedTables());
    if |slots| == ENTRIES {
      SlotsBound(slots, ENTRIES);
      assert forall i :: 0 <= i < r.count ==> 0 <= r.Slot(i) < ENTRIES;
      NoSlotAdded(slots, r, r.count);
    } else if TablesFit(k) {
      NoSlotAdded(slots, r, r.count);
    } else {
      var i :| 0 <= i < k.FixedTables() && r.Slot(i) !in slots;
      SlotAdded(slots, r, r.count, i);
    }
  }

  /**
   * In addresses: the pages of the tables must not leave the directory slot of the VGA page before them,
   * unless it is into the slot of the stack page.
   */
  lemma FitByAddress(k: Linked)
    requires k.Ok()
    ensures TablesFit(k) <==>
      (k.bssEnd + 2 + k.FixedTables()) / ENTRIES == (k.bssEnd + 2) / ENTRIES || (k.bssEnd + 2) / ENTRIES >= ENTRIES - 2
  {
    RangesOk(k);
    var fixed, slots, vga, n := k.Fixed(), SlotsAll(k.Fixed()), (k.bssEnd + 2) / ENTRIES, k.FixedTables();
    assert forall i :: 0 <= i < |fixed| ==> fixed[i].Valid() by {
      assert forall i :: 0 <= i < |fixed| ==> fixed[i] == k.All()[i];
    }
    assert vga in slots by { SlotsAllFrom(fixed, vga); assert fixed[6].Slot(0) == vga; }
    assert ENTRIES - 1 in slots by { SlotsAllFrom(fixed, ENTRIES - 1); assert fixed[5].Slot(0) == ENTRIES - 1; }
    if (k.bssEnd + 2 + n) / ENTRIES == vga || vga >= ENTRIES - 2 {
      forall i | 0 <= i < n ensures k.Tables().Slot(i) in slots {
        assert k.Tables().Slot(i) == vga || k.Tables().Slot(i) == ENTRIES - 1;
      }
    } else {
      var i := ENTRIES * (vga + 1) - (k.bssEnd + 3);
      assert 0 <= i < n && k.Tables().Slot(i) == vga + 1;
      SlotsAllFrom(fixed, vga + 1);
      assert forall m, j :: 0 <= m < |fixed| && 0 <= j < fixed[m].count ==> fixed[m].Slot(j) <= vga || fixed[m].Slot(j) == ENTRIES - 1;
    }
  }

  /** It is not so for every kernel: in this one the pages of the tables start in the last page of a slot, and go on in an empty one. */
  lemma SomeDoNotFit() returns (k: Linked)
    ensures k.Ok() && !TablesFit(k)
  {
    k := Linked(0x100, 0x110, 0xE0000, 0xE03FD, 0xE0000, 0xE0010, 0xE03FD, 0x108, 0x109, 0x10A);
    RangesOk(k);
    SlotsAllFrom(k.Fixed(), 0x380);
    assert k.Fixed()[6].Slot(0) == 0x380;
    FitByAddress(k);
  }
}
