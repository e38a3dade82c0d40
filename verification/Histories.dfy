/** What holds of processes over every history of registrations and timer interrupts (proc.c). */
module Histories {
  import opened Machine
  import opened Frames
  import opened PageTables
  import opened Rotation
  import opened Processes

  const CODE_SELECTOR: Word := 0x23
  const DATA_SELECTOR: Word := 0x2B
  const KERNEL_START_VMA: Word := 0xE000_0000
  /** The directory slot of the user stack, in the page below the kernel. */
  const STACK_SLOT := 895

  /** The context with which a new process starts; registers that are not set keep what the table entry held. */
  function Launch(was: Context, entryPoint: Word): Context {
    was.(eip := entryPoint, ss := DATA_SELECTOR, gs := DATA_SELECTOR, fs := DATA_SELECTOR, es := DATA_SELECTOR, ds := DATA_SELECTOR,
         cs := CODE_SELECTOR, esp := KERNEL_START_VMA, eflags := 0x3202)
  }

  /** `proc_register`, once a process identifier is found. */
  ghost function Registered(s: State, p: Pid, entryPoint: Word, priority: Count, vma: Word, entry: Word): (r: State)
    requires s.Shaped()
    ensures r.Shaped()
  {
    var proc := s.procs[p];
    s.(queue := s.queue + [p],
       procs := s.procs[p := Proc(Active, Launch(proc.ctxt, entryPoint), priority, priority, Table(STACK_SLOT, vma, entry, proc.pageTables))])
  }

  datatype Event =
    | Interrupt(frame: Context)
    | Register(pid: Pid, entryPoint: Word, priority: Count, vma: Word, entry: Word)

  ghost function Step(s: State, e: Event): (r: State)
    requires s.Shaped()
    ensures r.Shaped()
  {
    match e
    case Interrupt(frame) => Tick(s, frame)
    case Register(p, entryPoint, priority, vma, entry) => Registered(s, p, entryPoint, priority, vma, entry)
  }

  /** Only an identifier that is not in use is given out. */
  ghost predicate Enabled(s: State, e: Event)
    requires s.Shaped()
  {
    e.Register? ==> s.procs[e.pid].state == Dead
  }

  ghost function Run(s: State, h: seq<Event>): (r: State)
    requires s.Shaped()
    ensures r.Shaped()
  {
    if h == [] then s else Step(Run(s, h[..|h| - 1]), h[|h| - 1])
  }

  ghost predicate Allowed(s: State, h: seq<Event>)
    requires s.Shaped()
  {
    h != [] ==> Allowed(s, h[..|h| - 1]) && Enabled(Run(s, h[..|h| - 1]), h[|h| - 1])
  }

  lemma RegisteredKeeps(base: Slots, s: State, p: Pid, entryPoint: Word, priority: Count, vma: Word, entry: Word)
    requires Ok(base, s) && s.procs[p].state == Dead && base.dir[STACK_SLOT] == 0 && base.lookup[STACK_SLOT] == 0
    ensures Ok(base, Registered(s, p, entryPoint, priority, vma, entry))
  {
    var r := Registered(s, p, entryPoint, priority, vma, entry);
    RegisteredView(s, p, entryPoint, priority, vma, entry);
    RegisteredRota(s.View(), r.View(), p, priority);
    assert StatesOk(r);
    assert ListsOk(base, r);
  }

  lemma RegisteredView(s: State, p: Pid, entryPoint: Word, priority: Count, vma: Word, entry: Word)
    requires s.Shaped()
    ensures Registered(s, p, entryPoint, priority, vma, entry).View()
            == Rota(s.queue + [p], s.View().count[p := priority], s.View().priority[p := priority])
  {
    var v := Registered(s, p, entryPoint, priority, vma, entry).View();
    assert v.count == s.View().count[p := priority];
    assert v.priority == s.View().priority[p := priority];
  }

  lemma RegisteredRota(v: Rota, v': Rota, p: Pid, priority: Count)
    requires v.Ok() && Fair(v) && p !in v.queue
    requires v' == Rota(v.queue + [p], v.count[p := priority], v.priority[p := priority])
    ensures v'.Ok() && Fair(v')
  {
    assert v'.queue[0] == v.queue[0];
  }

  /** In every reachable state exactly one process runs, and the page directory is the kernel's with the tables of that process. */
  lemma {:induction false} AlwaysOk(base: Slots, s: State, h: seq<Event>)
    requires Ok(base, s) && Allowed(s, h) && base.dir[STACK_SLOT] == 0 && base.lookup[STACK_SLOT] == 0
    ensures Ok(base, Run(s, h))
  {
    if h != [] {
      var g, e := h[..|h| - 1], h[|h| - 1];
      AlwaysOk(base, s, g);
      match e
      case Interrupt(frame) => TickKeeps(base, Run(s, g), frame);
      case Register(p, entryPoint, priority, vma, entry) => RegisteredKeeps(base, Run(s, g), p, entryPoint, priority, vma, entry);
    }
  }

  /** No slot of another process is left behind. */
  lemma NothingLeaks(base: Slots, s: State, h: seq<Event>, p: Pid, d: int)
    requires Ok(base, s) && Allowed(s, h) && base.dir[STACK_SLOT] == 0 && base.lookup[STACK_SLOT] == 0
    requires var t := Run(s, h); Uses(t.procs[p].pageTables, d) && !Uses(t.procs[t.pid].pageTables, d)
    ensures 0 <= d < ENTRIES && Run(s, h).slots.dir[d] == 0 && Run(s, h).slots.lookup[d] == 0
  {
    AlwaysOk(base, s, h);
    var t := Run(s, h);
    PrivateFree(base, t.procs[p].pageTables, d);
    MapOutside(base, t.procs[t.pid].pageTables, d);
  }

  // ----- Contexts -----

  /** The context that process `p` must go on with: what it was last interrupted in, or else what it was registered with. */
  ghost function Last(s: State, h: seq<Event>, p: Pid): Context
    requires s.Shaped()
  {
    if h == [] then s.procs[p].ctxt
    else
      var g := h[..|h| - 1];
      match h[|h| - 1]
      case Interrupt(frame) => if Run(s, g).pid == p then frame else Last(s, g, p)
      case Register(q, entryPoint, _, _, _) => if q == p then Launch(Last(s, g, p), entryPoint) else Last(s, g, p)
  }

  /** Whatever other processes do in between, a process goes on exactly where it was. */
  lemma {:induction false} ContextsAreKept(s: State, h: seq<Event>, p: Pid)
    requires s.Shaped()
    ensures Run(s, h).procs[p].ctxt == Last(s, h, p)
  {
    if h != [] {
      var g, e := h[..|h| - 1], h[|h| - 1];
      ContextsAreKept(s, g, p);
      if e.Interrupt? {
        NextKeepsRest(Stored(Run(s, g), e.frame), p);
      }
    }
  }

  // ----- Rounds -----

  ghost predicate AllInterrupts(h: seq<Event>) {
    forall i :: 0 <= i < |h| ==> h[i].Interrupt?
  }

  lemma {:induction false} InterruptsRotate(base: Slots, s: State, h: seq<Event>)
    requires Ok(base, s) && AllInterrupts(h)
    ensures Ok(base, Run(s, h)) && Run(s, h).View() == After(s.View(), |h|)
    ensures forall p: Pid :: Run(s, h).procs[p].pageTables == s.procs[p].pageTables
  {
    if h != [] {
      var g, e := h[..|h| - 1], h[|h| - 1];
      InterruptsRotate(base, s, g);
      TickKeeps(base, Run(s, g), e.frame);
      forall p: Pid ensures Run(s, h).procs[p].pageTables == s.procs[p].pageTables {
        NextKeepsRest(Stored(Run(s, g), e.frame), p);
      }
    }
  }

  /**
   * From every reachable state, a round of timer interrupts - as many as all priorities together - brings back everything but
   * the saved contexts: the queue, the running process, all counters and states, and the address space.
   */
  lemma RoundRestores(base: Slots, s: State, h: seq<Event>)
    requires Ok(base, s) && AllInterrupts(h) && |h| == Round(s.View())
    ensures Run(s, h).queue == s.queue && Run(s, h).pid == s.pid && Run(s, h).slots == s.slots
    ensures forall p: Pid :: Run(s, h).procs[p] == s.procs[p].(ctxt := Last(s, h, p))
  {
    InterruptsRotate(base, s, h);
    Periodic(s.View(), s.pid);
    var t := Run(s, h);
    assert t.View() == s.View();
    forall p: Pid ensures t.procs[p] == s.procs[p].(ctxt := Last(s, h, p)) {
      ContextsAreKept(s, h, p);
      assert t.View().count[p] == s.View().count[p] && t.View().priority[p] == s.View().priority[p];
    }
  }

  /** In that round the process that is current at an interrupt is `p` exactly as often as its priority says. */
  ghost function Current(s: State, h: seq<Event>, p: Pid): nat
    requires s.Shaped()
  {
    if h == [] then 0 else Current(s, h[..|h| - 1], p) + if Run(s, h[..|h| - 1]).pid == p then 1 else 0
  }

  lemma {:induction false} CurrentIsRuns(base: Slots, s: State, h: seq<Event>, p: Pid)
    requires Ok(base, s) && AllInterrupts(h)
    ensures Current(s, h, p) == Runs(s.View(), |h|, p)
  {
    if h != [] {
      CurrentIsRuns(base, s, h[..|h| - 1], p);
      InterruptsRotate(base, s, h[..|h| - 1]);
    }
  }

  lemma RoundIsFair(base: Slots, s: State, h: seq<Event>, p: Pid)
    requires Ok(base, s) && AllInterrupts(h) && |h| == Round(s.View())
    ensures Current(s, h, p) == if p in s.queue then Ticks(s.procs[p].priority) else 0
  {
    CurrentIsRuns(base, s, h, p);
    Periodic(s.View(), p);
  }

  // ----- Page tables stay reachable -----

  /** The table of a directory entry can be reached in the kernel's address space, at an address outside all private slots. */
  ghost predicate TableAt(t: Tables, vma: Word, entry: Word, private: set<int>)
    requires t.Shaped()
  {
    Present(entry) && vma % PAGE_SIZE == 0 && Translate(t, vma) == At(FrameOf(entry)) && DirIndex(vma) !in private
  }

  ghost predicate ReachableIn(t: Tables, l: PageList, private: set<int>)
    requires t.Shaped()
  {
    match l
    case NoTables => true
    case Table(d, vma, entry, rest) => d in private && TableAt(t, vma, entry, private) && ReachableIn(t, rest, private)
  }

  ghost predicate SlotsOutside(t: Tables, private: set<int>)
    requires t.Shaped()
  {
    forall d :: 0 <= d < ENTRIES && Present(t.dir[d]) ==> DirIndex(t.lookup[d]) !in private
  }

  lemma {:induction false} StillReachable(t: Tables, d: int, vma: Word, entry: Word, l: PageList, private: set<int>)
    requires t.Shaped() && 0 <= d < ENTRIES && d in private && ReachableIn(t, l, private)
    ensures ReachableIn(WithSlot(t, d, vma, entry), l, private)
    decreases l
  {
    if l.Table? {
      StillReachable(t, d, vma, entry, l.rest, private);
    }
  }

  /** A switch keeps the lookup table truthful: every table in the directory, private ones included, is where the lookup table says. */
  lemma {:induction false} MappedIsCoherent(t: Tables, l: PageList, private: set<int>)
    requires t.Shaped() && InRange(l) && Coherent(t) && ReachableIn(t, l, private) && SlotsOutside(t, private)
    ensures var s := MapList(Slots(t.dir, t.lookup), l);
      Coherent(t.(dir := s.dir, lookup := s.lookup))
    decreases l
  {
    if l.Table? {
      var t1 := WithSlot(t, l.dirIndex, l.vma, l.entry);
      assert FreeOfTables(t, l.dirIndex);
      assert Translate(t1, l.vma) == Translate(t, l.vma);
      SlotCoherent(t, l.dirIndex, l.vma, l.entry);
      StillReachable(t, l.dirIndex, l.vma, l.entry, l.rest, private);
      MappedIsCoherent(t1, l.rest, private);
    }
  }

  /** Every process that is registered in `h` gets a table that can be reached. */
  ghost predicate TablesGiven(t: Tables, h: seq<Event>, private: set<int>)
    requires t.Shaped()
  {
    forall i :: 0 <= i < |h| && h[i].Register? ==> TableAt(t, h[i].vma, h[i].entry, private)
  }

  lemma {:induction false} ListsReachable(s: State, h: seq<Event>, t: Tables, private: set<int>, p: Pid)
    requires s.Shaped() && t.Shaped() && STACK_SLOT in private && TablesGiven(t, h, private)
    requires ReachableIn(t, s.procs[p].pageTables, private)
    ensures ReachableIn(t, Run(s, h).procs[p].pageTables, private)
  {
    if h != [] {
      var g, e := h[..|h| - 1], h[|h| - 1];
      assert forall i :: 0 <= i < |g| ==> g[i] == h[i];
      ListsReachable(s, g, t, private, p);
      if e.Interrupt? {
        NextKeepsRest(Stored(Run(s, g), e.frame), p);
      }
    }
  }

  /**
   In every reachable state, whichever process runs, each table in the directory is where the lookup table says. `t` is the kernel's
   own directory with the contents of physical memory; the page tables of processes lie in kernel memory, outside the private slots.
   */
  lemma AlwaysCoherent(base: Slots, s: State, h: seq<Event>, t: Tables, private: set<int>)
    requires Ok(base, s) && Allowed(s, h) && base.dir[STACK_SLOT] == 0 && base.lookup[STACK_SLOT] == 0 && STACK_SLOT in private
    requires t.Shaped() && t.dir == base.dir && t.lookup == base.lookup && Coherent(t) && SlotsOutside(t, private)
    requires TablesGiven(t, h, private) && forall p: Pid :: ReachableIn(t, s.procs[p].pageTables, private)
    ensures Coherent(t.(dir := Run(s, h).slots.dir, lookup := Run(s, h).slots.lookup))
  {
    AlwaysOk(base, s, h);
    var p := Run(s, h).pid;
    ListsReachable(s, h, t, private, p);
    MappedIsCoherent(t, Run(s, h).procs[p].pageTables, private);
  }
}
