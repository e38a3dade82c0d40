/** Processes and the switch between them (proc.c), on values. */
module Processes {
  import opened Machine
  import opened Frames
  import opened PageTables
  import opened Rotation

  datatype Context = Context(
    ds: Word, es: Word, fs: Word, gs: Word,
    eax: Word, ecx: Word, edx: Word, ebx: Word, ebp: Word, esi: Word, edi: Word,
    eip: Word, cs: Word, eflags: Word, esp: Word, ss: Word)

  datatype RunState = Dead | Sleeping | Active | Running

  /** The list of page tables of a process; its nodes never change once made. */
  datatype PageList = NoTables | Table(dirIndex: int, vma: Word, entry: Word, rest: PageList)

  /** The fields of `proc_t` that proc.c reads. */
  datatype Proc = Proc(state: RunState, ctxt: Context, execCount: Count, priority: Count, pageTables: PageList)

  /** `page_dir` and `page_table_lookup`. */
  datatype Slots = Slots(dir: seq<Word>, lookup: seq<Word>) {
    predicate Shaped() {
      |dir| == ENTRIES && |lookup| == ENTRIES
    }

    function Set(d: int, vma: Word, entry: Word): Slots
      requires Shaped() && 0 <= d < ENTRIES
    {
      Slots(dir[d := entry], lookup[d := vma])
    }
  }

  // ----- Address spaces -----

  predicate InRange(l: PageList) {
    match l
    case NoTables => true
    case Table(d, _, _, rest) => 0 <= d < ENTRIES && InRange(rest)
  }

  predicate Uses(l: PageList, d: int) {
    match l
    case NoTables => false
    case Table(e, _, _, rest) => d == e || Uses(rest, d)
  }

  /** `proc_mem_map`. */
  function MapList(s: Slots, l: PageList): (r: Slots)
    requires s.Shaped() && InRange(l)
    ensures r.Shaped()
    decreases l
  {
    match l
    case NoTables => s
    case Table(d, vma, entry, rest) => MapList(s.Set(d, vma, entry), rest)
  }

  /** `proc_mem_unmap`. */
  function UnmapList(s: Slots, l: PageList): (r: Slots)
    requires s.Shaped() && InRange(l)
    ensures r.Shaped()
    decreases l
  {
    match l
    case NoTables => s
    case Table(d, _, _, rest) => UnmapList(s.Set(d, 0, 0), rest)
  }

  lemma {:induction false} MapOutside(s: Slots, l: PageList, d: int)
    requires s.Shaped() && InRange(l) && 0 <= d < ENTRIES && !Uses(l, d)
    ensures MapList(s, l).dir[d] == s.dir[d] && MapList(s, l).lookup[d] == s.lookup[d]
    decreases l
  {
    if l.Table? {
      MapOutside(s.Set(l.dirIndex, l.vma, l.entry), l.rest, d);
    }
  }

  lemma {:induction false} UnmapAt(s: Slots, l: PageList, d: int)
    requires s.Shaped() && InRange(l) && 0 <= d < ENTRIES
    ensures UnmapList(s, l).dir[d] == (if Uses(l, d) then 0 else s.dir[d])
    ensures UnmapList(s, l).lookup[d] == (if Uses(l, d) then 0 else s.lookup[d])
    decreases l
  {
    if l.Table? {
      UnmapAt(s.Set(l.dirIndex, 0, 0), l.rest, d);
    }
  }

  /** The slots of a list are free in the kernel's own address space, and each is used once. */
  predicate Private(base: Slots, l: PageList)
    requires base.Shaped()
  {
    match l
    case NoTables => true
    case Table(d, _, _, rest) =>
      0 <= d < ENTRIES && base.dir[d] == 0 && base.lookup[d] == 0 && !Uses(rest, d) && Private(base, rest)
  }

  lemma {:induction false} PrivateFree(base: Slots, l: PageList, d: int)
    requires base.Shaped() && Private(base, l)
    ensures InRange(l)
    ensures Uses(l, d) ==> 0 <= d < ENTRIES && base.dir[d] == 0 && base.lookup[d] == 0
  {
    if l.Table? {
      PrivateFree(base, l.rest, d);
    }
  }

  /** Taking a process's tables out restores the kernel's own address space. */
  lemma UnmapUndoesMap(base: Slots, l: PageList)
    requires base.Shaped() && Private(base, l)
    ensures InRange(l) && UnmapList(MapList(base, l), l) == base
  {
    PrivateFree(base, l, 0);
    var r := UnmapList(MapList(base, l), l);
    forall d | 0 <= d < ENTRIES ensures r.dir[d] == base.dir[d] && r.lookup[d] == base.lookup[d] {
      UnmapAt(MapList(base, l), l, d);
      PrivateFree(base, l, d);
      if !Uses(l, d) {
        MapOutside(base, l, d);
      }
    }
    assert r.dir == base.dir && r.lookup == base.lookup;
  }

  /** While a process's tables are in, each of its slots holds its own entry, and every other slot is the kernel's. */
  lemma {:induction false} MapInside(base: Slots, l: PageList, n: PageList)
    requires base.Shaped() && Private(base, l) && InRange(l) && Within(n, l)
    ensures 0 <= n.dirIndex < ENTRIES
    ensures MapList(base, l).dir[n.dirIndex] == n.entry && MapList(base, l).lookup[n.dirIndex] == n.vma
    decreases l
  {
    var s := base.Set(l.dirIndex, l.vma, l.entry);
    if n == l {
      MapOutside(s, l.rest, l.dirIndex);
    } else {
      StillPrivate(base, s, l.rest, l.dirIndex);
      MapInside(s, l.rest, n);
    }
  }

  /** `n` is a node of the list `l`. */
  predicate Within(n: PageList, l: PageList) {
    n.Table? && l.Table? && (n == l || Within(n, l.rest))
  }

  lemma {:induction false} StillPrivate(base: Slots, s: Slots, l: PageList, d: int)
    requires base.Shaped() && s.Shaped() && Private(base, l) && !Uses(l, d)
    requires forall e :: 0 <= e < ENTRIES && e != d ==> s.dir[e] == base.dir[e] && s.lookup[e] == base.lookup[e]
    ensures Private(s, l)
  {
    if l.Table? {
      StillPrivate(base, s, l.rest, d);
    }
  }

  // ----- Steps -----

  datatype State = State(queue: seq<Pid>, pid: Pid, procs: seq<Proc>, slots: Slots) {
    ghost predicate Shaped() {
      |procs| == PID_MAX && slots.Shaped() && queue != [] && forall p: Pid :: InRange(procs[p].pageTables)
    }

    /** What the order of the processes depends on. */
    ghost function View(): Rota
      requires |procs| == PID_MAX
    {
      Rota(queue, Counters(procs), Priorities(procs))
    }
  }

  ghost function Counters(procs: seq<Proc>): seq<Count> {
    seq(|procs|, p requires 0 <= p < |procs| => procs[p].execCount)
  }

  ghost function Priorities(procs: seq<Proc>): seq<Count> {
    seq(|procs|, p requires 0 <= p < |procs| => procs[p].priority)
  }

  /** The part of `proc_next` that changes processes. */
  ghost function Switch(s: State): (r: State)
    requires s.Shaped()
    ensures r.Shaped()
  {
    var from, to := s.pid, (s.queue[1..] + [s.queue[0]])[0];
    var p := s.procs[from].(execCount := s.procs[from].priority, state := Active);
    var procs := s.procs[from := p];
    State(s.queue[1..] + [s.queue[0]], to, procs[to := procs[to].(state := Running)],
          MapList(UnmapList(s.slots, p.pageTables), procs[to].pageTables))
  }

  /** `proc_next`. */
  ghost function NextProcess(s: State): (r: State)
    requires s.Shaped()
    ensures r.Shaped()
  {
    var left := Decremented(s.procs[s.pid].execCount);
    if left == 0 then Switch(s) else s.(procs := s.procs[s.pid := s.procs[s.pid].(execCount := left)])
  }

  /** `proc_store_ctxt`. */
  ghost function Stored(s: State, frame: Context): (r: State)
    requires s.Shaped()
    ensures r.Shaped()
  {
    s.(procs := s.procs[s.pid := s.procs[s.pid].(ctxt := frame)])
  }

  /** A timer interrupt that finds the processor in `frame`; the processor goes on with the context of the process then current. */
  ghost function Tick(s: State, frame: Context): (r: State)
    requires s.Shaped()
    ensures r.Shaped()
  {
    NextProcess(Stored(s, frame))
  }

  // ----- The invariant -----

  /** Exactly the process at the head of the queue runs, the others in the queue are ready, and nobody else is alive. */
  ghost predicate StatesOk(s: State)
    requires s.Shaped()
  {
    true == (s.pid == s.queue[0]
      && forall p: Pid :: s.procs[p].state == if p == s.pid then Running else if p in s.queue then Active else Dead)
  }

  /** The slots of every process are its own, on top of the kernel's; processes that are not alive have none. */
  ghost predicate ListsOk(base: Slots, s: State)
    requires s.Shaped() && base.Shaped()
  {
    true == (forall p: Pid :: Private(base, s.procs[p].pageTables) && (p in s.queue || s.procs[p].pageTables == NoTables))
  }

  ghost predicate Ok(base: Slots, s: State) {
    && s.Shaped() && base.Shaped()
    && s.View().Ok() && Fair(s.View())
    && StatesOk(s) && ListsOk(base, s)
    && s.slots == MapList(base, s.procs[s.pid].pageTables)
  }

  lemma NextView(s: State)
    requires s.Shaped() && s.View().Ok() && s.pid == s.queue[0]
    ensures NextProcess(s).View() == Next(s.View())
  {
    var n, v := NextProcess(s), Next(s.View());
    assert n.View().count == v.count;
    assert n.View().priority == v.priority;
  }

  /** Contexts, priorities and page tables stay with their processes. */
  lemma NextKeepsRest(s: State, p: Pid)
    requires s.Shaped()
    ensures NextProcess(s).procs[p].ctxt == s.procs[p].ctxt && NextProcess(s).procs[p].pageTables == s.procs[p].pageTables
    ensures NextProcess(s).procs[p].priority == s.procs[p].priority
  {
  }

  lemma NextStates(s: State)
    requires s.Shaped() && StatesOk(s) && s.View().Ok()
    ensures StatesOk(NextProcess(s))
    ensures forall p: Pid :: p in NextProcess(s).queue <==> p in s.queue
  {
    NextView(s);
    NextOk(s.View());
  }

  lemma NextSlots(base: Slots, s: State)
    requires Ok(base, s)
    ensures NextProcess(s).slots == MapList(base, NextProcess(s).procs[NextProcess(s).pid].pageTables)
  {
    var left := Decremented(s.procs[s.pid].execCount);
    if left == 0 {
      UnmapUndoesMap(base, s.procs[s.pid].pageTables);
    }
  }

  lemma NextKeeps(base: Slots, s: State)
    requires Ok(base, s)
    ensures Ok(base, NextProcess(s)) && NextProcess(s).View() == Next(s.View())
  {
    NextView(s);
    FairStays(s.View());
    NextStates(s);
    NextSlots(base, s);
    forall p: Pid ensures NextProcess(s).procs[p].pageTables == s.procs[p].pageTables {
      NextKeepsRest(s, p);
    }
  }

  lemma StoredKeeps(base: Slots, s: State, frame: Context)
    requires Ok(base, s)
    ensures Ok(base, Stored(s, frame)) && Stored(s, frame).View() == s.View()
  {
    assert Stored(s, frame).View().count == s.View().count;
    assert Stored(s, frame).View().priority == s.View().priority;
  }

  lemma TickKeeps(base: Slots, s: State, frame: Context)
    requires Ok(base, s)
    ensures Ok(base, Tick(s, frame)) && Tick(s, frame).View() == Next(s.View())
  {
    StoredKeeps(base, s, frame);
    NextKeeps(base, Stored(s, frame));
  }
}
