/** The process table, the run queue and the timer interrupt: proc.c. */
module Scheduler {
  import opened Machine
  import opened Frames
  import opened PageTables
  import opened Paging
  import opened Rotation
  import opened Processes
  import opened Histories

  class PidNode {
    var next: PidNode?
    const pid: Pid

    constructor (pid: Pid)
      ensures this.pid == pid && next == null
    {
      this.pid := pid;
      next := null;
    }
  }

  ghost function PidsOf(nodes: seq<PidNode>): seq<Pid> {
    seq(|nodes|, i requires 0 <= i < |nodes| => nodes[i].pid)
  }

  const USER_DATA_FLAGS: Flags := 7

  /** How far `p` is ahead of `start`, around the end of the numbering. */
  function Distance(start: Pid, p: Pid): (d: nat)
    ensures d < PID_MAX && (start + d) % PID_MAX == p
  {
    if start <= p then p - start else p - start + PID_MAX
  }

  /** `p` is free, and every identifier from `start` up to it is taken. */
  ghost predicate NearestFree(procs: seq<Proc>, start: Pid, p: Pid)
    requires |procs| == PID_MAX
  {
    procs[p].state == Dead && forall q: Pid :: Distance(start, q) < Distance(start, p) ==> procs[q].state != Dead
  }

  /** A process begins at `entryPoint`, in user mode and with interrupts on, at the end of the page below the kernel. */
  predicate StartsAt(c: Context, entryPoint: Word) {
    && c.eip == entryPoint && c.esp == 0xE000_0000 && c.eflags == 0x3202 && c.cs == 0x23
    && c.ss == 0x2B && c.ds == 0x2B && c.es == 0x2B && c.fs == 0x2B && c.gs == 0x2B
  }

  /** `pid` waits at the end of the queue with a whole slice and one page table; everything else about processes is as before. */
  ghost predicate Joined(s: State, s': State, pid: Pid, entryPoint: Word, priority: Count) {
    true == (
      && |s.procs| == PID_MAX && |s'.procs| == PID_MAX
      && s'.queue == s.queue + [pid] && s'.pid == s.pid && s'.slots == s.slots
      && (forall q: Pid :: q != pid ==> s'.procs[q] == s.procs[q])
      && var p := s'.procs[pid];
      && p.state == Active && p.execCount == priority && p.priority == priority && StartsAt(p.ctxt, entryPoint)
      && forall d :: Uses(p.pageTables, d) <==> d == 895)
  }

  /** The last word of the table in `frame` names the frame `stack`, and no other word is changed. */
  ghost predicate StackEntered(phys: seq<Word>, phys': seq<Word>, frame: Frame, stack: Frame) {
    true == (
      && |phys| == WORD_LIMIT && |phys'| == WORD_LIMIT && frame + 4092 < WORD_LIMIT
      && phys'[frame + 4092] == stack + 7
      && forall a :: 0 <= a < WORD_LIMIT && a != frame + 4092 ==> phys'[a] == phys[a])
  }

  /** Every address of the page below the kernel leads to the frame `stack`, where user code may write. */
  ghost predicate UserStack(slots: Slots, phys: seq<Word>, stack: Frame)
    requires slots.Shaped() && |phys| == WORD_LIMIT
  {
    var t := Tables(slots.dir, slots.lookup, phys);
    true == (forall a: Word :: a / PAGE_SIZE == 0xDFFFF ==>
      && Translate(t, a) == At(stack + a % PAGE_SIZE)
      && t.dir[DirIndex(a)] % 8 == 7 && Entry(t, DirIndex(a), TableIndex(a)) % PAGE_SIZE == 7)
  }

  class System {
    const procTable: array<Proc>
    const mmu: Mmu
    var procNum: Count
    var current: Pid
    var queueStart: PidNode?
    var queueEnd: PidNode?
    var nextPid: Pid
    /** The nodes of the queue, in order. */
    ghost var nodes: seq<PidNode>

    /** The start of `proc_init`: the kernel alone, running as process zero, over a table of zeros. */
    constructor (mmu: Mmu)
      requires mmu.Wired()
      ensures Valid(Slots(mmu.dir[..], mmu.lookup[..])) && this.mmu == mmu && nextPid == 0
      ensures Pids() == [0] && procTable[0].execCount == 1 && procTable[0].priority == 10
      ensures fresh(procTable) && fresh(nodes)
    {
      var zeros := Context(0, 0, 0, 0, 0, 0, 0, 0, 0, 0, 0, 0, 0, 0, 0, 0);
      var table := new Proc[PID_MAX](_ => Proc(Dead, zeros, 0, 0, NoTables));
      table[0] := Proc(Running, zeros, 1, 10, NoTables);
      ghost var first := table[..];
      assert FirstTable(first);
      procTable := table;
      this.mmu := mmu;
      queueStart, queueEnd, nodes := null, null, [];
      procNum, current, nextPid := 0, 0, 0;
      new;
      QueueAdd(0);
      procNum := procNum - 1;
      assert Pids() == [0];
      assert procTable[..] == first;
      FirstOk(S(), first);
    }

    ghost function Pids(): seq<Pid>
      reads `nodes
    {
      PidsOf(nodes)
    }

    ghost function S(): State
      reads `nodes, `current, procTable, mmu.dir, mmu.lookup
    {
      State(Pids(), current, procTable[..], Slots(mmu.dir[..], mmu.lookup[..]))
    }

    /** The queue is a chain of distinct nodes from `queueStart` to `queueEnd`, both null when there are none. */
    ghost predicate Chained()
      reads `nodes, `queueStart, `queueEnd, nodes
    {
      && (nodes == [] ==> queueStart == null && queueEnd == null)
      && (nodes != [] ==> queueStart == nodes[0] && queueEnd == nodes[|nodes| - 1] && nodes[|nodes| - 1].next == null)
      && (forall i, j :: 0 <= i < j < |nodes| ==> nodes[i] != nodes[j])
      && (forall i :: 0 <= i < |nodes| - 1 ==> nodes[i].next == nodes[i + 1])
    }

    ghost predicate Wired()
    {
      && procTable.Length == PID_MAX && mmu.Wired()
      && procTable as object != mmu.dir && procTable as object != mmu.lookup && procTable as object != mmu.phys
    }

    ghost predicate Valid(base: Slots)
      reads `nodes, `queueStart, `queueEnd, `current, `procNum, procTable, mmu.dir, mmu.lookup, nodes
    {
      Wired() && Chained() && Ok(base, S()) && procNum == |nodes| - 1
    }

    /** The four stores that move the head of the queue to its end. */
    method Rotate()
      requires Chained() && nodes != []
      modifies this`queueStart, this`queueEnd, this`nodes, nodes
      ensures Chained() && nodes == old(nodes)[1..] + [old(nodes)[0]]
    {
      queueEnd.next := queueStart;
      queueEnd := queueStart;
      queueStart := queueEnd.next;
      queueEnd.next := null;
      nodes := nodes[1..] + [nodes[0]];
    }

    /** `proc_mem_map`. */
    method MemMap(pid: Pid)
      requires procTable.Length == PID_MAX && mmu.Wired() && InRange(procTable[pid].pageTables)
      modifies mmu.dir, mmu.lookup
      ensures Slots(mmu.dir[..], mmu.lookup[..]) == MapList(old(Slots(mmu.dir[..], mmu.lookup[..])), old(procTable[pid]).pageTables)
      ensures procTable[..] == old(procTable[..])
    {
      ghost var start, procs := Slots(mmu.dir[..], mmu.lookup[..]), procTable[..];
      var n := procTable[pid].pageTables;
      ghost var all := n;
      while n.Table?
        invariant InRange(n) && procTable[..] == procs
        invariant MapList(Slots(mmu.dir[..], mmu.lookup[..]), n) == MapList(start, all)
        decreases n
      {
        mmu.SetDirEntry(n.dirIndex, n.vma, n.entry);
        n := n.rest;
      }
    }

    /** `proc_mem_unmap`. */
    method MemUnmap(pid: Pid)
      requires procTable.Length == PID_MAX && mmu.Wired() && InRange(procTable[pid].pageTables)
      modifies mmu.dir, mmu.lookup
      ensures Slots(mmu.dir[..], mmu.lookup[..]) == UnmapList(old(Slots(mmu.dir[..], mmu.lookup[..])), old(procTable[pid]).pageTables)
      ensures procTable[..] == old(procTable[..])
    {
      ghost var start, procs := Slots(mmu.dir[..], mmu.lookup[..]), procTable[..];
      var n := procTable[pid].pageTables;
      ghost var all := n;
      while n.Table?
        invariant InRange(n) && procTable[..] == procs
        invariant UnmapList(Slots(mmu.dir[..], mmu.lookup[..]), n) == UnmapList(start, all)
        decreases n
      {
        mmu.SetDirEntry(n.dirIndex, 0, 0);
        n := n.rest;
      }
    }

    /** The context switch in `proc_next`. */
    method SwitchProcess()
      requires Wired() && Chained() && S().Shaped()
      modifies this`queueStart, this`queueEnd, this`nodes, this`current, procTable, mmu.dir, mmu.lookup, nodes
      ensures Chained() && S() == Switch(old(S())) && |nodes| == old(|nodes|)
    {
      ghost var s := S();
      Leave();
      LeavingShaped(s);
      Enter();
    }

    /** The running process goes to the end of the queue, and its tables out of the directory. */
    method Leave()
      requires Wired() && Chained() && S().Shaped()
      modifies this`queueStart, this`queueEnd, this`nodes, procTable, mmu.dir, mmu.lookup, nodes
      ensures Chained() && S() == Leaving(old(S())) && |nodes| == old(|nodes|) && Wired()
    {
      ghost var s := S();
      procTable[current] := procTable[current].(execCount := procTable[current].priority);
      Rotate();
      assert Pids() == s.queue[1..] + [s.queue[0]];
      procTable[current] := procTable[current].(state := Active);
      MemUnmap(current);
    }

    /** The process at the start of the queue runs. */
    method Enter()
      requires Wired() && Chained() && S().Shaped()
      modifies this`current, procTable, mmu.dir, mmu.lookup
      ensures S() == Entering(old(S()))
    {
      current := queueStart.pid;
      MemMap(current);
      procTable[current] := procTable[current].(state := Running);
    }

    /** `proc_next`. */
    method ProcNext(ghost base: Slots)
      requires Valid(base)
      modifies this`queueStart, this`queueEnd, this`nodes, this`current, procTable, mmu.dir, mmu.lookup, nodes
      ensures S() == NextProcess(old(S())) && Valid(base)
    {
      ghost var s := S();
      procTable[current] := procTable[current].(execCount := Decremented(procTable[current].execCount));
      ghost var s1 := S();
      assert s1 == s.(procs := s.procs[s.pid := s.procs[s.pid].(execCount := Decremented(s.procs[s.pid].execCount))]);
      if procTable[current].execCount == 0 {
        SwitchProcess();
        SwitchIgnoresCount(s, s1);
      }
      NextKeeps(base, s);
    }

    /** The timer interrupt: store, next, load. Returns the context that the processor goes on with. */
    method TimerInterrupt(frame: Context, ghost base: Slots) returns (resumed: Context)
      requires Valid(base)
      modifies this`queueStart, this`queueEnd, this`nodes, this`current, procTable, mmu.dir, mmu.lookup, nodes
      ensures S() == Tick(old(S()), frame) && Valid(base) && resumed == S().procs[current].ctxt
    {
      ghost var s := S();
      procTable[current] := procTable[current].(ctxt := frame);
      StoredKeeps(base, s, frame);
      ProcNext(base);
      resumed := procTable[current].ctxt;
    }

    /** `proc_new_pid`: some identifier must be free. */
    method NewPid() returns (pid: Pid)
      requires procTable.Length == PID_MAX && exists p: Pid :: procTable[p].state == Dead
      modifies this`nextPid
      ensures NearestFree(procTable[..], old(nextPid), pid)
      ensures nextPid == (pid + 1) % PID_MAX
    {
      ghost var free: Pid :| procTable[free].state == Dead;
      ghost var start := nextPid;
      while procTable[nextPid].state != Dead
        invariant forall q: Pid :: Distance(start, q) < Distance(start, nextPid) ==> procTable[q].state != Dead
        invariant Distance(start, nextPid) <= Distance(start, free)
        decreases Distance(start, free) - Distance(start, nextPid)
      {
        assert forall q: Pid :: Distance(start, q) == Distance(start, nextPid) ==> q == nextPid;
        nextPid := (nextPid + 1) % PID_MAX;
      }
      pid := nextPid;
      nextPid := (nextPid + 1) % PID_MAX;
    }

    /** `proc_queue_add`. */
    method QueueAdd(pid: Pid)
      requires Chained()
      modifies this`queueStart, this`queueEnd, this`procNum, this`nodes, nodes
      ensures Chained() && Pids() == old(Pids()) + [pid]
      ensures |nodes| == old(|nodes|) + 1 && old(nodes) < nodes && fresh(nodes[|nodes| - 1])
      ensures procNum == (old(procNum) + 1) % PID_MAX
    {
      if queueEnd != null {
        var oldEnd := queueEnd;
        queueEnd := new PidNode(pid);
        oldEnd.next := queueEnd;
      } else {
        queueStart := new PidNode(pid);
        queueEnd := queueStart;
      }
      procNum := (procNum + 1) % PID_MAX;
      nodes := nodes + [queueEnd];
    }

    /** Maps the user stack in a new page table, in its last entry and nowhere else; returns the directory entry for the table. */
    method NewTable(table: Word, stack: Frame) returns (entry: Word)
      requires Wired() && Present(mmu.dir[DirIndex(table)]) && Found(mmu.T(), DirIndex(table))
      requires table % PAGE_SIZE == 0 && table + PAGE_SIZE < WORD_LIMIT && Translate(mmu.T(), table + PAGE_SIZE - 4).At?
      modifies mmu.phys
      ensures entry == TableFrame(old(mmu.T()), table) + 7
      ensures StackEntered(old(mmu.phys[..]), mmu.phys[..], TableFrame(old(mmu.T()), table), stack)
    {
      var pma := mmu.GetPma(table);
      AlignedRoom(pma);
      entry := pma + USER_DATA_FLAGS;
      AlignedRoom(stack);
      LastEntry();
      LastWord(mmu.T(), table);
      mmu.Store(table + 4 * TableIndex(KERNEL_START_VMA - PAGE_SIZE), stack + USER_DATA_FLAGS);
      assert mmu.T().phys == mmu.phys[..];
    }

    /**
     * `proc_register`, with the page that `kalloc` and the frame that `page_new` gave for the user stack.
     * The new identifier is the nearest free one, so no live process is touched.
     */
    method Register(entryPoint: Word, priority: Count, table: Word, stack: Frame, ghost base: Slots) returns (pid: Pid)
      requires Valid(base) && base.dir[STACK_SLOT] == 0 && base.lookup[STACK_SLOT] == 0
      requires exists p: Pid :: procTable[p].state == Dead
      requires Present(mmu.dir[DirIndex(table)]) && Found(mmu.T(), DirIndex(table))
      requires table % PAGE_SIZE == 0 && table + PAGE_SIZE < WORD_LIMIT && Translate(mmu.T(), table + PAGE_SIZE - 4).At?
      modifies this`queueStart, this`queueEnd, this`procNum, this`nodes, this`nextPid, procTable, mmu.phys, nodes
      ensures Valid(base) && NearestFree(old(procTable[..]), old(nextPid), pid)
      ensures TableFrame(old(mmu.T()), table) + 7 < WORD_LIMIT
      ensures S() == Registered(old(S()), pid, entryPoint, priority, table, TableFrame(old(mmu.T()), table) + 7)
      ensures StackEntered(old(mmu.phys[..]), mmu.phys[..], TableFrame(old(mmu.T()), table), stack)
      ensures Joined(old(S()), S(), pid, entryPoint, priority)
      ensures UserStack(MapList(base, procTable[pid].pageTables), mmu.phys[..], stack)
    {
      ghost var s, phys, frame := S(), mmu.phys[..], TableFrame(mmu.T(), table);
      pid := NewPid();
      var entry := NewTable(table, stack);
      ghost var phys' := mmu.phys[..];
      Admit(pid, entryPoint, priority, table, entry, base);
      assert mmu.phys[..] == phys';
      RegisteredJoins(base, s, pid, entryPoint, priority, table, entry);
      StackIsUsers(base, phys, phys', table, frame, entry, stack);
    }

    /** A new process on an identifier that nobody has. */
    method Admit(pid: Pid, entryPoint: Word, priority: Count, table: Word, entry: Word, ghost base: Slots)
      requires Valid(base) && base.dir[STACK_SLOT] == 0 && base.lookup[STACK_SLOT] == 0 && procTable[pid].state == Dead
      modifies this`queueStart, this`queueEnd, this`procNum, this`nodes, procTable, nodes
      ensures Valid(base) && S() == Registered(old(S()), pid, entryPoint, priority, table, entry)
    {
      ghost var s := S();
      var proc := procTable[pid];
      RegisteredKeeps(base, s, pid, entryPoint, priority, table, entry);
      QueueBound(Registered(s, pid, entryPoint, priority, table, entry));
      Enlist(pid, Proc(Active, Launch(proc.ctxt, entryPoint), priority, priority, Table(STACK_SLOT, table, entry, proc.pageTables)));
    }

    /** Fills in the table entry of a new process and queues it. */
    method Enlist(pid: Pid, proc: Proc)
      requires Wired() && Chained()
      modifies this`queueStart, this`queueEnd, this`procNum, this`nodes, procTable, nodes
      ensures Wired() && Chained() && S() == old(S()).(queue := old(S()).queue + [pid], procs := old(S()).procs[pid := proc])
      ensures |nodes| == old(|nodes|) + 1 && procNum == (old(procNum) + 1) % PID_MAX
    {
      ghost var s := S();
      procTable[pid] := proc;
      assert S() == s.(procs := s.procs[pid := proc]);
      QueueAdd(pid);
    }
  }

  /** The two halves of a switch. */
  ghost function Leaving(s: State): State
    requires s.Shaped()
  {
    var p := s.procs[s.pid].(execCount := s.procs[s.pid].priority, state := Active);
    s.(queue := s.queue[1..] + [s.queue[0]], procs := s.procs[s.pid := p], slots := UnmapList(s.slots, p.pageTables))
  }

  ghost function Entering(s: State): State
    requires s.Shaped()
  {
    var to := s.queue[0];
    s.(pid := to, procs := s.procs[to := s.procs[to].(state := Running)], slots := MapList(s.slots, s.procs[to].pageTables))
  }

  lemma LeavingShaped(s: State)
    requires s.Shaped()
    ensures Leaving(s).Shaped() && Entering(Leaving(s)) == Switch(s)
  {
  }

  /** The last word of a table lies at the end of its frame. */
  lemma LastWord(t: Tables, table: Word)
    requires t.Shaped() && table % PAGE_SIZE == 0 && table + PAGE_SIZE < WORD_LIMIT && Translate(t, table + PAGE_SIZE - 4).At?
    ensures Translate(t, table + PAGE_SIZE - 4) == At(TableFrame(t, table) + 4092) && TableFrame(t, table) + 4092 < WORD_LIMIT
  {
    SamePage(table, PAGE_SIZE - 4);
    AlignedRoom(TableFrame(t, table));
  }

  lemma RegisteredJoins(base: Slots, s: State, pid: Pid, entryPoint: Word, priority: Count, table: Word, entry: Word)
    requires Ok(base, s) && s.procs[pid].state == Dead
    ensures Joined(s, Registered(s, pid, entryPoint, priority, table, entry), pid, entryPoint, priority)
    ensures Registered(s, pid, entryPoint, priority, table, entry).procs[pid].pageTables == Table(STACK_SLOT, table, entry, NoTables)
  {
  }

  lemma MapOne(base: Slots, d: int, table: Word, entry: Word)
    requires base.Shaped() && 0 <= d < ENTRIES
    ensures MapList(base, Table(d, table, entry, NoTables)) == base.Set(d, table, entry)
  {
    var rest := NoTables;
    assert MapList(base.Set(d, table, entry), rest) == base.Set(d, table, entry);
  }

  lemma BelowKernel(a: Word)
    requires a / PAGE_SIZE == 0xDFFFF
    ensures DirIndex(a) == 895 && TableIndex(a) == ENTRIES - 1
  {
    IndexSplit(a, 0, 0, 0);
  }

  lemma UserEntry(frame: Frame, e: Word)
    requires e == frame + 7
    ensures FrameOf(e) == frame && Present(e) && e % PAGE_SIZE == 7 && e % 8 == 7
  {
    var q := frame / PAGE_SIZE;
    LowBits(q, e);
    DivUnique(e, PAGE_SIZE, q, 7);
  }

  lemma LowBits(q: nat, e: nat)
    requires e == 4096 * q + 7
    ensures e % 8 == 7 && e % 2 == 1
  {
    DivUnique(e, 8, 512 * q, 7);
    DivUnique(e, 2, 2048 * q + 3, 1);
  }

  /** An address of the page below the kernel, when its slot has a table that ends with the entry of the stack. */
  lemma StackAddress(t: Tables, frame: Frame, stack: Frame, a: Word)
    requires t.Shaped() && frame + 4092 < WORD_LIMIT && stack + 7 < WORD_LIMIT && a / PAGE_SIZE == 0xDFFFF
    requires t.dir[895] == frame + 7 && t.phys[frame + 4092] == stack + 7
    ensures Translate(t, a) == At(stack + a % PAGE_SIZE)
    ensures t.dir[DirIndex(a)] % 8 == 7 && Entry(t, DirIndex(a), TableIndex(a)) % PAGE_SIZE == 7
  {
    var d, e := t.dir[895], t.phys[frame + 4092];
    UserEntry(frame, d);
    UserEntry(stack, e);
    BelowKernel(a);
    var i := ENTRIES - 1;
    assert Entry(t, 895, i) == e;
  }

  /** A frame that ends with the entry of the stack, in the slot of the page below the kernel. */
  lemma StackIsUsers(base: Slots, phys: seq<Word>, phys': seq<Word>, table: Word, frame: Frame, entry: Word, stack: Frame)
    requires base.Shaped() && StackEntered(phys, phys', frame, stack) && entry == frame + 7
    ensures UserStack(MapList(base, Table(STACK_SLOT, table, entry, NoTables)), phys', stack)
  {
    MapOne(base, STACK_SLOT, table, entry);
    var slots := base.Set(STACK_SLOT, table, entry);
    var t := Tables(slots.dir, slots.lookup, phys');
    AlignedRoom(stack);
    forall a: Word | a / PAGE_SIZE == 0xDFFFF
      ensures Translate(t, a) == At(stack + a % PAGE_SIZE)
      ensures t.dir[DirIndex(a)] % 8 == 7 && Entry(t, DirIndex(a), TableIndex(a)) % PAGE_SIZE == 7
    {
      StackAddress(t, frame, stack, a);
    }
  }

  /** The user stack is in the last page of its slot. */
  lemma LastEntry()
    ensures TableIndex(KERNEL_START_VMA - PAGE_SIZE) == ENTRIES - 1 && DirIndex(KERNEL_START_VMA - PAGE_SIZE) == STACK_SLOT
  {
  }

  /** A switch sets the counter of the process that it leaves. */
  lemma SwitchIgnoresCount(s: State, s1: State)
    requires s.Shaped() && s1 == s.(procs := s.procs[s.pid := s.procs[s.pid].(execCount := 0)])
    requires s1.Shaped()
    ensures Switch(s1) == Switch(s)
  {
    assert s1.procs[s.pid := s.procs[s.pid].(execCount := s.procs[s.pid].priority, state := Active)]
        == s.procs[s.pid := s.procs[s.pid].(execCount := s.procs[s.pid].priority, state := Active)];
  }

  ghost predicate FirstTable(procs: seq<Proc>) {
    true == (
      && |procs| == PID_MAX && procs[0].state == Running && procs[0].execCount == 1 && procs[0].priority == 10 && procs[0].pageTables == NoTables
      && forall p: Pid :: p != 0 ==> procs[p].state == Dead && procs[p].pageTables == NoTables
    )
  }

  lemma FirstOk(s: State, first: seq<Proc>)
    requires FirstTable(first) && s.procs == first && s.queue == [0] && s.pid == 0 && s.slots.Shaped()
    ensures s.Shaped() && Ok(s.slots, s) && |first| == PID_MAX && first[0].execCount == 1 && first[0].priority == 10
  {
    assert s.View().count[0] == 1 && s.View().priority[0] == 10;
  }

  /** There are no more processes than identifiers. */
  lemma QueueBound(s: State)
    requires s.Shaped() && s.View().Ok()
    ensures |s.queue| <= PID_MAX
  {
    PidsBound(s.queue, PID_MAX);
  }

  lemma {:induction false} PidsBound(queue: seq<Pid>, n: nat)
    requires forall i, j :: 0 <= i < j < |queue| ==> queue[i] != queue[j]
    requires forall i :: 0 <= i < |queue| ==> queue[i] < n
    ensures |queue| <= n
  {
    if queue != [] {
      assert queue[0] < n;
      if k :| 0 <= k < |queue| && queue[k] == n - 1 {
        PidsBound(queue[..k] + queue[k + 1..], n - 1);
      } else {
        PidsBound(queue, n - 1);
      }
    }
  }
}
