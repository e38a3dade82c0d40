/** The order in which processes run: the counting half of proc_next (proc.c), on values. */
module Rotation {
  /** `pid_t` and `pc_t`, both 16 bits wide. */
  const PID_MAX: int := 0x1_0000

  type Pid = x: int | 0 <= x < PID_MAX
  type Count = x: int | 0 <= x < PID_MAX

  /** The run queue, and the counter and the priority of every process. The head of the queue is running. */
  datatype Rota = Rota(queue: seq<Pid>, count: seq<Count>, priority: seq<Count>) {
    ghost predicate Ok() {
      true == (
        && queue != [] && |count| == PID_MAX && |priority| == PID_MAX
        && (forall i, j :: 0 <= i < j < |queue| ==> queue[i] != queue[j]))
    }
  }

  /** Ticks that a counter is worth: it is decremented before it is compared with zero, and wraps around. */
  function Ticks(c: Count): (n: nat)
    ensures 0 < n <= PID_MAX
  {
    if c == 0 then PID_MAX else c
  }

  function Decremented(c: Count): Count {
    if c == 0 then PID_MAX - 1 else c - 1
  }

  /** One timer interrupt. */
  function Next(r: Rota): Rota
    requires r.Ok()
  {
    var p := r.queue[0];
    var left := Decremented(r.count[p]);
    if left != 0 then r.(count := r.count[p := left])
    else r.(queue := r.queue[1..] + [p], count := r.count[p := r.priority[p]])
  }

  lemma NextOk(r: Rota)
    requires r.Ok()
    ensures Next(r).Ok() && Next(r).priority == r.priority
    ensures forall p :: p in Next(r).queue <==> p in r.queue
  {
  }

  function After(r: Rota, n: nat): (s: Rota)
    requires r.Ok()
    ensures s.Ok()
  {
    if n == 0 then r
    else
      var s := After(r, n - 1);
      NextOk(s);
      Next(s)
  }

  /** How many of the next `n` ticks process `p` runs for. */
  function Runs(r: Rota, n: nat, p: Pid): nat
    requires r.Ok()
  {
    if n == 0 then 0 else Runs(r, n - 1, p) + if After(r, n - 1).queue[0] == p then 1 else 0
  }

  lemma {:induction false} AfterAfter(r: Rota, a: nat, b: nat, p: Pid)
    requires r.Ok()
    ensures After(r, a + b) == After(After(r, a), b)
    ensures Runs(r, a + b, p) == Runs(r, a, p) + Runs(After(r, a), b, p)
  {
    if b != 0 {
      AfterAfter(r, a, b - 1, p);
    }
  }

  /** As long as the head has ticks left, only its counter moves. */
  lemma {:induction false} WithinSlice(r: Rota, n: nat, p: Pid)
    requires r.Ok() && n < Ticks(r.count[r.queue[0]])
    ensures var c := r.count[r.queue[0]];
      After(r, n) == r.(count := r.count[r.queue[0] := if n == 0 then c else Ticks(c) - n])
    ensures Runs(r, n, p) == if p == r.queue[0] then n else 0
  {
    if n != 0 {
      WithinSlice(r, n - 1, p);
    }
  }

  /** Then it goes to the end of the queue, with a counter as good as its priority. */
  lemma Turn(r: Rota, p: Pid)
    requires r.Ok()
    ensures var h := r.queue[0];
      && After(r, Ticks(r.count[h])) == r.(queue := r.queue[1..] + [h], count := r.count[h := r.priority[h]])
      && Runs(r, Ticks(r.count[h]), p) == if p == h then Ticks(r.count[h]) else 0
  {
    var c := r.count[r.queue[0]];
    WithinSlice(r, Ticks(c) - 1, p);
  }

  /** Every process has its whole slice ahead. */
  ghost predicate Full(r: Rota)
    requires r.Ok()
  {
    forall p :: p in r.queue ==> r.count[p] == r.priority[p]
  }

  function TicksOf(queue: seq<Pid>, priority: seq<Count>): nat
    requires |priority| == PID_MAX
  {
    if queue == [] then 0 else TicksOf(queue[..|queue| - 1], priority) + Ticks(priority[queue[|queue| - 1]])
  }

  lemma TicksOfMore(queue: seq<Pid>, priority: seq<Count>, k: nat)
    requires |priority| == PID_MAX && k < |queue|
    ensures TicksOf(queue[..k + 1], priority) == TicksOf(queue[..k], priority) + Ticks(priority[queue[k]])
  {
    assert queue[..k + 1][..k] == queue[..k];
  }

  function Turned(r: Rota, k: nat): Rota
    requires k <= |r.queue|
  {
    r.(queue := r.queue[k..] + r.queue[..k])
  }

  lemma OneMoreTurn(r: Rota, k: nat, p: Pid)
    requires r.Ok() && Full(r) && k < |r.queue| && Turned(r, k).Ok()
    ensures After(Turned(r, k), Ticks(r.priority[r.queue[k]])) == Turned(r, k + 1)
    ensures Runs(Turned(r, k), Ticks(r.priority[r.queue[k]]), p) == if p == r.queue[k] then Ticks(r.priority[p]) else 0
  {
    var s := Turned(r, k);
    assert s.queue[0] == r.queue[k] && r.queue[k] in r.queue;
    Turn(s, p);
    assert s.queue[1..] + [r.queue[k]] == r.queue[k + 1..] + r.queue[..k + 1];
    assert r.count[r.queue[k] := r.priority[r.queue[k]]] == r.count;
  }

  /** After `t` ticks the queue is rotated `k` places, and each process in front has run for its slice. */
  ghost predicate TurnsTaken(r: Rota, k: nat, t: nat, p: Pid)
    requires r.Ok()
  {
    true == (
      && k <= |r.queue| && After(r, t) == Turned(r, k)
      && Runs(r, t, p) == if p in r.queue[..k] then Ticks(r.priority[p]) else 0)
  }

  lemma {:induction false} Turns(r: Rota, k: nat, p: Pid)
    requires r.Ok() && Full(r) && k <= |r.queue|
    ensures TurnsTaken(r, k, TicksOf(r.queue[..k], r.priority), p)
  {
    if k == 0 {
      NoTurn(r, p);
    } else {
      Turns(r, k - 1, p);
      TicksOfMore(r.queue, r.priority, k - 1);
      NextTurn(r, k - 1, TicksOf(r.queue[..k - 1], r.priority), p);
    }
  }

  lemma NoTurn(r: Rota, p: Pid)
    requires r.Ok()
    ensures TurnsTaken(r, 0, 0, p) && TicksOf(r.queue[..0], r.priority) == 0
  {
    assert r.queue[0..] + r.queue[..0] == r.queue;
  }

  lemma NextTurn(r: Rota, k: nat, t: nat, p: Pid)
    requires r.Ok() && Full(r) && k < |r.queue| && TurnsTaken(r, k, t, p)
    ensures TurnsTaken(r, k + 1, t + Ticks(r.priority[r.queue[k]]), p)
  {
    OneMoreTurn(r, k, p);
    AfterAfter(r, t, Ticks(r.priority[r.queue[k]]), p);
    Unrepeated(r, k, p);
  }

  lemma Unrepeated(r: Rota, k: nat, p: Pid)
    requires r.Ok() && k < |r.queue|
    ensures r.queue[k] !in r.queue[..k]
    ensures p in r.queue[..k + 1] <==> p in r.queue[..k] || p == r.queue[k]
  {
    assert r.queue[..k + 1] == r.queue[..k] + [r.queue[k]];
  }

  /** The ticks of one round. */
  function Round(r: Rota): nat
    requires r.Ok()
  {
    TicksOf(r.queue, r.priority)
  }

  /** Everybody but the running process has its whole slice ahead, and the running one no more than that. */
  ghost predicate Fair(r: Rota)
    requires r.Ok()
  {
    && (forall p :: p in r.queue && p != r.queue[0] ==> r.count[p] == r.priority[p])
    && Ticks(r.count[r.queue[0]]) <= Ticks(r.priority[r.queue[0]])
  }

  lemma FairStays(r: Rota)
    requires r.Ok() && Fair(r)
    ensures Next(r).Ok() && Fair(Next(r))
  {
    NextOk(r);
    var n := Next(r);
  }

  /**
   * From every such state a round brings back the queue, with the same process running, and all counters;
   * and in a round each process runs for exactly its priority (65536 ticks if that is zero).
   */
  lemma Periodic(r: Rota, p: Pid)
    requires r.Ok() && Fair(r)
    ensures After(r, Round(r)) == r
    ensures Runs(r, Round(r), p) == if p in r.queue then Ticks(r.priority[p]) else 0
  {
    var full, used := FullState(r, p);
    WholeRound(full, p);
    Cycle(full, r, used, Round(full), p);
  }

  /** What brings back one state brings back every state that follows it. */
  lemma Cycle(r: Rota, s: Rota, used: nat, round: nat, p: Pid)
    requires r.Ok() && After(r, used) == s && After(r, round) == r
    ensures s.Ok() && After(s, round) == s && Runs(s, round, p) == Runs(r, round, p)
  {
    AfterAfter(r, used, round, p);
    AfterAfter(r, round, used, p);
  }

  lemma WholeRound(r: Rota, p: Pid)
    requires r.Ok() && Full(r)
    ensures After(r, Round(r)) == r
    ensures Runs(r, Round(r), p) == if p in r.queue then Ticks(r.priority[p]) else 0
  {
    Turns(r, |r.queue|, p);
    assert r.queue[..|r.queue|] == r.queue;
    assert r.queue[|r.queue|..] + r.queue == r.queue;
  }

  /** The state in which the running process got its turn. */
  lemma FullState(r: Rota, p: Pid) returns (full: Rota, used: nat)
    requires r.Ok() && Fair(r)
    ensures full.Ok() && Full(full) && full.queue == r.queue && full.priority == r.priority
    ensures After(full, used) == r
  {
    var h := r.queue[0];
    full := r.(count := r.count[h := r.priority[h]]);
    used := Ticks(r.priority[h]) - Ticks(r.count[h]);
    WithinSlice(full, used, p);
    assert full.count[h := r.count[h]] == r.count;
  }

  lemma {:induction false} RanBefore(r: Rota, n: nat, p: Pid) returns (k: nat)
    requires r.Ok() && Runs(r, n, p) > 0
    ensures k < n && After(r, k).queue[0] == p
  {
    if After(r, n - 1).queue[0] == p {
      k := n - 1;
    } else {
      k := RanBefore(r, n - 1, p);
    }
  }

  /** So no process ever waits longer than a round. */
  lemma NobodyStarves(r: Rota, p: Pid) returns (n: nat)
    requires r.Ok() && Fair(r) && p in r.queue
    ensures n < Round(r) && After(r, n).queue[0] == p
  {
    Periodic(r, p);
    n := RanBefore(r, Round(r), p);
  }
}
