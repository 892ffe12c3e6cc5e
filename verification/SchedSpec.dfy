/** One call of `Schedule` (src/process/Scheduler/Scheduler.cpp) as a step on a value, and the fairness of many. */
module SchedSpec {
  import opened Common
  import opened Vectors

  datatype ProcessState = Dying | Ready | Sleeping | Running

  /** The saved registers of a process (inc/process/process.h:14-36). */
  datatype ProcessContext = ProcessContext(
    r15: nat, r14: nat, r13: nat, r12: nat, r11: nat, r10: nat, r9: nat, r8: nat, rbp: nat, rdi: nat, rsi: nat, rdx: nat,
    rcx: nat, rbx: nat, rax: nat, rip: nat, cs: nat, rflags: nat, rsp: nat, ss: nat)

  datatype Proc = Proc(state: ProcessState, active: nat, slice: nat, defaultSlice: nat, context: ProcessContext)

  datatype Cpu<P> = Cpu(current: Option<P>, idle: P, queue: seq<P>)

  type Procs<P(==)> = map<P, Proc>

  /** What the code reads exists. */
  predicate Known<P(==)>(cpu: Cpu<P>, procs: Procs<P>) {
    && cpu.idle in procs
    && (cpu.current.Some? ==> cpu.current.value in procs)
    && (forall p :: p in cpu.queue ==> p in procs)
  }

  /** Lines 89-98 have used up the slice, or there was no process: the call goes on to the lock. */
  predicate SliceOver<P(==)>(cpu: Cpu<P>, procs: Procs<P>)
    requires Known(cpu, procs)
  {
    cpu.current.None? || procs[cpu.current.value].slice == 0
  }

  /** Lines 89-98: count the tick and the slice down. */
  function Ticked<P(==)>(cpu: Cpu<P>, procs: Procs<P>): Procs<P>
    requires Known(cpu, procs)
  {
    match cpu.current
    case None => procs
    case Some(p) =>
      var q := procs[p];
      procs[p := q.(active := q.active + 1, slice := if q.slice > 0 then q.slice - 1 else 0)]
  }

  /** The queue after the running process has gone to the back. */
  function Rotated<P>(queue: seq<P>): seq<P>
    requires queue != []
  {
    queue[1..] + [queue[0]]
  }

  /** What lines 106-134 do to the CPU. */
  function Switched<P(==)>(cpu: Cpu<P>, procs: Procs<P>): Cpu<P>
    requires Known(cpu, procs)
  {
    if cpu.current.None? || cpu.queue == [] then cpu.(current := Some(cpu.idle))
    else
      var p := cpu.current.value;
      if procs[p].state.Dying? then Cpu(Some(cpu.idle), cpu.idle, Remove(cpu.queue, p))
      else if p == cpu.idle then cpu.(current := Some(cpu.queue[0]))
      else
        var queue := cpu.queue[1..] + [p];
        Cpu(Some(queue[0]), cpu.idle, queue)
  }

  /** What lines 106-134 do to the processes: save the frame of the one that goes, refill both slices. */
  function Saved<P(==)>(cpu: Cpu<P>, procs: Procs<P>, frame: ProcessContext): Procs<P>
    requires Known(cpu, procs)
  {
    if cpu.current.None? || cpu.queue == [] || procs[cpu.current.value].state.Dying? then procs
    else
      var p := cpu.current.value;
      var saved := if p == cpu.idle then procs
                   else procs[p := procs[p].(slice := procs[p].defaultSlice, context := frame)];
      var n := if p == cpu.idle then cpu.queue[0] else (cpu.queue[1..] + [p])[0];
      saved[n := saved[n].(slice := saved[n].defaultSlice)]
  }

  /** A whole uncontended call. */
  function Call<P(==)>(cpu: Cpu<P>, procs: Procs<P>, frame: ProcessContext): (Cpu<P>, Procs<P>)
    requires Known(cpu, procs)
  {
    var ticked := Ticked(cpu, procs);
    if SliceOver(cpu, procs) then (Switched(cpu, ticked), Saved(cpu, ticked, frame)) else (cpu, ticked)
  }

  // ---------- the invariant of one CPU ----------

  predicate NoDuplicates<P(==)>(queue: seq<P>) {
    forall i, j :: 0 <= i < j < |queue| ==> queue[i] != queue[j]
  }

  /** The current process is none, idle, or the head of the queue. */
  predicate CpuOk<P(==)>(cpu: Cpu<P>, procs: Procs<P>) {
    && Known(cpu, procs) && NoDuplicates(cpu.queue) && cpu.idle !in cpu.queue
    && (cpu.current.None? || cpu.current.value == cpu.idle || (cpu.queue != [] && cpu.current.value == cpu.queue[0]))
    && procs[cpu.idle].slice == 0 && procs[cpu.idle].defaultSlice == 0 && !procs[cpu.idle].state.Dying?
  }

  lemma RemoveHead<P>(queue: seq<P>, p: P)
    ensures p !in queue ==> Remove(queue, p) == queue
    ensures queue != [] && queue[0] == p ==> Remove(queue, p) == queue[1..]
  {
    RemoveNone(queue, p);
  }

  /** One switch keeps the invariant; the queue is kept, rotated, or loses a dying head. */
  lemma SwitchOk<P>(cpu: Cpu<P>, procs: Procs<P>, frame: ProcessContext)
    requires CpuOk(cpu, procs)
    ensures var cpu1, procs1 := Switched(cpu, procs), Saved(cpu, procs, frame);
            && CpuOk(cpu1, procs1) && procs1.Keys == procs.Keys && cpu1.idle == cpu.idle && cpu1.current.Some?
            && (cpu1.queue == cpu.queue ||
                (cpu.queue != [] && cpu.current == Some(cpu.queue[0]) &&
                 if procs[cpu.queue[0]].state.Dying? then cpu1.queue == cpu.queue[1..]
                 else cpu1.queue == Rotated(cpu.queue)))
  {
    if cpu.current.Some? && cpu.queue != [] {
      RemoveHead(cpu.queue, cpu.current.value);
    }
  }

  /** The process is running and will be put at the back. */
  predicate Preempted<P(==)>(cpu: Cpu<P>, procs: Procs<P>, p: P)
    requires Known(cpu, procs)
  {
    cpu.current == Some(p) && p in procs && p != cpu.idle && cpu.queue != [] && !procs[p].state.Dying?
  }

  /** Exactly what one switch does. Without a process, without a queue, or if the process is dying, the idle process is
      next, otherwise the head of the queue, where a running process has gone to the back before. */
  lemma SwitchExact<P>(cpu: Cpu<P>, procs: Procs<P>, frame: ProcessContext)
    requires CpuOk(cpu, procs)
    ensures var cpu1 := Switched(cpu, procs);
            if cpu.current.None? || cpu.queue == [] then cpu1.current == Some(cpu.idle) && cpu1.queue == cpu.queue
            else if procs[cpu.current.value].state.Dying? then
              cpu1.current == Some(cpu.idle) && cpu1.queue == cpu.queue[1..] && cpu.current == Some(cpu.queue[0])
            else
              && cpu1.current == Some(cpu1.queue[0])
              && cpu1.queue == if cpu.current == Some(cpu.idle) then cpu.queue else cpu.queue[1..] + [cpu.queue[0]]
  {
    if cpu.current.Some? && cpu.queue != [] {
      RemoveHead(cpu.queue, cpu.current.value);
    }
  }

  /** And what it does to each process: only the one preempted gets the frame; it and the one that runs next get a full
      slice; nothing else changes. */
  lemma SavedExact<P>(cpu: Cpu<P>, procs: Procs<P>, frame: ProcessContext, p: P)
    requires CpuOk(cpu, procs) && p in procs
    ensures var cpu1, procs1 := Switched(cpu, procs), Saved(cpu, procs, frame);
            && p in procs1 && procs1[p].state == procs[p].state && procs1[p].active == procs[p].active
            && procs1[p].defaultSlice == procs[p].defaultSlice
            && procs1[p].context == (if Preempted(cpu, procs, p) then frame else procs[p].context)
            && procs1[p].slice == (if Preempted(cpu, procs, p) || (cpu1.current == Some(p) && p != cpu.idle)
                                   then procs[p].defaultSlice else procs[p].slice)
  {
  }

  // ---------- fairness: one round ----------

  /** The calls of a run, each with the frame it was interrupted in. */
  function Calls(cpu: Cpu<nat>, procs: Procs<nat>, frames: seq<ProcessContext>): (r: (Cpu<nat>, Procs<nat>))
    requires CpuOk(cpu, procs)
    ensures CpuOk(r.0, r.1)
  {
    if frames == [] then (cpu, procs)
    else
      var before := Calls(cpu, procs, frames[..|frames| - 1]);
      CallOk(before.0, before.1, frames[|frames| - 1]);
      Call(before.0, before.1, frames[|frames| - 1])
  }

  lemma CallOk<P>(cpu: Cpu<P>, procs: Procs<P>, frame: ProcessContext)
    requires CpuOk(cpu, procs)
    ensures CpuOk(Call(cpu, procs, frame).0, Call(cpu, procs, frame).1)
    ensures Call(cpu, procs, frame).1.Keys == procs.Keys
  {
    var ticked := Ticked(cpu, procs);
    if SliceOver(cpu, procs) {
      SwitchOk(cpu, ticked, frame);
    }
  }

  lemma {:induction false} CallsJoin(cpu: Cpu<nat>, procs: Procs<nat>, a: seq<ProcessContext>, b: seq<ProcessContext>)
    requires CpuOk(cpu, procs)
    ensures var mid := Calls(cpu, procs, a);
            Calls(cpu, procs, a + b) == Calls(mid.0, mid.1, b)
  {
    if b == [] {
      assert a + b == a;
    } else {
      CallsJoin(cpu, procs, a, b[..|b| - 1]);
      assert (a + b)[..|a + b| - 1] == a + b[..|b| - 1];
    }
  }

  /** Just after a switch to the head of a queue of live processes. */
  predicate RoundStart(cpu: Cpu<nat>, procs: Procs<nat>) {
    && CpuOk(cpu, procs) && cpu.queue != [] && cpu.current == Some(cpu.queue[0])
    && procs[cpu.queue[0]].slice == procs[cpu.queue[0]].defaultSlice
    && (forall p :: p in cpu.queue ==> !procs[p].state.Dying?)
  }

  /** procs1 is procs but for the slices, the contexts, and the ticks that `extra` adds. */
  predicate OnlyTicks(procs: Procs<nat>, procs1: Procs<nat>, extra: map<nat, nat>) {
    && procs1.Keys == procs.Keys
    && forall p :: p in procs ==>
         && procs1[p].defaultSlice == procs[p].defaultSlice && procs1[p].state == procs[p].state
         && procs1[p].active == procs[p].active + if p in extra then extra[p] else 0
  }

  /** While its slice lasts the running process only ticks. */
  lemma {:induction false} SliceRuns(cpu: Cpu<nat>, procs: Procs<nat>, frames: seq<ProcessContext>)
    requires RoundStart(cpu, procs) && |frames| <= procs[cpu.queue[0]].defaultSlice
    ensures var r, p := Calls(cpu, procs, frames), cpu.queue[0];
            && r.0 == cpu
            && r.1 == procs[p := procs[p].(slice := procs[p].defaultSlice - |frames|,
                                           active := procs[p].active + |frames|)]
  {
    if frames == [] {
      assert procs == procs[cpu.queue[0] := procs[cpu.queue[0]]];
    } else {
      SliceRuns(cpu, procs, frames[..|frames| - 1]);
    }
  }

  /** One turn: a slice of D takes D + 1 calls, and then the queue has turned by one. */
  lemma {:induction false} OneTurn(cpu: Cpu<nat>, procs: Procs<nat>, frames: seq<ProcessContext>)
    requires RoundStart(cpu, procs) && |frames| == procs[cpu.queue[0]].defaultSlice + 1
    ensures var r, p := Calls(cpu, procs, frames), cpu.queue[0];
            && RoundStart(r.0, r.1)
            && r.0.queue == Rotated(cpu.queue) && r.0.idle == cpu.idle
            && OnlyTicks(procs, r.1, map[p := |frames|])
  {
    SliceRuns(cpu, procs, frames[..|frames| - 1]);
    var before := Calls(cpu, procs, frames[..|frames| - 1]);
    var ticked := Ticked(cpu, before.1);
    SwitchOk(cpu, ticked, frames[|frames| - 1]);
  }

  /** The idle process runs and only live processes wait. */
  predicate IdleStart(cpu: Cpu<nat>, procs: Procs<nat>) {
    && CpuOk(cpu, procs) && cpu.current == Some(cpu.idle) && cpu.queue != []
    && forall p :: p in cpu.queue ==> !procs[p].state.Dying?
  }

  /** One call goes to the head of the queue, whose slice is full then, whatever was left of it. */
  lemma IdleToHead(cpu: Cpu<nat>, procs: Procs<nat>, frame: ProcessContext)
    requires IdleStart(cpu, procs)
    ensures var r := Calls(cpu, procs, [frame]);
            RoundStart(r.0, r.1) && r.0 == cpu.(current := Some(cpu.queue[0])) && OnlyTicks(procs, r.1, map[cpu.idle := 1])
  {
    assert [frame][..0] == [] && Calls(cpu, procs, []) == (cpu, procs);
  }

  lemma CallsAfter(cpu: Cpu<nat>, procs: Procs<nat>, frames: seq<ProcessContext>)
    requires CpuOk(cpu, procs) && frames != []
    ensures var first := Calls(cpu, procs, [frames[0]]);
            Calls(cpu, procs, frames) == Calls(first.0, first.1, frames[1..])
  {
    hide CpuOk, Calls;
    CallsJoin(cpu, procs, [frames[0]], frames[1..]);
    assert [frames[0]] + frames[1..] == frames;
  }

  /** It goes on running for as many calls as its slice is long. */
  lemma IdleRuns(cpu: Cpu<nat>, procs: Procs<nat>, frames: seq<ProcessContext>)
    requires IdleStart(cpu, procs) && 1 <= |frames| <= procs[cpu.queue[0]].defaultSlice + 1
    ensures var r, p := Calls(cpu, procs, frames), cpu.queue[0];
            && r.0 == cpu.(current := Some(p)) && p in r.1 && r.1[p].slice == procs[p].defaultSlice - (|frames| - 1)
            && OnlyTicks(procs, r.1, map[cpu.idle := 1, p := |frames| - 1])
  {
    IdleToHead(cpu, procs, frames[0]);
    var first := Calls(cpu, procs, [frames[0]]);
    CallsAfter(cpu, procs, frames);
    SliceRuns(first.0, first.1, frames[1..]);
    hide Calls, NoDuplicates;
  }

  /** And then it is put at the back, for the next one. */
  lemma IdleTurn(cpu: Cpu<nat>, procs: Procs<nat>, frames: seq<ProcessContext>)
    requires IdleStart(cpu, procs) && |frames| == procs[cpu.queue[0]].defaultSlice + 2
    ensures var r := Calls(cpu, procs, frames);
            && RoundStart(r.0, r.1) && r.0.queue == cpu.queue[1..] + [cpu.queue[0]] && r.0.idle == cpu.idle
            && OnlyTicks(procs, r.1, map[cpu.idle := 1, cpu.queue[0] := |frames| - 1])
  {
    IdleToHead(cpu, procs, frames[0]);
    var first := Calls(cpu, procs, [frames[0]]);
    CallsAfter(cpu, procs, frames);
    OneTurn(first.0, first.1, frames[1..]);
    hide Calls, NoDuplicates;
  }

  /** Calls that the first j processes of the queue need for a turn each. */
  function TurnCalls(procs: Procs<nat>, queue: seq<nat>, j: nat): nat
    requires j <= |queue| && forall p :: p in queue ==> p in procs
  {
    if j == 0 then 0 else TurnCalls(procs, queue, j - 1) + procs[queue[j - 1]].defaultSlice + 1
  }

  function TurnTicks(procs: Procs<nat>, queue: seq<nat>, j: nat): map<nat, nat>
    requires j <= |queue| && forall p :: p in queue ==> p in procs
  {
    map p | p in queue[..j] :: procs[p].defaultSlice + 1
  }

  lemma AddTicks(procs: Procs<nat>, mid: Procs<nat>, end: Procs<nat>, queue: seq<nat>, j: nat)
    requires j < |queue| && NoDuplicates(queue) && forall p :: p in queue ==> p in procs
    requires OnlyTicks(procs, mid, TurnTicks(procs, queue, j))
    requires OnlyTicks(mid, end, map[queue[j] := procs[queue[j]].defaultSlice + 1])
    ensures OnlyTicks(procs, end, TurnTicks(procs, queue, j + 1))
  {
    assert queue[..j + 1] == queue[..j] + [queue[j]];
    assert queue[j] !in queue[..j];
  }

  lemma TurnedQueue(queue: seq<nat>, j: nat)
    requires j < |queue|
    ensures var turned := queue[j..] + queue[..j];
            && turned != [] && turned[0] == queue[j]
            && Rotated(turned) == queue[j + 1..] + queue[..j + 1]
  {
  }

  /** The first j processes of the queue have had their turn. */
  predicate TurnedBy(cpu: Cpu<nat>, procs: Procs<nat>, cpu1: Cpu<nat>, procs1: Procs<nat>, j: nat) {
    && j <= |cpu.queue| && Known(cpu, procs)
    && RoundStart(cpu1, procs1) && cpu1.idle == cpu.idle
    && cpu1.queue == cpu.queue[j..] + cpu.queue[..j]
    && OnlyTicks(procs, procs1, TurnTicks(procs, cpu.queue, j))
  }

  lemma TurnMore(cpu: Cpu<nat>, procs: Procs<nat>, cpu1: Cpu<nat>, procs1: Procs<nat>, frames: seq<ProcessContext>, j: nat)
    requires RoundStart(cpu, procs) && j < |cpu.queue| && TurnedBy(cpu, procs, cpu1, procs1, j)
    requires |frames| == procs[cpu.queue[j]].defaultSlice + 1
    ensures var r := Calls(cpu1, procs1, frames);
            TurnedBy(cpu, procs, r.0, r.1, j + 1)
  {
    TurnedQueue(cpu.queue, j);
    OneTurn(cpu1, procs1, frames);
    AddTicks(procs, procs1, Calls(cpu1, procs1, frames).1, cpu.queue, j);
  }

  lemma TurnedNone(cpu: Cpu<nat>, procs: Procs<nat>)
    requires RoundStart(cpu, procs)
    ensures TurnedBy(cpu, procs, cpu, procs, 0)
  {
    assert cpu.queue[0..] + cpu.queue[..0] == cpu.queue;
  }

  /** j turns and one more make j + 1. */
  lemma TurnsJoin(cpu: Cpu<nat>, procs: Procs<nat>, a: seq<ProcessContext>, b: seq<ProcessContext>, j: nat)
    requires RoundStart(cpu, procs) && j < |cpu.queue| && |b| == procs[cpu.queue[j]].defaultSlice + 1
    requires TurnedBy(cpu, procs, Calls(cpu, procs, a).0, Calls(cpu, procs, a).1, j)
    ensures TurnedBy(cpu, procs, Calls(cpu, procs, a + b).0, Calls(cpu, procs, a + b).1, j + 1)
  {
    hide TurnedBy, Calls, NoDuplicates;
    var mid := Calls(cpu, procs, a);
    TurnMore(cpu, procs, mid.0, mid.1, b, j);
    CallsJoin(cpu, procs, a, b);
  }

  lemma NoCalls(cpu: Cpu<nat>, procs: Procs<nat>)
    requires CpuOk(cpu, procs)
    ensures Calls(cpu, procs, []) == (cpu, procs)
  {
  }

  lemma {:induction false} Turns(cpu: Cpu<nat>, procs: Procs<nat>, frames: seq<ProcessContext>, j: nat)
    requires RoundStart(cpu, procs) && j <= |cpu.queue| && |frames| == TurnCalls(procs, cpu.queue, j)
    ensures TurnedBy(cpu, procs, Calls(cpu, procs, frames).0, Calls(cpu, procs, frames).1, j)
  {
    hide TurnedBy, NoDuplicates;
    NoCalls(cpu, procs);
    assert forall p :: p in cpu.queue ==> p in procs;
    hide Calls, CpuOk;
    if j == 0 {
      TurnedNone(cpu, procs);
    } else {
      var split := TurnCalls(procs, cpu.queue, j - 1);
      Turns(cpu, procs, frames[..split], j - 1);
      TurnsJoin(cpu, procs, frames[..split], frames[split..], j - 1);
      assert frames[..split] + frames[split..] == frames;
    }
  }

  /** Just after a switch, sum(D + 1) uncontended calls restore the order of the queue and give each process its D + 1
      ticks, whatever the slices D are. */
  lemma FullRound(cpu: Cpu<nat>, procs: Procs<nat>, frames: seq<ProcessContext>)
    requires RoundStart(cpu, procs) && |frames| == TurnCalls(procs, cpu.queue, |cpu.queue|)
    ensures var r := Calls(cpu, procs, frames);
            && r.0 == cpu && RoundStart(r.0, r.1)
            && forall p :: p in cpu.queue ==> r.1[p].active == procs[p].active + procs[p].defaultSlice + 1
  {
    Turns(cpu, procs, frames, |cpu.queue|);
    var queue := cpu.queue;
    assert queue[|queue|..] + queue[..|queue|] == queue;
    assert queue[..|queue|] == queue;
  }
}
