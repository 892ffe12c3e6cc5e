/** Every queued process is dispatched within a bound, arrivals and dying processes notwithstanding. */
module SchedWait {
  import opened Common
  import opened SchedSpec

  datatype Sched = Sched(cpu: Cpu<nat>, procs: Procs<nat>)

  /** What can happen to one CPU: a tick that gets the lock or finds it taken, a new process, a process told to die. */
  datatype Event =
    | Tick(frame: ProcessContext)
    | Contended
    | Arrive(process: nat, proc: Proc)
    | Kill(process: nat)

  function Apply(s: Sched, e: Event): Sched
    requires CpuOk(s.cpu, s.procs)
  {
    match e
    case Tick(frame) =>
      var r := Call(s.cpu, s.procs, frame);
      Sched(r.0, r.1)
    case Contended => s.(procs := Ticked(s.cpu, s.procs))
    case Arrive(p, proc) =>
      if p in s.procs then s
      else Sched(s.cpu.(queue := s.cpu.queue + [p]), s.procs[p := proc])
    case Kill(p) =>
      if p in s.procs && p != s.cpu.idle then s.(procs := s.procs[p := s.procs[p].(state := Dying)]) else s
  }

  lemma ApplyOk(s: Sched, e: Event)
    requires CpuOk(s.cpu, s.procs)
    ensures CpuOk(Apply(s, e).cpu, Apply(s, e).procs)
  {
    match e
    case Tick(frame) => CallOk(s.cpu, s.procs, frame);
    case Contended =>
    case Arrive(p, proc) =>
    case Kill(p) =>
  }

  // ---------- the measure ----------

  /** A process ahead may use its slice, one call to switch, and one call of idling should it die. */
  function Cost(procs: Procs<nat>, ahead: seq<nat>): nat
    requires forall p :: p in ahead ==> p in procs
  {
    if ahead == [] then 0 else procs[ahead[0]].defaultSlice + 2 + Cost(procs, ahead[1..])
  }

  function Index(queue: seq<nat>, p: nat): (i: nat)
    requires p in queue
    ensures i < |queue| && queue[i] == p
    ensures NoDuplicates(queue) ==> forall j :: 0 <= j < |queue| && queue[j] == p ==> j == i
  {
    if queue[0] == p then 0 else 1 + Index(queue[1..], p)
  }

  /** A bound on the uncontended calls before the process at position i is current. */
  function WaitAt(s: Sched, i: nat): nat
    requires CpuOk(s.cpu, s.procs) && i < |s.cpu.queue|
  {
    match s.cpu.current
    case None => 2 + Cost(s.procs, s.cpu.queue[..i])
    case Some(c) =>
      if c == s.cpu.queue[i] then 0
      else if c == s.cpu.idle then 1 + Cost(s.procs, s.cpu.queue[..i])
      else s.procs[c].slice + 2 + Cost(s.procs, s.cpu.queue[1..i])
  }

  function Wait(s: Sched, p: nat): nat
    requires CpuOk(s.cpu, s.procs) && p in s.cpu.queue
  {
    WaitAt(s, Index(s.cpu.queue, p))
  }

  lemma {:induction false} CostSame(procs: Procs<nat>, procs1: Procs<nat>, ahead: seq<nat>)
    requires forall p :: p in ahead ==> p in procs && p in procs1 && procs1[p].defaultSlice == procs[p].defaultSlice
    ensures Cost(procs1, ahead) == Cost(procs, ahead)
  {
    if ahead != [] {
      CostSame(procs, procs1, ahead[1..]);
    }
  }

  /** An uncontended call brings a waiting process nearer. */
  lemma {:induction false} TickNearer(s: Sched, frame: ProcessContext, i: nat) returns (k: nat)
    requires CpuOk(s.cpu, s.procs) && i < |s.cpu.queue| && WaitAt(s, i) > 0
    ensures var s1 := Apply(s, Tick(frame));
            && CpuOk(s1.cpu, s1.procs) && k < |s1.cpu.queue| && s1.cpu.queue[k] == s.cpu.queue[i]
            && WaitAt(s1, k) < WaitAt(s, i)
  {
    ApplyOk(s, Tick(frame));
    var s1, queue := Apply(s, Tick(frame)), s.cpu.queue;
    var ticked := Ticked(s.cpu, s.procs);
    k := i;
    if SliceOver(s.cpu, s.procs) {
      SwitchOk(s.cpu, ticked, frame);
      if s.cpu.current == Some(queue[0]) {
        RemoveHead(queue, queue[0]);
        k := i - 1;
        assert s1.cpu.queue[..k] == queue[1..i];
        if !ticked[queue[0]].state.Dying? && k > 0 {
          assert s1.cpu.queue[1..k] == queue[1..i][1..];
        }
      } else if i > 0 {
        assert queue[1..i] == queue[..i][1..];
      }
    }
    CostSame(s.procs, s1.procs, queue[..i]);
    if i > 0 {
      CostSame(s.procs, s1.procs, queue[1..i]);
      if i > 1 {
        CostSame(s.procs, s1.procs, queue[1..i][1..]);
      }
    }
  }

  /** Any other event leaves it no farther. */
  lemma {:induction false} OtherNoFarther(s: Sched, e: Event, i: nat)
    requires CpuOk(s.cpu, s.procs) && i < |s.cpu.queue| && !e.Tick?
    ensures var s1 := Apply(s, e);
            && CpuOk(s1.cpu, s1.procs) && i < |s1.cpu.queue| && s1.cpu.queue[i] == s.cpu.queue[i]
            && WaitAt(s1, i) <= WaitAt(s, i)
  {
    ApplyOk(s, e);
    var s1 := Apply(s, e);
    assert s1.cpu.queue[..i] == s.cpu.queue[..i];
    CostSame(s.procs, s1.procs, s.cpu.queue[..i]);
    if i > 0 {
      assert s1.cpu.queue[1..i] == s.cpu.queue[1..i];
      CostSame(s.procs, s1.procs, s.cpu.queue[1..i]);
    }
  }

  // ---------- any run of events ----------

  function Run(s: Sched, events: seq<Event>): (r: Sched)
    requires CpuOk(s.cpu, s.procs)
    ensures CpuOk(r.cpu, r.procs)
    decreases |events|
  {
    if events == [] then s
    else
      ApplyOk(s, events[0]);
      Run(Apply(s, events[0]), events[1..])
  }

  function Ticks(events: seq<Event>): nat {
    if events == [] then 0 else Ticks(events[1..]) + if events[0].Tick? then 1 else 0
  }

  /** A queued process becomes current at some point of every run with at least as many uncontended ticks as its wait. */
  lemma {:induction false} Dispatched(s: Sched, events: seq<Event>, p: nat) returns (n: nat)
    requires CpuOk(s.cpu, s.procs) && p in s.cpu.queue && Wait(s, p) <= Ticks(events)
    ensures n <= |events| && Run(s, events[..n]).cpu.current == Some(p)
    decreases |events|
  {
    var i := Index(s.cpu.queue, p);
    if s.cpu.current == Some(p) {
      n := 0;
    } else {
      ApplyOk(s, events[0]);
      var s1 := Apply(s, events[0]);
      var k := i;
      if events[0].Tick? {
        k := TickNearer(s, events[0].frame, i);
      } else {
        OtherNoFarther(s, events[0], i);
      }
      assert Index(s1.cpu.queue, p) == k;
      n := Dispatched(s1, events[1..], p);
      n := n + 1;
      assert events[..n][1..] == events[1..][..n - 1];
    }
  }

  /** The bound itself, for slices up to c - 2: c calls for each process of the queue, and two more. */
  lemma {:induction false} WaitBound(s: Sched, p: nat, c: nat)
    requires CpuOk(s.cpu, s.procs) && p in s.cpu.queue
    requires forall q :: q in s.cpu.queue ==> s.procs[q].defaultSlice + 2 <= c && s.procs[q].slice + 2 <= c
    ensures Wait(s, p) <= |s.cpu.queue| * c + 2
  {
    var i := Index(s.cpu.queue, p);
    CostBound(s.procs, s.cpu.queue[..i], c);
    Multiples(i, |s.cpu.queue|, c);
    if i > 0 {
      CostBound(s.procs, s.cpu.queue[1..i], c);
      Multiples(i - 1, |s.cpu.queue| - 1, c);
      Multiples(|s.cpu.queue| - 1, |s.cpu.queue|, c);
    }
  }

  lemma Multiples(a: nat, b: nat, c: nat)
    requires a <= b
    ensures a * c <= b * c
    ensures b == a + 1 ==> b * c == a * c + c
  {
  }

  lemma {:induction false} CostBound(procs: Procs<nat>, ahead: seq<nat>, c: nat)
    requires forall q :: q in ahead ==> q in procs && procs[q].defaultSlice + 2 <= c
    ensures Cost(procs, ahead) <= |ahead| * c
  {
    if ahead != [] {
      CostBound(procs, ahead[1..], c);
      Multiples(|ahead| - 1, |ahead|, c);
    }
  }
}
