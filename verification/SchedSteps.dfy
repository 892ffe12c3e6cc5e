/** The scheduler on many CPUs: ticks, lock, mutation, release and context switch as separate steps, interleaved with
    the creation and the killing of processes. */
module SchedSteps {
  import opened Common
  import opened SchedSpec

  /** Where a CPU is in `Schedule`: executing a process, about to try the lock, about to mutate, about to release, about
      to load the context. */
  datatype Pc = Executing | AtLock | Holding | Mutated | Leaving

  datatype Core = Core(cpu: Cpu<nat>, lock: bool, pc: Pc, regs: ProcessContext)

  /** Where a caller of `NewProcess` is: idle, spinning on the lock of the CPU it chose, about to add, about to unlock. */
  datatype Creator = Resting | Spinning(process: nat, core: nat) | Adding(process: nat, core: nat) | Added(core: nat)

  /** The one place of each process created: with a creator, in a queue, or removed. */
  datatype Place = WithCreator(creator: nat) | Queued(core: nat) | Gone

  /** Who took a CPU's lock last and has not released it. */
  datatype Holder = Nobody | TheCpu | TheCreator(creator: nat)

  /** The last three are history: `at` is the place of each process, `live` the machine state it has reached by executing,
      and `holder` says for each CPU who holds its lock. */
  datatype World = World(cores: seq<Core>, creators: seq<Creator>, procs: Procs<nat>, at: map<nat, Place>,
                         live: map<nat, ProcessContext>, holder: seq<Holder>)

  datatype Event =
    | Execute(core: nat, regs: ProcessContext)
    | Interrupt(core: nat)
    | TryLock(core: nat)
    | Mutate(core: nat)
    | Release(core: nat)
    | Switch(core: nat)
    | Spawn(creator: nat, core: nat, process: nat, proc: Proc)
    | Acquire(creator: nat)
    | GiveUp(creator: nat)
    | Add(creator: nat)
    | Unlock(creator: nat)
    | Kill(process: nat)

  /** The events of a CPU, and where it must be for them. */
  function PcOf(e: Event): Option<Pc> {
    match e
    case Execute(_, _) => Some(Executing)
    case Interrupt(_) => Some(Executing)
    case TryLock(_) => Some(AtLock)
    case Mutate(_) => Some(Holding)
    case Release(_) => Some(Mutated)
    case Switch(_) => Some(Leaving)
    case _ => None
  }

  predicate CpusOk(w: World) {
    forall c {:trigger w.cores[c]} :: 0 <= c < |w.cores| ==> CpuOk(w.cores[c].cpu, w.procs)
  }

  /** Creators' CPUs exist. */
  predicate CreatorsOk(w: World) {
    |w.holder| == |w.cores| &&
    forall k {:trigger w.creators[k]} :: 0 <= k < |w.creators| && !w.creators[k].Resting? ==>
      w.creators[k].core < |w.cores|
  }

  /** A CPU past the mutation has a process to switch to. */
  predicate SwitchingOk(w: World) {
    forall c :: 0 <= c < |w.cores| && (w.cores[c].pc.Mutated? || w.cores[c].pc.Leaving?) ==> w.cores[c].cpu.current.Some?
  }

  predicate Enabled(w: World, e: Event)
    requires CreatorsOk(w)
  {
    match e
    case Spawn(k, c, p, proc) =>
      k < |w.creators| && w.creators[k].Resting? && c < |w.cores| && p !in w.procs
    case Acquire(k) => k < |w.creators| && w.creators[k].Spinning? && !w.cores[w.creators[k].core].lock
    case GiveUp(k) => k < |w.creators| && w.creators[k].Spinning? && w.cores[w.creators[k].core].lock
    case Add(k) => k < |w.creators| && w.creators[k].Adding?
    case Unlock(k) => k < |w.creators| && w.creators[k].Added?
    case Kill(p) => p in w.at
    case _ => e.core < |w.cores| && Some(w.cores[e.core].pc) == PcOf(e)
  }

  /** The current process is dying and about to be removed by the mutation. */
  predicate Dies(cpu: Cpu<nat>, procs: Procs<nat>)
    requires Known(cpu, procs)
  {
    cpu.current.Some? && cpu.queue != [] && cpu.current.value != cpu.idle && procs[cpu.current.value].state.Dying?
  }

  function SetLock(cores: seq<Core>, c: nat, lock: bool): seq<Core>
    requires c < |cores|
  {
    cores[c := cores[c].(lock := lock)]
  }

  function Apply(w: World, e: Event): World
    requires CreatorsOk(w) && CpusOk(w) && SwitchingOk(w) && Enabled(w, e)
  {
    match e
    case Execute(c, regs) =>
      assert CpuOk(w.cores[c].cpu, w.procs);
      var core := w.cores[c];
      w.(cores := w.cores[c := core.(regs := regs)],
         live := if core.cpu.current.Some? && core.cpu.current.value in w.at
                 then w.live[core.cpu.current.value := regs] else w.live)
    case Interrupt(c) =>
      var core := w.cores[c];
      w.(cores := w.cores[c := core.(pc := if SliceOver(core.cpu, w.procs) then AtLock else Executing)],
         procs := Ticked(core.cpu, w.procs))
    case TryLock(c) =>
      var core := w.cores[c];
      w.(cores := w.cores[c := core.(lock := true, pc := if core.lock then Executing else Holding)],
         holder := if core.lock then w.holder else w.holder[c := TheCpu])
    case Mutate(c) =>
      var core := w.cores[c];
      World(w.cores[c := core.(cpu := Switched(core.cpu, w.procs), pc := Mutated)], w.creators,
            Saved(core.cpu, w.procs, core.regs),
            if Dies(core.cpu, w.procs) then w.at[core.cpu.current.value := Gone] else w.at, w.live, w.holder)
    case Release(c) =>
      w.(cores := w.cores[c := w.cores[c].(lock := false, pc := Leaving)], holder := w.holder[c := Nobody])
    case Switch(c) =>
      var core := w.cores[c];
      w.(cores := w.cores[c := core.(regs := w.procs[core.cpu.current.value].context, pc := Executing)])
    case Spawn(k, c, p, proc) =>
      World(w.cores, w.creators[k := Spinning(p, c)], w.procs[p := proc], w.at[p := WithCreator(k)],
            w.live[p := proc.context], w.holder)
    case Acquire(k) =>
      var a := w.creators[k];
      w.(cores := SetLock(w.cores, a.core, true), creators := w.creators[k := Adding(a.process, a.core)],
         holder := w.holder[a.core := TheCreator(k)])
    case GiveUp(k) =>
      var a := w.creators[k];
      w.(creators := w.creators[k := Adding(a.process, a.core)])
    case Add(k) =>
      var a := w.creators[k];
      var cpu := w.cores[a.core].cpu;
      w.(cores := w.cores[a.core := w.cores[a.core].(cpu := cpu.(queue := cpu.queue + [a.process]))],
         creators := w.creators[k := Added(a.core)],
         at := w.at[a.process := Queued(a.core)])
    case Unlock(k) =>
      var a := w.creators[k];
      w.(cores := SetLock(w.cores, a.core, false), creators := w.creators[k := Resting],
         holder := w.holder[a.core := Nobody])
    case Kill(p) =>
      if p in w.procs then w.(procs := w.procs[p := w.procs[p].(state := Dying)]) else w
  }

  // ---------- what every step keeps ----------

  /** Queues and creators hold exactly the processes whose place says so, so no process is in two places; the idle
      processes are apart. */
  predicate PlacesOk(w: World) {
    && CpusOk(w) && QueuedOk(w) && CreatedOk(w)
    && (forall c :: 0 <= c < |w.cores| ==> w.cores[c].cpu.idle !in w.at)
    && (forall c, d :: 0 <= c < d < |w.cores| ==> w.cores[c].cpu.idle != w.cores[d].cpu.idle)
    && (forall p :: p in w.at ==> p in w.procs)
  }

  predicate QueuedOk(w: World) {
    && (forall c, p :: 0 <= c < |w.cores| && p in w.cores[c].cpu.queue ==> p in w.at && w.at[p] == Queued(c))
    && (forall p :: p in w.at && w.at[p].Queued? ==>
          w.at[p].core < |w.cores| && p in w.cores[w.at[p].core].cpu.queue)
  }

  predicate CreatedOk(w: World) {
    && (forall k :: 0 <= k < |w.creators| && (w.creators[k].Spinning? || w.creators[k].Adding?) ==>
          w.creators[k].process in w.at && w.at[w.creators[k].process] == WithCreator(k))
    && (forall p :: p in w.at && w.at[p].WithCreator? ==>
          var k := w.at[p].creator;
          k < |w.creators| && (w.creators[k].Spinning? || w.creators[k].Adding?) && w.creators[k].process == p)
  }

  /** The CPU c is between taking and releasing its lock. */
  predicate CoreIn(w: World, c: nat) {
    c < |w.cores| && (w.cores[c].pc.Holding? || w.cores[c].pc.Mutated?)
  }

  predicate CreatorIn(w: World, k: nat, c: nat) {
    k < |w.creators| && (w.creators[k].Adding? || w.creators[k].Added?) && w.creators[k].core == c
  }

  /** No two are inside for the same CPU. */
  predicate Mutex(w: World) {
    && (forall c, k :: 0 <= c < |w.cores| && 0 <= k < |w.creators| ==> !(CoreIn(w, c) && CreatorIn(w, k, c)))
    && (forall c, j, k :: 0 <= c < |w.cores| && 0 <= j < k < |w.creators| ==> !(CreatorIn(w, j, c) && CreatorIn(w, k, c)))
  }

  /** The lock word says whether anyone holds the lock, and exactly the holder is inside. */
  predicate LockOk(w: World) {
    && |w.holder| == |w.cores|
    && (forall c :: 0 <= c < |w.cores| ==> w.cores[c].lock == !w.holder[c].Nobody?)
    && (forall c :: 0 <= c < |w.cores| ==> (CoreIn(w, c) <==> w.holder[c].TheCpu?))
    && (forall c, k :: 0 <= c < |w.cores| && 0 <= k < |w.creators| ==>
          (CreatorIn(w, k, c) <==> w.holder[c] == TheCreator(k)))
    && (forall c :: 0 <= c < |w.cores| && w.holder[c].TheCreator? ==> w.holder[c].creator < |w.creators|)
  }

  /** The process is the one whose registers CPU c holds, not yet saved. */
  predicate InRegs(w: World, c: nat, p: nat) {
    && c < |w.cores| && w.cores[c].cpu.current == Some(p)
    && (w.cores[c].pc.Executing? || w.cores[c].pc.AtLock? || w.cores[c].pc.Holding?)
  }

  /** The process's machine state is in the registers of the CPU that runs it, or else saved in its context. */
  predicate LiveAt(w: World, p: nat) {
    && p in w.at && p in w.live && p in w.procs
    && w.live[p] == if w.at[p].Queued? && InRegs(w, w.at[p].core, p) then w.cores[w.at[p].core].regs
                    else w.procs[p].context
  }

  predicate LiveOk(w: World) {
    forall p :: p in w.at && !w.at[p].Gone? ==> LiveAt(w, p)
  }

  predicate Ok(w: World) {
    CreatorsOk(w) && PlacesOk(w) && LockOk(w) && LiveOk(w) && SwitchingOk(w)
  }

  // ---------- preservation ----------

  lemma CreatorsStep(w: World, e: Event)
    requires Ok(w) && Enabled(w, e)
    ensures CreatorsOk(Apply(w, e)) && SwitchingOk(Apply(w, e)) && |Apply(w, e).cores| == |w.cores|
  {
    hide LiveOk, LockOk, PlacesOk;
    assert CpusOk(w) by {
      PlacesCpus(w);
    }
    if e.Mutate? {
      assert CpuOk(w.cores[e.core].cpu, w.procs);
      SwitchOk(w.cores[e.core].cpu, w.procs, w.cores[e.core].regs);
    }
  }

  lemma PlacesCpus(w: World)
    requires PlacesOk(w)
    ensures CpusOk(w)
  {
  }

  /** Exactly one is inside as long as the lock is held. */
  lemma LockMutex(w: World)
    requires LockOk(w)
    ensures Mutex(w)
  {
  }

  /** The CPU whose lock or program counter an event is about. */
  function CoreOf(w: World, e: Event): nat
    requires CreatorsOk(w) && Enabled(w, e)
  {
    match e
    case Spawn(_, c, _, _) => c
    case Acquire(k) => w.creators[k].core
    case GiveUp(k) => w.creators[k].core
    case Add(k) => w.creators[k].core
    case Unlock(k) => w.creators[k].core
    case Kill(_) => 0
    case _ => e.core
  }

  lemma LockStep(w: World, e: Event)
    requires Ok(w) && Enabled(w, e) && !e.GiveUp?
    ensures LockOk(Apply(w, e))
  {
    hide LiveOk, PlacesOk, Switched, Saved, Ticked, CpuOk, SliceOver, Dies;
    assert CpusOk(w) by {
      PlacesCpus(w);
    }
    var w1, c0 := Apply(w, e), CoreOf(w, e);
    forall c | 0 <= c < |w.cores|
      ensures CoreIn(w1, c) <==> w1.holder[c].TheCpu?
      ensures w1.cores[c].lock == !w1.holder[c].Nobody?
    {
      assert CoreIn(w, c) <==> w.holder[c].TheCpu?;
      CreatorInside(w, e, c);
    }
    forall c, k | 0 <= c < |w.cores| && 0 <= k < |w.creators|
      ensures CreatorIn(w1, k, c) <==> w1.holder[c] == TheCreator(k)
    {
      assert CreatorIn(w, k, c) <==> w.holder[c] == TheCreator(k);
      assert CoreIn(w, c) <==> w.holder[c].TheCpu?;
      CreatorInside(w, e, c);
    }
  }

  /** The creator an event is about holds the lock it is inside of. */
  lemma CreatorInside(w: World, e: Event, c: nat)
    requires LockOk(w) && CreatorsOk(w) && Enabled(w, e) && c < |w.cores|
    ensures e.Add? || e.Unlock? ==> (w.creators[e.creator].core == c <==> w.holder[c] == TheCreator(e.creator))
    ensures e.Acquire? || e.Spawn? ==> w.holder[c] != TheCreator(e.creator)
  {
    if e.Add? || e.Unlock? || e.Acquire? || e.Spawn? {
      assert CreatorIn(w, e.creator, c) <==> w.holder[c] == TheCreator(e.creator);
    }
  }

  lemma CpuAt(w: World, c: nat)
    requires CpusOk(w) && c < |w.cores|
    ensures CpuOk(w.cores[c].cpu, w.procs)
  {
  }

  /** Queues, idle processes and places do not change. */
  predicate SamePlaces(w: World, w1: World) {
    && |w1.cores| == |w.cores| && w1.at == w.at && |w1.creators| == |w.creators|
    && (forall c :: 0 <= c < |w.cores| ==>
          w1.cores[c].cpu.queue == w.cores[c].cpu.queue && w1.cores[c].cpu.idle == w.cores[c].cpu.idle)
    && (forall k :: 0 <= k < |w.creators| ==>
          (w1.creators[k].Spinning? || w1.creators[k].Adding?) == (w.creators[k].Spinning? || w.creators[k].Adding?)
          && (w.creators[k].Spinning? || w.creators[k].Adding? ==> w1.creators[k].process == w.creators[k].process))
    && w1.procs.Keys == w.procs.Keys
  }

  lemma SamePlacesOk(w: World, w1: World)
    requires PlacesOk(w) && SamePlaces(w, w1) && CpusOk(w1)
    ensures PlacesOk(w1)
  {
  }

  lemma CpusStep(w: World, e: Event)
    requires Ok(w) && Enabled(w, e)
    ensures CpusOk(w) && CpusOk(Apply(w, e))
  {
    hide LiveOk, LockOk;
    PlacesCpus(w);
    match e
    case Mutate(c) => MutateCpus(w, c);
    case Add(k) => AddCpus(w, k);
    case Interrupt(c) => TickCpus(w, c);
    case Kill(p) => KillCpus(w, p);
    case Spawn(_, _, _, _) =>
    case _ =>
  }

  lemma TickCpus(w: World, c: nat)
    requires Ok(w) && Enabled(w, Interrupt(c)) && CpusOk(w)
    ensures CpusOk(Apply(w, Interrupt(c)))
  {
    hide LiveOk, LockOk;
    CpuAt(w, c);
    var procs := Ticked(w.cores[c].cpu, w.procs);
    forall d | 0 <= d < |w.cores|
      ensures CpuOk(w.cores[d].cpu, procs)
    {
      CpuAt(w, d);
    }
  }

  lemma KillCpus(w: World, p: nat)
    requires Ok(w) && Enabled(w, Kill(p)) && CpusOk(w)
    ensures CpusOk(Apply(w, Kill(p)))
  {
    hide LiveOk, LockOk;
    forall d | 0 <= d < |w.cores|
      ensures CpuOk(w.cores[d].cpu, Apply(w, Kill(p)).procs)
    {
      CpuAt(w, d);
    }
  }

  lemma AddCpus(w: World, k: nat)
    requires Ok(w) && Enabled(w, Add(k)) && CpusOk(w)
    ensures CpusOk(Apply(w, Add(k)))
  {
    hide LiveOk, LockOk;
    var a := w.creators[k];
    assert w.at[a.process] == WithCreator(k);
    CpuAt(w, a.core);
  }

  lemma MutateCpus(w: World, c: nat)
    requires Ok(w) && Enabled(w, Mutate(c)) && CpusOk(w)
    ensures CpusOk(Apply(w, Mutate(c)))
  {
    hide LiveOk, LockOk;
    var core := w.cores[c];
    CpuAt(w, c);
    SwitchOk(core.cpu, w.procs, core.regs);
    var procs := Saved(core.cpu, w.procs, core.regs);
    forall d | 0 <= d < |w.cores|
      ensures d != c ==> CpuOk(w.cores[d].cpu, procs)
    {
      CpuAt(w, d);
      if d != c {
        OthersSaved(w, c, d);
      }
    }
  }

  /** A mutation changes only processes of its own CPU's queue, and so no other CPU's idle process. */
  lemma OthersSaved(w: World, c: nat, d: nat)
    requires PlacesOk(w) && c < |w.cores| && d < |w.cores| && d != c && CpusOk(w)
    ensures var core := w.cores[c];
            && Known(core.cpu, w.procs)
            && var procs := Saved(core.cpu, w.procs, core.regs);
            && procs.Keys == w.procs.Keys
            && w.cores[d].cpu.idle in procs && procs[w.cores[d].cpu.idle] == w.procs[w.cores[d].cpu.idle]
            && forall p :: p in w.procs && p !in core.cpu.queue && p != core.cpu.idle ==> procs[p] == w.procs[p]
  {
    CpuAt(w, c);
    CpuAt(w, d);
    var core := w.cores[c];
    assert w.cores[d].cpu.idle !in core.cpu.queue;
    assert w.cores[d].cpu.idle != core.cpu.idle;
    if core.cpu.queue != [] {
      var turned := core.cpu.queue[1..] + [core.cpu.queue[0]];
      assert turned[0] in core.cpu.queue;
    }
  }

  lemma PlacesStep(w: World, e: Event)
    requires Ok(w) && Enabled(w, e)
    ensures CpusOk(w) && PlacesOk(Apply(w, e))
  {
    CpusStep(w, e);
    hide LiveOk, LockOk, QueuedOk, CreatedOk, CpuOk, Apply, SamePlaces;
    if e.Mutate? {
      MutatePlaces(w, e.core);
    } else if e.Add? {
      AddPlaces(w, e.creator);
    } else if e.Spawn? {
      SpawnPlaces(w, e.creator, e.core, e.process, e.proc);
    } else {
      NoPlaces(w, e);
      SamePlacesOk(w, Apply(w, e));
    }
  }

  lemma NoPlaces(w: World, e: Event)
    requires Ok(w) && Enabled(w, e) && CpusOk(w) && !e.Mutate? && !e.Add? && !e.Spawn?
    ensures SamePlaces(w, Apply(w, e))
  {
    hide LiveOk, LockOk, Switched, Saved, SliceOver, PlacesOk;
  }

  lemma SpawnPlaces(w: World, k: nat, c: nat, p: nat, proc: Proc)
    requires Ok(w) && Enabled(w, Spawn(k, c, p, proc)) && CpusOk(w) && CpusOk(Apply(w, Spawn(k, c, p, proc)))
    ensures PlacesOk(Apply(w, Spawn(k, c, p, proc)))
  {
    hide LiveOk, LockOk;
    forall d | 0 <= d < |w.cores|
      ensures p !in w.cores[d].cpu.queue && p != w.cores[d].cpu.idle
    {
      CpuAt(w, d);
    }
  }

  lemma AddPlaces(w: World, k: nat)
    requires Ok(w) && Enabled(w, Add(k)) && CpusOk(w) && CpusOk(Apply(w, Add(k)))
    ensures PlacesOk(Apply(w, Add(k)))
  {
    hide LiveOk, LockOk;
    var a := w.creators[k];
    assert w.at[a.process] == WithCreator(k);
    CpuAt(w, a.core);
    hide CpuOk, CpusOk, SwitchingOk;
  }

  /** A mutation takes out of the queue exactly a dying current process. */
  lemma QueueMembers(cpu: Cpu<nat>, procs: Procs<nat>, p: nat)
    requires CpuOk(cpu, procs)
    ensures p in Switched(cpu, procs).queue <==> p in cpu.queue && !(Dies(cpu, procs) && Some(p) == cpu.current)
    ensures Switched(cpu, procs).idle == cpu.idle
    ensures Dies(cpu, procs) ==> cpu.current.value in cpu.queue
  {
    SwitchOk(cpu, procs, procs[cpu.idle].context);
    var queue := cpu.queue;
    if Switched(cpu, procs).queue != queue {
      assert queue == [queue[0]] + queue[1..];
    }
  }

  /** One CPU's queue loses at most one process, which is gone then. */
  lemma PlacesLess(w: World, w1: World, c: nat, gone: Option<nat>)
    requires PlacesOk(w) && CpusOk(w1) && c < |w.cores| == |w1.cores| && w1.creators == w.creators
    requires w1.procs.Keys == w.procs.Keys && forall d :: 0 <= d < |w.cores| && d != c ==> w1.cores[d] == w.cores[d]
    requires w1.cores[c].cpu.idle == w.cores[c].cpu.idle
    requires forall p :: p in w1.cores[c].cpu.queue <==> p in w.cores[c].cpu.queue && Some(p) != gone
    requires gone.Some? ==> gone.value in w.cores[c].cpu.queue
    requires w1.at == if gone.Some? then w.at[gone.value := Gone] else w.at
    ensures PlacesOk(w1)
  {
    QueuedLess(w, w1, c, gone);
    CreatedLess(w, w1, c, gone);
    hide CpuOk, QueuedOk, CreatedOk, CpusOk;
  }

  lemma QueuedLess(w: World, w1: World, c: nat, gone: Option<nat>)
    requires QueuedOk(w) && c < |w.cores| == |w1.cores|
    requires forall d :: 0 <= d < |w.cores| && d != c ==> w1.cores[d] == w.cores[d]
    requires forall p :: p in w1.cores[c].cpu.queue <==> p in w.cores[c].cpu.queue && Some(p) != gone
    requires gone.Some? ==> gone.value in w.cores[c].cpu.queue
    requires w1.at == if gone.Some? then w.at[gone.value := Gone] else w.at
    ensures QueuedOk(w1)
  {
    if gone.Some? {
      assert w.at[gone.value] == Queued(c);
    }
    forall d, p | 0 <= d < |w1.cores| && p in w1.cores[d].cpu.queue
      ensures p in w1.at && w1.at[p] == Queued(d)
    {
      assert p in w.cores[d].cpu.queue;
      assert w.at[p] == Queued(d);
    }
    forall p | p in w1.at && w1.at[p].Queued?
      ensures w1.at[p].core < |w1.cores| && p in w1.cores[w1.at[p].core].cpu.queue
    {
      assert p in w.at && w.at[p] == w1.at[p];
    }
  }

  lemma CreatedLess(w: World, w1: World, c: nat, gone: Option<nat>)
    requires QueuedOk(w) && CreatedOk(w) && c < |w.cores| && w1.creators == w.creators
    requires gone.Some? ==> gone.value in w.cores[c].cpu.queue
    requires w1.at == if gone.Some? then w.at[gone.value := Gone] else w.at
    ensures CreatedOk(w1)
  {
    if gone.Some? {
      assert w.at[gone.value] == Queued(c);
    }
  }

  lemma MutatePlaces(w: World, c: nat)
    requires Ok(w) && Enabled(w, Mutate(c)) && CpusOk(w) && CpusOk(Apply(w, Mutate(c)))
    ensures PlacesOk(Apply(w, Mutate(c)))
  {
    var core, w1 := w.cores[c], Apply(w, Mutate(c));
    CpuAt(w, c);
    OthersSavedKeys(w, c);
    var gone := if Dies(core.cpu, w.procs) then core.cpu.current else None;
    DiesCurrent(core.cpu, w.procs);
    hide PlacesOk, LiveOk, LockOk, CpuOk, Switched, Saved, Dies;
    forall p
      ensures p in w1.cores[c].cpu.queue <==> p in core.cpu.queue && Some(p) != gone
    {
      QueueMembers(core.cpu, w.procs, p);
    }
    QueueMembers(core.cpu, w.procs, 0);
    PlacesLess(w, w1, c, gone);
  }

  lemma DiesCurrent(cpu: Cpu<nat>, procs: Procs<nat>)
    requires Known(cpu, procs)
    ensures Dies(cpu, procs) ==> cpu.current.Some?
  {
  }

  lemma OthersSavedKeys(w: World, c: nat)
    requires CpusOk(w) && c < |w.cores|
    ensures Known(w.cores[c].cpu, w.procs)
    ensures Saved(w.cores[c].cpu, w.procs, w.cores[c].regs).Keys == w.procs.Keys
  {
    CpuAt(w, c);
    SwitchOk(w.cores[c].cpu, w.procs, w.cores[c].regs);
  }

  /** A CPU's current process is nobody's, its own idle one, or one of its queue. */
  lemma CurrentPlace(w: World, c: nat)
    requires PlacesOk(w) && c < |w.cores| && w.cores[c].cpu.current.Some?
    ensures var p := w.cores[c].cpu.current.value;
            if p == w.cores[c].cpu.idle then p !in w.at else p in w.at && w.at[p] == Queued(c)
  {
    CpuAt(w, c);
    assert w.cores[c].cpu.current.value == w.cores[c].cpu.idle || w.cores[c].cpu.current.value in w.cores[c].cpu.queue;
  }

  lemma LiveStep(w: World, e: Event, p: nat)
    requires Ok(w) && Enabled(w, e) && CpusOk(w)
    requires p in Apply(w, e).at && !Apply(w, e).at[p].Gone?
    ensures LiveAt(Apply(w, e), p)
  {
    hide LockOk, PlacesOk;
    LiveBefore(w, e, p);
    match e
    case Mutate(c) => LiveMutate(w, c, p);
    case Switch(c) => LiveCore(w, e, p);
    case Execute(c, regs) => LiveCore(w, e, p);
    case Interrupt(c) => LiveCore(w, e, p);
    case Add(k) => LiveAdd(w, k, p);
    case _ =>
  }

  /** The process has its state already, unless it is just being created. */
  lemma LiveBefore(w: World, e: Event, p: nat)
    requires Ok(w) && Enabled(w, e) && CpusOk(w)
    requires p in Apply(w, e).at && !Apply(w, e).at[p].Gone?
    ensures (e.Spawn? && p == e.process) || (p in w.at && LiveAt(w, p))
  {
    hide LockOk, LiveAt, Saved, Switched, Ticked, CpuOk, SliceOver;
    if e.Add? {
      assert w.at[w.creators[e.creator].process] == WithCreator(e.creator);
    }
  }

  lemma LiveCore(w: World, e: Event, p: nat)
    requires Ok(w) && Enabled(w, e) && CpusOk(w) && p in w.at && LiveAt(w, p) && !w.at[p].Gone?
    requires e.Switch? || e.Execute? || e.Interrupt?
    ensures LiveAt(Apply(w, e), p)
  {
    hide LockOk, LiveOk;
    CpuAt(w, e.core);
    if w.cores[e.core].cpu.current.Some? {
      CurrentPlace(w, e.core);
    }
  }

  lemma LiveAdd(w: World, k: nat, p: nat)
    requires Ok(w) && Enabled(w, Add(k)) && CpusOk(w) && p in w.at && LiveAt(w, p)
    ensures LiveAt(Apply(w, Add(k)), p)
  {
    hide LockOk, LiveOk;
    var c := w.creators[k].core;
    assert w.at[w.creators[k].process] == WithCreator(k);
    if w.cores[c].cpu.current.Some? {
      CurrentPlace(w, c);
    }
  }

  lemma LiveMutate(w: World, c: nat, p: nat)
    requires Ok(w) && Enabled(w, Mutate(c)) && CpusOk(w)
    requires p in w.at && LiveAt(w, p)
    requires p in Apply(w, Mutate(c)).at && !Apply(w, Mutate(c)).at[p].Gone?
    ensures LiveAt(Apply(w, Mutate(c)), p)
  {
    hide LockOk;
    var core := w.cores[c];
    CpuAt(w, c);
    if core.cpu.current.Some? {
      CurrentPlace(w, c);
    }
    SavedContexts(core.cpu, w.procs, core.regs, p);
  }

  /** A mutation saves the frame in the current process unless that is idle, dying, or alone with an empty queue; no other
      context changes. */
  lemma SavedContexts(cpu: Cpu<nat>, procs: Procs<nat>, frame: ProcessContext, p: nat)
    requires CpuOk(cpu, procs) && p in procs
    ensures var procs1 := Saved(cpu, procs, frame);
            && p in procs1
            && procs1[p].context ==
               if Some(p) == cpu.current && p != cpu.idle && !Dies(cpu, procs) then frame else procs[p].context
  {
  }

  /** Every step but giving up on the lock keeps everything. */
  lemma StepOk(w: World, e: Event)
    requires Ok(w) && Enabled(w, e) && !e.GiveUp?
    ensures CpusOk(w) && Ok(Apply(w, e))
  {
    hide PlacesOk, LockOk, SwitchingOk, CreatorsOk, LiveAt;
    PlacesStep(w, e);
    CreatorsStep(w, e);
    LockStep(w, e);
    forall p | p in Apply(w, e).at && !Apply(w, e).at[p].Gone?
      ensures LiveAt(Apply(w, e), p)
    {
      LiveStep(w, e, p);
    }
  }

  /** Giving up breaks mutual exclusion at once: the lock was held, so two are inside. */
  lemma GiveUpBreaks(w: World, k: nat)
    requires Ok(w) && Enabled(w, GiveUp(k))
    ensures CpusOk(w) && !Mutex(Apply(w, GiveUp(k)))
  {
    PlacesCpus(w);
    var c, w1 := w.creators[k].core, Apply(w, GiveUp(k));
    assert CreatorIn(w1, k, c);
    if w.holder[c].TheCpu? {
      assert CoreIn(w, c) && CoreIn(w1, c);
    } else {
      var j := w.holder[c].creator;
      assert CreatorIn(w, j, c) && CreatorIn(w1, j, c);
      assert !CreatorIn(w, k, c);
    }
  }

  // ---------- runs ----------

  /** The scheduler as its constructor leaves it: idle processes made, queues empty, locks free. */
  predicate Initial(w: World) {
    && w.at == map[] && w.live == map[] && |w.holder| == |w.cores|
    && (forall k :: 0 <= k < |w.creators| ==> w.creators[k].Resting?)
    && (forall c :: 0 <= c < |w.cores| ==>
          && w.cores[c].cpu.queue == [] && w.cores[c].cpu.current.None?
          && !w.cores[c].lock && w.holder[c].Nobody? && w.cores[c].pc.Executing?
          && w.cores[c].cpu.idle in w.procs && w.procs[w.cores[c].cpu.idle].slice == 0
          && w.procs[w.cores[c].cpu.idle].defaultSlice == 0 && !w.procs[w.cores[c].cpu.idle].state.Dying?)
    && (forall c, d :: 0 <= c < d < |w.cores| ==> w.cores[c].cpu.idle != w.cores[d].cpu.idle)
  }

  lemma InitialOk(w: World)
    requires Initial(w)
    ensures Ok(w)
  {
  }

  /** Steps one after the other, each possible when it is taken, up to the first time a spinning creator gives up. */
  predicate Legal(w: World, events: seq<Event>)
    requires Ok(w)
    decreases |events|
  {
    events == [] ||
    (Enabled(w, events[0]) &&
     if events[0].GiveUp? then |events| == 1 else (StepOk(w, events[0]); Legal(Apply(w, events[0]), events[1..])))
  }

  function Run(w: World, events: seq<Event>): World
    requires Ok(w) && Legal(w, events)
    decreases |events|
  {
    if events == [] then w
    else
      PlacesCpus(w);
      if events[0].GiveUp? then Apply(w, events[0])
      else
        StepOk(w, events[0]);
        Run(Apply(w, events[0]), events[1..])
  }

  /** Over any run from the initial state everything is kept, and two are never inside for one CPU, if and only if no
      creator gives up on the lock. */
  lemma {:induction false} RunOk(w: World, events: seq<Event>)
    requires Ok(w) && Legal(w, events)
    ensures (forall i :: 0 <= i < |events| ==> !events[i].GiveUp?) ==> Ok(Run(w, events))
    ensures Mutex(Run(w, events)) <==> forall i :: 0 <= i < |events| ==> !events[i].GiveUp?
    decreases |events|
  {
    hide Mutex, Enabled, Apply, PlacesOk, LockOk, LiveOk;
    if events == [] {
      OkMutex(w);
    } else if events[0].GiveUp? {
      GiveUpBreaks(w, events[0].creator);
    } else {
      StepOk(w, events[0]);
      RunOk(Apply(w, events[0]), events[1..]);
      assert forall i :: 0 < i < |events| ==> events[i] == events[1..][i - 1];
    }
  }

  lemma OkMutex(w: World)
    requires Ok(w)
    ensures Mutex(w)
  {
    LockMutex(w);
  }

  // ---------- what it means ----------

  /** No process is current on two CPUs. */
  lemma NoProcessOnTwoCpus(w: World, c: nat, d: nat)
    requires Ok(w) && c < d < |w.cores| && w.cores[c].cpu.current.Some?
    ensures w.cores[c].cpu.current != w.cores[d].cpu.current
  {
    hide LiveOk, LockOk;
    CurrentPlace(w, c);
    if w.cores[d].cpu.current.Some? {
      CurrentPlace(w, d);
    }
  }

  /** The queues hold exactly the processes created, less those still with their creator and those removed: each of the
      others is in one queue, once. */
  lemma Accounted(w: World, p: nat)
    requires Ok(w)
    ensures (p in w.at && w.at[p].Queued?) <==>
            exists c, i :: 0 <= c < |w.cores| && 0 <= i < |w.cores[c].cpu.queue| && w.cores[c].cpu.queue[i] == p
    ensures forall c, d, i, j ::
              (0 <= c < |w.cores| && 0 <= d < |w.cores| && 0 <= i < |w.cores[c].cpu.queue|
               && 0 <= j < |w.cores[d].cpu.queue| && w.cores[c].cpu.queue[i] == p && w.cores[d].cpu.queue[j] == p) ==>
              c == d && i == j
  {
    hide LiveOk, LockOk;
    if p in w.at && w.at[p].Queued? {
      var c := w.at[p].core;
      var i :| 0 <= i < |w.cores[c].cpu.queue| && w.cores[c].cpu.queue[i] == p;
    }
    forall c, i | 0 <= c < |w.cores| && 0 <= i < |w.cores[c].cpu.queue| && w.cores[c].cpu.queue[i] == p
      ensures p in w.at && w.at[p] == Queued(c) && NoDuplicates(w.cores[c].cpu.queue)
    {
      CpuAt(w, c);
      assert p in w.cores[c].cpu.queue;
    }
  }

  /** Processes come only from creators and go only when they are current, dying, and at the end of their slice. */
  lemma PlaceChanges(w: World, e: Event, p: nat)
    requires Ok(w) && Enabled(w, e)
    ensures CpusOk(w)
    ensures var at1 := Apply(w, e).at;
            && (p in w.at ==> p in at1)
            && (p in at1 && p !in w.at ==> e.Spawn? && e.process == p)
            && (p in w.at && at1[p].Gone? && !w.at[p].Gone? ==>
                  e.Mutate? && w.cores[e.core].cpu.current == Some(p) && w.procs[p].state.Dying?)
  {
    hide LiveOk, LockOk;
    PlacesCpus(w);
    if e.Mutate? {
      CpuAt(w, e.core);
    }
  }

  /** A process's machine state changes only by its own execution. */
  lemma LiveOnlyExecutes(w: World, e: Event, p: nat)
    requires Ok(w) && Enabled(w, e) && p in w.at && !w.at[p].Gone?
    ensures CpusOk(w) && LiveAt(w, p) && p in Apply(w, e).live
    ensures Apply(w, e).live[p] != w.live[p] ==> e.Execute? && w.cores[e.core].cpu.current == Some(p)
  {
    hide LockOk;
    PlacesCpus(w);
  }

  /** So what `ProcessSwitch` loads is exactly the state the process had reached when it was last interrupted, or its
      initial context if it never ran. */
  lemma ResumesWhereLeft(w: World, c: nat)
    requires Ok(w) && Enabled(w, Switch(c)) && w.cores[c].cpu.current.Some?
    requires w.cores[c].cpu.current.value != w.cores[c].cpu.idle
    ensures var p := w.cores[c].cpu.current.value;
            && p in w.live && CpusOk(w)
            && Apply(w, Switch(c)).cores[c].regs == w.live[p]
  {
    hide LockOk;
    PlacesCpus(w);
    CurrentPlace(w, c);
    assert LiveAt(w, w.cores[c].cpu.current.value);
  }

  // ---------- what nobody interrupts is one call ----------

  lemma OkEnables(w: World)
    requires Ok(w)
    ensures CpusOk(w) && CreatorsOk(w) && SwitchingOk(w)
    ensures forall k {:trigger w.creators[k]} :: 0 <= k < |w.creators| && !w.creators[k].Resting? ==>
              w.creators[k].core < |w.cores|
  {
    PlacesCpus(w);
  }

  lemma RunFirst(w: World, e: Event, rest: seq<Event>)
    requires Ok(w) && Enabled(w, e) && !e.GiveUp?
    ensures CpusOk(w) && Ok(Apply(w, e))
    ensures Legal(Apply(w, e), rest) ==> Legal(w, [e] + rest) && Run(w, [e] + rest) == Run(Apply(w, e), rest)
  {
    PlacesCpus(w);
    StepOk(w, e);
    assert ([e] + rest)[1..] == rest;
    hide Ok, Enabled, Apply;
  }

  /** What is left of a call after the tick, with the lock free. */
  function CallRest(c: nat): seq<Event> {
    [TryLock(c)] + ([Mutate(c)] + ([Release(c)] + ([Switch(c)] + [])))
  }

  /** The five steps of a call, or the first if the slice lasts, are `Call`, and they leave everything else alone. */
  lemma StepsAreCall(w: World, c: nat)
    requires Ok(w) && c < |w.cores| && w.cores[c].pc.Executing? && !w.cores[c].lock
    ensures CpusOk(w)
    ensures var core := w.cores[c];
            var over, result := SliceOver(core.cpu, w.procs), Call(core.cpu, w.procs, core.regs);
            var events := [Interrupt(c)] + if over then CallRest(c) else [];
            && Legal(w, events)
            && var r := Run(w, events);
               && r.procs == result.1 && r.creators == w.creators && r.live == w.live
               && (over ==> result.0.current.Some? && result.0.current.value in result.1)
               && r.cores == w.cores[c := Core(result.0, false, Executing,
                                               if over then result.1[result.0.current.value].context else core.regs)]
  {
    var core := w.cores[c];
    PlacesCpus(w);
    CpuAt(w, c);
    CallOk(core.cpu, w.procs, core.regs);
    var over := SliceOver(core.cpu, w.procs);
    RunFirst(w, Interrupt(c), if over then CallRest(c) else []);
    var w1 := Apply(w, Interrupt(c));
    assert w1.cores[c].lock == false;
    if over {
      RestIsSwitch(w1, c);
    }
    hide Ok, Switched, Saved, Ticked, Run, Legal;
  }

  lemma RestIsSwitch(w: World, c: nat)
    requires Ok(w) && c < |w.cores| && w.cores[c].pc.AtLock? && !w.cores[c].lock
    ensures CpusOk(w) && Legal(w, CallRest(c))
    ensures var core, r := w.cores[c], Run(w, CallRest(c));
            var cpu1, procs1 := Switched(core.cpu, w.procs), Saved(core.cpu, w.procs, core.regs);
            && cpu1.current.Some? && cpu1.current.value in procs1
            && r.procs == procs1 && r.creators == w.creators && r.live == w.live
            && r.cores == w.cores[c := Core(cpu1, false, Executing, procs1[cpu1.current.value].context)]
  {
    hide Ok, Apply, Enabled, Switched, Saved, CpuOk, CpusOk, CreatorsOk, SwitchingOk, Run, Legal;
    OkEnables(w);
    TryIs(w, c);
    RunFirst(w, TryLock(c), [Mutate(c)] + ([Release(c)] + ([Switch(c)] + [])));
    var w1 := Apply(w, TryLock(c));
    OkEnables(w1);
    MutateIs(w1, c);
    RunFirst(w1, Mutate(c), [Release(c)] + ([Switch(c)] + []));
    var w2 := Apply(w1, Mutate(c));
    LeaveIs(w2, c);
  }

  lemma LeaveIs(w: World, c: nat)
    requires Ok(w) && c < |w.cores| && w.cores[c].pc.Mutated?
    requires var cpu := w.cores[c].cpu; cpu.current.Some? && cpu.current.value in w.procs
    ensures var core, events := w.cores[c], [Release(c)] + ([Switch(c)] + []);
            && Legal(w, events)
            && var r := Run(w, events);
               && r.procs == w.procs && r.creators == w.creators && r.live == w.live
               && r.cores == w.cores[c := Core(core.cpu, false, Executing, w.procs[core.cpu.current.value].context)]
  {
    hide Ok, Apply, Enabled, CpuOk, CpusOk, CreatorsOk, SwitchingOk;
    OkEnables(w);
    ReleaseIs(w, c);
    RunFirst(w, Release(c), [Switch(c)] + []);
    var w1 := Apply(w, Release(c));
    OkEnables(w1);
    SwitchIs(w1, c);
    RunFirst(w1, Switch(c), []);
  }

  lemma TryIs(w: World, c: nat)
    requires Ok(w) && c < |w.cores| && w.cores[c].pc.AtLock? && !w.cores[c].lock
    ensures CpusOk(w) && Enabled(w, TryLock(c))
    ensures var w1 := Apply(w, TryLock(c));
            && w1 == w.(cores := w.cores[c := w.cores[c].(lock := true, pc := Holding)], holder := w1.holder)
            && CpuOk(w.cores[c].cpu, w.procs)
  {
    hide LockOk, LiveOk;
    PlacesCpus(w);
    CpuAt(w, c);
  }

  lemma MutateIs(w: World, c: nat)
    requires Ok(w) && c < |w.cores| && w.cores[c].pc.Holding?
    ensures CpusOk(w) && Enabled(w, Mutate(c)) && CpuOk(w.cores[c].cpu, w.procs)
    ensures var w1, core := Apply(w, Mutate(c)), w.cores[c];
            var cpu1, procs1 := Switched(core.cpu, w.procs), Saved(core.cpu, w.procs, core.regs);
            && w1 == World(w.cores[c := core.(cpu := cpu1, pc := Mutated)], w.creators, procs1, w1.at, w.live, w1.holder)
            && cpu1.current.Some? && cpu1.current.value in procs1
  {
    hide LockOk, LiveOk;
    PlacesCpus(w);
    CpuAt(w, c);
    SwitchOk(w.cores[c].cpu, w.procs, w.cores[c].regs);
  }

  lemma ReleaseIs(w: World, c: nat)
    requires Ok(w) && c < |w.cores| && w.cores[c].pc.Mutated?
    ensures CpusOk(w) && Enabled(w, Release(c))
    ensures var w1 := Apply(w, Release(c));
            w1 == w.(cores := w.cores[c := w.cores[c].(lock := false, pc := Leaving)], holder := w1.holder)
  {
    hide LockOk, LiveOk;
    PlacesCpus(w);
  }

  lemma SwitchIs(w: World, c: nat)
    requires Ok(w) && c < |w.cores| && w.cores[c].pc.Leaving?
    requires var cpu := w.cores[c].cpu; cpu.current.Some? && cpu.current.value in w.procs
    ensures CpusOk(w) && Enabled(w, Switch(c))
    ensures var core := w.cores[c];
            Apply(w, Switch(c)) ==
            w.(cores := w.cores[c := core.(regs := w.procs[core.cpu.current.value].context, pc := Executing)])
  {
    hide LockOk, LiveOk;
    PlacesCpus(w);
  }

  /** The four steps of `NewProcess` on a free lock put the process at the back of the queue and leave the lock free. */
  lemma StepsAreNewProcess(w: World, k: nat, c: nat, p: nat, proc: Proc)
    requires Ok(w) && Enabled(w, Spawn(k, c, p, proc)) && !w.cores[c].lock
    ensures var events := [Spawn(k, c, p, proc)] + ([Acquire(k)] + ([Add(k)] + ([Unlock(k)] + [])));
            && Legal(w, events)
            && var r, cpu := Run(w, events), w.cores[c].cpu;
               && r.procs == w.procs[p := proc] && r.creators == w.creators
               && r.cores == w.cores[c := w.cores[c].(cpu := cpu.(queue := cpu.queue + [p]))]
               && p in r.at && r.at[p] == Queued(c)
  {
    hide Ok, CpusOk, SwitchingOk, CreatorsOk, Run, Legal;
    OkEnables(w);
    RunFirst(w, Spawn(k, c, p, proc), [Acquire(k)] + ([Add(k)] + ([Unlock(k)] + [])));
    var w1 := Apply(w, Spawn(k, c, p, proc));
    OkEnables(w1);
    AddIs(w1, k);
    hide Apply;
  }

  lemma AddIs(w: World, k: nat)
    requires Ok(w) && k < |w.creators| && w.creators[k].Spinning?
    requires w.creators[k].core < |w.cores| && !w.cores[w.creators[k].core].lock
    ensures var events := [Acquire(k)] + ([Add(k)] + ([Unlock(k)] + []));
            && Legal(w, events)
            && var r, a := Run(w, events), w.creators[k];
               var cpu := w.cores[a.core].cpu;
               && r.procs == w.procs && r.creators == w.creators[k := Resting]
               && r.cores == w.cores[a.core := w.cores[a.core].(cpu := cpu.(queue := cpu.queue + [a.process]))]
               && a.process in r.at && r.at[a.process] == Queued(a.core)
  {
    hide Ok, CpusOk, SwitchingOk, CreatorsOk;
    OkEnables(w);
    RunFirst(w, Acquire(k), [Add(k)] + ([Unlock(k)] + []));
    var w1 := Apply(w, Acquire(k));
    OkEnables(w1);
    RunFirst(w1, Add(k), [Unlock(k)] + []);
    var w2 := Apply(w1, Add(k));
    OkEnables(w2);
    RunFirst(w2, Unlock(k), []);
    hide Apply;
  }
}
