/** The scheduler's objects: processes, CPUs and their run queues (src/process/Scheduler/Scheduler.cpp,
    src/process/process.cpp), updated in place and proved against `SchedSpec`. */
module Schedulers {
  import opened Common
  import opened SchedSpec
  import opened Vectors

  const PROCESS_TICK_COUNT: nat := 5
  const STACK_BYTES: nat := 0x1000 * 32

  const CLEARED := ProcessContext(0, 0, 0, 0, 0, 0, 0, 0, 0, 0, 0, 0, 0, 0, 0, 0, 0, 0, 0, 0)

  const KERNEL_CS: nat := 0x08
  const KERNEL_SS: nat := 0x10

  /** A new process begins at its entry with its number and its data as arguments, at the end of its 32 stack pages. */
  predicate Starts(c: ProcessContext, pid: nat, entry: nat, data: nat, stack: nat) {
    && c.rip == entry && c.rdi == pid && c.rsi == data && c.rsp == stack + 32 * 4096 && c.rbp == stack + 32 * 4096
    && c.cs == 0x08 && c.ss == 0x10 && c.rflags == 0x202
    && c.r15 == c.r14 == c.r13 == c.r12 == c.r11 == c.r10 == c.r9 == c.r8 == c.rdx == c.rcx == c.rbx == c.rax == 0
  }

  class Process {
    const PID: nat
    var State: ProcessState
    var ActiveTicks: nat
    var TimeSlice: nat
    var DefaultTimeSlice: nat
    var Context: ProcessContext

    function Value(): Proc
      reads this
    {
      Proc(State, ActiveTicks, TimeSlice, DefaultTimeSlice, Context)
    }

    /** The constructor and `ContextCreation` or `IdleContextCreation`, which differ in the slice. */
    constructor (pid: nat, entry: nat, data: nat, stack: nat, slice: nat)
      ensures PID == pid
      ensures State == Ready && ActiveTicks == 0 && TimeSlice == slice && DefaultTimeSlice == slice
      ensures Context.rip == entry && Context.rdi == pid && Context.rsi == data
      ensures Context.rsp == stack + 32 * 4096 && Context.rbp == stack + 32 * 4096
      ensures Context.cs == 0x08 && Context.ss == 0x10 && Context.rflags == 0x202
      ensures Starts(Context, pid, entry, data, stack)
    {
      PID := pid;
      State := Ready;
      var stackEnd := stack + STACK_BYTES;
      var context := CLEARED.(rflags := 0x202, cs := KERNEL_CS, ss := KERNEL_SS);
      context := context.(rsp := stackEnd, rbp := stackEnd);
      Context := context.(rip := entry, rdi := pid, rsi := data);
      ActiveTicks, TimeSlice, DefaultTimeSlice := 0, slice, slice;
    }
  }

  ghost function Table(processes: set<Process>): Procs<Process>
    reads processes
  {
    map p | p in processes :: p.Value()
  }

  class CPU {
    var currentProcess: Process?
    var idleProcess: Process
    var QueueLock: bool
    var Queue: seq<Process>

    constructor (idle: Process)
      ensures currentProcess == null && !QueueLock && Queue == [] && idleProcess == idle
    {
      currentProcess, idleProcess, QueueLock, Queue := null, idle, false, [];
    }

    function Value(): Cpu<Process>
      reads this
    {
      if currentProcess == null then Cpu(None, idleProcess, Queue)
      else
        var current: Process := currentProcess;
        Cpu(Some(current), idleProcess, Queue)
    }

    /** Every process the CPU points to is one of these. */
    ghost predicate Uses(processes: set<Process>)
      reads this, processes
      ensures Uses(processes) ==> Known(Value(), Table(processes))
    {
      && idleProcess in processes
      && (currentProcess != null ==> currentProcess in processes)
      && (forall i :: 0 <= i < |Queue| ==> Queue[i] in processes)
    }

    /** Lines 88-98. */
    method CountTick(ghost processes: set<Process>) returns (over: bool)
      requires Uses(processes)
      modifies processes
      ensures Uses(processes)
      ensures over == old(currentProcess == null || currentProcess.TimeSlice == 0)
      ensures over == old(SliceOver(Value(), Table(processes)))
      ensures currentProcess != null ==>
                && currentProcess.ActiveTicks == old(currentProcess.ActiveTicks) + 1
                && currentProcess.TimeSlice == if over then 0 else old(currentProcess.TimeSlice) - 1
      ensures Table(processes) == old(Ticked(Value(), Table(processes)))
    {
      if currentProcess != null {
        currentProcess.ActiveTicks := currentProcess.ActiveTicks + 1;
        if currentProcess.TimeSlice > 0 {
          currentProcess.TimeSlice := currentProcess.TimeSlice - 1;
          return false;
        }
      }
      return true;
    }

    /** Lines 116-128: save the process that goes, and put it at the back. */
    method Preempt(frame: ProcessContext, ghost processes: set<Process>)
      requires Uses(processes) && Queue != [] && currentProcess != null
      modifies `Queue, processes
      ensures Uses(processes) && Queue == old(Queue[1..] + [currentProcess])
      ensures Table(processes) ==
              old(var p: Process := currentProcess;
                  Table(processes)[p := p.Value().(slice := p.DefaultTimeSlice, context := frame)])
    {
      currentProcess.TimeSlice := currentProcess.DefaultTimeSlice;
      currentProcess.Context := frame;
      Queue := Queue[1..];
      var p: Process := currentProcess;
      Queue := Queue + [p];
    }

    /** Lines 131-132. */
    method Resume(ghost processes: set<Process>)
      requires Uses(processes) && Queue != []
      modifies `currentProcess, processes
      ensures Uses(processes) && currentProcess == Queue[0]
      ensures Table(processes) ==
              old(Table(processes)[Queue[0] := Queue[0].Value().(slice := Queue[0].DefaultTimeSlice)])
    {
      currentProcess := Queue[0];
      currentProcess.TimeSlice := currentProcess.DefaultTimeSlice;
    }

    /** Lines 106-134, with the lock held. */
    method Swap(frame: ProcessContext, ghost processes: set<Process>)
      requires Uses(processes)
      modifies `currentProcess, `Queue, processes
      ensures Uses(processes) && currentProcess != null
      ensures Value() == old(Switched(Value(), Table(processes)))
      ensures Table(processes) == old(Saved(Value(), Table(processes), frame))
    {
      if currentProcess == null || |Queue| <= 0 {
        currentProcess := idleProcess;
      } else if currentProcess.State == Dying {
        var dying: Process := currentProcess;
        RemoveKnown(Queue, dying);
        Queue := Remove(Queue, dying);
        currentProcess := idleProcess;
      } else {
        if currentProcess != idleProcess {
          Preempt(frame, processes);
        }
        Resume(processes);
      }
    }

    /** A whole call: the context that `ProcessSwitch` loads, or none when the process goes on. */
    method Schedule(frame: ProcessContext, ghost processes: set<Process>) returns (loaded: Option<ProcessContext>)
      requires Uses(processes)
      modifies this, processes
      ensures Uses(processes) && QueueLock == old(QueueLock)
      ensures loaded.Some? == old((currentProcess == null || currentProcess.TimeSlice == 0) && !QueueLock)
      ensures loaded.Some? ==> currentProcess != null && loaded.value == currentProcess.Context
      ensures !old(QueueLock) ==> (Value(), Table(processes)) == old(Call(Value(), Table(processes), frame))
      ensures old(QueueLock) ==> Value() == old(Value()) && Table(processes) == old(Ticked(Value(), Table(processes)))
      ensures old(CpuOk(Value(), Table(processes))) ==> CpuOk(Value(), Table(processes))
    {
      hide Table, Switched, Saved;
      ghost var cpu, procs := Value(), Table(processes);
      if CpuOk(cpu, procs) {
        CallOk(cpu, procs, frame);
      }
      var over := CountTick(processes);
      if !over {
        return None;
      }
      var taken := QueueLock;
      QueueLock := true;
      if taken {
        return None;
      }
      Swap(frame, processes);
      QueueLock := false;
      return Some(currentProcess.Context);
    }

    /** Lines 171-174. The lock is taken at the latest when the spinning is given up. */
    method AddProcess(p: Process)
      modifies this
      ensures Value() == old(Value()).(queue := old(Queue) + [p]) && !QueueLock
    {
      QueueLock := true;
      Queue := Queue + [p];
      QueueLock := false;
    }
  }

  lemma {:induction false} RemoveKnown(queue: seq<Process>, p: Process)
    ensures forall q :: q in Remove(queue, p) ==> q in queue
    ensures forall i :: 0 <= i < |Remove(queue, p)| ==> Remove(queue, p)[i] in queue
  {
    if queue != [] && queue[0] != p {
      RemoveKnown(queue[1..], p);
    }
  }

  /** Lines 160-169: of the active CPUs, the first whose queue is shortest. */
  method PickCpu(cpus: seq<CPU>) returns (k: nat)
    requires cpus != []
    ensures k < |cpus|
    ensures forall j :: 0 <= j < k ==> |cpus[k].Queue| < |cpus[j].Queue|
    ensures forall j :: k < j < |cpus| ==> |cpus[k].Queue| <= |cpus[j].Queue|
  {
    k := 0;
    for i := 1 to |cpus|
      invariant k < i
      invariant forall j :: 0 <= j < k ==> |cpus[k].Queue| < |cpus[j].Queue|
      invariant forall j :: k < j < i ==> |cpus[k].Queue| <= |cpus[j].Queue|
    {
      if |cpus[i].Queue| < |cpus[k].Queue| {
        k := i;
      }
      if |cpus[k].Queue| == 0 {
        break;
      }
    }
  }

  /** What `IdleContextCreation` leaves: no slice, so every tick looks for another process. */
  predicate IsIdle(p: Process, pid: nat, entry: nat, stack: nat)
    reads p
  {
    && p.PID == pid && p.State == Ready && p.ActiveTicks == 0 && p.TimeSlice == 0 && p.DefaultTimeSlice == 0
    && Starts(p.Context, pid, entry, 0, stack)
  }

  /** What `ContextCreation` leaves: a slice of five ticks. */
  predicate IsNew(p: Process, pid: nat, entry: nat, data: nat, stack: nat)
    reads p
  {
    && p.PID == pid && p.State == Ready && p.ActiveTicks == 0 && p.TimeSlice == 5 && p.DefaultTimeSlice == 5
    && Starts(p.Context, pid, entry, data, stack)
  }

  class Scheduler {
    var NextPID: nat
    var SchedulerReady: bool
    var CPUs: seq<CPU>

    ghost predicate Distinct()
      reads this
    {
      CPUs != [] && forall i, j :: 0 <= i < j < |CPUs| ==> CPUs[i] != CPUs[j]
    }

    method CreateIdleProcess(entry: nat, stack: nat) returns (p: Process)
      modifies `NextPID
      ensures fresh(p) && IsIdle(p, old(NextPID), entry, stack) && NextPID == old(NextPID) + 1
    {
      p := new Process(NextPID, entry, 0, stack, 0);
      NextPID := NextPID + 1;
    }

    /** A new process goes to the back of the first shortest queue, and nothing else changes. */
    method NewProcess(entry: nat, data: nat, stack: nat) returns (p: Process, ghost k: nat)
      requires Distinct()
      modifies `NextPID, CPUs
      ensures fresh(p) && IsNew(p, old(NextPID), entry, data, stack) && NextPID == old(NextPID) + 1
      ensures k < |CPUs| && !CPUs[k].QueueLock
      ensures forall j :: 0 <= j < k ==> |old(CPUs[k].Queue)| < |old(CPUs[j].Queue)|
      ensures forall j :: k < j < |CPUs| ==> |old(CPUs[k].Queue)| <= |old(CPUs[j].Queue)|
      ensures CPUs[k].Value() == old(CPUs[k].Value()).(queue := old(CPUs[k].Queue) + [p])
      ensures forall j :: 0 <= j < |CPUs| && j != k ==> unchanged(CPUs[j])
    {
      p := new Process(NextPID, entry, data, stack, PROCESS_TICK_COUNT);
      NextPID := NextPID + 1;
      var i := PickCpu(CPUs);
      k := i;
      CPUs[i].AddProcess(p);
    }

    /** Lines 70-80: every other CPU is interrupted too, once there is something to schedule. */
    method Tick(cpu: CPU, frame: ProcessContext, ghost processes: set<Process>)
      returns (others: bool, loaded: Option<ProcessContext>)
      requires cpu.Uses(processes)
      modifies cpu, processes
      ensures others == SchedulerReady && cpu.Uses(processes)
      ensures !SchedulerReady ==> loaded.None? && unchanged(cpu) && unchanged(processes)
      ensures SchedulerReady && !old(cpu.QueueLock) ==>
                (cpu.Value(), Table(processes)) == old(Call(cpu.Value(), Table(processes), frame))
      ensures SchedulerReady && old(cpu.QueueLock) ==>
                loaded.None? && cpu.Value() == old(cpu.Value())
                && Table(processes) == old(Ticked(cpu.Value(), Table(processes)))
      ensures cpu.QueueLock == old(cpu.QueueLock)
    {
      if !SchedulerReady {
        return false, None;
      }
      loaded := cpu.Schedule(frame, processes);
      others := true;
    }

    constructor (cpus: seq<CPU>)
      ensures CPUs == cpus && NextPID == 0 && !SchedulerReady
    {
      NextPID, SchedulerReady, CPUs := 0, false, cpus;
    }

    /** Lines 39-57. */
    method PrepareCpus(entry: nat, stacks: seq<nat>)
      requires Distinct() && NextPID == 0 && |CPUs| <= |stacks|
      modifies `NextPID, CPUs
      ensures NextPID == |CPUs|
      ensures forall i :: 0 <= i < |CPUs| ==>
                && IsIdle(CPUs[i].idleProcess, i, entry, stacks[i]) && !CPUs[i].QueueLock && CPUs[i].Queue == []
                && CPUs[i].currentProcess == old(CPUs[i].currentProcess)
    {
      hide IsIdle;
      CreateIdles(entry, stacks);
      label Created:
      ClearQueues();
      forall i | 0 <= i < |CPUs|
        ensures IsIdle(CPUs[i].idleProcess, i, entry, stacks[i])
      {
        assert old@Created(IsIdle(CPUs[i].idleProcess, i, entry, stacks[i]));
      }
    }

    /** Line 60: with all queues empty the first CPU gets the process. */
    method FirstProcess(entry: nat, stack: nat) returns (p: Process)
      requires Distinct() && forall i :: 0 <= i < |CPUs| ==> CPUs[i].Queue == []
      modifies `NextPID, CPUs
      ensures fresh(p) && IsNew(p, old(NextPID), entry, 0, stack) && NextPID == old(NextPID) + 1
      ensures CPUs[0].Queue == [p] && !CPUs[0].QueueLock
      ensures CPUs[0].idleProcess == old(CPUs[0].idleProcess) && CPUs[0].currentProcess == old(CPUs[0].currentProcess)
      ensures forall i :: 0 < i < |CPUs| ==> unchanged(CPUs[i])
    {
      ghost var k;
      p, k := NewProcess(entry, 0, stack);
      assert |old(CPUs[0].Queue)| == 0;
    }

    /** Lines 39-47. */
    method CreateIdles(entry: nat, stacks: seq<nat>)
      requires Distinct() && NextPID == 0 && |CPUs| <= |stacks|
      modifies `NextPID, CPUs
      ensures NextPID == |CPUs|
      ensures forall i :: 0 <= i < |CPUs| ==> IsIdle(CPUs[i].idleProcess, i, entry, stacks[i])
      ensures forall i :: 0 <= i < |CPUs| ==> CPUs[i].currentProcess == old(CPUs[i].currentProcess)
    {
      for i := 0 to |CPUs|
        invariant NextPID == i
        invariant forall j :: 0 <= j < i ==> IsIdle(CPUs[j].idleProcess, j, entry, stacks[j])
        invariant forall j :: 0 <= j < |CPUs| ==> CPUs[j].currentProcess == old(CPUs[j].currentProcess)
      {
        var idle := CreateIdleProcess(entry, stacks[i]);
        CPUs[i].idleProcess := idle;
      }
    }

    /** Lines 50-57. */
    method ClearQueues()
      requires Distinct()
      modifies CPUs
      ensures forall i :: 0 <= i < |CPUs| ==>
                && CPUs[i].Queue == [] && !CPUs[i].QueueLock
                && CPUs[i].idleProcess == old(CPUs[i].idleProcess) && CPUs[i].currentProcess == old(CPUs[i].currentProcess)
    {
      for i := 0 to |CPUs|
        invariant forall j :: 0 <= j < |CPUs| ==>
                    && CPUs[j].idleProcess == old(CPUs[j].idleProcess) && CPUs[j].currentProcess == old(CPUs[j].currentProcess)
        invariant forall j :: 0 <= j < i ==> CPUs[j].Queue == [] && !CPUs[j].QueueLock
      {
        CPUs[i].Queue := [];
        CPUs[i].QueueLock := false;
      }
    }

    /** The body of the constructor, lines 38-66: an idle process for each CPU, empty queues, free locks, and the kernel's
        second stage in the queue of the first. */
    method Start(local: nat, idleEntry: nat, entry: nat, stacks: seq<nat>)
      requires Distinct() && NextPID == 0 && local < |CPUs| && |stacks| == |CPUs| + 1
      modifies `NextPID, `SchedulerReady, CPUs
      ensures SchedulerReady && NextPID == |CPUs| + 1 && CPUs[local].currentProcess == null
      ensures forall i :: 0 <= i < |CPUs| ==>
                && IsIdle(CPUs[i].idleProcess, i, idleEntry, stacks[i])
                && !CPUs[i].QueueLock && |CPUs[i].Queue| == if i == 0 then 1 else 0
      ensures var p := CPUs[0].Queue[0];
              fresh(p) && IsNew(p, |CPUs|, entry, 0, stacks[|CPUs|])
      ensures forall i :: 0 <= i < |CPUs| && i != local ==> CPUs[i].currentProcess == old(CPUs[i].currentProcess)
    {
      hide IsIdle, IsNew, Process.Value, CPU.Value;
      PrepareCpus(idleEntry, stacks);
      label Prepared:
      var p := FirstProcess(entry, stacks[|CPUs|]);
      forall i | 0 <= i < |CPUs|
        ensures IsIdle(CPUs[i].idleProcess, i, idleEntry, stacks[i])
        ensures CPUs[i].currentProcess == old(CPUs[i].currentProcess)
        ensures !CPUs[i].QueueLock && |CPUs[i].Queue| == if i == 0 then 1 else 0
      {
        assert old@Prepared(IsIdle(CPUs[i].idleProcess, i, idleEntry, stacks[i]));
      }
      CPUs[local].currentProcess := null;
      SchedulerReady := true;
    }
  }
}
