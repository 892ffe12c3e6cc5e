/** The start-up of the other CPUs (src/smp/smp.cpp, src/smp/smptrampoline.asm): the boot CPU and the CPUs it starts share
    a mailbox, a flag and two allocators without locks. Every store to shared memory and every stay in an allocator is a
    step of its own, and the steps of the CPUs interleave. */
module SmpBoot {
  import opened Common
  import opened FrameSpec

  const SMP_MAGIC: nat := 0xB33F
  const STACK_SIZE: nat := 0x1000

  /** Where the boot CPU is: at the head of the loop over the cores, inside `InitializeCPU`, behind the loop, or back in the
      kernel. `InHeap`, `InFrames`, `InTss` and `InLater` are the stays in the heap and the frame allocator; the last is
      any that the kernel makes after `SMP::Intitialise`, beginning with the scheduler's. */
  datatype BootPc =
    | Head
    | InHeap
    | Publish
    | ClearMagic
    | PutId
    | InFrames
    | PutStack(page: nat)
    | RaiseStack
    | SendInit
    | SendStartup
    | LastCheck
    | AwaitDone
    | ClearDone
    | Count
    | InTss(left: nat)
    | Returned
    | InLater

  /** Where another CPU is: not yet reset, waiting for its start-up interrupt, sent that interrupt, in the trampoline, in
      `SMPEntry` with its requests for pages and then its heap object, and past `doneInit = true`. */
  datatype ApPc =
    | Off
    | Waiting
    | Sent
    | Began
    | HasStack
    | HasId
    | AsksFrames(left: nat)
    | AsksHeap
    | Signals
    | Done

  /** A CPU and what it has read from the mailbox. */
  datatype Ap = Ap(pc: ApPc, stack: nat, id: nat)

  /** What a CPU has asked the frame allocator for, or the boot CPU for it, and what was granted. */
  datatype Hold = Hold(cpu: nat, pages: nat, grant: Grant)

  /** The last three are history: `given` is the stack page obtained for each CPU, `counted` the CPUs counted in `active`,
      and `held` every request for stacks and the copy of the GDT. */
  datatype World = World(
    ids: seq<nat>, boot: nat,
    pc: BootPc, i: nat,
    magic: nat, mailId: nat, mailStack: nat, doneInit: bool, active: nat,
    published: set<nat>, pfa: Pfa, aps: map<nat, Ap>,
    given: map<nat, nat>, counted: set<nat>, held: seq<Hold>)

  /** `pages` is how many pages the heap asked for while it was entered. */
  datatype Event =
    | BootMoves(pages: nat)
    | Begins(ap: nat)
    | BeginsLate(ap: nat)
    | Moves(ap: nat, pages: nat)

  /** `InitTSS` asks three times for eight pages. */
  const TSS_STACKS: nat := 3
  const TSS_PAGES: nat := 8

  predicate Working(w: World) {
    !w.pc.Head? && !w.pc.InTss? && !w.pc.Returned? && !w.pc.InLater?
  }

  predicate Shape(w: World) {
    && w.i <= |w.ids|
    && (forall a :: a in w.ids ==> a in w.aps)
    && (Working(w) ==> w.i < |w.ids|)
    && (w.pc.Head? || Working(w) || w.i == |w.ids|)
  }

  function Current(w: World): nat
    requires Shape(w) && Working(w)
  {
    w.ids[w.i]
  }

  /** The trampoline has begun and `SMPEntry` has not yet signalled. */
  predicate Underway(pc: ApPc) {
    pc.Began? || pc.HasStack? || pc.HasId? || pc.AsksFrames? || pc.AsksHeap? || pc.Signals?
  }

  /** A CPU begins in time if the boot CPU still waits for it. */
  predicate InTime(w: World, a: nat)
    requires Shape(w)
  {
    w.pc.LastCheck? && a == Current(w)
  }

  predicate Enabled(w: World, e: Event)
    requires Shape(w)
  {
    match e
    case BootMoves(_) => w.pc.AwaitDone? ==> w.doneInit
    case Begins(a) => a in w.aps && w.aps[a].pc.Sent? && InTime(w, a)
    case BeginsLate(a) => a in w.aps && w.aps[a].pc.Sent? && !InTime(w, a)
    case Moves(a, _) => a in w.aps && Underway(w.aps[a].pc)
  }

  function MoveAp(w: World, a: nat, pc: ApPc): World
    requires a in w.aps
  {
    w.(aps := w.aps[a := w.aps[a].(pc := pc)])
  }

  /** Where the boot CPU goes in `InitializeCPU`, the loop around it, and behind the loop. */
  function NextPc(w: World): BootPc
    requires Shape(w)
  {
    match w.pc
    case Head => if w.i == |w.ids| then InTss(TSS_STACKS) else if w.ids[w.i] == w.boot then Head else InHeap
    case InHeap => Publish
    case Publish => ClearMagic
    case ClearMagic => PutId
    case PutId => InFrames
    case InFrames => PutStack(Request(w.pfa).1)
    case PutStack(_) => RaiseStack
    case RaiseStack => SendInit
    case SendInit => SendStartup
    case SendStartup => LastCheck
    case LastCheck => if w.magic != SMP_MAGIC then Head else AwaitDone
    case AwaitDone => ClearDone
    case ClearDone => Count
    case Count => Head
    case InTss(left) => if left == 0 then Returned else InTss(left - 1)
    case Returned => InLater
    case InLater => Returned
  }

  function AskOne(w: World, a: nat): Hold {
    Hold(a, 1, Granted(w.pfa, RequestOp))
  }

  function AskMany(w: World, a: nat): Hold {
    Hold(a, TSS_PAGES, Granted(w.pfa, RequestManyOp(TSS_PAGES)))
  }

  /** And what it changes there. */
  function Effect(w: World, pages: nat): (w1: World)
    requires Shape(w)
    ensures w1.pc == w.pc
  {
    match w.pc
    case Head => if w.i < |w.ids| && w.ids[w.i] == w.boot then w.(i := w.i + 1) else w
    case InHeap => w.(pfa := Requests(w.pfa, pages))
    case Publish => w.(published := w.published + {Current(w)})
    case ClearMagic => w.(magic := 0)
    case PutId => w.(mailId := Current(w))
    case InFrames =>
      var r := Request(w.pfa);
      w.(pfa := r.0, given := w.given[Current(w) := r.1], held := w.held + [AskOne(w, Current(w))])
    case PutStack(page) => w.(mailStack := page)
    case RaiseStack => w.(mailStack := w.mailStack + STACK_SIZE)
    case SendInit => MoveAp(w, Current(w), Waiting)
    case SendStartup => if w.magic != SMP_MAGIC then MoveAp(w, Current(w), Sent) else w
    case LastCheck => if w.magic != SMP_MAGIC then w.(i := w.i + 1) else w
    case ClearDone => w.(doneInit := false)
    case Count => w.(i := w.i + 1, active := (w.active + 1) % 256, counted := w.counted + {Current(w)})
    case InTss(left) =>
      if left == 0 then w else w.(pfa := RequestMany(w.pfa, TSS_PAGES).0, held := w.held + [AskMany(w, w.boot)])
    case InLater => w.(pfa := Requests(w.pfa, pages))
    case _ => w
  }

  function BootStep(w: World, pages: nat): World
    requires Shape(w)
  {
    Effect(w, pages).(pc := NextPc(w))
  }

  /** The trampoline and `SMPEntry`. */
  function ApStep(w: World, a: nat, pages: nat): World
    requires a in w.aps
  {
    var ap := w.aps[a];
    match ap.pc
    case Began => w.(aps := w.aps[a := Ap(HasStack, w.mailStack, ap.id)])
    case HasStack => w.(aps := w.aps[a := Ap(HasId, ap.stack, w.mailId)])
    case HasId => MoveAp(w, a, AsksFrames(1 + TSS_STACKS))
    case AsksFrames(left) =>
      if left == 0 then MoveAp(w, a, AsksHeap)
      else if left == 1 + TSS_STACKS then
        MoveAp(w, a, AsksFrames(left - 1)).(pfa := Request(w.pfa).0, held := w.held + [AskOne(w, a)])
      else
        MoveAp(w, a, AsksFrames(left - 1)).(pfa := RequestMany(w.pfa, TSS_PAGES).0, held := w.held + [AskMany(w, a)])
    case AsksHeap => MoveAp(w, a, Signals).(pfa := Requests(w.pfa, pages))
    case Signals => MoveAp(w, a, Done).(doneInit := true)
    case _ => w
  }

  function Apply(w: World, e: Event): World
    requires Shape(w) && Enabled(w, e)
  {
    match e
    case BootMoves(pages) => BootStep(w, pages)
    case Begins(a) => MoveAp(w, a, Began).(magic := SMP_MAGIC)
    case BeginsLate(a) => MoveAp(w, a, Began).(magic := SMP_MAGIC)
    case Moves(a, pages) => ApStep(w, a, pages)
  }

  // ---------- what every step keeps ----------

  predicate BootInside(w: World) {
    w.pc.InHeap? || w.pc.InFrames? || (w.pc.InTss? && w.pc.left > 0) || w.pc.InLater?
  }

  predicate ApInside(w: World, a: nat) {
    a in w.aps && ((w.aps[a].pc.AsksFrames? && w.aps[a].pc.left > 0) || w.aps[a].pc.AsksHeap?)
  }

  /** No two CPUs are inside the unlocked allocators. */
  predicate Exclusive(w: World) {
    && (forall a :: a in w.aps && ApInside(w, a) ==> !BootInside(w))
    && (forall a, b :: a in w.aps && b in w.aps && ApInside(w, a) && ApInside(w, b) ==> a == b)
  }

  /** The cores' numbers differ. */
  predicate IdsOk(w: World) {
    forall j, k :: 0 <= j < k < |w.ids| ==> w.ids[j] != w.ids[k]
  }

  /** Each core but the current one is untouched, given up, or done; the boot CPU is untouched. */
  predicate OthersOk(w: World)
    requires Shape(w)
  {
    && IdsOk(w)
    && (forall a :: a in w.aps ==> a in w.ids)
    && (forall k :: 0 <= k < w.i ==> var pc := w.aps[w.ids[k]].pc; pc.Sent? || pc.Done? || w.ids[k] == w.boot)
    && (forall k :: 0 <= k < |w.ids| && (k > w.i || (k == w.i && !Working(w)) || w.ids[k] == w.boot) ==>
          w.aps[w.ids[k]].pc.Off?)
    && (Working(w) ==> Current(w) != w.boot)
  }

  /** How far the current core is, by how far the boot CPU is. */
  predicate CurrentOk(w: World)
    requires Shape(w)
  {
    if !Working(w) then !w.doneInit
    else
      var pc := w.aps[Current(w)].pc;
      match w.pc
      case SendStartup => pc.Waiting? && w.magic == 0 && !w.doneInit
      case LastCheck =>
        if w.magic == SMP_MAGIC then (Underway(pc) || pc.Done?) && w.doneInit == pc.Done?
        else pc.Sent? && !w.doneInit
      case AwaitDone => w.magic == SMP_MAGIC && (Underway(pc) || pc.Done?) && w.doneInit == pc.Done?
      case ClearDone => pc.Done?
      case Count => pc.Done? && !w.doneInit
      case _ => pc.Off? && !w.doneInit
  }

  /** The mailbox holds what was written for the current core. */
  predicate MailOk(w: World)
    requires Shape(w)
  {
    Working(w) ==>
      var a := Current(w);
      var sent := w.pc.SendInit? || w.pc.SendStartup? || w.pc.LastCheck? || w.pc.AwaitDone?;
      && (w.pc.InFrames? || w.pc.PutStack? || w.pc.RaiseStack? || sent ==> w.mailId == a)
      && (w.pc.PutId? || w.pc.InFrames? || w.pc.PutStack? || w.pc.RaiseStack? || w.pc.SendInit? ==> w.magic == 0)
      && (w.pc.PutStack? || w.pc.RaiseStack? || sent ==> a in w.given)
      && (w.pc.PutStack? ==> w.given[a] == w.pc.page)
      && (w.pc.RaiseStack? ==> w.mailStack == w.given[a])
      && (sent ==> w.mailStack == w.given[a] + STACK_SIZE)
      && (!w.pc.InHeap? && !w.pc.Publish? ==> a in w.published)
  }

  /** A CPU that has begun has read exactly what was written for it, and finds its own object. */
  predicate ReadsOk(w: World) {
    forall a :: a in w.aps ==> ReadOk(w, a)
  }

  predicate ReadOk(w: World, a: nat)
    requires a in w.aps
  {
    var pc := w.aps[a].pc;
    && (pc.HasStack? || pc.HasId? || pc.AsksFrames? || pc.AsksHeap? || pc.Signals? || pc.Done? ==>
          a in w.given && w.aps[a].stack == w.given[a] + STACK_SIZE)
    && (pc.HasId? || pc.AsksFrames? || pc.AsksHeap? || pc.Signals? || pc.Done? ==>
          w.aps[a].id == a && a in w.published)
    && (pc.AsksFrames? ==> pc.left <= 1 + TSS_STACKS)
  }

  /** The stack pages granted are locked, and no two are the same. */
  predicate StacksOk(p: Pfa, given: map<nat, nat>) {
    && p.Valid()
    && (forall a :: a in given && given[a] != 0 ==>
          given[a] % PAGE == 0 && given[a] / PAGE < |p.bits| && p.bits[given[a] / PAGE])
    && (forall a, b :: a in given && b in given && a != b && given[a] != 0 ==> given[a] != given[b])
  }

  /** The counter follows the CPUs that are done, but for the current one. */
  ghost predicate CountOk(w: World)
    requires Shape(w)
  {
    && w.active == (1 + |w.counted|) % 256
    && (forall a :: a in w.counted <==> a in w.aps && w.aps[a].pc.Done? && !(Working(w) && a == Current(w)))
  }

  ghost predicate Ok(w: World) {
    Shape(w) && OthersOk(w) && CurrentOk(w) && MailOk(w) && ReadsOk(w) && StacksOk(w.pfa, w.given) && CountOk(w)
  }

  // ---------- the frames ----------

  lemma StackGranted(p: Pfa, given: map<nat, nat>, a: nat)
    requires StacksOk(p, given)
    ensures StacksOk(Request(p).0, given[a := Request(p).1])
  {
    StepBits(p, RequestOp);
    var r := NextClear(p, p.hint);
    assert r < p.Limit() ==> Request(p).1 / PAGE == r && Granted(p, RequestOp).Has(r);
  }

  lemma StacksStay(p: Pfa, given: map<nat, nat>, op: Op)
    requires StacksOk(p, given) && !op.ActOp?
    ensures StacksOk(Step(p, op), given)
  {
    StepBits(p, op);
  }

  lemma {:induction false} StacksStayAll(p: Pfa, given: map<nat, nat>, pages: nat)
    requires StacksOk(p, given)
    ensures StacksOk(Requests(p, pages), given)
  {
    if pages > 0 {
      StacksStayAll(p, given, pages - 1);
      StacksStay(Requests(p, pages - 1), given, RequestOp);
    }
  }

  // ---------- the steps ----------

  /** The parts about the mailbox, the flag and the program counters. */
  predicate Rest(w: World) {
    Shape(w) && OthersOk(w) && CurrentOk(w) && MailOk(w) && ReadsOk(w)
  }

  lemma IdsDiffer(w: World, j: nat, k: nat)
    requires IdsOk(w) && j < |w.ids| && k < |w.ids| && j != k
    ensures w.ids[j] != w.ids[k]
  {
  }

  lemma BootIds(w: World, pages: nat)
    requires Shape(w) && Enabled(w, BootMoves(pages))
    ensures BootStep(w, pages).ids == w.ids && BootStep(w, pages).boot == w.boot
  {
    hide Request, RequestMany, Requests, AskOne, AskMany, Current, NextPc, Shape;
  }

  /** A boot step leaves the cores alone, but for its interrupts. */
  lemma BootFrame(w: World, pages: nat)
    requires Shape(w) && Enabled(w, BootMoves(pages))
    ensures var w1 := BootStep(w, pages);
            && w1.ids == w.ids && w1.boot == w.boot
            && (!w.pc.SendInit? && !w.pc.SendStartup? ==> w1.aps == w.aps)
  {
    hide Request, RequestMany, Requests, AskOne, AskMany, Current, MoveAp;
    BootIds(w, pages);
  }

  lemma SendKeys(w: World, pages: nat)
    requires Shape(w) && (w.pc.SendInit? || w.pc.SendStartup?)
    ensures BootStep(w, pages).aps.Keys == w.aps.Keys
  {
    hide Request, RequestMany, Requests, AskOne, AskMany;
  }

  /** The loop goes on to the next core. */
  predicate NextCore(w: World) {
    (w.pc.LastCheck? && w.magic != SMP_MAGIC) || w.pc.Count? || (w.pc.Head? && w.i < |w.ids| && w.ids[w.i] == w.boot)
  }

  lemma EffectIndex(w: World, pages: nat)
    requires Shape(w)
    ensures Effect(w, pages).i == if NextCore(w) then w.i + 1 else w.i
  {
    hide Request, RequestMany, Requests, AskOne, AskMany, Current;
  }

  lemma BootIndex(w: World, pages: nat)
    requires Shape(w) && Enabled(w, BootMoves(pages))
    ensures var w1 := BootStep(w, pages);
            if NextCore(w) then w1.pc.Head? && w1.i == w.i + 1
            else w1.i == w.i && Working(w1) == (Working(w) || (w.pc.Head? && w.i < |w.ids|))
  {
    EffectIndex(w, pages);
    hide Effect, Request;
  }

  lemma BootKeys(w: World, pages: nat)
    requires Shape(w) && Enabled(w, BootMoves(pages))
    ensures BootStep(w, pages).aps.Keys == w.aps.Keys
  {
    if w.pc.SendInit? || w.pc.SendStartup? {
      SendKeys(w, pages);
    } else {
      BootFrame(w, pages);
    }
  }

  lemma BootShape(w: World, pages: nat)
    requires Shape(w) && Enabled(w, BootMoves(pages))
    ensures Shape(BootStep(w, pages))
  {
    BootIds(w, pages);
    BootKeys(w, pages);
    BootIndex(w, pages);
    hide BootStep;
  }

  lemma BootOthers(w: World, pages: nat)
    requires Rest(w) && Enabled(w, BootMoves(pages))
    ensures Shape(BootStep(w, pages)) && OthersOk(BootStep(w, pages))
  {
    hide BootStep, MailOk, ReadsOk;
    BootShape(w, pages);
    BootFrame(w, pages);
    BootIndex(w, pages);
    if w.pc.SendInit? || w.pc.SendStartup? {
      SendOthers(w, pages);
    }
  }

  lemma SendOthers(w: World, pages: nat)
    requires Shape(w) && OthersOk(w) && (w.pc.SendInit? || w.pc.SendStartup?)
    ensures Shape(BootStep(w, pages)) && OthersOk(BootStep(w, pages))
  {
    hide OthersOk;
    CurrentOthers(w, BootStep(w, pages));
  }

  /** The others do not notice what becomes of the current core. */
  lemma CurrentOthers(w: World, w1: World)
    requires Shape(w) && OthersOk(w) && Working(w) && w1.ids == w.ids && w1.boot == w.boot && w1.i == w.i && Working(w1)
    requires Current(w) in w1.aps && w1.aps == w.aps[Current(w) := w1.aps[Current(w)]]
    ensures Shape(w1) && OthersOk(w1)
  {
    forall k | 0 <= k < |w.ids| && k != w.i
      ensures w1.aps[w.ids[k]] == w.aps[w.ids[k]]
    {
      IdsDiffer(w, k, w.i);
    }
  }

  lemma BootCurrent(w: World, pages: nat)
    requires Rest(w) && Enabled(w, BootMoves(pages))
    ensures Shape(BootStep(w, pages)) && CurrentOk(BootStep(w, pages))
  {
    hide Request, RequestMany, Requests, AskOne, AskMany, ReadsOk;
    BootShape(w, pages);
    if w.pc.Head? && w.i < |w.ids| {
      assert w.aps[w.ids[w.i]].pc.Off?;
    }
  }

  lemma BootMail(w: World, pages: nat)
    requires Rest(w) && Enabled(w, BootMoves(pages))
    ensures Shape(BootStep(w, pages)) && MailOk(BootStep(w, pages))
  {
    hide Request, RequestMany, Requests, AskOne, AskMany, ReadsOk, OthersOk;
    BootShape(w, pages);
  }

  lemma BootReads(w: World, pages: nat)
    requires Rest(w) && Enabled(w, BootMoves(pages))
    ensures ReadsOk(BootStep(w, pages))
  {
    hide Request, RequestMany, Requests, AskOne, AskMany, OthersOk, MailOk, ReadOk;
    forall a | a in w.aps
      ensures ReadOk(BootStep(w, pages), a)
    {
      BootRead(w, pages, a);
    }
  }

  lemma BootRead(w: World, pages: nat, a: nat)
    requires Rest(w) && Enabled(w, BootMoves(pages)) && a in w.aps
    ensures a in BootStep(w, pages).aps && ReadOk(BootStep(w, pages), a)
  {
    hide Request, RequestMany, Requests, AskOne, AskMany, OthersOk, MailOk;
    assert ReadOk(w, a);
  }

  /** A moving CPU is the current one. */
  lemma MoverIsCurrent(w: World, a: nat)
    requires Rest(w) && a in w.aps && Underway(w.aps[a].pc)
    ensures Working(w) && a == Current(w) && w.magic == SMP_MAGIC && (w.pc.LastCheck? || w.pc.AwaitDone?)
  {
    var k :| 0 <= k < |w.ids| && w.ids[k] == a;
  }

  /** A step of the current CPU that keeps it under way or finishes it. */
  lemma CurrentMoves(w: World, w1: World)
    requires Rest(w) && Working(w) && (w.pc.LastCheck? || w.pc.AwaitDone?)
    requires w1 == w.(aps := w1.aps, pfa := w1.pfa, doneInit := w1.doneInit, magic := SMP_MAGIC, held := w1.held)
    requires Current(w) in w1.aps && w1.aps == w.aps[Current(w) := w1.aps[Current(w)]]
    requires ReadOk(w1, Current(w))
    requires var pc := w1.aps[Current(w)].pc; (Underway(pc) || pc.Done?) && w1.doneInit == pc.Done?
    ensures Rest(w1)
  {
    CurrentOthers(w, w1);
    forall a | a in w.aps
      ensures ReadOk(w1, a)
    {
      assert ReadOk(w, a);
    }
  }

  lemma BootRest(w: World, pages: nat)
    requires Rest(w) && Enabled(w, BootMoves(pages))
    ensures Rest(BootStep(w, pages))
  {
    hide BootStep, OthersOk, CurrentOk, MailOk, ReadsOk;
    BootOthers(w, pages);
    BootCurrent(w, pages);
    BootMail(w, pages);
    BootReads(w, pages);
  }

  lemma StartRest(w: World, a: nat)
    requires Rest(w) && Enabled(w, Begins(a))
    ensures Rest(Apply(w, Begins(a)))
  {
    CurrentMoves(w, Apply(w, Begins(a)));
  }

  lemma StepRest(w: World, a: nat, pages: nat)
    requires Rest(w) && Enabled(w, Moves(a, pages))
    ensures Rest(ApStep(w, a, pages))
  {
    hide Request, RequestMany, Requests, AskOne, AskMany, OthersOk;
    MoverIsCurrent(w, a);
    assert ReadOk(w, a);
    CurrentMoves(w, ApStep(w, a, pages));
  }

  lemma StepStacks(w: World, e: Event)
    requires Shape(w) && StacksOk(w.pfa, w.given) && Enabled(w, e)
    ensures StacksOk(Apply(w, e).pfa, Apply(w, e).given)
  {
    hide StacksOk, Request, RequestMany;
    match e
    case BootMoves(pages) =>
      StacksStayAll(w.pfa, w.given, pages);
      if w.pc.InFrames? {
        StackGranted(w.pfa, w.given, Current(w));
      }
      StacksStay(w.pfa, w.given, RequestManyOp(TSS_PAGES));
    case Moves(_, pages) =>
      StacksStayAll(w.pfa, w.given, pages);
      StacksStay(w.pfa, w.given, RequestOp);
      StacksStay(w.pfa, w.given, RequestManyOp(TSS_PAGES));
    case _ =>
  }

  /** Counted is who is done, with the current core set apart while it is worked on. */
  lemma CountMembers(w: World, pages: nat, a: nat)
    requires Rest(w) && CountOk(w) && Enabled(w, BootMoves(pages)) && a in w.aps
    ensures var w1 := BootStep(w, pages);
            && Shape(w1) && a in w1.aps
            && (a in w1.counted <==> w1.aps[a].pc.Done? && !(Working(w1) && a == Current(w1)))
  {
    hide Request, RequestMany, Requests, AskOne, AskMany, MailOk, ReadsOk, OthersOk;
    BootShape(w, pages);
    HeadIsOff(w);
    assert a in w.counted <==> w.aps[a].pc.Done? && !(Working(w) && a == Current(w));
  }

  /** The core the loop comes to has not been touched. */
  lemma HeadIsOff(w: World)
    requires Shape(w) && OthersOk(w)
    ensures w.pc.Head? && w.i < |w.ids| ==> w.aps[w.ids[w.i]].pc.Off?
  {
  }

  lemma BootCounts(w: World, pages: nat)
    requires Shape(w) && Enabled(w, BootMoves(pages))
    ensures var w1 := BootStep(w, pages);
            if w.pc.Count? then w1.counted == w.counted + {Current(w)} && w1.active == (w.active + 1) % 256
            else w1.counted == w.counted && w1.active == w.active
  {
    hide Request, RequestMany, Requests, AskOne, AskMany;
  }

  lemma BootActive(w: World, pages: nat)
    requires Shape(w) && CountOk(w) && Enabled(w, BootMoves(pages)) && (w.pc.Count? ==> w.aps[Current(w)].pc.Done?)
    ensures var w1 := BootStep(w, pages);
            && w1.active == (1 + |w1.counted|) % 256
            && w1.counted == (if w.pc.Count? then w.counted + {Current(w)} else w.counted)
  {
    BootCounts(w, pages);
    assert w.active == (1 + |w.counted|) % 256;
    assert w.pc.Count? ==> Current(w) in w.aps && Current(w) !in w.counted;
    NextByte(|w.counted|);
    hide *;
  }

  lemma NextByte(n: nat)
    ensures ((1 + n) % 256 + 1) % 256 == (1 + (n + 1)) % 256
  {
  }

  lemma BootCount(w: World, pages: nat)
    requires Rest(w) && CountOk(w) && Enabled(w, BootMoves(pages))
    ensures Shape(BootStep(w, pages)) && CountOk(BootStep(w, pages))
  {
    hide BootStep, MailOk, ReadsOk, OthersOk;
    BootShape(w, pages);
    BootFrame(w, pages);
    if w.pc.SendInit? || w.pc.SendStartup? {
      SendKeys(w, pages);
    }
    BootActive(w, pages);
    var w1 := BootStep(w, pages);
    assert w.pc.Count? ==> Current(w) in w.aps;
    hide Shape, CurrentOk;
    forall a | a in w.aps
      ensures a in w1.counted <==> w1.aps[a].pc.Done? && !(Working(w1) && a == Current(w1))
    {
      CountMembers(w, pages, a);
    }
  }

  lemma MoveCount(w: World, e: Event)
    requires Rest(w) && CountOk(w) && Enabled(w, e) && (e.Begins? || e.Moves?)
    ensures Shape(Apply(w, e)) && CountOk(Apply(w, e))
  {
    hide Request, RequestMany, Requests, AskOne, AskMany, MailOk, ReadsOk, OthersOk;
    if e.Moves? {
      MoverIsCurrent(w, e.ap);
    }
  }

  /** Every step but a late start keeps everything. */
  lemma StepOk(w: World, e: Event)
    requires Ok(w) && Enabled(w, e) && !e.BeginsLate?
    ensures Ok(Apply(w, e))
  {
    StepStacks(w, e);
    hide OthersOk, CurrentOk, MailOk, ReadsOk, StacksOk, CountOk, BootStep, ApStep, Shape;
    match e
    case BootMoves(pages) =>
      BootRest(w, pages);
      BootCount(w, pages);
    case Begins(a) =>
      StartRest(w, a);
      MoveCount(w, e);
    case Moves(a, pages) =>
      StepRest(w, a, pages);
      MoveCount(w, e);
  }

  // ---------- runs ----------

  /** As `SMP::Intitialise` enters its loop: nothing begun, only the boot CPU counted. */
  predicate Initial(w: World) {
    && w.i == 0 && w.pc.Head? && !w.doneInit && w.active == 1 && w.counted == {} && w.given == map[]
    && w.held == [] && w.pfa.Valid()
    && IdsOk(w)
    && (forall a :: a in w.ids ==> a in w.aps)
    && (forall a :: a in w.aps ==> a in w.ids && w.aps[a].pc.Off?)
  }

  lemma StepShape(w: World, e: Event)
    requires Shape(w) && Enabled(w, e)
    ensures Shape(Apply(w, e))
  {
    hide BootStep, ApStep;
    match e
    case BootMoves(pages) => BootShape(w, pages);
    case Moves(a, pages) => ApLeavesMail(w, a, pages);
    case _ =>
  }

  /** Steps one after the other, each possible when it is taken. */
  predicate Possible(w: World, events: seq<Event>)
    requires Shape(w)
    decreases |events|
  {
    events == [] ||
    (Enabled(w, events[0]) && (StepShape(w, events[0]); Possible(Apply(w, events[0]), events[1..])))
  }

  function Run(w: World, events: seq<Event>): (r: World)
    requires Shape(w) && Possible(w, events)
    ensures Shape(r)
    decreases |events|
  {
    if events == [] then w
    else
      StepShape(w, events[0]);
      Run(Apply(w, events[0]), events[1..])
  }

  /** A run in which no CPU begins after it was given up. */
  predicate Legal(w: World, events: seq<Event>)
    requires Shape(w)
  {
    Possible(w, events) && forall e :: e in events ==> !e.BeginsLate?
  }

  lemma {:induction false} RunOk(w: World, events: seq<Event>)
    requires Ok(w) && Legal(w, events)
    ensures Ok(Run(w, events))
    decreases |events|
  {
    hide OthersOk, CurrentOk, MailOk, ReadsOk, StacksOk, CountOk, Enabled, Apply, Shape;
    if events != [] {
      assert events[0] in events && forall e :: e in events[1..] ==> e in events;
      StepOk(w, events[0]);
      RunOk(Apply(w, events[0]), events[1..]);
    }
  }

  lemma InitialOk(w: World)
    requires Initial(w)
    ensures Ok(w)
  {
    forall k | 0 <= k < |w.ids|
      ensures w.aps[w.ids[k]].pc.Off?
    {
      assert w.ids[k] in w.ids;
    }
  }

  lemma OkExclusive(w: World)
    requires Rest(w)
    ensures Exclusive(w)
  {
    forall a | a in w.aps && ApInside(w, a)
      ensures Working(w) && a == Current(w) && !BootInside(w)
    {
      MoverIsCurrent(w, a);
    }
  }

  /** The CPUs that are done. */
  ghost function DoneSet(w: World): set<nat> {
    set a | a in w.aps && w.aps[a].pc.Done?
  }

  lemma HeadCount(w: World)
    requires Ok(w) && !Working(w)
    ensures w.active == (1 + |DoneSet(w)|) % 256
  {
    hide StacksOk, ReadsOk, MailOk, OthersOk, CurrentOk;
    assert DoneSet(w) == w.counted;
  }

  function Elements(elements: seq<nat>): set<nat> {
    set x | x in elements
  }

  lemma {:induction false} FewElements(elements: seq<nat>)
    ensures |Elements(elements)| <= |elements|
  {
    if elements != [] {
      FewElements(elements[1..]);
      assert Elements(elements) == {elements[0]} + Elements(elements[1..]);
    }
  }

  /** The byte does not wrap: the number of cores is a byte too, and the boot CPU is one of them. */
  lemma ActiveExact(w: World)
    requires Ok(w) && !Working(w) && |w.ids| <= 255 && w.boot in w.ids
    ensures w.active == 1 + |DoneSet(w)|
  {
    HeadCount(w);
    hide StacksOk, ReadsOk, MailOk, CurrentOk, CountOk;
    FewElements(w.ids);
    assert w.boot in Elements(w.ids) && w.boot !in DoneSet(w);
    Subset(DoneSet(w), Elements(w.ids) - {w.boot});
  }

  lemma {:induction false} Subset(a: set<nat>, b: set<nat>)
    requires a <= b
    ensures |a| <= |b|
  {
    if a != {} {
      var x :| x in a;
      Subset(a - {x}, b - {x});
    }
  }

  function UpTo(n: nat): set<nat> {
    if n == 0 then {} else UpTo(n - 1) + {n - 1}
  }

  lemma {:induction false} UpToIs(n: nat)
    ensures |UpTo(n)| == n && forall k: nat :: k in UpTo(n) <==> k < n
  {
    if n > 0 {
      UpToIs(n - 1);
    }
  }

  lemma SameSize(a: set<nat>, b: set<nat>)
    requires a <= b && |a| == |b|
    ensures a == b
  {
    if !(b <= a) {
      var x :| x in b && x !in a;
      Subset(a, b - {x});
    }
  }

  /** The CPUs that run are those numbered from 0 up to the counter, as the scheduler takes it, exactly if none of their
      numbers is as large as the counter. */
  lemma NumbersExact(w: World)
    requires Ok(w) && !Working(w) && |w.ids| <= 255 && w.boot in w.ids
    ensures {w.boot} + DoneSet(w) == UpTo(w.active) <==> forall a :: a in {w.boot} + DoneSet(w) ==> a < w.active
  {
    ActiveExact(w);
    BootNotDone(w);
    hide Ok, Working, DoneSet, UpTo;
    UpToIs(w.active);
    var running := {w.boot} + DoneSet(w);
    assert |running| == w.active;
    if forall a :: a in running ==> a < w.active {
      SameSize(running, UpTo(w.active));
    }
  }

  lemma BootNotDone(w: World)
    requires Ok(w) && w.boot in w.ids
    ensures w.boot !in DoneSet(w)
  {
    hide StacksOk, ReadsOk, MailOk, CurrentOk, CountOk;
  }

  lemma OkReads(w: World, a: nat)
    requires Ok(w) && a in w.aps && (w.aps[a].pc.AsksFrames? || w.aps[a].pc.AsksHeap? || w.aps[a].pc.Done?)
    ensures w.aps[a].id == a && a in w.published && a in w.given && w.aps[a].stack == w.given[a] + STACK_SIZE
  {
    assert ReadOk(w, a);
  }

  /** Over every interleaving, from the loop's start on: no two CPUs are inside the unlocked allocators, every CPU in
      `SMPEntry` has read its own number and the stack obtained for it, stacks are distinct unless memory had run out,
      and at the head of the loop the counter is one more than the CPUs done. */
  lemma RunSafe(w: World, events: seq<Event>)
    requires Initial(w)
    ensures Ok(w)
    ensures Legal(w, events) ==>
              var r := Run(w, events);
              && Exclusive(r)
              && (forall a :: a in r.aps && (r.aps[a].pc.AsksFrames? || r.aps[a].pc.AsksHeap? || r.aps[a].pc.Done?) ==>
                    r.aps[a].id == a && a in r.published && a in r.given && r.aps[a].stack == r.given[a] + STACK_SIZE)
              && (forall a, b :: a in r.given && b in r.given && a != b && r.given[a] != 0 ==> r.given[a] != r.given[b])
              && (!Working(r) ==> r.active == (1 + |DoneSet(r)|) % 256)
  {
    InitialOk(w);
    if Legal(w, events) {
      var r := Run(w, events);
      RunOk(w, events);
      hide Run, Legal, ReadsOk, CountOk, Exclusive, OthersOk, CurrentOk, MailOk, Initial;
      OkExclusive(r);
      if !Working(r) {
        HeadCount(r);
      }
      forall a | a in r.aps && (r.aps[a].pc.AsksFrames? || r.aps[a].pc.AsksHeap? || r.aps[a].pc.Done?)
        ensures r.aps[a].id == a && a in r.published && a in r.given && r.aps[a].stack == r.given[a] + STACK_SIZE
      {
        OkReads(r, a);
      }
    }
  }

  // ---------- a CPU that begins after it was given up ----------

  lemma {:induction false} Extend(w: World, events: seq<Event>, e: Event)
    requires Shape(w) && Possible(w, events) && Enabled(Run(w, events), e)
    ensures Possible(w, events + [e]) && Run(w, events + [e]) == Apply(Run(w, events), e)
    decreases |events|
  {
    hide Shape, Enabled, Apply;
    if events == [] {
      StepShape(w, e);
      assert (events + [e])[1..] == [];
    } else {
      StepShape(w, events[0]);
      Extend(Apply(w, events[0]), events[1..], e);
      assert (events + [e])[1..] == events[1..] + [e];
    }
  }

  lemma Go(w: World, events: seq<Event>, e: Event) returns (further: seq<Event>)
    requires Shape(w) && Legal(w, events) && Enabled(Run(w, events), e) && !e.BeginsLate?
    ensures Legal(w, further) && Run(w, further) == Apply(Run(w, events), e)
  {
    hide Shape, Enabled, Apply, Possible, Run;
    further := events + [e];
    Extend(w, events, e);
  }

  /** The boot CPU alone, as far as it does not wait. */
  lemma Advance(w: World, events: seq<Event>) returns (further: seq<Event>)
    requires Shape(w) && Legal(w, events) && Enabled(Run(w, events), BootMoves(0))
    ensures Legal(w, further) && Run(w, further) == BootStep(Run(w, events), 0)
  {
    hide Shape, Enabled, Legal, BootStep, Run;
    further := Go(w, events, BootMoves(0));
  }

  /** One core given up, and the boot CPU asking for the stack of the next. */
  ghost predicate GivenUp(w: World) {
    && Ok(w) && w.pc.InFrames? && w.i == 2 && |w.ids| == 3 && w.aps[w.ids[1]].pc.Sent?
  }

  lemma ToFrames(w: World, events: seq<Event>) returns (further: seq<Event>)
    requires Shape(w) && Legal(w, events)
    requires var r := Run(w, events); r.pc.Head? && r.i < |r.ids| && r.ids[r.i] != r.boot
    ensures Legal(w, further)
    ensures var r, r1 := Run(w, events), Run(w, further);
            r1.pc.InFrames? && r1.i == r.i && r1.ids == r.ids && r1.boot == r.boot && r1.aps == r.aps && r1.magic == 0
  {
    hide Legal, Run, Requests;
    further := Advance(w, events);
    further := Advance(w, further);
    further := Advance(w, further);
    further := Advance(w, further);
    further := Advance(w, further);
  }

  lemma ToSendInit(w: World, events: seq<Event>) returns (further: seq<Event>)
    requires Shape(w) && Legal(w, events) && Run(w, events).pc.InFrames?
    ensures Legal(w, further)
    ensures var r, r1 := Run(w, events), Run(w, further);
            r1 == r.(pc := SendInit, pfa := r1.pfa, given := r1.given, mailStack := r1.mailStack, held := r1.held)
  {
    hide Legal, Run, Request;
    further := Advance(w, events);
    further := Advance(w, further);
    further := Advance(w, further);
  }

  lemma GiveUp(w: World, events: seq<Event>) returns (further: seq<Event>)
    requires Shape(w) && Legal(w, events) && Run(w, events).pc.SendInit? && Run(w, events).magic == 0
    ensures Legal(w, further)
    ensures var r, r1 := Run(w, events), Run(w, further);
            && r1.pc.Head? && r1.i == r.i + 1 && r1.ids == r.ids && r1.boot == r.boot
            && r1.aps.Keys == r.aps.Keys && r1.aps[r.ids[r.i]].pc.Sent?
  {
    hide Possible, Run;
    var r := Run(w, events);
    further := Advance(w, events);
    var r1 := Run(w, further);
    assert r1 == MoveAp(r, Current(r), Waiting).(pc := SendStartup);
    further := Advance(w, further);
    assert Run(w, further) == MoveAp(r1, Current(r1), Sent).(pc := LastCheck);
    further := Advance(w, further);
    hide MoveAp;
  }

  /** That happens: the second core does not begin for as long as the boot CPU waits. */
  lemma GivingUpHappens(w: World) returns (events: seq<Event>)
    requires Initial(w) && |w.ids| == 3 && w.ids[0] == w.boot
    ensures Ok(w) && Legal(w, events) && GivenUp(Run(w, events))
  {
    InitialOk(w);
    assert w.ids[1] != w.boot && w.ids[2] != w.boot;
    assert Legal(w, []) && Run(w, []) == w;
    hide Legal, Run, OthersOk, CurrentOk, MailOk, ReadsOk, StacksOk, CountOk;
    events := Advance(w, []);
    events := ToFrames(w, events);
    events := ToSendInit(w, events);
    events := GiveUp(w, events);
    events := ToFrames(w, events);
    RunOk(w, events);
  }

  // ---------- what the mailbox holds, over every run ----------

  /** The last of the first n cores that is not the boot CPU. */
  function Latest(w: World, n: nat): (k: Option<nat>)
    requires n <= |w.ids|
    ensures k.Some? ==> k.value < n && w.ids[k.value] != w.boot
    ensures forall j :: 0 <= j < n && w.ids[j] != w.boot ==> k.Some? && j <= k.value
  {
    if n == 0 then None else if w.ids[n - 1] != w.boot then Some(n - 1) else Latest(w, n - 1)
  }

  /** The cores whose number, and those whose stack, has been written to the mailbox. */
  function Asked(w: World): nat
    requires Shape(w)
  {
    if !Working(w) || w.pc.InHeap? || w.pc.Publish? || w.pc.ClearMagic? || w.pc.PutId? then w.i else w.i + 1
  }

  function Stacked(w: World): nat
    requires Shape(w)
  {
    if w.pc.InFrames? || w.pc.PutStack? || w.pc.RaiseStack? then w.i else Asked(w)
  }

  /** The mailbox holds what was last written to it. */
  predicate MailLast(w: World)
    requires Shape(w)
  {
    && (Latest(w, Asked(w)).Some? ==> w.mailId == w.ids[Latest(w, Asked(w)).value])
    && (Latest(w, Stacked(w)).Some? && !w.pc.RaiseStack? ==>
          var a := w.ids[Latest(w, Stacked(w)).value]; a in w.given && w.mailStack == w.given[a] + STACK_SIZE)
  }

  /** Stacks have been obtained for the cores behind the loop, and for the current one from `PutStack` on. */
  predicate GivenOk(w: World)
    requires Shape(w)
  {
    && (forall k :: 0 <= k < w.i && w.ids[k] != w.boot ==> w.ids[k] in w.given)
    && (Working(w) ==>
          && Current(w) != w.boot
          && (Current(w) in w.given || w.pc.InHeap? || w.pc.Publish? || w.pc.ClearMagic? || w.pc.PutId? || w.pc.InFrames?)
          && (w.pc.PutStack? ==> w.given[Current(w)] == w.pc.page)
          && (w.pc.RaiseStack? ==> w.mailStack == w.given[Current(w)]))
  }

  predicate MailKept(w: World) {
    Shape(w) && IdsOk(w) && StacksOk(w.pfa, w.given) && GivenOk(w) && MailLast(w)
  }

  lemma {:induction false} LatestSame(w: World, w1: World, n: nat)
    requires n <= |w.ids| && w1.ids == w.ids && w1.boot == w.boot
    ensures Latest(w1, n) == Latest(w, n)
  {
    if n > 0 {
      LatestSame(w, w1, n - 1);
    }
  }

  /** A boot step writes a number, a stack, or neither. */
  lemma BootNumber(w: World, pages: nat)
    requires Shape(w) && Enabled(w, BootMoves(pages))
    ensures BootStep(w, pages).mailId == if w.pc.PutId? then Current(w) else w.mailId
  {
    hide Request, RequestMany, Requests, AskOne, AskMany;
  }

  lemma BootWrites(w: World, pages: nat)
    requires Shape(w) && Enabled(w, BootMoves(pages))
    ensures var w1 := BootStep(w, pages);
            && (w.pc.RaiseStack? ==> w1.mailStack == w.mailStack + STACK_SIZE)
            && (!w.pc.PutStack? && !w.pc.RaiseStack? ==> w1.mailStack == w.mailStack)
            && w1.pc.RaiseStack? == w.pc.PutStack?
  {
    hide Request, RequestMany, Requests, AskOne, AskMany;
  }

  lemma BootGives(w: World, pages: nat)
    requires Shape(w) && Enabled(w, BootMoves(pages))
    ensures var w1 := BootStep(w, pages);
            if w.pc.InFrames? then w1.given == w.given[Current(w) := Request(w.pfa).1] else w1.given == w.given
  {
    hide Request, RequestMany, Requests, AskOne, AskMany;
  }

  /** Of how many cores the number and the stack have been written. */
  lemma BootAsked(w: World, pages: nat)
    requires Shape(w) && Enabled(w, BootMoves(pages))
    ensures var w1 := BootStep(w, pages);
            && Shape(w1) && w1.ids == w.ids && w1.boot == w.boot
            && (Asked(w1) == Asked(w) + (if w.pc.PutId? then 1 else 0)
                || (Asked(w1) == Asked(w) + 1 && w.pc.Head? && w.ids[Asked(w)] == w.boot))
            && (w.pc.PutId? ==> Asked(w) == w.i)
  {
    hide Request, RequestMany, Requests, AskOne, AskMany;
    BootShape(w, pages);
  }

  lemma BootStacked(w: World, pages: nat)
    requires Shape(w) && Enabled(w, BootMoves(pages))
    ensures var w1 := BootStep(w, pages);
            && Shape(w1)
            && (Stacked(w1) == Stacked(w) + (if w.pc.RaiseStack? then 1 else 0)
                || (Stacked(w1) == Stacked(w) + 1 && w.pc.Head? && w.ids[Stacked(w)] == w.boot))
            && (w.pc.InFrames? || w.pc.PutStack? || w.pc.RaiseStack? ==> Stacked(w) == w.i)
  {
    hide Request, RequestMany, Requests, AskOne, AskMany;
    BootShape(w, pages);
  }

  lemma BootMailKept(w: World, pages: nat)
    requires MailKept(w) && Enabled(w, BootMoves(pages))
    ensures MailKept(BootStep(w, pages))
  {
    BootShape(w, pages);
    BootFrame(w, pages);
    StepStacks(w, BootMoves(pages));
    GivenSoFar(w, pages);
    NumberLast(w, pages);
    StackLast(w, pages);
    hide BootStep, StacksOk, GivenOk, Asked, Stacked, Latest;
  }

  lemma NumberLast(w: World, pages: nat)
    requires MailKept(w) && Enabled(w, BootMoves(pages))
    ensures var w1 := BootStep(w, pages);
            && Shape(w1)
            && (Latest(w1, Asked(w1)).Some? ==> w1.mailId == w1.ids[Latest(w1, Asked(w1)).value])
  {
    BootNumber(w, pages);
    BootAsked(w, pages);
    var w1 := BootStep(w, pages);
    LatestSame(w, w1, Asked(w1));
    hide BootStep, StacksOk, Asked, Stacked;
  }

  lemma StackLast(w: World, pages: nat)
    requires MailKept(w) && Enabled(w, BootMoves(pages))
    ensures var w1 := BootStep(w, pages);
            && Shape(w1)
            && (Latest(w1, Stacked(w1)).Some? && !w1.pc.RaiseStack? ==>
                  var a := w1.ids[Latest(w1, Stacked(w1)).value];
                  a in w1.given && w1.mailStack == w1.given[a] + STACK_SIZE)
  {
    BootWrites(w, pages);
    BootGives(w, pages);
    BootAsked(w, pages);
    BootStacked(w, pages);
    var w1 := BootStep(w, pages);
    LatestSame(w, w1, Stacked(w1));
    IdsApart(w);
    hide BootStep, StacksOk, Asked, Stacked, Request;
  }

  lemma IdsApart(w: World)
    requires IdsOk(w)
    ensures forall k :: 0 <= k < |w.ids| && k != w.i && w.i < |w.ids| ==> w.ids[k] != w.ids[w.i]
  {
  }

  /** Where the boot CPU goes from where a stack is obtained and raised. */
  lemma BootGoes(w: World, pages: nat)
    requires Shape(w) && Enabled(w, BootMoves(pages))
    ensures var w1 := BootStep(w, pages);
            && (w1.pc.PutStack? <==> w.pc.InFrames?) && (w.pc.InFrames? ==> w1.pc == PutStack(Request(w.pfa).1))
            && (w.pc.PutStack? ==> w1.pc == RaiseStack && w1.mailStack == w.pc.page)
            && (w1.pc.InHeap? <==> w.pc.Head? && w1.pc != w.pc && !w1.pc.InTss?)
            && (w1.pc.Publish? <==> w.pc.InHeap?) && (w1.pc.ClearMagic? <==> w.pc.Publish?)
            && (w1.pc.PutId? <==> w.pc.ClearMagic?) && (w1.pc.InFrames? <==> w.pc.PutId?)
            && (w.pc.Head? && Working(w1) ==> w1.pc.InHeap? && w.ids[w.i] != w.boot)
  {
    hide Request, RequestMany, Requests, AskOne, AskMany;
  }

  lemma GivenSoFar(w: World, pages: nat)
    requires MailKept(w) && Enabled(w, BootMoves(pages))
    ensures Shape(BootStep(w, pages)) && GivenOk(BootStep(w, pages))
  {
    BootShape(w, pages);
    BootFrame(w, pages);
    BootGives(w, pages);
    BootWrites(w, pages);
    BootIndex(w, pages);
    BootGoes(w, pages);
    hide BootStep, StacksOk, MailLast, Request;
  }

  lemma ApLeavesMail(w: World, a: nat, pages: nat)
    requires a in w.aps
    ensures var w1 := ApStep(w, a, pages);
            w1 == w.(aps := w1.aps, pfa := w1.pfa, doneInit := w1.doneInit, held := w1.held) && w1.aps.Keys == w.aps.Keys
  {
    hide Request, RequestMany, Requests, AskOne, AskMany;
  }

  /** The mailbox is written by the boot CPU alone. */
  lemma MoveLeavesMail(w: World, e: Event)
    requires Shape(w) && Enabled(w, e) && !e.BootMoves?
    ensures var w1 := Apply(w, e);
            && w1.ids == w.ids && w1.boot == w.boot && w1.i == w.i && w1.pc == w.pc && Shape(w1)
            && w1.mailId == w.mailId && w1.mailStack == w.mailStack && w1.given == w.given
  {
    StepShape(w, e);
    hide Shape, ApStep;
    if e.Moves? {
      ApLeavesMail(w, e.ap, e.pages);
    }
  }

  lemma MoveMailKept(w: World, e: Event)
    requires MailKept(w) && Enabled(w, e) && !e.BootMoves?
    ensures MailKept(Apply(w, e))
  {
    hide Apply, StacksOk, Latest, Enabled;
    MoveLeavesMail(w, e);
    StepStacks(w, e);
    SameMail(w, Apply(w, e));
  }

  lemma SameMail(w: World, w1: World)
    requires MailKept(w) && Shape(w1) && StacksOk(w1.pfa, w1.given)
    requires w1.ids == w.ids && w1.boot == w.boot && w1.i == w.i && w1.pc == w.pc
    requires w1.mailId == w.mailId && w1.mailStack == w.mailStack && w1.given == w.given
    ensures MailKept(w1)
  {
    hide StacksOk, Latest;
    LatestSame(w, w1, Asked(w));
    LatestSame(w, w1, Stacked(w));
  }

  lemma InitialMail(w: World)
    requires Initial(w)
    ensures MailKept(w)
  {
    InitialOk(w);
  }

  /** Over every run, late starts included, the mailbox holds the number and the raised stack last written. */
  lemma {:induction false} RunMail(w: World, events: seq<Event>)
    requires MailKept(w) && Possible(w, events)
    ensures MailKept(Run(w, events))
    decreases |events|
  {
    hide MailKept, Enabled, Apply, Shape;
    if events != [] {
      MailShape(w);
      StepShape(w, events[0]);
      if events[0].BootMoves? {
        BootIsApply(w, events[0]);
        BootMailKept(w, events[0].pages);
      } else {
        MoveMailKept(w, events[0]);
      }
      RunMail(Apply(w, events[0]), events[1..]);
    }
  }

  lemma MailShape(w: World)
    requires MailKept(w)
    ensures Shape(w)
  {
  }

  lemma BootIsApply(w: World, e: Event)
    requires Shape(w) && Enabled(w, e) && e.BootMoves?
    ensures e == BootMoves(e.pages) && Apply(w, e) == BootStep(w, e.pages)
  {
  }

  /** However late a core begins, it reads its own number exactly if no later core's has been written by then; and its own
      stack exactly if no later core's has been written by then, unless that is just being raised and the two pages
      follow one another. */
  lemma LateReads(w: World, events: seq<Event>, j: nat, pages: nat)
    requires Initial(w) && j < |w.ids| && w.ids[j] != w.boot
    ensures Shape(w)
    ensures Possible(w, events) ==>
              var r, a := Run(w, events), w.ids[j];
              && r.ids == w.ids && r.boot == w.boot && a in r.aps
              && (r.aps[a].pc.HasStack? && j < Asked(r) ==>
                    (ApStep(r, a, pages).aps[a].id == a <==> Latest(r, Asked(r)) == Some(j)))
              && (r.aps[a].pc.Began? && j < Stacked(r) ==>
                    a in r.given && (r.given[a] != 0 ==>
                      (ApStep(r, a, pages).aps[a].stack == r.given[a] + STACK_SIZE <==>
                       if r.pc.RaiseStack? then Current(r) in r.given && r.given[Current(r)] == r.given[a] + STACK_SIZE
                       else Latest(r, Stacked(r)) == Some(j))))
  {
    InitialMail(w);
    if Possible(w, events) {
      RunMail(w, events);
      RunIds(w, events);
      var r := Run(w, events);
      hide Initial, Possible, Run, Latest, Stacked, Asked;
      if j < Asked(r) {
        NumberMail(r, j);
      }
      if j < Stacked(r) {
        StackMail(r, j);
      }
    }
  }

  lemma {:induction false} RunIds(w: World, events: seq<Event>)
    requires Shape(w) && Possible(w, events)
    ensures Run(w, events).ids == w.ids && Run(w, events).boot == w.boot
    decreases |events|
  {
    if events != [] {
      StepIds(w, events[0]);
      hide Apply, Enabled;
      RunIds(Apply(w, events[0]), events[1..]);
    }
  }

  lemma StepIds(w: World, e: Event)
    requires Shape(w) && Enabled(w, e)
    ensures Shape(Apply(w, e)) && Apply(w, e).ids == w.ids && Apply(w, e).boot == w.boot
  {
    StepShape(w, e);
    if e.BootMoves? {
      BootFrame(w, e.pages);
    } else {
      MoveLeavesMail(w, e);
    }
  }

  lemma NumberMail(w: World, j: nat)
    requires MailKept(w) && j < Asked(w) && w.ids[j] != w.boot
    ensures w.mailId == w.ids[j] <==> Latest(w, Asked(w)) == Some(j)
  {
    var m := Latest(w, Asked(w)).value;
    if m != j {
      IdsDiffer(w, m, j);
    }
  }

  lemma StackMail(w: World, j: nat)
    requires MailKept(w) && j < Stacked(w) && w.ids[j] != w.boot
    ensures w.ids[j] in w.given
    ensures w.pc.RaiseStack? ==> Current(w) in w.given && w.mailStack == w.given[Current(w)]
    ensures !w.pc.RaiseStack? && w.given[w.ids[j]] != 0 ==>
              (w.mailStack == w.given[w.ids[j]] + STACK_SIZE <==> Latest(w, Stacked(w)) == Some(j))
  {
    if !w.pc.RaiseStack? {
      var n := Latest(w, Stacked(w)).value;
      if n != j {
        IdsDiffer(w, n, j);
      }
    }
  }

  /** While the boot CPU waits for another core, it takes the late one's sign for that core's. */
  lemma LateMisleads(w: World, a: nat)
    requires Ok(w) && Enabled(w, BeginsLate(a)) && w.pc.LastCheck? && w.magic != SMP_MAGIC
    ensures BootStep(w, 0).pc.Head? && BootStep(Apply(w, BeginsLate(a)), 0).pc.AwaitDone?
    ensures w.aps[Current(w)].pc.Sent? && Current(w) != a
  {
  }

  // ---------- when a late start breaks exclusion ----------

  /** Some run from here on breaks exclusion, without another late start. */
  ghost predicate CanBreak(w: World)
    requires Shape(w)
  {
    exists events :: Legal(w, events) && !Exclusive(Run(w, events))
  }

  /** From the writing of the stack on the boot CPU enters no allocator before some CPU has signalled, or the magic number
      is still clear. */
  predicate Quiet(pc: BootPc) {
    pc.PutStack? || pc.RaiseStack? || pc.SendInit? || pc.SendStartup? || pc.LastCheck? || pc.AwaitDone?
  }

  /** At most one CPU is under way, and only while the boot CPU waits or is about to. */
  predicate OneAtATime(w: World) {
    && Shape(w)
    && (forall a, b :: a in w.aps && b in w.aps && Underway(w.aps[a].pc) && Underway(w.aps[b].pc) ==> a == b)
    && (forall a :: a in w.aps && Underway(w.aps[a].pc) ==> Quiet(w.pc) && w.magic == SMP_MAGIC && !w.doneInit)
    && (w.doneInit ==> (Quiet(w.pc) && w.magic == SMP_MAGIC) || w.pc.ClearDone?)
    && ((w.pc.SendStartup? || w.pc.LastCheck?) && w.aps[Current(w)].pc.Sent? ==> w.magic != SMP_MAGIC)
  }

  /** The interrupts of the boot CPU. */
  lemma OneSend(w: World, pages: nat)
    requires OneAtATime(w) && (w.pc.SendInit? || w.pc.SendStartup?)
    ensures OneAtATime(BootStep(w, pages))
  {
    hide Request, RequestMany, Requests, AskOne, AskMany;
    BootShape(w, pages);
  }

  lemma BootFlags(w: World, pages: nat)
    requires Shape(w) && Enabled(w, BootMoves(pages))
    ensures var w1 := BootStep(w, pages);
            && w1.magic == (if w.pc.ClearMagic? then 0 else w.magic)
            && w1.doneInit == (w.doneInit && !w.pc.ClearDone?)
  {
    hide Request, RequestMany, Requests, AskOne, AskMany;
  }

  lemma BootQuiet(w: World, pages: nat)
    requires Shape(w) && Enabled(w, BootMoves(pages)) && !w.pc.SendInit? && !w.pc.SendStartup?
    ensures var pc := BootStep(w, pages).pc;
            && (Quiet(pc) <==> w.pc.InFrames? || w.pc.PutStack? || w.pc.RaiseStack?
                               || (w.pc.LastCheck? && w.magic == SMP_MAGIC))
            && !pc.SendStartup? && !pc.LastCheck? && (w.pc.AwaitDone? ==> pc.ClearDone? && w.doneInit)
            && (w.pc.LastCheck? && w.magic == SMP_MAGIC ==> pc.AwaitDone?)
  {
    hide Request, RequestMany, Requests, AskOne, AskMany;
  }

  lemma OneBoot(w: World, pages: nat)
    requires OneAtATime(w) && Enabled(w, BootMoves(pages))
    ensures OneAtATime(BootStep(w, pages))
  {
    BootShape(w, pages);
    if w.pc.SendInit? || w.pc.SendStartup? {
      OneSend(w, pages);
    } else {
      BootFrame(w, pages);
      BootFlags(w, pages);
      BootQuiet(w, pages);
      hide BootStep;
    }
  }

  lemma OneBegins(w: World, a: nat)
    requires OneAtATime(w) && Enabled(w, Begins(a))
    ensures OneAtATime(Apply(w, Begins(a)))
  {
  }

  lemma OneMoves(w: World, a: nat, pages: nat)
    requires OneAtATime(w) && Enabled(w, Moves(a, pages))
    ensures OneAtATime(Apply(w, Moves(a, pages)))
  {
    hide Request, RequestMany, Requests, AskOne, AskMany;
  }

  lemma OneStep(w: World, e: Event)
    requires OneAtATime(w) && Enabled(w, e) && !e.BeginsLate?
    ensures OneAtATime(Apply(w, e))
  {
    hide OneAtATime, BootStep, ApStep;
    match e
    case BootMoves(pages) => OneBoot(w, pages);
    case Begins(a) => OneBegins(w, a);
    case Moves(a, pages) => OneMoves(w, a, pages);
  }

  lemma {:induction false} StaysExclusive(w: World, events: seq<Event>)
    requires OneAtATime(w) && Legal(w, events)
    ensures Exclusive(Run(w, events))
    decreases |events|
  {
    if events == [] {
    } else {
      assert events[0] in events && forall e :: e in events[1..] ==> e in events;
      hide OneAtATime, Enabled, Apply, Exclusive, Shape;
      OneStep(w, events[0]);
      StaysExclusive(Apply(w, events[0]), events[1..]);
    }
  }

  /** From here the boot CPU comes to an allocator on its own. */
  predicate Approaches(w: World) {
    && !w.pc.PutStack? && !w.pc.RaiseStack? && !w.pc.SendInit? && !w.pc.SendStartup?
    && (w.pc.LastCheck? || w.pc.AwaitDone? ==> w.doneInit && w.magic == SMP_MAGIC)
  }

  function StepsInside(pc: BootPc): nat {
    match pc
    case LastCheck => 5
    case AwaitDone => 4
    case ClearDone => 3
    case Publish => 3
    case ClearMagic => 2
    case Count => 2
    case InTss(_) => 2
    case PutId => 1
    case Returned => 1
    case _ => 0
  }

  lemma Approach(w: World)
    requires Shape(w) && Approaches(w) && !BootInside(w)
    ensures Enabled(w, BootMoves(0))
    ensures var w1 := BootStep(w, 0);
            && Shape(w1) && Approaches(w1) && w1.aps == w.aps && w1.ids == w.ids
            && (BootInside(w1) || w1.i > w.i || (w1.i == w.i && StepsInside(w1.pc) < StepsInside(w.pc)))
  {
    hide Request, RequestMany, Requests, AskOne, AskMany;
    BootShape(w, 0);
  }

  /** With a CPU inside an allocator, the boot CPU joins it. */
  lemma {:induction false} BootBreaks(w: World, events: seq<Event>, a: nat)
    requires Shape(w) && Legal(w, events) && Approaches(Run(w, events)) && ApInside(Run(w, events), a)
    ensures CanBreak(w)
    decreases |Run(w, events).ids| - Run(w, events).i, StepsInside(Run(w, events).pc)
  {
    hide Possible, Run, Enabled, BootStep, Approaches, StepsInside;
    var r := Run(w, events);
    if BootInside(r) {
      assert !Exclusive(r);
    } else {
      Approach(r);
      var further := Advance(w, events);
      var r1 := Run(w, further);
      if BootInside(r1) {
        assert ApInside(r1, a) && !Exclusive(r1);
      } else {
        BootBreaks(w, further, a);
      }
    }
  }

  function StepsToDone(pc: ApPc): nat {
    match pc
    case Began => 10
    case HasStack => 9
    case HasId => 8
    case AsksFrames(left) => 3 + left
    case AsksHeap => 2
    case Signals => 1
    case _ => 0
  }

  /** A CPU's own step, and what it leaves alone. */
  lemma MoveFrame(w: World, c: nat)
    requires Shape(w) && c in w.aps && Underway(w.aps[c].pc)
    ensures Enabled(w, Moves(c, 0))
    ensures var w1 := Apply(w, Moves(c, 0));
            && SameBut(w, w1, c) && StepsToDone(w1.aps[c].pc) < StepsToDone(w.aps[c].pc)
            && (if w.aps[c].pc.Signals? then w1.aps[c].pc.Done? && w1.doneInit
                else Underway(w1.aps[c].pc) && w1.doneInit == w.doneInit)
  {
    hide Request, RequestMany, Requests, AskOne, AskMany;
  }

  predicate SameBut(w: World, w1: World, c: nat) {
    && w1.pc == w.pc && w1.magic == w.magic && w1.ids == w.ids && w1.i == w.i
    && w1.aps.Keys == w.aps.Keys && c in w1.aps && (forall b :: b in w.aps && b != c ==> w1.aps[b] == w.aps[b])
  }

  /** A CPU under way goes on until it has signalled. */
  lemma {:induction false} ToDone(w: World, events: seq<Event>, c: nat) returns (further: seq<Event>)
    requires Shape(w) && Legal(w, events)
    requires var r := Run(w, events); c in r.aps && (Underway(r.aps[c].pc) || (r.aps[c].pc.Done? && r.doneInit))
    ensures Legal(w, further) && SameBut(Run(w, events), Run(w, further), c) && Run(w, further).doneInit
    decreases StepsToDone(Run(w, events).aps[c].pc)
  {
    hide Possible, Run, Enabled, Apply, StepsToDone;
    var r := Run(w, events);
    further := events;
    if !r.aps[c].pc.Done? {
      MoveFrame(r, c);
      further := Go(w, events, Moves(c, 0));
      var r1 := Run(w, further);
      further := ToDone(w, further, c);
    }
  }

  /** The late CPU comes to its first request for pages, whatever the others do. */
  lemma Park(w: World, a: nat) returns (events: seq<Event>)
    requires Shape(w) && a in w.aps && w.aps[a].pc.Began?
    ensures Legal(w, events) && ApInside(Run(w, events), a) && SameBut(w, Run(w, events), a)
    ensures Run(w, events).doneInit == w.doneInit
  {
    assert Legal(w, []) && Run(w, []) == w;
    hide Legal, Run;
    events := Go(w, [], Moves(a, 0));
    events := Go(w, events, Moves(a, 0));
    events := Go(w, events, Moves(a, 0));
  }

  /** A core that begins late is not the current one. */
  lemma LateIsNotCurrent(w: World, a: nat)
    requires Ok(w) && Enabled(w, BeginsLate(a))
    ensures Working(w) ==> Current(w) != a && Current(w) in w.aps
  {
  }

  /** While the boot CPU waits for the current core, that one can be done before. */
  lemma WaitEnds(w: World, events: seq<Event>, a: nat, c: nat) returns (further: seq<Event>)
    requires Shape(w) && Legal(w, events) && ApInside(Run(w, events), a)
    requires var r := Run(w, events);
             && Working(r) && c == Current(r) && c != a && r.magic == SMP_MAGIC
             && if r.aps[c].pc.Sent? then r.pc.LastCheck?
                else (r.pc.LastCheck? || r.pc.AwaitDone?) && (Underway(r.aps[c].pc) || (r.aps[c].pc.Done? && r.doneInit))
    ensures Legal(w, further) && Approaches(Run(w, further)) && ApInside(Run(w, further), a)
  {
    hide Possible, Run;
    var r := Run(w, events);
    assert a in r.aps;
    hide ApInside;
    further := events;
    if r.aps[c].pc.Sent? {
      further := Go(w, events, Begins(c));
      assert SameBut(r, Run(w, further), c);
    }
    var r1 := Run(w, further);
    assert r1.aps.Keys == r.aps.Keys && r1.aps[a] == r.aps[a];
    hide Apply;
    further := ToDone(w, further, c);
    SameInside(r, Run(w, further), a);
  }

  lemma LateBreaks(w: World, a: nat)
    requires Ok(w) && Enabled(w, BeginsLate(a))
    requires !w.pc.PutStack? && !w.pc.RaiseStack? && !w.pc.SendInit? && !w.pc.SendStartup?
    ensures Shape(Apply(w, BeginsLate(a))) && CanBreak(Apply(w, BeginsLate(a)))
  {
    hide OthersOk, MailOk, ReadsOk, StacksOk, CountOk;
    var w1 := Apply(w, BeginsLate(a));
    LateIsNotCurrent(w, a);
    var events := Park(w1, a);
    if w.pc.LastCheck? || w.pc.AwaitDone? {
      assert w1.aps[Current(w)] == w.aps[Current(w)];
      hide Possible, Run, ApInside, Apply;
      events := WaitEnds(w1, events, a, Current(w));
    }
    hide Possible, Run, ApInside, Apply, CurrentOk;
    BootBreaks(w1, events, a);
  }

  lemma SameInside(w: World, w1: World, a: nat)
    requires ApInside(w, a) && a in w1.aps && w1.aps[a] == w.aps[a]
    ensures ApInside(w1, a)
  {
  }

  lemma LateIsQuiet(w: World, a: nat)
    requires Ok(w) && Enabled(w, BeginsLate(a))
    requires w.pc.PutStack? || w.pc.RaiseStack? || w.pc.SendInit? || w.pc.SendStartup?
    ensures OneAtATime(Apply(w, BeginsLate(a)))
  {
    forall b | b in w.aps && Underway(w.aps[b].pc)
      ensures false
    {
      MoverIsCurrent(w, b);
    }
  }

  /** Some run after a late start breaks exclusion, without a second late start, unless the boot CPU is between obtaining
      the current core's stack and sending its start-up interrupt: then it takes the late core's magic number for the
      current core's and waits for the late core to be done. Its allocations after the start-up count too. */
  lemma LateExclusionIff(w: World, a: nat)
    requires Ok(w) && Enabled(w, BeginsLate(a))
    ensures Shape(Apply(w, BeginsLate(a)))
    ensures CanBreak(Apply(w, BeginsLate(a))) <==>
            !(w.pc.PutStack? || w.pc.RaiseStack? || w.pc.SendInit? || w.pc.SendStartup?)
  {
    StepShape(w, BeginsLate(a));
    var w1 := Apply(w, BeginsLate(a));
    if w.pc.PutStack? || w.pc.RaiseStack? || w.pc.SendInit? || w.pc.SendStartup? {
      LateIsQuiet(w, a);
    } else {
      LateBreaks(w, a);
    }
    hide Apply, Possible, Run, OneAtATime, Ok;
    forall events | Legal(w1, events) && OneAtATime(w1)
      ensures Exclusive(Run(w1, events))
    {
      StaysExclusive(w1, events);
    }
  }

  /** A step of one CPU after a run. */
  lemma Then(w: World, events: seq<Event>, e: Event) returns (further: seq<Event>)
    requires Shape(w) && Possible(w, events) && Enabled(Run(w, events), e)
    ensures Possible(w, further) && Run(w, further) == Apply(Run(w, events), e)
  {
    further := events + [e];
    Extend(w, events, e);
  }

  lemma ParkLate(w: World, events: seq<Event>, a: nat) returns (further: seq<Event>)
    requires Shape(w) && Possible(w, events) && Enabled(Run(w, events), BeginsLate(a))
    ensures Possible(w, further) && ApInside(Run(w, further), a)
    ensures var r, r1 := Run(w, events), Run(w, further);
            r1 == r.(aps := r.aps[a := r1.aps[a]], magic := SMP_MAGIC)
  {
    hide Possible, Run, Shape;
    further := Then(w, events, BeginsLate(a));
    further := Then(w, further, Moves(a, 0));
    further := Then(w, further, Moves(a, 0));
    further := Then(w, further, Moves(a, 0));
  }

  /** With two late starts some run always breaks it, wherever the boot CPU is. */
  lemma TwoLate(w: World, a: nat, b: nat) returns (events: seq<Event>)
    requires Ok(w) && a != b && Enabled(w, BeginsLate(a)) && Enabled(w, BeginsLate(b))
    ensures Possible(w, events) && !Exclusive(Run(w, events))
  {
    assert Possible(w, []) && Run(w, []) == w && Shape(w);
    hide Ok, Possible, Run, Shape, ApInside;
    events := ParkLate(w, [], a);
    var r := Run(w, events);
    events := ParkLate(w, events, b);
    var r1 := Run(w, events);
    SameInside(r, r1, a);
  }
}
