/** The frames that the start-up of the CPUs obtains (src/smp/smp.cpp:58, 70, 117, 182): over every
    interleaving without a late start each CPU is granted exactly its share, locked and disjoint from all others. */
module SmpHolds {
  import opened Common
  import opened FrameSpec
  import opened SmpBoot

  // ---------- what is granted stays locked and apart ----------

  /** Frames granted are locked as far as the bitmap reaches, and in one grant only. */
  predicate HoldsOk(p: Pfa, held: seq<Hold>) {
    && p.Valid()
    && (forall i :: 0 <= i < |held| && held[i].grant.Frames? ==> held[i].grant.count == held[i].pages)
    && (forall i, f :: 0 <= i < |held| && 0 <= f < |p.bits| && held[i].grant.Has(f) ==> p.bits[f])
    && (forall i, j, f :: 0 <= i < j < |held| && 0 <= f < |p.bits| && held[i].grant.Has(f) ==> !held[j].grant.Has(f))
  }

  /** A request for pages, recorded. */
  lemma HoldMore(p: Pfa, held: seq<Hold>, op: Op, h: Hold)
    requires HoldsOk(p, held) && !op.ActOp? && h.grant == Granted(p, op)
    requires h.pages == if op.RequestOp? then 1 else op.count
    ensures HoldsOk(Step(p, op), held + [h])
  {
    StepBits(p, op);
    hide Step;
    StepLocked(p, op);
    hide Granted, NextClear, NextRun;
  }

  lemma StepLocked(p: Pfa, op: Op)
    requires p.Valid() && !op.ActOp?
    ensures |Step(p, op).bits| == |p.bits|
    ensures forall f :: 0 <= f < |p.bits| && p.bits[f] ==> Step(p, op).bits[f]
  {
    StepBits(p, op);
  }

  lemma HoldStays(p: Pfa, held: seq<Hold>, op: Op)
    requires HoldsOk(p, held) && !op.ActOp?
    ensures HoldsOk(Step(p, op), held)
  {
    StepBits(p, op);
    StepLocked(p, op);
    hide Step, Granted;
  }

  lemma {:induction false} HoldStaysAll(p: Pfa, held: seq<Hold>, pages: nat)
    requires HoldsOk(p, held)
    ensures HoldsOk(Requests(p, pages), held)
  {
    hide HoldsOk, Request;
    if pages > 0 {
      HoldStaysAll(p, held, pages - 1);
      HoldStays(Requests(p, pages - 1), held, RequestOp);
    }
  }

  // ---------- each CPU's share ----------

  /** The sizes of what a CPU has asked for, in order. */
  function Sizes(held: seq<Hold>, a: nat): seq<nat> {
    if held == [] then []
    else
      var init, h := held[..|held| - 1], held[|held| - 1];
      Sizes(init, a) + if h.cpu == a then [h.pages] else []
  }

  lemma SizesMore(held: seq<Hold>, h: Hold, a: nat)
    ensures Sizes(held + [h], a) == Sizes(held, a) + if h.cpu == a then [h.pages] else []
  {
    assert (held + [h])[..|held|] == held;
  }

  /** Its share by how far it is: a stack of one page from the boot CPU, a page for the copy of the GDT, and three
      interrupt stacks of eight pages; the boot CPU asks for the last only. */
  function Share(w: World, a: nat): seq<nat> {
    if a == w.boot then
      match w.pc
      case InTss(left) => if left == 0 then [8, 8, 8] else if left == 1 then [8, 8] else if left == 2 then [8] else []
      case Returned => [8, 8, 8]
      case InLater => [8, 8, 8]
      case _ => []
    else if a !in w.given then []
    else if a !in w.aps then [1]
    else
      match w.aps[a].pc
      case AsksFrames(left) =>
        if left == 0 then [1, 1, 8, 8, 8] else if left == 1 then [1, 1, 8, 8] else if left == 2 then [1, 1, 8]
        else if left == 3 then [1, 1] else [1]
      case AsksHeap => [1, 1, 8, 8, 8]
      case Signals => [1, 1, 8, 8, 8]
      case Done => [1, 1, 8, 8, 8]
      case _ => [1]
  }

  ghost predicate SharesOk(w: World) {
    forall a: nat :: Sizes(w.held, a) == Share(w, a)
  }

  predicate Before(pc: BootPc) {
    pc.Head? || pc.InHeap? || pc.Publish? || pc.ClearMagic? || pc.PutId? || pc.InFrames?
  }

  /** No stack has been obtained yet for the cores ahead. */
  predicate NotYet(w: World)
    requires Shape(w)
  {
    && (forall k :: w.i < k < |w.ids| ==> w.ids[k] !in w.given)
    && (w.i < |w.ids| && Before(w.pc) ==> w.ids[w.i] !in w.given)
    && (w.pc.InTss? ==> w.pc.left <= 3)
  }

  /** The address of a grant: NULL if there is none. */
  function Address(g: Grant): nat {
    if g.Frames? then g.first * 4096 else 0
  }

  /** Each stack is the page of one of the core's holds. */
  predicate StackHeld(w: World, a: nat)
    requires a in w.given
  {
    exists i :: 0 <= i < |w.held| && w.held[i].cpu == a && w.held[i].pages == 1 && Address(w.held[i].grant) == w.given[a]
  }

  ghost predicate HeldOk(w: World) {
    Shape(w) && HoldsOk(w.pfa, w.held) && SharesOk(w) && NotYet(w) && forall a :: a in w.given ==> StackHeld(w, a)
  }

  // ---------- the steps of the boot CPU ----------

  predicate AsksTss(w: World) {
    w.pc.InTss? && w.pc.left > 0
  }

  lemma BootHeld(w: World, pages: nat)
    requires Shape(w)
    ensures BootStep(w, pages).held ==
            if w.pc.InFrames? then w.held + [AskOne(w, Current(w))]
            else if AsksTss(w) then w.held + [AskMany(w, w.boot)]
            else w.held
  {
    hide Request, RequestMany, Requests, Current, AskOne, AskMany;
  }

  lemma BootPfa(w: World, pages: nat)
    requires Shape(w)
    ensures BootStep(w, pages).pfa ==
            if w.pc.InFrames? then Step(w.pfa, RequestOp)
            else if AsksTss(w) then Step(w.pfa, RequestManyOp(8))
            else if w.pc.InHeap? || w.pc.InLater? then Requests(w.pfa, pages)
            else w.pfa
  {
    hide Request, RequestMany, Requests, Current, AskOne, AskMany;
  }

  lemma BootHolds(w: World, pages: nat)
    requires Shape(w) && HoldsOk(w.pfa, w.held)
    ensures HoldsOk(BootStep(w, pages).pfa, BootStep(w, pages).held)
  {
    hide HoldsOk, Step, Granted, BootStep, Shape;
    BootHeld(w, pages);
    BootPfa(w, pages);
    if w.pc.InFrames? {
      HoldMore(w.pfa, w.held, RequestOp, AskOne(w, Current(w)));
    } else if AsksTss(w) {
      HoldMore(w.pfa, w.held, RequestManyOp(8), AskMany(w, w.boot));
    } else if w.pc.InHeap? || w.pc.InLater? {
      HoldStaysAll(w.pfa, w.held, pages);
    }
  }

  /** What a step of the boot CPU adds to a CPU's share. */
  function BootAdds(w: World, a: nat): seq<nat>
    requires Shape(w)
  {
    if w.pc.InFrames? && a == Current(w) then [1] else if AsksTss(w) && a == w.boot then [8] else []
  }

  lemma BootSizes(w: World, pages: nat, a: nat)
    requires Shape(w)
    ensures Sizes(BootStep(w, pages).held, a) == Sizes(w.held, a) + BootAdds(w, a)
  {
    hide BootStep, Sizes, Shape, Granted;
    BootHeld(w, pages);
    if w.pc.InFrames? {
      SizesMore(w.held, AskOne(w, Current(w)), a);
    } else if AsksTss(w) {
      SizesMore(w.held, AskMany(w, w.boot), a);
    }
  }

  /** The interrupts do not change a core's share. */
  lemma SendShare(w: World, pages: nat, a: nat)
    requires Rest(w) && (w.pc.SendInit? || w.pc.SendStartup?)
    ensures Share(BootStep(w, pages), a) == Share(w, a)
  {
    BootIds(w, pages);
    SendPcs(w, pages, a);
    hide BootStep, Rest;
  }

  lemma SendPcs(w: World, pages: nat, a: nat)
    requires Rest(w) && (w.pc.SendInit? || w.pc.SendStartup?)
    ensures var w1 := BootStep(w, pages);
            && w1.given == w.given && (w1.pc.SendStartup? || w1.pc.LastCheck?) && w1.aps.Keys == w.aps.Keys
            && (a in w.aps ==> w1.aps[a].pc == w.aps[a].pc || (!Underway(w1.aps[a].pc) && !Underway(w.aps[a].pc)
                                                                && !w1.aps[a].pc.Done? && !w.aps[a].pc.Done?))
  {
    hide Request, RequestMany, Requests, OthersOk, MailOk, ReadsOk;
  }

  lemma BootShare(w: World, pages: nat, a: nat)
    requires Rest(w) && NotYet(w) && Enabled(w, BootMoves(pages))
    ensures Share(BootStep(w, pages), a) == Share(w, a) + BootAdds(w, a)
  {
    if w.pc.SendInit? || w.pc.SendStartup? {
      SendShare(w, pages, a);
    } else {
      BootFrame(w, pages);
      BootGives(w, pages);
      BootTss(w, pages);
      hide BootStep, MailOk, ReadsOk, Request;
    }
  }

  lemma BootTss(w: World, pages: nat)
    requires Shape(w)
    ensures var pc := BootStep(w, pages).pc;
            && (w.pc.Head? || w.pc.InTss? || w.pc.Returned? || w.pc.InLater? <== pc.InTss? || pc.Returned? || pc.InLater?)
            && (w.pc.Head? && pc.InTss? ==> pc.left == 3) && (w.pc.Head? ==> !pc.Returned? && !pc.InLater?)
            && (w.pc.InTss? ==> pc == if w.pc.left == 0 then Returned else InTss(w.pc.left - 1))
            && (w.pc.Returned? || w.pc.InLater? ==> pc.Returned? || pc.InLater?)
            && (w.pc.InFrames? ==> pc.PutStack?)
  {
    hide Request, RequestMany, Requests;
  }

  lemma BootNotYet(w: World, pages: nat)
    requires Rest(w) && NotYet(w) && Enabled(w, BootMoves(pages))
    ensures Shape(BootStep(w, pages)) && NotYet(BootStep(w, pages))
  {
    BootShape(w, pages);
    BootFrame(w, pages);
    BootGives(w, pages);
    BootTss(w, pages);
    BootIndex(w, pages);
    BootBefore(w, pages);
    IdsApart(w);
    hide BootStep, MailOk, ReadsOk, Request;
  }

  lemma BootBefore(w: World, pages: nat)
    requires Shape(w) && Enabled(w, BootMoves(pages))
    ensures Before(BootStep(w, pages).pc) ==> NextCore(w) || (Before(w.pc) && !w.pc.InFrames?)
  {
    hide Request, RequestMany, Requests;
  }

  // ---------- the steps of the other CPUs ----------

  lemma MoveHeld(w: World, a: nat, pages: nat)
    requires a in w.aps
    ensures var pc := w.aps[a].pc;
            ApStep(w, a, pages).held ==
            if pc.AsksFrames? && pc.left == 4 then w.held + [AskOne(w, a)]
            else if pc.AsksFrames? && pc.left > 0 then w.held + [AskMany(w, a)]
            else w.held
  {
    hide Request, RequestMany, Requests, AskOne, AskMany;
  }

  lemma MovePfa(w: World, a: nat, pages: nat)
    requires a in w.aps
    ensures var pc := w.aps[a].pc;
            ApStep(w, a, pages).pfa ==
            if pc.AsksFrames? && pc.left == 4 then Step(w.pfa, RequestOp)
            else if pc.AsksFrames? && pc.left > 0 then Step(w.pfa, RequestManyOp(8))
            else if pc.AsksHeap? then Requests(w.pfa, pages)
            else w.pfa
  {
    hide Request, RequestMany, Requests, AskOne, AskMany;
  }

  lemma MoveHolds(w: World, a: nat, pages: nat)
    requires a in w.aps && HoldsOk(w.pfa, w.held)
    ensures HoldsOk(ApStep(w, a, pages).pfa, ApStep(w, a, pages).held)
  {
    hide HoldsOk, Step, Granted, ApStep;
    MoveHeld(w, a, pages);
    MovePfa(w, a, pages);
    var pc := w.aps[a].pc;
    if pc.AsksFrames? && pc.left == 4 {
      HoldMore(w.pfa, w.held, RequestOp, AskOne(w, a));
    } else if pc.AsksFrames? && pc.left > 0 {
      HoldMore(w.pfa, w.held, RequestManyOp(8), AskMany(w, a));
    } else if pc.AsksHeap? {
      HoldStaysAll(w.pfa, w.held, pages);
    }
  }

  function MoveAdds(w: World, a: nat, b: nat): seq<nat>
    requires a in w.aps
  {
    var pc := w.aps[a].pc;
    if b != a || !pc.AsksFrames? || pc.left == 0 then [] else if pc.left == 4 then [1] else [8]
  }

  lemma MoveSizes(w: World, a: nat, pages: nat, b: nat)
    requires a in w.aps
    ensures Sizes(ApStep(w, a, pages).held, b) == Sizes(w.held, b) + MoveAdds(w, a, b)
  {
    hide ApStep, Sizes, Granted;
    MoveHeld(w, a, pages);
    var pc := w.aps[a].pc;
    if pc.AsksFrames? && pc.left == 4 {
      SizesMore(w.held, AskOne(w, a), b);
    } else if pc.AsksFrames? && pc.left > 0 {
      SizesMore(w.held, AskMany(w, a), b);
    }
  }

  lemma MovePc(w: World, a: nat, pages: nat)
    requires a in w.aps
    ensures var w1, pc := ApStep(w, a, pages), w.aps[a].pc;
            && w1 == w.(aps := w1.aps, pfa := w1.pfa, doneInit := w1.doneInit, held := w1.held)
            && w1.aps.Keys == w.aps.Keys && (forall b :: b in w.aps && b != a ==> w1.aps[b] == w.aps[b])
            && (pc.HasId? ==> w1.aps[a].pc == AsksFrames(4))
            && (pc.AsksFrames? ==> w1.aps[a].pc == if pc.left == 0 then AsksHeap else AsksFrames(pc.left - 1))
            && (pc.AsksHeap? ==> w1.aps[a].pc.Signals?) && (pc.Signals? ==> w1.aps[a].pc.Done?)
            && (pc.Began? ==> w1.aps[a].pc.HasStack?) && (pc.HasStack? ==> w1.aps[a].pc.HasId?)
  {
    hide Request, RequestMany, Requests, AskOne, AskMany;
  }

  lemma MoveShare(w: World, a: nat, pages: nat, b: nat)
    requires Rest(w) && Enabled(w, Moves(a, pages))
    ensures Share(ApStep(w, a, pages), b) == Share(w, b) + MoveAdds(w, a, b)
  {
    MovePc(w, a, pages);
    MoverIsCurrent(w, a);
    MoverGiven(w, a);
    hide ApStep, Rest;
  }

  lemma MoverGiven(w: World, a: nat)
    requires Rest(w) && a in w.aps && Underway(w.aps[a].pc)
    ensures a in w.given && a != w.boot && (w.aps[a].pc.AsksFrames? ==> w.aps[a].pc.left <= 4)
  {
    MoverIsCurrent(w, a);
    assert ReadOk(w, a);
  }

  // ---------- every step ----------

  /** The records only grow, by the stack when one is obtained. */
  lemma StackStays(w: World, w1: World, a: nat)
    requires a in w.given && a in w1.given && w1.given[a] == w.given[a] && w.held <= w1.held && StackHeld(w, a)
    ensures StackHeld(w1, a)
  {
    var i :| 0 <= i < |w.held| && w.held[i].cpu == a && w.held[i].pages == 1 && Address(w.held[i].grant) == w.given[a];
    assert w1.held[i] == w.held[i];
  }

  lemma StackNew(w: World, w1: World)
    requires Shape(w) && w.pc.InFrames? && Current(w) in w1.given && w1.given[Current(w)] == Request(w.pfa).1
    requires w1.held == w.held + [AskOne(w, Current(w))]
    ensures StackHeld(w1, Current(w))
  {
    assert w1.held[|w.held|] == AskOne(w, Current(w));
  }

  lemma BootStacks(w: World, pages: nat, a: nat)
    requires Shape(w) && Enabled(w, BootMoves(pages)) && a in BootStep(w, pages).given
    requires a in w.given ==> StackHeld(w, a)
    ensures StackHeld(BootStep(w, pages), a)
  {
    hide BootStep, StackHeld, Request, Shape;
    BootHeld(w, pages);
    BootGives(w, pages);
    if w.pc.InFrames? && a == Current(w) {
      StackNew(w, BootStep(w, pages));
    } else {
      StackStays(w, BootStep(w, pages), a);
    }
  }

  lemma BootKeepsHeld(w: World, pages: nat)
    requires Rest(w) && HeldOk(w) && Enabled(w, BootMoves(pages))
    ensures HeldOk(BootStep(w, pages))
  {
    hide BootStep, HoldsOk, Share, Sizes, StackHeld, NotYet, Enabled;
    BootNotYet(w, pages);
    BootHolds(w, pages);
    forall a: nat
      ensures Sizes(BootStep(w, pages).held, a) == Share(BootStep(w, pages), a)
    {
      BootSizes(w, pages, a);
      BootShare(w, pages, a);
      assert Sizes(w.held, a) == Share(w, a);
    }
    forall a | a in BootStep(w, pages).given
      ensures StackHeld(BootStep(w, pages), a)
    {
      BootStacks(w, pages, a);
    }
  }

  /** A step of another CPU, or its start. */
  lemma CoreKeepsHeld(w: World, w1: World)
    requires HeldOk(w) && Shape(w1) && NotYet(w1) && HoldsOk(w1.pfa, w1.held)
    requires w.held <= w1.held && w1.given == w.given && forall b: nat :: Sizes(w1.held, b) == Share(w1, b)
    ensures HeldOk(w1)
  {
    hide HoldsOk, Sizes, Share, StackHeld, NotYet, Shape;
    forall b | b in w1.given
      ensures StackHeld(w1, b)
    {
      StackStays(w, w1, b);
    }
  }

  lemma MoveShares(w: World, a: nat, pages: nat, b: nat)
    requires Rest(w) && SharesOk(w) && Enabled(w, Moves(a, pages))
    ensures Sizes(ApStep(w, a, pages).held, b) == Share(ApStep(w, a, pages), b)
  {
    hide ApStep, Share, Sizes, Rest;
    MoveSizes(w, a, pages, b);
    MoveShare(w, a, pages, b);
    assert Sizes(w.held, b) == Share(w, b);
  }

  lemma MoveKeepsHeld(w: World, a: nat, pages: nat)
    requires Rest(w) && HeldOk(w) && Enabled(w, Moves(a, pages))
    ensures HeldOk(ApStep(w, a, pages))
  {
    var w1 := ApStep(w, a, pages);
    MovePc(w, a, pages);
    MoveHeld(w, a, pages);
    hide ApStep, HoldsOk, Share, Sizes, StackHeld, Rest, Granted;
    MoveHolds(w, a, pages);
    forall b: nat
      ensures Sizes(w1.held, b) == Share(w1, b)
    {
      MoveShares(w, a, pages, b);
    }
    assert Shape(w1) && NotYet(w1);
    hide HeldOk;
    CoreKeepsHeld(w, w1);
  }

  lemma BeginKeepsHeld(w: World, a: nat)
    requires Rest(w) && HeldOk(w) && Enabled(w, Begins(a))
    ensures HeldOk(Apply(w, Begins(a)))
  {
    var w1 := Apply(w, Begins(a));
    hide HoldsOk, Sizes, StackHeld, Rest;
    forall b: nat
      ensures Sizes(w1.held, b) == Share(w1, b)
    {
      assert Sizes(w.held, b) == Share(w, b);
    }
    CoreKeepsHeld(w, w1);
  }

  lemma StepHeld(w: World, e: Event)
    requires Ok(w) && HeldOk(w) && Enabled(w, e) && !e.BeginsLate?
    ensures HeldOk(Apply(w, e))
  {
    OkRest(w);
    hide Ok, Rest, HeldOk, BootStep, ApStep;
    match e
    case BootMoves(pages) => BootKeepsHeld(w, pages);
    case Begins(a) => BeginKeepsHeld(w, a);
    case Moves(a, pages) => MoveKeepsHeld(w, a, pages);
  }

  lemma OkRest(w: World)
    requires Ok(w)
    ensures Rest(w)
  {
  }

  /** Apart from the heap's requests, a step locks exactly the frames it records. */
  lemma StepLocks(w: World, e: Event, f: nat)
    requires Shape(w) && w.pfa.Valid() && Enabled(w, e) && f < |w.pfa.bits|
    requires !(e.BootMoves? && (w.pc.InHeap? || w.pc.InLater?)) && !(e.Moves? && w.aps[e.ap].pc.AsksHeap?)
    ensures var w1 := Apply(w, e);
            && |w1.pfa.bits| == |w.pfa.bits| && w.held <= w1.held
            && (w1.pfa.bits[f] <==> w.pfa.bits[f] || (w1.held != w.held && w1.held[|w.held|].grant.Has(f)))
  {
    StepBits(w.pfa, RequestOp);
    StepBits(w.pfa, RequestManyOp(8));
    StepLocked(w.pfa, RequestOp);
    StepLocked(w.pfa, RequestManyOp(8));
    hide Step, Granted, BootStep, ApStep, Shape;
    match e
    case BootMoves(pages) =>
      BootHeld(w, pages);
      BootPfa(w, pages);
    case Moves(a, pages) =>
      MoveHeld(w, a, pages);
      MovePfa(w, a, pages);
    case _ =>
  }

  // ---------- runs ----------

  lemma {:induction false} RunHeld(w: World, events: seq<Event>)
    requires Ok(w) && HeldOk(w) && Legal(w, events)
    ensures Ok(SmpBoot.Run(w, events)) && HeldOk(SmpBoot.Run(w, events))
    decreases |events|
  {
    hide OthersOk, CurrentOk, MailOk, ReadsOk, StacksOk, CountOk, Enabled, Apply, Shape, HeldOk;
    if events != [] {
      assert events[0] in events && forall e :: e in events[1..] ==> e in events;
      StepOk(w, events[0]);
      StepHeld(w, events[0]);
      RunHeld(Apply(w, events[0]), events[1..]);
    }
  }

  lemma InitialHeld(w: World)
    requires Initial(w)
    ensures Ok(w) && HeldOk(w)
  {
    InitialOk(w);
  }

  /** Over every interleaving without a late start, from the loop's start on: the frames granted for stacks and for copies
      of the GDT are locked and in one grant only, as far as the bitmap reaches; each CPU's share is as large as its
      progress says; a core that has signalled holds its stack, one page for the GDT and three runs of eight; and the
      stack it runs on is the top of its first page. */
  lemma RunHolds(w: World, events: seq<Event>, a: nat)
    requires Initial(w)
    ensures Shape(w)
    ensures Legal(w, events) ==>
              var r := SmpBoot.Run(w, events);
              && HoldsOk(r.pfa, r.held) && Sizes(r.held, a) == Share(r, a)
              && (a in r.aps && (r.aps[a].pc.AsksHeap? || r.aps[a].pc.Signals? || r.aps[a].pc.Done?) ==>
                    Sizes(r.held, a) == [1, 1, 8, 8, 8])
              && (r.pc.Returned? ==> Sizes(r.held, r.boot) == [8, 8, 8])
              && (a in r.given ==> StackHeld(r, a))
              && (a in r.given && a in r.aps && (r.aps[a].pc.AsksFrames? || r.aps[a].pc.AsksHeap? || r.aps[a].pc.Done?) ==>
                    r.aps[a].stack == r.given[a] + 4096)
  {
    InitialHeld(w);
    if Legal(w, events) {
      RunHeld(w, events);
      hide *;
      HeldParts(SmpBoot.Run(w, events));
      HeldMeans(SmpBoot.Run(w, events), a);
    }
  }

  lemma HeldParts(w: World)
    requires HeldOk(w)
    ensures HoldsOk(w.pfa, w.held)
  {
  }

  lemma HeldMeans(w: World, a: nat)
    requires Ok(w) && HeldOk(w)
    ensures Sizes(w.held, a) == Share(w, a)
    ensures a in w.aps && (w.aps[a].pc.AsksHeap? || w.aps[a].pc.Signals? || w.aps[a].pc.Done?) ==>
              Sizes(w.held, a) == [1, 1, 8, 8, 8]
    ensures w.pc.Returned? ==> Sizes(w.held, w.boot) == [8, 8, 8]
    ensures a in w.given ==> StackHeld(w, a)
    ensures a in w.given && a in w.aps && (w.aps[a].pc.AsksFrames? || w.aps[a].pc.AsksHeap? || w.aps[a].pc.Done?) ==>
              w.aps[a].stack == w.given[a] + 4096
  {
    assert Sizes(w.held, a) == Share(w, a) && Sizes(w.held, w.boot) == Share(w, w.boot);
    hide HoldsOk, Sizes, SharesOk, StackHeld, MailOk, CurrentOk, StacksOk, CountOk, NotYet;
    if a in w.aps && (w.aps[a].pc.AsksFrames? || w.aps[a].pc.AsksHeap? || w.aps[a].pc.Signals? || w.aps[a].pc.Done?) {
      assert ReadOk(w, a);
      NotBoot(w, a);
    }
  }

  lemma NotBoot(w: World, a: nat)
    requires Shape(w) && OthersOk(w) && a in w.aps && !w.aps[a].pc.Off?
    ensures a != w.boot
  {
    var k :| 0 <= k < |w.ids| && w.ids[k] == a;
  }
}
