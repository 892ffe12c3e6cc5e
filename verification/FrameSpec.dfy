/** The page frame allocator of src/Paging/PageFrameAllocator.cpp as steps on a value, and what every run of it keeps. */
module FrameSpec {
  import opened Common

  const WORD: int := 0x1_0000_0000_0000_0000  // the counters are unsigned 64-bit words

  /** `bits` holds the bits the bitmap's bound tests let through: 8 * Size of its own and one of the byte after it.
      A set bit is a locked or reserved frame. */
  datatype Pfa = Pfa(bits: seq<bool>, hint: nat, free: int, used: int, reserved: int) {
    /** The bound of the search loops, 8 * Size. */
    function Limit(): int {
      |bits| - 1
    }

    predicate Valid() {
      && 0 < |bits|
      && hint <= Limit()
      && 0 <= free < WORD && 0 <= used < WORD && 0 <= reserved < WORD
    }

    predicate Get(i: nat) {
      i < |bits| && bits[i]
    }
  }

  function Min(a: nat, b: nat): nat {
    if a < b then a else b
  }

  /** A counter plus and minus one page, in a 64-bit word. */
  function PlusPage(x: int): int {
    if x + PAGE < WORD then x + PAGE else x + PAGE - WORD
  }

  function MinusPage(x: int): int {
    if x < PAGE then x - PAGE + WORD else x - PAGE
  }

  // ---------- single frames ----------

  function Lock(p: Pfa, i: nat): Pfa {
    if p.Get(i) || i >= |p.bits| then p
    else p.(bits := p.bits[i := true], free := MinusPage(p.free), used := PlusPage(p.used))
  }

  function Reserve(p: Pfa, i: nat): Pfa {
    if p.Get(i) || i >= |p.bits| then p
    else p.(bits := p.bits[i := true], free := MinusPage(p.free), reserved := PlusPage(p.reserved))
  }

  function Free(p: Pfa, i: nat): Pfa {
    if !p.Get(i) then p
    else p.(bits := p.bits[i := false], free := PlusPage(p.free), used := MinusPage(p.used),
            hint := Min(p.hint, i))
  }

  function Unreserve(p: Pfa, i: nat): Pfa {
    if !p.Get(i) then p
    else p.(bits := p.bits[i := false], free := PlusPage(p.free), reserved := MinusPage(p.reserved),
            hint := Min(p.hint, i))
  }

  // ---------- runs of frames ----------

  datatype Action = LockIt | ReserveIt | FreeIt | UnreserveIt

  function Act(p: Pfa, a: Action, i: nat): Pfa {
    match a
    case LockIt => Lock(p, i)
    case ReserveIt => Reserve(p, i)
    case FreeIt => Free(p, i)
    case UnreserveIt => Unreserve(p, i)
  }

  /** The action on frames first, first + 1, .. in that order, as the page loops do. */
  function ActAll(p: Pfa, a: Action, first: nat, count: nat): Pfa {
    if count == 0 then p else Act(ActAll(p, a, first, count - 1), a, first + count - 1)
  }

  // ---------- requests ----------

  /** The first clear bit at or after `from`, or the limit. */
  function NextClear(p: Pfa, from: nat): (r: nat)
    ensures from <= p.Limit() ==> from <= r <= p.Limit()
    ensures forall j :: from <= j < r ==> j < |p.bits| && p.bits[j]
    ensures r < p.Limit() ==> !p.Get(r)
    decreases p.Limit() - from
  {
    if from >= p.Limit() || !p.Get(from) then from else NextClear(p, from + 1)
  }

  /** No bit of the run is set. Frames beyond the bitmap read as clear. */
  predicate RunClear(p: Pfa, first: nat, count: nat) {
    forall j :: first <= j < first + count && j < |p.bits| ==> !p.bits[j]
  }

  /** The first place at or after `from` where a run of `count` is clear, or the limit. */
  function NextRun(p: Pfa, from: nat, count: nat): (r: nat)
    ensures from <= p.Limit() ==> from <= r <= p.Limit()
    ensures forall j :: from <= j < r ==> !RunClear(p, j, count)
    ensures r < p.Limit() ==> RunClear(p, r, count)
    decreases p.Limit() - from
  {
    if from >= p.Limit() || RunClear(p, from, count) then from else NextRun(p, from + 1, count)
  }

  /** The state and the address handed out; address 0 is NULL. */
  function Request(p: Pfa): (Pfa, nat) {
    var r := NextClear(p, p.hint);
    if r < p.Limit() then (Lock(p.(hint := r), r), r * PAGE) else (p.(hint := r), 0)
  }

  /** That many requests, one after the other. */
  function Requests(p: Pfa, pages: nat): Pfa {
    if pages == 0 then p else Request(Requests(p, pages - 1)).0
  }

  function RequestMany(p: Pfa, count: nat): (Pfa, nat) {
    var r := NextRun(p, p.hint, count);
    if r < p.Limit() then (ActAll(p.(hint := r), LockIt, r, count), r * PAGE) else (p, 0)
  }

  // ---------- any run of operations ----------

  datatype Op = RequestOp | RequestManyOp(count: nat) | ActOp(action: Action, first: nat, number: nat)

  datatype Grant = Nothing | Frames(first: nat, count: nat) {
    predicate Has(f: nat) {
      Frames? && first <= f < first + count
    }
  }

  function Step(p: Pfa, op: Op): Pfa {
    match op
    case RequestOp => Request(p).0
    case RequestManyOp(count) => RequestMany(p, count).0
    case ActOp(action, first, number) => ActAll(p, action, first, number)
  }

  /** The frames an operation hands out. */
  function Granted(p: Pfa, op: Op): Grant {
    match op
    case RequestOp =>
      var r := NextClear(p, p.hint);
      if r < p.Limit() then Frames(r, 1) else Nothing
    case RequestManyOp(count) =>
      var r := NextRun(p, p.hint, count);
      if r < p.Limit() then Frames(r, count) else Nothing
    case ActOp(_, _, _) => Nothing
  }

  function Run(p: Pfa, ops: seq<Op>): Pfa {
    if ops == [] then p else Step(Run(p, ops[..|ops| - 1]), ops[|ops| - 1])
  }

  /** The operation gives frame f back. */
  predicate Releases(op: Op, f: nat) {
    op.ActOp? && (op.action.FreeIt? || op.action.UnreserveIt?) && op.first <= f < op.first + op.number
  }

  // ---------- what one step does to the bits ----------

  lemma ActBits(p: Pfa, a: Action, i: nat)
    ensures var q := Act(p, a, i);
            && (p.Valid() ==> q.Valid())
            && q.hint <= p.hint
            && (a.LockIt? || a.ReserveIt? ==> q.hint == p.hint)
            && q.bits == if i < |p.bits| then p.bits[i := a.LockIt? || a.ReserveIt?] else p.bits
  {
  }

  /** A frame that becomes clear draws the hint down to it, and nothing else moves it. */
  lemma ActHint(p: Pfa, a: Action, i: nat)
    ensures Act(p, a, i).hint ==
            if (a.FreeIt? || a.UnreserveIt?) && p.Get(i) && i < p.hint then i else p.hint
  {
  }

  /** A page loop sets or clears exactly its own frames, as far as the bitmap reaches. */
  lemma {:induction false} ActAllBits(p: Pfa, a: Action, first: nat, count: nat)
    ensures var q := ActAll(p, a, first, count);
            && |q.bits| == |p.bits|
            && (p.Valid() ==> q.Valid())
            && q.hint <= p.hint
            && (a.LockIt? || a.ReserveIt? ==> q.hint == p.hint)
            && forall i :: 0 <= i < |p.bits| ==>
                 q.bits[i] == if first <= i < first + count then a.LockIt? || a.ReserveIt? else p.bits[i]
  {
    hide Act;
    if count > 0 {
      ActAllBits(p, a, first, count - 1);
      ActBits(ActAll(p, a, first, count - 1), a, first + count - 1);
    }
  }

  /** Every operation keeps the state valid; it sets the bits it grants, which were clear, clears only what it
      releases, and never shortens the bitmap. */
  lemma {:induction false} StepBits(p: Pfa, op: Op)
    requires p.Valid()
    ensures var q := Step(p, op);
            && q.Valid()
            && |q.bits| == |p.bits|
            && (forall f :: 0 <= f < |p.bits| && Granted(p, op).Has(f) ==> !p.bits[f] && q.bits[f])
            && (forall f :: 0 <= f < |p.bits| && p.bits[f] && !q.bits[f] ==> Releases(op, f))
            && (!op.ActOp? ==> forall f :: 0 <= f < |p.bits| && q.bits[f] && !p.bits[f] ==> Granted(p, op).Has(f))
  {
    match op
    case RequestOp =>
    case RequestManyOp(count) =>
      var r := NextRun(p, p.hint, count);
      ActAllBits(p.(hint := r), LockIt, r, count);
    case ActOp(action, first, number) =>
      ActAllBits(p, action, first, number);
  }

  lemma {:induction false} RunValid(p: Pfa, ops: seq<Op>)
    requires p.Valid()
    ensures Run(p, ops).Valid() && |Run(p, ops).bits| == |p.bits|
  {
    if ops != [] {
      RunValid(p, ops[..|ops| - 1]);
      StepBits(Run(p, ops[..|ops| - 1]), ops[|ops| - 1]);
    }
  }

  lemma RunNext(p: Pfa, ops: seq<Op>, i: nat)
    requires i < |ops|
    ensures Run(p, ops[..i + 1]) == Step(Run(p, ops[..i]), ops[i])
  {
    assert ops[..i + 1][..i] == ops[..i];
  }

  /** `RequestPages` takes the first place from the hint on where no frame of the run is taken, and hands out its address;
      if there is none it fails and changes nothing. */
  lemma ManyIsFirst(p: Pfa, count: nat)
    requires p.Valid()
    ensures var grant, r := Granted(p, RequestManyOp(count)), RequestMany(p, count);
            if grant.Frames? then
              && grant.count == count && p.hint <= grant.first < |p.bits| - 1 && r.1 == grant.first * 4096
              && (forall j :: grant.first <= j < grant.first + count && j < |p.bits| ==> !p.bits[j])
              && (forall s :: p.hint <= s < grant.first ==> TakenIn(p, s, count))
            else
              r == (p, 0) && forall s :: p.hint <= s < |p.bits| - 1 ==> TakenIn(p, s, count)
  {
    forall s: nat | !RunClear(p, s, count)
      ensures TakenIn(p, s, count)
    {
    }
  }

  predicate TakenIn(p: Pfa, s: int, count: nat) {
    exists j :: s <= j < s + count && 0 <= j < |p.bits| && p.bits[j]
  }

  // ---------- no frame is granted twice ----------

  lemma {:induction false} StaysLocked(p: Pfa, ops: seq<Op>, i: nat, j: nat, f: nat)
    requires p.Valid() && i <= j <= |ops| && f < |p.bits|
    requires Run(p, ops[..i]).Get(f)
    requires forall k :: i <= k < j ==> !Releases(ops[k], f)
    ensures Run(p, ops[..j]).Get(f)
    decreases j
  {
    if i < j {
      StaysLocked(p, ops, i, j - 1, f);
      assert ops[..j][..j - 1] == ops[..j - 1];
      RunValid(p, ops[..j - 1]);
      StepBits(Run(p, ops[..j - 1]), ops[j - 1]);
    }
  }

  /** Over any run, a frame of the bitmap granted by operation i and again by operation j was given back in between. */
  lemma {:induction false} NoDoubleGrant(p: Pfa, ops: seq<Op>, i: nat, j: nat, f: nat)
    requires p.Valid() && i < j < |ops| && f < |p.bits|
    requires Granted(Run(p, ops[..i]), ops[i]).Has(f)
    requires Granted(Run(p, ops[..j]), ops[j]).Has(f)
    ensures exists k :: i < k < j && Releases(ops[k], f)
  {
    hide Granted, Step, Run, Releases;
    if forall k :: i < k < j ==> !Releases(ops[k], f) {
      RunValid(p, ops[..i]);
      StepBits(Run(p, ops[..i]), ops[i]);
      RunNext(p, ops, i);
      StaysLocked(p, ops, i + 1, j, f);
      RunValid(p, ops[..j]);
      StepBits(Run(p, ops[..j]), ops[j]);
      assert false;
    }
  }

  /** Whether frame f is out after a run, from the grants and page actions alone. */
  predicate Outstanding(p: Pfa, ops: seq<Op>, f: nat) {
    if ops == [] then p.Get(f)
    else
      var init, op := ops[..|ops| - 1], ops[|ops| - 1];
      if op.ActOp? && op.first <= f < op.first + op.number then op.action.LockIt? || op.action.ReserveIt?
      else Granted(Run(p, init), op).Has(f) || Outstanding(p, init, f)
  }

  /** Over any run the bitmap is the set of frames out. */
  lemma {:induction false} BitsAreOutstanding(p: Pfa, ops: seq<Op>, f: nat)
    requires p.Valid() && f < |p.bits|
    ensures Run(p, ops).Get(f) <==> Outstanding(p, ops, f)
  {
    if ops != [] {
      var init, op := ops[..|ops| - 1], ops[|ops| - 1];
      BitsAreOutstanding(p, init, f);
      RunValid(p, init);
      StepBits(Run(p, init), op);
      if op.ActOp? {
        ActAllBits(Run(p, init), op.action, op.first, op.number);
      }
    }
  }

  /** A grant is locked as a whole exactly if it does not overhang the bitmap; what overhangs is handed out unlocked. */
  lemma GrantLockedIff(p: Pfa, count: nat)
    requires p.Valid() && Granted(p, RequestManyOp(count)).Frames?
    ensures var first := Granted(p, RequestManyOp(count)).first;
            (forall f :: first <= f < first + count ==> RequestMany(p, count).0.Get(f)) <==>
            count == 0 || first + count <= |p.bits|
  {
    var first := Granted(p, RequestManyOp(count)).first;
    ActAllBits(p.(hint := first), LockIt, first, count);
    if count > 0 {
      assert RequestMany(p, count).0.Get(first + count - 1) <==> first + count <= |p.bits|;
    }
  }

  /** Operations i and j of the run both hand out frame f, and nothing in between gives it back. */
  predicate GrantedTwice(p: Pfa, ops: seq<Op>, i: nat, j: nat, f: nat) {
    && i < j < |ops|
    && Granted(Run(p, ops[..i]), ops[i]).Has(f) && Granted(Run(p, ops[..j]), ops[j]).Has(f)
    && forall k :: i < k < j ==> !Releases(ops[k], f)
  }

  /** With all frames of the bitmap clear and the hint at 0, a request that reaches f is granted from frame 0 on. */
  lemma RequestAll(p: Pfa, f: nat)
    requires p.Valid() && p.Limit() > 0 && p.hint == 0 && forall k :: 0 <= k < |p.bits| ==> !p.bits[k]
    ensures Granted(p, RequestManyOp(f + 1)) == Frames(0, f + 1)
  {
    assert RunClear(p, 0, f + 1);
  }

  /** Locking and freeing the whole bitmap clears it and brings the hint to 0. */
  lemma FreeAll(p: Pfa)
    requires p.Valid()
    ensures var q := ActAll(ActAll(p, LockIt, 0, |p.bits|), FreeIt, 0, |p.bits|);
            q.Valid() && |q.bits| == |p.bits| && q.hint == 0 && forall k :: 0 <= k < |q.bits| ==> !q.bits[k]
  {
    ActAllBits(p, LockIt, 0, |p.bits|);
    ActAllBits(ActAll(p, LockIt, 0, |p.bits|), FreeIt, 0, |p.bits|);
    FreeFirst(ActAll(p, LockIt, 0, |p.bits|), |p.bits|);
  }

  lemma {:induction false} FreeFirst(p: Pfa, count: nat)
    requires p.Valid() && p.bits[0] && count > 0
    ensures ActAll(p, FreeIt, 0, count).hint == 0
  {
    ActAllBits(p, FreeIt, 0, count - 1);
    if count > 1 {
      FreeFirst(p, count - 1);
    } else {
      assert ActAll(p, FreeIt, 0, 0) == p;
    }
  }

  /** Lock and free everything, then twice ask for all up to f, with everything but f freed in between. */
  function Overhang(p: Pfa, f: nat): seq<Op> {
    var n := |p.bits|;
    [ActOp(LockIt, 0, n), ActOp(FreeIt, 0, n), RequestManyOp(f + 1), ActOp(FreeIt, 0, n), RequestManyOp(f + 1)]
  }

  /** The states before operations 2 and 4 of a run. */
  lemma RunTwoAndFour(p: Pfa, ops: seq<Op>)
    requires |ops| >= 4
    ensures var p2 := Step(Step(p, ops[0]), ops[1]);
            Run(p, ops[..2]) == p2 && Run(p, ops[..4]) == Step(Step(p2, ops[2]), ops[3])
  {
    hide Run, Step;
    RunSteps(p, ops, 0);
    RunSteps(p, ops, 1);
    RunSteps(p, ops, 2);
    RunSteps(p, ops, 3);
  }

  lemma OverhangGrantsTwice(p: Pfa, f: nat)
    requires p.Valid() && p.Limit() > 0 && |p.bits| <= f
    ensures GrantedTwice(p, Overhang(p, f), 2, 4, f)
  {
    hide Run, ActAll, NextRun;
    var n := |p.bits|;
    var p2 := ActAll(ActAll(p, LockIt, 0, n), FreeIt, 0, n);
    RunTwoAndFour(p, Overhang(p, f));
    FreeAll(p);
    RequestAll(p2, f);
    ActAllBits(p2.(hint := 0), LockIt, 0, f + 1);
    var p3 := RequestMany(p2, f + 1).0;
    ActAllBits(p3, FreeIt, 0, n);
    RequestAll(ActAll(p3, FreeIt, 0, n), f);
  }

  lemma RunSteps(p: Pfa, ops: seq<Op>, k: nat)
    requires k < |ops|
    ensures Run(p, ops[..0]) == p && Run(p, ops[..k + 1]) == Step(Run(p, ops[..k]), ops[k])
  {
    assert ops[..k + 1][..k] == ops[..k];
  }

  /** A frame can be handed out twice without being given back exactly if it lies past the reach of the bitmap. */
  lemma GrantedTwiceIff(p: Pfa, f: nat)
    requires p.Valid()
    ensures (exists ops, i, j :: GrantedTwice(p, ops, i, j, f)) <==> p.Limit() > 0 && |p.bits| <= f
  {
    if p.Limit() > 0 && |p.bits| <= f {
      OverhangGrantsTwice(p, f);
    } else {
      forall ops, i, j
        ensures !GrantedTwice(p, ops, i, j, f)
      {
        if GrantedTwice(p, ops, i, j, f) {
          RunValid(p, ops[..i]);
          if f < |p.bits| {
            NoDoubleGrant(p, ops, i, j, f);
          }
        }
      }
    }
  }

  // ---------- the search hint ----------

  /** Every frame the hint skips is taken. */
  predicate HintIsTight(p: Pfa) {
    forall i :: 0 <= i < p.hint && i < |p.bits| ==> p.bits[i]
  }

  /** With a tight hint `RequestPage` grants the lowest clear frame of all, and NULL means that none is clear (or that
      the granted frame is frame 0, whose address is NULL). */
  lemma RequestIsLowest(p: Pfa)
    requires p.Valid() && HintIsTight(p)
    ensures HintIsTight(Request(p).0)
    ensures var f := Request(p).1 / PAGE;
            var none := forall i :: 0 <= i < p.Limit() ==> p.bits[i];
            if none then Request(p).1 == 0 && Request(p).0.bits == p.bits
            else f < p.Limit() && !p.bits[f] && Request(p).1 == f * PAGE && Request(p).0.bits == p.bits[f := true]
                 && forall i :: 0 <= i < f ==> p.bits[i]
  {
    var r := NextClear(p, p.hint);
    if r < p.Limit() {
      assert !p.bits[r];
    }
  }

  /** Every operation but `RequestPages` keeps the hint tight; that one does so exactly if it found nothing, asked for
      nothing, or the first clear frame already starts a clear run, so that no smaller hole was skipped. */
  lemma {:induction false} HintTightIff(p: Pfa, op: Op)
    requires p.Valid() && HintIsTight(p)
    ensures !op.RequestManyOp? ==> HintIsTight(Step(p, op))
    ensures op.RequestManyOp? ==>
              (HintIsTight(Step(p, op)) <==>
               Granted(p, op).Nothing? || op.count == 0 || RunClear(p, NextClear(p, p.hint), op.count))
  {
    match op
    case RequestOp =>
      RequestIsLowest(p);
    case ActOp(action, first, number) =>
      HintTightAct(p, action, first, number);
    case RequestManyOp(count) =>
      var c, r := NextClear(p, p.hint), NextRun(p, p.hint, count);
      var q := Step(p, op);
      if r < p.Limit() && count > 0 {
        ActAllBits(p.(hint := r), LockIt, r, count);
        assert !p.bits[r];
      }
  }

  lemma {:induction false} HintTightAct(p: Pfa, a: Action, first: nat, count: nat)
    requires p.Valid() && HintIsTight(p)
    ensures HintIsTight(ActAll(p, a, first, count))
  {
    if count > 0 {
      HintTightAct(p, a, first, count - 1);
      ActAllBits(p, a, first, count - 1);
    }
  }

  lemma {:induction false} HintTightRun(p: Pfa, ops: seq<Op>)
    requires p.Valid() && HintIsTight(p)
    requires forall k :: 0 <= k < |ops| ==> !ops[k].RequestManyOp?
    ensures HintIsTight(Run(p, ops))
  {
    if ops != [] {
      HintTightRun(p, ops[..|ops| - 1]);
      RunValid(p, ops[..|ops| - 1]);
      HintTightIff(Run(p, ops[..|ops| - 1]), ops[|ops| - 1]);
    }
  }

  // ---------- the counters ----------

  function Clear(bits: seq<bool>): nat {
    if bits == [] then 0 else Clear(bits[..|bits| - 1]) + if bits[|bits| - 1] then 0 else 1
  }

  lemma {:induction false} ClearUpdate(bits: seq<bool>, i: nat, value: bool)
    requires i < |bits|
    ensures Clear(bits[i := value]) == Clear(bits) + (if bits[i] then 1 else 0) - (if value then 1 else 0)
  {
    var last := |bits| - 1;
    if i == last {
      assert bits[i := value][..last] == bits[..last];
    } else {
      ClearUpdate(bits[..last], i, value);
      assert bits[i := value][..last] == bits[..last][i := value];
    }
  }

  /** Bytes are neither made nor lost, and the free bytes follow the clear bits, in 64-bit arithmetic. */
  predicate Conserves(p: Pfa, q: Pfa) {
    && (q.free + q.used + q.reserved) % WORD == (p.free + p.used + p.reserved) % WORD
    && q.free % WORD == (p.free + PAGE * (Clear(q.bits) - Clear(p.bits))) % WORD
  }

  lemma {:induction false} ActConserves(p: Pfa, a: Action, i: nat)
    ensures Conserves(p, Act(p, a, i))
  {
    if i < |p.bits| {
      ClearUpdate(p.bits, i, a.LockIt? || a.ReserveIt?);
      PageSteps(p.free, 0);
      match a
      case LockIt => MoveBytes(p.free, p.used, p.reserved);
      case ReserveIt => MoveBytes(p.free, p.reserved, p.used);
      case FreeIt => MoveBytes(p.used, p.free, p.reserved);
      case UnreserveIt => MoveBytes(p.reserved, p.free, p.used);
    }
  }

  /** Moving a page from one counter to another keeps the sum, wrap-around included. */
  lemma MoveBytes(a: int, b: int, c: int)
    ensures (MinusPage(a) + PlusPage(b) + c) % WORD == (a + b + c) % WORD
  {
    PageSteps(a, PlusPage(b) + c);
    PageSteps(b, a - PAGE + c);
  }

  lemma PageSteps(x: int, rest: int)
    ensures (PlusPage(x) + rest) % WORD == (x + PAGE + rest) % WORD
    ensures (MinusPage(x) + rest) % WORD == (x - PAGE + rest) % WORD
  {
  }

  lemma ConservesTransitive(p: Pfa, q: Pfa, r: Pfa)
    requires Conserves(p, q) && Conserves(q, r)
    ensures Conserves(p, r)
  {
    ModAdd(q.free, p.free + PAGE * (Clear(q.bits) - Clear(p.bits)), PAGE * (Clear(r.bits) - Clear(q.bits)));
  }

  lemma ModAdd(a: int, b: int, c: int)
    requires a % WORD == b % WORD
    ensures (a + c) % WORD == (b + c) % WORD
  {
    var k := a / WORD - b / WORD;
    assert a + c == b + c + k * WORD;
  }

  lemma {:induction false} ActAllConserves(p: Pfa, a: Action, first: nat, count: nat)
    ensures Conserves(p, ActAll(p, a, first, count))
  {
    if count > 0 {
      ActAllConserves(p, a, first, count - 1);
      var q := ActAll(p, a, first, count - 1);
      ActConserves(q, a, first + count - 1);
      ConservesTransitive(p, q, ActAll(p, a, first, count));
    }
  }

  lemma {:induction false} StepConserves(p: Pfa, op: Op)
    ensures Conserves(p, Step(p, op))
  {
    match op
    case RequestOp =>
      var r := NextClear(p, p.hint);
      ActConserves(p.(hint := r), LockIt, r);
    case RequestManyOp(count) =>
      ActAllConserves(p.(hint := NextRun(p, p.hint, count)), LockIt, NextRun(p, p.hint, count), count);
    case ActOp(action, first, number) =>
      ActAllConserves(p, action, first, number);
  }

  /** Over any run the three counters keep their sum, and the free counter moves with the number of clear bits. */
  lemma {:induction false} RunConserves(p: Pfa, ops: seq<Op>)
    ensures Conserves(p, Run(p, ops))
  {
    if ops != [] {
      var q := Run(p, ops[..|ops| - 1]);
      RunConserves(p, ops[..|ops| - 1]);
      StepConserves(q, ops[|ops| - 1]);
      ConservesTransitive(p, q, Run(p, ops));
    }
  }

  // ---------- which counter ----------

  predicate Reserving(a: Action) {
    a.ReserveIt? || a.UnreserveIt?
  }

  /** A 64-bit counter moves by so many pages, wrap-around included. */
  predicate MovedBy(x: int, y: int, pages: int) {
    y % 0x1_0000_0000_0000_0000 == (x + 4096 * pages) % 0x1_0000_0000_0000_0000
  }

  lemma MovesAdd(x: int, y: int, z: int, a: int, b: int)
    requires MovedBy(x, y, a) && MovedBy(y, z, b)
    ensures MovedBy(x, z, a + b)
  {
    ModAdd(y, x + PAGE * a, PAGE * b);
  }

  lemma MovesNone(x: int)
    ensures MovedBy(x, x, 0)
  {
  }

  lemma MovesOne(x: int)
    ensures MovedBy(x, PlusPage(x), 1) && MovedBy(x, MinusPage(x), -1)
  {
    PageSteps(x, 0);
  }

  /** The bits set, less those cleared, are in the reserved counter or in the used one; the other stands still. */
  predicate Counts(p: Pfa, q: Pfa, reserving: bool) {
    var pages := Clear(p.bits) - Clear(q.bits);
    if reserving then q.used == p.used && MovedBy(p.reserved, q.reserved, pages)
    else q.reserved == p.reserved && MovedBy(p.used, q.used, pages)
  }

  lemma ActCounts(p: Pfa, a: Action, i: nat)
    ensures Counts(p, Act(p, a, i), Reserving(a))
  {
    if i < |p.bits| {
      ClearUpdate(p.bits, i, a.LockIt? || a.ReserveIt?);
    }
    var x := if Reserving(a) then p.reserved else p.used;
    MovesNone(x);
    MovesOne(x);
    hide MovedBy, Clear, PlusPage, MinusPage;
  }

  lemma CountsTransitive(p: Pfa, q: Pfa, r: Pfa, reserving: bool)
    requires Counts(p, q, reserving) && Counts(q, r, reserving)
    ensures Counts(p, r, reserving)
  {
    hide MovedBy;
    var a, b := Clear(p.bits) - Clear(q.bits), Clear(q.bits) - Clear(r.bits);
    if reserving {
      MovesAdd(p.reserved, q.reserved, r.reserved, a, b);
    } else {
      MovesAdd(p.used, q.used, r.used, a, b);
    }
  }

  lemma CountsNone(p: Pfa, reserving: bool)
    ensures Counts(p, p, reserving)
  {
    MovesNone(p.used);
    MovesNone(p.reserved);
  }

  lemma {:induction false} ActAllCounts(p: Pfa, a: Action, first: nat, count: nat)
    ensures Counts(p, ActAll(p, a, first, count), Reserving(a))
  {
    hide Counts, Act;
    if count == 0 {
      CountsNone(p, Reserving(a));
    } else {
      var q := ActAll(p, a, first, count - 1);
      ActAllCounts(p, a, first, count - 1);
      ActCounts(q, a, first + count - 1);
      CountsTransitive(p, q, ActAll(p, a, first, count), Reserving(a));
    }
  }

  predicate ReservingOp(op: Op) {
    op.ActOp? && Reserving(op.action)
  }

  lemma HintCounts(p: Pfa, q: Pfa, hint: nat, reserving: bool)
    requires Counts(p.(hint := hint), q, reserving)
    ensures Counts(p, q, reserving)
  {
  }

  lemma {:induction false} StepCounts(p: Pfa, op: Op)
    ensures Counts(p, Step(p, op), ReservingOp(op))
  {
    hide Counts, Lock;
    match op
    case RequestOp =>
      var r := NextClear(p, p.hint);
      ActCounts(p.(hint := r), LockIt, r);
      CountsNone(p.(hint := r), false);
      HintCounts(p, Step(p, op), r, false);
    case RequestManyOp(count) =>
      var r := NextRun(p, p.hint, count);
      ActAllCounts(p.(hint := r), LockIt, r, count);
      CountsNone(p.(hint := p.hint), false);
      HintCounts(p, Step(p, op), if r < p.Limit() then r else p.hint, false);
    case ActOp(action, first, number) =>
      ActAllCounts(p, action, first, number);
  }

  /** The frames that a run's reserving operations, or its others, set less those they clear. */
  function Net(p: Pfa, ops: seq<Op>, reserving: bool): int {
    if ops == [] then 0
    else
      var init, op := ops[..|ops| - 1], ops[|ops| - 1];
      Net(p, init, reserving)
      + if ReservingOp(op) == reserving then Clear(Run(p, init).bits) - Clear(Run(p, ops).bits) else 0
  }

  /** Over any run the used counter follows what requests, locks and frees do to the bits, and the reserved counter what
      reserves and unreserves do. */
  lemma {:induction false} RunCounts(p: Pfa, ops: seq<Op>)
    ensures var q := Run(p, ops);
            && MovedBy(p.used, q.used, Net(p, ops, false)) && MovedBy(p.reserved, q.reserved, Net(p, ops, true))
            && Net(p, ops, false) + Net(p, ops, true) == Clear(p.bits) - Clear(q.bits)
  {
    hide MovedBy, Step, Clear, ReservingOp;
    if ops == [] {
      MovesNone(p.used);
      MovesNone(p.reserved);
    } else {
      var init, op := ops[..|ops| - 1], ops[|ops| - 1];
      var q, r := Run(p, init), Run(p, ops);
      RunCounts(p, init);
      StepCounts(q, op);
      var pages := Clear(q.bits) - Clear(r.bits);
      if ReservingOp(op) {
        MovesAdd(p.reserved, q.reserved, r.reserved, Net(p, init, true), pages);
      } else {
        MovesAdd(p.used, q.used, r.used, Net(p, init, false), pages);
      }
    }
  }
}
