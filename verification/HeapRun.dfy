/** Any run of `malloc` and `free`. */
module HeapRun {
  import opened Common
  import opened BlockSpec

  /** `granted` records the size asked for each payload address handed out and not freed since. */
  datatype State = State(blocks: seq<Block>, start: int, end: int, granted: map<int, nat>)

  datatype Op = MallocOp(size: nat) | FreeOp(payload: int)

  /** The block with the given payload address, or the number of blocks. */
  function Find(bs: seq<Block>, payload: int, from: nat := 0): (i: nat)
    requires from <= |bs|
    ensures from <= i <= |bs|
    ensures i < |bs| ==> bs[i].Payload() == payload
    ensures forall j :: from <= j < i ==> bs[j].Payload() != payload
    decreases |bs| - from
  {
    if from == |bs| || bs[from].Payload() == payload then from else Find(bs, payload, from + 1)
  }

  /** How long a payload may be for a request of this size: at most 15 bytes are lost to rounding, and at most 32 because
      the remainder is too short for a block. */
  predicate Close(size: nat, len: int) {
    size <= len < size + 48
  }

  /** What is recorded as granted is what is live, as long as asked for and little longer. */
  predicate Keyed(granted: map<int, nat>, live: set<(int, int)>) {
    && (forall x :: x in live ==> x.0 in granted && Close(granted[x.0], x.1))
    && (forall p :: p in granted ==> exists x :: x in live && x.0 == p)
  }

  predicate Ok(s: State) {
    Inv(s.blocks, s.start, s.end) && Keyed(s.granted, Live(s.blocks))
  }

  /** Only addresses handed out are freed. */
  predicate Legal(s: State, op: Op) {
    op.FreeOp? ==> op.payload in s.granted
  }

  lemma FindBlock(bs: seq<Block>, start: int, end: int, i: nat)
    requires Tiles(bs, start, end) && i < |bs|
    ensures Find(bs, bs[i].Payload()) == i
  {
    var j := Find(bs, bs[i].Payload());
    if j < i {
      TilesOrdered(bs, start, end, j, i);
    }
  }

  /** A granted payload belongs to the live block found for it. */
  lemma GrantedBlock(s: State, p: int)
    requires Ok(s) && p in s.granted
    ensures var i := Find(s.blocks, p);
            i < |s.blocks| && !s.blocks[i].free && Close(s.granted[p], s.blocks[i].len)
  {
    var x :| x in Live(s.blocks) && x.0 == p;
    var i :| 0 <= i < |s.blocks| && !s.blocks[i].free && x == (s.blocks[i].Payload(), s.blocks[i].len);
    FindBlock(s.blocks, s.start, s.end, i);
  }

  function Step(s: State, op: Op): State
    requires Ok(s) && Legal(s, op)
  {
    match op
    case MallocOp(size) =>
      var rounded := Rounded(size);
      if rounded == 0 then s
      else
        var r := Malloc(s.blocks, s.start, s.end, rounded);
        State(r.0, s.start, r.1, s.granted[r.0[r.2].Payload() := size])
    case FreeOp(payload) =>
      GrantedBlock(s, payload);
      State(Release(s.blocks, Find(s.blocks, payload)), s.start, s.end, s.granted - {payload})
  }

  lemma KeyedAdd(granted: map<int, nat>, live: set<(int, int)>, x: (int, int), size: nat)
    requires Keyed(granted, live) && Close(size, x.1) && forall y :: y in live ==> y.0 != x.0
    ensures Keyed(granted[x.0 := size], live + {x})
  {
    var granted1, live1 := granted[x.0 := size], live + {x};
    forall p | p in granted1
      ensures exists y :: y in live1 && y.0 == p
    {
      if p == x.0 {
        assert x in live1;
      } else {
        var y :| y in live && y.0 == p;
        assert y in live1;
      }
    }
  }

  lemma KeyedRemove(granted: map<int, nat>, live: set<(int, int)>, x: (int, int))
    requires Keyed(granted, live) && x in live && forall y :: y in live && y != x ==> y.0 != x.0
    ensures Keyed(granted - {x.0}, live - {x})
  {
    var granted1, live1 := granted - {x.0}, live - {x};
    forall p | p in granted1
      ensures exists y :: y in live1 && y.0 == p
    {
      var y :| y in live && y.0 == p;
      assert y in live1;
    }
  }

  lemma StepOk(s: State, op: Op)
    requires Ok(s) && Legal(s, op)
    ensures Ok(Step(s, op))
  {
    match op
    case MallocOp(size) => MallocOk(s, size);
    case FreeOp(payload) => FreeOk(s, payload);
  }

  lemma MallocOk(s: State, size: nat)
    requires Ok(s)
    ensures Ok(Step(s, MallocOp(size)))
  {
    var rounded := Rounded(size);
    if rounded > 0 {
      var r := Malloc(s.blocks, s.start, s.end, rounded);
      var b := r.0[r.2];
      MallocInv(s.blocks, s.start, s.end, rounded);
      KeyedAdd(s.granted, Live(s.blocks), (b.Payload(), b.len), size);
    }
  }

  lemma FreeOk(s: State, payload: int)
    requires Ok(s) && payload in s.granted
    ensures Ok(Step(s, FreeOp(payload)))
  {
    GrantedBlock(s, payload);
    var i := Find(s.blocks, payload);
    var b := s.blocks[i];
    ReleaseInv(s.blocks, s.start, s.end, i);
    ReleaseLive(s.blocks, s.start, s.end, i);
    LiveOf(s.blocks, i);
    LiveOnce(s.blocks, s.start, s.end, i);
    KeyedRemove(s.granted, Live(s.blocks), (b.Payload(), b.len));
  }

  lemma LiveOnce(bs: seq<Block>, start: int, end: int, i: nat)
    requires Tiles(bs, start, end) && i < |bs|
    ensures forall y :: y in Live(bs) && y != (bs[i].Payload(), bs[i].len) ==> y.0 != bs[i].Payload()
  {
    forall j | 0 <= j < |bs| && j != i
      ensures bs[j].addr != bs[i].addr
    {
      FindBlock(bs, start, end, i);
      FindBlock(bs, start, end, j);
    }
  }

  // ---------- runs ----------

  predicate LegalRun(s: State, ops: seq<Op>)
    requires Ok(s)
    decreases |ops|
  {
    ops == [] ||
    (Legal(s, ops[0]) &&
     (StepOk(s, ops[0]); LegalRun(Step(s, ops[0]), ops[1..])))
  }

  function Run(s: State, ops: seq<Op>): (r: State)
    requires Ok(s) && LegalRun(s, ops)
    ensures Ok(r) && r.start == s.start
    decreases |ops|
  {
    if ops == [] then s
    else
      StepOk(s, ops[0]);
      Run(Step(s, ops[0]), ops[1..])
  }

  /** The heap `InitialiseHeap` makes of whole pages. */
  function Fresh(start: int, pages: nat): State {
    State([Block(start, pages * PAGE - HEADER, true)], start, start + pages * PAGE, map[])
  }

  lemma FreshOk(start: int, pages: nat)
    requires start % UNIT == 0 && pages > 0
    ensures Ok(Fresh(start, pages))
  {
    assert (pages * PAGE - HEADER) % UNIT == 0;
    LiveSingle(Fresh(start, pages).blocks[0]);
  }

  /** The allocator's own data are the headers: apart from its payload, block k is its header. */
  lemma OkSafe(s: State, p: int, q: int, k: nat)
    requires Ok(s) && p in s.granted && q in s.granted && k < |s.blocks|
    ensures var i := Find(s.blocks, p);
            && p % 16 == 0 && i < |s.blocks| && Close(s.granted[p], s.blocks[i].len)
            && s.start + HEADER <= p && p + s.blocks[i].len <= s.end
            && (p != q ==> p + s.blocks[i].len <= q || q + s.granted[q] <= p)
            && (s.blocks[k].Payload() <= p || p + s.blocks[i].len <= s.blocks[k].addr)
  {
    GrantedBlock(s, p);
    GrantedBlock(s, q);
    var i, j := Find(s.blocks, p), Find(s.blocks, q);
    TilesWithin(s.blocks, s.start, s.end, i);
    if p != q {
      Apart(s, i, j);
    }
    if i != k {
      Apart(s, i, k);
    }
  }

  lemma Apart(s: State, i: nat, j: nat)
    requires Ok(s) && i < |s.blocks| && j < |s.blocks| && i != j
    ensures s.blocks[i].End() <= s.blocks[j].addr || s.blocks[j].End() <= s.blocks[i].addr
  {
    if i < j {
      TilesOrdered(s.blocks, s.start, s.end, i, j);
    } else {
      TilesOrdered(s.blocks, s.start, s.end, j, i);
    }
  }

  /** After any legal run from a fresh heap: what was granted and not freed is 16-byte aligned, at least as long as asked
      for and less than 48 bytes longer, inside the heap, apart from everything else granted, and apart from every block
      header. */
  lemma RunSafe(start: int, pages: nat, ops: seq<Op>, p: int, q: int, k: nat)
    requires start % UNIT == 0 && pages > 0
    ensures Ok(Fresh(start, pages))
    ensures LegalRun(Fresh(start, pages), ops) ==>
              var s := Run(Fresh(start, pages), ops);
              p in s.granted && q in s.granted && k < |s.blocks| ==>
                var i := Find(s.blocks, p);
                && p % 16 == 0 && i < |s.blocks| && s.granted[p] <= s.blocks[i].len < s.granted[p] + 48
                && start + HEADER <= p && p + s.blocks[i].len <= s.end
                && (p != q ==> p + s.blocks[i].len <= q || q + s.granted[q] <= p)
                && (s.blocks[k].Payload() <= p || p + s.blocks[i].len <= s.blocks[k].addr)
  {
    FreshOk(start, pages);
    if LegalRun(Fresh(start, pages), ops) {
      var s := Run(Fresh(start, pages), ops);
      hide LegalRun, Run, Fresh;
      if p in s.granted && q in s.granted && k < |s.blocks| {
        OkSafe(s, p, q, k);
      }
    }
  }

  /** Whenever everything granted has been freed, in whatever order, the heap is one free block again. */
  lemma RunCoalesces(start: int, pages: nat, ops: seq<Op>)
    requires start % UNIT == 0 && pages > 0
    ensures Ok(Fresh(start, pages))
    ensures LegalRun(Fresh(start, pages), ops) ==>
              var s := Run(Fresh(start, pages), ops);
              s.granted == map[] ==> s.blocks == [Block(start, s.end - start - HEADER, true)]
  {
    FreshOk(start, pages);
    if LegalRun(Fresh(start, pages), ops) {
      var s := Run(Fresh(start, pages), ops);
      if s.granted == map[] {
        assert Live(s.blocks) == {};
        AllFreeIsOne(s.blocks, s.start, s.end);
      }
    }
  }
}
