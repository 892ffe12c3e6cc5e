/** Which frames `ReadEFIMemoryMap` leaves clear. */
module FrameBoot {
  import opened Common
  import opened FrameSpec

  const CONVENTIONAL := 7
  const LOW_PAGES: nat := 0x100  // the first megabyte, kept for the firmware

  datatype Descriptor = Descriptor(kind: nat, physAddr: nat, numPages: nat)

  function TotalPages(mMap: seq<Descriptor>): nat {
    if mMap == [] then 0 else TotalPages(mMap[..|mMap| - 1]) + mMap[|mMap| - 1].numPages
  }

  /** Every descriptor counts, whatever its kind. */
  lemma {:induction false} TotalPagesJoin(a: seq<Descriptor>, b: seq<Descriptor>)
    ensures TotalPages(a + b) == TotalPages(a) + TotalPages(b)
    ensures |b| == 1 ==> TotalPages(b) == b[0].numPages
  {
    if b == [] {
      assert a + b == a;
    } else {
      TotalPagesJoin(a, b[..|b| - 1]);
      assert (a + b)[..|a + b| - 1] == a + b[..|b| - 1];
    }
  }

  /** Address and size in bytes of the first largest conventional segment; (0, 0) if there is none. */
  function LargestSegment(mMap: seq<Descriptor>): (nat, nat) {
    if mMap == [] then (0, 0)
    else
      var best := LargestSegment(mMap[..|mMap| - 1]);
      var d := mMap[|mMap| - 1];
      if d.kind == CONVENTIONAL && d.numPages * PAGE > best.1 then (d.physAddr, d.numPages * PAGE) else best
  }

  /** Segment k is conventional and of that many bytes. */
  predicate Holds(mMap: seq<Descriptor>, k: nat, size: nat) {
    k < |mMap| && mMap[k].kind == 7 && mMap[k].numPages * 4096 == size
  }

  /** The address and size are those of the first of the largest conventional segments; with no pages in any, 0 and 0. */
  ghost predicate IsLargest(mMap: seq<Descriptor>, address: nat, size: nat) {
    && (forall k :: 0 <= k < |mMap| && mMap[k].kind == 7 ==> mMap[k].numPages * 4096 <= size)
    && if size == 0 then address == 0
       else exists k: nat :: Holds(mMap, k, size) && mMap[k].physAddr == address
                             && forall j :: 0 <= j < k ==> !Holds(mMap, j, size)
  }

  lemma {:induction false} LargestIsLargest(mMap: seq<Descriptor>)
    ensures IsLargest(mMap, LargestSegment(mMap).0, LargestSegment(mMap).1)
  {
    if mMap != [] {
      var init, d := mMap[..|mMap| - 1], mMap[|mMap| - 1];
      LargestIsLargest(init);
      var size := LargestSegment(mMap).1;
      if d.kind == CONVENTIONAL && d.numPages * PAGE > LargestSegment(init).1 {
        assert Holds(mMap, |mMap| - 1, size);
        forall j | 0 <= j < |mMap| - 1
          ensures !Holds(mMap, j, size)
        {
          assert mMap[j] == init[j];
        }
      } else if size > 0 {
        var k: nat :| Holds(init, k, size) && init[k].physAddr == LargestSegment(init).0
                      && forall j :: 0 <= j < k ==> !Holds(init, j, size);
        assert Holds(mMap, k, size);
        assert forall j :: 0 <= j < k ==> (Holds(mMap, j, size) <==> Holds(init, j, size));
      }
    }
  }

  function UnreserveMap(p: Pfa, mMap: seq<Descriptor>): Pfa {
    if mMap == [] then p
    else
      var q := UnreserveMap(p, mMap[..|mMap| - 1]);
      var d := mMap[|mMap| - 1];
      if d.kind == CONVENTIONAL then ActAll(q, UnreserveIt, d.physAddr / PAGE, d.numPages) else q
  }

  /** Bytes of the bitmap. */
  function BitmapSize(mMap: seq<Descriptor>): nat {
    TotalPages(mMap) / 8 + 1
  }

  /** The zeroed bitmap; `stray` is the first bit of the byte after it, whatever memory held there. */
  function Initial(mMap: seq<Descriptor>, stray: bool): Pfa {
    Pfa(seq(8 * BitmapSize(mMap), _ => false) + [stray], 0, (TotalPages(mMap) * PAGE) % WORD, 0, 0)
  }

  /** The frames the firmware and the bitmap itself sit in are taken. */
  function LockBoot(p: Pfa, bitmapAddress: nat, size: nat): Pfa {
    ActAll(ActAll(p, ReserveIt, 0, LOW_PAGES), LockIt, bitmapAddress / PAGE, size / PAGE + 1)
  }

  /** The allocator after `ReadEFIMemoryMap`. */
  function Boot(mMap: seq<Descriptor>, stray: bool): Pfa {
    var all := ActAll(Initial(mMap, stray), ReserveIt, 0, TotalPages(mMap) + 1);
    LockBoot(UnreserveMap(all, mMap), LargestSegment(mMap).0, BitmapSize(mMap))
  }

  /** Some conventional segment contains the frame. */
  predicate Conventional(mMap: seq<Descriptor>, f: nat) {
    exists k :: 0 <= k < |mMap| && mMap[k].kind == 7
                && mMap[k].physAddr / 4096 <= f < mMap[k].physAddr / 4096 + mMap[k].numPages
  }

  /** The frames the bitmap itself is locked in. */
  predicate HoldsBitmap(mMap: seq<Descriptor>, f: nat) {
    var first := LargestSegment(mMap).0 / PAGE;
    first <= f < first + BitmapSize(mMap) / PAGE + 1
  }

  /** The frame of byte b of a segment. */
  function FrameOfByte(start: nat, b: nat): nat {
    (start + b) / 4096
  }

  /** These are exactly the frames of the bitmap's bytes and of the byte after it, which the bound tests let through; the
      firmware's segments begin on a page. */
  lemma BitmapFrames(mMap: seq<Descriptor>, f: nat)
    requires LargestSegment(mMap).0 % 4096 == 0
    ensures HoldsBitmap(mMap, f) <==>
            exists b: nat :: b <= TotalPages(mMap) / 8 + 1 && FrameOfByte(LargestSegment(mMap).0, b) == f
  {
    var start, size := LargestSegment(mMap).0, BitmapSize(mMap);
    var first := start / PAGE;
    forall b: nat
      ensures FrameOfByte(start, b) == first + b / PAGE
    {
      assert start + b == PAGE * first + b;
    }
    if HoldsBitmap(mMap, f) {
      var b: nat := (f - first) * PAGE;
      assert b <= size && FrameOfByte(start, b) == f;
    }
  }

  lemma {:induction false} UnreserveMapBits(p: Pfa, mMap: seq<Descriptor>)
    requires p.Valid()
    ensures var q := UnreserveMap(p, mMap);
            && q.Valid() && |q.bits| == |p.bits| && q.hint <= p.hint && Conserves(p, q)
            && forall f :: 0 <= f < |p.bits| ==> (q.bits[f] <==> p.bits[f] && !Conventional(mMap, f))
  {
    if mMap != [] {
      var init, d := mMap[..|mMap| - 1], mMap[|mMap| - 1];
      UnreserveMapBits(p, init);
      var q := UnreserveMap(p, init);
      ActAllBits(q, UnreserveIt, d.physAddr / PAGE, d.numPages);
      ActAllConserves(q, UnreserveIt, d.physAddr / PAGE, d.numPages);
      ConservesTransitive(p, q, ActAll(q, UnreserveIt, d.physAddr / PAGE, d.numPages));
      forall f | 0 <= f < |p.bits|
        ensures Conventional(mMap, f) <==>
                Conventional(init, f) ||
                (d.kind == CONVENTIONAL && d.physAddr / PAGE <= f < d.physAddr / PAGE + d.numPages)
      {
        if Conventional(init, f) {
          var k :| 0 <= k < |init| && init[k].kind == CONVENTIONAL
                   && init[k].physAddr / PAGE <= f < init[k].physAddr / PAGE + init[k].numPages;
          assert mMap[k] == init[k];
        }
      }
    }
  }

  lemma {:induction false} ClearAll(n: nat, stray: bool)
    ensures Clear(seq(n, _ => false) + [stray]) == n + if stray then 0 else 1
  {
    var bits := seq(n, _ => false);
    assert (bits + [stray])[..n] == bits;
    if n > 0 {
      ClearAll(n - 1, false);
      assert bits == seq(n - 1, _ => false) + [false];
    }
  }

  lemma {:induction false} BootConserves(mMap: seq<Descriptor>, stray: bool)
    ensures Conserves(Initial(mMap, stray), Boot(mMap, stray))
  {
    var n, p0 := TotalPages(mMap), Initial(mMap, stray);
    ActAllBits(p0, ReserveIt, 0, n + 1);
    ActAllConserves(p0, ReserveIt, 0, n + 1);
    var p1 := ActAll(p0, ReserveIt, 0, n + 1);
    UnreserveMapBits(p1, mMap);
    var p2 := UnreserveMap(p1, mMap);
    ActAllConserves(p2, ReserveIt, 0, LOW_PAGES);
    var p3 := ActAll(p2, ReserveIt, 0, LOW_PAGES);
    ActAllConserves(p3, LockIt, LargestSegment(mMap).0 / PAGE, BitmapSize(mMap) / PAGE + 1);
    ConservesTransitive(p0, p1, p2);
    ConservesTransitive(p0, p2, p3);
    ConservesTransitive(p0, p3, Boot(mMap, stray));
  }

  /** After boot a frame of the bitmap is clear exactly if it is above the first megabyte, does not hold the bitmap, and
      is conventional or lies beyond the counted memory. */
  lemma {:induction false} BootExact(mMap: seq<Descriptor>, stray: bool)
    ensures var p, n := Boot(mMap, stray), TotalPages(mMap);
            && p.Valid() && p.hint == 0 && |p.bits| == 8 * (n / 8 + 1) + 1
            && forall f :: 0 <= f < |p.bits| - 1 ==>
                 (!p.bits[f] <==>
                  0x10_0000 <= f * 4096 && !HoldsBitmap(mMap, f) && (n < f || Conventional(mMap, f)))
  {
    hide ActAll, UnreserveMap, Conventional, Clear, Conserves;
    var p0 := Initial(mMap, stray);
    ActAllBits(p0, ReserveIt, 0, TotalPages(mMap) + 1);
    var p1 := ActAll(p0, ReserveIt, 0, TotalPages(mMap) + 1);
    UnreserveMapBits(p1, mMap);
    var p2 := UnreserveMap(p1, mMap);
    ActAllBits(p2, ReserveIt, 0, LOW_PAGES);
    var p3 := ActAll(p2, ReserveIt, 0, LOW_PAGES);
    ActAllBits(p3, LockIt, LargestSegment(mMap).0 / PAGE, BitmapSize(mMap) / PAGE + 1);
  }

  lemma BootRun(mMap: seq<Descriptor>, stray: bool, ops: seq<Op>)
    ensures var p0, p := Initial(mMap, stray), Run(Boot(mMap, stray), ops);
            && Conserves(p0, p) && p.Valid()
            && Clear(p0.bits) == 8 * BitmapSize(mMap) + if stray then 0 else 1
  {
    hide Conserves, Boot;
    BootConserves(mMap, stray);
    RunConserves(Boot(mMap, stray), ops);
    ConservesTransitive(Initial(mMap, stray), Boot(mMap, stray), Run(Boot(mMap, stray), ops));
    BootExact(mMap, stray);
    RunValid(Boot(mMap, stray), ops);
    ClearAll(8 * BitmapSize(mMap), stray);
  }

  /** After boot, and after any run of operations from there, the counters add up to the total memory, and the free one
      is 4096 bytes for each clear bit, less the 8 * Size - N bits that stand for no memory; all in 64-bit words. */
  lemma CountersFromBoot(mMap: seq<Descriptor>, stray: bool, ops: seq<Op>)
    ensures var p, n, bits := Run(Boot(mMap, stray), ops), TotalPages(mMap), 8 * BitmapSize(mMap);
            && (p.free + p.used + p.reserved) % WORD == (n * PAGE) % WORD
            && p.free == (PAGE * (Clear(p.bits) - (bits - n) - if stray then 0 else 1)) % WORD
  {
    hide Boot, Run, Clear;
    var p0, n, p := Initial(mMap, stray), TotalPages(mMap), Run(Boot(mMap, stray), ops);
    BootRun(mMap, stray, ops);
    ModMod(n * PAGE);
    ModMod(p.free);
    var change := PAGE * (Clear(p.bits) - Clear(p0.bits));
    ModAdd(p0.free, n * PAGE, change);
    assert n * PAGE + change == PAGE * (Clear(p.bits) - (8 * BitmapSize(mMap) - n) - if stray then 0 else 1);
  }

  lemma ModMod(a: int)
    ensures (a % WORD) % WORD == a % WORD
    ensures 0 <= a < WORD ==> a % WORD == a
  {
  }

  /** For a map without holes above 1 MiB, boot leaves some frame that is no memory (numbered N or more) ready to be granted
      unless the number of pages is 7 modulo 8. */
  lemma PhantomFrames(mMap: seq<Descriptor>, stray: bool)
    requires LOW_PAGES <= TotalPages(mMap)
    requires forall f :: TotalPages(mMap) <= f ==> !Conventional(mMap, f) && !HoldsBitmap(mMap, f)
    ensures var p, n := Boot(mMap, stray), TotalPages(mMap);
            (exists f :: n <= f < p.Limit() && !p.Get(f)) <==> n % 8 != 7
  {
    BootExact(mMap, stray);
    var p, n := Boot(mMap, stray), TotalPages(mMap);
    if n % 8 != 7 {
      assert !Conventional(mMap, n + 1);
      assert !p.Get(n + 1);
    }
  }

  /** At the end of boot only the frames that the bitmap took from the clear ones, `before`, are used; all the others that
      are not clear are reserved. */
  lemma BootUsed(mMap: seq<Descriptor>, stray: bool, before: seq<bool>)
    requires |before| == 8 * (TotalPages(mMap) / 8 + 1) + 1
    requires forall f :: 0 <= f < |before| ==>
               (!before[f] <==>
                0x10_0000 <= f * 4096 &&
                (Conventional(mMap, f) || (TotalPages(mMap) < f && !(stray && f == |before| - 1))))
    ensures var p := Boot(mMap, stray);
            && MovedBy(0, p.used, Clear(before) - Clear(p.bits))
            && MovedBy(0, p.reserved, |before| - (if stray then 1 else 0) - Clear(before))
  {
    var p0, p3 := Initial(mMap, stray), Reserved(mMap, stray);
    hide ActAll, UnreserveMap, Conventional, Clear, MovedBy, Reserved;
    ReservedBits(mMap, stray);
    ReservedCounts(mMap, stray);
    assert p3.bits == before;
    ActAllCounts(p3, LockIt, LargestSegment(mMap).0 / PAGE, BitmapSize(mMap) / PAGE + 1);
    BootIs(mMap, stray);
    ClearAll(8 * BitmapSize(mMap), stray);
  }

  /** Before the bitmap is locked. */
  function Reserved(mMap: seq<Descriptor>, stray: bool): Pfa {
    var all := ActAll(Initial(mMap, stray), ReserveIt, 0, TotalPages(mMap) + 1);
    ActAll(UnreserveMap(all, mMap), ReserveIt, 0, LOW_PAGES)
  }

  lemma BootIs(mMap: seq<Descriptor>, stray: bool)
    ensures Boot(mMap, stray) ==
            ActAll(Reserved(mMap, stray), LockIt, LargestSegment(mMap).0 / PAGE, BitmapSize(mMap) / PAGE + 1)
  {
  }

  lemma ReservedBits(mMap: seq<Descriptor>, stray: bool)
    ensures var p, n := Reserved(mMap, stray), TotalPages(mMap);
            && |p.bits| == 8 * (n / 8 + 1) + 1
            && forall f :: 0 <= f < |p.bits| ==>
                 (!p.bits[f] <==>
                  0x10_0000 <= f * 4096 && (Conventional(mMap, f) || (n < f && !(stray && f == |p.bits| - 1))))
  {
    hide ActAll, UnreserveMap, Conventional, Clear, Conserves;
    var p0 := Initial(mMap, stray);
    ActAllBits(p0, ReserveIt, 0, TotalPages(mMap) + 1);
    var p1 := ActAll(p0, ReserveIt, 0, TotalPages(mMap) + 1);
    UnreserveMapBits(p1, mMap);
    ActAllBits(UnreserveMap(p1, mMap), ReserveIt, 0, LOW_PAGES);
  }

  lemma ReservedCounts(mMap: seq<Descriptor>, stray: bool)
    ensures Counts(Initial(mMap, stray), Reserved(mMap, stray), true)
  {
    hide ActAll, UnreserveMap, Counts, Initial;
    var p0 := Initial(mMap, stray);
    ActAllCounts(p0, ReserveIt, 0, TotalPages(mMap) + 1);
    var p1 := ActAll(p0, ReserveIt, 0, TotalPages(mMap) + 1);
    UnreserveMapCounts(p1, mMap);
    var p2 := UnreserveMap(p1, mMap);
    ActAllCounts(p2, ReserveIt, 0, LOW_PAGES);
    CountsTransitive(p0, p1, p2, true);
    CountsTransitive(p0, p2, Reserved(mMap, stray), true);
  }

  lemma {:induction false} UnreserveMapCounts(p: Pfa, mMap: seq<Descriptor>)
    ensures Counts(p, UnreserveMap(p, mMap), true)
  {
    hide Counts, ActAll;
    if mMap == [] {
      CountsNone(p, true);
    } else {
      var q, d := UnreserveMap(p, mMap[..|mMap| - 1]), mMap[|mMap| - 1];
      UnreserveMapCounts(p, mMap[..|mMap| - 1]);
      if d.kind == CONVENTIONAL {
        ActAllCounts(q, UnreserveIt, d.physAddr / PAGE, d.numPages);
        CountsTransitive(p, q, UnreserveMap(p, mMap), true);
      }
    }
  }
}
