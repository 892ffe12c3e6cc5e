/** The page frame allocator object: bitmap, search hint and byte counters, changed in place. */
module PageFrames {
  import opened Common
  import opened Bitmaps
  import opened FrameSpec
  import opened FrameBoot

  // Page loops count with a 32-bit int and multiply it by 4096
  const LOOP_PAGES := 0x8_0000

  class PageFrameAllocator {
    const PageBitmap: Bitmap
    var pageBitmapIndex: nat
    var FreeMemory: int
    var UsedMemory: int
    var ReservedMemory: int
    var TotalMemory: int
    var Initialised: bool

    /** The abstract allocator this object stands for. */
    ghost var state: Pfa

    ghost predicate Valid()
      reads this, PageBitmap, PageBitmap.Buffer
    {
      && PageBitmap.Valid()
      && state == Pfa(PageBitmap.Reach(), pageBitmapIndex, FreeMemory, UsedMemory, ReservedMemory)
      && state.Valid()
    }

    constructor ()
      ensures Valid() && !Initialised && fresh(PageBitmap) && fresh(PageBitmap.Buffer)
    {
      var buffer := new bv8[1];
      PageBitmap := new Bitmap(0, buffer);
      pageBitmapIndex, FreeMemory, UsedMemory, ReservedMemory, TotalMemory := 0, 0, 0, 0, 0;
      Initialised := false;
      new;
      state := Pfa(PageBitmap.Reach(), 0, 0, 0, 0);
    }

    method LockPage(address: nat)
      requires Valid()
      modifies this, PageBitmap.Buffer
      ensures Valid() && state == Lock(old(state), address / PAGE)
      ensures Initialised == old(Initialised) && TotalMemory == old(TotalMemory)
    {
      var index := address / PAGE;
      ghost var p := state;
      if PageBitmap.Get(index) {
        return;
      }
      var ok := PageBitmap.Set(index, true);
      if ok {
        FreeMemory := MinusPage(FreeMemory);
        UsedMemory := PlusPage(UsedMemory);
      }
      state := Lock(p, index);
    }

    method ReservePage(address: nat)
      requires Valid()
      modifies this, PageBitmap.Buffer
      ensures Valid() && state == Reserve(old(state), address / PAGE)
      ensures Initialised == old(Initialised) && TotalMemory == old(TotalMemory)
    {
      var index := address / PAGE;
      ghost var p := state;
      if PageBitmap.Get(index) {
        return;
      }
      var ok := PageBitmap.Set(index, true);
      if ok {
        FreeMemory := MinusPage(FreeMemory);
        ReservedMemory := PlusPage(ReservedMemory);
      }
      state := Reserve(p, index);
    }

    method FreePage(address: nat)
      requires Valid()
      modifies this, PageBitmap.Buffer
      ensures Valid() && state == Free(old(state), address / PAGE)
      ensures Initialised == old(Initialised) && TotalMemory == old(TotalMemory)
    {
      var index := address / PAGE;
      ghost var p := state;
      if !PageBitmap.Get(index) {
        return;
      }
      var ok := PageBitmap.Set(index, false);
      if ok {
        FreeMemory := PlusPage(FreeMemory);
        UsedMemory := MinusPage(UsedMemory);
        if pageBitmapIndex > index {
          pageBitmapIndex := index;
        }
      }
      state := Free(p, index);
    }

    method UnreservePage(address: nat)
      requires Valid()
      modifies this, PageBitmap.Buffer
      ensures Valid() && state == Unreserve(old(state), address / PAGE)
      ensures Initialised == old(Initialised) && TotalMemory == old(TotalMemory)
    {
      var index := address / PAGE;
      ghost var p := state;
      if !PageBitmap.Get(index) {
        return;
      }
      var ok := PageBitmap.Set(index, false);
      if ok {
        FreeMemory := PlusPage(FreeMemory);
        ReservedMemory := MinusPage(ReservedMemory);
        if pageBitmapIndex > index {
          pageBitmapIndex := index;
        }
      }
      state := Unreserve(p, index);
    }

    method LockPages(address: nat, pageCount: nat)
      requires Valid() && pageCount <= LOOP_PAGES
      modifies this, PageBitmap.Buffer
      ensures Valid() && state == ActAll(old(state), LockIt, address / PAGE, pageCount)
      ensures Initialised == old(Initialised) && TotalMemory == old(TotalMemory)
    {
      for t := 0 to pageCount
        invariant Valid() && state == ActAll(old(state), LockIt, address / PAGE, t)
        invariant Initialised == old(Initialised) && TotalMemory == old(TotalMemory)
      {
        assert (address + t * PAGE) / PAGE == address / PAGE + t;
        LockPage(address + t * PAGE);
      }
    }

    method ReservePages(address: nat, pageCount: nat)
      requires Valid() && pageCount <= LOOP_PAGES
      modifies this, PageBitmap.Buffer
      ensures Valid() && state == ActAll(old(state), ReserveIt, address / PAGE, pageCount)
      ensures Initialised == old(Initialised) && TotalMemory == old(TotalMemory)
    {
      for t := 0 to pageCount
        invariant Valid() && state == ActAll(old(state), ReserveIt, address / PAGE, t)
        invariant Initialised == old(Initialised) && TotalMemory == old(TotalMemory)
      {
        assert (address + t * PAGE) / PAGE == address / PAGE + t;
        ReservePage(address + t * PAGE);
      }
    }

    method FreePages(address: nat, pageCount: nat)
      requires Valid() && pageCount <= LOOP_PAGES
      modifies this, PageBitmap.Buffer
      ensures Valid() && state == ActAll(old(state), FreeIt, address / PAGE, pageCount)
      ensures Initialised == old(Initialised) && TotalMemory == old(TotalMemory)
    {
      for t := 0 to pageCount
        invariant Valid() && state == ActAll(old(state), FreeIt, address / PAGE, t)
        invariant Initialised == old(Initialised) && TotalMemory == old(TotalMemory)
      {
        assert (address + t * PAGE) / PAGE == address / PAGE + t;
        FreePage(address + t * PAGE);
      }
    }

    method UnreservePages(address: nat, pageCount: nat)
      requires Valid() && pageCount <= LOOP_PAGES
      modifies this, PageBitmap.Buffer
      ensures Valid() && state == ActAll(old(state), UnreserveIt, address / PAGE, pageCount)
      ensures Initialised == old(Initialised) && TotalMemory == old(TotalMemory)
    {
      for t := 0 to pageCount
        invariant Valid() && state == ActAll(old(state), UnreserveIt, address / PAGE, t)
        invariant Initialised == old(Initialised) && TotalMemory == old(TotalMemory)
      {
        assert (address + t * PAGE) / PAGE == address / PAGE + t;
        UnreservePage(address + t * PAGE);
      }
    }

    method RequestPage() returns (address: nat)
      requires Valid()
      modifies this, PageBitmap.Buffer
      ensures Valid() && (state, address) == Request(old(state))
      ensures Initialised == old(Initialised) && TotalMemory == old(TotalMemory)
    {
      ghost var p := state;
      while pageBitmapIndex < PageBitmap.Size * 8
        invariant Valid() && state == p.(hint := pageBitmapIndex)
        invariant NextClear(p, pageBitmapIndex) == NextClear(p, p.hint)
        invariant Initialised == old(Initialised) && TotalMemory == old(TotalMemory)
      {
        if PageBitmap.Get(pageBitmapIndex) {
          pageBitmapIndex := pageBitmapIndex + 1;
          state := p.(hint := pageBitmapIndex);
          continue;
        }
        LockPage(pageBitmapIndex * PAGE);
        return pageBitmapIndex * PAGE;
      }
      return 0;
    }

    /** The inner loop of `RequestPages` (lines 128-131). */
    method FindsRun(count: nat) returns (Found: bool)
      requires Valid()
      ensures Found <==> RunClear(state, pageBitmapIndex, count)
    {
      Found := true;
      for i := 0 to count
        invariant Found <==> RunClear(state, pageBitmapIndex, i)
      {
        if PageBitmap.Get(pageBitmapIndex + i) {
          Found := false;
        }
      }
    }

    method RequestPages(count: nat) returns (address: nat)
      requires Valid() && count <= LOOP_PAGES
      modifies this, PageBitmap.Buffer
      ensures Valid() && (state, address) == RequestMany(old(state), count)
      ensures Initialised == old(Initialised) && TotalMemory == old(TotalMemory)
    {
      hide ActAll;
      ghost var p := state;
      var BackupIndex := pageBitmapIndex;
      while pageBitmapIndex < PageBitmap.Size * 8
        invariant Valid() && state == p.(hint := pageBitmapIndex)
        invariant NextRun(p, pageBitmapIndex, count) == NextRun(p, p.hint, count)
        invariant Initialised == old(Initialised) && TotalMemory == old(TotalMemory)
      {
        var Found := FindsRun(count);
        if Found {
          ActAllBits(state, LockIt, pageBitmapIndex, count);
          LockPages(pageBitmapIndex * PAGE, count);
          return pageBitmapIndex * PAGE;
        }
        pageBitmapIndex := pageBitmapIndex + 1;
        state := p.(hint := pageBitmapIndex);
      }
      pageBitmapIndex := BackupIndex;
      state := p;
      return 0;
    }

    /** `segment` is the memory the bitmap is laid over. */
    method InitBitmap(bitMapSize: nat, segment: array<bv8>)
      requires bitMapSize < segment.Length
      modifies PageBitmap, segment
      ensures PageBitmap.Valid() && PageBitmap.Size == bitMapSize && PageBitmap.Buffer == segment
      ensures forall b :: 0 <= b < bitMapSize ==> segment[b] == 0
      ensures segment[bitMapSize..] == old(segment[bitMapSize..])
    {
      PageBitmap.Size := bitMapSize;
      PageBitmap.Buffer := segment;
      for b := 0 to bitMapSize
        invariant PageBitmap.Size == bitMapSize && PageBitmap.Buffer == segment
        invariant forall k :: 0 <= k < b ==> segment[k] == 0
        invariant segment[bitMapSize..] == old(segment[bitMapSize..])
      {
        segment[b] := 0;
      }
    }

    /** The first loop of `ReadEFIMemoryMap` (lines 43-54). */
    static method FindLargestSegment(mMap: seq<Descriptor>) returns (address: nat, size: nat)
      ensures (address, size) == LargestSegment(mMap) && IsLargest(mMap, address, size)
    {
      LargestIsLargest(mMap);
      address, size := 0, 0;
      for e := 0 to |mMap|
        invariant (address, size) == LargestSegment(mMap[..e])
      {
        assert mMap[..e + 1][..e] == mMap[..e];
        if mMap[e].kind == CONVENTIONAL && mMap[e].numPages * PAGE > size {
          address, size := mMap[e].physAddr, mMap[e].numPages * PAGE;
        }
      }
      assert mMap[..|mMap|] == mMap;
    }

    static method GetMemorySize(mMap: seq<Descriptor>) returns (bytes: nat)
      ensures bytes == TotalPages(mMap) * PAGE
    {
      bytes := 0;
      for i := 0 to |mMap|
        invariant bytes == TotalPages(mMap[..i]) * PAGE
      {
        assert mMap[..i + 1][..i] == mMap[..i];
        bytes := bytes + mMap[i].numPages * PAGE;
      }
      assert mMap[..|mMap|] == mMap;
    }

    /** The second loop of `ReadEFIMemoryMap` (lines 72-79). */
    method UnreserveConventional(mMap: seq<Descriptor>)
      requires Valid()
      requires forall k :: 0 <= k < |mMap| ==> mMap[k].numPages <= LOOP_PAGES
      modifies this, PageBitmap.Buffer
      ensures Valid() && state == UnreserveMap(old(state), mMap)
      ensures Initialised == old(Initialised) && TotalMemory == old(TotalMemory)
    {
      for e := 0 to |mMap|
        invariant Valid() && state == UnreserveMap(old(state), mMap[..e])
        invariant Initialised == old(Initialised) && TotalMemory == old(TotalMemory)
      {
        assert mMap[..e + 1][..e] == mMap[..e];
        if mMap[e].kind == CONVENTIONAL {
          UnreservePages(mMap[e].physAddr, mMap[e].numPages);
        }
      }
      assert mMap[..|mMap|] == mMap;
    }

    /** The first half of `ReadEFIMemoryMap`: a zeroed bitmap over `segment` and all memory counted as free (lines 57-66). */
    method StartFree(mMap: seq<Descriptor>, segment: array<bv8>) returns (memorySize: nat)
      requires BitmapSize(mMap) < segment.Length
      requires UsedMemory == ReservedMemory == pageBitmapIndex == 0
      modifies this, PageBitmap, segment
      ensures memorySize == TotalPages(mMap) * PAGE
      ensures Valid() && state == Initial(mMap, BitOf(old(segment[BitmapSize(mMap)]), 0))
      ensures PageBitmap.Buffer == segment && PageBitmap.Size == BitmapSize(mMap)
      ensures TotalMemory == FreeMemory && Initialised == old(Initialised)
    {
      memorySize := GetMemorySize(mMap);
      TotalMemory := memorySize % WORD;
      FreeMemory := TotalMemory;
      InitBitmap(memorySize / PAGE / 8 + 1, segment);
      ZeroBits(segment[..], 8 * PageBitmap.Size);
      assert segment[BitmapSize(mMap)] == segment[BitmapSize(mMap)..][0] == old(segment[BitmapSize(mMap)..])[0];
      state := Initial(mMap, BitOf(old(segment[BitmapSize(mMap)]), 0));
    }

    /** The last two calls of `ReadEFIMemoryMap` (lines 81-85). */
    method LockBootPages(bitmapAddress: nat)
      requires Valid() && PageBitmap.Size < LOOP_PAGES
      modifies this, PageBitmap.Buffer
      ensures Valid() && state == LockBoot(old(state), bitmapAddress, PageBitmap.Size)
      ensures Initialised == old(Initialised) && TotalMemory == old(TotalMemory)
    {
      ReservePages(0, LOW_PAGES);
      LockPages(bitmapAddress, PageBitmap.Size / PAGE + 1);
    }

    /** Reads the firmware's memory map once. `segment` is the memory from the largest conventional segment on. */
    method ReadEFIMemoryMap(mMap: seq<Descriptor>, segment: array<bv8>)
      requires Valid()
      requires !Initialised ==> BitmapSize(mMap) < segment.Length && TotalPages(mMap) < LOOP_PAGES
      requires !Initialised ==> UsedMemory == ReservedMemory == pageBitmapIndex == 0
      requires !Initialised ==> forall k :: 0 <= k < |mMap| ==> mMap[k].numPages <= LOOP_PAGES
      modifies this, PageBitmap, segment
      ensures Valid() && Initialised
      ensures if old(Initialised) then state == old(state)
              else state == Boot(mMap, BitOf(old(segment[BitmapSize(mMap)]), 0)) && PageBitmap.Buffer == segment
    {
      if Initialised {
        return;
      }
      Initialised := true;
      var largest, size := FindLargestSegment(mMap);
      var memorySize := StartFree(mMap, segment);
      ghost var initial := state;
      assert memorySize / PAGE == TotalPages(mMap);
      ReservePages(0, memorySize / PAGE + 1);
      assert state == ActAll(initial, ReserveIt, 0, TotalPages(mMap) + 1);
      UnreserveConventional(mMap);
      LockBootPages(largest);
    }
  }

  lemma {:induction false} ZeroBits(bytes: seq<bv8>, n: nat)
    requires n <= 8 * |bytes| && forall b :: 0 <= b < |bytes| && 8 * b < n ==> bytes[b] == 0
    ensures BitsOf(bytes, n) == seq(n, _ => false)
  {
    if n > 0 {
      ZeroBits(bytes, n - 1);
      MaskSelects(0, (n - 1) % 8);
      assert bytes[(n - 1) / 8] == 0;
      assert seq(n - 1, _ => false) + [false] == seq(n, _ => false);
    }
  }
}
