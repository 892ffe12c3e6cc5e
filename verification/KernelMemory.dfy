/** The kernel's memory with the heap on top of paging. */
module KernelMemory {
  import opened Common
  import opened PageEntries
  import opened FrameSpec
  import opened TableSpec
  import opened MapSpec
  import opened HeapPages
  import opened KernelPaging

  /** `InitialiseHeap` with `initial` pages from page `first` on, and any number of `ExpandHeap` calls. */
  function WithHeap(vm: Vm, first: nat, initial: nat, counts: seq<nat>): (Vm, nat) {
    ExpandMany(InitialPages(vm, first, initial), first + initial, counts)
  }

  /** Every page of the heap is granted and mapped to its frame, and no other page is mapped differently. */
  ghost predicate HeapBacked(vm: Vm, first: nat, initial: nat, counts: seq<nat>) {
    var pages := initial + Sum(counts);
    && InitialGranted(vm, first, initial) && WithHeap(vm, first, initial, counts).1 == first + pages
    && TranslatesTo(WithHeap(vm, first, initial, counts).0, vm, first, pages)
  }

  /** As long as pages are granted the heap's pages come from one loop. */
  lemma OneLoop(vm: Vm, first: nat, initial: nat, counts: seq<nat>)
    ensures InitialGranted(vm, first, initial) ==>
              WithHeap(vm, first, initial, counts) == ExpandPages(vm, first, initial + Sum(counts))
    ensures ExpandPages(vm, first, initial + Sum(counts)).1 == first + initial + Sum(counts) ==>
              InitialGranted(vm, first, initial)
  {
    hide ExpandPages, InitialPages, InitialGranted, ExpandMany, Sum;
    InitialIs(vm, first, initial);
    ExpandJoin(vm, first, initial, Sum(counts));
    ManyIs(InitialPages(vm, first, initial), first + initial, counts);
    var made := ExpandPages(vm, first, initial);
    ExpandAtMost(vm, first, initial);
    ExpandAtMost(made.0, made.1, Sum(counts));
  }

  lemma HeapBackedIs(vm: Vm, first: nat, initial: nat, counts: seq<nat>)
    ensures HeapBacked(vm, first, initial, counts) <==> Backs(vm, first, initial + Sum(counts))
  {
    hide ExpandPages, InitialGranted, WithHeap, TranslatesTo, Backs, Sum;
    OneLoop(vm, first, initial, counts);
    BacksIs(vm, first, initial + Sum(counts));
  }

  /** After `InitialisePaging`, a heap made and then grown any number of times has all its pages backed, and memory and
      framebuffer as before, exactly if the frames left last: one for each page and each new table but the last page's, and
      for all but one of those. */
  lemma KernelIff(vm: Vm, total: nat, base: nat, n: nat, count: nat, first: nat, initial: nat, counts: seq<nat>)
    requires PagingServed(vm, total, base, n, count) && vm.root != 0 && vm.ram.Keys == {vm.root}
    requires first + initial + Sum(counts) <= PAGES
    ensures var paged := Paged(vm, total, base, n, count);
            && paged.pfa.Valid()
            && (HeapBacked(paged, first, initial, counts) <==> CanBackAll(paged, first, initial + Sum(counts)))
  {
    hide *;
    var paged, owner := Paged(vm, total, base, n, count), PagedOwner(vm, total, base, n, count);
    FirstPage();
    PagingExact(vm, total, base, n, count, 0);
    PagingTables(vm, total, base, n, count);
    OrderlyIs(paged, owner);
    HeapBackedIs(paged, first, initial, counts);
    BacksIff(paged, owner, first, initial + Sum(counts));
  }

  /** And then the heap's pages translate to distinct locked frames that hold no page table, the memory and the framebuffer
      still translate to themselves, and so does the frame of a table, which later calls write through its address, exactly
      if it is memory or framebuffer: so do all of them if the allocator had nothing else to grant. */
  lemma Kernel(vm: Vm, total: nat, base: nat, n: nat, count: nat, first: nat, initial: nat, counts: seq<nat>)
      returns (owner: map<nat, Node>, frames: seq<nat>)
    requires PagingServed(vm, total, base, n, count) && vm.root != 0 && vm.ram.Keys == {vm.root}
    requires total <= first && base / PAGE + n <= first && first + initial + Sum(counts) <= PAGES
    requires Paged(vm, total, base, n, count).pfa.Valid()
    requires CanBackAll(Paged(vm, total, base, n, count), first, initial + Sum(counts))
    ensures var grown := WithHeap(Paged(vm, total, base, n, count), first, initial, counts);
            && |frames| == initial + Sum(counts) && grown.1 == first + |frames|
            && Backed(grown.0, owner, first, frames)
            && (forall page :: 0 <= page < total || base / PAGE <= page < base / PAGE + n ==>
                  Translate(grown.0, page) == To(page, true))
            && (forall f :: f in owner && f < PAGES ==>
                  (Translate(grown.0, f) == To(f, true) <==> f < total || base / PAGE <= f < base / PAGE + n))
            && (vm.root < total && NoneBeyond(vm.pfa, total) ==>
                  forall f :: f in owner ==> Translate(grown.0, f) == To(f, true))
  {
    hide *;
    var paged, owner0 := Paged(vm, total, base, n, count), PagedOwner(vm, total, base, n, count);
    var pages := initial + Sum(counts);
    FirstPage();
    PagingTables(vm, total, base, n, count);
    PageRange(vm, total, base, n, count);
    BacksIff(paged, owner0, first, pages);
    BacksIs(paged, first, pages);
    OneLoop(paged, first, initial, counts);
    owner, frames := BacksBacked(paged, owner0, first, pages);
    var grown := ExpandPages(paged, first, pages).0;
    forall page | 0 <= page < total || base / PAGE <= page < base / PAGE + n
      ensures Translate(grown, page) == To(page, true)
    {
      PagingExact(vm, total, base, n, count, page);
      TranslatesAt(grown, paged, first, pages, page);
      BelowHeap(paged, first, pages, page);
    }
    forall f | f in owner && f < PAGES
      ensures Translate(grown, f) == To(f, true) <==> f < total || base / PAGE <= f < base / PAGE + n
    {
      PagingExact(vm, total, base, n, count, f);
      TranslatesAt(grown, paged, first, pages, f);
      OutsideHeap(paged, grown, owner, first, frames, f);
    }
    if vm.root < total && NoneBeyond(vm.pfa, total) {
      FreshTransitive(vm.pfa, RootOnly(vm), paged.pfa, owner0, grown.pfa, owner);
      forall f | f in owner
        ensures f < total
      {
        FreshBelow(vm, grown.pfa, owner, total, f);
      }
    }
  }

  /** A table in a heap page is not what that page translates to. */
  lemma OutsideHeap(vm: Vm, grown: Vm, owner: map<nat, Node>, first: nat, frames: seq<nat>, f: nat)
    requires Backed(grown, owner, first, frames) && f in owner && f < PAGES
    requires Translate(grown, f) == GrownTo(vm, first, |frames|, f)
    ensures if first <= f < first + |frames| then Translate(grown, f) != To(f, true)
            else Translate(grown, f) == Translate(vm, f)
  {
    hide Tree, Translate;
  }

  lemma FreshBelow(vm: Vm, p: Pfa, owner: map<nat, Node>, total: nat, f: nat)
    requires FreshTables(vm.pfa, RootOnly(vm), p, owner) && NoneBeyond(vm.pfa, total) && vm.root < total && f in owner
    ensures f < total
  {
  }

  lemma BelowHeap(vm: Vm, first: nat, n: nat, page: nat)
    requires page < first
    ensures GrownTo(vm, first, n, page) == Translate(vm, page)
  {
  }

  // ---------- and apart from all that was taken before ----------

  /** Frames are only taken. */
  predicate TakesOnly(p: Pfa, q: Pfa) {
    q.Valid() && |q.bits| == |p.bits| && forall f :: 0 <= f < |p.bits| && p.bits[f] ==> q.bits[f]
  }

  lemma RequestTakes(p: Pfa)
    requires p.Valid()
    ensures TakesOnly(p, Request(p).0)
  {
    RequestIs(p);
  }

  lemma DescendTakes(vm: Vm, table: nat, i: nat)
    requires vm.pfa.Valid() && i < SLOTS
    ensures TakesOnly(vm.pfa, Descend(vm, table, i).0.pfa)
  {
    RequestTakes(vm.pfa);
    hide Request, Put;
  }

  lemma {:induction false} WalkTakes(vm: Vm, table: nat, d: nat, page: nat)
    requires vm.pfa.Valid()
    ensures TakesOnly(vm.pfa, Walk(vm, table, d, page).0.pfa)
    decreases 3 - d
  {
    hide Descend, Slot;
    if d < 3 {
      var down := Descend(vm, table, Slot(page, d));
      DescendTakes(vm, table, Slot(page, d));
      WalkTakes(down.0, down.1, d + 1, page);
    }
  }

  lemma MapTakes(vm: Vm, page: nat, frame: nat)
    requires vm.pfa.Valid()
    ensures TakesOnly(vm.pfa, MapPage(vm, page, frame).pfa)
  {
    hide Walk, Put, TakesOnly;
    WalkTakes(vm, vm.root, 0, page);
  }

  lemma {:induction false} RunTakes(vm: Vm, calls: seq<Call>)
    requires vm.pfa.Valid()
    ensures TakesOnly(vm.pfa, RunMap(vm, calls).pfa)
  {
    hide MapPage;
    if calls != [] {
      var init, c := calls[..|calls| - 1], calls[|calls| - 1];
      RunTakes(vm, init);
      MapTakes(RunMap(vm, init), PageOf(c.virtualMemory), FrameOfCall(c));
    }
  }

  lemma GrowTakes(vm: Vm, page: nat)
    requires vm.pfa.Valid()
    ensures TakesOnly(vm.pfa, GrowPage(vm, page).pfa) && TakesOnly(vm.pfa, Requested(vm).pfa)
  {
    hide MapPage, Request;
    RequestTakes(vm.pfa);
    MapTakes(Requested(vm), page, NewFrame(vm));
  }

  lemma {:induction false} ExpandTakes(vm: Vm, first: nat, n: nat)
    requires vm.pfa.Valid()
    ensures TakesOnly(vm.pfa, ExpandPages(vm, first, n).0.pfa)
  {
    hide GrowPage, Requested, Request;
    if n > 0 {
      var before := ExpandPages(vm, first, n - 1);
      ExpandTakes(vm, first, n - 1);
      GrowTakes(before.0, before.1);
    }
  }

  /** A page that was granted has a frame that was clear. */
  lemma {:induction false} GrantedWasClear(vm: Vm, first: nat, n: nat, k: nat)
    requires vm.pfa.Valid() && k < n && ExpandPages(vm, first, n).1 == first + n
    ensures HeapFrame(vm, first, k) < |vm.pfa.bits| && !vm.pfa.Get(HeapFrame(vm, first, k))
  {
    hide GrowPage, Requested, Request;
    ExpandAtMost(vm, first, n - 1);
    if k < n - 1 {
      GrantedWasClear(vm, first, n - 1, k);
    } else {
      var before := ExpandPages(vm, first, k).0;
      ExpandTakes(vm, first, k);
      RequestIs(before.pfa);
    }
  }

  /** The framebuffer's frames are taken, as is all that was taken before. */
  lemma PagedTakes(vm: Vm, total: nat, base: nat, n: nat, count: nat, f: nat)
    requires vm.pfa.Valid()
    requires vm.pfa.Get(f) || (base / 4096 <= f < base / 4096 + count && f < |vm.pfa.bits|)
    ensures Paged(vm, total, base, n, count).pfa.Valid() && Paged(vm, total, base, n, count).pfa.Get(f)
  {
    var mapped := RunMap(vm, Identity(total));
    var locked := Locked(mapped, base, count);
    RunTakes(vm, Identity(total));
    ActAllBits(mapped.pfa, LockIt, base / PAGE, count);
    hide RunMap, Same, Identity, ActAll;
    RunTakes(locked, Same(base, n));
  }

  /** No heap page translates to a frame that was taken before paging: the first megabyte, the bitmap, the kernel's image,
      the PML4, or, as far as the bitmap reaches, the framebuffer. */
  lemma HeapApart(vm: Vm, total: nat, base: nat, n: nat, count: nat, first: nat, initial: nat, counts: seq<nat>,
                  k: nat, f: nat)
    requires PagingServed(vm, total, base, n, count) && vm.root != 0 && vm.ram.Keys == {vm.root}
    requires first + initial + Sum(counts) <= PAGES && k < initial + Sum(counts)
    requires Paged(vm, total, base, n, count).pfa.Valid()
    requires CanBackAll(Paged(vm, total, base, n, count), first, initial + Sum(counts))
    requires vm.pfa.Get(f) || (base / 4096 <= f < base / 4096 + count && f < |vm.pfa.bits|)
    ensures var grown := WithHeap(Paged(vm, total, base, n, count), first, initial, counts).0;
            Translate(grown, first + k).To? && Translate(grown, first + k).frame != f
  {
    hide *;
    var paged, pages := Paged(vm, total, base, n, count), initial + Sum(counts);
    FirstPage();
    ServedValid(vm, total, base, n, count);
    PagedTakes(vm, total, base, n, count, f);
    KernelIff(vm, total, base, n, count, first, initial, counts);
    HeapBackedIs(paged, first, initial, counts);
    BacksIs(paged, first, pages);
    OneLoop(paged, first, initial, counts);
    GrantedWasClear(paged, first, pages, k);
    var grown := ExpandPages(paged, first, pages).0;
    TranslatesAt(grown, paged, first, pages, first + k);
    InHeap(paged, first, pages, k);
  }

  lemma ServedValid(vm: Vm, total: nat, base: nat, n: nat, count: nat)
    requires PagingServed(vm, total, base, n, count)
    ensures vm.pfa.Valid()
  {
  }

  lemma InHeap(vm: Vm, first: nat, n: nat, k: nat)
    requires k < n
    ensures GrownTo(vm, first, n, first + k) == To(HeapFrame(vm, first, k), true)
  {
  }
}
