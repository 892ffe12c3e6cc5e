/** `InitialisePaging` of src/kernel.cpp: from the firmware's memory map to the tables of memory and framebuffer, and
    exactly when the frames last for them. */
module KernelPaging {
  import opened Common
  import opened PageEntries
  import opened FrameSpec
  import opened FrameBoot
  import opened TableSpec
  import opened MapSpec
  import opened MapExact
  import opened HeapPages

  // ---------- from the memory map to an empty PML4 ----------

  /** The allocator after boot and the locking of the kernel's own pages (src/kernel.cpp:171-177). */
  function KernelLocked(mMap: seq<Descriptor>, stray: bool, kernel: nat, count: nat): Pfa {
    ActAll(Boot(mMap, stray), LockIt, kernel, count)
  }

  /** The PML4 in a requested and zeroed page (src/kernel.cpp:179-186). */
  function NewPml4(p: Pfa): Vm {
    var r := Request(p);
    Vm(r.0, r.1 / PAGE, map[r.1 / PAGE := ZeroTable()])
  }

  /** A frame that is left for the PML4. */
  predicate LeftOver(mMap: seq<Descriptor>, kernel: nat, count: nat, f: nat) {
    && 0x100 <= f < 8 * (TotalPages(mMap) / 8 + 1) && !HoldsBitmap(mMap, f) && !(kernel <= f < kernel + count)
    && (TotalPages(mMap) < f || Conventional(mMap, f))
  }

  /** An empty table over an allocator in order; the PML4 has a frame of its own exactly if one is left, and then it is
      the lowest of these. */
  lemma BootEmpty(mMap: seq<Descriptor>, stray: bool, kernel: nat, count: nat)
    requires 8 * BitmapSize(mMap) < FRAMES
    ensures var p := KernelLocked(mMap, stray, kernel, count);
            var vm := NewPml4(p);
            && Empty(vm)
            && (vm.root != 0 <==> exists f :: LeftOver(mMap, kernel, count, f))
            && (vm.root != 0 ==> LeftOver(mMap, kernel, count, vm.root)
                                 && forall f: nat :: f < vm.root ==> !LeftOver(mMap, kernel, count, f))
  {
    var boot, p := Boot(mMap, stray), KernelLocked(mMap, stray, kernel, count);
    BootExact(mMap, stray);
    ActAllBits(boot, LockIt, kernel, count);
    assert forall f :: 0 <= f < 8 * BitmapSize(mMap) ==> (!p.bits[f] <==> LeftOver(mMap, kernel, count, f));
    hide Boot, ActAll, BitmapSize, LeftOver;
    RequestIsLowest(p);
    StepBits(p, RequestOp);
    hide NextClear;
    var f := Request(p).1 / PAGE;
    assert p.Get(0);
    if forall i :: 0 <= i < p.Limit() ==> p.bits[i] {
      assert f == 0;
    } else {
      assert !p.bits[f] && f != 0 && LeftOver(mMap, kernel, count, f);
    }
  }

  /** No frame from `total` on can be granted. */
  predicate NoneBeyond(p: Pfa, total: nat) {
    forall f :: total <= f < p.Limit() ==> p.Get(f)
  }

  /** For a map without holes above 1 MiB whose number of pages is 7 modulo 8, all of them are memory. */
  lemma BootBelow(mMap: seq<Descriptor>, stray: bool, kernel: nat, count: nat)
    requires 8 * BitmapSize(mMap) < FRAMES && LOW_PAGES <= TotalPages(mMap) && TotalPages(mMap) % 8 == 7
    requires forall f :: TotalPages(mMap) <= f ==> !Conventional(mMap, f) && !HoldsBitmap(mMap, f)
    ensures var vm := NewPml4(KernelLocked(mMap, stray, kernel, count));
            vm.root < TotalPages(mMap) && NoneBeyond(vm.pfa, TotalPages(mMap))
  {
    var boot, p, n := Boot(mMap, stray), KernelLocked(mMap, stray, kernel, count), TotalPages(mMap);
    BootExact(mMap, stray);
    PhantomFrames(mMap, stray);
    BootEmpty(mMap, stray, kernel, count);
    ActAllBits(boot, LockIt, kernel, count);
    RequestIs(p);
    hide Boot, ActAll, Request, Conventional, HoldsBitmap, BitmapSize, TotalPages, NextClear;
    assert forall f :: n <= f < boot.Limit() ==> boot.Get(f);
  }

  lemma FirstPage()
    ensures 0 < PAGES && 0 < PAGE
  {
  }

  // ---------- `InitialisePaging` after that ----------

  /** Calls that map the addresses base, base + 4096, .. to themselves. */
  function Same(base: nat, n: nat): (calls: seq<Call>)
    ensures |calls| == n
  {
    if n == 0 then [] else Same(base, n - 1) + [Call(base + (n - 1) * PAGE, base + (n - 1) * PAGE)]
  }

  lemma {:induction false} FoldedSame(before: Translation, base: nat, n: nat, page: nat)
    requires base / PAGE + n <= PAGES
    ensures Folded(before, Same(base, n), page) ==
            if base / PAGE <= page < base / PAGE + n then To(page, true) else before
  {
    if n > 0 {
      var last := Call(base + (n - 1) * PAGE, base + (n - 1) * PAGE);
      AddressPlus(base, n - 1);
      assert FrameOfCall(last) == base / PAGE + n - 1;
      hide Folded, FrameOfCall, PageOf;
      FoldedLast(before, Same(base, n - 1), last, page);
      FoldedSame(before, base, n - 1, page);
    } else {
      FoldedNone(before, page);
    }
  }

  lemma AddressPlus(base: nat, k: nat)
    requires base / PAGE + k < PAGES
    ensures (base + k * PAGE) / PAGE == base / PAGE + k && PageOf(base + k * PAGE) == base / PAGE + k
  {
  }

  /** Memory mapped to itself, the framebuffer's frames locked, and the framebuffer mapped to itself (lines 188-202). */
  function Locked(vm: Vm, base: nat, count: nat): Vm {
    Vm(ActAll(vm.pfa, LockIt, base / PAGE, count), vm.root, vm.ram)
  }

  function Paged(vm: Vm, total: nat, base: nat, n: nat, count: nat): Vm {
    RunMap(Locked(RunMap(vm, Identity(total)), base, count), Same(base, n))
  }

  lemma LockedTree(vm: Vm, owner: map<nat, Node>, base: nat, count: nat, page: nat)
    requires Tree(vm, owner) && vm.pfa.Get(0)
    ensures Tree(Locked(vm, base, count), owner) && Locked(vm, base, count).pfa.Get(0)
    ensures Translate(Locked(vm, base, count), page) == Translate(vm, page)
  {
    ActAllBits(vm.pfa, LockIt, base / PAGE, count);
    RequestKeepsMap(vm, Locked(vm, base, count).pfa, page);
  }

  lemma LockedReached(vm: Vm, owner: map<nat, Node>, base: nat, count: nat)
    requires Reached(vm, owner)
    ensures Reached(Locked(vm, base, count), owner)
  {
    var vm1 := Locked(vm, base, count);
    forall f | f in owner
      ensures Reaches(vm1, f)
    {
      var k, q := ReachedAt(vm, owner, f);
      RequestKeepsTables(vm, vm1.pfa, k, q);
      ReachesAt(vm1, k, q);
    }
  }

  // ---------- the tables of the framebuffer ----------

  lemma SameIs(base: nat, n: nat)
    requires base / PAGE + n < PAGES
    ensures var last := Call(base + n * PAGE, base + n * PAGE);
            && Same(base, n + 1) == Same(base, n) + [last]
            && PageOf(last.virtualMemory) == base / PAGE + n && FrameOfCall(last) == base / PAGE + n
  {
    AddressPlus(base, n);
  }

  lemma SameLast(vm: Vm, base: nat, n: nat)
    requires base / PAGE + n < PAGES
    ensures var page, before := base / PAGE + n, RunMap(vm, Same(base, n));
            && RunMap(vm, Same(base, n + 1)) == MapPage(before, page, page)
            && Needs(vm, Same(base, n + 1)) == Needs(vm, Same(base, n)) + Missing(before, page)
  {
    hide *;
    FirstPage();
    var last := Call(base + n * PAGE, base + n * PAGE);
    SameIs(base, n);
    RunLast(vm, Same(base, n), last);
    CallIs(RunMap(vm, Same(base, n)), last);
  }

  /** A table is there after the pages before `page` if it was before, or if the last of these pages has it too. */
  predicate SameAt(vm: Vm, base: nat, n: nat, page: nat, d: nat)
    requires 1 <= d <= 3
  {
    TableOf(RunMap(vm, Same(base, n)), d, page).Some? <==>
    TableOf(vm, d, page).Some? || (n > 0 && base / PAGE + n > 0 && Prefix(base / PAGE + n - 1, d) == Prefix(page, d))
  }

  predicate SameUpTo(vm: Vm, base: nat, n: nat, page: nat) {
    SameAt(vm, base, n, page, 1) && SameAt(vm, base, n, page, 2) && SameAt(vm, base, n, page, 3)
  }

  lemma SameNext(vm: Vm, base: nat, n: nat)
    requires base / PAGE + n < PAGES
    requires Needs(vm, Same(base, n)) == NewTables(vm, base / PAGE, n) && SameUpTo(vm, base, n, base / PAGE + n)
    ensures Needs(vm, Same(base, n + 1)) == NewTables(vm, base / PAGE, n + 1)
  {
    SameLast(vm, base, n);
    NewTablesIs(vm, base / PAGE, n + 1);
    hide RunMap, Needs, Same, TableOf, Prefix, NewTables;
  }

  lemma {:induction false} SameTables(vm: Vm, owner: map<nat, Node>, base: nat, n: nat, page: nat)
    requires Tree(vm, owner) && vm.pfa.Get(0) && base / PAGE + n <= page < PAGES
    requires NewTables(vm, base / PAGE, n) <= Supply(vm.pfa) + Spare(owner)
    ensures Needs(vm, Same(base, n)) == NewTables(vm, base / PAGE, n)
    ensures SameUpTo(vm, base, n, page)
  {
    hide *;
    FirstPage();
    TreeValid(vm, owner);
    if n == 0 {
      SameNone(vm, base, page);
    } else {
      var k, last := n - 1, base / PAGE + n - 1;
      NewTablesIs(vm, base / PAGE, n);
      SameTables(vm, owner, base, k, page);
      SameTables(vm, owner, base, k, last);
      SameNext(vm, base, k);
      SameReady(vm, owner, base, k);
      SameMore(vm, RunOwner(vm, owner, Same(base, k)), base, k, page);
    }
  }

  lemma SameNone(vm: Vm, base: nat, page: nat)
    ensures Needs(vm, Same(base, 0)) == NewTables(vm, base / PAGE, 0)
    ensures SameUpTo(vm, base, 0, page)
  {
  }

  lemma SameReady(vm: Vm, owner: map<nat, Node>, base: nat, n: nat)
    requires Tree(vm, owner) && vm.pfa.Get(0) && base / PAGE + n < PAGES
    requires Needs(vm, Same(base, n + 1)) <= Supply(vm.pfa) + Spare(owner)
    ensures Ready(RunMap(vm, Same(base, n)), RunOwner(vm, owner, Same(base, n)), base / PAGE + n)
  {
    hide *;
    FirstPage();
    AddressPlus(base, n);
    SameLast(vm, base, n);
    RunReady(vm, owner, Same(base, n), Call(base + n * PAGE, base + n * PAGE));
  }

  lemma SameMore(vm: Vm, owner1: map<nat, Node>, base: nat, n: nat, page: nat)
    requires base / PAGE + n < page < PAGES && SameUpTo(vm, base, n, page)
    requires Ready(RunMap(vm, Same(base, n)), owner1, base / PAGE + n)
    ensures SameUpTo(vm, base, n + 1, page)
  {
    hide SameAt, Ready, Same, RunMap;
    SameMoreAt(vm, owner1, base, n, page, 1);
    SameMoreAt(vm, owner1, base, n, page, 2);
    SameMoreAt(vm, owner1, base, n, page, 3);
  }

  lemma SameMoreAt(vm: Vm, owner1: map<nat, Node>, base: nat, n: nat, page: nat, d: nat)
    requires base / PAGE + n < page < PAGES && 1 <= d <= 3 && SameAt(vm, base, n, page, d)
    requires Ready(RunMap(vm, Same(base, n)), owner1, base / PAGE + n)
    ensures SameAt(vm, base, n + 1, page, d)
  {
    hide *;
    FirstPage();
    var before, last := RunMap(vm, Same(base, n)), base / PAGE + n;
    SameAtIs(vm, base, n, page, d);
    SameAtIs(vm, base, n + 1, page, d);
    SameLast(vm, base, n);
    MapCreates(before, owner1, last, last, d, page);
    if n > 0 && Prefix(last - 1, d) == Prefix(page, d) {
      PrefixBetween(last - 1, last, page, d);
    }
  }

  lemma SameAtIs(vm: Vm, base: nat, n: nat, page: nat, d: nat)
    requires 1 <= d <= 3
    ensures SameAt(vm, base, n, page, d) <==>
            (TableOf(RunMap(vm, Same(base, n)), d, page).Some? <==>
             TableOf(vm, d, page).Some? || (n > 0 && base / PAGE + n > 0 && Prefix(base / PAGE + n - 1, d) == Prefix(page, d)))
  {
    hide TableOf, RunMap, Same, Prefix;
  }

  /** The frames last for the run exactly if they last for the tables that its pages need anew. */
  lemma {:induction false} SameNeeds(vm: Vm, owner: map<nat, Node>, base: nat, n: nat)
    requires Tree(vm, owner) && vm.pfa.Get(0) && base / PAGE + n <= PAGES
    ensures Needs(vm, Same(base, n)) <= Supply(vm.pfa) + Spare(owner) <==>
            NewTables(vm, base / PAGE, n) <= Supply(vm.pfa) + Spare(owner)
  {
    hide *;
    TreeValid(vm, owner);
    FirstPage();
    if n == 0 {
      SameNone(vm, base, 0);
    } else {
      SameNeeds(vm, owner, base, n - 1);
      SameLast(vm, base, n - 1);
      NewTablesIs(vm, base / PAGE, n);
      if NewTables(vm, base / PAGE, n - 1) <= Supply(vm.pfa) + Spare(owner) {
        SameTables(vm, owner, base, n - 1, base / PAGE + n - 1);
        SameNext(vm, base, n - 1);
      }
    }
  }

  /** Page first + k is the first from `first` on of its table of depth d, which no page below `total` has. */
  function BeyondTable(total: nat, first: nat, k: nat, d: nat): nat
    requires d <= 3
  {
    if total <= Prefix(first + k, d) * Span(d) && (k == 0 || Prefix(first + k, d) != Prefix(first + k - 1, d)) then 1 else 0
  }

  /** Tables of n pages from `first` on that the pages below `total` do not have. */
  function BeyondTables(total: nat, first: nat, n: nat): nat {
    if n == 0 then 0
    else
      BeyondTables(total, first, n - 1)
      + BeyondTable(total, first, n - 1, 1) + BeyondTable(total, first, n - 1, 2) + BeyondTable(total, first, n - 1, 3)
  }

  lemma {:induction false} BeyondIs(vm: Vm, total: nat, base: nat, count: nat, first: nat, n: nat)
    requires Room(vm, total) && first + n <= PAGES
    ensures NewTables(Locked(RunMap(vm, Identity(total)), base, count), first, n) == BeyondTables(total, first, n)
  {
    var mapped := RunMap(vm, Identity(total));
    var locked := Locked(mapped, base, count);
    hide RunMap, Locked, Room, NewTable, BeyondTable;
    if n > 0 {
      BeyondIs(vm, total, base, count, first, n - 1);
      BeyondOne(vm, total, base, count, first, n - 1, 1);
      BeyondOne(vm, total, base, count, first, n - 1, 2);
      BeyondOne(vm, total, base, count, first, n - 1, 3);
    }
  }

  lemma BeyondOne(vm: Vm, total: nat, base: nat, count: nat, first: nat, k: nat, d: nat)
    requires Room(vm, total) && first + k < PAGES && 1 <= d <= 3
    ensures NewTable(Locked(RunMap(vm, Identity(total)), base, count), first, k, d) == BeyondTable(total, first, k, d)
  {
    hide *;
    var mapped := RunMap(vm, Identity(total));
    LockedTables(mapped, base, count, d, first + k);
    IdentityTables(vm, total, first + k);
    UpToAt(mapped, total, first + k, d);
    NewTableIs(Locked(mapped, base, count), first, k, d);
    BeyondTableIs(total, first, k, d);
  }

  lemma LockedTables(vm: Vm, base: nat, count: nat, d: nat, page: nat)
    requires d <= 3
    ensures TableOf(Locked(vm, base, count), d, page) == TableOf(vm, d, page)
  {
    RequestKeepsTables(vm, Locked(vm, base, count).pfa, d, page);
    hide ActAll, TableOf;
  }

  lemma UpToAt(vm: Vm, n: nat, page: nat, d: nat)
    requires TablesUpTo(vm, n, page) && 1 <= d <= 3
    ensures TableOf(vm, d, page).Some? <==> Prefix(page, d) * Span(d) < n
  {
  }

  lemma NewTableIs(vm: Vm, first: nat, k: nat, d: nat)
    requires d <= 3
    ensures NewTable(vm, first, k, d) ==
            if TableOf(vm, d, first + k).None? && (k == 0 || Prefix(first + k, d) != Prefix(first + k - 1, d)) then 1 else 0
  {
    hide TableOf, Prefix;
  }

  lemma BeyondTableIs(total: nat, first: nat, k: nat, d: nat)
    requires d <= 3
    ensures BeyondTable(total, first, k, d) ==
            if total <= Prefix(first + k, d) * Span(d) && (k == 0 || Prefix(first + k, d) != Prefix(first + k - 1, d))
            then 1 else 0
  {
    hide Prefix, Span;
  }

  // ---------- exactly when paging goes well ----------

  /** Tables of the pages below `total`. */
  function MemoryTables(total: nat): nat {
    Ceil(total, 0x200) + Ceil(total, 0x4_0000) + Ceil(total, 0x800_0000)
  }

  /** The allocator once these are made and the framebuffer's frames are locked. */
  function LeftForScreen(p: Pfa, total: nat, base: nat, count: nat): Pfa {
    ActAll(Requests(p, MemoryTables(total)), LockIt, base / PAGE, count)
  }

  /** The frames last for the tables of the memory and then of the framebuffer, the last one in frame 0 if need be. */
  predicate PagingServed(vm: Vm, total: nat, base: nat, n: nat, count: nat) {
    && Empty(vm) && total <= PAGES && base / PAGE + n <= PAGES
    && MemoryTables(total) <= Supply(vm.pfa) + Spare(RootOnly(vm))
    && var left := LeftForScreen(vm.pfa, total, base, count);
    && left.Valid()
    && BeyondTables(total, base / PAGE, n) <=
       Supply(left) + if MemoryTables(total) <= Supply(vm.pfa) then Spare(RootOnly(vm)) else 0
  }

  function MemoryOwner(vm: Vm, total: nat): map<nat, Node> {
    RunOwner(vm, RootOnly(vm), Identity(total))
  }

  function PagedOwner(vm: Vm, total: nat, base: nat, n: nat, count: nat): map<nat, Node> {
    RunOwner(Locked(RunMap(vm, Identity(total)), base, count), MemoryOwner(vm, total), Same(base, n))
  }

  /** With no frame left, none is after some are locked. */
  lemma LockEmpty(p: Pfa, first: nat, count: nat)
    requires p.Valid() && Supply(p) == 0
    ensures var q := ActAll(p, LockIt, first, count); q.Valid() && Supply(q) == 0
  {
    ActAllBits(p, LockIt, first, count);
    var q := ActAll(p, LockIt, first, count);
    NoClear(p.bits[p.hint..p.Limit()]);
    NoClear(q.bits[q.hint..q.Limit()]);
    forall j | 0 <= j < q.Limit() - q.hint
      ensures q.bits[q.hint..q.Limit()][j]
    {
      assert p.bits[p.hint..p.Limit()][j];
    }
  }

  lemma {:induction false} NoClear(bits: seq<bool>)
    ensures Clear(bits) == 0 <==> forall j :: 0 <= j < |bits| ==> bits[j]
  {
    if bits != [] {
      var init := bits[..|bits| - 1];
      NoClear(init);
      assert forall j :: 0 <= j < |init| ==> init[j] == bits[j];
    }
  }

  /** The memory's run, if the frames last for it. */
  lemma MemoryMapped(vm: Vm, total: nat, base: nat, count: nat)
    requires Empty(vm) && total <= PAGES && MemoryTables(total) <= Supply(vm.pfa) + Spare(RootOnly(vm))
    ensures var locked, owner := Locked(RunMap(vm, Identity(total)), base, count), MemoryOwner(vm, total);
            && Tree(locked, owner) && locked.pfa.Valid() && locked.pfa.Get(0)
            && locked.pfa == LeftForScreen(vm.pfa, total, base, count)
            && Spare(owner) == (if MemoryTables(total) <= Supply(vm.pfa) then Spare(RootOnly(vm)) else 0)
            && (vm.root != 0 && 0 in owner ==> Supply(locked.pfa) == 0)
            && FreshTables(vm.pfa, RootOnly(vm), locked.pfa, owner)
            && Room(vm, total)
            && (Reached(vm, RootOnly(vm)) ==> Reached(locked, owner))
  {
    hide *;
    var mapped, owner, t := RunMap(vm, Identity(total)), MemoryOwner(vm, total), MemoryTables(total);
    FirstPage();
    EmptyTree(vm, 0);
    TreeValid(vm, RootOnly(vm));
    SpareIs(RootOnly(vm));
    SpareIs(owner);
    MemoryNeeds(vm, total);
    MemoryOwnerIs(vm, total);
    RunRefines(vm, RootOnly(vm), Identity(total), 0);
    RunRequests(vm, RootOnly(vm), Identity(total));
    TakesLeft(vm, RootOnly(vm), mapped, owner, t);
    TakesFresh(vm, RootOnly(vm), mapped, owner);
    LockedTree(mapped, owner, base, count, 0);
    LockedIs(vm, total, base, count);
    LockedFresh(vm, total, base, count);
    if vm.root != 0 && 0 in owner {
      RootApart(vm);
      NullTaken(vm, RootOnly(vm), mapped, owner, t);
      LockEmpty(mapped.pfa, base / PAGE, count);
    }
    if Reached(vm, RootOnly(vm)) {
      RunReached(vm, RootOnly(vm), Identity(total));
      LockedReached(mapped, owner, base, count);
    }
  }

  lemma RootApart(vm: Vm)
    requires vm.root != 0
    ensures 0 !in RootOnly(vm)
  {
  }

  lemma MemoryNeeds(vm: Vm, total: nat)
    requires Empty(vm) && total <= PAGES && MemoryTables(total) <= Supply(vm.pfa) + Spare(RootOnly(vm))
    ensures vm.pfa.Get(0) && Room(vm, total) && Needs(vm, Identity(total)) == MemoryTables(total)
  {
    TablesForIs(total);
    hide Ceil, TablesFor, Identity, Needs, RunMap;
    IdentityTables(vm, total, 0);
  }

  lemma MemoryOwnerIs(vm: Vm, total: nat)
    ensures MemoryOwner(vm, total) == RunOwner(vm, RootOnly(vm), Identity(total))
  {
    hide RunOwner, Identity;
  }

  lemma LockedIs(vm: Vm, total: nat, base: nat, count: nat)
    requires RunMap(vm, Identity(total)).pfa == Requests(vm.pfa, MemoryTables(total))
    ensures var mapped := RunMap(vm, Identity(total));
            && Locked(mapped, base, count).pfa == ActAll(mapped.pfa, LockIt, base / PAGE, count)
            && Locked(mapped, base, count).pfa == LeftForScreen(vm.pfa, total, base, count)
  {
    hide RunMap, Identity, ActAll, Requests, MemoryTables;
  }

  lemma LockedFresh(vm: Vm, total: nat, base: nat, count: nat)
    requires var mapped, owner := RunMap(vm, Identity(total)), MemoryOwner(vm, total);
             mapped.pfa.Valid() && FreshTables(vm.pfa, RootOnly(vm), mapped.pfa, owner)
    ensures var locked, owner := Locked(RunMap(vm, Identity(total)), base, count), MemoryOwner(vm, total);
            locked.pfa.Valid() && FreshTables(vm.pfa, RootOnly(vm), locked.pfa, owner)
  {
    var mapped, owner := RunMap(vm, Identity(total)), MemoryOwner(vm, total);
    ActAllBits(mapped.pfa, LockIt, base / PAGE, count);
    FreshNone(mapped.pfa, Locked(mapped, base, count).pfa, owner);
    hide *;
    FreshTransitive(vm.pfa, RootOnly(vm), mapped.pfa, owner, Locked(mapped, base, count).pfa, owner);
  }

  /** And then the framebuffer's. */
  lemma PagingReady(vm: Vm, total: nat, base: nat, n: nat, count: nat)
    requires Empty(vm) && total <= PAGES && base / PAGE + n <= PAGES
    requires MemoryTables(total) <= Supply(vm.pfa) + Spare(RootOnly(vm))
    ensures var locked, owner := Locked(RunMap(vm, Identity(total)), base, count), MemoryOwner(vm, total);
            && Tree(locked, owner) && locked.pfa.Valid() && locked.pfa.Get(0)
            && (PagingServed(vm, total, base, n, count) <==>
                Needs(locked, Same(base, n)) <= Supply(locked.pfa) + Spare(owner))
  {
    var locked, owner := Locked(RunMap(vm, Identity(total)), base, count), MemoryOwner(vm, total);
    MemoryMapped(vm, total, base, count);
    PagingServedIs(vm, total, base, n, count);
    hide *;
    FirstPage();
    SameNeeds(locked, owner, base, n);
    BeyondIs(vm, total, base, count, base / PAGE, n);
  }

  lemma PagingServedIs(vm: Vm, total: nat, base: nat, n: nat, count: nat)
    ensures PagingServed(vm, total, base, n, count) <==>
            && Empty(vm) && total <= PAGES && base / PAGE + n <= PAGES
            && MemoryTables(total) <= Supply(vm.pfa) + Spare(RootOnly(vm))
            && var left := LeftForScreen(vm.pfa, total, base, count);
            && left.Valid()
            && BeyondTables(total, base / PAGE, n) <=
               Supply(left) + if MemoryTables(total) <= Supply(vm.pfa) then Spare(RootOnly(vm)) else 0
  {
    hide BeyondTables, LeftForScreen, MemoryTables;
  }

  /** After `InitialisePaging` exactly the pages of the memory and of the framebuffer translate, each to itself. */
  lemma PagingExact(vm: Vm, total: nat, base: nat, n: nat, count: nat, page: nat)
    requires PagingServed(vm, total, base, n, count) && page < PAGES
    ensures var vm1 := Paged(vm, total, base, n, count);
            && Tree(vm1, PagedOwner(vm, total, base, n, count)) && vm1.pfa.Get(0)
            && Translate(vm1, page) ==
               if page < total || base / PAGE <= page < base / PAGE + n then To(page, true) else Fault
  {
    hide *;
    FirstPage();
    PagedIs(vm, total, base, n, count);
    PagingServedIs(vm, total, base, n, count);
    PagingReady(vm, total, base, n, count);
    var locked, owner := Locked(RunMap(vm, Identity(total)), base, count), MemoryOwner(vm, total);
    MemoryTo(vm, total, base, count, page);
    RunRefines(locked, owner, Same(base, n), page);
    FoldedSame(Translate(locked, page), base, n, page);
  }

  lemma PagedIs(vm: Vm, total: nat, base: nat, n: nat, count: nat)
    ensures Paged(vm, total, base, n, count) == RunMap(Locked(RunMap(vm, Identity(total)), base, count), Same(base, n))
    ensures PagedOwner(vm, total, base, n, count) ==
            RunOwner(Locked(RunMap(vm, Identity(total)), base, count), MemoryOwner(vm, total), Same(base, n))
  {
    hide RunMap, RunOwner, Locked, MemoryOwner, Same, Identity;
  }

  lemma MemoryTo(vm: Vm, total: nat, base: nat, count: nat, page: nat)
    requires Empty(vm) && total <= PAGES && MemoryTables(total) <= Supply(vm.pfa) + Spare(RootOnly(vm)) && page < PAGES
    ensures Translate(Locked(RunMap(vm, Identity(total)), base, count), page) ==
            if page < total then To(page, true) else Fault
  {
    TablesForIs(total);
    EmptyTree(vm, page);
    hide Ceil, RunMap, Identity, Translate, Tree;
    IdentityTables(vm, total, page);
    RunRefines(vm, RootOnly(vm), Identity(total), page);
    IdentityFolded(total, page);
    LockedTree(RunMap(vm, Identity(total)), MemoryOwner(vm, total), base, count, page);
  }

  /** In an empty PML4 that is alone in memory, both runs go well after every call exactly if the frames last. */
  lemma PagingIff(vm: Vm, total: nat, base: nat, n: nat, count: nat)
    requires Empty(vm) && vm.root != 0 && vm.ram.Keys == {vm.root} && total <= PAGES && base / PAGE + n <= PAGES
    ensures PagingServed(vm, total, base, n, count) <==>
            && AlwaysSound(vm, Identity(total))
            && AlwaysSound(Locked(RunMap(vm, Identity(total)), base, count), Same(base, n))
  {
    RootReached(vm);
    EmptySpare(vm);
    MemoryTablesIs(total);
    hide *;
    FirstPage();
    PagingServedIs(vm, total, base, n, count);
    IdentityIff(vm, total);
    if MemoryTables(total) <= Supply(vm.pfa) + Spare(RootOnly(vm)) {
      PagingReady(vm, total, base, n, count);
      MemoryMapped(vm, total, base, count);
      RunExact(Locked(RunMap(vm, Identity(total)), base, count), MemoryOwner(vm, total), Same(base, n));
    }
  }

  lemma MemoryTablesIs(total: nat)
    ensures MemoryTables(total) == Ceil(total, 0x200) + Ceil(total, 0x4_0000) + Ceil(total, 0x800_0000)
  {
  }

  /** Nothing but tables is read as a table, and each of them is reached; a table lies in frame 0 only when all frames are
      used up; and every table but the PML4 came from the allocator. */
  lemma PagingTables(vm: Vm, total: nat, base: nat, n: nat, count: nat)
    requires PagingServed(vm, total, base, n, count) && vm.root != 0 && vm.ram.Keys == {vm.root}
    ensures var paged, owner := Paged(vm, total, base, n, count), PagedOwner(vm, total, base, n, count);
            && Orderly(paged, owner) && Reached(paged, owner)
            && FreshTables(vm.pfa, RootOnly(vm), paged.pfa, owner)
  {
    var paged, owner1 := Paged(vm, total, base, n, count), PagedOwner(vm, total, base, n, count);
    var locked, owner := Locked(RunMap(vm, Identity(total)), base, count), MemoryOwner(vm, total);
    RootReached(vm);
    hide *;
    FirstPage();
    PagingServedIs(vm, total, base, n, count);
    PagedIs(vm, total, base, n, count);
    PagingReady(vm, total, base, n, count);
    MemoryMapped(vm, total, base, count);
    RunReached(locked, owner, Same(base, n));
    RunRefines(locked, owner, Same(base, n), 0);
    TakesFresh(locked, owner, paged, owner1);
    FreshTransitive(vm.pfa, RootOnly(vm), locked.pfa, owner, paged.pfa, owner1);
    NullTaken(locked, owner, paged, owner1, Needs(locked, Same(base, n)));
    ReachedIs(paged, owner1);
    OrderlyIs(paged, owner1);
  }

  lemma NullTaken(vm: Vm, owner: map<nat, Node>, vm1: Vm, owner1: map<nat, Node>, tables: nat)
    requires Takes(vm, owner, vm1, owner1, tables) && (0 in owner ==> Supply(vm.pfa) == 0)
    ensures vm1.pfa.Valid() && (0 in owner1 ==> Supply(vm1.pfa) == 0)
  {
    hide Supply;
  }

  lemma PageRange(vm: Vm, total: nat, base: nat, n: nat, count: nat)
    requires PagingServed(vm, total, base, n, count)
    ensures total <= PAGES && 0 <= base / PAGE && base / PAGE + n <= PAGES
  {
  }
}
