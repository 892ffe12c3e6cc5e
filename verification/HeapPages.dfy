/** The pages under the heap: frames requested and mapped by `InitialiseHeap` and `ExpandHeap`. */
module HeapPages {
  import opened Common
  import opened PageEntries
  import opened FrameSpec
  import opened TableSpec
  import opened MapSpec
  import opened MapExact

  /** The state between the request of a page and its mapping. */
  function Requested(vm: Vm): Vm {
    Vm(Request(vm.pfa).0, vm.root, vm.ram)
  }

  function NewFrame(vm: Vm): nat {
    Request(vm.pfa).1 / PAGE
  }

  /** Request a page and map it. */
  function GrowPage(vm: Vm, page: nat): Vm {
    MapPage(Requested(vm), page, NewFrame(vm))
  }

  /** The loop of `ExpandHeap` from page `first` on: a page that is not granted is skipped, and the end of the heap, the
      second result, moves only for granted ones. */
  function ExpandPages(vm: Vm, first: nat, n: nat): (Vm, nat) {
    if n == 0 then (vm, first)
    else
      var before := ExpandPages(vm, first, n - 1);
      if Request(before.0.pfa).1 != 0 then (GrowPage(before.0, before.1), before.1 + 1)
      else (Requested(before.0), before.1)
  }

  /** The loop of `InitialiseHeap`: every page is mapped, granted or not. */
  function InitialPages(vm: Vm, first: nat, n: nat): Vm {
    if n == 0 then vm else GrowPage(InitialPages(vm, first, n - 1), first + n - 1)
  }

  /** The heap's page and the tables it needs can be granted. */
  predicate CanGrow(vm: Vm, page: nat) {
    vm.pfa.Valid() && vm.pfa.Get(0) && page < PAGES && 1 + Missing(vm, page) <= Supply(vm.pfa)
  }

  /** The page can be granted, and its tables too, the last of them in frame 0 if need be. */
  predicate CanBack(vm: Vm, owner: map<nat, Node>, page: nat) {
    && vm.pfa.Valid() && vm.pfa.Get(0) && page < PAGES
    && 0 < Supply(vm.pfa) && 1 + Missing(vm, page) <= Supply(vm.pfa) + Spare(owner)
  }

  /** Every request of the loop is granted. */
  predicate AllGranted(vm: Vm, first: nat, n: nat) {
    n == 0 || (AllGranted(vm, first, n - 1) && CanGrow(ExpandPages(vm, first, n - 1).0, first + n - 1))
  }

  // ---------- one page ----------

  /** Taking a frame from the allocator changes no table. */
  lemma {:induction false} RequestKeepsTables(vm: Vm, pfa: Pfa, d: nat, page: nat)
    requires d <= 3
    ensures TableOf(Vm(pfa, vm.root, vm.ram), d, page) == TableOf(vm, d, page)
    ensures WritableTo(Vm(pfa, vm.root, vm.ram), d, page) == WritableTo(vm, d, page)
  {
    if d > 0 {
      RequestKeepsTables(vm, pfa, d - 1, page);
    }
  }

  lemma RequestKeepsMap(vm: Vm, pfa: Pfa, page: nat)
    ensures Translate(Vm(pfa, vm.root, vm.ram), page) == Translate(vm, page)
  {
    hide TableOf, WritableTo, Slot;
    RequestKeepsTables(vm, pfa, 3, page);
  }

  lemma RequestKeeps(vm: Vm, owner: map<nat, Node>, page: nat, other: nat)
    requires Tree(vm, owner) && vm.pfa.Get(0) && page < PAGES && Supply(vm.pfa) > 0
    ensures var vm1, f := Requested(vm), NewFrame(vm);
            && Request(vm.pfa).1 != 0 && Tree(vm1, owner) && vm1.pfa.Get(0)
            && Supply(vm1.pfa) == Supply(vm.pfa) - 1 && Missing(vm1, page) == Missing(vm, page)
            && f < |vm.pfa.bits| && !vm.pfa.bits[f] && vm1.pfa.bits == vm.pfa.bits[f := true]
            && Translate(vm1, other) == Translate(vm, other)
            && (CanBack(vm, owner, page) ==> Ready(vm1, owner, page))
  {
    RequestSupply(vm.pfa);
    RequestFresh(vm.pfa);
    hide Request, TableOf, WritableTo, Translate, Supply;
    RequestKeepsTables(vm, Request(vm.pfa).0, 1, page);
    RequestKeepsTables(vm, Request(vm.pfa).0, 2, page);
    RequestKeepsTables(vm, Request(vm.pfa).0, 3, page);
    RequestKeepsMap(vm, Request(vm.pfa).0, other);
  }

  function GrowOwner(vm: Vm, owner: map<nat, Node>, page: nat): map<nat, Node> {
    MapOwner(Requested(vm), owner, page)
  }

  /** The page's new frame is locked and no table, and what was locked and no table before still is, but for frame 0. */
  ghost predicate FrameApart(vm: Vm, owner: map<nat, Node>, vm1: Vm, owner1: map<nat, Node>, f: nat) {
    && f != 0 && !vm.pfa.Get(f) && vm1.pfa.Get(f) && f !in owner1
    && forall g: nat :: g != 0 && vm.pfa.Get(g) && g !in owner ==> vm1.pfa.Get(g) && g !in owner1
  }

  /** One granted page: it is mapped to its new frame and all else is kept. */
  lemma PageGrown(vm: Vm, owner: map<nat, Node>, page: nat, other: nat)
    requires Tree(vm, owner) && CanBack(vm, owner, page) && other < PAGES
    ensures var vm1, owner1 := GrowPage(vm, page), GrowOwner(vm, owner, page);
            && Request(vm.pfa).1 != 0
            && Tree(vm1, owner1) && vm1.pfa.Get(0)
            && Translate(vm1, other) == (if other == page then To(NewFrame(vm), true) else Translate(vm, other))
            && FrameApart(vm, owner, vm1, owner1, NewFrame(vm))
            && (CanGrow(vm, page) ==> Supply(vm1.pfa) == Supply(vm.pfa) - 1 - Missing(vm, page)
                                      && (0 in owner1 <==> 0 in owner))
  {
    hide MapPage, MapOwner, Request, Missing, Supply, Translate;
    RequestKeeps(vm, owner, page, other);
    MapRefines(Requested(vm), owner, page, NewFrame(vm), other);
    TakesLeft(Requested(vm), owner, GrowPage(vm, page), GrowOwner(vm, owner, page), Missing(vm, page));
  }

  lemma PageOnly(vm: Vm, owner: map<nat, Node>, page: nat)
    requires Tree(vm, owner) && CanBack(vm, owner, page) && OnlyTables(vm, owner)
    ensures OnlyTables(GrowPage(vm, page), GrowOwner(vm, owner, page))
  {
    hide MapPage, MapOwner, Request, Missing, Supply, Translate;
    RequestKeeps(vm, owner, page, 0);
    MapOnly(Requested(vm), owner, page, NewFrame(vm));
  }

  /** Its new tables are fresh. */
  lemma PageFresh(vm: Vm, owner: map<nat, Node>, page: nat)
    requires Tree(vm, owner) && CanBack(vm, owner, page)
    ensures FreshTables(vm.pfa, owner, GrowPage(vm, page).pfa, GrowOwner(vm, owner, page))
  {
    hide MapPage, MapOwner, Request, Missing, Supply, Translate, FreshTables;
    RequestKeeps(vm, owner, page, page);
    FreshNone(vm.pfa, Requested(vm).pfa, owner);
    MapRefines(Requested(vm), owner, page, NewFrame(vm), page);
    TakesFresh(Requested(vm), owner, GrowPage(vm, page), GrowOwner(vm, owner, page));
    FreshTransitive(vm.pfa, owner, Requested(vm).pfa, owner, GrowPage(vm, page).pfa, GrowOwner(vm, owner, page));
  }

  lemma GrowBacks(vm: Vm, owner: map<nat, Node>, page: nat)
    requires CanGrow(vm, page)
    ensures CanBack(vm, owner, page)
  {
  }

  // ---------- all pages of the heap ----------

  /** The heap's frames are distinct, locked, and none of them a table. */
  predicate Apart(pfa: Pfa, owner: map<nat, Node>, frames: seq<nat>) {
    && (forall k :: 0 <= k < |frames| ==> frames[k] != 0 && pfa.Get(frames[k]) && frames[k] !in owner)
    && (forall j, k :: 0 <= j < k < |frames| ==> frames[j] != frames[k])
  }

  /** Page first + k of the heap translates to frame k. */
  predicate Mapped(vm: Vm, first: nat, frames: seq<nat>) {
    forall page :: first <= page < first + |frames| ==> Translate(vm, page) == To(frames[page - first], true)
  }

  predicate Backed(vm: Vm, owner: map<nat, Node>, first: nat, frames: seq<nat>) {
    Tree(vm, owner) && vm.pfa.Get(0) && Apart(vm.pfa, owner, frames) && Mapped(vm, first, frames)
  }

  /** Pages outside the range are translated as in the other state. */
  predicate SameOutside(vm: Vm, vm0: Vm, first: nat, count: nat) {
    forall page :: 0 <= page < PAGES && !(first <= page < first + count) ==> Translate(vm, page) == Translate(vm0, page)
  }

  lemma ApartAdd(vm: Vm, owner: map<nat, Node>, vm1: Vm, owner1: map<nat, Node>, frames: seq<nat>, f: nat)
    requires Apart(vm.pfa, owner, frames) && FrameApart(vm, owner, vm1, owner1, f)
    ensures Apart(vm1.pfa, owner1, frames + [f])
  {
  }

  /** Every page but the new one is translated as before. */
  ghost predicate OneMore(vm1: Vm, vm: Vm, page: nat, f: nat) {
    forall other :: 0 <= other < PAGES ==>
      Translate(vm1, other) == if other == page then To(f, true) else Translate(vm, other)
  }

  lemma MappedAdd(vm: Vm, vm1: Vm, first: nat, frames: seq<nat>, f: nat)
    requires Mapped(vm, first, frames) && first + |frames| < PAGES && OneMore(vm1, vm, first + |frames|, f)
    ensures Mapped(vm1, first, frames + [f]) && SameOutside(vm1, vm, first + |frames|, 1)
  {
    hide Translate;
  }

  lemma BackedIs(vm: Vm, owner: map<nat, Node>, first: nat, frames: seq<nat>)
    ensures Backed(vm, owner, first, frames) <==>
            Tree(vm, owner) && vm.pfa.Get(0) && Apart(vm.pfa, owner, frames) && Mapped(vm, first, frames)
  {
    hide Tree, Apart, Mapped;
  }

  lemma PageOneMore(vm: Vm, owner: map<nat, Node>, page: nat)
    requires Tree(vm, owner) && CanBack(vm, owner, page)
    ensures page < PAGES && OneMore(GrowPage(vm, page), vm, page, NewFrame(vm))
  {
    hide Tree, GrowPage, Translate, NewFrame, Supply, Missing;
    forall other | 0 <= other < PAGES
      ensures Translate(GrowPage(vm, page), other) == if other == page then To(NewFrame(vm), true) else Translate(vm, other)
    {
      PageGrown(vm, owner, page, other);
    }
  }

  /** One more page for the heap. */
  lemma AddPage(vm: Vm, owner: map<nat, Node>, first: nat, frames: seq<nat>)
    requires Backed(vm, owner, first, frames) && CanBack(vm, owner, first + |frames|)
    ensures var page := first + |frames|;
            && Backed(GrowPage(vm, page), GrowOwner(vm, owner, page), first, frames + [NewFrame(vm)])
            && SameOutside(GrowPage(vm, page), vm, page, 1)
  {
    hide *;
    var page, f := first + |frames|, NewFrame(vm);
    BackedIs(vm, owner, first, frames);
    PageOneMore(vm, owner, page);
    PageGrown(vm, owner, page, page);
    ApartAdd(vm, owner, GrowPage(vm, page), GrowOwner(vm, owner, page), frames, f);
    MappedAdd(vm, GrowPage(vm, page), first, frames, f);
    BackedIs(GrowPage(vm, page), GrowOwner(vm, owner, page), first, frames + [f]);
  }

  lemma AllGrantedLast(vm: Vm, first: nat, n: nat)
    requires n > 0 && AllGranted(vm, first, n) && ExpandPages(vm, first, n - 1).1 == first + n - 1
    ensures var before := ExpandPages(vm, first, n - 1).0;
            && AllGranted(vm, first, n - 1) && CanGrow(before, first + n - 1)
            && ExpandPages(vm, first, n) == (GrowPage(before, first + n - 1), first + n)
  {
    hide GrowPage, Requested, Request;
    var before := ExpandPages(vm, first, n - 1).0;
    assert CanGrow(before, first + n - 1);
    RequestSupply(before.pfa);
    hide CanGrow, Supply;
  }

  /** If everything is granted the heap gets all its pages: distinct locked frames, apart from the page tables, with every
      other page of the kernel translated as before. */
  lemma {:induction false} PagesBacked(vm: Vm, owner: map<nat, Node>, first: nat, frames: seq<nat>, n: nat)
      returns (owner1: map<nat, Node>, frames1: seq<nat>)
    requires Backed(vm, owner, first, frames) && AllGranted(vm, first + |frames|, n)
    ensures var grown := ExpandPages(vm, first + |frames|, n);
            && grown.1 == first + |frames| + n
            && |frames1| == |frames| + n && frames1[..|frames|] == frames
            && Backed(grown.0, owner1, first, frames1)
            && SameOutside(grown.0, vm, first + |frames|, n)
            && FreshTables(vm.pfa, owner, grown.0.pfa, owner1)
            && (0 in owner1 <==> 0 in owner)
            && (OnlyTables(vm, owner) ==> OnlyTables(grown.0, owner1))
  {
    hide *;
    var start := first + |frames|;
    NoPages(vm, start);
    NoneOutside(vm, start);
    FreshNone(vm.pfa, vm.pfa, owner);
    owner1, frames1 := owner, frames;
    if n > 0 {
      AllGrantedIs(vm, start, n);
      owner1, frames1 := PagesBacked(vm, owner, first, frames, n - 1);
      AllGrantedLast(vm, start, n);
      var before, page := ExpandPages(vm, start, n - 1).0, first + |frames1|;
      GrowBacks(before, owner1, page);
      AddPage(before, owner1, first, frames1);
      BackedTree(before, owner1, first, frames1);
      PageGrown(before, owner1, page, page);
      if OnlyTables(before, owner1) {
        PageOnly(before, owner1, page);
      }
      OutsideAdd(vm, before, GrowPage(before, page), start, n);
      PageFresh(before, owner1, page);
      FreshTransitive(vm.pfa, owner, before.pfa, owner1, GrowPage(before, page).pfa, GrowOwner(before, owner1, page));
      owner1, frames1 := GrowOwner(before, owner1, page), frames1 + [NewFrame(before)];
    }
  }

  lemma NoneOutside(vm: Vm, first: nat)
    ensures SameOutside(vm, vm, first, 0)
  {
  }

  lemma OutsideAdd(vm: Vm, before: Vm, vm1: Vm, first: nat, n: nat)
    requires n > 0 && SameOutside(before, vm, first, n - 1) && SameOutside(vm1, before, first + n - 1, 1)
    ensures SameOutside(vm1, vm, first, n)
  {
    hide Translate;
  }

  lemma BackedTree(vm: Vm, owner: map<nat, Node>, first: nat, frames: seq<nat>)
    requires Backed(vm, owner, first, frames)
    ensures Tree(vm, owner) && vm.pfa.Get(0) && vm.pfa.Valid()
  {
  }

  /** The state after n granted pages. */
  lemma AfterPages(vm: Vm, owner: map<nat, Node>, first: nat, n: nat) returns (owner1: map<nat, Node>)
    requires Tree(vm, owner) && vm.pfa.Get(0) && AllGranted(vm, first, n)
    ensures var grown := ExpandPages(vm, first, n);
            && grown.1 == first + n && Tree(grown.0, owner1) && grown.0.pfa.Valid() && grown.0.pfa.Get(0)
            && (0 in owner1 <==> 0 in owner)
            && (OnlyTables(vm, owner) ==> OnlyTables(grown.0, owner1))
  {
    hide *;
    NothingBacked(vm, owner, first);
    var frames;
    owner1, frames := PagesBacked(vm, owner, first, [], n);
    BackedTree(ExpandPages(vm, first, n).0, owner1, first, frames);
  }

  lemma CanGrowIf(vm: Vm, page: nat)
    requires vm.pfa.Valid() && vm.pfa.Get(0) && page < PAGES && 4 <= Supply(vm.pfa)
    ensures CanGrow(vm, page) && Missing(vm, page) <= 3
  {
  }

  /** Four frames for each page are always enough: the page and three tables. */
  lemma {:induction false} FourEach(vm: Vm, owner: map<nat, Node>, first: nat, n: nat)
    requires Tree(vm, owner) && vm.pfa.Get(0) && first + n <= PAGES && 4 * n <= Supply(vm.pfa)
    ensures AllGranted(vm, first, n)
    ensures var grown := ExpandPages(vm, first, n);
            grown.1 == first + n && grown.0.pfa.Valid() && Supply(vm.pfa) <= Supply(grown.0.pfa) + 4 * n
  {
    hide *;
    TreeValid(vm, owner);
    AllGrantedIs(vm, first, n);
    NoPages(vm, first);
    if n > 0 {
      FourEach(vm, owner, first, n - 1);
      var owner1 := AfterPages(vm, owner, first, n - 1);
      var before, page := ExpandPages(vm, first, n - 1).0, first + n - 1;
      CanGrowIf(before, page);
      AllGrantedLast(vm, first, n);
      GrowBacks(before, owner1, page);
      PageGrown(before, owner1, page, page);
      TreeValid(GrowPage(before, page), GrowOwner(before, owner1, page));
    }
  }

  // ---------- exactly when every page is granted ----------

  /** No frame is left, and so none ever will be. */
  predicate Empties(p: Pfa) {
    p.Valid() && p.Get(0) && Supply(p) == 0
  }

  lemma {:induction false} WalkEmpty(vm: Vm, table: nat, d: nat, page: nat)
    requires Empties(vm.pfa)
    ensures Empties(Walk(vm, table, d, page).0.pfa)
    decreases 3 - d
  {
    if d < 3 {
      RequestSupply(vm.pfa);
      var down := Descend(vm, table, Slot(page, d));
      WalkEmpty(down.0, down.1, d + 1, page);
    }
  }

  /** A call that finds no more frames than it needs uses up all of them. */
  lemma {:induction false} WalkDrains(vm: Vm, owner: map<nat, Node>, table: nat, d: nat, page: nat)
    requires Tree(vm, owner) && vm.pfa.Get(0) && page < PAGES && d <= 3 && TableOf(vm, d, page) == Some(table)
    requires Supply(vm.pfa) <= Missing(vm, page)
    ensures Empties(Walk(vm, table, d, page).0.pfa)
    decreases 3 - d
  {
    if Supply(vm.pfa) == 0 {
      WalkEmpty(vm, table, d, page);
    } else if d == 3 {
      NoneMissing(vm, page);
      assert false;
    } else {
      StepDrains(vm, owner, d, page);
      var down := Descend(vm, table, Slot(page, d));
      WalkDrains(down.0, Grown(vm, owner, d, page), down.1, d + 1, page);
    }
  }

  lemma StepDrains(vm: Vm, owner: map<nat, Node>, d: nat, page: nat)
    requires Tree(vm, owner) && vm.pfa.Get(0) && page < PAGES && d < 3 && TableOf(vm, d, page).Some?
    requires 0 < Supply(vm.pfa) <= Missing(vm, page)
    ensures var vm1 := Down(vm, d, page);
            && Tree(vm1, Grown(vm, owner, d, page)) && vm1.pfa.Get(0)
            && TableOf(vm1, d + 1, page) == Some(Descend(vm, TableOf(vm, d, page).value, Slot(page, d)).1)
            && Supply(vm1.pfa) <= Missing(vm1, page)
  {
    RequestSupply(vm.pfa);
    DownTree(vm, owner, d, page);
    DownMissing(vm, owner, d, page);
    if TableOf(vm, d + 1, page).None? {
      TableFrame(vm, owner);
    }
  }

  /** A page whose frame is granted but not all of its tables. */
  lemma ShortPage(vm: Vm, owner: map<nat, Node>, page: nat)
    requires Tree(vm, owner) && vm.pfa.Get(0) && page < PAGES && 0 < Supply(vm.pfa) && !CanGrow(vm, page)
    ensures Empties(GrowPage(vm, page).pfa)
  {
    RequestKeeps(vm, owner, page, 0);
    WalkDrains(Requested(vm), owner, vm.root, 0, page);
  }

  /** One page of the loop. */
  lemma ExpandLastPage(vm: Vm, first: nat, n: nat)
    requires n > 0
    ensures var before := ExpandPages(vm, first, n - 1);
            ExpandPages(vm, first, n) ==
            if Request(before.0.pfa).1 != 0 then (GrowPage(before.0, before.1), before.1 + 1)
            else (Requested(before.0), before.1)
  {
    hide GrowPage, Request, Requested;
  }

  /** A page that cannot be granted with all its tables uses up what is left. */
  lemma PageNotGranted(vm: Vm, owner: map<nat, Node>, page: nat)
    requires Tree(vm, owner) && vm.pfa.Get(0) && page < PAGES && !CanGrow(vm, page)
    ensures Empties(if Request(vm.pfa).1 != 0 then GrowPage(vm, page).pfa else Requested(vm).pfa)
  {
    RequestSupply(vm.pfa);
    if Supply(vm.pfa) > 0 {
      ShortPage(vm, owner, page);
    }
  }

  lemma EmptyRequest(vm: Vm)
    requires Empties(vm.pfa)
    ensures Request(vm.pfa).1 == 0 && Empties(Requested(vm).pfa)
  {
    RequestSupply(vm.pfa);
  }

  /** When something is not granted, everything is used up. */
  lemma {:induction false} NotAllGranted(vm: Vm, owner: map<nat, Node>, first: nat, n: nat)
    requires Tree(vm, owner) && vm.pfa.Get(0) && first + n <= PAGES && !AllGranted(vm, first, n)
    ensures Empties(ExpandPages(vm, first, n).0.pfa) && ExpandPages(vm, first, n).1 <= first + n
  {
    hide *;
    AllGrantedIs(vm, first, n);
    ExpandLastPage(vm, first, n);
    var before := ExpandPages(vm, first, n - 1);
    if AllGranted(vm, first, n - 1) {
      var owner1 := AfterPages(vm, owner, first, n - 1);
      PageNotGranted(before.0, owner1, first + n - 1);
    } else {
      NotAllGranted(vm, owner, first, n - 1);
      EmptyRequest(before.0);
    }
  }

  lemma AllGrantedIs(vm: Vm, first: nat, n: nat)
    ensures AllGranted(vm, first, n) <==>
            n == 0 || (AllGranted(vm, first, n - 1) && CanGrow(ExpandPages(vm, first, n - 1).0, first + n - 1))
  {
  }

  lemma EmptiesIs(p: Pfa)
    ensures Empties(p) <==> p.Valid() && p.Get(0) && Supply(p) == 0
  {
  }

  /** The heap grows by all its pages exactly if all requests before the last page's own are granted, and that one is. The
      tables of the last page are not looked at. */
  lemma GrowsIff(vm: Vm, owner: map<nat, Node>, first: nat, n: nat)
    requires n > 0 && Tree(vm, owner) && vm.pfa.Get(0) && first + n <= PAGES
    ensures var before := ExpandPages(vm, first, n - 1).0;
            && before.pfa.Valid()
            && (ExpandPages(vm, first, n).1 == first + n <==> AllGranted(vm, first, n - 1) && Supply(before.pfa) > 0)
  {
    hide *;
    ExpandLastPage(vm, first, n);
    var before := ExpandPages(vm, first, n - 1);
    if AllGranted(vm, first, n - 1) {
      var owner1 := AfterPages(vm, owner, first, n - 1);
    } else {
      NotAllGranted(vm, owner, first, n - 1);
      EmptiesIs(before.0.pfa);
    }
    RequestSupply(before.0.pfa);
  }

  /** Page first + k is the first of the pages from `first` on to need its table of depth d. */
  function NewTable(vm: Vm, first: nat, k: nat, d: nat): nat
    requires d <= 3
  {
    if TableOf(vm, d, first + k).None? && (k == 0 || Prefix(first + k, d) != Prefix(first + k - 1, d)) then 1 else 0
  }

  /** The tables that mapping n pages in order makes, from the tables there are before. */
  function NewTables(vm: Vm, first: nat, n: nat): nat {
    if n == 0 then 0
    else
      NewTables(vm, first, n - 1)
      + NewTable(vm, first, n - 1, 1) + NewTable(vm, first, n - 1, 2) + NewTable(vm, first, n - 1, 3)
  }

  lemma PrefixBetween(a: nat, b: nat, c: nat, d: nat)
    requires d <= 4 && a <= b <= c && Prefix(a, d) == Prefix(c, d)
    ensures Prefix(b, d) == Prefix(c, d)
  {
  }

  /** A heap page makes the tables on its own way. */
  lemma PageCreates(vm: Vm, owner: map<nat, Node>, page: nat, d: nat, other: nat)
    requires Tree(vm, owner) && CanGrow(vm, page) && 1 <= d <= 3 && other < PAGES
    ensures TableOf(GrowPage(vm, page), d, other).Some? <==>
            TableOf(vm, d, other).Some? || Prefix(other, d) == Prefix(page, d)
  {
    RequestKeeps(vm, owner, page, 0);
    RequestKeepsTables(vm, Request(vm.pfa).0, d, other);
    hide MapPage, Request, Tree, Supply, Missing;
    MapCreates(Requested(vm), owner, page, NewFrame(vm), d, other);
  }

  /** A page before `page` has its table of depth d, if and only if the last one of the pages before it has. */
  lemma GrownStep(before: Vm, owner: map<nat, Node>, page: nat, d: nat, other: nat, was: bool, some: bool)
    requires Tree(before, owner) && CanGrow(before, page) && 1 <= d <= 3 && page < other < PAGES
    requires TableOf(before, d, other).Some? <==> was || (some && page > 0 && Prefix(page - 1, d) == Prefix(other, d))
    ensures TableOf(GrowPage(before, page), d, other).Some? <==> was || Prefix(page, d) == Prefix(other, d)
  {
    hide Tree, CanGrow, GrowPage, TableOf;
    PageCreates(before, owner, page, d, other);
    if page > 0 && Prefix(page - 1, d) == Prefix(other, d) {
      PrefixBetween(page - 1, page, other, d);
    }
  }

  /** The tables there are for a page after the n pages before it. */
  lemma {:induction false} GrownTables(vm: Vm, owner: map<nat, Node>, first: nat, n: nat, d: nat, page: nat)
    requires Tree(vm, owner) && vm.pfa.Get(0) && AllGranted(vm, first, n) && 1 <= d <= 3 && first + n <= page < PAGES
    ensures TableOf(ExpandPages(vm, first, n).0, d, page).Some? <==>
            TableOf(vm, d, page).Some? || (n > 0 && Prefix(first + n - 1, d) == Prefix(page, d))
  {
    hide Tree, GrowPage, CanGrow, Prefix, TableOf;
    if n > 0 {
      GrownTables(vm, owner, first, n - 1, d, page);
      var owner1 := AfterPages(vm, owner, first, n - 1);
      var before := ExpandPages(vm, first, n - 1).0;
      AllGrantedLast(vm, first, n);
      hide ExpandPages, AllGranted;
      GrownStep(before, owner1, first + n - 1, d, page, TableOf(vm, d, page).Some?, n > 1);
    }
  }

  lemma MissingIs(vm: Vm, owner: map<nat, Node>, first: nat, n: nat)
    requires Tree(vm, owner) && vm.pfa.Get(0) && AllGranted(vm, first, n) && first + n < PAGES
    ensures Missing(ExpandPages(vm, first, n).0, first + n) ==
            NewTable(vm, first, n, 1) + NewTable(vm, first, n, 2) + NewTable(vm, first, n, 3)
  {
    hide Tree, AllGranted, ExpandPages, Prefix, TableOf;
    GrownTables(vm, owner, first, n, 1, first + n);
    GrownTables(vm, owner, first, n, 2, first + n);
    GrownTables(vm, owner, first, n, 3, first + n);
  }

  /** One page more. */
  lemma NextGranted(vm: Vm, owner: map<nat, Node>, first: nat, n: nat)
    requires Tree(vm, owner) && vm.pfa.Get(0) && AllGranted(vm, first, n) && first + n < PAGES
    ensures var before := ExpandPages(vm, first, n).0;
            var more := NewTable(vm, first, n, 1) + NewTable(vm, first, n, 2) + NewTable(vm, first, n, 3);
            && before.pfa.Valid()
            && (AllGranted(vm, first, n + 1) <==> 1 + more <= Supply(before.pfa))
            && (AllGranted(vm, first, n + 1) ==>
                  var grown := ExpandPages(vm, first, n + 1).0;
                  grown.pfa.Valid() && Supply(grown.pfa) == Supply(before.pfa) - 1 - more)
  {
    hide *;
    AllGrantedIs(vm, first, n + 1);
    var before := ExpandPages(vm, first, n).0;
    var owner1 := AfterPages(vm, owner, first, n);
    MissingIs(vm, owner, first, n);
    CanGrowIs(before, first + n);
    if CanGrow(before, first + n) {
      AllGrantedLast(vm, first, n + 1);
      GrowBacks(before, owner1, first + n);
      PageGrown(before, owner1, first + n, 0);
      GrownValid(before, owner1, first + n);
    }
  }

  lemma CanGrowIs(vm: Vm, page: nat)
    requires vm.pfa.Valid() && vm.pfa.Get(0) && page < PAGES
    ensures CanGrow(vm, page) <==> 1 + Missing(vm, page) <= Supply(vm.pfa)
  {
  }

  lemma GrownValid(vm: Vm, owner: map<nat, Node>, page: nat)
    requires Tree(vm, owner) && CanGrow(vm, page)
    ensures GrowPage(vm, page).pfa.Valid()
  {
    GrowBacks(vm, owner, page);
    PageGrown(vm, owner, page, 0);
  }

  /** All requests for n pages are granted exactly if there is a frame for each page and each new table. */
  lemma {:induction false} AllGrantedIff(vm: Vm, owner: map<nat, Node>, first: nat, n: nat)
    requires Tree(vm, owner) && vm.pfa.Get(0) && vm.pfa.Valid() && first + n <= PAGES
    ensures AllGranted(vm, first, n) <==> n + NewTables(vm, first, n) <= Supply(vm.pfa)
    ensures AllGranted(vm, first, n) ==>
              var grown := ExpandPages(vm, first, n).0;
              grown.pfa.Valid() && Supply(grown.pfa) == Supply(vm.pfa) - n - NewTables(vm, first, n)
  {
    hide Tree, ExpandPages, CanGrow, NewTable, Supply;
    if n > 0 {
      AllGrantedIff(vm, owner, first, n - 1);
      if AllGranted(vm, first, n - 1) {
        hide AllGranted;
        NextGranted(vm, owner, first, n - 1);
      }
    } else {
      NoPages(vm, first);
    }
  }

  lemma NoPages(vm: Vm, first: nat)
    ensures ExpandPages(vm, first, 0) == (vm, first)
  {
  }

  /** There is a frame for each of the n pages and for each new table but those of the last page. */
  predicate CanExpand(vm: Vm, first: nat, n: nat)
    requires vm.pfa.Valid()
  {
    n == 0 || n + NewTables(vm, first, n - 1) <= Supply(vm.pfa)
  }

  /** That is exactly when the heap grows by all its pages. */
  lemma ExpandIff(vm: Vm, owner: map<nat, Node>, first: nat, n: nat)
    requires Tree(vm, owner) && vm.pfa.Get(0) && first + n <= PAGES
    ensures ExpandPages(vm, first, n).1 == first + n <==> CanExpand(vm, first, n)
  {
    hide *;
    TreeValid(vm, owner);
    NoPages(vm, first);
    CanExpandIs(vm, first, n);
    if n > 0 {
      GrowsIff(vm, owner, first, n);
      AllGrantedIff(vm, owner, first, n - 1);
    }
  }

  lemma CanExpandIs(vm: Vm, first: nat, n: nat)
    requires vm.pfa.Valid()
    ensures CanExpand(vm, first, n) <==> n == 0 || n + NewTables(vm, first, n - 1) <= Supply(vm.pfa)
  {
  }

  // ---------- exactly when every page is backed ----------

  /** The frame requested for page first + k. */
  function HeapFrame(vm: Vm, first: nat, k: nat): nat {
    NewFrame(ExpandPages(vm, first, k).0)
  }

  /** What a page must translate to once the heap has n pages more. */
  function GrownTo(vm: Vm, first: nat, n: nat, page: nat): Translation {
    if first <= page < first + n then To(HeapFrame(vm, first, page - first), true) else Translate(vm, page)
  }

  ghost predicate TranslatesTo(vm1: Vm, vm: Vm, first: nat, n: nat) {
    forall page :: 0 <= page < PAGES ==> Translate(vm1, page) == GrownTo(vm, first, n, page)
  }

  /** All n pages are granted, each of them is mapped to its frame, and no other page is mapped differently. */
  ghost predicate Backs(vm: Vm, first: nat, n: nat) {
    ExpandPages(vm, first, n).1 == first + n && TranslatesTo(ExpandPages(vm, first, n).0, vm, first, n)
  }

  /** The tables are a tree, nothing else is read as a table, and one lies in frame 0 only if no frame is left. */
  predicate Orderly(vm: Vm, owner: map<nat, Node>) {
    Tree(vm, owner) && vm.pfa.Get(0) && OnlyTables(vm, owner) && (0 in owner ==> Supply(vm.pfa) == 0)
  }

  lemma OrderlyIs(vm: Vm, owner: map<nat, Node>)
    ensures Orderly(vm, owner) ==> vm.pfa.Valid()
    ensures Orderly(vm, owner) <==>
            && Tree(vm, owner) && vm.pfa.Get(0) && OnlyTables(vm, owner)
            && vm.pfa.Valid() && (0 in owner ==> Supply(vm.pfa) == 0)
  {
    hide OnlyTables, Supply;
  }

  /** There is a frame for each page and each new table, but the last page's last table can lie in frame 0. */
  predicate CanBackAll(vm: Vm, first: nat, n: nat)
    requires vm.pfa.Valid()
  {
    CanExpand(vm, first, n) && n + NewTables(vm, first, n) <= Supply(vm.pfa) + 1
  }

  /** With orderly tables, `backed` holds exactly if the frames last for all n pages. */
  ghost predicate LastsIff(vm: Vm, first: nat, n: nat, backed: bool) {
    forall owner: map<nat, Node> :: Orderly(vm, owner) ==> vm.pfa.Valid() && (backed <==> CanBackAll(vm, first, n))
  }

  /** What one page more must translate to. */
  lemma GrownMore(vm: Vm, first: nat, n: nat, page: nat)
    requires n > 0
    ensures GrownTo(vm, first, n, page) ==
            if page == first + n - 1 then To(NewFrame(ExpandPages(vm, first, n - 1).0), true)
            else GrownTo(vm, first, n - 1, page)
  {
    hide ExpandPages, Translate;
  }

  lemma TranslatesAt(vm1: Vm, vm: Vm, first: nat, n: nat, page: nat)
    requires TranslatesTo(vm1, vm, first, n) && page < PAGES
    ensures Translate(vm1, page) == GrownTo(vm, first, n, page)
  {
  }

  /** What is granted with all its tables is mapped as it must be. */
  lemma {:induction false} AllGrantedBacks(vm: Vm, owner: map<nat, Node>, first: nat, n: nat)
    requires Tree(vm, owner) && vm.pfa.Get(0) && AllGranted(vm, first, n)
    ensures Backs(vm, first, n)
  {
    hide *;
    if n == 0 {
      BacksNone(vm, first);
    } else {
      AllGrantedIs(vm, first, n);
      AllGrantedBacks(vm, owner, first, n - 1);
      BacksIs(vm, first, n - 1);
      BacksIs(vm, first, n);
      var owner1 := AfterPages(vm, owner, first, n - 1);
      var before := ExpandPages(vm, first, n - 1).0;
      AllGrantedLast(vm, first, n);
      GrowBacks(before, owner1, first + n - 1);
      PageOneMore(before, owner1, first + n - 1);
      LastTranslates(vm, first, n);
    }
  }

  /** The last page is mapped as it must be exactly if at most one of its tables has no frame. */
  lemma LastPageIff(vm: Vm, owner: map<nat, Node>, page: nat)
    requires Tree(vm, owner) && vm.pfa.Get(0) && 0 !in owner && OnlyTables(vm, owner) && page < PAGES && Supply(vm.pfa) > 0
    ensures OneMore(GrowPage(vm, page), vm, page, NewFrame(vm)) <==> Missing(vm, page) <= Supply(vm.pfa)
  {
    hide *;
    TreeValid(vm, owner);
    var vm1, f := Requested(vm), NewFrame(vm);
    RequestKeeps(vm, owner, page, page);
    FrameFresh(vm, owner);
    MapShows(vm1, owner, page, f);
    OneMoreIs(vm, owner, page);
  }

  /** The new frame is no table. */
  lemma FrameFresh(vm: Vm, owner: map<nat, Node>)
    requires Tree(vm, owner) && OnlyTables(vm, owner) && vm.pfa.Get(0) && Supply(vm.pfa) > 0
    ensures NewFrame(vm) != 0 && NewFrame(vm) !in Requested(vm).ram
  {
    RequestSupply(vm.pfa);
    RequestFresh(vm.pfa);
    hide Request, Supply;
  }

  lemma OneMoreIs(vm: Vm, owner: map<nat, Node>, page: nat)
    requires Tree(vm, owner) && vm.pfa.Get(0) && page < PAGES && Supply(vm.pfa) > 0
    ensures OneMore(GrowPage(vm, page), vm, page, NewFrame(vm)) <==> Maps(Requested(vm), page, NewFrame(vm))
  {
    hide Tree, Supply, MapPage, Request, Translate, Requested, NewFrame;
    forall other | 0 <= other < PAGES
      ensures Translate(Requested(vm), other) == Translate(vm, other)
    {
      RequestKeeps(vm, owner, page, other);
    }
  }

  /** All n pages are backed exactly if there is a frame for each of them, for each new table but the last page's, and for
      all but one of those. */
  lemma BacksIff(vm: Vm, owner: map<nat, Node>, first: nat, n: nat)
    requires Orderly(vm, owner) && first + n <= PAGES
    ensures vm.pfa.Valid() && (Backs(vm, first, n) <==> CanBackAll(vm, first, n))
  {
    hide *;
    OrderlyIs(vm, owner);
    CanBackAllIs(vm, first, n);
    CanExpandIs(vm, first, n);
    if n == 0 {
      NoPages(vm, first);
      BacksNone(vm, first);
    } else {
      ExpandIff(vm, owner, first, n);
      GrowsIff(vm, owner, first, n);
      BacksIs(vm, first, n);
      if ExpandPages(vm, first, n).1 == first + n {
        BacksLast(vm, owner, first, n);
      }
    }
  }

  lemma CanBackAllIs(vm: Vm, first: nat, n: nat)
    requires vm.pfa.Valid()
    ensures CanBackAll(vm, first, n) <==>
            CanExpand(vm, first, n) && n + NewTables(vm, first, n) <= Supply(vm.pfa) + 1
    ensures n == 0 ==> CanBackAll(vm, first, n)
  {
  }

  lemma BacksIs(vm: Vm, first: nat, n: nat)
    ensures Backs(vm, first, n) <==>
            ExpandPages(vm, first, n).1 == first + n && TranslatesTo(ExpandPages(vm, first, n).0, vm, first, n)
  {
    hide ExpandPages, TranslatesTo;
  }

  lemma BacksNone(vm: Vm, first: nat)
    ensures Backs(vm, first, 0)
  {
    NoPages(vm, first);
    hide ExpandPages;
  }

  /** When the end moves in full, only the last page is in question. */
  lemma BacksLast(vm: Vm, owner: map<nat, Node>, first: nat, n: nat)
    requires Tree(vm, owner) && vm.pfa.Get(0) && 0 !in owner && OnlyTables(vm, owner) && first + n <= PAGES
    requires n > 0 && vm.pfa.Valid() && ExpandPages(vm, first, n).1 == first + n
    ensures TranslatesTo(ExpandPages(vm, first, n).0, vm, first, n) <==> n + NewTables(vm, first, n) <= Supply(vm.pfa) + 1
  {
    hide *;
    GrowsIff(vm, owner, first, n);
    AllGrantedIff(vm, owner, first, n - 1);
    MissingIs(vm, owner, first, n - 1);
    NewTablesIs(vm, first, n);
    var owner1 := AfterPages(vm, owner, first, n - 1);
    var before, page := ExpandPages(vm, first, n - 1).0, first + n - 1;
    ExpandLastPage(vm, first, n);
    LastPageIff(before, owner1, page);
    AllGrantedBacks(vm, owner, first, n - 1);
    BacksIs(vm, first, n - 1);
    LastTranslates(vm, first, n);
  }

  lemma NewTablesIs(vm: Vm, first: nat, n: nat)
    requires n > 0
    ensures NewTables(vm, first, n) == NewTables(vm, first, n - 1)
              + NewTable(vm, first, n - 1, 1) + NewTable(vm, first, n - 1, 2) + NewTable(vm, first, n - 1, 3)
  {
    hide NewTable;
  }

  lemma LastTranslates(vm: Vm, first: nat, n: nat)
    requires n > 0 && TranslatesTo(ExpandPages(vm, first, n - 1).0, vm, first, n - 1)
    ensures var before, page, vm1 := ExpandPages(vm, first, n - 1).0, first + n - 1, ExpandPages(vm, first, n).0;
            TranslatesTo(vm1, vm, first, n) <==> OneMore(vm1, before, page, NewFrame(before))
  {
    hide ExpandPages, Translate, GrownTo, NewFrame;
    var before, page, vm1 := ExpandPages(vm, first, n - 1).0, first + n - 1, ExpandPages(vm, first, n).0;
    forall other | 0 <= other < PAGES
      ensures GrownTo(vm, first, n, other) == if other == page then To(NewFrame(before), true) else Translate(before, other)
    {
      GrownMore(vm, first, n, other);
      TranslatesAt(before, vm, first, n - 1, other);
    }
  }

  /** Then the heap's frames are distinct, locked, and none of them a table. */
  lemma BacksBacked(vm: Vm, owner: map<nat, Node>, first: nat, n: nat) returns (owner1: map<nat, Node>, frames: seq<nat>)
    requires Orderly(vm, owner) && vm.pfa.Valid() && first + n <= PAGES && CanBackAll(vm, first, n)
    ensures var grown := ExpandPages(vm, first, n).0;
            |frames| == n && Backed(grown, owner1, first, frames) && FreshTables(vm.pfa, owner, grown.pfa, owner1)
  {
    hide *;
    OrderlyIs(vm, owner);
    NothingBacked(vm, owner, first);
    FreshNone(vm.pfa, vm.pfa, owner);
    CanBackAllIs(vm, first, n);
    CanExpandIs(vm, first, n);
    if n == 0 {
      NoPages(vm, first);
      owner1, frames := owner, [];
    } else {
      ExpandIff(vm, owner, first, n);
      GrowsIff(vm, owner, first, n);
      AllGrantedIff(vm, owner, first, n - 1);
      MissingIs(vm, owner, first, n - 1);
      NewTablesIs(vm, first, n);
      owner1, frames := PagesBacked(vm, owner, first, [], n - 1);
      var before, page := ExpandPages(vm, first, n - 1).0, first + n - 1;
      BackedTree(before, owner1, first, frames);
      CanBackIf(before, owner1, page);
      ExpandLastPage(vm, first, n);
      RequestSupply(before.pfa);
      AddPage(before, owner1, first, frames);
      PageFresh(before, owner1, page);
      FreshTransitive(vm.pfa, owner, before.pfa, owner1, GrowPage(before, page).pfa, GrowOwner(before, owner1, page));
      owner1, frames := GrowOwner(before, owner1, page), frames + [NewFrame(before)];
    }
  }

  lemma CanBackIf(vm: Vm, owner: map<nat, Node>, page: nat)
    requires vm.pfa.Valid() && vm.pfa.Get(0) && page < PAGES && 0 !in owner
    ensures CanBack(vm, owner, page) <==> 0 < Supply(vm.pfa) && Missing(vm, page) <= Supply(vm.pfa)
  {
  }

  // ---------- the loop of `InitialiseHeap` ----------

  predicate InitialGranted(vm: Vm, first: nat, n: nat) {
    n == 0 || (InitialGranted(vm, first, n - 1) && Request(InitialPages(vm, first, n - 1).pfa).1 != 0)
  }

  /** All n pages are granted, each of them is mapped to its frame, and no other page is mapped differently. */
  ghost predicate InitialBacks(vm: Vm, first: nat, n: nat) {
    InitialGranted(vm, first, n) && TranslatesTo(InitialPages(vm, first, n), vm, first, n)
  }

  lemma {:induction false} ExpandAtMost(vm: Vm, first: nat, n: nat)
    ensures first <= ExpandPages(vm, first, n).1 <= first + n
  {
    hide GrowPage, Request, Requested;
    if n > 0 {
      ExpandAtMost(vm, first, n - 1);
    }
  }

  /** As long as everything is granted the two loops do the same. */
  lemma {:induction false} InitialIs(vm: Vm, first: nat, n: nat)
    ensures InitialGranted(vm, first, n) <==> ExpandPages(vm, first, n).1 == first + n
    ensures InitialGranted(vm, first, n) ==> InitialPages(vm, first, n) == ExpandPages(vm, first, n).0
  {
    hide *;
    InitialGrantedIs(vm, first, n);
    InitialPagesIs(vm, first, n);
    if n == 0 {
      NoPages(vm, first);
    } else {
      InitialIs(vm, first, n - 1);
      ExpandAtMost(vm, first, n - 1);
      ExpandLastPage(vm, first, n);
    }
  }

  lemma InitialGrantedIs(vm: Vm, first: nat, n: nat)
    ensures InitialGranted(vm, first, n) <==>
            n == 0 || (InitialGranted(vm, first, n - 1) && Request(InitialPages(vm, first, n - 1).pfa).1 != 0)
  {
    hide InitialPages, Request;
  }

  lemma InitialPagesIs(vm: Vm, first: nat, n: nat)
    ensures InitialPages(vm, first, n) ==
            if n == 0 then vm else GrowPage(InitialPages(vm, first, n - 1), first + n - 1)
  {
    hide GrowPage;
  }

  /** So `InitialiseHeap` backs all its pages under the same condition. */
  lemma InitialBacksIff(vm: Vm, owner: map<nat, Node>, first: nat, n: nat)
    requires Orderly(vm, owner) && first + n <= PAGES
    ensures vm.pfa.Valid() && (InitialBacks(vm, first, n) <==> CanBackAll(vm, first, n))
  {
    hide *;
    InitialIs(vm, first, n);
    BacksIff(vm, owner, first, n);
    BacksIs(vm, first, n);
    InitialBacksIs(vm, first, n);
  }

  lemma InitialBacksIs(vm: Vm, first: nat, n: nat)
    ensures InitialBacks(vm, first, n) <==>
            InitialGranted(vm, first, n) && TranslatesTo(InitialPages(vm, first, n), vm, first, n)
  {
    hide InitialGranted, TranslatesTo;
  }

  // ---------- any number of expansions ----------

  /** `InitialiseHeap` and then any number of `ExpandHeap` calls, each with its number of pages. */
  function ExpandMany(vm: Vm, first: nat, counts: seq<nat>): (Vm, nat) {
    if counts == [] then (vm, first)
    else
      var before := ExpandMany(vm, first, counts[..|counts| - 1]);
      ExpandPages(before.0, before.1, counts[|counts| - 1])
  }

  function Sum(counts: seq<nat>): nat {
    if counts == [] then 0 else Sum(counts[..|counts| - 1]) + counts[|counts| - 1]
  }

  /** Two loops one after the other are one. */
  lemma {:induction false} ExpandJoin(vm: Vm, first: nat, m: nat, n: nat)
    ensures var mid := ExpandPages(vm, first, m);
            ExpandPages(vm, first, m + n) == ExpandPages(mid.0, mid.1, n)
  {
    hide *;
    var mid := ExpandPages(vm, first, m);
    if n == 0 {
      NoPages(mid.0, mid.1);
    } else {
      ExpandJoin(vm, first, m, n - 1);
      ExpandLastPage(vm, first, m + n);
      ExpandLastPage(mid.0, mid.1, n);
    }
  }

  /** And so are any number. */
  lemma {:induction false} ManyIs(vm: Vm, first: nat, counts: seq<nat>)
    ensures ExpandMany(vm, first, counts) == ExpandPages(vm, first, Sum(counts))
  {
    hide ExpandPages;
    if counts == [] {
      NoPages(vm, first);
    } else {
      ManyIs(vm, first, counts[..|counts| - 1]);
      ExpandJoin(vm, first, Sum(counts[..|counts| - 1]), counts[|counts| - 1]);
    }
  }

  /** Backing m pages and then n is backing m + n. */
  lemma BacksJoin(vm: Vm, first: nat, m: nat, n: nat)
    requires Backs(vm, first, m) && Backs(ExpandPages(vm, first, m).0, first + m, n)
    ensures Backs(vm, first, m + n)
  {
    hide *;
    var mid := ExpandPages(vm, first, m).0;
    BacksIs(vm, first, m);
    BacksIs(mid, first + m, n);
    BacksIs(vm, first, m + n);
    ExpandJoin(vm, first, m, n);
    var start, all := first + m, m + n;
    forall page | 0 <= page < PAGES
      ensures GrownTo(vm, first, all, page) == GrownTo(mid, start, n, page)
    {
      JoinAt(vm, first, m, n, page);
    }
    TranslatesSame(ExpandPages(mid, start, n).0, mid, start, n, vm, first, all);
  }

  /** And what is backed after the first m of m + n pages that are backed is the last n. */
  lemma BacksSplit(vm: Vm, first: nat, m: nat, n: nat)
    requires Backs(vm, first, m) && Backs(vm, first, m + n)
    ensures Backs(ExpandPages(vm, first, m).0, first + m, n)
  {
    hide *;
    var mid := ExpandPages(vm, first, m).0;
    BacksIs(vm, first, m);
    BacksIs(mid, first + m, n);
    BacksIs(vm, first, m + n);
    ExpandJoin(vm, first, m, n);
    var start, all := first + m, m + n;
    forall page | 0 <= page < PAGES
      ensures GrownTo(vm, first, all, page) == GrownTo(mid, start, n, page)
    {
      JoinAt(vm, first, m, n, page);
    }
    TranslatesSame(ExpandPages(mid, start, n).0, vm, first, all, mid, start, n);
  }

  lemma {:induction false} NewTablesRise(vm: Vm, first: nat, m: nat, n: nat)
    requires m <= n
    ensures NewTables(vm, first, m) <= NewTables(vm, first, n)
  {
    hide NewTable;
    if m < n {
      NewTablesRise(vm, first, m, n - 1);
    }
  }

  lemma JoinAt(vm: Vm, first: nat, m: nat, n: nat, page: nat)
    requires ExpandPages(vm, first, m).1 == first + m && page < PAGES
    requires TranslatesTo(ExpandPages(vm, first, m).0, vm, first, m)
    ensures GrownTo(vm, first, m + n, page) == GrownTo(ExpandPages(vm, first, m).0, first + m, n, page)
  {
    hide ExpandPages, Translate, NewFrame;
    TranslatesAt(ExpandPages(vm, first, m).0, vm, first, m, page);
    if first + m <= page < first + m + n {
      ExpandJoin(vm, first, m, page - first - m);
    }
  }

  lemma TranslatesSame(vm1: Vm, vm: Vm, first: nat, n: nat, vm0: Vm, first0: nat, n0: nat)
    requires TranslatesTo(vm1, vm, first, n)
    requires forall page :: 0 <= page < PAGES ==> GrownTo(vm0, first0, n0, page) == GrownTo(vm, first, n, page)
    ensures TranslatesTo(vm1, vm0, first0, n0)
  {
    hide Translate, GrownTo;
  }

  lemma {:induction false} FewTables(vm: Vm, first: nat, n: nat)
    ensures NewTables(vm, first, n) <= 3 * n
  {
    if n > 0 {
      FewTables(vm, first, n - 1);
    }
  }

  /** Four free frames for each page are enough for any number of expansions. */
  lemma ManyFour(vm: Vm, owner: map<nat, Node>, first: nat, counts: seq<nat>)
    requires Tree(vm, owner) && vm.pfa.Get(0) && first + Sum(counts) <= PAGES && 4 * Sum(counts) <= Supply(vm.pfa)
    ensures vm.pfa.Valid() && CanBackAll(vm, first, Sum(counts))
    ensures var grown := ExpandMany(vm, first, counts);
            && grown.1 == first + Sum(counts)
            && grown.0.pfa.Valid() && Supply(vm.pfa) <= Supply(grown.0.pfa) + 4 * Sum(counts)
  {
    hide *;
    TreeValid(vm, owner);
    var n := Sum(counts);
    ManyIs(vm, first, counts);
    FewTables(vm, first, n);
    CanBackAllIs(vm, first, n);
    CanExpandIs(vm, first, n);
    if n > 0 {
      FewTables(vm, first, n - 1);
    }
    FourEach(vm, owner, first, n);
  }

  lemma NothingBacked(vm: Vm, owner: map<nat, Node>, first: nat)
    requires Tree(vm, owner) && vm.pfa.Get(0)
    ensures Backed(vm, owner, first, [])
  {
  }
}
