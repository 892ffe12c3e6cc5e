/** Any run of `MapMemory` calls: the walk equals the map folded from the calls, and exact table counts. */
module MapSpec {
  import opened Common
  import opened PageEntries
  import opened FrameSpec
  import opened TableSpec

  // ---------- frames left to request ----------

  /** Clear frames from the search hint on: what requests can still hand out. */
  function Supply(p: Pfa): nat
    requires p.Valid()
  {
    Clear(p.bits[p.hint..p.Limit()])
  }

  lemma {:induction false} ClearSkip(bits: seq<bool>, r: nat)
    requires r <= |bits| && forall j :: 0 <= j < r ==> bits[j]
    ensures Clear(bits) == Clear(bits[r..])
    decreases |bits|
  {
    if r < |bits| {
      var last := |bits| - 1;
      ClearSkip(bits[..last], r);
      assert bits[r..][..last - r] == bits[..last][r..];
    } else if r > 0 {
      ClearSkip(bits[..r - 1], r - 1);
    }
  }

  /** What `RequestPage` returns and leaves behind. */
  lemma RequestIs(p: Pfa)
    requires p.Valid()
    ensures var q, r := Request(p).0, NextClear(p, p.hint);
            && q.Valid() && q.hint == r <= p.Limit()
            && Request(p).1 == (if r < p.Limit() then r * PAGE else 0)
            && (r < p.Limit() ==> !p.bits[r])
            && q.bits == if r < p.Limit() then p.bits[r := true] else p.bits
  {
  }

  /** With frame 0 taken, `RequestPage` returns NULL exactly if the supply is used up; else it takes one frame off it. */
  lemma RequestSupply(p: Pfa)
    requires p.Valid() && p.Get(0)
    ensures var q := Request(p).0;
            && q.Valid() && q.Get(0)
            && (Request(p).1 != 0 <==> Supply(p) > 0)
            && (if Supply(p) > 0 then Supply(q) == Supply(p) - 1 && Clear(q.bits) == Clear(p.bits) - 1
                else Supply(q) == 0 && q.bits == p.bits)
  {
    hide Request, NextClear, Clear;
    var q, r := Request(p).0, NextClear(p, p.hint);
    RequestIs(p);
    SupplyFrom(p);
    if r < p.Limit() {
      TakeFirst(p.bits, r, p.Limit());
    } else {
      assert p.bits[r..p.Limit()] == [];
      NoneClear();
    }
  }

  lemma NoneClear()
    ensures Clear([]) == 0
  {
  }

  lemma SupplyFrom(p: Pfa)
    requires p.Valid()
    ensures Supply(p) == Clear(p.bits[NextClear(p, p.hint)..p.Limit()])
  {
    var r := NextClear(p, p.hint);
    var left := p.bits[p.hint..p.Limit()];
    forall j | 0 <= j < r - p.hint
      ensures left[j]
    {
      assert left[j] == p.bits[p.hint + j];
    }
    ClearSkip(left, r - p.hint);
    assert left[r - p.hint..] == p.bits[r..p.Limit()];
  }

  lemma TakeFirst(bits: seq<bool>, r: nat, limit: nat)
    requires r < limit < |bits| && !bits[r]
    ensures Clear(bits[r..limit]) > 0
    ensures Clear(bits[r := true][r..limit]) == Clear(bits[r..limit]) - 1
    ensures Clear(bits[r := true]) == Clear(bits) - 1
  {
    ClearUpdate(bits[r..limit], 0, true);
    assert bits[r := true][r..limit] == bits[r..limit][0 := true];
    ClearUpdate(bits, r, true);
  }

  // ---------- one call ----------

  function Absent(vm: Vm, k: nat, page: nat): nat
    requires k <= 3
  {
    if TableOf(vm, k, page).None? then 1 else 0
  }

  /** Tables a call for the page has to create. */
  function Missing(vm: Vm, page: nat): nat {
    Absent(vm, 1, page) + Absent(vm, 2, page) + Absent(vm, 3, page)
  }

  /** Once, a table for which no frame is left can lie in frame 0: `RequestPage` returns NULL, and nothing tells. */
  function Spare(owner: map<nat, Node>): nat {
    if 0 in owner then 0 else 1
  }

  predicate Ready(vm: Vm, owner: map<nat, Node>, page: nat) {
    Tree(vm, owner) && page < PAGES && vm.pfa.Get(0) && Missing(vm, page) <= Supply(vm.pfa) + Spare(owner)
  }

  /** What is left after tables were taken: frames as long as there are any, and then frame 0. */
  predicate Takes(vm: Vm, owner: map<nat, Node>, vm1: Vm, owner1: map<nat, Node>, tables: nat) {
    && vm.pfa.Valid() && vm1.pfa.Valid()
    && Supply(vm1.pfa) + Spare(owner1) + tables == Supply(vm.pfa) + Spare(owner)
    && (Spare(owner1) != Spare(owner) ==> Supply(vm1.pfa) == 0 && Spare(owner1) == 0)
    && Clear(vm1.pfa.bits) - Supply(vm1.pfa) == Clear(vm.pfa.bits) - Supply(vm.pfa)
  }

  /** The allocator only locks frames, and each of them is a new table. */
  predicate TakesTables(vm: Vm, owner: map<nat, Node>, vm1: Vm, owner1: map<nat, Node>) {
    && vm1.root == vm.root && |vm1.pfa.bits| == |vm.pfa.bits|
    && (forall f :: f in owner ==> f in owner1)
    && (forall f :: f in owner1 && f !in owner && f != 0 ==> f < vm.pfa.Limit() && !vm.pfa.Get(f))
    && (forall f :: 0 <= f < |vm.pfa.bits| && vm.pfa.bits[f] ==> vm1.pfa.bits[f])
    && (forall f :: 0 <= f < |vm.pfa.bits| && vm1.pfa.bits[f] && !vm.pfa.bits[f] ==> f in owner1)
  }

  /** No frame was given back, and every new table came from the allocator or lies in frame 0. */
  predicate FreshTables(p: Pfa, owner: map<nat, Node>, p1: Pfa, owner1: map<nat, Node>) {
    && |p1.bits| == |p.bits| && (forall f :: 0 <= f < |p.bits| && p.bits[f] ==> p1.bits[f])
    && forall f :: f in owner1 && f !in owner && f != 0 ==> f < p.Limit() && !p.Get(f)
  }

  lemma TakesFresh(vm: Vm, owner: map<nat, Node>, vm1: Vm, owner1: map<nat, Node>)
    requires TakesTables(vm, owner, vm1, owner1)
    ensures FreshTables(vm.pfa, owner, vm1.pfa, owner1)
  {
  }

  lemma FreshTransitive(p: Pfa, owner: map<nat, Node>, p1: Pfa, owner1: map<nat, Node>, p2: Pfa, owner2: map<nat, Node>)
    requires FreshTables(p, owner, p1, owner1) && FreshTables(p1, owner1, p2, owner2)
    ensures FreshTables(p, owner, p2, owner2)
  {
  }

  /** Locking frames makes no table. */
  lemma FreshNone(p: Pfa, p1: Pfa, owner: map<nat, Node>)
    requires |p1.bits| == |p.bits| && forall f :: 0 <= f < |p.bits| && p.bits[f] ==> p1.bits[f]
    ensures FreshTables(p, owner, p1, owner)
  {
  }

  lemma {:induction false} DownReady(vm: Vm, owner: map<nat, Node>, d: nat, page: nat)
    requires Ready(vm, owner, page) && d < 3 && TableOf(vm, d, page).Some?
    ensures StepReady(vm, owner, d, page)
    ensures var vm1, owner1 := Down(vm, d, page), Grown(vm, owner, d, page);
            && Ready(vm1, owner1, page)
            && TableOf(vm1, d + 1, page) == Some(Descend(vm, TableOf(vm, d, page).value, Slot(page, d)).1)
            && Missing(vm1, page) == Missing(vm, page) - Absent(vm, d + 1, page)
            && Takes(vm, owner, vm1, owner1, Absent(vm, d + 1, page))
  {
    RequestSupply(vm.pfa);
    DownTree(vm, owner, d, page);
    DownMissing(vm, owner, d, page);
    DownSupply(vm, owner, d, page);
  }

  lemma DownSupply(vm: Vm, owner: map<nat, Node>, d: nat, page: nat)
    requires StepReady(vm, owner, d, page)
    ensures Takes(vm, owner, Down(vm, d, page), Grown(vm, owner, d, page), Absent(vm, d + 1, page))
  {
    if TableOf(vm, d + 1, page).None? {
      TableFrame(vm, owner);
      RequestSupply(vm.pfa);
      hide Supply, Clear, Request;
    }
  }

  lemma DownMissing(vm: Vm, owner: map<nat, Node>, d: nat, page: nat)
    requires StepReady(vm, owner, d, page)
    ensures var vm1 := Down(vm, d, page);
            && TableOf(vm1, d + 1, page) == Some(Descend(vm, TableOf(vm, d, page).value, Slot(page, d)).1)
            && Missing(vm1, page) == Missing(vm, page) - Absent(vm, d + 1, page)
  {
    DownTables(vm, owner, d, page, 1, page);
    DownTables(vm, owner, d, page, 2, page);
    DownTables(vm, owner, d, page, 3, page);
  }

  lemma DownTakes(vm: Vm, owner: map<nat, Node>, d: nat, page: nat)
    requires StepReady(vm, owner, d, page)
    ensures TakesTables(vm, owner, Down(vm, d, page), Grown(vm, owner, d, page))
  {
    if TableOf(vm, d + 1, page).None? {
      TableFrame(vm, owner);
    }
  }

  lemma {:induction false} LeafTables(vm: Vm, owner: map<nat, Node>, page: nat, frame: nat, k: nat, other: nat)
    requires Tree(vm, owner) && TableOf(vm, 3, page).Some? && k <= 3 && page < PAGES && other < PAGES
    ensures TableOf(Leaf(vm, TableOf(vm, 3, page).value, page, frame), k, other) == TableOf(vm, k, other)
  {
    if k > 0 {
      LeafTables(vm, owner, page, frame, k - 1, other);
      OnPath(vm, owner, k - 1, other);
      OnPath(vm, owner, 3, page);
    }
  }

  lemma LeafTree(vm: Vm, owner: map<nat, Node>, page: nat, frame: nat)
    requires Tree(vm, owner) && page < PAGES && TableOf(vm, 3, page).Some?
    ensures Tree(Leaf(vm, TableOf(vm, 3, page).value, page, frame), owner)
  {
    OnPath(vm, owner, 3, page);
    hide TableOf, Slot;
  }

  lemma LeafAt(vm: Vm, table: nat, page: nat, frame: nat, other: nat)
    ensures var vm1 := Leaf(vm, table, page, frame);
            TableAt(vm1.ram, other) ==
            if other == table then TableAt(vm.ram, table)[Slot(page, 3) := Entry(true, true, frame)]
            else TableAt(vm.ram, other)
  {
  }

  lemma TranslateIs(vm: Vm, page: nat)
    ensures var t := TableOf(vm, 3, page);
            Translate(vm, page) ==
            if t.None? then Fault
            else
              var e := TableAt(vm.ram, t.value)[Slot(page, 3)];
              if e.present then To(e.frame, e.writable && WritableTo(vm, 3, page)) else Fault
  {
    hide WritableTo;
  }

  /** A page is its last table's place and its entry there. */
  lemma SamePlace(page: nat, other: nat)
    requires page < PAGES && other < PAGES
    ensures Prefix(page, 3) == Prefix(other, 3) && Slot(page, 3) == Slot(other, 3) ==> page == other
  {
    PrefixSlot(page, 3);
    PrefixSlot(other, 3);
  }

  /** Writing the leaf entry of a page maps that page and no other. */
  lemma LeafMaps(vm: Vm, owner: map<nat, Node>, page: nat, frame: nat, other: nat)
    requires Tree(vm, owner) && page < PAGES && other < PAGES && TableOf(vm, 3, page).Some?
    ensures var vm1 := Leaf(vm, TableOf(vm, 3, page).value, page, frame);
            && Tree(vm1, owner)
            && Translate(vm1, other) == if other == page then To(frame, true) else Translate(vm, other)
  {
    hide *;
    OnPath(vm, owner, 3, page);
    OnPath(vm, owner, 3, other);
    LeafTree(vm, owner, page, frame);
    LeafTables(vm, owner, page, frame, 3, other);
    SamePlace(page, other);
    var t := TableOf(vm, 3, page).value;
    TranslateIs(vm, other);
    TranslateIs(Leaf(vm, t, page, frame), other);
    if TableOf(vm, 3, other).Some? {
      TreeWritable(vm, owner, 3, other);
      TreeWritable(Leaf(vm, t, page, frame), owner, 3, other);
      LeafAt(vm, t, page, frame, TableOf(vm, 3, other).value);
    }
  }

  /** The table places after the steps from depth d on. */
  function WalkOwner(vm: Vm, owner: map<nat, Node>, table: nat, d: nat, page: nat): map<nat, Node>
    decreases 3 - d
  {
    if d >= 3 then owner
    else
      var down := Descend(vm, table, Slot(page, d));
      WalkOwner(down.0, Grown(vm, owner, d, page), down.1, d + 1, page)
  }

  function MapOwner(vm: Vm, owner: map<nat, Node>, page: nat): map<nat, Node> {
    WalkOwner(vm, owner, vm.root, 0, page)
  }

  /** The steps down reach the page's last table, taking exactly what is missing. */
  lemma {:induction false} WalkReady(vm: Vm, owner: map<nat, Node>, table: nat, d: nat, page: nat)
    requires Ready(vm, owner, page) && d <= 3 && TableOf(vm, d, page) == Some(table)
    ensures var down := Walk(vm, table, d, page);
            && Ready(down.0, WalkOwner(vm, owner, table, d, page), page)
            && TableOf(down.0, 3, page) == Some(down.1)
            && Missing(down.0, page) <= Missing(vm, page)
            && Takes(vm, owner, down.0, WalkOwner(vm, owner, table, d, page), Missing(vm, page) - Missing(down.0, page))
    decreases 3 - d
  {
    hide Takes, Supply, Tree, Missing, Ready, Descend, Slot;
    if d < 3 {
      DownReady(vm, owner, d, page);
      var down := Descend(vm, table, Slot(page, d));
      var owner1 := Grown(vm, owner, d, page);
      WalkReady(down.0, owner1, down.1, d + 1, page);
      var end := Walk(down.0, down.1, d + 1, page);
      TakesBoth(vm, owner, down.0, owner1, end.0, WalkOwner(down.0, owner1, down.1, d + 1, page),
                Absent(vm, d + 1, page), Missing(down.0, page) - Missing(end.0, page));
    } else {
      TakesNone(vm, owner, page);
    }
  }

  lemma TakesBoth(vm: Vm, owner: map<nat, Node>, vm1: Vm, owner1: map<nat, Node>, vm2: Vm, owner2: map<nat, Node>,
                  m: nat, n: nat)
    requires Takes(vm, owner, vm1, owner1, m) && Takes(vm1, owner1, vm2, owner2, n)
    ensures Takes(vm, owner, vm2, owner2, m + n)
  {
    hide Supply, Clear;
  }

  lemma TakesNone(vm: Vm, owner: map<nat, Node>, page: nat)
    requires Ready(vm, owner, page)
    ensures Takes(vm, owner, vm, owner, 0)
  {
  }

  lemma {:induction false} WalkTakes(vm: Vm, owner: map<nat, Node>, table: nat, d: nat, page: nat)
    requires Ready(vm, owner, page) && d <= 3 && TableOf(vm, d, page) == Some(table)
    ensures TakesTables(vm, owner, Walk(vm, table, d, page).0, WalkOwner(vm, owner, table, d, page))
    decreases 3 - d
  {
    if d < 3 {
      DownReady(vm, owner, d, page);
      DownTakes(vm, owner, d, page);
      var down := Descend(vm, table, Slot(page, d));
      var owner1 := Grown(vm, owner, d, page);
      WalkTakes(down.0, owner1, down.1, d + 1, page);
      TakesTransitive(vm, owner, down.0, owner1,
                      Walk(down.0, down.1, d + 1, page).0, WalkOwner(down.0, owner1, down.1, d + 1, page));
    }
  }

  /** The steps down create the tables on the way to the page and translate no page differently. */
  lemma {:induction false} WalkOthers(vm: Vm, owner: map<nat, Node>, table: nat, d: nat, page: nat, k: nat, other: nat)
    requires Ready(vm, owner, page) && d <= 3 && TableOf(vm, d, page) == Some(table) && k <= 3 && other < PAGES
    ensures var vm1 := Walk(vm, table, d, page).0;
            && Translate(vm1, other) == Translate(vm, other)
            && (TableOf(vm1, k, other).Some? <==>
                TableOf(vm, k, other).Some? || (d < k && Prefix(other, k) == Prefix(page, k)))
    decreases 3 - d
  {
    hide Tree, Ready, Missing, Takes, Slot, Descend, StepReady, Translate;
    if d < 3 {
      DownReady(vm, owner, d, page);
      DownTranslate(vm, owner, d, page, other);
      DownTables(vm, owner, d, page, k, other);
      var down := Descend(vm, table, Slot(page, d));
      WalkOthers(down.0, Grown(vm, owner, d, page), down.1, d + 1, page, k, other);
    }
  }

  /** Tables that are there stay where they are. */
  lemma DownKeeps(vm: Vm, owner: map<nat, Node>, d: nat, page: nat, k: nat, other: nat)
    requires StepReady(vm, owner, d, page) && k <= 3 && other < PAGES && TableOf(vm, k, other).Some?
    ensures TableOf(Down(vm, d, page), k, other) == TableOf(vm, k, other)
  {
    DownTables(vm, owner, d, page, k, other);
    if k == d + 1 && Prefix(other, k) == Prefix(page, k) {
      SamePrefix(vm, k, page, other);
    }
  }

  /** No table is missing once the last one is there. */
  lemma NoneMissing(vm: Vm, page: nat)
    requires TableOf(vm, 3, page).Some?
    ensures Missing(vm, page) == 0
  {
    assert TableOf(vm, 2, page).Some?;
    assert TableOf(vm, 1, page).Some?;
  }

  /** `MapMemory` keeps the tree, maps its page, leaves every other page as it was, and takes exactly the missing tables
      from the allocator. */
  lemma {:induction false} MapRefines(vm: Vm, owner: map<nat, Node>, page: nat, frame: nat, other: nat)
    requires Ready(vm, owner, page) && other < PAGES
    ensures var vm1, owner1 := MapPage(vm, page, frame), MapOwner(vm, owner, page);
            && Tree(vm1, owner1) && vm1.pfa.Get(0)
            && TakesTables(vm, owner, vm1, owner1)
            && Translate(vm1, other) == (if other == page then To(frame, true) else Translate(vm, other))
            && Takes(vm, owner, vm1, owner1, Missing(vm, page))
  {
    hide Tree, Ready, Takes, TakesTables, Walk, WalkOwner, Missing, Put, Translate;
    ReadyTree(vm, owner, page);
    WalkReady(vm, owner, vm.root, 0, page);
    WalkTakes(vm, owner, vm.root, 0, page);
    WalkOthers(vm, owner, vm.root, 0, page, 3, other);
    var down := Walk(vm, vm.root, 0, page);
    NoneMissing(down.0, page);
    ReadyTree(down.0, MapOwner(vm, owner, page), page);
    LeafMaps(down.0, MapOwner(vm, owner, page), page, frame, other);
    TakesLeaf(vm, owner, down.0, MapOwner(vm, owner, page), MapPage(vm, page, frame), Missing(vm, page));
  }

  lemma ReadyTree(vm: Vm, owner: map<nat, Node>, page: nat)
    requires Ready(vm, owner, page)
    ensures Tree(vm, owner) && page < PAGES && vm.pfa.Get(0)
  {
  }

  /** What a call takes is taken before it writes the last entry. */
  lemma TakesLeaf(vm: Vm, owner: map<nat, Node>, vm1: Vm, owner1: map<nat, Node>, vm2: Vm, tables: nat)
    requires TakesTables(vm, owner, vm1, owner1) && Takes(vm, owner, vm1, owner1, tables)
    requires vm2.root == vm1.root && vm2.pfa == vm1.pfa
    ensures TakesTables(vm, owner, vm2, owner1) && Takes(vm, owner, vm2, owner1, tables)
  {
  }

  /** It creates exactly the tables on the way to its page. */
  lemma {:induction false} MapCreates(vm: Vm, owner: map<nat, Node>, page: nat, frame: nat, k: nat, other: nat)
    requires Ready(vm, owner, page) && 1 <= k <= 3 && other < PAGES
    ensures TableOf(MapPage(vm, page, frame), k, other).Some? <==>
            TableOf(vm, k, other).Some? || Prefix(other, k) == Prefix(page, k)
  {
    WalkReady(vm, owner, vm.root, 0, page);
    WalkOthers(vm, owner, vm.root, 0, page, k, other);
    LeafTables(Walk(vm, vm.root, 0, page).0, MapOwner(vm, owner, page), page, frame, k, other);
  }

  /** Nothing but tables is read as a table. */
  predicate OnlyTables(vm: Vm, owner: map<nat, Node>) {
    forall f :: f in vm.ram ==> f in owner
  }

  lemma DownOnly(vm: Vm, owner: map<nat, Node>, d: nat, page: nat)
    requires StepReady(vm, owner, d, page) && OnlyTables(vm, owner)
    ensures OnlyTables(Down(vm, d, page), Grown(vm, owner, d, page))
  {
    OnPath(vm, owner, d, page);
    DownIs(vm, d, page);
    GrownIs(vm, owner, d, page);
    hide Down, Grown, Tree, Request, TableOf;
  }

  lemma {:induction false} WalkOnly(vm: Vm, owner: map<nat, Node>, table: nat, d: nat, page: nat)
    requires Ready(vm, owner, page) && OnlyTables(vm, owner) && d <= 3 && TableOf(vm, d, page) == Some(table)
    ensures OnlyTables(Walk(vm, table, d, page).0, WalkOwner(vm, owner, table, d, page))
    decreases 3 - d
  {
    hide Tree, Ready, Missing, Takes, Prefix, Slot, Descend, StepReady, OnlyTables;
    if d < 3 {
      DownReady(vm, owner, d, page);
      DownOnly(vm, owner, d, page);
      var down := Descend(vm, table, Slot(page, d));
      WalkOnly(down.0, Grown(vm, owner, d, page), down.1, d + 1, page);
    }
  }

  lemma MapOnly(vm: Vm, owner: map<nat, Node>, page: nat, frame: nat)
    requires Ready(vm, owner, page) && OnlyTables(vm, owner)
    ensures OnlyTables(MapPage(vm, page, frame), MapOwner(vm, owner, page))
  {
    WalkReady(vm, owner, vm.root, 0, page);
    WalkOnly(vm, owner, vm.root, 0, page);
    var down := Walk(vm, vm.root, 0, page);
    OnPath(down.0, MapOwner(vm, owner, page), 3, page);
  }

  // ---------- any run of calls ----------

  datatype Call = Call(virtualMemory: nat, physicalMemory: nat)

  /** An entry holds 40 bits of the frame's number. */
  function FrameOfCall(c: Call): nat {
    c.physicalMemory / PAGE % FRAMES
  }

  function MapCall(vm: Vm, c: Call): Vm {
    MapPage(vm, PageOf(c.virtualMemory), FrameOfCall(c))
  }

  function RunMap(vm: Vm, calls: seq<Call>): Vm {
    if calls == [] then vm else MapCall(RunMap(vm, calls[..|calls| - 1]), calls[|calls| - 1])
  }

  function RunOwner(vm: Vm, owner: map<nat, Node>, calls: seq<Call>): map<nat, Node> {
    if calls == [] then owner
    else
      var init := calls[..|calls| - 1];
      MapOwner(RunMap(vm, init), RunOwner(vm, owner, init), PageOf(calls[|calls| - 1].virtualMemory))
  }

  /** Tables a run has to create. */
  function Needs(vm: Vm, calls: seq<Call>): nat {
    if calls == [] then 0
    else
      var init := calls[..|calls| - 1];
      Needs(vm, init) + Missing(RunMap(vm, init), PageOf(calls[|calls| - 1].virtualMemory))
  }

  /** The abstract map: the last call for a page wins, and a page without a call is translated as before. */
  function Folded(before: Translation, calls: seq<Call>, page: nat): Translation {
    if calls == [] then before
    else
      var c := calls[|calls| - 1];
      if PageOf(c.virtualMemory) == page then To(FrameOfCall(c), true)
      else Folded(before, calls[..|calls| - 1], page)
  }

  lemma TakesTransitive(vm: Vm, owner: map<nat, Node>, vm1: Vm, owner1: map<nat, Node>, vm2: Vm, owner2: map<nat, Node>)
    requires TakesTables(vm, owner, vm1, owner1) && TakesTables(vm1, owner1, vm2, owner2)
    ensures TakesTables(vm, owner, vm2, owner2)
  {
  }

  /** Over any run that needs no more tables than there are frames, and the one in frame 0, the tables stay an unaliased
      tree, the walk of every page equals the folded map, and exactly the tables the run needs are taken. */
  lemma {:induction false} RunRefines(vm: Vm, owner: map<nat, Node>, calls: seq<Call>, page: nat)
    requires Tree(vm, owner) && vm.pfa.Get(0) && page < PAGES
    requires Needs(vm, calls) <= Supply(vm.pfa) + Spare(owner)
    ensures var vm1, owner1 := RunMap(vm, calls), RunOwner(vm, owner, calls);
            && Tree(vm1, owner1) && vm1.pfa.Get(0)
            && TakesTables(vm, owner, vm1, owner1)
            && Translate(vm1, page) == Folded(Translate(vm, page), calls, page)
            && Takes(vm, owner, vm1, owner1, Needs(vm, calls))
  {
    hide *;
    TreeValid(vm, owner);
    if calls == [] {
      RunNone(vm, owner);
      FoldedNone(Translate(vm, page), page);
    } else {
      var init, c := calls[..|calls| - 1], calls[|calls| - 1];
      assert calls == init + [c];
      RunLast(vm, init, c);
      FoldedLast(Translate(vm, page), init, c, page);
      RunRefines(vm, owner, init, page);
      RunMore(vm, owner, init, c, page);
    }
  }

  lemma FoldedNone(before: Translation, page: nat)
    ensures Folded(before, [], page) == before
  {
  }

  lemma FoldedLast(before: Translation, calls: seq<Call>, c: Call, page: nat)
    ensures Folded(before, calls + [c], page) ==
            if PageOf(c.virtualMemory) == page then To(FrameOfCall(c), true) else Folded(before, calls, page)
  {
    assert (calls + [c])[..|calls|] == calls;
  }

  lemma RunNone(vm: Vm, owner: map<nat, Node>)
    requires Tree(vm, owner)
    ensures RunMap(vm, []) == vm && RunOwner(vm, owner, []) == owner && Needs(vm, []) == 0
    ensures TakesTables(vm, owner, vm, owner) && Takes(vm, owner, vm, owner, 0)
  {
  }

  lemma RunMore(vm: Vm, owner: map<nat, Node>, calls: seq<Call>, c: Call, page: nat)
    requires page < PAGES
    requires var vm1, owner1 := RunMap(vm, calls), RunOwner(vm, owner, calls);
             && Tree(vm1, owner1) && vm1.pfa.Get(0)
             && TakesTables(vm, owner, vm1, owner1)
             && Takes(vm, owner, vm1, owner1, Needs(vm, calls))
    requires vm.pfa.Valid() && Needs(vm, calls + [c]) <= Supply(vm.pfa) + Spare(owner)
    ensures var all := calls + [c];
            var vm2, owner2 := RunMap(vm, all), RunOwner(vm, owner, all);
            && Tree(vm2, owner2) && vm2.pfa.Get(0)
            && TakesTables(vm, owner, vm2, owner2)
            && Translate(vm2, page) == (if PageOf(c.virtualMemory) == page then To(FrameOfCall(c), true)
                                        else Translate(RunMap(vm, calls), page))
            && Takes(vm, owner, vm2, owner2, Needs(vm, all))
  {
    hide *;
    var vm1, owner1, p := RunMap(vm, calls), RunOwner(vm, owner, calls), PageOf(c.virtualMemory);
    OwnerLast(vm, owner, calls, c);
    RunLast(vm, calls, c);
    PageInRange(c.virtualMemory);
    TakesLeft(vm, owner, vm1, owner1, Needs(vm, calls));
    CallIs(vm1, c);
    ReadyIf(vm1, owner1, p);
    MapRefines(vm1, owner1, p, FrameOfCall(c), page);
    var vm2, owner2 := RunMap(vm, calls + [c]), RunOwner(vm, owner, calls + [c]);
    TakesBoth(vm, owner, vm1, owner1, vm2, owner2, Needs(vm, calls), Missing(vm1, p));
    TakesTransitive(vm, owner, vm1, owner1, vm2, owner2);
  }

  lemma OwnerLast(vm: Vm, owner: map<nat, Node>, calls: seq<Call>, c: Call)
    ensures RunOwner(vm, owner, calls + [c]) ==
            MapOwner(RunMap(vm, calls), RunOwner(vm, owner, calls), PageOf(c.virtualMemory))
  {
    assert (calls + [c])[..|calls|] == calls;
  }

  lemma CallIs(vm: Vm, c: Call)
    ensures MapCall(vm, c) == MapPage(vm, PageOf(c.virtualMemory), FrameOfCall(c))
  {
  }

  lemma ReadyIf(vm: Vm, owner: map<nat, Node>, page: nat)
    requires Tree(vm, owner) && page < PAGES && vm.pfa.Get(0)
    ensures Ready(vm, owner, page) <==> Missing(vm, page) <= Supply(vm.pfa) + Spare(owner)
  {
  }

  lemma PageInRange(virtualMemory: nat)
    ensures PageOf(virtualMemory) < PAGES
  {
  }

  lemma TakesLeft(vm: Vm, owner: map<nat, Node>, vm1: Vm, owner1: map<nat, Node>, tables: nat)
    requires Takes(vm, owner, vm1, owner1, tables)
    ensures vm.pfa.Valid() && vm1.pfa.Valid()
    ensures Supply(vm1.pfa) + Spare(owner1) + tables == Supply(vm.pfa) + Spare(owner)
    ensures tables <= Supply(vm.pfa) ==>
              && Supply(vm1.pfa) == Supply(vm.pfa) - tables && Clear(vm1.pfa.bits) == Clear(vm.pfa.bits) - tables
              && Spare(owner1) == Spare(owner)
  {
    hide Supply, Clear;
  }

  // ---------- the allocator after a run ----------

  lemma {:induction false} RequestsMore(p: Pfa, n: nat)
    ensures Requests(Request(p).0, n) == Requests(p, n + 1)
  {
    hide Request;
    if n > 0 {
      RequestsMore(p, n - 1);
    }
  }

  lemma {:induction false} WalkRequests(vm: Vm, owner: map<nat, Node>, table: nat, d: nat, page: nat)
    requires Ready(vm, owner, page) && d <= 3 && TableOf(vm, d, page) == Some(table)
    ensures Walk(vm, table, d, page).0.pfa == Requests(vm.pfa, Missing(vm, page))
    decreases 3 - d
  {
    hide *;
    WalkNext(vm, table, d, page);
    if d == 3 {
      NoneMissing(vm, page);
      RequestsNone(vm.pfa);
    } else {
      DownReady(vm, owner, d, page);
      DownPfa(vm, d, page);
      WalkRequests(Down(vm, d, page), Grown(vm, owner, d, page), Descend(vm, table, Slot(page, d)).1, d + 1, page);
      RequestsMore(vm.pfa, Missing(Down(vm, d, page), page));
    }
  }

  lemma WalkNext(vm: Vm, table: nat, d: nat, page: nat)
    requires d <= 3
    ensures Walk(vm, table, d, page) ==
            if d == 3 then (vm, table)
            else
              var down := Descend(vm, table, Slot(page, d));
              Walk(down.0, down.1, d + 1, page)
  {
    hide Descend, Slot;
  }

  lemma DownPfa(vm: Vm, d: nat, page: nat)
    requires d < 3 && TableOf(vm, d, page).Some?
    ensures Down(vm, d, page) == Descend(vm, TableOf(vm, d, page).value, Slot(page, d)).0
    ensures Down(vm, d, page).pfa == if Absent(vm, d + 1, page) == 0 then vm.pfa else Request(vm.pfa).0
    ensures Absent(vm, d + 1, page) <= 1
  {
    DownIs(vm, d, page);
    hide Descend, Request, TableOf;
  }

  /** A run that the frames last for makes one request for each table. */
  lemma {:induction false} RunRequests(vm: Vm, owner: map<nat, Node>, calls: seq<Call>)
    requires Tree(vm, owner) && vm.pfa.Get(0) && Needs(vm, calls) <= Supply(vm.pfa) + Spare(owner)
    ensures RunMap(vm, calls).pfa == Requests(vm.pfa, Needs(vm, calls))
  {
    hide *;
    TreeValid(vm, owner);
    if calls == [] {
      RunNone(vm, owner);
      RequestsNone(vm.pfa);
    } else {
      var init, c := calls[..|calls| - 1], calls[|calls| - 1];
      assert calls == init + [c];
      RunLast(vm, init, c);
      RunRequests(vm, owner, init);
      var vm1, owner1, page := RunMap(vm, init), RunOwner(vm, owner, init), PageOf(c.virtualMemory);
      PageInRange(c.virtualMemory);
      RunRefines(vm, owner, init, page);
      TakesLeft(vm, owner, vm1, owner1, Needs(vm, init));
      ReadyIf(vm1, owner1, page);
      MapRequests(vm1, owner1, page, FrameOfCall(c));
      CallIs(vm1, c);
      RequestsJoin(vm.pfa, Needs(vm, init), Missing(vm1, page));
    }
  }

  lemma RequestsNone(p: Pfa)
    ensures Requests(p, 0) == p
  {
  }

  lemma MapRequests(vm: Vm, owner: map<nat, Node>, page: nat, frame: nat)
    requires Ready(vm, owner, page)
    ensures MapPage(vm, page, frame).pfa == Requests(vm.pfa, Missing(vm, page))
  {
    WalkRequests(vm, owner, vm.root, 0, page);
    hide Ready, Walk, Missing, Requests;
  }

  lemma {:induction false} RequestsJoin(p: Pfa, m: nat, n: nat)
    ensures Requests(Requests(p, m), n) == Requests(p, m + n)
  {
    hide Request;
    if n > 0 {
      RequestsJoin(p, m, n - 1);
    }
  }

  // ---------- mapping pages 0 .. n - 1 in order ----------

  /** A zeroed root table in a locked frame. */
  predicate Empty(vm: Vm) {
    && vm.pfa.Valid() && |vm.pfa.bits| <= FRAMES
    && vm.root in vm.ram && vm.ram[vm.root] == ZeroTable()
    && vm.pfa.Get(vm.root) && vm.pfa.Get(0)
  }

  function RootOnly(vm: Vm): map<nat, Node> {
    map[vm.root := Node(0, 0)]
  }

  lemma {:induction false} EmptyTree(vm: Vm, page: nat)
    requires Empty(vm)
    ensures Tree(vm, RootOnly(vm))
    ensures Translate(vm, page) == Fault
    ensures forall k :: 1 <= k <= 3 ==> TableOf(vm, k, page).None?
  {
    assert TableOf(vm, 1, page).None?;
    assert TableOf(vm, 2, page).None?;
  }

  /** The calls of `InitialisePaging`: page k to frame k for k below n. */
  function Identity(n: nat): (calls: seq<Call>)
    ensures |calls| == n
  {
    if n == 0 then [] else Identity(n - 1) + [Call((n - 1) * PAGE, (n - 1) * PAGE)]
  }

  lemma IdentityLast(vm: Vm, n: nat)
    requires n < PAGES
    ensures RunMap(vm, Identity(n + 1)) == MapPage(RunMap(vm, Identity(n)), n, n)
    ensures Needs(vm, Identity(n + 1)) == Needs(vm, Identity(n)) + Missing(RunMap(vm, Identity(n)), n)
  {
    var last := Call(n * PAGE, n * PAGE);
    PageAddress(n);
    RunLast(vm, Identity(n), last);
    assert MapCall(RunMap(vm, Identity(n)), last) == MapPage(RunMap(vm, Identity(n)), n, n);
  }

  lemma PageAddress(n: nat)
    requires n < PAGES
    ensures PageOf(n * PAGE) == n && n * PAGE / PAGE == n && FrameOfCall(Call(n * PAGE, n * PAGE)) == n
  {
  }

  lemma RunLast(vm: Vm, calls: seq<Call>, c: Call)
    ensures RunMap(vm, calls + [c]) == MapCall(RunMap(vm, calls), c)
    ensures Needs(vm, calls + [c]) == Needs(vm, calls) + Missing(RunMap(vm, calls), PageOf(c.virtualMemory))
  {
    assert (calls + [c])[..|calls|] == calls;
  }

  /** Whether page n is the first of its table of depth k. */
  function Begins(n: nat, k: nat): nat
    requires k <= 3
  {
    if Prefix(n, k) * Span(k) < n then 0 else 1
  }

  /** Tables begun by pages 0 .. n - 1, page by page. */
  function TablesFor(n: nat): nat {
    if n == 0 then 0 else TablesFor(n - 1) + Begins(n - 1, 1) + Begins(n - 1, 2) + Begins(n - 1, 3)
  }

  predicate Room(vm: Vm, n: nat) {
    Empty(vm) && n <= PAGES && TablesFor(n) <= Supply(vm.pfa) + Spare(RootOnly(vm))
  }

  /** After pages 0 .. n - 1 a table is there exactly if its first page is below n. */
  predicate TablesUpTo(vm: Vm, n: nat, page: nat) {
    forall k :: 1 <= k <= 3 ==> (TableOf(vm, k, page).Some? <==> Prefix(page, k) * Span(k) < n)
  }

  lemma {:induction false} IdentityTables(vm: Vm, n: nat, page: nat)
    requires Room(vm, n) && page < PAGES
    ensures Needs(vm, Identity(n)) == TablesFor(n)
    ensures TablesUpTo(RunMap(vm, Identity(n)), n, page)
  {
    hide MapPage, TablesUpTo;
    if n == 0 {
      EmptyUpTo(vm, page);
      assert RunMap(vm, Identity(n)) == vm;
    } else {
      var last := n - 1;
      IdentityTables(vm, last, last);
      IdentityTables(vm, last, page);
      IdentityStep(vm, last, page);
    }
  }

  lemma EmptyUpTo(vm: Vm, page: nat)
    requires Empty(vm)
    ensures TablesUpTo(vm, 0, page)
  {
    EmptyTree(vm, page);
  }

  /** One page more. */
  lemma IdentityNext(vm: Vm, n: nat)
    requires n < PAGES && Needs(vm, Identity(n)) == TablesFor(n) && TablesUpTo(RunMap(vm, Identity(n)), n, n)
    ensures Needs(vm, Identity(n + 1)) == TablesFor(n + 1)
  {
    IdentityLast(vm, n);
    hide RunMap, Needs, Identity, TableOf, Prefix, Span;
  }

  lemma IdentityStep(vm: Vm, n: nat, page: nat)
    requires Room(vm, n + 1) && page < PAGES
    requires Needs(vm, Identity(n)) == TablesFor(n)
    requires TablesUpTo(RunMap(vm, Identity(n)), n, n)
    requires TablesUpTo(RunMap(vm, Identity(n)), n, page)
    ensures Needs(vm, Identity(n + 1)) == TablesFor(n + 1)
    ensures TablesUpTo(RunMap(vm, Identity(n + 1)), n + 1, page)
  {
    hide MapPage, Tree, Identity;
    var vm1, owner1 := RunMap(vm, Identity(n)), RunOwner(vm, RootOnly(vm), Identity(n));
    IdentityLast(vm, n);
    IdentityNext(vm, n);
    assert Ready(vm1, owner1, n) by {
      EmptyTree(vm, n);
      RunRefines(vm, RootOnly(vm), Identity(n), n);
    }
    forall k | 1 <= k <= 3
      ensures TableOf(MapPage(vm1, n, n), k, page).Some? <==> Prefix(page, k) * Span(k) < n + 1
    {
      MapCreates(vm1, owner1, n, n, k, page);
      PrefixStep(page, n, k);
    }
  }

  /** The frames last for the run exactly if they last for the tables begun. */
  lemma {:induction false} IdentityNeeds(vm: Vm, n: nat)
    requires Empty(vm) && n <= PAGES
    ensures Needs(vm, Identity(n)) <= Supply(vm.pfa) + Spare(RootOnly(vm)) <==>
            TablesFor(n) <= Supply(vm.pfa) + Spare(RootOnly(vm))
  {
    hide *;
    RoomIs(vm, n);
    if Room(vm, n) {
      SomePage();
      IdentityTables(vm, n, 0);
    } else if n > 0 {
      RoomIs(vm, n - 1);
      IdentityNeeds(vm, n - 1);
      IdentityLast(vm, n - 1);
      if Room(vm, n - 1) {
        IdentityTables(vm, n - 1, n - 1);
        IdentityNext(vm, n - 1);
      }
    }
  }

  lemma SomePage()
    ensures 0 < PAGES
  {
  }

  lemma RoomIs(vm: Vm, n: nat)
    requires Empty(vm) && n <= PAGES
    ensures vm.pfa.Valid() && TablesFor(0) == 0
    ensures Room(vm, n) <==> TablesFor(n) <= Supply(vm.pfa) + Spare(RootOnly(vm))
  {
    hide Supply;
  }

  lemma PrefixStep(page: nat, last: nat, k: nat)
    requires 1 <= k <= 3
    ensures Prefix(page, k) * Span(k) < last + 1 <==>
            Prefix(page, k) * Span(k) < last || Prefix(page, k) == Prefix(last, k)
  {
  }

  /** Mapping pages 0 .. n - 1 in order into an empty PML4 takes exactly one table frame for every 2^9, every 2^18 and
      every 2^27 pages begun, and translates each of the pages to its own frame and no other page at all. */
  lemma IdentityMap(vm: Vm, n: nat, page: nat)
    requires Empty(vm) && n <= PAGES && page < PAGES
    requires Ceil(n, 0x200) + Ceil(n, 0x4_0000) + Ceil(n, 0x800_0000) <= Supply(vm.pfa)
    ensures var vm1 := RunMap(vm, Identity(n));
            && Clear(vm1.pfa.bits) == Clear(vm.pfa.bits) - Ceil(n, 0x200) - Ceil(n, 0x4_0000) - Ceil(n, 0x800_0000)
            && Translate(vm1, page) == if page < n then To(page, true) else Fault
  {
    TablesForIs(n);
    EmptyTree(vm, page);
    IdentityTables(vm, n, page);
    RunRefines(vm, RootOnly(vm), Identity(n), page);
    TakesLeft(vm, RootOnly(vm), RunMap(vm, Identity(n)), RunOwner(vm, RootOnly(vm), Identity(n)), Needs(vm, Identity(n)));
    IdentityFolded(n, page);
  }

  function Ceil(n: nat, d: nat): nat
    requires d > 0
  {
    (n + d - 1) / d
  }

  lemma {:induction false} TablesForIs(n: nat)
    ensures TablesFor(n) == Ceil(n, 0x200) + Ceil(n, 0x4_0000) + Ceil(n, 0x800_0000)
  {
    hide *;
    if n > 0 {
      TablesForIs(n - 1);
      TablesForStep(n - 1);
    } else {
      NoTables();
    }
  }

  lemma NoTables()
    ensures TablesFor(0) == Ceil(0, 0x200) + Ceil(0, 0x4_0000) + Ceil(0, 0x800_0000)
  {
  }

  lemma TablesForStep(n: nat)
    requires TablesFor(n) == Ceil(n, 0x200) + Ceil(n, 0x4_0000) + Ceil(n, 0x800_0000)
    ensures TablesFor(n + 1) == Ceil(n + 1, 0x200) + Ceil(n + 1, 0x4_0000) + Ceil(n + 1, 0x800_0000)
  {
    hide Ceil, Begins;
    CeilStep(n, 1);
    CeilStep(n, 2);
    CeilStep(n, 3);
  }

  lemma CeilStep(n: nat, k: nat)
    requires 1 <= k <= 3
    ensures Ceil(n + 1, Span(k)) == Ceil(n, Span(k)) + Begins(n, k)
  {
  }

  lemma {:induction false} IdentityFolded(n: nat, page: nat)
    requires n <= PAGES
    ensures Folded(Fault, Identity(n), page) == if page < n then To(page, true) else Fault
  {
    hide Folded, Identity, FrameOfCall, PageOf;
    IdentityIs(n);
    if n > 0 {
      var last := Call((n - 1) * PAGE, (n - 1) * PAGE);
      PageAddress(n - 1);
      FoldedLast(Fault, Identity(n - 1), last, page);
      IdentityFolded(n - 1, page);
    } else {
      FoldedNone(Fault, page);
    }
  }

  lemma IdentityIs(n: nat)
    ensures Identity(n) == if n == 0 then [] else Identity(n - 1) + [Call((n - 1) * PAGE, (n - 1) * PAGE)]
  {
  }
}
