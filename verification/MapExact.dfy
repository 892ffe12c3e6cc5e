/** Exactly when `MapMemory` maps its page and no other and leaves a tree, frames or no frames. */
module MapExact {
  import opened Common
  import opened PageEntries
  import opened FrameSpec
  import opened TableSpec
  import opened MapSpec

  const NULL_ENTRY := Entry(true, true, 0)

  /** What the walk of a page must be after the call. */
  function Expected(vm: Vm, page: nat, frame: nat, other: nat): Translation {
    if other == page then To(frame, true) else Translate(vm, other)
  }

  /** A page with four given indices. */
  function PageWith(a: nat, b: nat, c: nat, e: nat): (page: nat)
    requires a < SLOTS && b < SLOTS && c < SLOTS && e < SLOTS
    ensures page < PAGES
  {
    a * Span(1) + b * Span(2) + c * Span(3) + e
  }

  lemma PageWithSlots(a: nat, b: nat, c: nat, e: nat)
    requires a < SLOTS && b < SLOTS && c < SLOTS && e < SLOTS
    ensures var page := PageWith(a, b, c, e);
            Slot(page, 0) == a && Slot(page, 1) == b && Slot(page, 2) == c && Slot(page, 3) == e
  {
    SplitIsBijective(PageWith(a, b, c, e), a, b, c, e);
  }

  /** Pages with the same indices down to a depth share the prefix there. */
  lemma SharesPrefix(page: nat, other: nat, d: nat)
    requires page < PAGES && other < PAGES && d <= 4
    requires forall k :: 0 <= k < d ==> Slot(page, k) == Slot(other, k)
    ensures Prefix(page, d) == Prefix(other, d)
  {
    if d > 0 {
      SharesPrefix(page, other, d - 1);
      PrefixSlot(page, d - 1);
      PrefixSlot(other, d - 1);
    }
  }

  // ---------- tables that are reached ----------

  /** Some walk comes to the table. */
  ghost predicate Reaches(vm: Vm, f: nat) {
    exists k, q :: 0 <= k <= 3 && 0 <= q < PAGES && TableOf(vm, k, q) == Some(f)
  }

  /** Frame 0 is at most a last table. */
  predicate NullIsLast(owner: map<nat, Node>) {
    0 in owner ==> owner[0].depth == 3
  }

  /** Memory holds no entries but those of tables that some walk comes to, as it does when the tables were made by
      `MapMemory`. */
  ghost predicate Reached(vm: Vm, owner: map<nat, Node>) {
    OnlyTables(vm, owner) && NullIsLast(owner) && forall f :: f in owner ==> Reaches(vm, f)
  }

  lemma ReachesAt(vm: Vm, k: nat, q: nat)
    requires k <= 3 && q < PAGES && TableOf(vm, k, q).Some?
    ensures Reaches(vm, TableOf(vm, k, q).value)
  {
  }

  lemma ReachedAt(vm: Vm, owner: map<nat, Node>, f: nat) returns (k: nat, q: nat)
    requires Reached(vm, owner) && f in owner
    ensures k <= 3 && q < PAGES && TableOf(vm, k, q) == Some(f)
  {
    assert Reaches(vm, f);
    k, q :| k <= 3 && q < PAGES && TableOf(vm, k, q) == Some(f);
  }

  lemma RootReached(vm: Vm)
    requires vm.root != 0 && vm.ram.Keys == {vm.root}
    ensures Reached(vm, RootOnly(vm))
  {
    assert TableOf(vm, 0, 0) == Some(vm.root);
  }

  /** A step down keeps this, but for a first or second table in frame 0. */
  lemma DownReached(vm: Vm, owner: map<nat, Node>, d: nat, page: nat)
    requires StepReady(vm, owner, d, page) && Reached(vm, owner)
    requires TableOf(vm, d + 1, page).None? ==> Request(vm.pfa).1 != 0 || d == 2
    ensures Reached(Down(vm, d, page), Grown(vm, owner, d, page))
  {
    hide *;
    StepReadyIs(vm, owner, d, page);
    var vm1, owner1 := Down(vm, d, page), Grown(vm, owner, d, page);
    ReachedIs(vm, owner);
    ReachedIs(vm1, owner1);
    DownOnly(vm, owner, d, page);
    GrownNull(vm, owner, d, page);
    forall f | f in owner1
      ensures Reaches(vm1, f)
    {
      if f in owner {
        var k, q := ReachedAt(vm, owner, f);
        DownKeeps(vm, owner, d, page, k, q);
        ReachesAt(vm1, k, q);
      } else {
        GrownIs(vm, owner, d, page);
        DownTables(vm, owner, d, page, d + 1, page);
        NewFrameOf(vm, d, page);
        ReachesAt(vm1, d + 1, page);
      }
    }
  }

  lemma ReachedIs(vm: Vm, owner: map<nat, Node>)
    ensures Reached(vm, owner) <==> OnlyTables(vm, owner) && NullIsLast(owner) && forall f :: f in owner ==> Reaches(vm, f)
  {
    hide OnlyTables, NullIsLast, Reaches;
  }

  lemma GrownNull(vm: Vm, owner: map<nat, Node>, d: nat, page: nat)
    requires StepReady(vm, owner, d, page) && NullIsLast(owner)
    requires TableOf(vm, d + 1, page).None? ==> Request(vm.pfa).1 != 0 || d == 2
    ensures NullIsLast(Grown(vm, owner, d, page))
  {
    if TableOf(vm, d + 1, page).None? {
      TableFrame(vm, owner);
    }
    hide Tree, Request, TableOf;
  }

  lemma NewFrameOf(vm: Vm, d: nat, page: nat)
    requires d < 3 && TableOf(vm, d, page).Some? && TableOf(vm, d + 1, page).None?
    ensures Descend(vm, TableOf(vm, d, page).value, Slot(page, d)).1 == Request(vm.pfa).1 / PAGE
  {
  }

  /** Below a missing table all are missing. */
  lemma NoneBelow(vm: Vm, d: nat, page: nat)
    requires d < 3 && TableOf(vm, d, page).Some? && TableOf(vm, d + 1, page).None?
    ensures Missing(vm, page) == 3 - d
  {
    if d == 0 {
      assert TableOf(vm, 2, page).None?;
    } else if d == 2 {
      assert TableOf(vm, 1, page).Some?;
    }
  }

  lemma {:induction false} WalkReached(vm: Vm, owner: map<nat, Node>, table: nat, d: nat, page: nat)
    requires Ready(vm, owner, page) && d <= 3 && TableOf(vm, d, page) == Some(table) && Reached(vm, owner)
    ensures Reached(Walk(vm, table, d, page).0, WalkOwner(vm, owner, table, d, page))
    decreases 3 - d
  {
    hide Tree, Takes, Prefix, Slot, Descend, StepReady, Reached, Request, Missing;
    if d < 3 {
      DownReady(vm, owner, d, page);
      if TableOf(vm, d + 1, page).None? {
        NoneBelow(vm, d, page);
        ReadyTree(vm, owner, page);
        TreeValid(vm, owner);
        RequestSupply(vm.pfa);
      }
      hide Supply, Ready;
      DownReached(vm, owner, d, page);
      var down := Descend(vm, table, Slot(page, d));
      WalkReached(down.0, Grown(vm, owner, d, page), down.1, d + 1, page);
    }
  }

  lemma LeafReached(vm: Vm, owner: map<nat, Node>, page: nat, frame: nat)
    requires Tree(vm, owner) && page < PAGES && TableOf(vm, 3, page).Some? && Reached(vm, owner)
    ensures Reached(Leaf(vm, TableOf(vm, 3, page).value, page, frame), owner)
  {
    var vm1 := Leaf(vm, TableOf(vm, 3, page).value, page, frame);
    OnPath(vm, owner, 3, page);
    hide Tree, TableOf, Reaches;
    forall f | f in owner
      ensures Reaches(vm1, f)
    {
      var k, q := ReachedAt(vm, owner, f);
      LeafTables(vm, owner, page, frame, k, q);
      ReachesAt(vm1, k, q);
    }
  }

  /** A call that the frames last for, with the one in frame 0, keeps this. */
  lemma MapReached(vm: Vm, owner: map<nat, Node>, page: nat, frame: nat)
    requires Ready(vm, owner, page) && Reached(vm, owner)
    ensures Reached(MapPage(vm, page, frame), MapOwner(vm, owner, page))
  {
    hide Ready, Tree, Reached, Missing, Takes, Leaf, Walk, WalkOwner;
    WalkReady(vm, owner, vm.root, 0, page);
    WalkReached(vm, owner, vm.root, 0, page);
    var down := Walk(vm, vm.root, 0, page);
    ReadyTree(down.0, MapOwner(vm, owner, page), page);
    LeafReached(down.0, MapOwner(vm, owner, page), page, frame);
  }

  // ---------- a table for which no frame is left ----------

  /** Frame 0 when it has been made a table two or three times in one call: each time it was zeroed, and what is left is
      the link to itself and the page's entry. */
  function NullTable(page: nat, frame: nat): Table {
    ZeroTable()[Slot(page, 2) := NULL_ENTRY][Slot(page, 3) := Entry(true, true, frame)]
  }

  /** vm1 is vm with frame 0 linked as the missing table below the page's table of depth d, whatever frame 0 holds. */
  ghost predicate NullLinked(vm: Vm, vm1: Vm, d: nat, page: nat)
    requires d < 3
  {
    && TableOf(vm, d, page).Some? && TableOf(vm, d + 1, page).None? && vm1.root == vm.root
    && var t := TableOf(vm, d, page).value;
    && t != 0 && TableAt(vm1.ram, t) == TableAt(vm.ram, t)[Slot(page, d) := NULL_ENTRY]
    && forall g :: g != 0 && g != t ==> TableAt(vm1.ram, g) == TableAt(vm.ram, g)
  }

  /** No frame is left for the tables below the page's table of depth d. */
  predicate Drained(vm: Vm, owner: map<nat, Node>, d: nat, page: nat) {
    && Tree(vm, owner) && vm.pfa.Get(0) && NullIsLast(owner) && page < PAGES
    && d < 3 && TableOf(vm, d, page).Some? && TableOf(vm, d + 1, page).None? && Supply(vm.pfa) == 0
  }

  /** What the call makes of it. */
  function Finished(vm: Vm, d: nat, page: nat, frame: nat): Vm
    requires d <= 3 && TableOf(vm, d, page).Some?
  {
    var end := Walk(vm, TableOf(vm, d, page).value, d, page);
    Leaf(end.0, end.1, page, frame)
  }

  /** NULL for every request. */
  lemma DrainedDescend(vm: Vm, table: nat, i: nat)
    requires vm.pfa.Valid() && vm.pfa.Get(0) && Supply(vm.pfa) == 0 && i < SLOTS && !TableAt(vm.ram, table)[i].present
    ensures var r := Descend(vm, table, i);
            && r.1 == 0 && r.0.root == vm.root && r.0.pfa.Valid() && r.0.pfa.Get(0) && Supply(r.0.pfa) == 0
            && r.0.ram == Put(vm.ram[0 := ZeroTable()], table, i, NULL_ENTRY)
  {
    RequestSupply(vm.pfa);
  }

  /** The memory after the call. */
  lemma DrainedMemory(vm: Vm, page: nat, frame: nat, d: nat, t: nat)
    requires vm.pfa.Valid() && vm.pfa.Get(0) && page < PAGES && Supply(vm.pfa) == 0 && d < 3 && t != 0
    requires !TableAt(vm.ram, t)[Slot(page, d)].present
    ensures var end := Walk(vm, t, d, page);
            var vm1 := Leaf(end.0, end.1, page, frame);
            && vm1.root == vm.root
            && (d <= 1 ==> 0 in vm1.ram && vm1.ram[0] == NullTable(page, frame))
            && TableAt(vm1.ram, t) == TableAt(vm.ram, t)[Slot(page, d) := NULL_ENTRY]
            && (forall g :: g != 0 && g != t ==> TableAt(vm1.ram, g) == TableAt(vm.ram, g))
            && (forall g :: g in vm1.ram ==> g == 0 || g == t || g in vm.ram)
  {
    hide Supply, Request, Slot;
    DrainedDescend(vm, t, Slot(page, d));
    var r := Descend(vm, t, Slot(page, d));
    if d <= 1 {
      DrainedDescend(r.0, 0, Slot(page, d + 1));
      var s := Descend(r.0, 0, Slot(page, d + 1));
      if d == 0 && Slot(page, 1) != Slot(page, 2) {
        DrainedDescend(s.0, 0, Slot(page, 2));
      }
    }
  }

  lemma DrainedLeaf(vm: Vm, owner: map<nat, Node>, d: nat, page: nat, frame: nat)
    requires Drained(vm, owner, d, page)
    ensures var vm1 := Finished(vm, d, page, frame);
            && NullLinked(vm, vm1, d, page)
            && (d <= 1 ==> 0 in vm1.ram && vm1.ram[0] == NullTable(page, frame))
            && (forall g :: g in vm1.ram ==> g == 0 || g in vm.ram)
  {
    OnPath(vm, owner, d, page);
    TableNext(vm, d, page);
    DrainedMemory(vm, page, frame, d, TableOf(vm, d, page).value);
    hide Walk, Leaf, TableOf, Supply, Slot, NullTable;
  }

  lemma TableNext(vm: Vm, d: nat, page: nat)
    requires d < 3
    ensures TableOf(vm, 0, page) == Some(vm.root)
    ensures TableOf(vm, d, page).Some? ==>
              var e := TableAt(vm.ram, TableOf(vm, d, page).value)[Slot(page, d)];
              TableOf(vm, d + 1, page) == if e.present then Some(e.frame) else None
    ensures TableOf(vm, d, page).None? ==> TableOf(vm, d + 1, page).None?
  {
  }

  lemma LinkedSlot(vm: Vm, vm1: Vm, d: nat, page: nat, g: nat, i: nat)
    requires d < 3 && NullLinked(vm, vm1, d, page) && g != 0 && i < SLOTS
    ensures vm1.root == vm.root && TableOf(vm, d, page).Some?
    ensures TableAt(vm1.ram, g)[i] ==
            if Some(g) == TableOf(vm, d, page) && i == Slot(page, d) then NULL_ENTRY else TableAt(vm.ram, g)[i]
    ensures Some(g) == TableOf(vm, d, page) && i == Slot(page, d) ==> !TableAt(vm.ram, g)[i].present
  {
    TableNext(vm, d, page);
    hide TableOf, Slot;
  }

  /** Tables that were reached are reached as before. */
  lemma {:induction false} LinkedKeeps(vm: Vm, vm1: Vm, owner: map<nat, Node>, d: nat, page: nat, k: nat, q: nat)
    requires Tree(vm, owner) && NullIsLast(owner) && d < 3 && NullLinked(vm, vm1, d, page)
    requires k <= 3 && q < PAGES && TableOf(vm, k, q).Some?
    ensures TableOf(vm1, k, q) == TableOf(vm, k, q)
  {
    hide Tree, TableOf, Slot, Prefix, NullLinked, TableAt;
    if k > 0 {
      TableNext(vm, k - 1, q);
      TableNext(vm1, k - 1, q);
      LinkedKeeps(vm, vm1, owner, d, page, k - 1, q);
      OnPath(vm, owner, k - 1, q);
      LinkedSlot(vm, vm1, d, page, TableOf(vm, k - 1, q).value, Slot(q, k - 1));
    } else {
      LinkedRoot(vm, vm1, d, page, q);
    }
  }

  lemma LinkedRoot(vm: Vm, vm1: Vm, d: nat, page: nat, q: nat)
    requires d < 3 && NullLinked(vm, vm1, d, page)
    ensures TableOf(vm1, 0, q) == TableOf(vm, 0, q)
  {
  }

  /** And the way there still allows writes. */
  lemma {:induction false} LinkedWritable(vm: Vm, vm1: Vm, owner: map<nat, Node>, d: nat, page: nat, k: nat, q: nat)
    requires Tree(vm, owner) && NullIsLast(owner) && d < 3 && NullLinked(vm, vm1, d, page)
    requires k <= 3 && q < PAGES && TableOf(vm, k, q).Some?
    ensures WritableTo(vm1, k, q)
  {
    hide Tree, TableOf, WritableTo, Slot, Prefix, NullLinked, TableAt;
    WritableNext(vm1, k, q);
    if k > 0 {
      TableNext(vm, k - 1, q);
      LinkedWritable(vm, vm1, owner, d, page, k - 1, q);
      LinkedKeeps(vm, vm1, owner, d, page, k - 1, q);
      OnPath(vm, owner, k - 1, q);
      TreeWritable(vm, owner, k, q);
      WritableNext(vm, k, q);
      LinkedSlot(vm, vm1, d, page, TableOf(vm, k - 1, q).value, Slot(q, k - 1));
    }
  }

  lemma WritableNext(vm: Vm, d: nat, page: nat)
    requires d <= 3
    ensures WritableTo(vm, d, page) <==>
            d == 0 ||
            (WritableTo(vm, d - 1, page) && TableOf(vm, d - 1, page).Some?
             && TableAt(vm.ram, TableOf(vm, d - 1, page).value)[Slot(page, d - 1)].writable)
  {
    hide TableOf, Slot;
  }

  /** And so is frame 0 in the place of the missing table. */
  lemma LinkedNull(vm: Vm, vm1: Vm, owner: map<nat, Node>, d: nat, page: nat)
    requires Tree(vm, owner) && NullIsLast(owner) && d < 3 && NullLinked(vm, vm1, d, page) && page < PAGES
    ensures TableOf(vm1, d + 1, page) == Some(0) && WritableTo(vm1, d + 1, page)
  {
    LinkedKeeps(vm, vm1, owner, d, page, d, page);
    LinkedWritable(vm, vm1, owner, d, page, d, page);
    TableNext(vm1, d, page);
    WritableNext(vm1, d + 1, page);
    hide Tree, TableOf, WritableTo, Slot;
  }

  // ---------- two tables or three in frame 0 are no tree ----------

  /** No tree has frame 0 twice on one way, or the mapped frame in the place of the missing table. */
  lemma DrainedNoTree(vm: Vm, owner: map<nat, Node>, d: nat, page: nat, frame: nat, owner1: map<nat, Node>)
    requires Drained(vm, owner, d, page) && d <= 1 && Reached(vm, owner)
    ensures !Tree(Finished(vm, d, page, frame), owner1)
  {
    var vm1 := Finished(vm, d, page, frame);
    DrainedLeaf(vm, owner, d, page, frame);
    LinkedNull(vm, vm1, owner, d, page);
    if Tree(vm1, owner1) {
      OnPath(vm1, owner1, d + 1, page);
      if 0 in owner {
        var k, q := ReachedAt(vm, owner, 0);
        OnPath(vm, owner, k, q);
        LinkedKeeps(vm, vm1, owner, d, page, k, q);
        OnPath(vm1, owner1, k, q);
      } else {
        NullTableLinks(vm1, owner1, d, page, frame);
        FrameOnce(vm, vm1, owner, owner1, d, page, frame);
      }
    }
  }

  /** Where frame 0's one entry for tables leads. */
  lemma NullTableLinks(vm1: Vm, owner1: map<nat, Node>, d: nat, page: nat, frame: nat)
    requires Tree(vm1, owner1) && d <= 1 && 0 in vm1.ram && vm1.ram[0] == NullTable(page, frame)
    requires 0 in owner1 && owner1[0] == Node(d + 1, Prefix(page, d + 1))
    ensures Slot(page, 2) == Slot(page, 3) && frame != 0
    ensures frame in owner1 && owner1[frame] == Node(d + 2, Prefix(page, d + 1) * SLOTS + Slot(page, 2))
  {
    var e := vm1.ram[0][Slot(page, 2)];
    assert e.present && e == if Slot(page, 2) == Slot(page, 3) then Entry(true, true, frame) else NULL_ENTRY;
    hide Slot, Prefix;
  }

  /** The mapped frame has kept its own place. */
  lemma FrameOnce(vm: Vm, vm1: Vm, owner: map<nat, Node>, owner1: map<nat, Node>, d: nat, page: nat, frame: nat)
    requires Tree(vm, owner) && Tree(vm1, owner1) && Reached(vm, owner) && d <= 1 && page < PAGES
    requires NullLinked(vm, vm1, d, page) && frame != 0 && (frame in vm1.ram ==> frame in vm.ram) && frame in owner1
    ensures owner1[frame] != Node(d + 2, Prefix(page, d + 1) * SLOTS + Slot(page, 2))
  {
    hide *;
    FrameIsTable(vm, vm1, owner, owner1, frame);
    ReachedIs(vm, owner);
    LinkedIs(vm, vm1, d, page);
    var k, q := ReachedAt(vm, owner, frame);
    LinkedKeeps(vm, vm1, owner, d, page, k, q);
    OnPath(vm1, owner1, k, q);
    if k == d + 2 {
      TableNext(vm, d + 1, q);
      PrefixSlot(q, d + 1);
      if Prefix(q, d + 1) == Prefix(page, d + 1) {
        SamePrefix(vm, d + 1, page, q);
      } else {
        DivModApart(Prefix(q, d + 1), Slot(q, d + 1), Prefix(page, d + 1), Slot(page, 2));
      }
    }
  }

  lemma FrameIsTable(vm: Vm, vm1: Vm, owner: map<nat, Node>, owner1: map<nat, Node>, frame: nat)
    requires Tree(vm1, owner1) && Reached(vm, owner) && (frame in vm1.ram ==> frame in vm.ram) && frame in owner1
    ensures frame in owner
  {
  }

  lemma LinkedIs(vm: Vm, vm1: Vm, d: nat, page: nat)
    requires d < 3 && NullLinked(vm, vm1, d, page)
    ensures TableOf(vm, d, page).Some? && TableOf(vm, d + 1, page).None?
  {
  }

  lemma DivModApart(a: nat, i: nat, b: nat, j: nat)
    requires i < SLOTS && j < SLOTS && a != b
    ensures a * SLOTS + i != b * SLOTS + j
  {
    if a * SLOTS + i == b * SLOTS + j {
      DivMod(a, i, b, j);
    }
  }

  /** Short of two tables or three. */
  predicate Short(vm: Vm, owner: map<nat, Node>, page: nat) {
    && Tree(vm, owner) && vm.pfa.Get(0) && NullIsLast(owner) && page < PAGES
    && Supply(vm.pfa) + 2 <= Missing(vm, page)
  }

  /** A step down that needs no table, or gets one, leaves the call as short as it was. */
  lemma StepShort(vm: Vm, owner: map<nat, Node>, d: nat, page: nat)
    requires Short(vm, owner, page) && d <= 2 && TableOf(vm, d, page).Some?
    requires TableOf(vm, d + 1, page).Some? || Supply(vm.pfa) > 0
    ensures StepReady(vm, owner, d, page)
    ensures var vm1 := Down(vm, d, page);
            && Short(vm1, Grown(vm, owner, d, page), page) && Dry(vm1, page) == Dry(vm, page)
            && TableOf(vm1, d + 1, page) == Some(Descend(vm, TableOf(vm, d, page).value, Slot(page, d)).1)
            && (0 !in owner ==> 0 !in Grown(vm, owner, d, page))
            && (TableOf(vm, d + 1, page).None? ==> Request(vm.pfa).1 != 0)
  {
    RequestSupply(vm.pfa);
    OnPath(vm, owner, d, page);
    DownTree(vm, owner, d, page);
    DownMissing(vm, owner, d, page);
    if TableOf(vm, d + 1, page).None? {
      TableFrame(vm, owner);
    }
  }

  /** The depth of the last table that is there or gets a frame. */
  function Dry(vm: Vm, page: nat): int
    requires vm.pfa.Valid()
  {
    3 + Supply(vm.pfa) - Missing(vm, page)
  }

  lemma ShortDrained(vm: Vm, owner: map<nat, Node>, d: nat, page: nat)
    requires Short(vm, owner, page) && d <= 2 && TableOf(vm, d, page).Some?
    requires TableOf(vm, d + 1, page).None? && Supply(vm.pfa) == 0
    ensures Drained(vm, owner, d, page) && d <= 1 && Dry(vm, page) == d
  {
    NoneBelow(vm, d, page);
  }

  lemma ShortHas(vm: Vm, owner: map<nat, Node>, page: nat)
    requires Short(vm, owner, page)
    ensures Tree(vm, owner) && vm.pfa.Valid() && vm.pfa.Get(0) && page < PAGES && Supply(vm.pfa) + 2 <= Missing(vm, page)
  {
  }

  lemma DrainedIf(vm: Vm, owner: map<nat, Node>, d: nat, page: nat)
    requires Tree(vm, owner) && vm.pfa.Get(0) && NullIsLast(owner) && page < PAGES && d < 3
    requires TableOf(vm, d, page).Some? && TableOf(vm, d + 1, page).None? && Supply(vm.pfa) == 0
    ensures Drained(vm, owner, d, page)
  {
  }

  lemma {:induction false} WalkNoTree(vm: Vm, owner: map<nat, Node>, d: nat, page: nat, frame: nat, owner1: map<nat, Node>)
    requires Short(vm, owner, page) && d <= 3 && TableOf(vm, d, page).Some? && Reached(vm, owner)
    ensures !Tree(Finished(vm, d, page, frame), owner1)
    decreases 3 - d
  {
    hide *;
    ShortHas(vm, owner, page);
    if d == 3 {
      NoneMissing(vm, page);
      assert false;
    } else if TableOf(vm, d + 1, page).Some? || Supply(vm.pfa) > 0 {
      StepShort(vm, owner, d, page);
      DownReached(vm, owner, d, page);
      WalkNoTree(Down(vm, d, page), Grown(vm, owner, d, page), d + 1, page, frame, owner1);
      FinishedNext(vm, d, page, frame);
    } else {
      ShortDrained(vm, owner, d, page);
      DrainedNoTree(vm, owner, d, page, frame, owner1);
    }
  }

  lemma FinishedNext(vm: Vm, d: nat, page: nat, frame: nat)
    requires d < 3 && TableOf(vm, d, page).Some?
    requires TableOf(Down(vm, d, page), d + 1, page) == Some(Descend(vm, TableOf(vm, d, page).value, Slot(page, d)).1)
    ensures Finished(vm, d, page, frame) == Finished(Down(vm, d, page), d + 1, page, frame)
  {
    hide Slot, Descend, TableOf;
  }

  lemma MapFinished(vm: Vm, page: nat, frame: nat)
    ensures TableOf(vm, 0, page).Some? && MapPage(vm, page, frame) == Finished(vm, 0, page, frame)
  {
  }

  // ---------- and so is one that frame 0 is taken for twice ----------

  /** A step down that needs no table, or gets one. */
  lemma StepTwice(vm: Vm, owner: map<nat, Node>, d: nat, page: nat)
    requires Tree(vm, owner) && vm.pfa.Get(0) && page < PAGES && 0 in owner && Reached(vm, owner)
    requires d <= 2 && TableOf(vm, d, page).Some? && Missing(vm, page) == Supply(vm.pfa) + 1
    requires TableOf(vm, d + 1, page).Some? || Supply(vm.pfa) > 0
    ensures var vm1, owner1 := Down(vm, d, page), Grown(vm, owner, d, page);
            && Tree(vm1, owner1) && vm1.pfa.Get(0) && 0 in owner1 && Reached(vm1, owner1)
            && TableOf(vm1, d + 1, page) == Some(Descend(vm, TableOf(vm, d, page).value, Slot(page, d)).1)
            && Missing(vm1, page) == Supply(vm1.pfa) + 1
  {
    RequestSupply(vm.pfa);
    DownTree(vm, owner, d, page);
    DownMissing(vm, owner, d, page);
    DownReached(vm, owner, d, page);
    GrownIs(vm, owner, d, page);
    if TableOf(vm, d + 1, page).None? {
      TableFrame(vm, owner);
    }
    hide Reached;
  }

  /** Two places of the last depth lead to frame 0. */
  lemma DrainedTwice(vm: Vm, owner: map<nat, Node>, page: nat, frame: nat, owner1: map<nat, Node>)
    requires Drained(vm, owner, 2, page) && 0 in owner && Reached(vm, owner)
    ensures !Tree(Finished(vm, 2, page, frame), owner1)
  {
    var vm1 := Finished(vm, 2, page, frame);
    DrainedLeaf(vm, owner, 2, page, frame);
    LinkedNull(vm, vm1, owner, 2, page);
    var k, q := ReachedAt(vm, owner, 0);
    OnPath(vm, owner, k, q);
    LinkedKeeps(vm, vm1, owner, 2, page, k, q);
    if Tree(vm1, owner1) {
      OnPath(vm1, owner1, 3, page);
      OnPath(vm1, owner1, 3, q);
      SamePrefix(vm, 3, page, q);
    }
  }

  lemma {:induction false} WalkTwice(vm: Vm, owner: map<nat, Node>, d: nat, page: nat, frame: nat, owner1: map<nat, Node>)
    requires Tree(vm, owner) && vm.pfa.Get(0) && page < PAGES && 0 in owner && Reached(vm, owner)
    requires d <= 3 && TableOf(vm, d, page).Some? && Missing(vm, page) == Supply(vm.pfa) + 1
    ensures !Tree(Finished(vm, d, page, frame), owner1)
    decreases 3 - d
  {
    hide *;
    TreeValid(vm, owner);
    ReachedIs(vm, owner);
    if d == 3 {
      NoneMissing(vm, page);
      assert false;
    } else if TableOf(vm, d + 1, page).Some? || Supply(vm.pfa) > 0 {
      StepTwice(vm, owner, d, page);
      WalkTwice(Down(vm, d, page), Grown(vm, owner, d, page), d + 1, page, frame, owner1);
      FinishedNext(vm, d, page, frame);
    } else {
      NoneBelow(vm, d, page);
      DrainedIf(vm, owner, d, page);
      DrainedTwice(vm, owner, page, frame, owner1);
    }
  }

  /** A call leaves a tree exactly if it is not short of a table more than frame 0 is there for. */
  lemma MapTree(vm: Vm, owner: map<nat, Node>, page: nat, frame: nat)
    requires Tree(vm, owner) && vm.pfa.Get(0) && page < PAGES && Reached(vm, owner)
    ensures (exists owner1 :: Tree(MapPage(vm, page, frame), owner1)) <==>
            Missing(vm, page) <= Supply(vm.pfa) + Spare(owner)
  {
    TreeValid(vm, owner);
    ReachedIs(vm, owner);
    ReadyIf(vm, owner, page);
    SpareIs(owner);
    MapFinished(vm, page, frame);
    hide *;
    if Missing(vm, page) <= Supply(vm.pfa) + Spare(owner) {
      MapRefines(vm, owner, page, frame, page);
    } else {
      forall owner1
        ensures !Tree(MapPage(vm, page, frame), owner1)
      {
        if Missing(vm, page) == Supply(vm.pfa) + 1 {
          WalkTwice(vm, owner, 0, page, frame, owner1);
        } else {
          ShortIs(vm, owner, page);
          WalkNoTree(vm, owner, 0, page, frame, owner1);
        }
      }
    }
  }

  lemma ShortIs(vm: Vm, owner: map<nat, Node>, page: nat)
    requires Tree(vm, owner) && vm.pfa.Get(0) && NullIsLast(owner) && page < PAGES
    requires Supply(vm.pfa) + 2 <= Missing(vm, page)
    ensures Short(vm, owner, page)
  {
  }

  lemma SpareIs(owner: map<nat, Node>)
    ensures Spare(owner) == if 0 in owner then 0 else 1
  {
  }

  /** Every page is translated as it must be. */
  ghost predicate Maps(vm: Vm, page: nat, frame: nat) {
    forall other :: 0 <= other < PAGES ==> Translate(MapPage(vm, page, frame), other) == Expected(vm, page, frame, other)
  }

  lemma MapsIf(vm: Vm, owner: map<nat, Node>, page: nat, frame: nat)
    requires Ready(vm, owner, page)
    ensures Maps(vm, page, frame)
  {
    hide Ready, MapPage, Translate;
    forall other | 0 <= other < PAGES
      ensures Translate(MapPage(vm, page, frame), other) == Expected(vm, page, frame, other)
    {
      MapRefines(vm, owner, page, frame, other);
    }
  }

  /** `MapMemory` leaves an unaliased tree, maps its page and leaves every other page as it was, exactly if it is not short
      of a table more than frame 0 is there for, whatever frame it maps. */
  lemma MapExact(vm: Vm, owner: map<nat, Node>, page: nat, frame: nat)
    requires Tree(vm, owner) && vm.pfa.Get(0) && page < PAGES && Reached(vm, owner)
    ensures (exists owner1 :: Tree(MapPage(vm, page, frame), owner1)) && Maps(vm, page, frame) <==>
            Missing(vm, page) <= Supply(vm.pfa) + Spare(owner)
  {
    hide *;
    TreeValid(vm, owner);
    ReadyIf(vm, owner, page);
    MapTree(vm, owner, page, frame);
    if Ready(vm, owner, page) {
      MapsIf(vm, owner, page, frame);
    }
  }

  // ---------- what the walks show of it ----------

  /** The frame to map is no table, or has just become one. */
  predicate Blank(vm: Vm, frame: nat) {
    && frame != 0 && frame != vm.root && TableAt(vm.ram, frame) == ZeroTable()
    && (vm.pfa.Valid() && Supply(vm.pfa) > 0 ==> frame !in vm.ram)
  }

  /** The indices from the missing table on are the same. */
  predicate Looped(page: nat, d: int) {
    Slot(page, 2) == Slot(page, 3) && (d <= 0 ==> Slot(page, 1) == Slot(page, 2))
  }

  /** A page whose walk shows frame 0: one that takes its link to itself, or the page itself. */
  function Witness(d: nat, page: nat): nat {
    if Slot(page, 2) == Slot(page, 3) then page
    else PageWith(Slot(page, 0), if d == 0 then Slot(page, 2) else Slot(page, 1), Slot(page, 2), Slot(page, 2))
  }

  lemma WitnessPath(d: nat, page: nat)
    requires page < PAGES && d <= 1
    ensures var other := Witness(d, page);
            && other < PAGES && Prefix(other, d + 1) == Prefix(page, d + 1)
            && (if Slot(page, 2) == Slot(page, 3) then other == page
                else other != page && Slot(other, 2) == Slot(page, 2) && Slot(other, 3) == Slot(page, 2)
                     && (d == 0 ==> Slot(other, 1) == Slot(page, 2)))
  {
    var b := if d == 0 then Slot(page, 2) else Slot(page, 1);
    PageWithSlots(Slot(page, 0), b, Slot(page, 2), Slot(page, 2));
    hide Slot;
    SharesPrefix(Witness(d, page), page, d + 1);
  }

  /** The walk from frame 0 as the table of depth d + 1 on. */
  function NullWalk(vm1: Vm, d: nat, other: nat): Translation
    requires d <= 1
  {
    var i := TableAt(vm1.ram, 0)[Slot(other, d + 1)];
    if !i.present then Fault
    else
      var last := if d == 1 then i else TableAt(vm1.ram, i.frame)[Slot(other, 2)];
      if !last.present then Fault
      else
        var e := TableAt(vm1.ram, last.frame)[Slot(other, 3)];
        if e.present then To(e.frame, e.writable && last.writable && i.writable) else Fault
  }

  lemma DrainedWalk(vm: Vm, owner: map<nat, Node>, d: nat, page: nat, vm1: Vm, other: nat)
    requires Drained(vm, owner, d, page) && d <= 1 && other < PAGES && Prefix(other, d + 1) == Prefix(page, d + 1)
    requires NullLinked(vm, vm1, d, page)
    ensures Translate(vm1, other) == NullWalk(vm1, d, other) && Translate(vm, other) == Fault
  {
    LinkedNull(vm, vm1, owner, d, page);
    SamePrefix(vm1, d + 1, page, other);
    SamePrefix(vm, d + 1, page, other);
    TableNext(vm1, d + 1, other);
    TableNext(vm, d + 1, other);
    WritableNext(vm1, d + 2, other);
    if d == 0 {
      TableNext(vm1, 2, other);
      TableNext(vm, 2, other);
      WritableNext(vm1, 3, other);
    }
    TranslateIs(vm1, other);
    TranslateIs(vm, other);
    hide Tree, Supply, TableOf, WritableTo, Translate, Slot, Prefix, NullLinked;
  }

  /** Then the witness is not translated as it must be. */
  lemma DrainedShows(vm: Vm, owner: map<nat, Node>, d: nat, page: nat, frame: nat)
    requires Drained(vm, owner, d, page) && d <= 1
    requires Blank(vm, frame) || !Looped(page, d)
    ensures var other := Witness(d, page);
            && other < PAGES
            && Translate(Finished(vm, d, page, frame), other) != Expected(vm, page, frame, other)
  {
    var vm1 := Finished(vm, d, page, frame);
    var other := Witness(d, page);
    DrainedLeaf(vm, owner, d, page, frame);
    hide *;
    DrainedHas(vm, owner, d, page);
    WitnessPath(d, page);
    DrainedWalk(vm, owner, d, page, vm1, other);
    if Slot(page, 2) == Slot(page, 3) {
      if Blank(vm, frame) {
        BlankAfter(vm, vm1, d, page, frame);
      }
      LoopFaults(vm1, d, page, frame);
    } else {
      LinkShows(vm1, d, page, frame, other);
    }
  }

  lemma DrainedHas(vm: Vm, owner: map<nat, Node>, d: nat, page: nat)
    requires Drained(vm, owner, d, page)
    ensures page < PAGES
  {
  }

  /** The frame mapped is still empty, or is the table that frame 0 was linked into. */
  lemma BlankAfter(vm: Vm, vm1: Vm, d: nat, page: nat, frame: nat)
    requires d < 3 && NullLinked(vm, vm1, d, page) && Blank(vm, frame)
    ensures frame != 0 && (d == 0 ==> TableAt(vm1.ram, frame) == ZeroTable())
    ensures forall i :: 0 <= i < SLOTS && TableAt(vm1.ram, frame)[i].present ==> TableAt(vm1.ram, frame)[i] == NULL_ENTRY
  {
    hide Slot;
  }

  lemma LoopFaults(vm1: Vm, d: nat, page: nat, frame: nat)
    requires d <= 1 && 0 in vm1.ram && vm1.ram[0] == NullTable(page, frame) && Slot(page, 2) == Slot(page, 3)
    requires Looped(page, d) ==>
               && frame != 0 && (d == 0 ==> TableAt(vm1.ram, frame) == ZeroTable())
               && forall i :: 0 <= i < SLOTS && TableAt(vm1.ram, frame)[i].present ==>
                    TableAt(vm1.ram, frame)[i] == NULL_ENTRY
    ensures NullWalk(vm1, d, page) != To(frame, true)
  {
    hide Slot;
  }

  lemma LinkShows(vm1: Vm, d: nat, page: nat, frame: nat, other: nat)
    requires d <= 1 && 0 in vm1.ram && vm1.ram[0] == NullTable(page, frame) && Slot(page, 2) != Slot(page, 3)
    requires Slot(other, 2) == Slot(page, 2) && Slot(other, 3) == Slot(page, 2)
    requires d == 0 ==> Slot(other, 1) == Slot(page, 2)
    ensures NullWalk(vm1, d, other) != Fault
  {
    hide Slot;
  }

  /** Mapping frame 0 to a page whose indices are all the same shows nothing: frame 0's one entry leads to itself. */
  lemma DrainedHides(vm: Vm, owner: map<nat, Node>, d: nat, page: nat, other: nat)
    requires Drained(vm, owner, d, page) && d <= 1 && 0 !in owner && Looped(page, d) && other < PAGES
    ensures Translate(Finished(vm, d, page, 0), other) == Expected(vm, page, 0, other)
  {
    var vm1 := Finished(vm, d, page, 0);
    DrainedLeaf(vm, owner, d, page, 0);
    if Prefix(other, d + 1) == Prefix(page, d + 1) {
      DrainedWalk(vm, owner, d, page, vm1, other);
      PathsDiffer(page, other, d + 1);
      LoopWalk(vm1, d, page, other);
    } else {
      OthersWalk(vm, vm1, owner, d, page, other);
    }
    hide *;
  }

  lemma LoopWalk(vm1: Vm, d: nat, page: nat, other: nat)
    requires d <= 1 && 0 in vm1.ram && vm1.ram[0] == NullTable(page, 0) && Looped(page, d)
    requires page == other <==>
             && (d == 0 ==> Slot(page, 1) == Slot(other, 1))
             && Slot(page, 2) == Slot(other, 2) && Slot(page, 3) == Slot(other, 3)
    ensures NullWalk(vm1, d, other) == if other == page then To(0, true) else Fault
  {
    hide Slot;
  }

  lemma OthersWalk(vm: Vm, vm1: Vm, owner: map<nat, Node>, d: nat, page: nat, other: nat)
    requires Tree(vm, owner) && 0 !in owner && d < 3 && NullLinked(vm, vm1, d, page) && page < PAGES && other < PAGES
    requires Prefix(other, d + 1) != Prefix(page, d + 1)
    ensures other != page && Translate(vm1, other) == Translate(vm, other)
  {
    OthersStay(vm, vm1, owner, d, page, 3, other);
    OnPath(vm, owner, 3, other);
    OnPath(vm, owner, d, page);
    TranslateIs(vm, other);
    TranslateIs(vm1, other);
    hide Tree, TableOf, WritableTo, Translate, Slot, Prefix;
  }

  /** Pages with the same prefix and the same indices from there on are the same. */
  lemma PathsDiffer(page: nat, other: nat, d: nat)
    requires page < PAGES && other < PAGES && 1 <= d <= 2 && Prefix(page, d) == Prefix(other, d)
    ensures page == other <==>
            && (d == 1 ==> Slot(page, 1) == Slot(other, 1))
            && Slot(page, 2) == Slot(other, 2) && Slot(page, 3) == Slot(other, 3)
  {
    PrefixSlot(page, 1);
    PrefixSlot(other, 1);
    PrefixSlot(page, 2);
    PrefixSlot(other, 2);
    SamePlace(page, other);
    hide Prefix, Slot;
  }

  /** Ways that do not lead through the missing table stay as they are. */
  lemma {:induction false} OthersStay(vm: Vm, vm1: Vm, owner: map<nat, Node>, d: nat, page: nat, k: nat, other: nat)
    requires Tree(vm, owner) && 0 !in owner && d < 3 && NullLinked(vm, vm1, d, page) && page < PAGES && other < PAGES
    requires k <= 3 && Prefix(other, d + 1) != Prefix(page, d + 1)
    ensures TableOf(vm1, k, other) == TableOf(vm, k, other) && WritableTo(vm1, k, other) == WritableTo(vm, k, other)
  {
    hide Tree, TableOf, WritableTo, Slot, Prefix, NullLinked, TableAt;
    WritableNext(vm, k, other);
    WritableNext(vm1, k, other);
    if k > 0 {
      OthersStay(vm, vm1, owner, d, page, k - 1, other);
      TableNext(vm, k - 1, other);
      TableNext(vm1, k - 1, other);
      if TableOf(vm, k - 1, other).Some? {
        OnPath(vm, owner, k - 1, other);
        LinkedSlot(vm, vm1, d, page, TableOf(vm, k - 1, other).value, Slot(other, k - 1));
        OnPath(vm, owner, d, page);
        if k - 1 == d {
          SameChild(vm, owner, d, page, other);
        }
      }
    } else {
      LinkedRoot(vm, vm1, d, page, other);
    }
  }

  lemma {:induction false} WalkShows(vm: Vm, owner: map<nat, Node>, d: nat, page: nat, frame: nat) returns (other: nat)
    requires Short(vm, owner, page) && d <= 3 && TableOf(vm, d, page).Some?
    requires Blank(vm, frame) || !Looped(page, Dry(vm, page))
    ensures other < PAGES && Translate(Finished(vm, d, page, frame), other) != Expected(vm, page, frame, other)
    decreases 3 - d
  {
    hide *;
    ShortHas(vm, owner, page);
    if d == 3 {
      NoneMissing(vm, page);
      assert false;
    } else if TableOf(vm, d + 1, page).Some? || Supply(vm.pfa) > 0 {
      StepShort(vm, owner, d, page);
      if Blank(vm, frame) {
        BlankStays(vm, owner, d, page, frame);
      }
      other := WalkShows(Down(vm, d, page), Grown(vm, owner, d, page), d + 1, page, frame);
      ExpectedNext(vm, owner, d, page, frame, other);
      FinishedNext(vm, d, page, frame);
    } else {
      ShortDrained(vm, owner, d, page);
      DrainedShows(vm, owner, d, page, frame);
      other := Witness(d, page);
    }
  }

  lemma ExpectedNext(vm: Vm, owner: map<nat, Node>, d: nat, page: nat, frame: nat, other: nat)
    requires StepReady(vm, owner, d, page) && other < PAGES
    ensures Expected(Down(vm, d, page), page, frame, other) == Expected(vm, page, frame, other)
  {
    DownTranslate(vm, owner, d, page, other);
    hide Translate, Down, StepReady;
  }

  lemma BlankStays(vm: Vm, owner: map<nat, Node>, d: nat, page: nat, frame: nat)
    requires Short(vm, owner, page) && StepReady(vm, owner, d, page) && Blank(vm, frame)
    requires TableOf(vm, d + 1, page).None? ==> Supply(vm.pfa) > 0
    ensures Blank(Down(vm, d, page), frame)
  {
    if TableOf(vm, d + 1, page).None? {
      OnPath(vm, owner, d, page);
      LastOne(vm, owner, page);
      RequestSupply(vm.pfa);
      DownIs(vm, d, page);
      hide Tree, Short, StepReady, Request, TableOf, Slot, Supply, Down;
    } else {
      DownIs(vm, d, page);
      hide Tree, Short, StepReady, Request, TableOf, Slot, Supply, Down;
    }
  }

  lemma LastOne(vm: Vm, owner: map<nat, Node>, page: nat)
    requires Short(vm, owner, page)
    ensures vm.pfa.Valid() && vm.pfa.Get(0) && Supply(vm.pfa) <= 1 && forall f :: f in owner ==> f in vm.ram
  {
  }

  lemma {:induction false} WalkHides(vm: Vm, owner: map<nat, Node>, d: nat, page: nat, other: nat)
    requires Short(vm, owner, page) && d <= 3 && TableOf(vm, d, page).Some? && 0 !in owner
    requires Looped(page, Dry(vm, page)) && other < PAGES
    ensures Translate(Finished(vm, d, page, 0), other) == Expected(vm, page, 0, other)
    decreases 3 - d
  {
    hide *;
    ShortHas(vm, owner, page);
    if d == 3 {
      NoneMissing(vm, page);
      assert false;
    } else if TableOf(vm, d + 1, page).Some? || Supply(vm.pfa) > 0 {
      StepShort(vm, owner, d, page);
      WalkHides(Down(vm, d, page), Grown(vm, owner, d, page), d + 1, page, other);
      ExpectedNext(vm, owner, d, page, 0, other);
      FinishedNext(vm, d, page, 0);
    } else {
      ShortDrained(vm, owner, d, page);
      DrainedHides(vm, owner, d, page, other);
    }
  }

  /** The translations alone show two tables or three in frame 0 exactly if the frame mapped is not 0, or the page's
      indices from the first missing table on are not all the same; one table there they do not show. Not decided is a
      frame that is read as a table itself, under a page whose last two indices are the same. */
  lemma MapShows(vm: Vm, owner: map<nat, Node>, page: nat, frame: nat)
    requires Tree(vm, owner) && vm.pfa.Get(0) && 0 !in owner && page < PAGES
    requires frame == 0 || frame !in vm.ram || Slot(page, 2) != Slot(page, 3)
    ensures vm.pfa.Valid()
    ensures Maps(vm, page, frame) <==>
            Missing(vm, page) <= Supply(vm.pfa) + 1 || (frame == 0 && Looped(page, Dry(vm, page)))
  {
    TreeValid(vm, owner);
    ReadyIf(vm, owner, page);
    MapFinished(vm, page, frame);
    hide Tree, Supply, Missing, Translate, Slot, MapPage, Finished;
    if Missing(vm, page) <= Supply(vm.pfa) + 1 {
      MapsIf(vm, owner, page, frame);
    } else {
      ShortIs(vm, owner, page);
      if frame == 0 && Looped(page, Dry(vm, page)) {
        forall other | 0 <= other < PAGES
          ensures Translate(MapPage(vm, page, frame), other) == Expected(vm, page, frame, other)
        {
          WalkHides(vm, owner, 0, page, other);
        }
      } else {
        if frame != 0 && frame !in vm.ram {
          BlankIf(vm, owner, frame);
        }
        var other := WalkShows(vm, owner, 0, page, frame);
      }
    }
  }

  lemma BlankIf(vm: Vm, owner: map<nat, Node>, frame: nat)
    requires Tree(vm, owner) && frame != 0 && frame !in vm.ram
    ensures Blank(vm, frame)
  {
  }

  // ---------- any run of calls ----------

  /** After a run that the frames last for, and one more call for which they still do. */
  lemma RunReady(vm: Vm, owner: map<nat, Node>, calls: seq<Call>, c: Call)
    requires Tree(vm, owner) && vm.pfa.Get(0) && Needs(vm, calls) <= Supply(vm.pfa) + Spare(owner)
    ensures var vm1, owner1, page := RunMap(vm, calls), RunOwner(vm, owner, calls), PageOf(c.virtualMemory);
            && Tree(vm1, owner1) && vm1.pfa.Get(0) && page < PAGES
            && Supply(vm1.pfa) + Spare(owner1) == Supply(vm.pfa) + Spare(owner) - Needs(vm, calls)
            && (Needs(vm, calls) + Missing(vm1, page) <= Supply(vm.pfa) + Spare(owner) ==> Ready(vm1, owner1, page))
  {
    hide Tree, Takes, TakesTables, Missing;
    PageInRange(c.virtualMemory);
    RunRefines(vm, owner, calls, PageOf(c.virtualMemory));
    TakesLeft(vm, owner, RunMap(vm, calls), RunOwner(vm, owner, calls), Needs(vm, calls));
  }

  lemma {:induction false} RunReached(vm: Vm, owner: map<nat, Node>, calls: seq<Call>)
    requires Tree(vm, owner) && vm.pfa.Get(0) && Reached(vm, owner)
    requires Needs(vm, calls) <= Supply(vm.pfa) + Spare(owner)
    ensures Reached(RunMap(vm, calls), RunOwner(vm, owner, calls))
  {
    if calls != [] {
      hide Tree, Reached, Takes, TakesTables, MapPage, MapOwner, Missing, PageOf;
      var init, c := calls[..|calls| - 1], calls[|calls| - 1];
      RunReached(vm, owner, init);
      RunReady(vm, owner, init, c);
      MapReached(RunMap(vm, init), RunOwner(vm, owner, init), PageOf(c.virtualMemory), FrameOfCall(c));
    }
  }

  /** The tables are an unaliased tree of locked frames, and every page is translated as the calls say. */
  ghost predicate Sound(vm: Vm, calls: seq<Call>) {
    && (exists owner :: Tree(RunMap(vm, calls), owner))
    && forall page :: 0 <= page < PAGES ==> Translate(RunMap(vm, calls), page) == Folded(Translate(vm, page), calls, page)
  }

  /** The same after every call of the run. */
  ghost predicate AlwaysSound(vm: Vm, calls: seq<Call>) {
    Sound(vm, calls) && (calls == [] || AlwaysSound(vm, calls[..|calls| - 1]))
  }

  lemma SoundIf(vm: Vm, owner: map<nat, Node>, calls: seq<Call>)
    requires Tree(vm, owner) && vm.pfa.Get(0) && Needs(vm, calls) <= Supply(vm.pfa) + Spare(owner)
    ensures Sound(vm, calls)
  {
    hide Tree, Takes, TakesTables, RunMap, RunOwner, Needs, Supply, Translate, Folded;
    RunRefines(vm, owner, calls, 0);
    forall page | 0 <= page < PAGES
      ensures Translate(RunMap(vm, calls), page) == Folded(Translate(vm, page), calls, page)
    {
      RunRefines(vm, owner, calls, page);
    }
  }

  lemma SoundTree(vm: Vm, calls: seq<Call>) returns (owner: map<nat, Node>)
    requires Sound(vm, calls)
    ensures Tree(RunMap(vm, calls), owner)
  {
    owner :| Tree(RunMap(vm, calls), owner);
  }

  /** The first call that is short leaves no tree. */
  lemma FirstShort(vm: Vm, owner: map<nat, Node>, calls: seq<Call>, c: Call)
    requires Tree(vm, owner) && vm.pfa.Get(0) && Reached(vm, owner)
    requires Needs(vm, calls) <= Supply(vm.pfa) + Spare(owner) < Needs(vm, calls + [c])
    ensures !Sound(vm, calls + [c])
  {
    hide *;
    var vm1, owner1 := RunMap(vm, calls), RunOwner(vm, owner, calls);
    RunLast(vm, calls, c);
    CallIs(vm1, c);
    RunReady(vm, owner, calls, c);
    RunReached(vm, owner, calls);
    MapTree(vm1, owner1, PageOf(c.virtualMemory), FrameOfCall(c));
    if Sound(vm, calls + [c]) {
      var owner2 := SoundTree(vm, calls + [c]);
    }
  }

  /** Over any run, whatever frames it maps, the tables stay a tree and the map stays as the calls say, after every call,
      exactly if the run needs no more tables than there are frames, and the one in frame 0. */
  lemma {:induction false} RunExact(vm: Vm, owner: map<nat, Node>, calls: seq<Call>)
    requires Tree(vm, owner) && vm.pfa.Get(0) && Reached(vm, owner)
    ensures AlwaysSound(vm, calls) <==> Needs(vm, calls) <= Supply(vm.pfa) + Spare(owner)
  {
    hide *;
    TreeValid(vm, owner);
    AlwaysSoundIs(vm, calls);
    if calls == [] {
      RunNone(vm, owner);
      SoundIf(vm, owner, []);
    } else {
      var init, c := calls[..|calls| - 1], calls[|calls| - 1];
      RunExact(vm, owner, init);
      assert calls == init + [c];
      RunLast(vm, init, c);
      if Needs(vm, calls) <= Supply(vm.pfa) + Spare(owner) {
        SoundIf(vm, owner, calls);
      } else if Needs(vm, init) <= Supply(vm.pfa) + Spare(owner) {
        FirstShort(vm, owner, init, c);
      }
    }
  }

  lemma AlwaysSoundIs(vm: Vm, calls: seq<Call>)
    ensures AlwaysSound(vm, calls) <==> Sound(vm, calls) && (calls == [] || AlwaysSound(vm, calls[..|calls| - 1]))
  {
    hide Sound;
  }

  /** Mapping pages 0 .. n - 1 in order into an empty PML4 goes well, after every call, exactly if the frames last for its
      tables with the one in frame 0. */
  lemma IdentityIff(vm: Vm, n: nat)
    requires Empty(vm) && vm.root != 0 && vm.ram.Keys == {vm.root} && n <= PAGES
    ensures AlwaysSound(vm, Identity(n)) <==>
            Ceil(n, 0x200) + Ceil(n, 0x4_0000) + Ceil(n, 0x800_0000) <= Supply(vm.pfa) + 1
  {
    EmptyTree(vm, 0);
    RootReached(vm);
    hide *;
    RunExact(vm, RootOnly(vm), Identity(n));
    EmptySpare(vm);
    IdentityNeeds(vm, n);
    TablesForIs(n);
  }

  lemma EmptySpare(vm: Vm)
    requires Empty(vm) && vm.root != 0
    ensures vm.pfa.Valid() && vm.pfa.Get(0) && Spare(RootOnly(vm)) == 1
  {
  }
}
