/** The 4-level page table of src/Paging/PageTableManager.cpp as steps on a value: `MapMemory` refines a map from
    pages to frames. */
module TableSpec {
  import opened Common
  import opened PageEntries
  import opened FrameSpec

  const FRAMES := 0x100_0000_0000  // 2^40 frames can be stored in an entry

  /** What the processor sees in an entry. */
  datatype Entry = Entry(present: bool, writable: bool, frame: nat)

  type Table = t: seq<Entry> | |t| == SLOTS witness seq(SLOTS, _ => Entry(false, false, 0))

  const ABSENT := Entry(false, false, 0)

  function ZeroTable(): (t: Table)
    ensures forall i :: 0 <= i < SLOTS ==> t[i] == ABSENT
  {
    seq(SLOTS, _ => ABSENT)
  }

  /** The tables reachable from the root frame, by frame number, and the allocator they come from. */
  datatype Vm = Vm(pfa: Pfa, root: nat, ram: map<nat, Table>)

  function TableAt(ram: map<nat, Table>, frame: nat): Table {
    if frame in ram then ram[frame] else ZeroTable()
  }

  function Put(ram: map<nat, Table>, table: nat, i: nat, e: Entry): map<nat, Table>
    requires i < SLOTS
  {
    ram[table := TableAt(ram, table)[i := e]]
  }

  /** One level down: follow the entry, or request, zero and link a new table. */
  function Descend(vm: Vm, table: nat, i: nat): (Vm, nat)
    requires i < SLOTS
  {
    var pde := TableAt(vm.ram, table)[i];
    if pde.present then (vm, pde.frame)
    else
      var request := Request(vm.pfa);
      var frame := request.1 / PAGE;
      (Vm(request.0, vm.root, Put(vm.ram[frame := ZeroTable()], table, i, Entry(true, true, frame))), frame)
  }

  /** From a table of depth d down to the page's table of depth 3. */
  function Walk(vm: Vm, table: nat, d: nat, page: nat): (Vm, nat)
    decreases 3 - d
  {
    if d >= 3 then (vm, table)
    else
      var down := Descend(vm, table, Slot(page, d));
      Walk(down.0, down.1, d + 1, page)
  }

  function Leaf(vm: Vm, table: nat, page: nat, frame: nat): Vm {
    Vm(vm.pfa, vm.root, Put(vm.ram, table, Slot(page, 3), Entry(true, true, frame)))
  }

  /** `MapMemory` of a page to a frame. */
  function MapPage(vm: Vm, page: nat, frame: nat): Vm {
    var down := Walk(vm, vm.root, 0, page);
    Leaf(down.0, down.1, page, frame)
  }

  // ---------- the processor's walk: Intel SDM volume 3A, section 4.5 ----------

  /** The table of depth d on the way to a page. */
  function TableOf(vm: Vm, d: nat, page: nat): Option<nat>
    requires d <= 3
  {
    if d == 0 then Some(vm.root)
    else
      match TableOf(vm, d - 1, page)
      case None => None
      case Some(t) =>
        var e := TableAt(vm.ram, t)[Slot(page, d - 1)];
        if e.present then Some(e.frame) else None
  }

  /** Whether all entries above that table allow writes. */
  predicate WritableTo(vm: Vm, d: nat, page: nat)
    requires d <= 3
  {
    d == 0 ||
    (WritableTo(vm, d - 1, page) &&
     match TableOf(vm, d - 1, page)
     case None => false
     case Some(t) => TableAt(vm.ram, t)[Slot(page, d - 1)].writable)
  }

  datatype Translation = Fault | To(frame: nat, writable: bool)

  /** A page can be written if every entry on the way allows it. */
  function Translate(vm: Vm, page: nat): Translation {
    match TableOf(vm, 3, page)
    case None => Fault
    case Some(t) =>
      var e := TableAt(vm.ram, t)[Slot(page, 3)];
      if e.present then To(e.frame, e.writable && WritableTo(vm, 3, page)) else Fault
  }

  // ---------- the tree ----------

  /** The place of a table: its depth and which of the tables of that depth it is. */
  datatype Node = Node(depth: nat, prefix: nat)

  /** `owner` gives every table frame its one place; entries of inner tables allow writes and lead to the table of the right
      place, and table frames are locked. */
  predicate Tree(vm: Vm, owner: map<nat, Node>) {
    && vm.pfa.Valid() && |vm.pfa.bits| <= FRAMES
    && vm.root in owner && owner[vm.root] == Node(0, 0)
    && (forall f :: f in owner ==> f in vm.ram && owner[f].depth <= 3 && vm.pfa.Get(f))
    && (forall f, i :: f in owner && owner[f].depth < 3 && 0 <= i < SLOTS && vm.ram[f][i].present ==>
          var g := vm.ram[f][i].frame;
          vm.ram[f][i].writable && g in owner && owner[g] == Node(owner[f].depth + 1, owner[f].prefix * SLOTS + i))
  }

  lemma TreeValid(vm: Vm, owner: map<nat, Node>)
    requires Tree(vm, owner)
    ensures vm.pfa.Valid()
  {
  }

  lemma {:induction false} OnPath(vm: Vm, owner: map<nat, Node>, d: nat, page: nat)
    requires Tree(vm, owner) && d <= 3 && page < PAGES
    ensures var t := TableOf(vm, d, page);
            t.Some? ==> t.value in owner && owner[t.value] == Node(d, Prefix(page, d))
  {
    if d > 0 {
      OnPath(vm, owner, d - 1, page);
      PrefixSlot(page, d - 1);
    }
  }

  /** In a tree the last entry alone decides. */
  lemma {:induction false} TreeWritable(vm: Vm, owner: map<nat, Node>, d: nat, page: nat)
    requires Tree(vm, owner) && d <= 3 && page < PAGES && TableOf(vm, d, page).Some?
    ensures WritableTo(vm, d, page)
  {
    if d > 0 {
      TreeWritable(vm, owner, d - 1, page);
      OnPath(vm, owner, d - 1, page);
    }
  }

  /** Pages with the same prefix share their tables. */
  lemma {:induction false} SamePrefix(vm: Vm, d: nat, page: nat, other: nat)
    requires d <= 3 && page < PAGES && other < PAGES && Prefix(page, d) == Prefix(other, d)
    ensures TableOf(vm, d, page) == TableOf(vm, d, other) && WritableTo(vm, d, page) == WritableTo(vm, d, other)
  {
    if d > 0 {
      PrefixOf(page, other, d - 1);
      SamePrefix(vm, d - 1, page, other);
    }
  }

  // ---------- one step down ----------

  /** The step is on the way to the page, and if a table is needed, either a frame is there for it or frame 0, which NULL
      stands for and which nobody is granted, is no table yet. */
  predicate StepReady(vm: Vm, owner: map<nat, Node>, d: nat, page: nat) {
    && Tree(vm, owner) && vm.pfa.Get(0) && d < 3 && page < PAGES
    && TableOf(vm, d, page).Some?
    && (TableOf(vm, d + 1, page).None? ==> Request(vm.pfa).1 != 0 || 0 !in owner)
  }

  /** The places after the step. */
  function Grown(vm: Vm, owner: map<nat, Node>, d: nat, page: nat): map<nat, Node>
    requires d < 3
  {
    if TableOf(vm, d + 1, page).Some? then owner
    else owner[Request(vm.pfa).1 / PAGE := Node(d + 1, Prefix(page, d + 1))]
  }

  function Down(vm: Vm, d: nat, page: nat): Vm
    requires d < 3 && TableOf(vm, d, page).Some?
  {
    Descend(vm, TableOf(vm, d, page).value, Slot(page, d)).0
  }

  /** A requested frame was clear, so it is no table. */
  lemma RequestFresh(p: Pfa)
    requires p.Valid() && Request(p).1 != 0
    ensures var f := Request(p).1 / PAGE;
            && f < p.Limit() && !p.Get(f) && Request(p).0.Valid() && Request(p).0.bits == p.bits[f := true]
  {
  }

  /** The frame of a new table, granted or NULL's, is no table yet and is locked afterwards. */
  lemma TableFrame(vm: Vm, owner: map<nat, Node>)
    requires Tree(vm, owner) && vm.pfa.Get(0) && (Request(vm.pfa).1 != 0 || 0 !in owner)
    ensures var p, f := Request(vm.pfa).0, Request(vm.pfa).1 / PAGE;
            && p.Valid() && |p.bits| == |vm.pfa.bits| && f !in owner && p.Get(f) && (f == 0 <==> Request(vm.pfa).1 == 0)
            && (f != 0 ==> f < vm.pfa.Limit() && !vm.pfa.Get(f))
            && p.bits == if f == 0 then vm.pfa.bits else vm.pfa.bits[f := true]
  {
    if Request(vm.pfa).1 != 0 {
      RequestFresh(vm.pfa);
    }
  }

  /** A new, empty table linked into a tree. */
  lemma TreeLinked(vm: Vm, vm1: Vm, owner: map<nat, Node>, t: nat, i: nat, f: nat)
    requires Tree(vm, owner) && t in owner && owner[t].depth < 3 && i < SLOTS && f !in owner
    requires vm1.root == vm.root && vm1.ram == Put(vm.ram[f := ZeroTable()], t, i, Entry(true, true, f))
    requires vm1.pfa.Valid() && |vm1.pfa.bits| == |vm.pfa.bits| && vm1.pfa.Get(f)
    requires forall g: nat :: vm.pfa.Get(g) ==> vm1.pfa.Get(g)
    ensures Tree(vm1, owner[f := Node(owner[t].depth + 1, owner[t].prefix * SLOTS + i)])
  {
  }

  lemma {:induction false} DownTree(vm: Vm, owner: map<nat, Node>, d: nat, page: nat)
    requires StepReady(vm, owner, d, page)
    ensures Tree(Down(vm, d, page), Grown(vm, owner, d, page))
  {
    hide StepReady, Tree, TableOf, Down, Grown, Descend, Put, Request, Prefix, Slot;
    StepReadyIs(vm, owner, d, page);
    OnPath(vm, owner, d, page);
    PrefixSlot(page, d);
    DownIs(vm, d, page);
    GrownIs(vm, owner, d, page);
    if TableOf(vm, d + 1, page).None? {
      TableFrame(vm, owner);
      TreeLinked(vm, Down(vm, d, page), owner, TableOf(vm, d, page).value, Slot(page, d), Request(vm.pfa).1 / PAGE);
    }
  }

  lemma StepReadyIs(vm: Vm, owner: map<nat, Node>, d: nat, page: nat)
    requires StepReady(vm, owner, d, page)
    ensures Tree(vm, owner) && vm.pfa.Get(0) && d < 3 && page < PAGES && TableOf(vm, d, page).Some?
    ensures TableOf(vm, d + 1, page).None? ==> Request(vm.pfa).1 != 0 || 0 !in owner
  {
  }

  lemma DownIs(vm: Vm, d: nat, page: nat)
    requires d < 3 && TableOf(vm, d, page).Some?
    ensures var t, vm1, f := TableOf(vm, d, page).value, Down(vm, d, page), Request(vm.pfa).1 / PAGE;
            if TableOf(vm, d + 1, page).Some? then vm1 == vm
            else vm1 == Vm(Request(vm.pfa).0, vm.root,
                           Put(vm.ram[f := ZeroTable()], t, Slot(page, d), Entry(true, true, f)))
  {
    hide Request;
  }

  lemma GrownIs(vm: Vm, owner: map<nat, Node>, d: nat, page: nat)
    requires d < 3
    ensures Grown(vm, owner, d, page) ==
            if TableOf(vm, d + 1, page).Some? then owner
            else owner[Request(vm.pfa).1 / PAGE := Node(d + 1, Prefix(page, d + 1))]
  {
  }

  /** The step adds the page's table of the next depth and changes no other table on any way. */
  lemma {:induction false} DownTables(vm: Vm, owner: map<nat, Node>, d: nat, page: nat, k: nat, other: nat)
    requires StepReady(vm, owner, d, page) && k <= 3 && other < PAGES
    ensures var vm1 := Down(vm, d, page);
            TableOf(vm1, k, other) ==
            if k == d + 1 && Prefix(other, k) == Prefix(page, k)
            then Some(Descend(vm, TableOf(vm, d, page).value, Slot(page, d)).1)
            else TableOf(vm, k, other)
  {
    if TableOf(vm, d + 1, page).None? {
      DownExtends(vm, owner, d, page);
      ExtendsTables(vm, Down(vm, d, page), owner, d, page, Request(vm.pfa).1 / PAGE, k, other);
    } else if k == d + 1 && Prefix(other, k) == Prefix(page, k) {
      SamePrefix(vm, k, page, other);
    }
  }

  /** vm1 is vm with the new, empty table f linked into table t for the page, and every other table untouched. */
  predicate Extends(vm: Vm, vm1: Vm, owner: map<nat, Node>, d: nat, page: nat, f: nat)
    requires d < 3
  {
    && vm1.root == vm.root && f !in owner
    && TableOf(vm, d, page).Some? && TableOf(vm, d + 1, page).None?
    && var t := TableOf(vm, d, page).value;
    && t in owner
    && TableAt(vm1.ram, f) == ZeroTable()
    && TableAt(vm1.ram, t) == TableAt(vm.ram, t)[Slot(page, d) := Entry(true, true, f)]
    && forall g :: g in owner && g != t ==> TableAt(vm1.ram, g) == TableAt(vm.ram, g)
  }

  lemma DownExtends(vm: Vm, owner: map<nat, Node>, d: nat, page: nat)
    requires StepReady(vm, owner, d, page) && TableOf(vm, d + 1, page).None?
    ensures Extends(vm, Down(vm, d, page), owner, d, page, Request(vm.pfa).1 / PAGE)
  {
    OnPath(vm, owner, d, page);
    TableFrame(vm, owner);
  }

  lemma {:induction false} ExtendsTables(vm: Vm, vm1: Vm, owner: map<nat, Node>, d: nat, page: nat, f: nat,
                                         k: nat, other: nat)
    requires Tree(vm, owner) && d < 3 && k <= 3 && page < PAGES && other < PAGES
    requires Extends(vm, vm1, owner, d, page, f)
    ensures TableOf(vm1, k, other) ==
            if k == d + 1 && Prefix(other, k) == Prefix(page, k) then Some(f) else TableOf(vm, k, other)
  {
    hide Tree, Prefix, Slot;
    if k > 0 {
      ExtendsTables(vm, vm1, owner, d, page, f, k - 1, other);
      if k - 1 == d + 1 && Prefix(other, k - 1) == Prefix(page, k - 1) {
        SamePrefix(vm, k - 1, page, other);
      } else if TableOf(vm, k - 1, other).Some? {
        OnPath(vm, owner, k - 1, other);
        ExtendsEntry(vm, vm1, owner, d, page, f, TableOf(vm, k - 1, other).value, Slot(other, k - 1));
        if k - 1 == d {
          SameChild(vm, owner, d, page, other);
        } else {
          OnPath(vm, owner, d, page);
        }
      } else if k - 1 == d && Prefix(other, k) == Prefix(page, k) {
        PrefixOf(page, other, d);
        SamePrefix(vm, d, page, other);
      }
    }
  }

  lemma ExtendsEntry(vm: Vm, vm1: Vm, owner: map<nat, Node>, d: nat, page: nat, f: nat, g: nat, i: nat)
    requires d < 3 && Extends(vm, vm1, owner, d, page, f) && g in owner && i < SLOTS
    ensures TableAt(vm1.ram, g)[i] ==
            if Some(g) == TableOf(vm, d, page) && i == Slot(page, d) then Entry(true, true, f) else TableAt(vm.ram, g)[i]
  {
  }

  /** Two pages take the same entry of the same table of depth d exactly if they share the prefix one deeper. */
  lemma {:induction false} SameChild(vm: Vm, owner: map<nat, Node>, d: nat, page: nat, other: nat)
    requires Tree(vm, owner) && d < 3 && page < PAGES && other < PAGES
    requires TableOf(vm, d, page).Some? && TableOf(vm, d, other).Some?
    ensures TableOf(vm, d, page) == TableOf(vm, d, other) && Slot(page, d) == Slot(other, d) <==>
            Prefix(page, d + 1) == Prefix(other, d + 1)
  {
    OnPath(vm, owner, d, page);
    OnPath(vm, owner, d, other);
    PrefixSlot(page, d);
    PrefixSlot(other, d);
    if Prefix(page, d + 1) == Prefix(other, d + 1) {
      PrefixOf(page, other, d);
      SamePrefix(vm, d, page, other);
    }
  }

  lemma PrefixOf(page: nat, other: nat, d: nat)
    requires d <= 3 && Prefix(page, d + 1) == Prefix(other, d + 1)
    ensures Prefix(page, d) == Prefix(other, d) && Slot(page, d) == Slot(other, d)
  {
    PrefixSlot(page, d);
    PrefixSlot(other, d);
    DivMod(Prefix(other, d), Slot(other, d), Prefix(page, d), Slot(page, d));
  }

  lemma DivMod(a: nat, i: nat, b: nat, j: nat)
    requires i < SLOTS && j < SLOTS && a * SLOTS + i == b * SLOTS + j
    ensures a == b && i == j
  {
  }

  lemma {:induction false} DownTranslate(vm: Vm, owner: map<nat, Node>, d: nat, page: nat, other: nat)
    requires StepReady(vm, owner, d, page) && other < PAGES
    ensures Translate(Down(vm, d, page), other) == Translate(vm, other)
  {
    DownTables(vm, owner, d, page, 3, other);
    OnPath(vm, owner, d, page);
    OnPath(vm, owner, 3, other);
    DownTree(vm, owner, d, page);
    if TableOf(vm, 3, other).Some? {
      TreeWritable(vm, owner, 3, other);
    }
    if TableOf(Down(vm, d, page), 3, other).Some? {
      TreeWritable(Down(vm, d, page), Grown(vm, owner, d, page), 3, other);
    }
    hide WritableTo;
    if TableOf(vm, d + 1, page).None? {
      TableFrame(vm, owner);
      if d == 2 && Prefix(other, 3) == Prefix(page, 3) {
        SamePrefix(vm, 3, page, other);
      }
    }
  }
}
