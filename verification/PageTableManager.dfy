/** The page table manager object: 64-bit entries rewritten in place, frames taken from the allocator object. */
module PageTables {
  import opened Common
  import opened Words
  import opened PageEntries
  import opened FrameSpec
  import opened TableSpec
  import opened PageFrames

  type RawTable = t: seq<bv64> | |t| == SLOTS witness seq(SLOTS, _ => 0)

  function Zeros(): (t: RawTable)
    ensures forall i :: 0 <= i < SLOTS ==> t[i] == 0
  {
    seq(SLOTS, _ => 0)
  }

  /** What the processor sees in a stored word: bit 0, bit 1, and the frame number. */
  function Decode(w: bv64): Entry {
    Entry(Masked(w, 0x1) != 0, Masked(w, 0x2) != 0, FrameOf(w))
  }

  /** The word is empty, or a frame's address with bits 0 and 1 set: a page or table for the kernel alone, of the usual
      size, cached, and open to execution. */
  predicate PlainWord(w: bv64) {
    w == 0 || w == LinkedTo(0, FieldOf(w))
  }

  predicate Plain(ram: map<nat, RawTable>) {
    forall f, i :: f in ram && 0 <= i < SLOTS ==> PlainWord(ram[f][i])
  }

  /** So what is decoded determines the word. */
  lemma PlainIs(w: bv64)
    requires PlainWord(w)
    ensures w == if Decode(w).present then LinkedTo(0, ToWord(Decode(w).frame, ADDRESS_BITS)) else 0
  {
    hide ToWord, FromWord;
    OnesAddress();
    WordTrip(FieldOf(w), ADDRESS_BITS);
    FieldFits(w);
    LinkedPresent(FieldOf(w));
    hide FieldOf, LinkedTo, Masked;
    NothingMasked(0x1);
  }

  lemma FieldFits(w: bv64)
    ensures FieldOf(w) & ADDRESS_MASK == FieldOf(w) && Masked(FieldOf(w), ADDRESS_MASK) == FieldOf(w)
  {
  }

  lemma LinkedPresent(frame: bv64)
    ensures Masked(LinkedTo(0, frame), 0x1) != 0
  {
  }

  lemma NothingMasked(mask: bv64)
    ensures Masked(0, mask) == 0
  {
  }

  /** Linking a frame in such a word leaves the frame's address with bits 0 and 1, whatever frame it held. */
  lemma LinkedPlain(w: bv64, frame: nat)
    requires PlainWord(w)
    ensures LinkedValue(w, frame) == LinkedTo(0, ToWord(frame, ADDRESS_BITS)) && PlainWord(LinkedValue(w, frame))
  {
    hide ToWord, LinkedValue;
    LinkedWord(w, frame);
    LinkedWord(0, frame);
    LinkedAddress(0, frame);
    FieldFits(w);
    LinkedOver(FieldOf(w), ToWord(frame, ADDRESS_BITS));
    hide FieldOf, LinkedTo;
  }

  lemma LinkedOver(before: bv64, frame: bv64)
    requires before & ADDRESS_MASK == before
    ensures LinkedTo(LinkedTo(0, before), frame) == LinkedTo(0, frame)
  {
  }

  predicate DecodesTo(raw: RawTable, table: Table) {
    forall i :: 0 <= i < SLOTS ==> Decode(raw[i]) == table[i]
  }

  /** Every stored table decodes to the abstract one. */
  predicate Decodes(ram: map<nat, RawTable>, tables: map<nat, Table>) {
    && ram.Keys == tables.Keys
    && forall f :: f in ram ==> DecodesTo(ram[f], tables[f])
  }

  lemma DecodeZero()
    ensures Decode(0) == ABSENT
  {
    NothingMasked(0x1);
    NothingMasked(0x2);
    ZeroFrame(ADDRESS_BITS);
    AddressField(0);
  }

  lemma {:induction false} ZeroFrame(k: nat)
    ensures FromWord(0, k) == 0
  {
    if k > 0 {
      ZeroFrame(k - 1);
      assert Half(0) == 0;
    }
  }

  lemma DecodeLinked(w: bv64, frame: nat)
    ensures Decode(LinkedValue(w, frame)) == Entry(true, true, frame % FRAMES)
  {
    FramesIsPow2();
    LinkedEntry(w, frame);
  }

  lemma SmallFrame(frame: nat)
    requires frame < FRAMES
    ensures frame % FRAMES == frame
  {
  }

  lemma FramesIsPow2()
    ensures FRAMES == Pow2(ADDRESS_BITS)
  {
    assert Pow2(5) == 0x20;
    Pow2Twice(5);
    Pow2Twice(10);
    Pow2Twice(20);
  }

  lemma {:induction false} Pow2Twice(k: nat)
    ensures Pow2(k + k) == Pow2(k) * Pow2(k)
  {
    Pow2Sum(k, k);
  }

  lemma {:induction false} Pow2Sum(j: nat, k: nat)
    ensures Pow2(j + k) == Pow2(j) * Pow2(k)
  {
    if j > 0 {
      Pow2Sum(j - 1, k);
      assert Pow2(j + k) == 2 * Pow2(j - 1 + k);
    }
  }

  /** The manager's two reads of an entry are the processor's. */
  lemma ReadsAsProcessor(w: bv64)
    ensures GetFlag(w, Present) == Decode(w).present
    ensures FromWord(GetAddress(w), ADDRESS_BITS) == Decode(w).frame
  {
    GetFlagOnlyPresent(Present);
    AddressField(w);
    hide GetFlag, GetAddress, FieldOf, Masked;
    assert Has(w, Present) == Decode(w).present;
  }

  class PageTableManager {
    const pfa: PageFrameAllocator
    var PML4: nat
    var ram: map<nat, RawTable>
    /** The abstract tables this object stands for. */
    ghost var vm: Vm

    ghost predicate Valid()
      reads this, pfa, pfa.PageBitmap, pfa.PageBitmap.Buffer
    {
      && pfa.Valid() && |pfa.state.bits| <= FRAMES
      && vm.pfa == pfa.state && vm.root == PML4 / PAGE
      && Decodes(ram, vm.ram) && Plain(ram)
    }

    /** The PML4 page is zeroed by the caller before the manager is made (src/kernel.cpp lines 180-186). */
    constructor (allocator: PageFrameAllocator, PML4Address: nat)
      requires allocator.Valid() && |allocator.state.bits| <= FRAMES
      ensures Valid() && pfa == allocator && PML4 == PML4Address
      ensures vm == Vm(allocator.state, PML4Address / PAGE, map[PML4Address / PAGE := ZeroTable()])
    {
      pfa := allocator;
      PML4 := PML4Address;
      ram := map[PML4Address / PAGE := Zeros()];
      vm := Vm(allocator.state, PML4Address / PAGE, map[PML4Address / PAGE := ZeroTable()]);
      new;
      DecodeZero();
    }

    /** The words of a table; memory no table was made in reads as zero. */
    function Words(frame: nat): (t: RawTable)
      reads this
    {
      if frame in ram then ram[frame] else Zeros()
    }

    lemma WordsDecode(frame: nat)
      requires Decodes(ram, vm.ram)
      ensures DecodesTo(Words(frame), TableAt(vm.ram, frame))
    {
      DecodeZero();
    }

    /** The words are those that the abstract entries ask for. */
    lemma WordsAre(frame: nat, i: nat)
      requires Valid() && frame in ram && i < SLOTS
      ensures frame in vm.ram
      ensures ram[frame][i] ==
              if vm.ram[frame][i].present then LinkedTo(0, ToWord(vm.ram[frame][i].frame, ADDRESS_BITS)) else 0
    {
      hide PlainWord, Decode;
      assert DecodesTo(ram[frame], vm.ram[frame]);
      PlainIs(ram[frame][i]);
    }

    /** Store one entry of a table in place. */
    method Store(table: nat, i: nat, w: bv64)
      requires Valid() && i < SLOTS && PlainWord(w)
      modifies this
      ensures Valid() && PML4 == old(PML4)
      ensures vm == Vm(old(vm).pfa, old(vm).root, Put(old(vm).ram, table, i, Decode(w)))
    {
      WordsDecode(table);
      ram := ram[table := Words(table)[i := w]];
      vm := Vm(vm.pfa, vm.root, Put(vm.ram, table, i, Decode(w)));
    }

    /** Request a page and zero it. */
    method NewTable() returns (frame: nat)
      requires Valid()
      modifies this, pfa, pfa.PageBitmap.Buffer
      ensures Valid() && PML4 == old(PML4)
      ensures frame == Request(old(vm).pfa).1 / PAGE < FRAMES
      ensures vm == Vm(Request(old(vm).pfa).0, old(vm).root, old(vm).ram[frame := ZeroTable()])
    {
      DecodeZero();
      var page := pfa.RequestPage();
      frame := page / PAGE;
      ram := ram[frame := Zeros()];
      vm := Vm(pfa.state, vm.root, vm.ram[frame := ZeroTable()]);
    }

    /** Set the address, Present and ReadWrite of an entry that was read, and store it. */
    method Link(table: nat, i: nat, PDE: bv64, frame: nat)
      requires Valid() && i < SLOTS && PlainWord(PDE)
      modifies this
      ensures Valid() && PML4 == old(PML4)
      ensures vm == Vm(old(vm).pfa, old(vm).root, Put(old(vm).ram, table, i, Entry(true, true, frame % FRAMES)))
    {
      hide Put, Decode, LinkedValue, PlainWord;
      DecodeLinked(PDE, frame);
      LinkedPlain(PDE, frame);
      Store(table, i, LinkedValue(PDE, frame));
    }

    lemma WordPlain(table: nat, i: nat)
      requires Plain(ram) && i < SLOTS
      ensures PlainWord(Words(table)[i])
    {
    }

    /** One of the three blocks of `MapMemory` that find or create the next table (lines 69-83, 86-100 and 103-117). */
    method NextTable(table: nat, i: nat) returns (next: nat)
      requires Valid() && i < SLOTS
      modifies this, pfa, pfa.PageBitmap.Buffer
      ensures Valid() && PML4 == old(PML4)
      ensures (vm, next) == Descend(old(vm), table, i)
    {
      var PDE := Words(table)[i];
      WordsDecode(table);
      ReadsAsProcessor(PDE);
      if !GetFlag(PDE, Present) {
        hide Put, Decode, PlainWord;
        WordPlain(table, i);
        next := NewTable();
        SmallFrame(next);
        Link(table, i, PDE, next);
      } else {
        next := FromWord(GetAddress(PDE), ADDRESS_BITS);
      }
    }

    /** An entry holds 40 bits of the frame number: physical addresses are taken modulo 2^52. */
    method MapMemory(virtualMemory: nat, physicalMemory: nat)
      requires Valid()
      modifies this, pfa, pfa.PageBitmap.Buffer
      ensures Valid() && PML4 == old(PML4)
      ensures vm == MapPage(old(vm), PageOf(virtualMemory), physicalMemory / PAGE % FRAMES)
    {
      var indexer := new PageMapIndexer(virtualMemory);
      ghost var page := PageOf(virtualMemory);
      ghost var before := vm;
      var PDP := NextTable(PML4 / PAGE, indexer.PDP_i);
      assert Walk(before, before.root, 0, page) == Walk(vm, PDP, 1, page);
      var PD := NextTable(PDP, indexer.PD_i);
      assert Walk(before, before.root, 0, page) == Walk(vm, PD, 2, page);
      var PT := NextTable(PD, indexer.PT_i);
      assert Walk(before, before.root, 0, page) == (vm, PT);
      var PDE := Words(PT)[indexer.P_i];
      WordPlain(PT, indexer.P_i);
      Link(PT, indexer.P_i, PDE, physicalMemory / PAGE);
    }
  }
}
