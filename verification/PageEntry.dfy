/** Page table entries (src/Paging/Paging.cpp) and the split of a virtual address (src/Paging/PageMapIndexer.cpp). */
module PageEntries {
  import opened Common
  import opened Words

  datatype PT_Flag =
    | Present | ReadWrite | UserSuper | WriteThrough | CacheDisabled | Accessed | LargerPages
    | Custom0 | Custom1 | Custom2 | NX

  /** The bit of a flag, `(uint64_t)1 << flag`. */
  function Selector(flag: PT_Flag): bv64 {
    match flag
    case Present => 1 << 0
    case ReadWrite => 1 << 1
    case UserSuper => 1 << 2
    case WriteThrough => 1 << 3
    case CacheDisabled => 1 << 4
    case Accessed => 1 << 5
    case LargerPages => 1 << 7
    case Custom0 => 1 << 9
    case Custom1 => 1 << 10
    case Custom2 => 1 << 11
    case NX => 1 << 63
  }

  function WithBit(value: bv64, selector: bv64, enabled: bool): bv64 {
    if enabled then (value & !selector) | selector else value & !selector
  }

  function WithFlag(value: bv64, flag: PT_Flag, enabled: bool): bv64 {
    WithBit(value, Selector(flag), enabled)
  }

  /** `>` binds tighter than `&` in the source, so this is the value masked with the truth of `selector > 0`. */
  predicate GetFlag(value: bv64, flag: PT_Flag) {
    value & (if Selector(flag) > 0 then 1 else 0) != 0
  }

  function GetAddress(value: bv64): bv64 {
    (value & 0x000f_ffff_ffff_f000) >> 12
  }

  function WithAddress(value: bv64, address: bv64): bv64 {
    (value & 0xfff0_0000_0000_0fff) | ((address & ADDRESS_MASK) << 12)
  }

  // ---------- the processor's view: Intel SDM volume 3A, section 4.5 ----------

  /** The flag's own bit: P, R/W, U/S, PWT, PCD, A, PS, three that are ignored, and XD. */
  predicate Has(value: bv64, flag: PT_Flag) {
    match flag
    case Present => Masked(value, 0x1) != 0
    case ReadWrite => Masked(value, 0x2) != 0
    case UserSuper => Masked(value, 0x4) != 0
    case WriteThrough => Masked(value, 0x8) != 0
    case CacheDisabled => Masked(value, 0x10) != 0
    case Accessed => Masked(value, 0x20) != 0
    case LargerPages => Masked(value, 0x80) != 0
    case Custom0 => Masked(value, 0x200) != 0
    case Custom1 => Masked(value, 0x400) != 0
    case Custom2 => Masked(value, 0x800) != 0
    case NX => Masked(value, 0x8000_0000_0000_0000) != 0
  }

  /** The frame number in bits 12 to 51. */
  function FieldOf(value: bv64): bv64 {
    (value >> 12) & ADDRESS_MASK
  }

  function FrameOf(value: bv64): nat {
    FromWord(FieldOf(value), ADDRESS_BITS)
  }

  /** `GetFlag` answers for the asked flag on every entry exactly if that flag is Present. */
  lemma GetFlagOnlyPresent(flag: PT_Flag)
    ensures (forall value :: GetFlag(value, flag) == Has(value, flag)) <==> flag == Present
  {
    if flag != Present {
      assert GetFlag(1, flag) && !Has(1, flag);
    }
  }

  /** The selectors are the processor's bits. */
  lemma SelectorIs(flag: PT_Flag)
    ensures Selector(flag) ==
            match flag
            case Present => 0x1
            case ReadWrite => 0x2
            case UserSuper => 0x4
            case WriteThrough => 0x8
            case CacheDisabled => 0x10
            case Accessed => 0x20
            case LargerPages => 0x80
            case Custom0 => 0x200
            case Custom1 => 0x400
            case Custom2 => 0x800
            case NX => 0x8000_0000_0000_0000
  {
  }

  lemma HasIs(value: bv64, flag: PT_Flag)
    ensures Has(value, flag) <==> Masked(value, Selector(flag)) != 0
  {
    SelectorIs(flag);
    hide Selector, Masked;
  }

  /** The word with one bit written and the rest kept. */
  function Written(value: bv64, rest: bv64, bit: bv64, on: bool): bv64 {
    if on then (value & rest) | bit else value & rest
  }

  /** The one bit of the word that setting a flag writes. */
  lemma SetFlagWord(value: bv64, flag: PT_Flag, on: bool)
    ensures WithFlag(value, flag, on) ==
            match flag
            case Present => Written(value, 0xffff_ffff_ffff_fffe, 0x1, on)
            case ReadWrite => Written(value, 0xffff_ffff_ffff_fffd, 0x2, on)
            case UserSuper => Written(value, 0xffff_ffff_ffff_fffb, 0x4, on)
            case WriteThrough => Written(value, 0xffff_ffff_ffff_fff7, 0x8, on)
            case CacheDisabled => Written(value, 0xffff_ffff_ffff_ffef, 0x10, on)
            case Accessed => Written(value, 0xffff_ffff_ffff_ffdf, 0x20, on)
            case LargerPages => Written(value, 0xffff_ffff_ffff_ff7f, 0x80, on)
            case Custom0 => Written(value, 0xffff_ffff_ffff_fdff, 0x200, on)
            case Custom1 => Written(value, 0xffff_ffff_ffff_fbff, 0x400, on)
            case Custom2 => Written(value, 0xffff_ffff_ffff_f7ff, 0x800, on)
            case NX => Written(value, 0x7fff_ffff_ffff_ffff, 0x8000_0000_0000_0000, on)
  {
    SelectorIs(flag);
    hide Selector, WithBit, Written;
    match flag
    case Present => WithBitIs(value, 0xffff_ffff_ffff_fffe, 0x1, on);
    case ReadWrite => WithBitIs(value, 0xffff_ffff_ffff_fffd, 0x2, on);
    case UserSuper => WithBitIs(value, 0xffff_ffff_ffff_fffb, 0x4, on);
    case WriteThrough => WithBitIs(value, 0xffff_ffff_ffff_fff7, 0x8, on);
    case CacheDisabled => WithBitIs(value, 0xffff_ffff_ffff_ffef, 0x10, on);
    case Accessed => WithBitIs(value, 0xffff_ffff_ffff_ffdf, 0x20, on);
    case LargerPages => WithBitIs(value, 0xffff_ffff_ffff_ff7f, 0x80, on);
    case Custom0 => WithBitIs(value, 0xffff_ffff_ffff_fdff, 0x200, on);
    case Custom1 => WithBitIs(value, 0xffff_ffff_ffff_fbff, 0x400, on);
    case Custom2 => WithBitIs(value, 0xffff_ffff_ffff_f7ff, 0x800, on);
    case NX => WithBitIs(value, 0x7fff_ffff_ffff_ffff, 0x8000_0000_0000_0000, on);
  }

  lemma WithBitIs(value: bv64, rest: bv64, s: bv64, on: bool)
    requires rest == !s
    ensures WithBit(value, s, on) == Written(value, rest, s, on)
  {
  }

  lemma SelectorsDiffer(flag: PT_Flag, other: PT_Flag)
    ensures Selector(flag) != 0
    ensures other != flag ==> Masked(Selector(flag), Selector(other)) == 0
  {
  }

  lemma SelectorsAreFlags(flag: PT_Flag)
    ensures Masked(Selector(flag), 0x000f_ffff_ffff_f000) == 0
  {
  }

  lemma BitFrame(value: bv64, s: bv64, enabled: bool, t: bv64)
    ensures Masked(WithBit(value, s, enabled), s) == if enabled then s else 0
    ensures Masked(s, t) == 0 ==> Masked(WithBit(value, s, enabled), t) == Masked(value, t)
  {
  }

  /** Setting one flag changes that flag only: no other flag and no address bit. */
  lemma SetFlagFrame(value: bv64, flag: PT_Flag, enabled: bool, other: PT_Flag)
    ensures Has(WithFlag(value, flag, enabled), other) == if other == flag then enabled else Has(value, other)
    ensures GetAddress(WithFlag(value, flag, enabled)) == GetAddress(value)
  {
    var s := Selector(flag);
    SelectorsAreFlags(flag);
    BitFrame(value, s, enabled, 0x000f_ffff_ffff_f000);
    SetFlagBit(value, flag, enabled, other);
    hide Selector, Has, WithBit;
  }

  lemma SetFlagBit(value: bv64, flag: PT_Flag, enabled: bool, other: PT_Flag)
    ensures Has(WithFlag(value, flag, enabled), other) == if other == flag then enabled else Has(value, other)
  {
    hide Selector, Has, WithBit, Masked;
    SelectorsDiffer(flag, other);
    BitFrame(value, Selector(flag), enabled, Selector(other));
    HasIs(value, other);
    HasIs(WithFlag(value, flag, enabled), other);
  }

  /** Storing an address reads back its low 40 bits and changes no other bit, so no flag. */
  lemma SetAddressFrame(value: bv64, address: bv64, flag: PT_Flag)
    ensures GetAddress(WithAddress(value, address)) == address & ADDRESS_MASK
    ensures WithAddress(value, address) & 0xfff0_0000_0000_0fff == value & 0xfff0_0000_0000_0fff
    ensures Has(WithAddress(value, address), flag) == Has(value, flag)
  {
    SelectorsAreFlags(flag);
    AddressFrame(value, address, Selector(flag));
    AddressFrame(value, address, 0xfff0_0000_0000_0fff);
    HasIs(value, flag);
    HasIs(WithAddress(value, address), flag);
    hide Selector, Has;
  }

  lemma AddressFrame(value: bv64, address: bv64, s: bv64)
    requires s & 0x000f_ffff_ffff_f000 == 0
    ensures GetAddress(WithAddress(value, address)) == address & ADDRESS_MASK
    ensures WithAddress(value, address) & s == value & s
  {
  }

  /** What `MapMemory` stores for a frame: address, Present, ReadWrite. */
  function LinkedValue(value: bv64, frame: nat): bv64 {
    WithFlag(WithFlag(WithAddress(value, ToWord(frame, ADDRESS_BITS)), Present, true), ReadWrite, true)
  }

  /** The processor finds in a linked entry the low 40 bits of the frame that was stored there. */
  lemma LinkedEntry(value: bv64, frame: nat)
    ensures Has(LinkedValue(value, frame), Present) && Has(LinkedValue(value, frame), ReadWrite)
    ensures Pow2(ADDRESS_BITS) > 0 && FrameOf(LinkedValue(value, frame)) == frame % Pow2(ADDRESS_BITS)
  {
    var w := ToWord(frame, ADDRESS_BITS);
    var b := WithFlag(WithAddress(value, w), Present, true);
    SetFlagBit(WithAddress(value, w), Present, true, Present);
    SetFlagBit(b, ReadWrite, true, Present);
    SetFlagBit(b, ReadWrite, true, ReadWrite);
    LinkedAddress(value, frame);
    RoundTrip(frame, ADDRESS_BITS);
    hide Has, WithFlag, WithAddress, ToWord, FieldOf;
  }

  /** Bits 12 to 51 are the frame's, bits 0 and 1 are set, and all others are as they were. */
  function LinkedTo(value: bv64, frame: bv64): bv64 {
    (value & 0xfff0_0000_0000_0ffc) | (frame << 12) | 0x3
  }

  /** That is the whole word that is stored. */
  lemma LinkedWord(value: bv64, frame: nat)
    ensures LinkedValue(value, frame) == LinkedTo(value, ToWord(frame, ADDRESS_BITS))
  {
    hide LinkedTo, Written, WithFlag, ToWord, WithAddress;
    var w := ToWord(frame, ADDRESS_BITS);
    ToWordFits(frame, ADDRESS_BITS);
    SetFlagWord(WithAddress(value, w), Present, true);
    SetFlagWord(WithFlag(WithAddress(value, w), Present, true), ReadWrite, true);
    LinkedBits(value, w);
  }

  lemma LinkedBits(value: bv64, w: bv64)
    requires w & ADDRESS_MASK == w
    ensures Written(Written(WithAddress(value, w), 0xffff_ffff_ffff_fffe, 0x1, true), 0xffff_ffff_ffff_fffd, 0x2, true)
            == LinkedTo(value, w)
  {
  }

  lemma LinkedAddress(value: bv64, frame: nat)
    ensures FieldOf(LinkedValue(value, frame)) == ToWord(frame, ADDRESS_BITS)
  {
    hide LinkedTo, LinkedValue, ToWord, FieldOf;
    LinkedWord(value, frame);
    ToWordFits(frame, ADDRESS_BITS);
    LinkedField(value, ToWord(frame, ADDRESS_BITS));
  }

  lemma LinkedField(value: bv64, frame: bv64)
    requires frame & ADDRESS_MASK == frame
    ensures FieldOf(LinkedTo(value, frame)) == frame
  {
  }

  lemma AddressField(value: bv64)
    ensures GetAddress(value) == FieldOf(value)
  {
  }

  // ---------- the address split ----------

  const SLOTS := 512
  const PAGES := 0x10_0000_0000  // 2^36 pages in 48 bits of address

  /** The page number in bits 12 to 47 of a virtual address. */
  function PageOf(virtualAddress: nat): nat {
    (virtualAddress / PAGE) % PAGES
  }

  /** Pages under one entry of a table at depth d - 1, that is, under one table at depth d; depth 0 is the PML4. */
  function Span(d: nat): nat
    requires d <= 4
  {
    match d
    case 0 => 0x10_0000_0000
    case 1 => 0x800_0000
    case 2 => 0x4_0000
    case 3 => 0x200
    case 4 => 1
  }

  /** The entry index of a page in its table at depth d. */
  function Slot(page: nat, d: nat): (i: nat)
    requires d <= 3
    ensures i < SLOTS
  {
    (page / Span(d + 1)) % SLOTS
  }

  /** Which table of depth d a page belongs to. */
  function Prefix(page: nat, d: nat): nat
    requires d <= 4
  {
    page / Span(d)
  }

  lemma PrefixSlot(page: nat, d: nat)
    requires d <= 3
    ensures Prefix(page, d + 1) == Prefix(page, d) * SLOTS + Slot(page, d)
  {
    match d
    case 0 => assert page / 0x10_0000_0000 == page / 0x800_0000 / 512;
    case 1 => assert page / 0x800_0000 == page / 0x4_0000 / 512;
    case 2 => assert page / 0x4_0000 == page / 0x200 / 512;
    case 3 =>
  }

  /** Four 9-bit indices, taken from the address step by step; unsigned shifts and masks are quotients and remainders. */
  class PageMapIndexer {
    var PDP_i: nat
    var PD_i: nat
    var PT_i: nat
    var P_i: nat

    constructor (address: nat)
      ensures PDP_i == Slot(PageOf(address), 0) && PD_i == Slot(PageOf(address), 1)
      ensures PT_i == Slot(PageOf(address), 2) && P_i == Slot(PageOf(address), 3)
    {
      var virtualAddress := address / 4096;
      var page := virtualAddress;
      P_i := virtualAddress % 512;
      virtualAddress := virtualAddress / 512;
      PT_i := virtualAddress % 512;
      virtualAddress := virtualAddress / 512;
      PD_i := virtualAddress % 512;
      virtualAddress := virtualAddress / 512;
      PDP_i := virtualAddress % 512;
      new;
      SplitIsSlots(page);
    }
  }

  lemma SplitIsSlots(page: nat)
    ensures page % 512 == Slot(page % PAGES, 3)
    ensures page / 512 % 512 == Slot(page % PAGES, 2)
    ensures page / 512 / 512 % 512 == Slot(page % PAGES, 1)
    ensures page / 512 / 512 / 512 % 512 == Slot(page % PAGES, 0)
  {
    var q, r := page / PAGES, page % PAGES;
    Quotients(page);
    Quotients(r);
    DivideUnique(page, q * 0x800_0000 + r / 512, r % 512);
    DivideUnique(page / 512, q * 0x4_0000 + r / 512 / 512, r / 512 % 512);
    DivideUnique(page / 512 / 512, q * 512 + r / 512 / 512 / 512, r / 512 / 512 % 512);
    DivideUnique(page / 512 / 512 / 512, q, r / 512 / 512 / 512);
    DivideUnique(r / 512 / 512 / 512, 0, r / 512 / 512 / 512);
  }

  /** The four indices are bits 39 to 47, 30 to 38, 21 to 29 and 12 to 20 of the address (section 4.5 of the Intel SDM,
      volume 3A). */
  lemma SlotBits(address: nat)
    ensures Slot(PageOf(address), 0) == address / 0x80_0000_0000 % 512
    ensures Slot(PageOf(address), 1) == address / 0x4000_0000 % 512
    ensures Slot(PageOf(address), 2) == address / 0x20_0000 % 512
    ensures Slot(PageOf(address), 3) == address / 0x1000 % 512
  {
    var page := address / 4096;
    SplitIsSlots(page);
    assert PageOf(address) == page % PAGES;
    hide Slot, PageOf;
    DivideAgain(address, 0x1000);
    DivideAgain(address, 0x20_0000);
    DivideAgain(address, 0x4000_0000);
  }

  lemma DivideAgain(n: nat, m: nat)
    requires m > 0
    ensures n / m / 512 == n / (m * 512)
  {
    var q := n / m / 512;
    var r := n - q * (m * 512);
    assert n == m * (n / m) + n % m && n / m == 512 * q + n / m % 512;
    assert r == m * (n / m % 512) + n % m;
    Within(m, n / m % 512, n % m);
    UniqueQuotient(n, m * 512, q, r);
  }

  lemma Within(m: nat, d: nat, r: nat)
    requires d < 512 && r < m
    ensures m * d + r < m * 512
  {
    assert m * d + m == m * (d + 1) <= m * 512;
  }

  lemma UniqueQuotient(n: nat, m: nat, q: nat, r: nat)
    requires m > 0 && n == q * m + r && r < m
    ensures n / m == q
  {
    Remainder(n, m, q, r);
    assert m * (n / m) == m * q;
    Multiple(m, n / m - q);
  }

  lemma Quotients(page: nat)
    ensures page / 512 / 512 == page / 0x4_0000
    ensures page / 512 / 512 / 512 == page / 0x800_0000
  {
  }

  /** The split is a bijection between page numbers and four indices. */
  lemma SplitIsBijective(page: nat, p: nat, q: nat, r: nat, s: nat)
    requires page < PAGES && p < SLOTS && q < SLOTS && r < SLOTS && s < SLOTS
    ensures Slot(page, 0) == p && Slot(page, 1) == q && Slot(page, 2) == r && Slot(page, 3) == s <==>
            page == p * 0x800_0000 + q * 0x4_0000 + r * 0x200 + s
  {
    SlotsRebuild(page);
    if page == p * 0x800_0000 + q * 0x4_0000 + r * 0x200 + s {
      SlotsOfSum(page, p, q, r, s);
    }
  }

  lemma SlotsRebuild(page: nat)
    requires page < PAGES
    ensures page == Slot(page, 0) * Span(1) + Slot(page, 1) * Span(2) + Slot(page, 2) * Span(3) + Slot(page, 3)
  {
    PrefixSlot(page, 0);
    PrefixSlot(page, 1);
    PrefixSlot(page, 2);
    PrefixSlot(page, 3);
  }

  lemma SlotsOfSum(page: nat, p: nat, q: nat, r: nat, s: nat)
    requires page < PAGES && p < SLOTS && q < SLOTS && r < SLOTS && s < SLOTS
    requires page == p * Span(1) + q * Span(2) + r * Span(3) + s
    ensures Slot(page, 0) == p && Slot(page, 1) == q && Slot(page, 2) == r && Slot(page, 3) == s
  {
    Quotients(page);
    DivideUnique(page, (p * 512 + q) * 512 + r, s);
    DivideUnique(page / 512, p * 512 + q, r);
    DivideUnique(page / 512 / 512, p, q);
    DivideUnique(p, 0, p);
  }

  lemma DivideUnique(n: nat, q: nat, r: nat)
    requires n == q * SLOTS + r && r < SLOTS
    ensures n / SLOTS == q && n % SLOTS == r
  {
  }
}
