/** The heap object: headers linked through memory, rewritten in place. */
module Heaps {
  import opened Common
  import opened PageEntries
  import opened FrameSpec
  import opened TableSpec
  import MapSpec
  import opened BlockSpec
  import opened HeapPages
  import opened PageFrames
  import opened PageTables

  const NULL: int := 0

  datatype HeapBlockHeader = HeapBlockHeader(Length: int, Next: int, Prev: int, Free: bool)

  /** Header-sized memory by address; address 0 is mapped like any other. */
  type Memory = map<int, HeapBlockHeader>

  /** The header block i must have in a list: its neighbours' addresses, or NULL at the ends. */
  function HeaderOf(bs: seq<Block>, i: nat): HeapBlockHeader
    requires i < |bs|
  {
    HeapBlockHeader(bs[i].len, if i + 1 < |bs| then bs[i + 1].addr else NULL, if i > 0 then bs[i - 1].addr else NULL,
                    bs[i].free)
  }

  /** Memory holds the list, linked both ways, and `last` is its last block. */
  ghost predicate Linked(m: Memory, last: int, bs: seq<Block>) {
    && NULL in m && |bs| > 0 && last == bs[|bs| - 1].addr
    && forall i :: 0 <= i < |bs| ==> bs[i].addr in m && m[bs[i].addr] == HeaderOf(bs, i)
  }

  /** Block addresses differ and are not NULL. */
  ghost predicate Distinct(bs: seq<Block>) {
    && (forall i :: 0 <= i < |bs| ==> bs[i].addr != NULL)
    && (forall i, j :: 0 <= i < j < |bs| ==> bs[i].addr != bs[j].addr)
  }

  lemma TilesDistinct(bs: seq<Block>, start: int, end: int)
    requires Tiles(bs, start, end) && start > 0
    ensures Distinct(bs)
  {
    forall i | 0 <= i < |bs|
      ensures bs[i].addr != NULL
    {
      TilesWithin(bs, start, end, i);
    }
    forall i, j | 0 <= i < j < |bs|
      ensures bs[i].addr != bs[j].addr
    {
      TilesOrdered(bs, start, end, i, j);
    }
  }

  /** Where the headers of a list are. */
  function Headers(bs: seq<Block>): set<int> {
    set i | 0 <= i < |bs| :: bs[i].addr
  }

  /** Only headers at these addresses were written. */
  ghost predicate WritesOnly(before: Memory, after: Memory, where: set<int>) {
    && before.Keys <= after.Keys
    && forall a :: a in after && a !in where ==> a in before && after[a] == before[a]
  }

  /** No header that was written reaches into the payload of a block that was live before, NULL's included. */
  ghost predicate Spares(before: Memory, after: Memory, bs: seq<Block>) {
    forall a, k :: a in after && (a !in before || after[a] != before[a]) && 0 <= k < |bs| && !bs[k].free ==>
      a + HEADER <= bs[k].Payload() || bs[k].End() <= a
  }

  // ---------- what the writes of each operation do to the list ----------

  /** `CombineForward` with a free next block. */
  function Merged(m: Memory, a: int): Memory
    requires MergeReads(m, a)
  {
    var n := m[a].Next;
    var linked := if m[n].Next == NULL then m else m[m[n].Next := m[m[n].Next].(Prev := a)];
    linked[a := linked[a].(Length := linked[a].Length + linked[n].Length + HEADER, Next := linked[n].Next)]
  }

  lemma LinkedAt(m: Memory, last: int, bs: seq<Block>, i: nat)
    requires Linked(m, last, bs) && i < |bs|
    ensures NULL in m && bs[i].addr in m && m[bs[i].addr] == HeaderOf(bs, i)
    ensures last == bs[|bs| - 1].addr
  {
  }

  lemma DistinctAt(bs: seq<Block>, i: nat, j: nat)
    requires Distinct(bs) && i < |bs| && j < |bs|
    ensures bs[i].addr != NULL
    ensures bs[i].addr == bs[j].addr <==> i == j
  {
  }

  /** The reads of `CombineForward` on block i. */
  predicate MergeReads(m: Memory, a: int) {
    a in m && m[a].Next in m && (m[m[a].Next].Next == NULL || m[m[a].Next].Next in m)
  }

  lemma MergeReadsList(m: Memory, last: int, bs: seq<Block>, i: nat)
    requires Linked(m, last, bs) && Distinct(bs) && i + 1 < |bs|
    ensures var a := bs[i].addr;
            && MergeReads(m, a) && m[a] == HeaderOf(bs, i)
            && m[a].Next == bs[i + 1].addr && m[m[a].Next] == HeaderOf(bs, i + 1)
  {
    LinkedAt(m, last, bs, i);
    LinkedAt(m, last, bs, i + 1);
    if i + 2 < |bs| {
      LinkedAt(m, last, bs, i + 2);
    }
  }

  /** The header at x after the merge. */
  lemma MergedAt(m: Memory, a: int, x: int)
    requires MergeReads(m, a) && x in m && m[a].Next != a && m[m[a].Next].Next != a && m[m[a].Next].Next != m[a].Next
    ensures var n := m[a].Next;
            && x in Merged(m, a)
            && Merged(m, a)[x] == if x == a then m[a].(Length := m[a].Length + m[n].Length + HEADER, Next := m[n].Next)
                                  else if x == m[n].Next && x != NULL then m[x].(Prev := a)
                                  else m[x]
  {
  }

  lemma MergedBlock(m: Memory, last: int, bs: seq<Block>, i: nat, k: nat)
    requires Linked(m, last, bs) && Distinct(bs) && i + 1 < |bs| && bs[i + 1].free && k < |bs| - 1
    ensures var a, cs := bs[i].addr, CombineForward(bs, i);
            && MergeReads(m, a)
            && cs[k].addr in Merged(m, a) && Merged(m, a)[cs[k].addr] == HeaderOf(cs, k)
  {
    var a, n, j := bs[i].addr, bs[i + 1].addr, if k <= i then k else k + 1;
    MergeReadsList(m, last, bs, i);
    LinkedAt(m, last, bs, j);
    DistinctAt(bs, i, i + 1);
    DistinctAt(bs, i + 1, i + 1);
    DistinctAt(bs, j, i);
    DistinctAt(bs, j, j);
    if i + 2 < |bs| {
      DistinctAt(bs, i + 2, j);
      DistinctAt(bs, i + 2, i + 1);
      DistinctAt(bs, i + 2, i);
    }
    NextOfNext(bs, i);
    hide Linked, Distinct, Merged, MergeReads;
    MergedAt(m, a, bs[j].addr);
    MergedHeader(bs, i, k);
  }

  /** What the merged list's header k must be, from the header it was. */
  lemma MergedHeader(bs: seq<Block>, i: nat, k: nat)
    requires i + 1 < |bs| && bs[i + 1].free && k < |bs| - 1
    ensures var cs, j := CombineForward(bs, i), if k <= i then k else k + 1;
            && cs[k].addr == bs[j].addr
            && HeaderOf(cs, k) ==
               if k == i then HeaderOf(bs, i).(Length := bs[i].len + bs[i + 1].len + HEADER, Next := HeaderOf(bs, i + 1).Next)
               else if k == i + 1 then HeaderOf(bs, j).(Prev := bs[i].addr)
               else HeaderOf(bs, j)
  {
  }

  lemma NextOfNext(bs: seq<Block>, i: nat)
    requires i + 1 < |bs|
    ensures HeaderOf(bs, i + 1).Next == if i + 2 < |bs| then bs[i + 2].addr else NULL
    ensures HeaderOf(bs, i).Length == bs[i].len && HeaderOf(bs, i + 1).Length == bs[i + 1].len
  {
  }

  lemma MergedWrites(m: Memory, last: int, bs: seq<Block>, i: nat)
    requires Linked(m, last, bs) && Distinct(bs) && i + 1 < |bs|
    ensures MergeReads(m, bs[i].addr) && WritesOnly(m, Merged(m, bs[i].addr), Headers(bs))
  {
    MergeReadsList(m, last, bs, i);
    hide Linked, Distinct;
    HeaderIn(bs, i);
    if i + 2 < |bs| {
      HeaderIn(bs, i + 2);
    }
  }

  lemma MergedLinked(m: Memory, last: int, bs: seq<Block>, i: nat)
    requires Linked(m, last, bs) && Distinct(bs) && i + 1 < |bs| && bs[i + 1].free
    ensures var a := bs[i].addr;
            && MergeReads(m, a)
            && Linked(Merged(m, a), if bs[i + 1].addr == last then a else last, CombineForward(bs, i))
  {
    hide Merged, HeaderOf, MergeReads, Headers, Distinct;
    MergedWrites(m, last, bs, i);
    LinkedAt(m, last, bs, i);
    DistinctAt(bs, i + 1, |bs| - 1);
    var cs := CombineForward(bs, i);
    forall k | 0 <= k < |cs|
      ensures cs[k].addr in Merged(m, bs[i].addr) && Merged(m, bs[i].addr)[cs[k].addr] == HeaderOf(cs, k)
    {
      MergedBlock(m, last, bs, i, k);
    }
  }

  lemma HeaderIn(bs: seq<Block>, i: nat)
    requires i < |bs|
    ensures bs[i].addr in Headers(bs)
  {
  }

  /** `Split` with the part after `size` bytes: the old next block, or NULL, is linked back to the new one. */
  function Cut(m: Memory, a: int, size: int): Memory
    requires a in m && m[a].Next in m
  {
    var b := a + size + HEADER;
    var h := m[a];
    var back := m[h.Next := m[h.Next].(Prev := b)];
    back[b := HeapBlockHeader(h.Length - size - HEADER, h.Next, a, h.Free)]
        [a := back[a].(Next := b, Length := size)]
  }

  /** The header at x after the cut. */
  lemma CutAt(m: Memory, a: int, size: int, x: int)
    requires a in m && m[a].Next in m && m[a].Next != a && size + HEADER != 0 && a + size + HEADER != m[a].Next
    requires x in m || x == a + size + HEADER
    ensures var b, h := a + size + HEADER, m[a];
            && x in Cut(m, a, size)
            && Cut(m, a, size)[x] == if x == a then h.(Next := b, Length := size)
                                     else if x == b then HeapBlockHeader(h.Length - size - HEADER, h.Next, a, h.Free)
                                     else if x == h.Next then m[x].(Prev := b)
                                     else m[x]
  {
  }

  lemma CutBlock(m: Memory, last: int, bs: seq<Block>, i: nat, size: int, k: nat)
    requires Linked(m, last, bs) && i < |bs| && Splits(bs[i], size) && k <= |bs|
    requires Distinct(bs) && Distinct(Split(bs, i, size))
    ensures var a, cs := bs[i].addr, Split(bs, i, size);
            && a in m && m[a].Next in m
            && cs[k].addr in Cut(m, a, size) && Cut(m, a, size)[cs[k].addr] == HeaderOf(cs, k)
  {
    hide Linked, Distinct, Cut;
    var cs := Split(bs, i, size);
    LinkedAt(m, last, bs, i);
    if i + 1 < |bs| {
      LinkedAt(m, last, bs, i + 1);
    }
    LinkedAt(m, last, bs, if k <= i then k else if k == i + 1 then i else k - 1);
    DistinctAt(cs, k, i);
    DistinctAt(cs, k, i + 1);
    DistinctAt(cs, i, i + 1);
    DistinctAt(cs, i + 1, i + 1);
    if i + 2 < |cs| {
      DistinctAt(cs, k, i + 2);
      DistinctAt(cs, i, i + 2);
      DistinctAt(cs, i + 1, i + 2);
    }
    CutAt(m, bs[i].addr, size, cs[k].addr);
  }

  lemma CutWrites(m: Memory, last: int, bs: seq<Block>, i: nat, size: int)
    requires Linked(m, last, bs) && i < |bs|
    ensures var a := bs[i].addr;
            && a in m && m[a].Next in m
            && m[a].Next == (if i + 1 < |bs| then bs[i + 1].addr else NULL)
            && WritesOnly(m, Cut(m, a, size), {m[a].Next, a + size + HEADER, a})
  {
    LinkedAt(m, last, bs, i);
    if i + 1 < |bs| {
      LinkedAt(m, last, bs, i + 1);
    }
    hide Linked;
  }

  lemma CutLinked(m: Memory, last: int, bs: seq<Block>, i: nat, size: int)
    requires Linked(m, last, bs) && i < |bs| && Splits(bs[i], size)
    requires Distinct(bs) && Distinct(Split(bs, i, size))
    ensures var a := bs[i].addr;
            && a in m && m[a].Next in m
            && Linked(Cut(m, a, size), if last == a then a + size + HEADER else last, Split(bs, i, size))
  {
    hide Cut, HeaderOf, Distinct;
    CutWrites(m, last, bs, i, size);
    LinkedAt(m, last, bs, i);
    DistinctAt(bs, i, |bs| - 1);
    var cs := Split(bs, i, size);
    forall k | 0 <= k < |cs|
      ensures cs[k].addr in Cut(m, bs[i].addr, size) && Cut(m, bs[i].addr, size)[cs[k].addr] == HeaderOf(cs, k)
    {
      CutBlock(m, last, bs, i, size, k);
    }
  }

  /** Setting a block's free flag. */
  lemma FlagLinked(m: Memory, last: int, bs: seq<Block>, i: nat, free: bool)
    requires Linked(m, last, bs) && Distinct(bs) && i < |bs|
    ensures bs[i].addr in m
    ensures Linked(m[bs[i].addr := m[bs[i].addr].(Free := free)], last, bs[i := bs[i].(free := free)])
  {
    var cs := bs[i := bs[i].(free := free)];
    forall k | 0 <= k < |cs|
      ensures cs[k].addr in m && m[bs[i].addr := m[bs[i].addr].(Free := free)][cs[k].addr] == HeaderOf(cs, k)
    {
      LinkedAt(m, last, bs, k);
      DistinctAt(bs, i, k);
    }
  }

  /** `ExpandHeap`'s writes: a new last header, linked both ways. */
  function Appended(m: Memory, last: int, segment: int, len: int): Memory
    requires last in m
  {
    m[segment := HeapBlockHeader(len, NULL, last, true)][last := m[last].(Next := segment)]
  }

  lemma AppendLinked(m: Memory, last: int, bs: seq<Block>, b: Block)
    requires Linked(m, last, bs) && Distinct(bs + [b]) && b.free
    ensures last in m && Linked(Appended(m, last, b.addr, b.len), b.addr, bs + [b])
    ensures WritesOnly(m, Appended(m, last, b.addr, b.len), Headers(bs + [b]))
  {
    var cs := bs + [b];
    var m1 := Appended(m, last, b.addr, b.len);
    HeaderIn(cs, |bs|);
    HeaderIn(cs, |bs| - 1);
    forall k | 0 <= k < |cs|
      ensures cs[k].addr in m1 && m1[cs[k].addr] == HeaderOf(cs, k)
    {
      DistinctAt(cs, k, |bs|);
      DistinctAt(cs, k, |bs| - 1);
      if k < |bs| {
        LinkedAt(m, last, bs, k);
      }
    }
    DistinctAt(cs, |bs|, |bs|);
  }

  // ---------- what the writes of each operation leave alone ----------

  lemma WritesBoth(m: Memory, m1: Memory, m2: Memory, a: set<int>, b: set<int>)
    requires WritesOnly(m, m1, a) && WritesOnly(m1, m2, b)
    ensures WritesOnly(m, m2, a + b)
  {
  }

  /** Every header of a list lies outside every live payload of it. */
  lemma HeadersSpare(bs: seq<Block>, start: int, end: int, a: int, k: nat)
    requires Tiles(bs, start, end) && a in Headers(bs) && k < |bs|
    ensures a + HEADER <= bs[k].Payload() || bs[k].End() <= a
  {
    var j :| 0 <= j < |bs| && bs[j].addr == a;
    if j < k {
      TilesOrdered(bs, start, end, j, k);
    } else if k < j {
      TilesOrdered(bs, start, end, k, j);
    }
  }

  /** Writes to headers of two lists spare what is live in both. */
  lemma ListsSpare(m: Memory, m1: Memory, bs: seq<Block>, cs: seq<Block>, start: int, end: int, newEnd: int)
    requires Tiles(bs, start, end) && Tiles(cs, start, newEnd) && start >= HEADER && Live(bs) <= Live(cs)
    requires WritesOnly(m, m1, Headers(bs) + Headers(cs) + {NULL})
    ensures Spares(m, m1, bs)
  {
    forall a, k | a in m1 && (a !in m || m1[a] != m[a]) && 0 <= k < |bs| && !bs[k].free
      ensures a + HEADER <= bs[k].Payload() || bs[k].End() <= a
    {
      if a in Headers(bs) {
        HeadersSpare(bs, start, end, a, k);
      } else if a == NULL {
        TilesWithin(bs, start, end, k);
      } else {
        LiveOf(bs, k);
        var j :| 0 <= j < |cs| && !cs[j].free && (bs[k].Payload(), bs[k].len) == (cs[j].Payload(), cs[j].len);
        HeadersSpare(cs, start, newEnd, a, j);
      }
    }
  }

  lemma HeadersOfCombine(bs: seq<Block>, i: nat)
    requires i < |bs|
    ensures Headers(BlockSpec.CombineForward(bs, i)) <= Headers(bs)
    ensures Headers(BlockSpec.CombineBackward(bs, i)) <= Headers(bs)
  {
    forall j: nat | j < |bs|
      ensures forall k :: 0 <= k < |BlockSpec.CombineForward(bs, j)| ==>
                BlockSpec.CombineForward(bs, j)[k].addr in Headers(bs)
    {
      var cs := BlockSpec.CombineForward(bs, j);
      forall k | 0 <= k < |cs|
        ensures cs[k].addr in Headers(bs)
      {
        HeaderIn(bs, if |cs| == |bs| || k <= j then k else k + 1);
      }
    }
  }

  lemma HeadersAppend(bs: seq<Block>, b: Block)
    ensures Headers(bs + [b]) == Headers(bs) + {b.addr}
  {
    var cs := bs + [b];
    forall a | a in Headers(bs) + {b.addr}
      ensures a in Headers(cs)
    {
      if a == b.addr {
        HeaderIn(cs, |bs|);
      } else {
        var i :| 0 <= i < |bs| && bs[i].addr == a;
        HeaderIn(cs, i);
      }
    }
  }

  lemma AppendTiles(bs: seq<Block>, start: int, end: int, length: nat)
    requires Tiles(bs, start, end) && length > 0 && length % PAGE == 0
    ensures Tiles(bs + [Block(end, length - HEADER, true)], start, end + length)
    ensures RoundUp(length, PAGE) == length
  {
    RoundUpWhole(length);
  }

  lemma OneBlock(memory: Memory, start: nat, pages: nat)
    requires NULL in memory && pages > 0 && 0 < start && start % PAGE == 0
    ensures var len, end := pages * PAGE - HEADER, start + pages * PAGE;
            && start >= HEADER && end % PAGE == 0
            && Tiles([Block(start, len, true)], start, end) && NoFreeNeighbours([Block(start, len, true)])
            && Linked(memory[start := HeapBlockHeader(len, NULL, NULL, true)], start, [Block(start, len, true)])
  {
    PagesInUnits(pages);
    AlignedPage(start);
  }

  lemma PagesInUnits(pages: nat)
    requires pages > 0
    ensures (pages * PAGE - HEADER) % UNIT == 0 && pages * PAGE - HEADER >= UNIT
  {
    assert pages * PAGE - HEADER == (pages * 256 - 2) * UNIT;
  }

  lemma AlignedPage(start: nat)
    requires start % PAGE == 0
    ensures start % UNIT == 0
  {
    var q := start / PAGE;
    assert start == (q * 256) * UNIT;
  }

  lemma NextPages(start: nat, i: nat)
    requires start % PAGE == 0
    ensures (start + i * PAGE) / PAGE == start / PAGE + i
  {
  }

  lemma WritesNothing(m: Memory, where: set<int>)
    ensures WritesOnly(m, m, where)
  {
  }

  lemma SparesNothing(m: Memory, bs: seq<Block>)
    ensures Spares(m, m, bs)
  {
  }

  lemma WritesKeys(m: Memory, m1: Memory, where: set<int>)
    requires WritesOnly(m, m1, where)
    ensures m.Keys <= m1.Keys
  {
  }

  lemma WholePages(a: nat, b: nat, room: nat)
    requires a % PAGE == 0 && b % PAGE == 0 && room % PAGE == 0
    ensures a / PAGE == b / PAGE + room / PAGE <==> a == b + room
  {
  }

  lemma FlagWrites(m: Memory, bs: seq<Block>, i: nat, free: bool)
    requires i < |bs| && bs[i].addr in m
    ensures WritesOnly(m, m[bs[i].addr := m[bs[i].addr].(Free := free)], Headers(bs))
    ensures Headers(bs[i := bs[i].(free := free)]) == Headers(bs)
  {
    HeaderIn(bs, i);
    var cs := bs[i := bs[i].(free := free)];
    forall k: nat | k < |bs|
      ensures cs[k].addr in Headers(bs) && bs[k].addr in Headers(cs)
    {
      HeaderIn(bs, k);
      HeaderIn(cs, k);
    }
  }

  lemma FirstBlock(m: Memory, last: int, bs: seq<Block>, start: int, end: int)
    requires Tiles(bs, start, end) && Linked(m, last, bs)
    ensures |bs| > 0 && bs[0].addr == start
  {
  }

  lemma EndAfterStart(bs: seq<Block>, start: int, end: int)
    requires Tiles(bs, start, end)
    ensures start <= end
  {
    TilesWithin(bs, start, end, 0);
  }

  lemma ExpandRounded(bs: seq<Block>, end: int, length: nat)
    requires length > 0
    ensures Expand(bs, end, RoundUp(length, PAGE)) == Expand(bs, end, length)
  {
    RoundUpWhole(length);
  }

  lemma UnitsAgain(size: nat)
    ensures var rounded := Rounded(size);
            rounded == (if size % UNIT > 0 then size - size % UNIT + UNIT else size)
            && rounded % UNIT == 0 && Rounded(rounded) == rounded
  {
  }

  /** What an expansion writes spares what was live. */
  lemma ExpandHeaders(bs: seq<Block>, start: int, end: int, length: nat, m: Memory, m1: Memory)
    requires Inv(bs, start, end) && start >= HEADER && length > 0
    requires WritesOnly(m, m1, Headers(bs) + {end})
    ensures Spares(m, m1, bs)
  {
    var cs := bs + [Block(end, RoundUp(length, PAGE) - HEADER, true)];
    RoundUpWhole(length);
    AppendTiles(bs, start, end, RoundUp(length, PAGE));
    HeadersAppend(bs, cs[|bs|]);
    LiveAppend(bs, [cs[|bs|]]);
    ListsSpare(m, m1, bs, cs, start, end, end + RoundUp(length, PAGE));
  }

  /** Writes to the headers of a list spare all of its payloads. */
  lemma FreedSpare(m: Memory, m1: Memory, bs: seq<Block>, i: nat, start: int, end: int, where: set<int>)
    requires Tiles(bs, start, end) && start >= HEADER && i < |bs|
    requires WritesOnly(m, m1, where) && where <= Headers(bs)
    ensures Spares(m, m1, bs)
  {
    ListsSpare(m, m1, bs, bs, start, end, end);
  }

  /** Sparing what was live, and then what is live in a list with the same live blocks, spares it throughout. */
  lemma SparesBoth(m: Memory, m1: Memory, m2: Memory, bs: seq<Block>, cs: seq<Block>)
    requires Spares(m, m1, bs) && Spares(m1, m2, cs) && Live(cs) == Live(bs) && m.Keys <= m1.Keys
    ensures Spares(m, m2, bs)
  {
    forall a, k | a in m2 && (a !in m || m2[a] != m[a]) && 0 <= k < |bs| && !bs[k].free
      ensures a + HEADER <= bs[k].Payload() || bs[k].End() <= a
    {
      LiveOf(bs, k);
      var j :| 0 <= j < |cs| && !cs[j].free && (bs[k].Payload(), bs[k].len) == (cs[j].Payload(), cs[j].len);
    }
  }

  /** Every page a `malloc` asks for is granted and mapped: none if some block fits, else those of one expansion, and if
      the block it adds is too short, those of a second. */
  ghost predicate Serves(vm: Vm, bs: seq<Block>, start: int, end: nat, size: nat)
    requires Inv(bs, start, end) && size > 0 && size % UNIT == 0
    decreases Expansions(bs, end, size)
  {
    FirstFit(bs, size) < |bs| ||
    (var room := RoundUp(size, PAGE);
     && end + room <= PAGES * PAGE
     && Backs(vm, end / PAGE, room / PAGE)
     && (ExpansionsFall(bs, start, end, size);
         ExpandTilesIff(bs, start, end, size, end + room);
         Serves(ExpandPages(vm, end / PAGE, room / PAGE).0, Expand(bs, end, size), start, end + room, size)))
  }

  /** The n pages of each expansion that a `malloc` needs. */
  function PagesFor(bs: seq<Block>, end: int, size: nat): nat {
    Expansions(bs, end, size) * (RoundUp(size, PAGE) / PAGE)
  }

  lemma PagesForIs(bs: seq<Block>, start: int, end: int, size: nat)
    requires Inv(bs, start, end) && size > 0
    ensures var n, e := RoundUp(size, PAGE) / PAGE, Expansions(bs, end, size);
            && RoundUp(size, PAGE) == n * PAGE && n > 0
            && (e == 0 <==> FirstFit(bs, size) < |bs|)
            && PagesFor(bs, end, size) == (if e == 0 then 0 else n + (e - 1) * n)
            && (e > 0 ==> PagesFor(Expand(bs, end, size), end + n * PAGE, size) == (e - 1) * n)
  {
    var n, e := RoundUp(size, PAGE) / PAGE, Expansions(bs, end, size);
    RoundUpWhole(size);
    if e > 0 {
      ExpansionsFall(bs, start, end, size);
      OneLess(e, n);
    }
  }

  /** The pages of all its expansions together. */
  lemma {:induction false} ServesBacks(vm: Vm, bs: seq<Block>, start: int, end: nat, size: nat)
    requires Inv(bs, start, end) && size > 0 && size % UNIT == 0 && end % PAGE == 0
    requires Serves(vm, bs, start, end, size)
    ensures Backs(vm, end / PAGE, PagesFor(bs, end, size))
    ensures PagesFor(bs, end, size) > 0 ==> end / PAGE + PagesFor(bs, end, size) <= PAGES
    decreases Expansions(bs, end, size)
  {
    hide Tiles, NoFreeNeighbours, Expand, RoundUp, ExpandPages, Backs, PagesFor, Expansions;
    PagesForIs(bs, start, end, size);
    if FirstFit(bs, size) < |bs| {
      BacksNone(vm, end / PAGE);
    } else {
      var n := RoundUp(size, PAGE) / PAGE;
      ExpansionsFall(bs, start, end, size);
      ExpandTilesIff(bs, start, end, size, end + n * PAGE);
      NextPages(end, n);
      ServesBacks(ExpandPages(vm, end / PAGE, n).0, Expand(bs, end, size), start, end + n * PAGE, size);
      BacksJoin(vm, end / PAGE, n, PagesFor(Expand(bs, end, size), end + n * PAGE, size));
    }
  }

  /** When several expansions are backed, so are the first and what comes after it. */
  lemma FirstBacked(vm: Vm, owner: map<nat, Node>, first: nat, n: nat, rest: nat) returns (owner1: map<nat, Node>)
    requires Orderly(vm, owner) && n > 0 && rest > 0 && first + n + rest <= PAGES && Backs(vm, first, n + rest)
    ensures Backs(vm, first, n) && Backs(ExpandPages(vm, first, n).0, first + n, rest)
    ensures Orderly(ExpandPages(vm, first, n).0, owner1)
  {
    OrderlyIs(vm, owner);
    hide *;
    BacksIff(vm, owner, first, n + rest);
    CanBackAllIs(vm, first, n + rest);
    CanExpandIs(vm, first, n + rest);
    NewTablesRise(vm, first, n, n + rest - 1);
    AllGrantedIff(vm, owner, first, n);
    AllGrantedBacks(vm, owner, first, n);
    owner1 := AfterPages(vm, owner, first, n);
    OrderlyIs(ExpandPages(vm, first, n).0, owner1);
    BacksSplit(vm, first, n, rest);
  }

  lemma {:induction false} BacksServes(vm: Vm, owner: map<nat, Node>, bs: seq<Block>, start: int, end: nat, size: nat)
    requires Inv(bs, start, end) && size > 0 && size % UNIT == 0 && end % PAGE == 0 && Orderly(vm, owner)
    requires PagesFor(bs, end, size) > 0 ==> end / PAGE + PagesFor(bs, end, size) <= PAGES
    requires Backs(vm, end / PAGE, PagesFor(bs, end, size))
    ensures Serves(vm, bs, start, end, size)
    decreases Expansions(bs, end, size)
  {
    hide Tiles, NoFreeNeighbours, Expand, RoundUp, ExpandPages, Backs, PagesFor, Expansions, Orderly;
    PagesForIs(bs, start, end, size);
    if FirstFit(bs, size) == |bs| {
      var n := RoundUp(size, PAGE) / PAGE;
      var bs1, end1 := Expand(bs, end, size), end + n * PAGE;
      var rest := PagesFor(bs1, end1, size);
      ExpansionsFall(bs, start, end, size);
      ExpandTilesIff(bs, start, end, size, end1);
      NextPages(end, n);
      PagesForIs(bs1, start, end1, size);
      if rest > 0 {
        var owner1 := FirstBacked(vm, owner, end / PAGE, n, rest);
        BacksServes(ExpandPages(vm, end / PAGE, n).0, owner1, bs1, start, end1, size);
      }
    }
  }

  /** Before the call: there is room, and there are frames for all its expansions together. */
  lemma ServesIff(vm: Vm, owner: map<nat, Node>, bs: seq<Block>, start: int, end: nat, size: nat)
    requires Inv(bs, start, end) && size > 0 && size % UNIT == 0 && end % PAGE == 0 && Orderly(vm, owner)
    ensures var n := PagesFor(bs, end, size);
            && vm.pfa.Valid()
            && (Serves(vm, bs, start, end, size) <==>
                n == 0 || (end / PAGE + n <= PAGES && CanBackAll(vm, end / PAGE, n)))
  {
    hide Tiles, NoFreeNeighbours, Expand, RoundUp, ExpandPages, Backs, PagesFor, Expansions, CanBackAll, Tree, Serves;
    var n := PagesFor(bs, end, size);
    if Serves(vm, bs, start, end, size) {
      ServesBacks(vm, bs, start, end, size);
    }
    if n == 0 {
      BacksNone(vm, end / PAGE);
      BacksServes(vm, owner, bs, start, end, size);
    } else if end / PAGE + n <= PAGES {
      BacksIff(vm, owner, end / PAGE, n);
      if Backs(vm, end / PAGE, n) {
        BacksServes(vm, owner, bs, start, end, size);
      }
    }
    TreeValid(vm, owner);
  }

  /** Four free frames for each of the n pages of every expansion needed, and room for these pages, are enough. */
  lemma {:induction false} ServesIf(vm: Vm, owner: map<nat, Node>, bs: seq<Block>, start: int, end: nat, size: nat, n: nat)
    requires Inv(bs, start, end) && size > 0 && size % UNIT == 0 && end % PAGE == 0
    requires Tree(vm, owner) && vm.pfa.Get(0) && n * PAGE == RoundUp(size, PAGE)
    requires end / PAGE + Expansions(bs, end, size) * n <= PAGES
    requires 4 * (Expansions(bs, end, size) * n) <= MapSpec.Supply(vm.pfa)
    ensures Serves(vm, bs, start, end, size)
    decreases Expansions(bs, end, size)
  {
    hide Tree, Inv, ExpandPages, Expand, RoundUp, MapSpec.Supply, Expansions, Backs, AllGranted;
    if FirstFit(bs, size) == |bs| {
      NoFit(bs, end, size);
      ExpansionsFall(bs, start, end, size);
      ExpandTilesIff(bs, start, end, size, end + n * PAGE);
      OneLess(Expansions(bs, end, size), n);
      NextPages(end, n);
      FourEach(vm, owner, end / PAGE, n);
      AllGrantedBacks(vm, owner, end / PAGE, n);
      var owner1 := AfterPages(vm, owner, end / PAGE, n);
      ServesIf(ExpandPages(vm, end / PAGE, n).0, owner1, Expand(bs, end, size), start, end + n * PAGE, size, n);
    }
  }

  lemma NoFit(bs: seq<Block>, end: int, size: nat)
    requires FirstFit(bs, size) == |bs|
    ensures Expansions(bs, end, size) > 0
  {
  }

  lemma OneLess(e: nat, n: nat)
    requires e > 0
    ensures e * n == (e - 1) * n + n
  {
  }

  /** Whether all pages are granted, from the state before. */
  lemma ExpandAny(vm: Vm, first: nat, n: nat)
    requires first + n <= PAGES
    ensures forall owner: map<nat, Node> :: Tree(vm, owner) && vm.pfa.Get(0) ==>
              vm.pfa.Valid() && (ExpandPages(vm, first, n).1 == first + n <==> CanExpand(vm, first, n))
  {
    forall owner: map<nat, Node> | Tree(vm, owner) && vm.pfa.Get(0)
      ensures vm.pfa.Valid() && (ExpandPages(vm, first, n).1 == first + n <==> CanExpand(vm, first, n))
    {
      ExpandIff(vm, owner, first, n);
    }
  }

  /** Whether all pages are backed, from the state before. */
  lemma BackAny(vm: Vm, first: nat, n: nat)
    requires first + n <= PAGES
    ensures LastsIff(vm, first, n, Backs(vm, first, n))
    ensures LastsIff(vm, first, n, InitialBacks(vm, first, n))
  {
    hide *;
    forall owner: map<nat, Node> | Orderly(vm, owner)
      ensures && vm.pfa.Valid()
              && (Backs(vm, first, n) <==> CanBackAll(vm, first, n))
              && (InitialBacks(vm, first, n) <==> CanBackAll(vm, first, n))
    {
      OrderlyIs(vm, owner);
      BacksIff(vm, owner, first, n);
      InitialBacksIff(vm, owner, first, n);
    }
    AllLasts(vm, first, n, Backs(vm, first, n));
    AllLasts(vm, first, n, InitialBacks(vm, first, n));
  }

  lemma AllLasts(vm: Vm, first: nat, n: nat, backed: bool)
    requires forall owner: map<nat, Node> :: Orderly(vm, owner) ==> vm.pfa.Valid() && (backed <==> CanBackAll(vm, first, n))
    ensures LastsIff(vm, first, n, backed)
  {
    hide Orderly, CanBackAll;
  }

  /** A `malloc` that needs no page, and one that needs an expansion before it is tried again. */
  lemma PagesOfMalloc(bs: seq<Block>, start: int, end: int, size: nat)
    requires Inv(bs, start, end) && size > 0 && 0 <= end && end % PAGE == 0
    ensures FirstFit(bs, size) < |bs| ==> PagesFor(bs, end, size) == 0
    ensures FirstFit(bs, size) == |bs| ==>
              var n := RoundUp(size, PAGE) / PAGE;
              && (end + RoundUp(size, PAGE)) / PAGE == end / PAGE + n
              && PagesFor(bs, end, size) == n + PagesFor(Expand(bs, end, size), end + RoundUp(size, PAGE), size)
  {
    hide Tiles, NoFreeNeighbours, Expand, RoundUp, PagesFor, Expansions;
    PagesForIs(bs, start, end, size);
    NextPages(end, RoundUp(size, PAGE) / PAGE);
  }

  // ---------- pages ----------

  lemma PageOfLow(address: nat)
    requires address < PAGES * PAGE
    ensures PageOf(address) == address / PAGE
  {
  }

  /** `MapMemory(address, RequestPage())`. */
  method MapNewPage(ptm: PageTableManager, address: nat)
    requires ptm.Valid() && address < PAGES * PAGE
    modifies ptm, ptm.pfa, ptm.pfa.PageBitmap.Buffer
    ensures ptm.Valid() && ptm.vm == GrowPage(old(ptm.vm), address / PAGE)
  {
    hide MapPage, Request, Decodes;
    PageOfLow(address);
    var page := RequestFrame(ptm);
    ptm.MapMemory(address, page);
  }

  /** The loop of `InitialiseHeap` (lines 72-76). */
  method MapNewPages(ptm: PageTableManager, heapAddress: nat, pageCount: nat)
    requires ptm.Valid() && heapAddress % PAGE == 0 && heapAddress + pageCount * PAGE <= PAGES * PAGE
    modifies ptm, ptm.pfa, ptm.pfa.PageBitmap.Buffer
    ensures ptm.Valid() && ptm.vm == InitialPages(old(ptm.vm), heapAddress / PAGE, pageCount)
    ensures var vm, first := old(ptm.vm), heapAddress / PAGE;
            LastsIff(vm, first, pageCount,
                     InitialGranted(vm, first, pageCount) && TranslatesTo(ptm.vm, vm, first, pageCount))
  {
    hide GrowPage, PageTableManager.Valid, LastsIff, InitialGranted, TranslatesTo;
    NextPages(heapAddress, pageCount);
    BackAny(ptm.vm, heapAddress / PAGE, pageCount);
    var pos := heapAddress;
    for i := 0 to pageCount
      invariant ptm.Valid() && pos == heapAddress + i * PAGE
      invariant ptm.vm == InitialPages(old(ptm.vm), heapAddress / PAGE, i)
    {
      NextPages(heapAddress, i);
      MapNewPage(ptm, pos);
      pos := pos + 0x1000;
    }
  }

  /** The same unless the page is not granted. */
  method TryMapPage(ptm: PageTableManager, address: nat) returns (granted: bool)
    requires ptm.Valid() && address < PAGES * PAGE
    modifies ptm, ptm.pfa, ptm.pfa.PageBitmap.Buffer
    ensures ptm.Valid() && granted == (Request(old(ptm.vm.pfa)).1 != 0)
    ensures ptm.vm == if granted then GrowPage(old(ptm.vm), address / PAGE) else Requested(old(ptm.vm))
  {
    hide MapPage, Request, Decodes;
    PageOfLow(address);
    var page := RequestFrame(ptm);
    if page != NULL {
      ptm.MapMemory(address, page);
      return true;
    }
    return false;
  }

  /** `RequestPage` on the manager's allocator. */
  method RequestFrame(ptm: PageTableManager) returns (page: nat)
    requires ptm.Valid()
    modifies ptm, ptm.pfa, ptm.pfa.PageBitmap.Buffer
    ensures ptm.Valid() && ptm.vm == Requested(old(ptm.vm)) && page == Request(old(ptm.vm).pfa).1 && page / PAGE < FRAMES
  {
    page := ptm.pfa.RequestPage();
    ptm.vm := Vm(ptm.pfa.state, ptm.vm.root, ptm.vm.ram);
  }

  // ---------- the heap ----------

  class Heap {
    const ptm: PageTableManager
    var hdr: Memory
    var heapStart: int
    var heapEnd: int
    var LastHdr: int
    /** The list the headers in memory form. */
    ghost var blocks: seq<Block>

    /** The list tiles [heapStart, end) and memory holds it. */
    ghost predicate Whole(end: int)
      reads this
    {
      heapStart >= HEADER && Tiles(blocks, heapStart, end) && Linked(hdr, LastHdr, blocks)
    }

    ghost predicate Valid()
      reads this, ptm, ptm.pfa, ptm.pfa.PageBitmap, ptm.pfa.PageBitmap.Buffer
    {
      ptm.Valid() && Whole(heapEnd) && NoFreeNeighbours(blocks) && 0 <= heapEnd && heapEnd % PAGE == 0
    }

    /** Block i of the list starts at this header. */
    ghost predicate IsBlock(segment: int, i: nat)
      reads this
    {
      i < |blocks| && blocks[i].addr == segment
    }

    /** `InitialiseHeap`. `memory` is what memory held before, at NULL as well. */
    constructor InitialiseHeap(manager: PageTableManager, memory: Memory, heapAddress: nat, pageCount: nat)
      requires manager.Valid() && NULL in memory && pageCount > 0
      requires heapAddress % PAGE == 0 && 0 < heapAddress && heapAddress + pageCount * PAGE <= PAGES * PAGE
      modifies manager, manager.pfa, manager.pfa.PageBitmap.Buffer
      ensures Valid() && ptm == manager && heapStart == heapAddress && heapEnd == heapAddress + pageCount * PAGE
      ensures blocks == [Block(heapAddress, pageCount * PAGE - HEADER, true)]
      ensures ptm.vm == InitialPages(old(manager.vm), heapAddress / PAGE, pageCount)
      ensures var vm, first := old(manager.vm), heapAddress / PAGE;
              LastsIff(vm, first, pageCount,
                       InitialGranted(vm, first, pageCount) && TranslatesTo(ptm.vm, vm, first, pageCount))
    {
      ptm := manager;
      heapStart, heapEnd, LastHdr := heapAddress, heapAddress + pageCount * PAGE, heapAddress;
      hdr := memory[heapAddress := HeapBlockHeader(pageCount * PAGE - HEADER, NULL, NULL, true)];
      blocks := [Block(heapAddress, pageCount * PAGE - HEADER, true)];
      new;
      hide Tiles, Linked, NoFreeNeighbours, InitialPages, PageTableManager.Valid, LastsIff, TranslatesTo, InitialGranted,
        HeaderOf;
      assert heapEnd % PAGE == 0 && Whole(heapEnd) && NoFreeNeighbours(blocks) by {
        OneBlock(memory, heapAddress, pageCount);
      }
      MapNewPages(ptm, heapAddress, pageCount);
    }

    method CombineForward(segment: int, ghost i: nat, ghost end: int)
      requires Whole(end) && IsBlock(segment, i)
      modifies this`hdr, this`LastHdr, this`blocks
      ensures Whole(end) && blocks == BlockSpec.CombineForward(old(blocks), i)
      ensures WritesOnly(old(hdr), hdr, Headers(old(blocks)))
    {
      hide Tiles, Linked, Distinct, Headers;
      ghost var before := hdr;
      TilesDistinct(blocks, heapStart, end);
      LinkedAt(hdr, LastHdr, blocks, i);
      if hdr[segment].Next == NULL {
        return;
      }
      MergeReadsList(hdr, LastHdr, blocks, i);
      if !hdr[hdr[segment].Next].Free {
        return;
      }
      MergedLinked(hdr, LastHdr, blocks, i);
      MergedWrites(hdr, LastHdr, blocks, i);
      CombineForwardTiles(blocks, heapStart, end, i);
      if hdr[segment].Next == LastHdr {
        LastHdr := segment;
      }
      var next := hdr[segment].Next;
      if hdr[next].Next != NULL {
        hdr := hdr[hdr[next].Next := hdr[hdr[next].Next].(Prev := segment)];
      }
      hdr := hdr[segment := hdr[segment].(Length := hdr[segment].Length + hdr[next].Length + HEADER)];
      hdr := hdr[segment := hdr[segment].(Next := hdr[next].Next)];
      assert hdr == Merged(before, segment);
      blocks := BlockSpec.CombineForward(blocks, i);
    }

    method CombineBackward(segment: int, ghost i: nat, ghost end: int)
      requires Whole(end) && IsBlock(segment, i)
      modifies this`hdr, this`LastHdr, this`blocks
      ensures Whole(end) && blocks == BlockSpec.CombineBackward(old(blocks), i)
      ensures WritesOnly(old(hdr), hdr, Headers(old(blocks)))
    {
      TilesDistinct(blocks, heapStart, end);
      LinkedAt(hdr, LastHdr, blocks, i);
      if i > 0 {
        LinkedAt(hdr, LastHdr, blocks, i - 1);
        DistinctAt(blocks, i - 1, i);
      }
      if hdr[segment].Prev != NULL && hdr[hdr[segment].Prev].Free {
        CombineForward(hdr[segment].Prev, i - 1, end);
      }
    }

    /** Returns the new header, or NULL if the block is too short. The back link of the next block is written even when
        there is none: then the word goes to address NULL. */
    method Split(segment: int, splitLength: int, ghost i: nat) returns (newSplitHdr: int)
      requires Whole(heapEnd) && IsBlock(segment, i) && splitLength % UNIT == 0
      modifies this`hdr, this`LastHdr, this`blocks
      ensures Whole(heapEnd) && blocks == BlockSpec.Split(old(blocks), i, splitLength)
      ensures newSplitHdr == if Splits(old(blocks[i]), splitLength) then segment + splitLength + HEADER else NULL
      ensures WritesOnly(old(hdr), hdr, Headers(old(blocks)) + Headers(blocks) + {NULL})
      ensures hdr[NULL] == if newSplitHdr != NULL && i == |old(blocks)| - 1 then old(hdr[NULL]).(Prev := newSplitHdr)
                           else old(hdr[NULL])
    {
      hide Tiles, Linked, Distinct;
      TilesDistinct(blocks, heapStart, heapEnd);
      LinkedAt(hdr, LastHdr, blocks, i);
      if splitLength < 0x10 {
        return NULL;
      }
      var splitSegLength := hdr[segment].Length - splitLength - HEADER;
      if splitSegLength < 0x10 {
        return NULL;
      }
      ghost var cs := BlockSpec.Split(blocks, i, splitLength);
      SplitTiles(blocks, heapStart, heapEnd, i, splitLength);
      TilesDistinct(cs, heapStart, heapEnd);
      CutLinked(hdr, LastHdr, blocks, i, splitLength);
      CutWrites(hdr, LastHdr, blocks, i, splitLength);
      newSplitHdr := segment + splitLength + HEADER;
      var next := hdr[segment].Next;
      hdr := hdr[next := hdr[next].(Prev := newSplitHdr)];
      hdr := hdr[newSplitHdr := HeapBlockHeader(splitSegLength, next, segment, hdr[segment].Free)];
      hdr := hdr[segment := hdr[segment].(Next := newSplitHdr, Length := splitLength)];
      if LastHdr == segment {
        LastHdr := newSplitHdr;
      }
      HeaderIn(blocks, i);
      HeaderIn(cs, i + 1);
      DistinctAt(cs, i, i + 1);
      if i + 1 < |blocks| {
        HeaderIn(blocks, i + 1);
        DistinctAt(blocks, i, i + 1);
      }
      blocks := cs;
    }

    /** The loop of `ExpandHeap` (lines 157-163). */
    method GrowPages(pageCount: nat)
      requires ptm.Valid() && heapEnd >= 0 && heapEnd % PAGE == 0 && heapEnd + pageCount * PAGE <= PAGES * PAGE
      modifies this`heapEnd, ptm, ptm.pfa, ptm.pfa.PageBitmap.Buffer
      ensures ptm.Valid() && heapEnd >= 0 && heapEnd % PAGE == 0
      ensures (ptm.vm, heapEnd / PAGE) == ExpandPages(old(ptm.vm), old(heapEnd) / PAGE, pageCount)
    {
      hide GrowPage, Decodes, Request, Requested, PageTableManager.Valid;
      for i := 0 to pageCount
        invariant ptm.Valid() && heapEnd >= 0 && heapEnd % PAGE == 0 && heapEnd <= old(heapEnd) + i * PAGE
        invariant (ptm.vm, heapEnd / PAGE) == ExpandPages(old(ptm.vm), old(heapEnd) / PAGE, i)
      {
        var granted := TryMapPage(ptm, heapEnd);
        NextPages(heapEnd, 1);
        if granted {
          heapEnd := heapEnd + 0x1000;
        }
      }
    }

    /** The rest of `ExpandHeap` (lines 154 and 166-172); `length` is in whole pages. */
    method AttachSegment(newSegment: int, length: nat)
      requires Whole(newSegment) && length > 0 && length % PAGE == 0
      modifies this`hdr, this`LastHdr, this`blocks
      ensures Whole(newSegment + length) && blocks == Expand(old(blocks), newSegment, length)
      ensures WritesOnly(old(hdr), hdr, Headers(old(blocks)) + {newSegment})
    {
      hide Tiles, Linked, Distinct;
      ghost var b := Block(newSegment, length - HEADER, true);
      AppendTiles(blocks, heapStart, newSegment, length);
      TilesDistinct(blocks + [b], heapStart, newSegment + length);
      AppendLinked(hdr, LastHdr, blocks, b);
      hdr := Appended(hdr, LastHdr, newSegment, length - HEADER);
      LastHdr := newSegment;
      blocks := blocks + [b];
      ghost var middle, grown := hdr, blocks;
      CombineBackward(newSegment, |old(blocks)|, newSegment + length);
      WritesBoth(old(hdr), middle, hdr, Headers(grown), Headers(grown));
      HeadersAppend(old(blocks), b);
    }

    /** Grows the heap by whole pages. The list gets the full length whether or not every page was granted, so the heap is
        valid afterwards exactly if every one was. */
    method ExpandHeap(length: nat)
      requires Valid() && length > 0 && heapEnd + RoundUp(length, PAGE) <= PAGES * PAGE
      modifies this, ptm, ptm.pfa, ptm.pfa.PageBitmap.Buffer
      ensures var size := RoundUp(length, PAGE);
              && ptm.Valid() && heapStart == old(heapStart) && Whole(old(heapEnd) + size)
              && blocks == Expand(old(blocks), old(heapEnd), length)
              && heapEnd >= 0 && heapEnd % PAGE == 0
              && (ptm.vm, heapEnd / PAGE) == ExpandPages(old(ptm.vm), old(heapEnd) / PAGE, size / PAGE)
              && (Valid() <==> heapEnd == old(heapEnd) + size)
      ensures forall owner: map<nat, Node> :: Tree(old(ptm.vm), owner) && old(ptm.vm.pfa).Get(0) ==>
                (Valid() <==> CanExpand(old(ptm.vm), old(heapEnd) / PAGE, RoundUp(length, PAGE) / PAGE))
      ensures var vm, first, n := old(ptm.vm), old(heapEnd) / PAGE, RoundUp(length, PAGE) / PAGE;
              LastsIff(vm, first, n, Valid() && TranslatesTo(ptm.vm, vm, first, n))
      ensures WritesOnly(old(hdr), hdr, Headers(old(blocks)) + {old(heapEnd)})
      ensures Spares(old(hdr), hdr, old(blocks))
    {
      hide Tiles, Linked, Expand, RoundUp, ExpandPages, PageTableManager.Valid, WritesOnly, Spares, NoFreeNeighbours,
        LastsIff, CanExpand, TranslatesTo;
      var size := RoundToPage(length);
      var newSegment := heapEnd;
      ghost var start, end, bs, m := heapStart, heapEnd, blocks, hdr;
      EndAfterStart(bs, start, end);
      GrowPages(size / 0x1000);
      AttachSegment(newSegment, size);
      ExpandTilesIff(bs, start, end, length, heapEnd);
      ExpandRounded(bs, end, length);
      ExpandLive(bs, end, length);
      ExpandHeaders(bs, start, end, length, m, hdr);
      WholePages(heapEnd, end, size);
      ExpandAny(old(ptm.vm), end / PAGE, size / PAGE);
      BackAny(old(ptm.vm), end / PAGE, size / PAGE);
    }

    /** `size` rounded up to whole pages (lines 145-148). */
    static method RoundToPage(length: nat) returns (size: nat)
      requires length > 0
      ensures size == RoundUp(length, PAGE) && size > 0 && size % PAGE == 0
    {
      size := length;
      if size % 0x1000 != 0 {
        size := size - length % 0x1000;
        size := size + 0x1000;
      }
      RoundUpWhole(length);
    }

    /** The search loop of `malloc` (lines 104-120): the first block that fits, or NULL. */
    method FindFit(size: nat) returns (segment: int, ghost i: nat)
      requires Whole(heapEnd)
      ensures i == FirstFit(blocks, size)
      ensures if i < |blocks| then IsBlock(segment, i) && segment != NULL else segment == NULL
    {
      hide Tiles, Linked, Distinct;
      TilesDistinct(blocks, heapStart, heapEnd);
      FirstBlock(hdr, LastHdr, blocks, heapStart, heapEnd);
      segment, i := heapStart, 0;
      while true
        invariant IsBlock(segment, i)
        invariant FirstFit(blocks, size) == FirstFit(blocks, size, i)
        decreases |blocks| - i
      {
        LinkedAt(hdr, LastHdr, blocks, i);
        DistinctAt(blocks, i, i);
        if hdr[segment].Free && hdr[segment].Length >= size {
          return segment, i;
        }
        if i + 1 < |blocks| {
          DistinctAt(blocks, i + 1, i + 1);
        }
        if hdr[segment].Next == NULL {
          break;
        }
        segment, i := hdr[segment].Next, i + 1;
      }
      return NULL, |blocks|;
    }

    /** The block found is split if it is longer than needed and marked used (lines 108-116). */
    method TakeBlock(segment: int, size: nat, ghost i: nat)
      requires Whole(heapEnd) && NoFreeNeighbours(blocks)
      requires IsBlock(segment, i) && Fits(blocks[i], size) && size > 0 && size % UNIT == 0
      modifies this`hdr, this`LastHdr, this`blocks
      ensures Whole(heapEnd) && NoFreeNeighbours(blocks) && blocks == Take(old(blocks), i, size)
      ensures Spares(old(hdr), hdr, old(blocks))
    {
      hide Tiles, Linked, Distinct, WritesOnly, Spares, NoFreeNeighbours, Headers;
      ghost var start, end, bs, m := heapStart, heapEnd, blocks, hdr;
      LinkedAt(hdr, LastHdr, blocks, i);
      if hdr[segment].Length > size {
        var newSplitHdr := Split(segment, size, i);
      } else {
        WritesNothing(hdr, Headers(bs) + Headers(blocks) + {NULL});
      }
      ghost var split := blocks;
      TilesDistinct(split, start, end);
      FlagLinked(hdr, LastHdr, split, i, false);
      FlagTiles(split, start, end, i, false);
      FlagWrites(hdr, split, i, false);
      WritesBoth(m, hdr, hdr[segment := hdr[segment].(Free := false)], Headers(bs) + Headers(split) + {NULL}, Headers(split));
      hdr := hdr[segment := hdr[segment].(Free := false)];
      blocks := blocks[i := blocks[i].(free := false)];
      TakeInv(bs, start, end, i, size);
      TakeLive(bs, i, size);
      ListsSpare(m, hdr, bs, blocks, start, end, end);
    }

    /** Returns the payload address, or NULL for size 0. Every page the call asks for must be granted and mapped. */
    method malloc(size: nat) returns (address: int)
      requires Valid()
      requires Rounded(size) > 0 ==> Serves(ptm.vm, blocks, heapStart, heapEnd, Rounded(size))
      modifies this, ptm, ptm.pfa, ptm.pfa.PageBitmap.Buffer
      ensures Valid() && heapStart == old(heapStart)
      ensures Rounded(size) == 0 ==> address == NULL && blocks == old(blocks) && heapEnd == old(heapEnd)
      ensures Rounded(size) > 0 ==>
                var r := Malloc(old(blocks), old(heapStart), old(heapEnd), Rounded(size));
                blocks == r.0 && heapEnd == r.1 && address == blocks[r.2].Payload()
      ensures var first := old(heapEnd) / PAGE;
              var n := if Rounded(size) == 0 then 0 else PagesFor(old(blocks), old(heapEnd), Rounded(size));
              && (ptm.vm, heapEnd / PAGE) == ExpandPages(old(ptm.vm), first, n)
              && Backs(old(ptm.vm), first, n)
      ensures Spares(old(hdr), hdr, old(blocks))
      decreases Expansions(blocks, heapEnd, Rounded(size))
    {
      hide Tiles, Linked, Expand, ExpandPages, PageTableManager.Valid, Spares, NoFreeNeighbours, WritesOnly, Take, RoundUp,
        Rounded, Backs, TranslatesTo, PagesFor;
      var rounded: nat := size;
      if size % 0x10 > 0 {
        rounded := rounded - size % 0x10;
        rounded := rounded + 0x10;
      }
      UnitsAgain(size);
      NoPages(ptm.vm, heapEnd / PAGE);
      BacksNone(ptm.vm, heapEnd / PAGE);
      if rounded == 0 {
        SparesNothing(hdr, blocks);
        return NULL;
      }
      PagesOfMalloc(blocks, heapStart, heapEnd, rounded);
      ServesBacks(ptm.vm, blocks, heapStart, heapEnd, rounded);
      var CurrentSegment, i := FindFit(rounded);
      if CurrentSegment != NULL {
        TakeBlock(CurrentSegment, rounded, i);
        TakeLive(old(blocks), i, rounded);
        return CurrentSegment + HEADER;
      }
      ghost var bs, start, end, m := blocks, heapStart, heapEnd, hdr;
      ExpansionsFall(bs, start, end, rounded);
      RoundUpWhole(rounded);
      BacksIs(ptm.vm, end / PAGE, RoundUp(rounded, PAGE) / PAGE);
      ExpandHeap(rounded);
      WholePages(heapEnd, end, RoundUp(rounded, PAGE));
      ExpandLive(bs, end, rounded);
      WritesKeys(m, hdr, Headers(bs) + {end});
      ghost var middle, grown := hdr, blocks;
      address := malloc(rounded);
      ghost var room := RoundUp(rounded, PAGE);
      ExpandJoin(old(ptm.vm), end / PAGE, room / PAGE, PagesFor(grown, end + room, rounded));
      SparesBoth(m, middle, hdr, bs, grown);
    }

    /** The block before `address` is freed and combined with its neighbours; one that is free already stays as it is. */
    method free(address: int, ghost i: nat)
      requires Valid() && i < |blocks| && blocks[i].Payload() == address
      modifies this`hdr, this`LastHdr, this`blocks
      ensures Valid() && blocks == Release(old(blocks), i)
      ensures old(blocks[i].free) ==> blocks == old(blocks)
      ensures Spares(old(hdr), hdr, old(blocks))
    {
      hide Tiles, Linked, Distinct, WritesOnly, Spares, NoFreeNeighbours, Headers, PageTableManager.Valid;
      ghost var start, end, bs, m := heapStart, heapEnd, blocks, hdr;
      var segment := address - HEADER;
      TilesDistinct(bs, start, end);
      LinkedAt(hdr, LastHdr, bs, i);
      FlagLinked(hdr, LastHdr, bs, i, true);
      FlagTiles(bs, start, end, i, true);
      FlagWrites(hdr, bs, i, true);
      hdr := hdr[segment := hdr[segment].(Free := true)];
      blocks := blocks[i := blocks[i].(free := true)];
      ghost var m1, freed := hdr, blocks;
      CombineForward(segment, i, end);
      ghost var m2, forward := hdr, blocks;
      CombineBackward(segment, i, end);
      HeadersOfCombine(freed, i);
      WritesBoth(m, m1, m2, Headers(bs), Headers(freed));
      WritesBoth(m, m2, hdr, Headers(bs) + Headers(freed), Headers(forward));
      ReleaseInv(bs, start, end, i);
      if bs[i].free {
        ReleaseFree(bs, i);
      }
      FreedSpare(m, hdr, bs, i, start, end, Headers(bs) + Headers(freed) + Headers(forward));
    }
  }
}
