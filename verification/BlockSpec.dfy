/** The heap of src/memory/heap.cpp as steps on its list of blocks: tiling, coalescing, first fit, and inverses. */
module BlockSpec {
  import opened Common

  const HEADER: int := 32  // sizeof(HeapBlockHeader)
  const UNIT: int := 16

  /** A block: header address, payload length, free flag. */
  datatype Block = Block(addr: int, len: int, free: bool) {
    function Payload(): int {
      addr + HEADER
    }

    function End(): int {
      addr + HEADER + len
    }
  }

  // ---------- the operations ----------

  function CombineForward(bs: seq<Block>, i: nat): seq<Block>
    requires i < |bs|
  {
    if i + 1 < |bs| && bs[i + 1].free
    then bs[..i] + [bs[i].(len := bs[i].len + bs[i + 1].len + HEADER)] + bs[i + 2..]
    else bs
  }

  function CombineBackward(bs: seq<Block>, i: nat): seq<Block>
    requires i < |bs|
  {
    if i > 0 && bs[i - 1].free then CombineForward(bs, i - 1) else bs
  }

  /** A block is split only if both parts hold at least 16 bytes. */
  predicate Splits(b: Block, len: int) {
    len >= UNIT && b.len - len - HEADER >= UNIT
  }

  function Split(bs: seq<Block>, i: nat, len: int): seq<Block>
    requires i < |bs|
  {
    var b := bs[i];
    if Splits(b, len)
    then bs[..i] + [b.(len := len), Block(b.addr + len + HEADER, b.len - len - HEADER, b.free)] + bs[i + 1..]
    else bs
  }

  function RoundUp(size: nat, unit: nat): nat
    requires unit > 0
  {
    if size % unit > 0 then size - size % unit + unit else size
  }

  /** The size `malloc` looks for. */
  function Rounded(size: nat): (r: nat)
    ensures r % 16 == 0 && size <= r < size + 16
  {
    RoundUp(size, UNIT)
  }

  predicate Fits(b: Block, size: int) {
    b.free && b.len >= size
  }

  /** The first block that fits, or the number of blocks. */
  function FirstFit(bs: seq<Block>, size: int, from: nat := 0): (i: nat)
    requires from <= |bs|
    ensures from <= i <= |bs|
    ensures i < |bs| ==> Fits(bs[i], size)
    ensures forall j :: from <= j < i ==> !Fits(bs[j], size)
    decreases |bs| - from
  {
    if from == |bs| || Fits(bs[from], size) then from else FirstFit(bs, size, from + 1)
  }

  function Take(bs: seq<Block>, i: nat, size: int): seq<Block>
    requires i < |bs|
  {
    var split := if bs[i].len > size then Split(bs, i, size) else bs;
    split[i := split[i].(free := false)]
  }

  function Release(bs: seq<Block>, i: nat): seq<Block>
    requires i < |bs|
  {
    CombineBackward(CombineForward(bs[i := bs[i].(free := true)], i), i)
  }

  /** `ExpandHeap` once all its pages are there: a new last block, merged with the old one if that is free. */
  function Expand(bs: seq<Block>, end: int, size: nat): seq<Block> {
    CombineBackward(bs + [Block(end, RoundUp(size, PAGE) - HEADER, true)], |bs|)
  }

  // ---------- the invariant ----------

  /** The blocks follow one another without gap or overlap from start to end. */
  predicate Tiles(bs: seq<Block>, start: int, end: int) {
    && |bs| > 0 && bs[0].addr == start && bs[|bs| - 1].End() == end
    && (forall i :: 0 <= i < |bs| - 1 ==> bs[i].End() == bs[i + 1].addr)
    && (forall i :: 0 <= i < |bs| ==> bs[i].len >= UNIT && bs[i].len % UNIT == 0)
    && start % UNIT == 0
  }

  predicate NoFreeNeighbours(bs: seq<Block>) {
    forall i :: 0 <= i < |bs| - 1 ==> !(bs[i].free && bs[i + 1].free)
  }

  predicate Inv(bs: seq<Block>, start: int, end: int) {
    Tiles(bs, start, end) && NoFreeNeighbours(bs)
  }

  /** Later blocks lie wholly behind earlier ones. */
  lemma {:induction false} TilesOrdered(bs: seq<Block>, start: int, end: int, i: nat, j: nat)
    requires Tiles(bs, start, end) && i < j < |bs|
    ensures bs[i].End() <= bs[j].addr
    ensures start <= bs[i].addr && bs[j].End() <= end
    decreases j - i, i, |bs| - j
  {
    if i + 1 < j {
      TilesOrdered(bs, start, end, i, j - 1);
    }
    TilesWithin(bs, start, end, i);
    TilesWithin(bs, start, end, j);
  }

  lemma {:induction false} TilesWithin(bs: seq<Block>, start: int, end: int, i: nat)
    requires Tiles(bs, start, end) && i < |bs|
    ensures start <= bs[i].addr && bs[i].End() <= end
    ensures bs[i].addr % UNIT == 0
  {
    FromStart(bs, start, end, i);
    ToEnd(bs, start, end, i);
  }

  lemma {:induction false} FromStart(bs: seq<Block>, start: int, end: int, i: nat)
    requires Tiles(bs, start, end) && i < |bs|
    ensures start <= bs[i].addr && bs[i].addr % UNIT == 0
  {
    if i > 0 {
      FromStart(bs, start, end, i - 1);
      assert bs[i - 1].End() == bs[i].addr;
    }
  }

  lemma {:induction false} ToEnd(bs: seq<Block>, start: int, end: int, i: nat)
    requires Tiles(bs, start, end) && i < |bs|
    ensures bs[i].End() <= end
    decreases |bs| - i
  {
    if i + 1 < |bs| {
      ToEnd(bs, start, end, i + 1);
      assert bs[i].End() == bs[i + 1].addr;
    }
  }

  // ---------- every operation keeps the invariant ----------

  /** Two blocks in place of one, or one in place of two, where lengths and headers add up. */
  lemma ReplaceTiles(bs: seq<Block>, start: int, end: int, i: nat, n: nat, mid: seq<Block>)
    requires Tiles(bs, start, end) && i + n <= |bs| && n > 0 && |mid| > 0
    requires mid[0].addr == bs[i].addr && mid[|mid| - 1].End() == bs[i + n - 1].End()
    requires forall k :: 0 <= k < |mid| - 1 ==> mid[k].End() == mid[k + 1].addr
    requires forall k :: 0 <= k < |mid| ==> mid[k].len >= UNIT && mid[k].len % UNIT == 0
    ensures Tiles(bs[..i] + mid + bs[i + n..], start, end)
  {
    var r := bs[..i] + mid + bs[i + n..];
    forall k | 0 <= k < |r|
      ensures r[k].len >= UNIT && r[k].len % UNIT == 0
      ensures k + 1 < |r| ==> r[k].End() == r[k + 1].addr
    {
      if k < i {
        assert r[k] == bs[k];
      } else if k < i + |mid| {
        assert r[k] == mid[k - i];
      } else {
        assert r[k] == bs[k - |mid| + n];
      }
    }
  }

  lemma CombineForwardTiles(bs: seq<Block>, start: int, end: int, i: nat)
    requires Tiles(bs, start, end) && i < |bs|
    ensures Tiles(CombineForward(bs, i), start, end)
  {
    if i + 1 < |bs| && bs[i + 1].free {
      ReplaceTiles(bs, start, end, i, 2, [bs[i].(len := bs[i].len + bs[i + 1].len + HEADER)]);
    }
  }

  /** One block cut into two. */
  lemma CutTiles(bs: seq<Block>, start: int, end: int, i: nat, x: Block, y: Block)
    requires Tiles(bs, start, end) && i < |bs|
    requires x.addr == bs[i].addr && x.End() == y.addr && y.End() == bs[i].End()
    requires x.len >= UNIT && y.len >= UNIT && x.len % UNIT == 0 && y.len % UNIT == 0
    ensures Tiles(bs[..i] + [x, y] + bs[i + 1..], start, end)
  {
    hide Tiles;
    ReplaceTiles(bs, start, end, i, 1, [x, y]);
  }

  lemma SplitTiles(bs: seq<Block>, start: int, end: int, i: nat, size: int)
    requires Tiles(bs, start, end) && i < |bs| && size % UNIT == 0
    ensures Tiles(Split(bs, i, size), start, end)
  {
    hide Tiles;
    var b := bs[i];
    if Splits(b, size) {
      var rest := b.len - size - HEADER;
      UnitLength(bs, start, end, i);
      SplitUnits(b.len, size);
      CutTiles(bs, start, end, i, b.(len := size), Block(b.addr + size + HEADER, rest, b.free));
    }
  }

  lemma UnitLength(bs: seq<Block>, start: int, end: int, i: nat)
    requires Tiles(bs, start, end) && i < |bs|
    ensures bs[i].len % UNIT == 0
  {
  }

  lemma SplitUnits(len: int, size: int)
    requires len % UNIT == 0 && size % UNIT == 0
    ensures (len - size - HEADER) % UNIT == 0
  {
    assert len - size - HEADER == (len / UNIT - size / UNIT - 2) * UNIT;
  }

  lemma FlagTiles(bs: seq<Block>, start: int, end: int, i: nat, free: bool)
    requires Tiles(bs, start, end) && i < |bs|
    ensures Tiles(bs[i := bs[i].(free := free)], start, end)
  {
  }

  lemma TakeInv(bs: seq<Block>, start: int, end: int, i: nat, size: int)
    requires Inv(bs, start, end) && i < |bs| && Fits(bs[i], size) && size > 0 && size % UNIT == 0
    ensures Inv(Take(bs, i, size), start, end)
  {
    var split := if bs[i].len > size then Split(bs, i, size) else bs;
    SplitTiles(bs, start, end, i, size);
    FlagTiles(split, start, end, i, false);
  }

  lemma ReleaseInv(bs: seq<Block>, start: int, end: int, i: nat)
    requires Inv(bs, start, end) && i < |bs|
    ensures Inv(Release(bs, i), start, end)
  {
    hide Tiles, NoFreeNeighbours, CombineForward;
    var freed := bs[i := bs[i].(free := true)];
    var forward := CombineForward(freed, i);
    FlagTiles(bs, start, end, i, true);
    CombineForwardTiles(freed, start, end, i);
    ForwardFree(bs, i);
    BackwardFree(forward, i);
    if i > 0 && forward[i - 1].free {
      CombineForwardTiles(forward, start, end, i - 1);
    }
  }

  /** Freeing a free block changes nothing. */
  lemma ReleaseFree(bs: seq<Block>, i: nat)
    requires NoFreeNeighbours(bs) && i < |bs| && bs[i].free
    ensures Release(bs, i) == bs
  {
    assert bs[i := bs[i].(free := true)] == bs;
  }

  /** After freeing block i and combining forward, only block i - 1 can still have a free neighbour behind it. */
  lemma ForwardFree(bs: seq<Block>, i: nat)
    requires NoFreeNeighbours(bs) && i < |bs|
    ensures var forward := CombineForward(bs[i := bs[i].(free := true)], i);
            && i < |forward| && forward[i].free && forward[..i] == bs[..i]
            && forall k :: 0 <= k < |forward| - 1 && k != i - 1 ==> !(forward[k].free && forward[k + 1].free)
  {
  }

  lemma BackwardFree(bs: seq<Block>, i: nat)
    requires i < |bs| && bs[i].free
    requires forall k :: 0 <= k < |bs| - 1 && k != i - 1 ==> !(bs[k].free && bs[k + 1].free)
    ensures NoFreeNeighbours(CombineBackward(bs, i))
  {
  }

  /** The new list tiles the larger heap exactly if the heap really grew by the rounded length. */
  lemma ExpandTilesIff(bs: seq<Block>, start: int, end: int, size: nat, newEnd: int)
    requires Inv(bs, start, end) && size > 0
    ensures Inv(Expand(bs, end, size), start, newEnd) <==> newEnd == end + RoundUp(size, PAGE)
  {
    var room := RoundUp(size, PAGE);
    RoundUpWhole(size);
    var grown := bs + [Block(end, room - HEADER, true)];
    assert Tiles(grown, start, end + room);
    if bs[|bs| - 1].free {
      CombineForwardTiles(grown, start, end + room, |bs| - 1);
    }
  }

  /** The least number of whole pages. */
  lemma RoundUpWhole(size: nat)
    requires size > 0
    ensures var room := RoundUp(size, PAGE);
            size <= room < size + 0x1000 && room % 0x1000 == 0 && room >= PAGE && (room - HEADER) % UNIT == 0
  {
    var q, m := size / PAGE, size % PAGE;
    assert size == q * PAGE + m;
    var pages := if m > 0 then q + 1 else q;
    assert RoundUp(size, PAGE) == pages * PAGE;
    hide RoundUp;
    PagesUnits(pages);
  }

  lemma PagesUnits(pages: nat)
    ensures pages * PAGE % 0x1000 == 0 && (pages * PAGE - HEADER) % UNIT == 0
  {
    assert pages * PAGE - HEADER == (pages * 256 - 2) * UNIT;
  }

  // ---------- live blocks ----------

  /** Payload address and length of every block in use. */
  function Live(bs: seq<Block>): set<(int, int)> {
    set i | 0 <= i < |bs| && !bs[i].free :: (bs[i].Payload(), bs[i].len)
  }

  lemma LiveOf(bs: seq<Block>, i: nat)
    requires i < |bs| && !bs[i].free
    ensures (bs[i].Payload(), bs[i].len) in Live(bs)
  {
  }

  lemma LiveAppend(a: seq<Block>, b: seq<Block>)
    ensures Live(a + b) == Live(a) + Live(b)
  {
    forall x | x in Live(a) + Live(b)
      ensures x in Live(a + b)
    {
      if x in Live(a) {
        var i :| 0 <= i < |a| && !a[i].free && x == (a[i].Payload(), a[i].len);
        assert (a + b)[i] == a[i];
      } else {
        var i :| 0 <= i < |b| && !b[i].free && x == (b[i].Payload(), b[i].len);
        assert (a + b)[|a| + i] == b[i];
      }
    }
  }

  function LiveOne(b: Block): set<(int, int)> {
    if b.free then {} else {(b.Payload(), b.len)}
  }

  lemma LiveSingle(b: Block)
    ensures Live([b]) == LiveOne(b)
  {
    if !b.free {
      LiveOf([b], 0);
    }
  }

  lemma LiveAround(bs: seq<Block>, i: nat)
    requires i < |bs|
    ensures Live(bs) == Live(bs[..i]) + LiveOne(bs[i]) + Live(bs[i + 1..])
  {
    assert bs == bs[..i] + [bs[i]] + bs[i + 1..];
    LiveAppend(bs[..i] + [bs[i]], bs[i + 1..]);
    LiveAppend(bs[..i], [bs[i]]);
    LiveSingle(bs[i]);
  }

  /** Merging a free block into its neighbour changes no live block, provided the neighbour is free too. */
  lemma CombineLive(bs: seq<Block>, i: nat)
    requires i < |bs| && bs[i].free
    ensures Live(CombineForward(bs, i)) == Live(bs)
    ensures Live(CombineBackward(bs, i)) == Live(bs)
  {
    CombineForwardLive(bs, i);
    if i > 0 && bs[i - 1].free {
      CombineForwardLive(bs, i - 1);
    }
  }

  lemma CombineForwardLive(bs: seq<Block>, i: nat)
    requires i < |bs| && bs[i].free
    ensures Live(CombineForward(bs, i)) == Live(bs)
  {
    if i + 1 < |bs| && bs[i + 1].free {
      var merged := CombineForward(bs, i);
      LiveAround(bs, i);
      LiveAround(bs[i + 1..], 0);
      LiveAround(merged, i);
      assert bs[i + 1..][1..] == bs[i + 2..] && bs[i + 1..][..0] == [];
      assert merged[i + 1..] == bs[i + 2..] && merged[..i] == bs[..i];
    }
  }

  /** Taking a free block makes it live, at the requested length or more, and changes no other live block. */
  lemma TakeLive(bs: seq<Block>, i: nat, size: int)
    requires i < |bs| && Fits(bs[i], size)
    ensures var after := Take(bs, i, size);
            && i < |after| && after[i].addr == bs[i].addr && after[i].len >= size && !after[i].free
            && Live(after) == Live(bs) + {(after[i].Payload(), after[i].len)}
  {
    var after := Take(bs, i, size);
    LiveAround(bs, i);
    LiveAround(after, i);
    if bs[i].len > size && Splits(bs[i], size) {
      LiveAround(after[i + 1..], 0);
      assert after[i + 1..][..0] == [] && after[i + 1..][1..] == bs[i + 1..];
    } else {
      assert after[i + 1..] == bs[i + 1..];
    }
    assert after[..i] == bs[..i];
  }

  /** What becomes of the block that fits: without room for a header and 16 bytes behind the request it goes whole,
      otherwise exactly the request goes and the remainder is a free block right behind it. */
  predicate Handed(bs: seq<Block>, after: seq<Block>, i: nat, size: int)
    requires i < |bs|
  {
    var b := bs[i];
    if b.len < size + 48 then after == bs[..i] + [Block(b.addr, b.len, false)] + bs[i + 1..]
    else after == bs[..i] + [Block(b.addr, size, false), Block(b.addr + 32 + size, b.len - size - 32, true)] + bs[i + 1..]
  }

  lemma TakeHands(bs: seq<Block>, i: nat, size: int)
    requires i < |bs| && Fits(bs[i], size) && size >= 16
    ensures Handed(bs, Take(bs, i, size), i, size)
  {
    assert bs[i := bs[i].(free := false)] == bs[..i] + [bs[i].(free := false)] + bs[i + 1..];
  }

  /** Freeing a live block takes exactly that block out of the live ones. */
  lemma ReleaseLive(bs: seq<Block>, start: int, end: int, i: nat)
    requires Tiles(bs, start, end) && i < |bs| && !bs[i].free
    ensures Live(Release(bs, i)) == Live(bs) - {(bs[i].Payload(), bs[i].len)}
  {
    var freed := bs[i := bs[i].(free := true)];
    var forward := CombineForward(freed, i);
    CombineLive(freed, i);
    CombineLive(forward, i);
    LiveAround(bs, i);
    LiveAround(freed, i);
    assert freed[..i] == bs[..i] && freed[i + 1..] == bs[i + 1..];
    LiveDistinct(bs, start, end, i);
  }

  lemma LiveDistinct(bs: seq<Block>, start: int, end: int, i: nat)
    requires Tiles(bs, start, end) && i < |bs|
    ensures (bs[i].Payload(), bs[i].len) !in Live(bs[..i]) + Live(bs[i + 1..])
  {
    forall j | 0 <= j < |bs| && j != i
      ensures bs[j].addr != bs[i].addr
    {
      if j < i {
        TilesOrdered(bs, start, end, j, i);
      } else {
        TilesOrdered(bs, start, end, i, j);
      }
    }
  }

  lemma ExpandLive(bs: seq<Block>, end: int, size: nat)
    ensures Live(Expand(bs, end, size)) == Live(bs)
  {
    var added := Block(end, RoundUp(size, PAGE) - HEADER, true);
    LiveAppend(bs, [added]);
    LiveSingle(added);
    CombineLive(bs + [added], |bs|);
  }

  // ---------- inverses and coalescing ----------

  /** Freeing what was just taken restores the identical list, split or not. */
  lemma ReleaseUndoesTake(bs: seq<Block>, start: int, end: int, i: nat, size: int)
    requires Inv(bs, start, end) && i < |bs| && Fits(bs[i], size)
    ensures Release(Take(bs, i, size), i) == bs
  {
    var taken := Take(bs, i, size);
    var freed := taken[i := taken[i].(free := true)];
    if bs[i].len > size && Splits(bs[i], size) {
      assert CombineForward(freed, i) == bs;
    } else {
      assert freed == bs;
    }
  }

  /** With nothing live the heap is one free block. */
  lemma AllFreeIsOne(bs: seq<Block>, start: int, end: int)
    requires Inv(bs, start, end) && Live(bs) == {}
    ensures bs == [Block(start, end - start - HEADER, true)]
  {
    if !bs[0].free {
      LiveOf(bs, 0);
    }
    if |bs| > 1 && !bs[1].free {
      LiveOf(bs, 1);
    }
  }

  // ---------- how often malloc grows the heap ----------

  /** Expansions before some block fits: none, one, or at most two. */
  function Expansions(bs: seq<Block>, end: int, size: nat): nat {
    if FirstFit(bs, size) < |bs| then 0
    else if FirstFit(Expand(bs, end, size), size) < |Expand(bs, end, size)| then 1
    else 2
  }

  lemma FitFound(bs: seq<Block>, size: int, i: nat)
    requires i < |bs| && Fits(bs[i], size)
    ensures FirstFit(bs, size) < |bs|
  {
  }

  /** The block an expansion leaves at the end is free and has at least the rounded length but for a header; with a free
      block before it, at least the whole of it. */
  lemma ExpandLast(bs: seq<Block>, start: int, end: int, size: nat)
    requires Tiles(bs, start, end)
    ensures var grown, room := Expand(bs, end, size), RoundUp(size, PAGE);
            && |grown| > 0 && grown[|grown| - 1].free
            && grown[|grown| - 1].len == if bs[|bs| - 1].free then bs[|bs| - 1].len + room else room - HEADER
  {
  }

  /** Each expansion brings the fit one step nearer, so two always do. */
  lemma ExpansionsFall(bs: seq<Block>, start: int, end: int, size: nat)
    requires Inv(bs, start, end) && size > 0 && Expansions(bs, end, size) > 0
    ensures Expansions(Expand(bs, end, size), end + RoundUp(size, PAGE), size) == Expansions(bs, end, size) - 1
  {
    var grown, newEnd := Expand(bs, end, size), end + RoundUp(size, PAGE);
    if FirstFit(grown, size) == |grown| {
      ExpandTilesIff(bs, start, end, size, newEnd);
      ExpandLast(bs, start, end, size);
      ExpandLast(grown, start, newEnd, size);
      var twice := Expand(grown, newEnd, size);
      FitFound(twice, size, |twice| - 1);
    }
  }

  /** The list after n expansions. */
  function Grown(bs: seq<Block>, end: int, size: nat, n: nat): seq<Block>
    decreases n
  {
    if n == 0 then bs else Grown(Expand(bs, end, size), end + RoundUp(size, PAGE), size, n - 1)
  }

  /** One expansion of the heap serves a request that no block fits, unless the last block is in use and the request with
      its header is longer than the pages obtained for the request alone. */
  lemma ExpansionsIs(bs: seq<Block>, start: int, end: int, size: nat)
    requires Inv(bs, start, end) && size > 0
    ensures Expansions(bs, end, size) ==
            if exists i :: 0 <= i < |bs| && bs[i].free && bs[i].len >= size then 0
            else if bs[|bs| - 1].free || size + 32 <= RoundUp(size, PAGE) then 1
            else 2
  {
    RoundUpWhole(size);
    if i :| 0 <= i < |bs| && bs[i].free && bs[i].len >= size {
      FitFound(bs, size, i);
    } else {
      var grown := Expand(bs, end, size);
      ExpandLast(bs, start, end, size);
      ExpandKeeps(bs, end, size);
      if bs[|bs| - 1].free || size + 32 <= RoundUp(size, PAGE) {
        FitFound(grown, size, |grown| - 1);
      }
    }
  }

  /** An expansion changes only what is behind the last block in use. */
  lemma ExpandKeeps(bs: seq<Block>, end: int, size: nat)
    requires |bs| > 0
    ensures var grown := Expand(bs, end, size);
            |grown| > 0 && |grown| - 1 <= |bs| && grown[..|grown| - 1] == bs[..|grown| - 1]
  {
  }

  /** `malloc` of a rounded size: the list, the end of the heap, and the index of the block taken. */
  function Malloc(bs: seq<Block>, start: int, end: int, size: nat): (r: (seq<Block>, int, nat))
    requires Inv(bs, start, end) && size > 0 && size % UNIT == 0
    ensures r.2 < |r.0|
    decreases Expansions(bs, end, size)
  {
    var i := FirstFit(bs, size);
    if i < |bs| then
      TakeLive(bs, i, size);
      (Take(bs, i, size), end, i)
    else
      ExpansionsFall(bs, start, end, size);
      ExpandTilesIff(bs, start, end, size, end + RoundUp(size, PAGE));
      Malloc(Expand(bs, end, size), start, end + RoundUp(size, PAGE), size)
  }

  /** `malloc` keeps the invariant and adds one live block, long enough and aligned; every other live block stays. It
      takes the lowest block that fits, and grows the heap only if none does, then once or twice. */
  lemma {:induction false} MallocInv(bs: seq<Block>, start: int, end: int, size: nat)
    requires Inv(bs, start, end) && size > 0 && size % UNIT == 0
    ensures var r := Malloc(bs, start, end, size);
            var b := r.0[r.2];
            && r.1 == end + Expansions(bs, end, size) * RoundUp(size, PAGE) && Inv(r.0, start, r.1)
            && !b.free && b.len >= size && b.Payload() % UNIT == 0
            && Live(r.0) == Live(bs) + {(b.Payload(), b.len)}
            && (forall x :: x in Live(bs) ==> x.0 != b.Payload())
            && (forall k :: 0 <= k < r.2 ==> r.0[k].addr < b.addr && !Fits(r.0[k], size))
            && var ready := Grown(bs, end, size, Expansions(bs, end, size));
               b.len <= size + 32 && r.2 < |ready| && Handed(ready, r.0, r.2, size)
    decreases Expansions(bs, end, size)
  {
    hide Live, Take, Tiles, NoFreeNeighbours, Expand, RoundUp, Handed;
    var i := FirstFit(bs, size);
    if i < |bs| {
      TakeLive(bs, i, size);
      TakeInv(bs, start, end, i, size);
      TilesWithin(bs, start, end, i);
      LiveDistinctAddress(bs, start, end, i);
      TakeLowest(bs, start, end, i, size);
      TakeHands(bs, i, size);
      HandedLength(bs, Take(bs, i, size), start, end, i, size);
    } else {
      var newEnd := end + RoundUp(size, PAGE);
      ExpansionsFall(bs, start, end, size);
      ExpandTilesIff(bs, start, end, size, newEnd);
      ExpandLive(bs, end, size);
      MallocInv(Expand(bs, end, size), start, newEnd, size);
      assert Expansions(bs, end, size) == 1 || Expansions(bs, end, size) == 2;
    }
  }

  lemma HandedLength(bs: seq<Block>, after: seq<Block>, start: int, end: int, i: nat, size: int)
    requires Tiles(bs, start, end) && i < |bs| && Handed(bs, after, i, size) && size % UNIT == 0
    ensures i < |after| && after[i].len <= size + 32
  {
  }

  lemma TakeLowest(bs: seq<Block>, start: int, end: int, i: nat, size: int)
    requires Inv(bs, start, end) && i < |bs| && i == FirstFit(bs, size) && size > 0 && size % UNIT == 0
    ensures var after := Take(bs, i, size);
            forall k :: 0 <= k < i ==> k < |after| && after[k].addr < bs[i].addr && !Fits(after[k], size)
  {
    forall k | 0 <= k < i
      ensures Take(bs, i, size)[k] == bs[k] && bs[k].addr < bs[i].addr
    {
      TilesOrdered(bs, start, end, k, i);
    }
  }

  lemma LiveDistinctAddress(bs: seq<Block>, start: int, end: int, i: nat)
    requires Tiles(bs, start, end) && i < |bs| && bs[i].free
    ensures forall x :: x in Live(bs) ==> x.0 != bs[i].Payload()
  {
    forall j | 0 <= j < |bs| && !bs[j].free
      ensures bs[j].addr != bs[i].addr
    {
      if j < i {
        TilesOrdered(bs, start, end, j, i);
      } else {
        TilesOrdered(bs, start, end, i, j);
      }
    }
  }
}
