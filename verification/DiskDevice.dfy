/** Byte and block access to a disk through eight bounce buffers (src/fs/DiskDevice.cpp). */
module DiskDevices {
  import opened Memory

  type byte = bv8

  const BLOCK: nat := 512
  const BUFFER: nat := 4096

  // ---------- the buffer lock ----------

  function Bit(i: nat): bv8
    requires i < 8
  {
    match i
    case 0 => 0x01 case 1 => 0x02 case 2 => 0x04 case 3 => 0x08
    case 4 => 0x10 case 5 => 0x20 case 6 => 0x40 case _ => 0x80
  }

  predicate InUse(lock: bv8, i: nat)
    requires i < 8
  {
    lock & Bit(i) != 0
  }

  /** Buffer i has the bit worth 2 to the i. */
  lemma BitIs(lock: bv8, i: nat)
    requires i < 8
    ensures InUse(lock, i) <==> (lock >> i) & 1 == 1
  {
  }

  lemma SetBit(lock: bv8, i: nat, j: nat)
    requires i < 8 && j < 8
    ensures InUse(lock | Bit(i), j) <==> j == i || InUse(lock, j)
    ensures InUse(lock & !Bit(i), j) <==> j != i && InUse(lock, j)
  {
  }

  lemma SetAndClear(lock: bv8, i: nat)
    requires i < 8 && !InUse(lock, i)
    ensures (lock | Bit(i)) & !Bit(i) == lock
  {
  }

  /** The lowest buffer not in use, or 8. */
  function FirstFree(lock: bv8, from: nat): (r: nat)
    requires from <= 8
    ensures from <= r <= 8
    ensures forall j :: from <= j < r ==> InUse(lock, j)
    ensures r < 8 ==> !InUse(lock, r)
    decreases 8 - from
  {
    if from == 8 || !InUse(lock, from) then from else FirstFree(lock, from + 1)
  }

  /** How many buffers are free. */
  function FreeBuffers(lock: bv8, from: nat): nat
    requires from <= 8
    decreases 8 - from
  {
    if from == 8 then 0 else (if InUse(lock, from) then 0 else 1) + FreeBuffers(lock, from + 1)
  }

  lemma {:induction false} FreeBuffersLeft(lock: bv8, from: nat)
    requires from <= 8
    ensures FreeBuffers(lock, from) == 0 <==> FirstFree(lock, from) == 8
    decreases 8 - from
  {
    if from < 8 {
      FreeBuffersLeft(lock, from + 1);
    }
  }

  lemma {:induction false} TakeBuffer(lock: bv8, from: nat, i: nat)
    requires from <= 8 && i < 8 && !InUse(lock, i)
    ensures FreeBuffers(lock | Bit(i), from) == FreeBuffers(lock, from) - if from <= i then 1 else 0
    decreases 8 - from
  {
    hide InUse, Bit;
    if from < 8 {
      SetBit(lock, i, from);
      TakeBuffer(lock, from + 1, i);
    }
  }

  /** k calls, one after the other, of `ReadBlocks` and `WriteBlocks` each find a buffer. */
  predicate BlockCalls(lock: bv8, k: nat)
    decreases k
  {
    k == 0 || (FirstFree(lock, 0) < 8 && BlockCalls(lock | Bit(FirstFree(lock, 0)), k - 1))
  }

  /** They never give a buffer back, so exactly as many calls work as buffers are free: eight on a new device. */
  lemma {:induction false} BlockCallsIff(lock: bv8, k: nat)
    ensures BlockCalls(lock, k) <==> k <= FreeBuffers(lock, 0)
    ensures lock == 0 ==> (BlockCalls(lock, k) <==> k <= 8)
    decreases k
  {
    NoneInUse(0);
    hide InUse, Bit;
    FreeBuffersLeft(lock, 0);
    if k > 0 && FirstFree(lock, 0) < 8 {
      TakeBuffer(lock, 0, FirstFree(lock, 0));
      BlockCallsIff(lock | Bit(FirstFree(lock, 0)), k - 1);
    }
  }

  lemma {:induction false} NoneInUse(from: nat)
    requires from <= 8
    ensures FreeBuffers(0, from) == 8 - from
    decreases 8 - from
  {
    if from < 8 {
      NoneInUse(from + 1);
    }
  }

  // ---------- what the transfers do ----------

  /** The bytes of an unaligned transfer that are in its first block. */
  function First(off: nat): nat {
    BLOCK - off % BLOCK
  }

  /** The bytes that are in a last, partial block. */
  function Excess(off: nat, size: nat): nat {
    (off + size) % BLOCK
  }

  /** `Write` takes the bytes of the last, partial block from the start of the caller's data. */
  function Stored(data: seq<byte>, off: nat, size: nat): (r: seq<byte>)
    requires First(off) <= size <= |data|
    ensures |r| == size
  {
    var e := Excess(off, size);
    ExcessFits(off, size);
    data[..size - e] + data[..e]
  }

  lemma ExcessFits(off: nat, size: nat)
    requires First(off) <= size
    ensures Excess(off, size) + First(off) <= size
    ensures (size - First(off)) % BLOCK == Excess(off, size)
  {
    var q := off / BLOCK;
    assert off + First(off) == BLOCK * (q + 1);
    assert off + size == BLOCK * (q + 1) + (size - First(off));
  }

  /** Where the stored bytes come from. */
  lemma StoredFrom(data: seq<byte>, off: nat, size: nat, i: nat)
    requires 512 - off % 512 <= size <= |data| && i < size
    ensures var whole := size - (off + size) % 512;
            whole >= 0 && (i >= whole ==> i - whole < size)
            && Stored(data, off, size)[i] == if i < whole then data[i] else data[i - whole]
  {
    ExcessFits(off, size);
  }

  /** What was stored is what was meant exactly when the data's tail equals its head. */
  lemma StoredIff(data: seq<byte>, off: nat, size: nat)
    requires First(off) <= size <= |data|
    ensures Excess(off, size) <= size
    ensures Stored(data, off, size) == data[..size] <==>
            data[size - Excess(off, size)..size] == data[..Excess(off, size)]
  {
    ExcessFits(off, size);
    var e := Excess(off, size);
    assert data[..size] == data[..size - e] + data[size - e..size];
    if Stored(data, off, size) == data[..size] {
      assert Stored(data, off, size)[size - e..] == data[..e];
      assert data[..size][size - e..] == data[size - e..size];
    }
  }

  /** For every data at once: exactly when the transfer ends on a block boundary. */
  lemma StoredForAll(off: nat, size: nat)
    requires First(off) <= size
    ensures (forall data: seq<byte> :: |data| == size ==> Stored(data, off, size) == data) <==> Excess(off, size) == 0
  {
    var e := Excess(off, size);
    ExcessFits(off, size);
    if e == 0 {
      forall data: seq<byte> | |data| == size
        ensures Stored(data, off, size) == data
      {
      }
    } else {
      var data: seq<byte> := seq(size, i => if i == size - 1 then 1 else 0);
      assert Stored(data, off, size)[size - 1] == data[e - 1] == 0;
      assert Stored(data, off, size) != data;
    }
  }

  /** `s` with n bytes of t, from b on, written at a. */
  function Copied(s: seq<byte>, a: nat, t: seq<byte>, b: nat, n: nat): (r: seq<byte>)
    requires a + n <= |s| && b + n <= |t|
    ensures |r| == |s|
  {
    Over(s, a, t[b..b + n])
  }

  function Max(m: nat, n: nat): nat {
    if m <= n then n else m
  }

  /** A chunk that overlaps what is already copied extends it. */
  lemma CopyMore(s: seq<byte>, a: nat, t: seq<byte>, b: nat, m: nat, at: nat, n: nat)
    requires a + m <= |s| && a + at + n <= |s| && b + m <= |t| && b + at + n <= |t| && at <= m
    ensures Copied(Copied(s, a, t, b, m), a + at, t, b + at, n) == Copied(s, a, t, b, Max(m, at + n))
  {
  }

  /** Through a bounce buffer. */
  lemma ViaTemp(s: seq<byte>, at: nat, temp: seq<byte>, t: seq<byte>, b: nat, length: nat, offset: nat, n: nat)
    requires offset + n <= length <= |temp| && b + length <= |t| && at + n <= |s|
    ensures Copied(s, at, Copied(temp, 0, t, b, length), offset, n) == Copied(s, at, t, b + offset, n)
  {
    var block := Copied(temp, 0, t, b, length);
    assert block[0..0 + length] == t[b..b + length];
    SliceOfSlice(block, 0, length, offset, n);
    SliceOfSlice(t, b, length, offset, n);
  }

  lemma SliceOfSlice(s: seq<byte>, b: nat, length: nat, offset: nat, n: nat)
    requires b + length <= |s| && offset + n <= length
    ensures s[b..b + length][offset..offset + n] == s[b + offset..b + offset + n]
  {
    var x, y := s[b..b + length][offset..offset + n], s[b + offset..b + offset + n];
    assert |x| == |y|;
    forall i | 0 <= i < |x|
      ensures x[i] == y[i]
    {
    }
  }

  /** Reading a block, changing part of it and writing it back changes that part. */
  lemma ReadModifyWrite(d: seq<byte>, base: nat, temp: seq<byte>, offset: nat, data: seq<byte>, n: nat)
    requires base + BLOCK <= |d| && BLOCK <= |temp| && offset + n <= BLOCK && n <= |data|
    ensures var block := Copied(Copied(temp, 0, d, base, BLOCK), offset, data, 0, n);
            Copied(d, base, block, 0, BLOCK) == Copied(d, base + offset, data, 0, n)
  {
  }

  /** The copied range holds what it was copied from, and the rest what it held. */
  lemma CopiedParts(s: seq<byte>, a: nat, t: seq<byte>, b: nat, n: nat)
    requires a + n <= |s| && b + n <= |t|
    ensures var r := Copied(s, a, t, b, n);
            r[..a] == s[..a] && r[a..a + n] == t[b..b + n] && r[a + n..] == s[a + n..]
  {
  }

  lemma CopiedNothing(s: seq<byte>, t: seq<byte>, b: nat)
    requires b <= |t|
    ensures Copied(s, 0, t, b, 0) == s
  {
  }

  lemma CopiedNone(s: seq<byte>, a: nat, t: seq<byte>)
    requires a <= |s|
    ensures Copied(s, a, t, 0, 0) == s
  {
  }

  lemma OffsetOf(off: nat)
    ensures off == off / BLOCK * BLOCK + off % BLOCK && off + First(off) == (off / BLOCK + 1) * BLOCK
  {
  }

  lemma StoredCopied(d: seq<byte>, off: nat, size: nat, data: seq<byte>)
    requires First(off) <= size <= |data| && off + size <= |d| && Excess(off, size) <= size
    ensures var e := Excess(off, size);
            Copied(Copied(d, off, data, 0, size - e), off + size - e, data, 0, e) == Over(d, off, Stored(data, off, size))
  {
  }

  /** Reading back after `Write` as it is gives what was written exactly when the data's last, partial block equals its
      head; all bytes outside the range are kept. */
  lemma WriteThenRead(d: seq<byte>, off: nat, size: nat, data: seq<byte>, into: seq<byte>)
    requires First(off) <= size <= |data| && off + size <= |d| && size <= |into|
    ensures Excess(off, size) <= size && |Stored(data, off, size)| == size
    ensures var d1 := Over(d, off, Stored(data, off, size));
            && d1[..off] == d[..off] && d1[off + size..] == d[off + size..]
            && (Copied(into, 0, d1, off, size)[..size] == data[..size] <==>
                data[size - Excess(off, size)..size] == data[..Excess(off, size)])
  {
    StoredIff(data, off, size);
    hide First, Stored, Excess;
    SliceBack(d, off, Stored(data, off, size), into);
  }

  lemma SliceBack(d: seq<byte>, off: nat, t: seq<byte>, into: seq<byte>)
    requires off + |t| <= |d| && |t| <= |into|
    ensures var d1 := Over(d, off, t);
            && d1[..off] == d[..off] && d1[off + |t|..] == d[off + |t|..]
            && Copied(into, 0, d1, off, |t|)[..|t|] == t
  {
    var d1 := Over(d, off, t);
    assert d1[off..off + |t|] == t;
  }

  method CopyBytes(dst: array<byte>, d: nat, src: array<byte>, s: nat, n: nat)
    requires dst != src && d + n <= dst.Length && s + n <= src.Length
    modifies dst
    ensures dst[..] == Copied(old(dst[..]), d, src[..], s, n)
  {
    Memcpy(dst, d, src, s, n);
    assert src[..][s..s + n] == src[s..s + n];
  }

  class DiskDevice {
    const disk: array<byte>
    const Buffer: seq<array<byte>>
    var bufferLock: bv8

    ghost predicate Valid()
    {
      && |Buffer| == 8
      && (forall i :: 0 <= i < 8 ==> Buffer[i].Length == BUFFER && Buffer[i] != disk)
      && (forall i, j :: 0 <= i < j < 8 ==> Buffer[i] != Buffer[j])
      && disk.Length % BLOCK == 0
    }

    constructor (blocks: array<byte>, buffers: seq<array<byte>>)
      requires |buffers| == 8 && blocks.Length % BLOCK == 0
      requires forall i :: 0 <= i < 8 ==> buffers[i].Length == BUFFER && buffers[i] != blocks
      requires forall i, j :: 0 <= i < j < 8 ==> buffers[i] != buffers[j]
      modifies buffers
      ensures Valid() && disk == blocks && Buffer == buffers && bufferLock == 0
      ensures forall i, k :: 0 <= i < 8 && 0 <= k < BUFFER ==> Buffer[i][k] == 0
    {
      disk, Buffer := blocks, buffers;
      new;
      for i := 0 to 8
        invariant forall j, k :: 0 <= j < i && 0 <= k < BUFFER ==> Buffer[j][k] == 0
      {
        for m := 0 to BUFFER
          invariant forall k :: 0 <= k < m ==> Buffer[i][k] == 0
          invariant forall j, k :: 0 <= j < i && 0 <= k < BUFFER ==> Buffer[j][k] == 0
        {
          Buffer[i][m] := 0;
        }
      }
      bufferLock := 0;
    }

    /** Takes the first free buffer, or fails and changes nothing. */
    method GetBuffer() returns (r: int)
      modifies `bufferLock
      ensures var f := old(FirstFree(bufferLock, 0));
              if f == 8 then r == -1 && bufferLock == old(bufferLock)
              else r == f && bufferLock == old(bufferLock) | Bit(f)
    {
      hide InUse, Bit;
      var i := 0;
      while i < 8
        invariant 0 <= i <= 8
        invariant bufferLock == old(bufferLock) && FirstFree(bufferLock, 0) == FirstFree(bufferLock, i)
      {
        if !InUse(bufferLock, i) {
          bufferLock := bufferLock | Bit(i);
          return i;
        }
        i := i + 1;
      }
      return -1;
    }

    method RelieveBuffer(index: nat)
      requires index < 8
      modifies `bufferLock
      ensures bufferLock == old(bufferLock) & !Bit(index)
    {
      bufferLock := bufferLock & !Bit(index);
    }

    // ---------- the disk ----------

    method ReadDiskBlock(lba: nat, count: nat, buffer: array<byte>)
      requires (lba + count) * BLOCK <= disk.Length && count * BLOCK <= buffer.Length && buffer != disk
      modifies buffer
      ensures buffer[..] == Copied(old(buffer[..]), 0, disk[..], lba * BLOCK, count * BLOCK)
    {
      CopyBytes(buffer, 0, disk, lba * BLOCK, count * BLOCK);
    }

    method WriteDiskBlock(lba: nat, count: nat, buffer: array<byte>)
      requires (lba + count) * BLOCK <= disk.Length && count * BLOCK <= buffer.Length && buffer != disk
      modifies disk
      ensures disk[..] == Copied(old(disk[..]), lba * BLOCK, buffer[..], 0, count * BLOCK)
    {
      CopyBytes(disk, lba * BLOCK, buffer, 0, count * BLOCK);
    }

    ghost predicate Apart(temp: array<byte>, buffer: array<byte>) {
      temp.Length == BUFFER && temp != disk && buffer != disk && buffer != temp
    }

    /** Whole blocks through a bounce buffer to the caller. */
    method ReadVia(temp: array<byte>, lba: nat, count: nat, buffer: array<byte>, at: nat)
      requires Apart(temp, buffer) && count * BLOCK <= BUFFER && (lba + count) * BLOCK <= disk.Length
      requires at + count * BLOCK <= buffer.Length
      modifies temp, buffer
      ensures buffer[..] == Copied(old(buffer[..]), at, disk[..], lba * BLOCK, count * BLOCK)
    {
      hide Copied;
      ViaTemp(buffer[..], at, temp[..], disk[..], lba * BLOCK, count * BLOCK, 0, count * BLOCK);
      ReadDiskBlock(lba, count, temp);
      CopyBytes(buffer, at, temp, 0, count * BLOCK);
    }

    /** Whole blocks from the caller through a bounce buffer to the disk. */
    method WriteVia(temp: array<byte>, lba: nat, count: nat, buffer: array<byte>, at: nat)
      requires Apart(temp, buffer) && count * BLOCK <= BUFFER && (lba + count) * BLOCK <= disk.Length
      requires at + count * BLOCK <= buffer.Length
      modifies temp, disk
      ensures disk[..] == Copied(old(disk[..]), lba * BLOCK, buffer[..], at, count * BLOCK)
    {
      hide Copied;
      ViaTemp(disk[..], lba * BLOCK, temp[..], buffer[..], at, count * BLOCK, 0, count * BLOCK);
      CopyBytes(temp, 0, buffer, at, count * BLOCK);
      WriteDiskBlock(lba, count, temp);
    }

    /** The caller has m bytes already, and the chunk begins at or before the end of these. */
    method ReadChunk(temp: array<byte>, lba: nat, count: nat, buffer: array<byte>, at: nat,
                     ghost was: seq<byte>, ghost off: nat, ghost m: nat)
      requires Apart(temp, buffer) && count * BLOCK <= BUFFER && (lba + count) * BLOCK <= disk.Length
      requires off + at == lba * BLOCK && at <= m && at + count * BLOCK <= buffer.Length
      requires m <= |was| == buffer.Length && off + m <= disk.Length && buffer[..] == Copied(was, 0, disk[..], off, m)
      modifies temp, buffer
      ensures buffer[..] == Copied(was, 0, disk[..], off, Max(m, at + count * BLOCK))
    {
      hide Copied;
      CopyMore(was, 0, disk[..], off, m, at, count * BLOCK);
      ReadVia(temp, lba, count, buffer, at);
    }

    method WriteChunk(temp: array<byte>, lba: nat, count: nat, buffer: array<byte>, at: nat,
                      ghost was: seq<byte>, ghost off: nat, ghost m: nat)
      requires Apart(temp, buffer) && count * BLOCK <= BUFFER && (lba + count) * BLOCK <= disk.Length
      requires off + at == lba * BLOCK && at <= m && at + count * BLOCK <= buffer.Length
      requires m <= buffer.Length && off + m <= |was| == disk.Length && disk[..] == Copied(was, off, buffer[..], 0, m)
      modifies temp, disk
      ensures disk[..] == Copied(was, off, buffer[..], 0, Max(m, at + count * BLOCK))
    {
      hide Copied;
      CopyMore(was, off, buffer[..], 0, m, at, count * BLOCK);
      WriteVia(temp, lba, count, buffer, at);
    }

    // ---------- bytes ----------

    /** Lines 161-184: the whole blocks, in chunks that may overlap because of the `if` at line 174. */
    method ReadWhole(temp: array<byte>, start: nat, first: nat, blocks: nat, buffer: array<byte>,
                     ghost was: seq<byte>, ghost off: nat)
      requires Apart(temp, buffer) && off + first == (start + 1) * BLOCK
      requires off + first + blocks * BLOCK <= disk.Length && first + blocks * BLOCK <= buffer.Length == |was|
      requires buffer[..] == Copied(was, 0, disk[..], off, first)
      modifies temp, buffer
      ensures buffer[..] == Copied(was, 0, disk[..], off, first + blocks * BLOCK)
    {
      hide Copied;
      var i := 0;
      ghost var m := first;
      while i < blocks
        invariant 0 <= i <= blocks && m == first + i * BLOCK
        invariant buffer[..] == Copied(was, 0, disk[..], off, m)
      {
        if blocks - i > 8 {
          ReadChunk(temp, start + 1 + i, 8, buffer, first + i * BLOCK, was, off, m);
          m := first + (i + 8) * BLOCK;
          i := i + 7;
        } else if blocks - i > 4 {
          ReadChunk(temp, start + 1 + i, 4, buffer, first + i * BLOCK, was, off, m);
          m := first + (i + 4) * BLOCK;
          i := i + 3;
        }
        if blocks - i > 2 {
          ReadChunk(temp, start + 1 + i, 2, buffer, first + i * BLOCK, was, off, m);
          m := first + (i + 2) * BLOCK;
          i := i + 1;
        } else {
          ReadChunk(temp, start + 1 + i, 1, buffer, first + i * BLOCK, was, off, m);
          m := first + (i + 1) * BLOCK;
        }
        i := i + 1;
      }
    }

    /** The same for writing, lines 230-253. */
    method WriteWhole(temp: array<byte>, start: nat, first: nat, blocks: nat, buffer: array<byte>,
                      ghost was: seq<byte>, ghost off: nat)
      requires Apart(temp, buffer) && off + first == (start + 1) * BLOCK
      requires off + first + blocks * BLOCK <= disk.Length == |was| && first + blocks * BLOCK <= buffer.Length
      requires disk[..] == Copied(was, off, buffer[..], 0, first)
      modifies temp, disk
      ensures disk[..] == Copied(was, off, buffer[..], 0, first + blocks * BLOCK)
    {
      hide Copied;
      var i := 0;
      ghost var m := first;
      while i < blocks
        invariant 0 <= i <= blocks && m == first + i * BLOCK
        invariant disk[..] == Copied(was, off, buffer[..], 0, m)
      {
        if blocks - i > 8 {
          WriteChunk(temp, start + 1 + i, 8, buffer, first + i * BLOCK, was, off, m);
          m := first + (i + 8) * BLOCK;
          i := i + 7;
        } else if blocks - i > 4 {
          WriteChunk(temp, start + 1 + i, 4, buffer, first + i * BLOCK, was, off, m);
          m := first + (i + 4) * BLOCK;
          i := i + 3;
        }
        if blocks - i > 2 {
          WriteChunk(temp, start + 1 + i, 2, buffer, first + i * BLOCK, was, off, m);
          m := first + (i + 2) * BLOCK;
          i := i + 1;
        } else {
          WriteChunk(temp, start + 1 + i, 1, buffer, first + i * BLOCK, was, off, m);
          m := first + (i + 1) * BLOCK;
        }
        i := i + 1;
      }
    }

    /** Part of one block for the caller. */
    method Fetch(temp: array<byte>, lba: nat, offset: nat, buffer: array<byte>, at: nat, n: nat)
      requires Apart(temp, buffer) && (lba + 1) * BLOCK <= disk.Length && offset + n <= BLOCK && at + n <= buffer.Length
      modifies temp, buffer
      ensures buffer[..] == Copied(old(buffer[..]), at, disk[..], lba * BLOCK + offset, n)
    {
      hide Copied;
      ViaTemp(buffer[..], at, temp[..], disk[..], lba * BLOCK, BLOCK, offset, n);
      ReadDiskBlock(lba, 1, temp);
      CopyBytes(buffer, at, temp, offset, n);
    }

    /** Part of one block from the start of the caller's data: read, modify, write. */
    method Patch(temp: array<byte>, lba: nat, offset: nat, buffer: array<byte>, n: nat)
      requires Apart(temp, buffer) && (lba + 1) * BLOCK <= disk.Length && offset + n <= BLOCK && n <= buffer.Length
      modifies temp, disk
      ensures disk[..] == Copied(old(disk[..]), lba * BLOCK + offset, buffer[..], 0, n)
    {
      hide Copied;
      ReadModifyWrite(disk[..], lba * BLOCK, temp[..], offset, buffer[..], n);
      ReadDiskBlock(lba, 1, temp);
      CopyBytes(temp, offset, buffer, 0, n);
      WriteDiskBlock(lba, 1, temp);
    }

    /** Lines 143-193. */
    method ReadThrough(temp: array<byte>, off: nat, size: nat, buffer: array<byte>)
      requires Apart(temp, buffer) && disk.Length % BLOCK == 0
      requires off + size <= disk.Length && First(off) <= size <= buffer.Length
      modifies temp, buffer
      ensures buffer[..] == Copied(old(buffer[..]), 0, disk[..], off, size)
    {
      hide Copied;
      ExcessFits(off, size);
      OffsetOf(off);
      var start, offset := off / BLOCK, off % BLOCK;
      var first := BLOCK - offset;
      Fetch(temp, start, offset, buffer, 0, first);
      var blocks := (size - first) / BLOCK;
      var excess := size - first - BLOCK * blocks;
      ReadWhole(temp, start, first, blocks, buffer, old(buffer[..]), off);
      if excess > 0 {
        CopyMore(old(buffer[..]), 0, disk[..], off, first + blocks * BLOCK, first + blocks * BLOCK, excess);
        Fetch(temp, start + 1 + blocks, 0, buffer, first + blocks * BLOCK, excess);
      }
    }

    /** `Read`: a flat copy, or nothing and 0 when no buffer is free. */
    method Read(off: nat, size: nat, buffer: array<byte>) returns (r: int)
      requires Valid() && buffer != disk && buffer !in Buffer
      requires off + size <= disk.Length && First(off) <= size <= buffer.Length
      modifies `bufferLock, Buffer, buffer
      ensures bufferLock == old(bufferLock)
      ensures r == if old(FirstFree(bufferLock, 0)) == 8 then 0 else 1
      ensures buffer[..] == if r == 1 then Copied(old(buffer[..]), 0, disk[..], off, size) else old(buffer[..])
    {
      hide Copied, Bit, InUse;
      var number := GetBuffer();
      if number == -1 {
        return 0;
      }
      SetAndClear(old(bufferLock), number);
      ReadThrough(Buffer[number], off, size, buffer);
      RelieveBuffer(number);
      return 1;
    }

    /** Lines 210-265. */
    method WriteThrough(temp: array<byte>, off: nat, size: nat, buffer: array<byte>)
      requires Apart(temp, buffer) && disk.Length % BLOCK == 0
      requires off + size <= disk.Length && First(off) <= size <= buffer.Length
      modifies temp, disk
      ensures disk[..] == Over(old(disk[..]), off, Stored(buffer[..], off, size))
    {
      hide Copied, Over, Stored;
      ExcessFits(off, size);
      OffsetOf(off);
      var start, offset := off / BLOCK, off % BLOCK;
      var first := BLOCK - offset;
      Patch(temp, start, offset, buffer, first);
      var blocks := (size - first) / BLOCK;
      var excess := size - first - BLOCK * blocks;
      WriteWhole(temp, start, first, blocks, buffer, old(disk[..]), off);
      StoredCopied(old(disk[..]), off, size, buffer[..]);
      if excess > 0 {
        Patch(temp, start + 1 + blocks, 0, buffer, excess);
      } else {
        CopiedNone(disk[..], off + size, buffer[..]);
      }
    }

    /** `Write` as it is: all but the last, partial block arrives as meant. */
    method Write(off: nat, size: nat, buffer: array<byte>) returns (r: int)
      requires Valid() && buffer != disk && buffer !in Buffer
      requires off + size <= disk.Length && First(off) <= size <= buffer.Length
      modifies `bufferLock, Buffer, disk
      ensures bufferLock == old(bufferLock)
      ensures r == if old(FirstFree(bufferLock, 0)) == 8 then -1 else 1
      ensures disk[..] == if r == 1 then Over(old(disk[..]), off, Stored(buffer[..], off, size)) else old(disk[..])
    {
      hide Over, Stored, Bit, InUse;
      var number := GetBuffer();
      if number == -1 {
        return -1;
      }
      SetAndClear(old(bufferLock), number);
      WriteThrough(Buffer[number], off, size, buffer);
      RelieveBuffer(number);
      return 1;
    }

    // ---------- blocks ----------

    /** One of the four loops of `ReadBlocks`. */
    method ReadSteps(temp: array<byte>, lba: nat, count: nat, step: nat, begin: nat, buffer: array<byte>,
                     ghost was: seq<byte>) returns (pos: nat)
      requires Apart(temp, buffer) && 1 <= step <= 8 && begin <= count
      requires (lba + count) * BLOCK <= disk.Length && count * BLOCK <= buffer.Length == |was|
      requires buffer[..] == Copied(was, 0, disk[..], lba * BLOCK, begin * BLOCK)
      modifies temp, buffer
      ensures begin <= pos <= count < pos + step
      ensures buffer[..] == Copied(was, 0, disk[..], lba * BLOCK, pos * BLOCK)
    {
      hide Copied;
      pos := begin;
      while count - pos >= step
        invariant begin <= pos <= count && buffer[..] == Copied(was, 0, disk[..], lba * BLOCK, pos * BLOCK)
      {
        ReadChunk(temp, lba + pos, step, buffer, pos * BLOCK, was, lba * BLOCK, pos * BLOCK);
        pos := pos + step;
      }
    }

    method WriteSteps(temp: array<byte>, lba: nat, count: nat, step: nat, begin: nat, buffer: array<byte>,
                      ghost was: seq<byte>) returns (pos: nat)
      requires Apart(temp, buffer) && 1 <= step <= 8 && begin <= count
      requires (lba + count) * BLOCK <= disk.Length == |was| && count * BLOCK <= buffer.Length
      requires disk[..] == Copied(was, lba * BLOCK, buffer[..], 0, begin * BLOCK)
      modifies temp, disk
      ensures begin <= pos <= count < pos + step
      ensures disk[..] == Copied(was, lba * BLOCK, buffer[..], 0, pos * BLOCK)
    {
      hide Copied;
      pos := begin;
      while count - pos >= step
        invariant begin <= pos <= count && disk[..] == Copied(was, lba * BLOCK, buffer[..], 0, pos * BLOCK)
      {
        WriteChunk(temp, lba + pos, step, buffer, pos * BLOCK, was, lba * BLOCK, pos * BLOCK);
        pos := pos + step;
      }
    }

    /** `ReadBlocks`: whole blocks, eight, four, two and one at a time. It keeps its buffer. With no buffer free the code
        goes on with number 255, as a byte is never -1. */
    method ReadBlocks(lba: nat, count: nat, buffer: array<byte>)
      requires Valid() && buffer != disk && buffer !in Buffer && FirstFree(bufferLock, 0) < 8
      requires (lba + count) * BLOCK <= disk.Length && count * BLOCK <= buffer.Length
      modifies `bufferLock, Buffer, buffer
      ensures bufferLock == old(bufferLock | Bit(FirstFree(bufferLock, 0)))
      ensures buffer[..] == Copied(old(buffer[..]), 0, disk[..], lba * 512, count * 512)
    {
      hide Over, Bit, InUse;
      CopiedNothing(buffer[..], disk[..], lba * BLOCK);
      hide Copied;
      var number := GetBuffer();
      var pos := ReadSteps(Buffer[number], lba, count, 8, 0, buffer, old(buffer[..]));
      pos := ReadSteps(Buffer[number], lba, count, 4, pos, buffer, old(buffer[..]));
      pos := ReadSteps(Buffer[number], lba, count, 2, pos, buffer, old(buffer[..]));
      pos := ReadSteps(Buffer[number], lba, count, 1, pos, buffer, old(buffer[..]));
    }

    /** `WriteBlocks`: the same the other way, with nothing but whole blocks and so exact for every data. */
    method WriteBlocks(lba: nat, count: nat, buffer: array<byte>)
      requires Valid() && buffer != disk && buffer !in Buffer && FirstFree(bufferLock, 0) < 8
      requires (lba + count) * BLOCK <= disk.Length && count * BLOCK <= buffer.Length
      modifies `bufferLock, Buffer, disk
      ensures bufferLock == old(bufferLock | Bit(FirstFree(bufferLock, 0)))
      ensures disk[..] == Copied(old(disk[..]), lba * 512, buffer[..], 0, count * 512)
    {
      hide Over, Bit, InUse;
      CopiedNone(disk[..], lba * BLOCK, buffer[..]);
      hide Copied;
      var number := GetBuffer();
      var pos := WriteSteps(Buffer[number], lba, count, 8, 0, buffer, old(disk[..]));
      pos := WriteSteps(Buffer[number], lba, count, 4, pos, buffer, old(disk[..]));
      pos := WriteSteps(Buffer[number], lba, count, 2, pos, buffer, old(disk[..]));
      pos := WriteSteps(Buffer[number], lba, count, 1, pos, buffer, old(disk[..]));
    }
  }
}
