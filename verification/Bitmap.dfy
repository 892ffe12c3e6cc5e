/** The frame bitmap of src/Paging/Bitmap.cpp: one bit a frame, most significant bit first. */
module Bitmaps {

  /** The mask the source builds for a bit position. */
  function Mask(bitIndex: nat): bv8
    requires bitIndex < 8
  {
    0x80 >> bitIndex
  }

  /** Bit k of a byte, counted from the most significant end. */
  predicate BitOf(b: bv8, k: nat)
    decreases k
  {
    if k == 0 then b & 0x80 != 0 else BitOf(b << 1, k - 1)
  }

  /** Bit 0 is the most significant one, worth 128, and bit 7 the least. */
  lemma BitFromTop(b: bv8, k: nat)
    requires k < 8
    ensures BitOf(b, k) <==> b & (match k case 0 => 128 case 1 => 64 case 2 => 32 case 3 => 16 case 4 => 8 case 5 => 4
                                          case 6 => 2 case _ => 1) != 0
  {
    MaskSelects(b, k);
  }

  /** The first n bits of a byte sequence. */
  function BitsOf(bytes: seq<bv8>, n: nat): (s: seq<bool>)
    requires n <= 8 * |bytes|
    ensures |s| == n
  {
    if n == 0 then [] else BitsOf(bytes, n - 1) + [BitOf(bytes[(n - 1) / 8], (n - 1) % 8)]
  }

  lemma {:induction false} BitsAt(bytes: seq<bv8>, n: nat, i: nat)
    requires i < n <= 8 * |bytes|
    ensures BitsOf(bytes, n)[i] == BitOf(bytes[i / 8], i % 8)
    decreases n
  {
    if i < n - 1 {
      BitsAt(bytes, n - 1, i);
    }
  }

  lemma {:induction false} MaskSelects(b: bv8, k: nat)
    requires k < 8
    ensures b & Mask(k) != 0 <==> BitOf(b, k)
    decreases k
  {
    if k > 0 {
      MaskSelects(b << 1, k - 1);
      assert b & Mask(k) == ((b << 1) & Mask(k - 1)) >> 1;
      assert (b << 1) & Mask(k - 1) == (b & Mask(k)) << 1;
    }
  }

  lemma MasksAreDisjoint(k: nat, j: nat)
    requires k < 8 && j < 8
    ensures Mask(k) != 0
    ensures j != k ==> Mask(k) & Mask(j) == 0
  {
  }

  /** What the two masked assignments of `Set` make of a byte. */
  function Masked(b: bv8, mask: bv8, value: bool): bv8 {
    if value then (b & !mask) | mask else b & !mask
  }

  lemma MaskedSelects(b: bv8, mask: bv8, value: bool, other: bv8)
    ensures Masked(b, mask, value) & mask == if value then mask else 0
    ensures mask & other == 0 ==> Masked(b, mask, value) & other == b & other
  {
  }

  lemma MaskedBits(b: bv8, k: nat, value: bool, j: nat)
    requires k < 8 && j < 8
    ensures BitOf(Masked(b, Mask(k), value), j) == if j == k then value else BitOf(b, j)
  {
    MaskSelects(b, j);
    MaskSelects(Masked(b, Mask(k), value), j);
    MasksAreDisjoint(k, j);
    MaskedSelects(b, Mask(k), value, Mask(j));
  }

  lemma MaskedKeeps(b: bv8, k: nat, value: bool)
    requires k < 8
    ensures Masked(b, Mask(k), value) == b <==> BitOf(b, k) == value
  {
    MaskSelects(b, k);
    MaskedBits(b, k, value, k);
    MaskedKeepsIf(b, Mask(k), value);
    assert b & Mask(k) == 0 || b & Mask(k) == Mask(k) by {
      assert k == 0 || k == 1 || k == 2 || k == 3 || k == 4 || k == 5 || k == 6 || k == 7;
    }
  }

  lemma MaskedKeepsIf(b: bv8, mask: bv8, value: bool)
    ensures b & mask == (if value then mask else 0) ==> Masked(b, mask, value) == b
  {
  }

  /** One masked byte update is one bit update, and it rewrites the byte only if the bit changes. */
  lemma {:induction false} MaskedUpdate(bytes: seq<bv8>, n: nat, index: nat, value: bool)
    requires index < n <= 8 * |bytes|
    ensures var b := Masked(bytes[index / 8], Mask(index % 8), value);
            && BitsOf(bytes[index / 8 := b], n) == BitsOf(bytes, n)[index := value]
            && (b == bytes[index / 8] <==> BitsOf(bytes, n)[index] == value)
  {
    var b := Masked(bytes[index / 8], Mask(index % 8), value);
    var updated := BitsOf(bytes[index / 8 := b], n);
    forall i | 0 <= i < |updated|
      ensures updated[i] == BitsOf(bytes, n)[index := value][i]
    {
      BitsAt(bytes, n, i);
      BitsAt(bytes[index / 8 := b], n, i);
      if i / 8 == index / 8 {
        MaskedBits(bytes[index / 8], index % 8, value, i % 8);
      }
    }
    BitsAt(bytes, n, index);
    MaskedKeeps(bytes[index / 8], index % 8, value);
  }

  /** `Buffer` is the memory from the bitmap's first byte on. The bitmap owns the first `Size` bytes, but the bound
      tests let index 8 * Size through, so one byte more must exist. */
  class Bitmap {
    var Size: nat
    var Buffer: array<bv8>

    predicate Valid()
      reads this
    {
      Size < Buffer.Length
    }

    /** The bits `Get` and `Set` reach. */
    ghost function Reach(): (s: seq<bool>)
      requires Valid()
      reads this, Buffer
      ensures |s| == 8 * Size + 1
    {
      BitsOf(Buffer[..], 8 * Size + 1)
    }

    constructor (size: nat, buffer: array<bv8>)
      requires size < buffer.Length
      ensures Valid() && Size == size && Buffer == buffer
    {
      Size, Buffer := size, buffer;
    }

    function Get(index: nat): (r: bool)
      requires Valid()
      reads this, Buffer
      ensures r <==> index < |Reach()| && Reach()[index]
    {
      if index > Size * 8 then
        false
      else
        BitsAt(Buffer[..], 8 * Size + 1, index);
        MaskSelects(Buffer[index / 8], index % 8);
        (Buffer[index / 8] & Mask(index % 8)) > 0
    }

    /** The two masked assignments to one byte (lines 49-55). */
    method SetMasked(byteIndex: nat, bitIndexer: bv8, value: bool)
      requires byteIndex < Buffer.Length
      modifies Buffer
      ensures Buffer[..] == old(Buffer[..])[byteIndex := Masked(old(Buffer[byteIndex]), bitIndexer, value)]
    {
      Buffer[byteIndex] := Buffer[byteIndex] & !bitIndexer;
      if value {
        Buffer[byteIndex] := Buffer[byteIndex] | bitIndexer;
      }
    }

    method Set(index: nat, value: bool) returns (ok: bool)
      requires Valid()
      modifies Buffer
      ensures ok <==> index < |old(Reach())|
      ensures Reach() == if ok then old(Reach())[index := value] else old(Reach())
      // The byte after the bitmap is written exactly when the index is one past the end; the rest of memory never
      ensures Buffer[Size] != old(Buffer[Size]) <==> index == 8 * Size && old(Reach())[index] != value
      ensures Buffer[Size + 1..] == old(Buffer[Size + 1..])
    {
      if index > Size * 8 {
        return false;
      }
      ghost var bytes := Buffer[..];
      SetMasked(index / 8, Mask(index % 8), value);
      MaskedUpdate(bytes, 8 * Size + 1, index, value);
      assert Buffer[Size] == Buffer[..][Size] && bytes[Size] == old(Buffer[Size]);
      return true;
    }
  }
}
