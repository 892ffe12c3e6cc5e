/** Numbers as machine words, bit by bit, so that masks and shifts on words can be related to frame numbers. */
module Words {
  import opened Common

  const ADDRESS_BITS := 40
  const ADDRESS_MASK: bv64 := 0x0000_00ff_ffff_ffff

  function Pow2(k: nat): nat {
    if k == 0 then 1 else 2 * Pow2(k - 1)
  }

  function Masked(value: bv64, mask: bv64): bv64 {
    value & mask
  }

  function Append(x: bv64, bit: bv64): bv64 {
    (x << 1) | bit
  }

  function Half(x: bv64): bv64 {
    x >> 1
  }

  function Digit(n: nat): (d: bv64)
    ensures d & 1 == d
    ensures d == 1 <==> n % 2 == 1
  {
    if n % 2 == 1 then 1 else 0
  }

  /** The word with the k low binary digits of n. */
  function ToWord(n: nat, k: nat): bv64 {
    if k == 0 then 0 else Append(ToWord(n / 2, k - 1), Digit(n))
  }

  /** The number written in the k low bits of a word. */
  function FromWord(w: bv64, k: nat): nat
    decreases k
  {
    if k == 0 then 0 else 2 * FromWord(Half(w), k - 1) + if w & 1 == 1 then 1 else 0
  }

  function Ones(k: nat): bv64 {
    if k == 0 then 0 else Append(Ones(k - 1), 1)
  }

  lemma ShiftedFits(x: bv64, m: bv64, bit: bv64)
    requires x & m == x && bit & 1 == bit
    ensures Append(x, bit) & Append(m, 1) == Append(x, bit)
  {
  }

  lemma OnesMore(k: nat, m: bv64)
    requires Ones(k) == m
    ensures Ones(k + 4) == Append(Append(Append(Append(m, 1), 1), 1), 1)
  {
    assert Ones(k + 2) == Append(Append(m, 1), 1);
  }

  lemma OnesAddress()
    ensures Ones(ADDRESS_BITS) == ADDRESS_MASK
  {
    OnesMore(0, 0);
    OnesMore(4, 0xf);
    OnesMore(8, 0xff);
    OnesMore(12, 0xfff);
    OnesMore(16, 0xffff);
    OnesMore(20, 0xf_ffff);
    OnesMore(24, 0xff_ffff);
    OnesMore(28, 0xfff_ffff);
    OnesMore(32, 0xffff_ffff);
    OnesMore(36, 0xf_ffff_ffff);
  }

  lemma {:induction false} FitsInOnes(n: nat, k: nat, m: nat)
    requires k <= m
    ensures ToWord(n, k) & Ones(m) == ToWord(n, k)
  {
    if k > 0 {
      var x, y, bit := ToWord(n / 2, k - 1), Ones(m - 1), Digit(n);
      assert Append(x, bit) & Append(y, 1) == Append(x, bit) by {
        FitsInOnes(n / 2, k - 1, m - 1);
        ShiftedFits(x, y, bit);
      }
    }
  }

  lemma ToWordFits(n: nat, k: nat)
    requires k <= ADDRESS_BITS
    ensures ToWord(n, k) & ADDRESS_MASK == ToWord(n, k)
  {
    OnesAddress();
    FitsInOnes(n, k, ADDRESS_BITS);
  }

  lemma ShiftBack(x: bv64, bit: bv64)
    requires x & ADDRESS_MASK == x && bit & 1 == bit
    ensures Half(Append(x, bit)) == x
    ensures Append(x, bit) & 1 == bit
  {
  }

  lemma FromAppend(x: bv64, bit: bv64, k: nat)
    requires x & ADDRESS_MASK == x && bit & 1 == bit
    ensures FromWord(Append(x, bit), k + 1) == 2 * FromWord(x, k) + if bit == 1 then 1 else 0
  {
    ShiftBack(x, bit);
  }

  lemma FromToWord(n: nat, k: nat)
    requires k < ADDRESS_BITS
    ensures FromWord(ToWord(n, k + 1), k + 1) == 2 * FromWord(ToWord(n / 2, k), k) + n % 2
  {
    var x := ToWord(n / 2, k);
    assert x & ADDRESS_MASK == x by {
      ToWordFits(n / 2, k);
    }
    FromAppend(x, Digit(n), k);
  }

  /** Writing a number into k bits and reading it back leaves its remainder. */
  lemma {:induction false} RoundTrip(n: nat, k: nat)
    requires k <= ADDRESS_BITS
    ensures Pow2(k) > 0 && FromWord(ToWord(n, k), k) == n % Pow2(k)
    decreases k
  {
    if k > 0 {
      RoundTrip(n / 2, k - 1);
      FromToWord(n, k - 1);
      HalfModulo(n, Pow2(k - 1));
    }
  }

  /** Reading a number from k bits and writing it back leaves these bits. */
  lemma {:induction false} WordTrip(w: bv64, k: nat)
    ensures ToWord(FromWord(w, k), k) == Masked(w, Ones(k))
    decreases k
  {
    WordParts(w, k);
    hide Masked, Append, Half, Digit, ToWord, FromWord, Ones;
    if k > 0 {
      WordTrip(Half(w), k - 1);
      HalfOnes(w, Ones(k - 1));
    } else {
      NoOnes(w);
    }
  }

  lemma WordParts(w: bv64, k: nat)
    ensures k == 0 ==> ToWord(FromWord(w, k), k) == 0 && Ones(k) == 0
    ensures k > 0 ==> ToWord(FromWord(w, k), k) == Append(ToWord(FromWord(Half(w), k - 1), k - 1), Last(w))
    ensures k > 0 ==> Ones(k) == Append(Ones(k - 1), 1)
  {
    hide Append, Half;
  }

  function Last(w: bv64): bv64 {
    if w & 1 == 1 then 1 else 0
  }

  lemma HalfOnes(w: bv64, m: bv64)
    ensures Append(Masked(Half(w), m), Last(w)) == Masked(w, Append(m, 1))
  {
  }

  lemma NoOnes(w: bv64)
    ensures Masked(w, 0) == 0
  {
  }

  lemma HalfModulo(n: nat, m: nat)
    requires m > 0
    ensures n % (2 * m) == 2 * (n / 2 % m) + n % 2
  {
    var q, r := n / 2 / m, n / 2 % m;
    assert n / 2 == m * q + r;
    assert n == 2 * m * q + (2 * r + n % 2);
    Remainder(n, 2 * m, q, 2 * r + n % 2);
  }
}
