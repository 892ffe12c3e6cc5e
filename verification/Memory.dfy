/** Byte-wise copying (src/memory/memory.cpp). */
module Memory {
  import opened Common

  /** `s` with the elements of `t` written over it from `at` on. */
  function Over<T>(s: seq<T>, at: nat, t: seq<T>): (r: seq<T>)
    requires at + |t| <= |s|
    ensures |r| == |s|
    ensures forall k :: 0 <= k < |s| ==> r[k] == if at <= k < at + |t| then t[k - at] else s[k]
  {
    s[..at] + t + s[at + |t|..]
  }

  /** n elements of a pattern, over and over. */
  function Repeated<T>(pattern: seq<T>, n: nat): (r: seq<T>)
    requires pattern != []
    ensures |r| == n
    ensures forall k :: 0 <= k < n ==> r[k] == pattern[k % |pattern|]
  {
    seq(n, k requires 0 <= k < n => pattern[k % |pattern|])
  }

  /** Copying forward over what was copied repeats it. */
  lemma RepeatedAt<T>(now: seq<T>, was: seq<T>, s: nat, d: nat, n: nat, i: nat)
    requires s < d && i < n && d + n <= |was| == |now|
    requires forall k :: 0 <= k < |now| ==> now[k] == if d <= k < d + i then Repeated(was[s..d], n)[k - d] else was[k]
    ensures now[s + i] == Repeated(was[s..d], n)[i]
  {
    var m, again := d - s, Repeated(was[s..d], n);
    Modulo(i, m);
    assert again[i] == was[s..d][i % m];
    if i < m {
      assert now[s + i] == was[s + i];
    } else {
      assert again[i - m] == was[s..d][(i - m) % m];
      assert now[s + i] == again[s + i - d];
    }
  }

  lemma Modulo(i: nat, m: nat)
    requires m > 0
    ensures if i < m then i % m == i else (i - m) % m == i % m
  {
    if i < m {
      Remainder(i, m, 0, i);
    } else {
      var q, r := (i - m) / m, (i - m) % m;
      Remainder(i, m, q + 1, r);
    }
  }

  /** `memcpy` goes forward: where the destination lies behind the source in one array, it copies what it has written. */
  method Memcpy<T>(dst: array<T>, d: nat, src: array<T>, s: nat, n: nat)
    requires d + n <= dst.Length && s + n <= src.Length
    modifies dst
    ensures dst != src || d <= s ==> dst[..] == Over(old(dst[..]), d, old(src[s..s + n]))
    ensures dst == src && s < d ==> dst[..] == Over(old(dst[..]), d, Repeated(old(src[s..d]), n))
  {
    ghost var was, from, again := dst[..], src[s..s + n], if s < d <= src.Length then Repeated(src[s..d], n) else [];
    for i := 0 to n
      invariant dst == src && s < d ==>
                  forall k :: 0 <= k < dst.Length ==> dst[k] == if d <= k < d + i then again[k - d] else was[k]
      invariant dst != src || d <= s ==>
                  forall k :: 0 <= k < dst.Length ==> dst[k] == if d <= k < d + i then from[k - d] else was[k]
      invariant dst != src || d <= s ==> forall k :: s + i <= k < s + n ==> src[k] == from[k - s]
    {
      if dst == src && s < d {
        RepeatedAt(src[..], was, s, d, n, i);
      }
      dst[d + i] := src[s + i];
    }
  }
}
