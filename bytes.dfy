/** Bytes and the 8-bit wrapping checksum the lens computes over them. */
module Bytes {

  /** An unsigned 8-bit value (the `uint8` of the lens firmware). */
  type Byte = x: int | 0 <= x < 256

  /** The unbounded integer sum of a byte sequence, added front to back. */
  function Sum(s: seq<Byte>): int
  {
    if s == [] then 0 else s[0] + Sum(s[1..])
  }

  /** The checksum as the firmware accumulates it: a `uint8` that starts at
      zero and has each byte added in order, wrapping modulo 256. */
  function Sum8(s: seq<Byte>): Byte
  {
    if s == [] then 0 else (Sum8(s[..|s| - 1]) + s[|s| - 1]) % 256
  }

  lemma {:induction false} SumSnoc(s: seq<Byte>, x: Byte)
    ensures Sum(s + [x]) == Sum(s) + x
  {
    if s == [] {
      assert s + [x] == [x];
    } else {
      assert (s + [x])[1..] == s[1..] + [x];
      SumSnoc(s[1..], x);
    }
  }

  /** The sum of every prefix is the sum of the prefix one shorter plus
      its last byte. */
  lemma PrefixSums(s: seq<Byte>)
    ensures Sum(s[..0]) == 0
    ensures forall k :: 1 <= k <= |s| ==> Sum(s[..k]) == Sum(s[..k - 1]) + s[k - 1]
  {
    forall k | 1 <= k <= |s|
      ensures Sum(s[..k]) == Sum(s[..k - 1]) + s[k - 1]
    {
      assert s[..k] == s[..k - 1] + [s[k - 1]];
      SumSnoc(s[..k - 1], s[k - 1]);
    }
  }

  /** The wrapping accumulator equals the true sum reduced modulo 256. */
  lemma {:induction false} Sum8IsSumMod256(s: seq<Byte>)
    ensures Sum8(s) == Sum(s) % 256
  {
    if s != [] {
      var init, last := s[..|s| - 1], s[|s| - 1];
      assert s == init + [last];
      Sum8IsSumMod256(init);
      SumSnoc(init, last);
      ModAddLeft(Sum(init), last);
    }
  }

  lemma ModAddLeft(a: int, b: int)
    ensures (a % 256 + b) % 256 == (a + b) % 256
  {
    var q := a / 256;
    assert a == 256 * q + a % 256;
    assert a + b == (a % 256 + b) + 256 * q;
  }

  /** Adding one more byte to the wrapping checksum. */
  lemma Sum8Snoc(s: seq<Byte>, x: Byte)
    ensures Sum8(s + [x]) == (Sum8(s) + x) % 256
  {
    assert (s + [x])[..|s|] == s;
  }

  // Regrouping concatenations, kept out of larger proofs where the
  // solver would otherwise rediscover associativity at great cost.

  lemma SplitAt<T>(s: seq<T>, k: nat)
    requires k <= |s|
    ensures s[..k] + s[k..] == s
  {
  }

  lemma EmptyPrefix<T>(x: seq<T>)
    ensures [] + x == x
  {
  }

  lemma Regroup8<T>(a: seq<T>, p1: seq<T>, p2: seq<T>, p3: seq<T>, p4: seq<T>,
                    p5: seq<T>, p6: seq<T>, p7: seq<T>, p8: seq<T>)
    ensures a + p1 + p2 + p3 + p4 + p5 + p6 + p7 + p8
         == a + (p1 + p2 + p3 + p4 + p5 + p6 + p7 + p8)
  {
  }

  lemma Regroup6<T>(a: seq<T>, p1: seq<T>, p2: seq<T>, p3: seq<T>, p4: seq<T>,
                    p5: seq<T>, p6: seq<T>)
    ensures a + p1 + p2 + p3 + p4 + p5 + p6 == a + (p1 + p2 + p3 + p4 + p5 + p6)
  {
  }

  lemma Regroup2<T>(a: seq<T>, p1: seq<T>, p2: seq<T>)
    ensures a + p1 + p2 == a + (p1 + p2)
  {
  }

  lemma Regroup3<T>(a: seq<T>, p1: seq<T>, p2: seq<T>, p3: seq<T>)
    ensures a + p1 + p2 + p3 == a + (p1 + p2 + p3)
  {
  }
}
