/** Bytes, and natural numbers written big-endian in a fixed number of bytes. */
module Bytes {

  type Byte = n: nat | n < 256

  datatype Option<+T> = None | Some(value: T)

  datatype Result<+T, +E> = Success(value: T) | Failure(error: E)

  function Pow256(k: nat): (p: nat)
    ensures p >= 1
  {
    if k == 0 then 1 else 256 * Pow256(k - 1)
  }

  /** The number that a byte string spells, most significant byte first. */
  function FromBE(s: seq<Byte>): nat {
    if s == [] then 0 else FromBE(s[..|s| - 1]) * 256 + s[|s| - 1]
  }

  /** The last k bytes of n, most significant byte first. */
  function ToBE(n: nat, k: nat): (s: seq<Byte>)
    ensures |s| == k
  {
    if k == 0 then [] else ToBE(n / 256, k - 1) + [n % 256]
  }

  lemma ToBELast(n: nat, k: nat)
    requires k > 0
    ensures ToBE(n, k) == ToBE(n / 256, k - 1) + [n % 256]
  {
  }

  lemma {:induction false} FromToBE(n: nat, k: nat)
    requires n < Pow256(k)
    ensures FromBE(ToBE(n, k)) == n
  {
    if k > 0 {
      FromToBE(n / 256, k - 1);
      assert ToBE(n, k)[..k - 1] == ToBE(n / 256, k - 1);
    }
  }

  lemma {:induction false} ToFromBE(s: seq<Byte>)
    ensures FromBE(s) < Pow256(|s|)
    ensures ToBE(FromBE(s), |s|) == s
  {
    if s != [] {
      ToFromBE(s[..|s| - 1]);
    }
  }

  /** n fits in k bytes: cutting it down to k bytes loses nothing. */
  predicate Fits(n: nat, k: nat) {
    FromBE(ToBE(n, k)) == n
  }

  /** Fitting in k bytes is being below 256^k, the range check of an unsigned integer of that width. */
  lemma FitsIffBelow(n: nat, k: nat)
    ensures Fits(n, k) <==> n < Pow256(k)
  {
    if n < Pow256(k) {
      FromToBE(n, k);
    }
    ToFromBE(ToBE(n, k));
  }

  lemma {:induction false} BytesFit(s: seq<Byte>, k: nat)
    requires |s| == k
    ensures Fits(FromBE(s), k) && ToBE(FromBE(s), k) == s
  {
    ToFromBE(s);
  }

  lemma {:induction false} FromBEPrepend(x: Byte, s: seq<Byte>)
    ensures FromBE([x] + s) == x * Pow256(|s|) + FromBE(s)
  {
    if s == [] {
      assert [x] + s == [x];
      assert FromBE([x]) == FromBE([]) * 256 + x;
    } else {
      var t := s[..|s| - 1];
      FromBEPrepend(x, t);
      assert ([x] + s)[..|s|] == [x] + t;
      assert FromBE([x] + s) == FromBE([x] + t) * 256 + s[|s| - 1];
      assert Pow256(|s|) == 256 * Pow256(|t|);
      assert (x * Pow256(|t|)) * 256 == x * Pow256(|s|);
    }
  }

  lemma Pow256Next(k: nat)
    ensures Pow256(k + 1) == 256 * Pow256(k)
  {
  }

  lemma {:induction false} Pow256Monotone(a: nat, b: nat)
    requires a <= b
    ensures Pow256(a) <= Pow256(b)
  {
    if a < b {
      Pow256Monotone(a, b - 1);
    }
  }

  /** The ranges of eight and of 32 bytes. */
  lemma WordRanges()
    ensures Pow256(8) == 0x1_0000_0000_0000_0000
    ensures Pow256(32) == 0x1_0000_0000_0000_0000_0000_0000_0000_0000_0000_0000_0000_0000_0000_0000_0000_0000
  {
    assert Pow256(4) == 0x1_0000_0000;
    assert Pow256(8) == 0x1_0000_0000_0000_0000;
    assert Pow256(16) == 0x1_0000_0000_0000_0000_0000_0000_0000_0000;
    assert Pow256(24) == 0x1_0000_0000_0000_0000_0000_0000_0000_0000_0000_0000_0000_0000;
  }
}
