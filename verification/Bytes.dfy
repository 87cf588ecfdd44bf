/** Machine words as bit patterns, most significant bit first, and the little-endian
    integer fields that headers are made of. */
module Bytes {

  type byte = s: seq<bool> | |s| == 8 witness seq(8, _ => false)
  type word = s: seq<bool> | |s| == 16 witness seq(16, _ => false)

  function Zeros(n: nat): (s: seq<bool>)
    ensures |s| == n && forall i :: 0 <= i < n ==> !s[i]
  {
    seq(n, _ => false)
  }

  function Ones(n: nat): (s: seq<bool>)
    ensures |s| == n && forall i :: 0 <= i < n ==> s[i]
  {
    seq(n, _ => true)
  }

  function Xor(x: seq<bool>, y: seq<bool>): (z: seq<bool>)
    requires |x| == |y|
    ensures |z| == |x| && forall i :: 0 <= i < |z| ==> z[i] == (x[i] != y[i])
  {
    seq(|x|, i requires 0 <= i < |x| => x[i] != y[i])
  }

  /** The low `k` bits of `n`: what a store into a `k`-bit field keeps. */
  function ToBits(n: nat, k: nat): (s: seq<bool>)
    ensures |s| == k
    decreases k
  {
    if k == 0 then [] else ToBits(n / 2, k - 1) + [n % 2 == 1]
  }

  function FromBits(s: seq<bool>): nat {
    if s == [] then 0 else 2 * FromBits(s[..|s| - 1]) + if s[|s| - 1] then 1 else 0
  }

  function Pow(base: nat, k: nat): nat {
    if k == 0 then 1 else base * Pow(base, k - 1)
  }

  lemma {:induction false} BitsRoundTrip(n: nat, k: nat)
    requires n < Pow(2, k)
    ensures FromBits(ToBits(n, k)) == n
    decreases k
  {
    if k > 0 {
      var s := ToBits(n, k);
      assert s[..k - 1] == ToBits(n / 2, k - 1);
      BitsRoundTrip(n / 2, k - 1);
    }
  }

  /** Field widths: an octet in bits, the integer fields in octets. */
  const OCTET := 8
  const U16 := 2
  const U32 := 4

  /** An integer field of `size` octets as it lies in memory: low octet first. */
  function ToLe(n: nat, size: nat): (s: seq<byte>)
    ensures |s| == size
    decreases size
  {
    if size == 0 then [] else [ToBits(n % 256, OCTET)] + ToLe(n / 256, size - 1)
  }

  function FromLe(s: seq<byte>): nat {
    if s == [] then 0 else FromBits(s[0]) + 256 * FromLe(s[1..])
  }

  lemma {:induction false} LeRoundTrip(n: nat, size: nat)
    requires n < Pow(256, size)
    ensures FromLe(ToLe(n, size)) == n
    decreases size
  {
    if size > 0 {
      assert Pow(2, 8) == 256;
      BitsRoundTrip(n % 256, OCTET);
      LeRoundTrip(n / 256, size - 1);
    }
  }

  lemma {:induction false} FromBitsBound(s: seq<bool>)
    ensures FromBits(s) < Pow(2, |s|)
    decreases |s|
  {
    if s != [] {
      FromBitsBound(s[..|s| - 1]);
    }
  }

  /** Different patterns of one width are different numbers. */
  lemma {:induction false} FromBitsInjective(x: seq<bool>, y: seq<bool>)
    requires |x| == |y| && FromBits(x) == FromBits(y)
    ensures x == y
    decreases |x|
  {
    if x != [] {
      var n := |x| - 1;
      FromBitsInjective(x[..n], y[..n]);
      assert x == x[..n] + [x[n]] && y == y[..n] + [y[n]];
    }
  }

  /** The high part weighs as many times more as the low part has values. */
  lemma {:induction false} FromBitsConcat(high: seq<bool>, low: seq<bool>)
    ensures FromBits(high + low) == Pow(2, |low|) * FromBits(high) + FromBits(low)
    decreases |low|
  {
    if low == [] {
      assert high + low == high;
    } else {
      var n := |low| - 1;
      assert (high + low)[..|high| + n] == high + low[..n];
      FromBitsConcat(high, low[..n]);
      TwiceAsMuch(Pow(2, n), FromBits(high));
    }
  }

  lemma TwiceAsMuch(k: nat, v: nat)
    ensures (2 * k) * v == 2 * (k * v)
  {
  }

  lemma FromLeTwo(s: seq<byte>)
    requires |s| == 2
    ensures FromLe(s) == FromBits(s[0]) + 256 * FromBits(s[1])
  {
    assert FromLe(s[1..]) == FromBits(s[1]) + 256 * FromLe([]);
  }

  lemma FromLeFour(s: seq<byte>)
    requires |s| == 4
    ensures FromLe(s)
         == FromBits(s[0]) + 0x100 * FromBits(s[1]) + 0x1_0000 * FromBits(s[2]) + 0x100_0000 * FromBits(s[3])
  {
    FromLeTwo(s[2..]);
    assert FromLe(s[1..]) == FromBits(s[1]) + 256 * FromLe(s[2..]);
  }

  lemma OctetBound(b: byte)
    ensures FromBits(b) < 256
  {
    FromBitsBound(b);
    assert Pow(2, 8) == 256;
  }
}
