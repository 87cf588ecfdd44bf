/** CRC-16 with generator x^16 + x^12 + x^5 + 1, preset to all ones, most significant
    bit first, no final complement (src/alg/algorithm.c).

    The specification is a bit-serial register over GF(2), the highest power first. The
    bytewise loop computes it; it is the remainder of a polynomial long division
    (`PolyMod`); and it tells apart any two messages that differ inside one run of at
    most 16 bits. */
module Crc16 {
  import opened Bytes
  import opened Seqs

  /** The generator without its leading term: 0x1021. */
  const GENERATOR: word :=
    [false, false, false, true, false, false, false, false,
     false, false, true, false, false, false, false, true]

  /** Multiply by x modulo the generator. */
  function Shift(c: word): word {
    var s := c[1..] + [false];
    if c[0] then Xor(s, GENERATOR) else s
  }

  function ShiftN(c: word, n: nat): word
    decreases n
  {
    if n == 0 then c else ShiftN(Shift(c), n - 1)
  }

  function FeedBit(c: word, b: bool): word {
    Shift([c[0] != b] + c[1..])
  }

  function Feed(c: word, bits: seq<bool>): word
    decreases |bits|
  {
    if bits == [] then c else Feed(FeedBit(c, bits[0]), bits[1..])
  }

  function BitsOf(bytes: seq<byte>): (s: seq<bool>)
    ensures |s| == 8 * |bytes|
  {
    if bytes == [] then [] else bytes[0] + BitsOf(bytes[1..])
  }

  /** The CRC of a message, as a register. */
  function Crc(bytes: seq<byte>): word {
    Feed(Ones(16), BitsOf(bytes))
  }

  // ------------------------------------------------------------------ the loop

  method Crc16Ccitt(buffer: seq<byte>) returns (crc: word)
    ensures crc == Crc(buffer)
  {
    crc := Ones(16);
    var itr := 0;
    while itr < |buffer|
      invariant 0 <= itr <= |buffer|
      invariant crc == Crc(buffer[..itr])
    {
      ghost var before := crc;
      crc := Xor(crc, buffer[itr] + Zeros(8));
      ghost var loaded := crc;
      var index := 0;
      while index < 8
        invariant 0 <= index <= 8
        invariant ShiftN(crc, 8 - index) == ShiftN(loaded, 8)
      {
        var shifted := crc[1..] + [false];
        if crc[0] {
          crc := Xor(shifted, GENERATOR);
        } else {
          crc := shifted;
        }
        index := index + 1;
      }
      FeedAtOnce(before, buffer[itr]);
      CrcSnoc(buffer, itr);
      itr := itr + 1;
    }
    assert buffer[..itr] == buffer;
  }

  lemma CrcSnoc(buffer: seq<byte>, i: nat)
    requires i < |buffer|
    ensures Crc(buffer[..i + 1]) == Feed(Crc(buffer[..i]), buffer[i])
  {
    assert buffer[..i + 1] == buffer[..i] + [buffer[i]];
    BitsOfConcat(buffer[..i], [buffer[i]]);
    assert BitsOf([buffer[i]]) == buffer[i] + BitsOf([]);
    assert BitsOf([buffer[i]]) == buffer[i];
    FeedConcat(Ones(16), BitsOf(buffer[..i]), buffer[i]);
  }

  lemma {:induction false} FeedConcat(c: word, x: seq<bool>, y: seq<bool>)
    ensures Feed(c, x + y) == Feed(Feed(c, x), y)
    decreases |x|
  {
    if x == [] {
      assert x + y == y;
    } else {
      assert (x + y)[1..] == x[1..] + y;
      FeedConcat(FeedBit(c, x[0]), x[1..], y);
    }
  }

  lemma {:induction false} BitsOfConcat(x: seq<byte>, y: seq<byte>)
    ensures BitsOf(x + y) == BitsOf(x) + BitsOf(y)
    decreases |x|
  {
    if x == [] {
      assert x + y == y;
    } else {
      assert (x + y)[1..] == x[1..] + y;
      BitsOfConcat(x[1..], y);
    }
  }

  // ------------------------------------------------------------------ linearity

  lemma ShiftLinear(a: word, b: word)
    ensures Shift(Xor(a, b)) == Xor(Shift(a), Shift(b))
  {
  }

  /** Superposition: the difference of two runs is the run of the difference. */
  lemma {:induction false} FeedLinear(a: word, b: word, x: seq<bool>, y: seq<bool>)
    requires |x| == |y|
    ensures Feed(Xor(a, b), Xor(x, y)) == Xor(Feed(a, x), Feed(b, y))
    decreases |x|
  {
    if x != [] {
      var a', b' := [a[0] != x[0]] + a[1..], [b[0] != y[0]] + b[1..];
      ShiftLinear(a', b');
      assert Xor(a', b') == [Xor(a, b)[0] != Xor(x, y)[0]] + Xor(a, b)[1..];
      assert Xor(x, y)[1..] == Xor(x[1..], y[1..]);
      FeedLinear(FeedBit(a, x[0]), FeedBit(b, y[0]), x[1..], y[1..]);
    }
  }

  /** Up to 16 message bits may be added to the register first and shifted afterwards:
      why the program can load a whole octet before its eight shifts. */
  lemma {:induction false} FeedAtOnce(c: word, bits: seq<bool>)
    requires |bits| <= 16
    ensures Feed(c, bits) == ShiftN(Xor(c, bits + Zeros(16 - |bits|)), |bits|)
    decreases |bits|
  {
    if bits == [] {
      assert Xor(c, bits + Zeros(16)) == c;
    } else {
      var rest := bits[1..];
      var pad := Zeros(16 - |bits|);
      var loaded := Xor(c, bits + pad);
      var head: word := [c[0] != bits[0]] + c[1..];
      var tail: word := [false] + rest + pad;
      assert loaded == Xor(head, tail);
      ShiftLinear(head, tail);
      assert rest + pad + [false] == rest + Zeros(16 - |rest|);
      assert Shift(tail) == rest + Zeros(16 - |rest|);
      FeedAtOnce(FeedBit(c, bits[0]), rest);
    }
  }

  // ------------------------------------------------------------------ burst errors

  lemma ShiftKernel(a: word)
    requires Shift(a) == Zeros(16)
    ensures a == Zeros(16)
  {
    var s := a[1..] + [false];
    assert !Shift(a)[15];
    assert s[15] == false && GENERATOR[15];
    assert !a[0];
    forall i | 0 < i < 16
      ensures !a[i]
    {
      assert !Shift(a)[i - 1];
      assert a[i] == s[i - 1];
    }
  }

  lemma {:induction false} ShiftNKernel(a: word, n: nat)
    requires ShiftN(a, n) == Zeros(16)
    ensures a == Zeros(16)
    decreases n
  {
    if n > 0 {
      ShiftNKernel(Shift(a), n - 1);
      ShiftKernel(a);
    }
  }

  lemma {:induction false} FeedZeros(c: word, n: nat)
    ensures Feed(c, Zeros(n)) == ShiftN(c, n)
    decreases n
  {
    if n > 0 {
      assert Zeros(n)[1..] == Zeros(n - 1);
      assert [c[0] != false] + c[1..] == c;
      FeedZeros(Shift(c), n - 1);
    }
  }

  lemma {:induction false} ShiftNZeros(n: nat)
    ensures ShiftN(Zeros(16), n) == Zeros(16)
  {
    if n > 0 {
      assert Shift(Zeros(16)) == Zeros(16);
      ShiftNZeros(n - 1);
    }
  }

  lemma LoadedNonZero(burst: seq<bool>)
    requires |burst| <= 16 && true in burst
    ensures Feed(Zeros(16), burst) != Zeros(16)
  {
    FeedAtOnce(Zeros(16), burst);
    var loaded := Xor(Zeros(16), burst + Zeros(16 - |burst|));
    var i :| 0 <= i < |burst| && burst[i];
    assert loaded[i];
    if ShiftN(loaded, |burst|) == Zeros(16) {
      ShiftNKernel(loaded, |burst|);
    }
  }

  /** An error pattern of at most 16 bits leaves a trace, wherever it lies. */
  lemma BurstLeavesTrace(before: nat, burst: seq<bool>, after: nat)
    requires |burst| <= 16 && true in burst
    ensures Feed(Zeros(16), Zeros(before) + burst + Zeros(after)) != Zeros(16)
  {
    FeedPadded(Zeros(16), before, burst, after);
    ShiftNZeros(before);
    LoadedNonZero(burst);
    if ShiftN(Feed(Zeros(16), burst), after) == Zeros(16) {
      ShiftNKernel(Feed(Zeros(16), burst), after);
    }
  }

  lemma FeedPadded(c: word, before: nat, middle: seq<bool>, after: nat)
    ensures Feed(c, Zeros(before) + middle + Zeros(after)) == ShiftN(Feed(ShiftN(c, before), middle), after)
  {
    FeedConcat(c, Zeros(before) + middle, Zeros(after));
    FeedConcat(c, Zeros(before), middle);
    FeedZeros(c, before);
    FeedZeros(Feed(ShiftN(c, before), middle), after);
  }

  /** Sixteen is exact: one error pattern of 17 bits, the generator itself, is never seen. */
  lemma GeneratorEscapes(before: nat, after: nat)
    ensures Feed(Zeros(16), Zeros(before) + ([true] + GENERATOR) + Zeros(after)) == Zeros(16)
  {
    FeedPadded(Zeros(16), before, [true] + GENERATOR, after);
    ShiftNZeros(before);
    FeedGenerator();
    ShiftNZeros(after);
  }

  lemma FeedGenerator()
    ensures Feed(Zeros(16), [true] + GENERATOR) == Zeros(16)
  {
    assert FeedBit(Zeros(16), true) == GENERATOR;
    FeedSelf(GENERATOR);
    assert ([true] + GENERATOR)[1..] == GENERATOR;
  }

  lemma FeedSelf(c: word)
    ensures Feed(c, c) == Zeros(16)
  {
    FeedAtOnce(c, c);
    assert Xor(c, c + Zeros(0)) == Zeros(16);
    ShiftNZeros(|c|);
  }

  /** Patterns that are never seen can be added up. */
  lemma UnseenSum(x: seq<bool>, y: seq<bool>)
    requires |x| == |y| && Feed(Zeros(16), x) == Zeros(16) && Feed(Zeros(16), y) == Zeros(16)
    ensures Feed(Zeros(16), Xor(x, y)) == Zeros(16)
  {
    FeedLinear(Zeros(16), Zeros(16), x, y);
    XorSelf(Zeros(16));
  }

  /** A message followed by its remainder is never seen, and nothing else that follows is. */
  lemma UnseenMeansRemainder(m: seq<bool>, r: word)
    ensures Feed(Zeros(16), m + r) == Zeros(16) <==> Feed(Zeros(16), m) == r
  {
    var c := Feed(Zeros(16), m);
    FeedConcat(Zeros(16), m, r);
    FeedSelf(r);
    if Feed(c, r) == Zeros(16) {
      FeedAtOnce(c, r);
      assert r + Zeros(0) == r;
      ShiftNKernel(Xor(c, r), 16);
      forall i | 0 <= i < 16
        ensures c[i] == r[i]
      {
        assert !Xor(c, r)[i];
      }
      assert c == r;
    }
  }

  lemma XorSelf(c: word)
    ensures Xor(c, c) == Zeros(16)
  {
  }

  /** The two messages agree on every bit outside the 16 bits that start at bit `p`. */
  ghost predicate DifferInBurst(x: seq<byte>, y: seq<byte>, p: nat) {
    |x| == |y| && x != y
    && forall i :: 0 <= i < 8 * |x| && !(p <= i < p + 16) ==> BitsOf(x)[i] == BitsOf(y)[i]
  }

  lemma CutBurst(e: seq<bool>, p: nat, hi: nat)
    requires p <= hi <= |e| && true in e
    requires forall i :: 0 <= i < |e| && !(p <= i < hi) ==> !e[i]
    ensures true in e[p..hi]
    ensures e == Zeros(p) + e[p..hi] + Zeros(|e| - hi)
  {
    var i :| 0 <= i < |e| && e[i];
    assert e[p..hi][i - p];
  }

  lemma ErrorIsBurst(e: seq<bool>, p: nat)
    requires true in e
    requires forall i :: 0 <= i < |e| && !(p <= i < p + 16) ==> !e[i]
    ensures Feed(Zeros(16), e) != Zeros(16)
  {
    var i :| 0 <= i < |e| && e[i];
    var hi := Min(p + 16, |e|);
    CutBurst(e, p, hi);
    BurstLeavesTrace(p, e[p..hi], |e| - hi);
  }

  /** Every burst of at most 16 bits is detected, whatever the message length. */
  lemma BurstDetected(x: seq<byte>, y: seq<byte>, p: nat)
    requires DifferInBurst(x, y, p)
    ensures Crc(x) != Crc(y)
  {
    var p1, p2 := BitsOf(x), BitsOf(y);
    if p1 == p2 {
      BitsInjective(x, y);
    }
    var e := Xor(p1, p2);
    var i :| 0 <= i < |e| && p1[i] != p2[i];
    assert e[i];
    ErrorIsBurst(e, p);
    FeedLinear(Ones(16), Ones(16), p1, p2);
    XorSelf(Ones(16));
    if Crc(x) == Crc(y) {
      XorSelf(Crc(x));
    }
  }

  lemma {:induction false} BitsInjective(x: seq<byte>, y: seq<byte>)
    requires BitsOf(x) == BitsOf(y)
    ensures x == y
    decreases |x|
  {
    assert |BitsOf(x)| == 8 * |x| && |BitsOf(y)| == 8 * |y|;
    if x != [] {
      assert x[0] == BitsOf(x)[..8] == BitsOf(y)[..8] == y[0];
      assert BitsOf(x[1..]) == BitsOf(x)[8..] == BitsOf(y)[8..] == BitsOf(y[1..]);
      BitsInjective(x[1..], y[1..]);
    }
  }

  // ------------------------------------------------------------------ polynomial division

  /** Long division by the generator, leading coefficient first: subtract the divisor
      under a leading one, drop the leading place, stop when 16 places remain. */
  function PolyMod(dividend: seq<bool>): (r: word)
    requires |dividend| >= 16
    decreases |dividend|
  {
    if |dividend| == 16 then dividend
    else if dividend[0] then PolyMod(Xor(dividend[1..17], GENERATOR) + dividend[17..])
    else PolyMod(dividend[1..])
  }

  lemma {:induction false} FeedIsPolyMod(c: word, bits: seq<bool>)
    ensures var m := bits + Zeros(16); Feed(c, bits) == PolyMod(Xor(c, m[..16]) + m[16..])
    decreases |bits|
  {
    var m := bits + Zeros(16);
    var d := Xor(c, m[..16]) + m[16..];
    if bits == [] {
      assert m[..16] == Zeros(16) && Xor(c, Zeros(16)) == c;
      assert d == c;
    } else {
      var rest := bits[1..] + Zeros(16);
      assert m == [bits[0]] + rest;
      var s, t := c[1..] + [false], rest[..16];
      DividendShifts(c, bits[0], rest);
      if d[0] {
        XorSwap(s, GENERATOR, t);
      } else {
        assert d[1..] == d[1..17] + d[17..];
      }
      FeedIsPolyMod(FeedBit(c, bits[0]), bits[1..]);
    }
  }

  lemma XorSwap(a: seq<bool>, b: seq<bool>, c: seq<bool>)
    requires |a| == |b| == |c|
    ensures Xor(Xor(a, b), c) == Xor(Xor(a, c), b)
  {
  }

  /** Dropping the leading place of the dividend is shifting the register. */
  lemma DividendShifts(c: word, b: bool, rest: seq<bool>)
    requires |rest| >= 16
    ensures
      var m := [b] + rest;
      var d := Xor(c, m[..16]) + m[16..];
      && d[0] == (c[0] != b)
      && d[1..17] == Xor(c[1..] + [false], rest[..16]) && d[17..] == rest[16..]
      && FeedBit(c, b) == (if d[0] then Xor(c[1..] + [false], GENERATOR) else c[1..] + [false])
  {
    var m := [b] + rest;
    var d := Xor(c, m[..16]) + m[16..];
    var s := Xor(c[1..] + [false], rest[..16]);
    forall i | 0 <= i < 16
      ensures d[1..17][i] == s[i]
    {
      assert d[1..17][i] == d[i + 1];
      if i < 15 {
        assert d[i + 1] == (c[i + 1] != m[i + 1]) && m[i + 1] == rest[i];
      } else {
        assert d[16] == m[16] == rest[15];
      }
    }
    assert d[17..] == m[17..] == rest[16..];
    assert [c[0] != b] + c[1..] == [d[0]] + c[1..];
    assert ([d[0]] + c[1..])[1..] == c[1..];
  }

  /** The value computed is the remainder, modulo the generator, of the message times
      x^16 after its first 16 bits have been complemented (the preset). */
  lemma CrcIsPolynomialRemainder(bytes: seq<byte>)
    ensures
      var m := BitsOf(bytes) + Zeros(16);
      Crc(bytes) == PolyMod(Xor(Ones(16), m[..16]) + m[16..])
  {
    FeedIsPolyMod(Ones(16), BitsOf(bytes));
  }
}
