/** Frames: the fixed-size blocks that cross the link, their CRC field, and their
    assembly from whatever pieces the transport delivers (src/io/communication/mc_frame.c,
    src/io/communication/mc_io.c). */
module Frame {
  import opened Bytes
  import opened Seqs
  import opened Crc16

  const HEADER: nat := 0xC7E9

  /** Octets before the packet's data: header, size, id, crc and type. */
  const DATA_OFFSET := 11

  /** `sizeof(mc_pkt)`: the data offset rounded up to the alignment of the id field. */
  const PACKET_SIZE := 12

  const CRC_LOW := 8
  const CRC_HIGH := 9

  type frame = f: seq<byte> | |f| >= PACKET_SIZE witness seq(PACKET_SIZE, _ => seq(8, _ => false))

  function Join(high: seq<bool>, low: seq<bool>): word
    requires |high| == 8 && |low| == 8
  {
    high + low
  }

  function CrcField(f: frame): word {
    Join(f[CRC_HIGH], f[CRC_LOW])
  }

  function WithCrc(f: frame, c: word): (r: frame)
    ensures |r| == |f| && CrcField(r) == c
    ensures forall i :: 0 <= i < |f| && i != CRC_LOW && i != CRC_HIGH ==> r[i] == f[i]
  {
    f[CRC_LOW := c[8..]][CRC_HIGH := c[..8]]
  }

  predicate HeaderValid(f: frame) {
    FromLe(f[..2]) == HEADER
  }

  predicate CrcValid(f: frame) {
    CrcField(f) == Crc(WithCrc(f, Zeros(16)))
  }

  /** What the receiver hands on to the protocol. */
  predicate Accepts(f: frame) {
    HeaderValid(f) && CrcValid(f)
  }

  /** The frame with its CRC field filled in. */
  function Sealed(f: frame): frame {
    WithCrc(f, Crc(WithCrc(f, Zeros(16))))
  }

  const XE9: byte := [true, true, true, false, true, false, false, true]
  const XC7: byte := [true, true, false, false, false, true, true, true]

  lemma HeaderOctets()
    ensures FromBits(XE9) == 0xE9 && FromBits(XC7) == 0xC7
  {
    NibblesValue([true, true, true, false], [true, false, false, true]);
    NibblesValue([true, true, false, false], [false, true, true, true]);
    assert XE9 == [true, true, true, false] + [true, false, false, true];
    assert XC7 == [true, true, false, false] + [false, true, true, true];
  }

  lemma NibblesValue(high: seq<bool>, low: seq<bool>)
    requires |high| == |low| == 4
    ensures FromBits(high + low) == 16 * NibbleValue(high) + NibbleValue(low)
  {
    FromBitsConcat(high, low);
    assert Pow(2, 4) == 16;
    FourBits(high);
    FourBits(low);
  }

  function NibbleValue(s: seq<bool>): nat
    requires |s| == 4
  {
    (if s[0] then 8 else 0) + (if s[1] then 4 else 0) + (if s[2] then 2 else 0) + if s[3] then 1 else 0
  }

  lemma FourBits(s: seq<bool>)
    requires |s| == 4
    ensures FromBits(s) == NibbleValue(s)
  {
    assert s[..3][..2] == s[..2] && s[..2][..1] == s[..1] && s[..1][..0] == [];
    assert FromBits(s[..1]) == (if s[0] then 1 else 0);
    assert FromBits(s[..2]) == 2 * FromBits(s[..1]) + (if s[1] then 1 else 0);
    assert FromBits(s[..3]) == 2 * FromBits(s[..2]) + (if s[2] then 1 else 0);
  }

  /** A frame is taken for one only if it starts with the octets E9 and C7. */
  lemma HeaderExactly(f: frame)
    ensures HeaderValid(f) <==> f[0] == XE9 && f[1] == XC7
  {
    FromLeTwo(f[..2]);
    OctetBound(f[0]);
    OctetBound(f[1]);
    HeaderOctets();
    if HeaderValid(f) {
      assert FromBits(f[0]) == 0xE9 && FromBits(f[1]) == 0xC7;
      FromBitsInjective(f[0], XE9);
      FromBitsInjective(f[1], XC7);
    }
  }

  // ------------------------------------------------------------------ seal and check

  lemma SealThenCheck(f: frame)
    ensures CrcValid(Sealed(f))
    ensures HeaderValid(f) ==> Accepts(Sealed(f))
  {
    assert WithCrc(Sealed(f), Zeros(16)) == WithCrc(f, Zeros(16));
    assert Sealed(f)[..2] == f[..2];
  }

  /** Exactly which damage escapes, wherever it lies: the register, started at zero and fed
      the damage outside the CRC field, ends up as the damage inside. */
  lemma EscapesIff(sent: frame, got: frame)
    requires CrcValid(sent) && |got| == |sent|
    ensures CrcValid(got)
       <==> Feed(Zeros(16), Xor(BitsOf(WithCrc(sent, Zeros(16))), BitsOf(WithCrc(got, Zeros(16)))))
            == Xor(CrcField(sent), CrcField(got))
  {
    var s, g := WithCrc(sent, Zeros(16)), WithCrc(got, Zeros(16));
    FeedLinear(Ones(16), Ones(16), BitsOf(s), BitsOf(g));
    XorSelf(Ones(16));
    XorCancels(Crc(s), Crc(g), CrcField(got));
  }

  lemma XorCancels(a: word, b: word, c: word)
    ensures Xor(a, b) == Xor(a, c) <==> b == c
  {
    forall i | 0 <= i < 16
      ensures Xor(a, b) == Xor(a, c) ==> b[i] == c[i]
    {
      assert Xor(a, b)[i] == (a[i] != b[i]) && Xor(a, c)[i] == (a[i] != c[i]);
    }
  }

  /** The check fails for a frame that was valid and then damaged in one burst that
      spares the CRC field, or in any way confined to the CRC field. */
  lemma DamageRejected(sent: frame, got: frame, p: nat)
    requires CrcValid(sent) && |got| == |sent| && got != sent
    requires
      || (CrcField(got) == CrcField(sent) && DifferInBurst(sent, got, p))
      || (forall i :: 0 <= i < |sent| && i != CRC_LOW && i != CRC_HIGH ==> got[i] == sent[i])
    ensures !CrcValid(got)
  {
    var s, g := WithCrc(sent, Zeros(16)), WithCrc(got, Zeros(16));
    if forall i :: 0 <= i < |sent| && i != CRC_LOW && i != CRC_HIGH ==> got[i] == sent[i] {
      assert s == g;
      if CrcField(got) == CrcField(sent) {
        FieldDetermines(sent, got);
      }
    } else {
      FieldDetermines(sent, got);
      forall i | 0 <= i < 8 * |s| && !(p <= i < p + 16)
        ensures BitsOf(s)[i] == BitsOf(g)[i]
      {
        BitOfOctet(s, i);
        BitOfOctet(g, i);
        BitOfOctet(sent, i);
        BitOfOctet(got, i);
      }
      BurstDetected(s, g, p);
    }
  }

  lemma FieldDetermines(a: frame, b: frame)
    requires CrcField(a) == CrcField(b)
    ensures a[CRC_LOW] == b[CRC_LOW] && a[CRC_HIGH] == b[CRC_HIGH]
  {
    assert CrcField(a)[..8] == a[CRC_HIGH] && CrcField(a)[8..] == a[CRC_LOW];
    assert CrcField(b)[..8] == b[CRC_HIGH] && CrcField(b)[8..] == b[CRC_LOW];
  }

  lemma {:induction false} BitOfOctet(s: seq<byte>, i: nat)
    requires i < 8 * |s|
    ensures BitsOf(s)[i] == s[i / 8][i % 8]
    decreases |s|
  {
    if i >= 8 {
      BitOfOctet(s[1..], i - 8);
    }
  }

  const X8C: byte := [true, false, false, false, true, true, false, false]
  const XEF: byte := [true, true, true, false, true, true, true, true]

  /** Sixteen bits are not enough across the border of the CRC field: in a frame of 13
      octets, this burst in the field's last octet and the one behind it always escapes. */
  lemma StraddlingBurstEscapes(sent: frame)
    requires |sent| == 13 && CrcValid(sent)
    ensures var got := sent[CRC_HIGH := Xor(sent[CRC_HIGH], X8C)][10 := Xor(sent[10], XEF)];
      DifferInBurst(sent, got, 72) && CrcValid(got)
  {
    var got: frame := sent[CRC_HIGH := Xor(sent[CRC_HIGH], X8C)][10 := Xor(sent[10], XEF)];
    assert got != sent by { assert got[10][0] != sent[10][0]; }
    forall i | 0 <= i < 8 * |sent| && !(72 <= i < 88)
      ensures BitsOf(sent)[i] == BitsOf(got)[i]
    {
      BitOfOctet(sent, i);
      BitOfOctet(got, i);
    }
    var s, g := WithCrc(sent, Zeros(16)), WithCrc(got, Zeros(16));
    var outside, inside := Xor(BitsOf(s), BitsOf(g)), Xor(CrcField(sent), CrcField(got));
    assert inside == X8C + Zeros(8);
    assert outside == Zeros(80) + (XEF + Zeros(16)) by {
      forall i | 0 <= i < 104
        ensures outside[i] == (Zeros(80) + (XEF + Zeros(16)))[i]
      {
        BitOfOctet(s, i);
        BitOfOctet(g, i);
      }
    }
    FeedConcat(Zeros(16), Zeros(80), XEF + Zeros(16));
    FeedZeros(Zeros(16), 80);
    ShiftNZeros(80);
    RemainderOfEF();
    EscapesIff(sent, got);
  }

  /** A pattern of 40 bits that is never seen, by the places of its ones. */
  ghost predicate Unseen(s: seq<bool>, places: int -> bool) {
    && |s| == 40 && Feed(Zeros(16), s) == Zeros(16)
    && forall i :: 0 <= i < 40 ==> s[i] == places(i)
  }

  function Generator(a: nat): int -> bool {
    i => i == a || i == a + 4 || i == a + 11 || i == a + 16
  }

  function Either(a: int -> bool, b: int -> bool): int -> bool {
    i => a(i) != b(i)
  }

  lemma UnseenGenerator(a: nat) returns (s: seq<bool>)
    requires a <= 23
    ensures Unseen(s, Generator(a))
  {
    GeneratorEscapes(a, 23 - a);
    s := Zeros(a) + ([true] + GENERATOR) + Zeros(23 - a);
  }

  lemma UnseenTwo(a: nat, b: nat) returns (s: seq<bool>)
    requires a <= 23 && b <= 23
    ensures Unseen(s, Either(Generator(a), Generator(b)))
  {
    hide Unseen;
    var x := UnseenGenerator(a);
    var y := UnseenGenerator(b);
    s := UnseenEither(x, y, Generator(a), Generator(b));
  }

  lemma UnseenEither(x: seq<bool>, y: seq<bool>, a: int -> bool, b: int -> bool) returns (s: seq<bool>)
    requires Unseen(x, a) && Unseen(y, b)
    ensures Unseen(s, Either(a, b))
  {
    UnseenSum(x, y);
    s := Xor(x, y);
  }

  /** A long division, written as the sum of the multiples it subtracts. */
  lemma RemainderOfEF()
    ensures Feed(Zeros(16), XEF + Zeros(16)) == X8C + Zeros(8)
  {
    hide Unseen;
    hide Feed;
    hide Either;
    hide Generator;
    var x := UnseenTwo(0, 1);
    var y := UnseenTwo(2, 7);
    var z := UnseenTwo(12, 13);
    var xy := UnseenEither(x, y, Either(Generator(0), Generator(1)), Either(Generator(2), Generator(7)));
    var places := Either(Either(Generator(0), Generator(1)), Either(Generator(2), Generator(7)));
    var all := UnseenEither(xy, z, places, Either(Generator(12), Generator(13)));
    UnseenEF(all);
    UnseenMeansRemainder(XEF + Zeros(16), X8C + Zeros(8));
  }

  lemma UnseenEF(s: seq<bool>)
    requires Unseen(s, Either(Either(Either(Generator(0), Generator(1)), Either(Generator(2), Generator(7))),
                              Either(Generator(12), Generator(13))))
    ensures Feed(Zeros(16), XEF + Zeros(16) + (X8C + Zeros(8))) == Zeros(16)
  {
    hide Feed;
    var all := XEF + Zeros(16) + (X8C + Zeros(8));
    forall i | 0 <= i < 40
      ensures s[i] == all[i]
    {
      Quotient(i);
      assert all[i] <==> i in {0, 1, 2, 4, 5, 6, 7, 24, 28, 29};
    }
    assert s == all;
  }

  lemma Quotient(i: int)
    ensures Either(Either(Either(Generator(0), Generator(1)), Either(Generator(2), Generator(7))),
                   Either(Generator(12), Generator(13)))(i)
       <==> i in {0, 1, 2, 4, 5, 6, 7, 24, 28, 29}
  {
  }

  /** The check zeroes the field it compares and puts it back. */
  method FrameIsCrcValid(pkt: array<byte>) returns (valid: bool)
    requires pkt.Length >= PACKET_SIZE
    modifies pkt
    ensures pkt[..] == old(pkt[..])
    ensures valid == CrcValid(pkt[..])
  {
    ghost var was := pkt[..];
    var low, high := pkt[CRC_LOW], pkt[CRC_HIGH];
    pkt[CRC_LOW] := Zeros(8);
    pkt[CRC_HIGH] := Zeros(8);
    assert Zeros(16)[8..] == Zeros(8) && Zeros(16)[..8] == Zeros(8);
    assert pkt[..] == WithCrc(was, Zeros(16));
    var crc := Crc16Ccitt(pkt[..]);
    pkt[CRC_LOW] := low;
    pkt[CRC_HIGH] := high;
    assert pkt[..] == was;
    valid := Join(high, low) == crc;
  }

  // ------------------------------------------------------------------ assembly

  /** `mc_frame`'s receive side: a buffer of one frame, filled piece by piece. */
  class Assembler {
    const windowSize: nat
    const temp: array<byte>
    var tempStored: nat

    /** Every octet received so far. */
    ghost var stream: seq<byte>

    ghost predicate Valid()
      reads this, temp
    {
      && windowSize >= PACKET_SIZE
      && temp.Length == windowSize
      && tempStored < windowSize
      && temp[..tempStored] == Rest(windowSize, stream)
    }

    constructor (windowSize: nat)
      requires windowSize >= PACKET_SIZE
      ensures Valid() && this.windowSize == windowSize && stream == [] && fresh(temp)
    {
      this.windowSize := windowSize;
      temp := new byte[windowSize](_ => seq(8, _ => false));
      tempStored := 0;
      stream := [];
    }

    /** How much `io_recv` asks the transport for. */
    function Required(): nat
      requires tempStored <= windowSize
      reads this
    {
      windowSize - tempStored
    }

    /** One `io_recv`: `chunk` is what the transport returned for a request of
        `Required()` octets. Yields the frame that this completed, when it is accepted. */
    method IoRecv(chunk: seq<byte>) returns (done: bool, accepted: Option<frame>)
      requires Valid() && |chunk| <= Required()
      modifies this`tempStored, this`stream, temp
      ensures Valid() && stream == old(stream) + chunk
      ensures done <==> |chunk| == old(Required())
      ensures Blocks(windowSize, stream)
           == old(Blocks(windowSize, stream)) + if done then [old(temp[..tempStored]) + chunk] else []
      ensures accepted == if done then Checked(old(temp[..tempStored]) + chunk) else None
    {
      done, accepted := false, None;
      ghost var was := temp[..tempStored];
      BlocksAppend(windowSize, stream, chunk);
      if |chunk| != 0 {
        var i := 0;
        while i < |chunk|
          invariant 0 <= i <= |chunk|
          invariant temp[..tempStored + i] == was + chunk[..i]
          modifies temp
        {
          temp[tempStored + i] := chunk[i];
          assert temp[..tempStored + i + 1] == temp[..tempStored + i] + [chunk[i]];
          i := i + 1;
        }
        assert chunk[..i] == chunk;
        stream := stream + chunk;
        tempStored := tempStored + |chunk|;
        if tempStored == windowSize {
          done := true;
          tempStored := 0;
          assert temp[..] == was + chunk;
          if HeaderValid(temp[..]) {
            var ok := FrameIsCrcValid(temp);
            if ok {
              accepted := Some(temp[..]);
            }
          }
          assert temp[..0] == [];
        }
      } else {
        assert stream + chunk == stream;
      }
    }
  }

  function Checked(f: frame): Option<frame> {
    if Accepts(f) then Some(f) else None
  }

  /** The consecutive whole blocks of a stream. */
  function Blocks(n: nat, s: seq<byte>): seq<seq<byte>>
    requires n > 0
    decreases |s|
  {
    if |s| < n then [] else [s[..n]] + Blocks(n, s[n..])
  }

  /** What follows the last whole block. */
  function Rest(n: nat, s: seq<byte>): (r: seq<byte>)
    requires n > 0
    ensures |r| < n
    decreases |s|
  {
    if |s| < n then s else Rest(n, s[n..])
  }

  lemma {:induction false} BlocksAppend(n: nat, s: seq<byte>, chunk: seq<byte>)
    requires n > 0 && |Rest(n, s)| + |chunk| <= n
    ensures
      var full := Rest(n, s) + chunk;
      && Rest(n, s + chunk) == (if |full| == n then [] else full)
      && Blocks(n, s + chunk) == Blocks(n, s) + (if |full| == n then [full] else [])
    decreases |s|
  {
    if |s| < n {
      if |s| + |chunk| == n {
        assert (s + chunk)[..n] == s + chunk && (s + chunk)[n..] == [];
      }
    } else {
      assert (s + chunk)[..n] == s[..n] && (s + chunk)[n..] == s[n..] + chunk;
      BlocksAppend(n, s[n..], chunk);
    }
  }

  // ------------------------------------------------------------------ chunking

  /** The frames examined while `chunks` arrive one by one, and what remains buffered. */
  function Reassemble(n: nat, partial: seq<byte>, chunks: seq<seq<byte>>): (seq<seq<byte>>, seq<byte>)
    decreases |chunks|
  {
    if chunks == [] then ([], partial)
    else
      var full := partial + chunks[0];
      if |full| == n && chunks[0] != [] then
        var (frames, rest) := Reassemble(n, [], chunks[1..]);
        ([full] + frames, rest)
      else Reassemble(n, full, chunks[1..])
  }

  /** Each read returns at most what was asked for. */
  ghost predicate Polite(n: nat, stored: nat, chunks: seq<seq<byte>>)
    decreases |chunks|
  {
    chunks == [] || (
      stored + |chunks[0]| <= n &&
      Polite(n, if stored + |chunks[0]| == n then 0 else stored + |chunks[0]|, chunks[1..]))
  }

  /** However a stream is cut into reads, the frames examined are its consecutive blocks. */
  lemma {:induction false} ChunkingIrrelevant(n: nat, partial: seq<byte>, chunks: seq<seq<byte>>)
    requires |partial| < n && Polite(n, |partial|, chunks)
    ensures Reassemble(n, partial, chunks)
         == (Blocks(n, partial + Flatten(chunks)), Rest(n, partial + Flatten(chunks)))
    ensures |Reassemble(n, partial, chunks).1| < n
    decreases |chunks|
  {
    if chunks == [] {
      assert partial + Flatten(chunks) == partial;
    } else {
      var full := partial + chunks[0];
      var rest := Flatten(chunks[1..]);
      var all := partial + Flatten(chunks);
      assert all == full + rest;
      if |full| == n {
        assert all[..n] == full && all[n..] == [] + rest;
        ChunkingIrrelevant(n, [], chunks[1..]);
      } else {
        ChunkingIrrelevant(n, full, chunks[1..]);
      }
    }
  }
}
