/** The packet record, its layout inside a frame, and the window slot that holds it
    (src/io/communication/mc_window.h). */
module Packets {
  import opened Bytes
  import opened Crc16
  import opened Frame

  const INVALID_ID: nat := 0xFFFF_FFFF

  datatype Kind = Data | Ack

  /** `mc_pkt`; `tail` is the padding octet after the data. */
  datatype RawPacket = Packet(header: nat, size: nat, id: nat, crc: word, kind: Kind, data: seq<byte>, tail: byte)

  /** The field widths, and a size that does not run past the data. */
  predicate Fits(p: RawPacket) {
    p.header < 0x1_0000 && p.id <= INVALID_ID && p.size <= |p.data| < 0x1_0000
  }

  type Packet = p: RawPacket | Fits(p)
    witness Packet(0, 0, 0, seq(16, _ => false), Data, [], seq(8, _ => false))

  /** The octets that the packet carries. */
  function Carried(p: Packet): seq<byte> {
    p.data[..p.size]
  }

  function KindOctet(k: Kind): byte {
    ToBits(if k.Ack? then 1 else 0, OCTET)
  }

  function CrcOctets(crc: word): (s: seq<byte>)
    ensures |s| == 2 && s[0] == crc[8..] && s[1] == crc[..8]
  {
    var low: byte := crc[8..];
    var high: byte := crc[..8];
    [low, high]
  }

  function Head(p: Packet): (s: seq<byte>)
    ensures |s| == DATA_OFFSET
  {
    ToLe(p.header, U16) + ToLe(p.size, U16) + ToLe(p.id, U32) + CrcOctets(p.crc) + [KindOctet(p.kind)]
  }

  lemma HeadSlices(p: Packet)
    ensures
      var h := Head(p);
      && h[..2] == ToLe(p.header, U16) && h[2..4] == ToLe(p.size, U16) && h[4..8] == ToLe(p.id, U32)
      && h[CRC_LOW] == p.crc[8..] && h[CRC_HIGH] == p.crc[..8] && h[10] == KindOctet(p.kind)
  {
    Slices(ToLe(p.header, U16), ToLe(p.size, U16), ToLe(p.id, U32), CrcOctets(p.crc), [KindOctet(p.kind)]);
  }

  lemma Slices(a: seq<byte>, b: seq<byte>, c: seq<byte>, d: seq<byte>, e: seq<byte>)
    requires |a| == 2 && |b| == 2 && |c| == 4 && |d| == 2 && |e| == 1
    ensures
      var s := a + b + c + d + e;
      s[..2] == a && s[2..4] == b && s[4..8] == c && s[8] == d[0] && s[9] == d[1] && s[10] == e[0]
  {
  }

  function Encode(p: Packet): (f: frame)
    ensures |f| == |p.data| + PACKET_SIZE
  {
    Head(p) + p.data + [p.tail]
  }

  /** The record a frame is read as; the size field is trusted as it stands. */
  function Decode(f: frame): RawPacket {
    Packet(FromLe(f[..2]), FromLe(f[2..4]), FromLe(f[4..8]), CrcField(f),
           if f[10] == KindOctet(Ack) then Ack else Data,
           f[DATA_OFFSET..|f| - 1], f[|f| - 1])
  }

  lemma DecodeEncode(p: Packet)
    ensures Decode(Encode(p)) == p
  {
    FieldSlices(p);
    FieldsRoundTrip(p);
    KindsDiffer();
    CrcSlice(p);
  }

  lemma FieldSlices(p: Packet)
    ensures
      var f := Encode(p);
      && f[..2] == ToLe(p.header, U16) && f[2..4] == ToLe(p.size, U16) && f[4..8] == ToLe(p.id, U32)
      && f[10] == KindOctet(p.kind) && f[DATA_OFFSET..|f| - 1] == p.data && f[|f| - 1] == p.tail
  {
    var f, h := Encode(p), Head(p);
    HeadSlices(p);
    SlicesOfPrefix(h, p.data, p.tail);
    assert f == h + p.data + [p.tail];
  }

  lemma SlicesOfPrefix(h: seq<byte>, d: seq<byte>, t: byte)
    requires |h| == DATA_OFFSET
    ensures
      var f := h + d + [t];
      && f[..2] == h[..2] && f[2..4] == h[2..4] && f[4..8] == h[4..8] && f[10] == h[10]
      && f[DATA_OFFSET..|f| - 1] == d && f[|f| - 1] == t
  {
  }

  lemma CrcSlice(p: Packet)
    ensures CrcField(Encode(p)) == p.crc
  {
    var h := Head(p);
    HeadSlices(p);
    assert Encode(p)[CRC_LOW] == h[CRC_LOW] && Encode(p)[CRC_HIGH] == h[CRC_HIGH];
    assert Join(p.crc[..8], p.crc[8..]) == p.crc;
  }

  lemma FieldsRoundTrip(p: Packet)
    ensures FromLe(ToLe(p.header, U16)) == p.header
    ensures FromLe(ToLe(p.size, U16)) == p.size
    ensures FromLe(ToLe(p.id, U32)) == p.id
  {
    assert Pow(256, 2) == 0x1_0000;
    assert Pow(256, 4) == 0x1_0000_0000;
    LeRoundTrip(p.header, U16);
    LeRoundTrip(p.size, U16);
    LeRoundTrip(p.id, U32);
  }

  lemma KindsDiffer()
    ensures KindOctet(Data) != KindOctet(Ack)
  {
    var n: nat := OCTET;
    assert Pow(2, 8) == 256;
    BitsRoundTrip(0, n);
    BitsRoundTrip(1, n);
  }

  /** Where everything lies: integer fields low octet first, the type one octet that is 0 for
      data and 1 for an acknowledgement, the data from octet 11 on. */
  lemma Layout(p: Packet)
    ensures
      var f := Encode(p);
      && |f| == 12 + |p.data|
      && FromBits(f[0]) + 256 * FromBits(f[1]) == p.header
      && FromBits(f[2]) + 256 * FromBits(f[3]) == p.size
      && FromBits(f[4]) + 0x100 * FromBits(f[5]) + 0x1_0000 * FromBits(f[6]) + 0x100_0000 * FromBits(f[7]) == p.id
      && FromBits(f[8]) + 256 * FromBits(f[9]) == FromBits(p.crc)
      && FromBits(f[10]) == (if p.kind.Ack? then 1 else 0)
      && f[11..11 + |p.data|] == p.data && f[11 + |p.data|] == p.tail
  {
    hide ToLe, FromLe, FromBits, Head;
    var f := Encode(p);
    FieldSlices(p);
    FieldsRoundTrip(p);
    FromLeTwo(f[..2]);
    FromLeTwo(f[2..4]);
    FromLeFour(f[4..8]);
    CrcSlice(p);
    FromBitsConcat(f[CRC_HIGH], f[CRC_LOW]);
    assert Pow(2, 8) == 256;
    KindValue(p.kind);
  }

  lemma KindValue(k: Kind)
    ensures FromBits(KindOctet(k)) == if k.Ack? then 1 else 0
  {
    assert Pow(2, 8) == 256;
    BitsRoundTrip(if k.Ack? then 1 else 0, OCTET);
  }

  /** The sentinel fills its field with ones. */
  lemma InvalidIsAllOnes(p: Packet)
    ensures p.id == INVALID_ID <==> forall i :: 4 <= i < 8 ==> Encode(p)[i] == Ones(8)
  {
    hide ToLe, FromLe, Head;
    var f := Encode(p);
    Layout(p);
    OnesValue();
    OctetBound(f[4]);
    OctetBound(f[5]);
    OctetBound(f[6]);
    OctetBound(f[7]);
    if p.id == INVALID_ID {
      assert FromBits(f[7]) == 255 && FromBits(f[6]) == 255 && FromBits(f[5]) == 255 && FromBits(f[4]) == 255;
      forall i | 4 <= i < 8
        ensures f[i] == Ones(8)
      {
        FromBitsInjective(f[i], Ones(8));
      }
    }
  }

  lemma OnesValue()
    ensures FromBits(Ones(8)) == 255
  {
    NibblesValue(Ones(4), Ones(4));
    assert Ones(8) == Ones(4) + Ones(4);
  }

  /** `crc` computed over the whole frame with its own field zero. */
  function Seal(p: Packet): (s: Packet)
    ensures s == p.(crc := s.crc)
  {
    p.(crc := Crc(Encode(p.(crc := Zeros(16)))))
  }

  /** The frame of `p` passes the receiver's check. */
  predicate Sound(p: Packet) {
    Accepts(Encode(p))
  }

  lemma EncodeWithCrc(p: Packet, c: word)
    ensures Encode(p.(crc := c)) == WithCrc(Encode(p), c)
  {
    HeadWithCrc(p, c);
    var h, d := Head(p), p.data + [p.tail];
    assert Encode(p) == h + d && Encode(p.(crc := c)) == Head(p.(crc := c)) + d;
    UpdatePrefix(h, d, c[8..], c[..8]);
  }

  lemma HeadWithCrc(p: Packet, c: word)
    ensures Head(p.(crc := c)) == Head(p)[CRC_LOW := c[8..]][CRC_HIGH := c[..8]]
  {
    var a := ToLe(p.header, U16) + ToLe(p.size, U16) + ToLe(p.id, U32);
    assert |a| == 8;
  }

  lemma UpdatePrefix(h: seq<byte>, d: seq<byte>, low: byte, high: byte)
    requires |h| == DATA_OFFSET
    ensures h[CRC_LOW := low][CRC_HIGH := high] + d == (h + d)[CRC_LOW := low][CRC_HIGH := high]
  {
  }

  /** A sealed packet passes the receiver's check. */
  lemma SealedSound(p: Packet)
    requires p.header == HEADER
    ensures Sound(Seal(p))
  {
    EncodeWithCrc(p, Zeros(16));
    EncodeWithCrc(p, Crc(WithCrc(Encode(p), Zeros(16))));
    var f := Encode(p);
    assert Encode(Seal(p)) == Sealed(f);
    SealThenCheck(f);
    FieldSlices(p);
    FieldsRoundTrip(p);
  }

  // ------------------------------------------------------------------ window slots

  datatype Window = Window(sentTime: nat, isAcked: bool, isSent: bool, packet: Packet) {

    predicate IsValid() {
      packet.id != INVALID_ID
    }

    /** `wnd_clear`: everything else in the slot stays. */
    function Clear(): Window {
      this.(packet := packet.(id := INVALID_ID, size := 0), isAcked := true, isSent := false)
    }
  }
}
