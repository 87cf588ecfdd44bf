/** The inductive invariant of one direction of a connection: the sending half of one
    end, the receiving half of the other, and what lies between them. */
module Invariant {
  import opened Bytes
  import opened Seqs
  import opened Frame
  import opened Packets
  import opened WindowRing
  import opened Protocol

  // ------------------------------------------------------------------ the sending half

  /** The receiver has stored packet `id`, and perhaps handed it over already. */
  predicate Received(r: Ring, id: nat) {
    id < r.bgn || (Contains(r, id) && At(r, id).IsValid())
  }

  /** `p` is the transmission of a logged id: sealed, and carrying what the log says. */
  ghost predicate Genuine(p: Packet, log: Log) {
    p.kind.Data? && p.id < |log| && Carried(p) == log[p.id] && Sound(p)
  }

  /** A numbered window; an acknowledgement it carries is true of the receiver `rcv`. */
  ghost predicate SentSlot(w: Window, id: nat, wire: set<Packet>, rcv: Ring) {
    && w.isSent && w.packet.id == id && w.packet.kind.Data? && w.packet in wire
    && (w.isAcked ==> Received(rcv, id))
  }

  predicate UnsentSlot(w: Window) {
    !w.isSent && w.isAcked && !w.IsValid()
  }

  /** The octets accepted but not yet numbered. */
  function Tail(r: Ring): seq<byte> {
    if Last(r).isSent then [] else Carried(Last(r).packet)
  }

  /** Everything on the wire is an acknowledgement, a genuine transmission, or an
      unsealed window without a number; and an id has one transmission only. */
  ghost predicate WireInv(wire: set<Packet>, log: Log, payload: nat) {
    && (forall p :: p in wire ==> |p.data| == payload)
    && (forall p :: p in wire && p.kind.Data? ==> p.id == INVALID_ID || Genuine(p, log))
    && (forall p, q :: p in wire && q in wire && p.kind.Data? && q.kind.Data? && p.id == q.id && p.id != INVALID_ID
          ==> p == q)
  }

  ghost predicate SlotsInv(r: Ring, wire: set<Packet>, log: Log, rcv: Ring) {
    && (forall id :: 0 <= id < r.bgn ==> Received(rcv, id))
    && |log| == r.end + (if Last(r).isSent then 1 else 0)
    && (forall id :: r.bgn <= id < |log| ==> SentSlot(At(r, id), id, wire, rcv))
    && (forall id :: |log| <= id < r.bgn + |r.wnd| ==> UnsentSlot(At(r, id)))
    && (forall id :: r.end < id < r.bgn + |r.wnd| ==> At(r, id).packet.size == 0)
    && (Last(r).isSent ==> 0 < Last(r).packet.size < r.payload)
  }

  /** Every window that was numbered carries something, and no more than fits. */
  predicate Sized(log: Log, payload: nat) {
    forall i :: 0 <= i < |log| ==> 0 < |log[i]| <= payload
  }

  ghost predicate SenderInv(r: Ring, wire: set<Packet>, log: Log, accepted: seq<byte>, rcv: Ring) {
    && r.end + |r.wnd| < INVALID_ID
    && WireInv(wire, log, r.payload)
    && SlotsInv(r, wire, log, rcv)
    && !IsFirstAcked(r)
    && Sized(log, r.payload)
    && accepted == Flatten(log) + Tail(r)
  }

  // ------------------------------------------------------------------ the receiving half

  ghost predicate StoredSlot(w: Window, id: nat, wire: set<Packet>) {
    w.packet.id == id && w.packet.kind.Data? && w.packet in wire
  }

  predicate EmptySlot(w: Window) {
    !w.IsValid() && w.packet.size == 0
  }

  /** What the cursor has already handed over of the first window. */
  function Begun(r: Ring): seq<byte> {
    var bytes := Carried(r.wnd[0].packet);
    bytes[..Min(r.stored, |bytes|)]
  }

  ghost predicate ReceiverInv(r: Ring, wire: set<Packet>, log: Log, read: seq<byte>) {
    && r.end == r.bgn <= |log|
    && |log| + |r.wnd| <= INVALID_ID
    && (forall id :: r.bgn <= id < r.bgn + |r.wnd| ==>
          At(r, id).isAcked && (EmptySlot(At(r, id)) || StoredSlot(At(r, id), id, wire)))
    && (r.stored == 0 || (IsFirstAcked(r) && r.stored < r.wnd[0].packet.size))
    && read == Flatten(log[..r.bgn]) + Begun(r)
  }

  // ------------------------------------------------------------------ acknowledgements

  /** An acknowledgement: it names a packet. (An unnumbered window has the type that its
      memory had, and the sentinel for its id.) */
  predicate IsAck(p: Packet) {
    p.kind.Ack? && p.id != INVALID_ID
  }

  /** Every acknowledgement, wherever it is, speaks the truth. */
  ghost predicate AckInv(rcv: Ring, back: set<Packet>) {
    forall p :: p in back && IsAck(p) ==> Received(rcv, p.id) && Sound(p)
  }

  /** One direction of the connection: `x` sends, `y` receives. */
  ghost predicate LinkInv(x: Side, y: Side) {
    && x.ep.snd.payload == y.ep.rcv.payload
    && SenderInv(x.ep.snd, x.wire, x.log, x.accepted, y.ep.rcv)
    && ReceiverInv(y.ep.rcv, x.wire, x.log, y.read)
    && AckInv(y.ep.rcv, y.wire)
  }

  ghost predicate Inv(w: World) {
    LinkInv(w.a, w.b) && LinkInv(w.b, w.a)
  }

  // ------------------------------------------------------------------ the log only grows

  lemma {:induction false} LoggedGrows(log: Log, out: seq<Packet>)
    ensures log <= Logged(log, out)
    decreases |out|
  {
    if out != [] {
      LoggedGrows(if out[0].kind.Data? && out[0].id == |log| then log + [Carried(out[0])] else log, out[1..]);
    }
  }

  lemma {:induction false} LoggedConcat(log: Log, x: seq<Packet>, y: seq<Packet>)
    ensures Logged(log, x + y) == Logged(Logged(log, x), y)
    decreases |x|
  {
    if x == [] {
      assert x + y == y;
    } else {
      assert (x + y)[1..] == x[1..] + y;
      LoggedConcat(if x[0].kind.Data? && x[0].id == |log| then log + [Carried(x[0])] else log, x[1..], y);
    }
  }

  /** Packets that are acknowledgements, or already numbered, leave the log alone. */
  lemma {:induction false} LoggedOld(log: Log, out: seq<Packet>)
    requires forall p :: p in out && p.kind.Data? ==> p.id != |log|
    ensures Logged(log, out) == log
    decreases |out|
  {
    if out != [] {
      LoggedOld(log, out[1..]);
    }
  }

  // ------------------------------------------------------------------ sending half: write

  /** The two rings differ at most in the slots of ids `r.end` and beyond it, up to `to`. */
  ghost predicate SameBut(r: Ring, r': Ring, to: nat) {
    && r'.bgn == r.bgn && r'.payload == r.payload && |r'.wnd| == |r.wnd|
    && (forall id :: r.bgn <= id < r.bgn + |r.wnd| && !(r.end <= id <= to) ==> At(r', id) == At(r, id))
  }

  lemma AppendEffect(r: Ring, bytes: seq<byte>, nowMs: nat)
    requires |bytes| <= Room(r)
    ensures var r' := Append(r, bytes, nowMs);
      && SameBut(r, r', r.end) && r'.end == r.end
      && var w, w' := Last(r), Last(r');
      && w'.isSent == w.isSent && w'.isAcked == w.isAcked
      && w'.packet.id == w.packet.id && w'.packet.kind == w.packet.kind
      && w'.packet.size == w.packet.size + |bytes| && Carried(w'.packet) == Carried(w.packet) + bytes
  {
    var w, w' := Last(r), Last(Append(r, bytes, nowMs));
    assert Carried(w'.packet) == Carried(w.packet) + bytes;
  }

  lemma AppendKeeps(r: Ring, bytes: seq<byte>, nowMs: nat, wire: set<Packet>, log: Log, accepted: seq<byte>, rcv: Ring)
    requires SenderInv(r, wire, log, accepted, rcv) && !Last(r).isSent
    requires |bytes| <= Room(r)
    ensures var r' := Append(r, bytes, nowMs);
      && SenderInv(r', wire, log, accepted + bytes, rcv) && !Last(r').isSent
  {
    hide WireInv;
    hide Append;
    var r' := Append(r, bytes, nowMs);
    AppendEffect(r, bytes, nowMs);
    assert accepted + bytes == Flatten(log) + (Tail(r) + bytes);
    assert r'.wnd[0] == At(r', r.bgn);
    assert r.wnd[0] == At(r, r.bgn);
    assert UnsentSlot(At(r, r.end));
  }

  /** The packet that sealing the last window puts on the wire. */
  function SealedLast(r: Ring, now: nat): Packet {
    Last(SealLast(r, now)).packet
  }

  lemma SealEffect(r: Ring, now: nat)
    requires r.end < INVALID_ID
    ensures var r', p := SealLast(r, now), SealedLast(r, now);
      && SameBut(r, r', r.end) && r'.end == r.end
      && Last(r').isSent && !Last(r').isAcked && Last(r').packet == p
      && p.kind.Data? && p.id == r.end && p.size == Last(r).packet.size
      && |p.data| == r.payload && Carried(p) == Carried(Last(r).packet) && Sound(p)
  {
    hide Sound;
    hide Seal;
    SealedSound(Last(r).packet.(header := HEADER, kind := Data, id := r.end));
  }

  lemma AdvanceEffect(r: Ring, now: nat)
    requires r.end < INVALID_ID && r.end + 1 < r.bgn + |r.wnd|
    ensures var r' := Advance(r, now);
      && SameBut(r, r', r.end + 1) && r'.end == r.end + 1
      && At(r', r.end) == Last(SealLast(r, now))
      && Last(r') == At(r, r.end + 1).Clear()
  {
    hide Sound;
    hide Seal;
    hide SealLast;
    SealEffect(r, now);
  }

  lemma WireExtends(wire: set<Packet>, log: Log, payload: nat, p: Packet)
    requires WireInv(wire, log, payload) && |log| < INVALID_ID
    requires p.kind.Data? && p.id == |log| && |p.data| == payload && Genuine(p, log + [Carried(p)])
    ensures WireInv(wire + {p}, log + [Carried(p)], payload)
  {
    hide Sound;
    hide Seal;
  }

  lemma LogOne(log: Log, p: Packet)
    requires p.kind.Data?
    ensures Logged(log, [p]) == if p.id == |log| then log + [Carried(p)] else log
  {
    hide Sound;
    hide Seal;
    assert [p][1..] == [];
  }

  /** Logging a sealed window moves its octets from the tail into the log. */
  lemma LogSealed(r: Ring, now: nat, wire: set<Packet>, log: Log, accepted: seq<byte>)
    requires WireInv(wire, log, r.payload) && |log| == r.end < INVALID_ID
    requires 0 < Last(r).packet.size && accepted == Flatten(log) + Carried(Last(r).packet)
    requires Sized(log, r.payload)
    ensures var p := SealedLast(r, now);
      && Logged(log, [p]) == log + [Carried(p)]
      && WireInv(wire + {p}, log + [Carried(p)], r.payload)
      && accepted == Flatten(log + [Carried(p)])
      && Sized(log + [Carried(p)], r.payload)
  {
    hide Sound;
    hide SealedLast;
    hide WireInv;
    hide SealLast;
    SealEffect(r, now);
    var p := SealedLast(r, now);
    LogOne(log, p);
    assert Genuine(p, log + [Carried(p)]);
    WireExtends(wire, log, r.payload, p);
    FlattenSnoc(log, Carried(p));
  }

  /** Sealing the window that is being filled logs its octets under its id. */
  lemma SealKeeps(r: Ring, now: nat, wire: set<Packet>, log: Log, accepted: seq<byte>, rcv: Ring)
    requires SenderInv(r, wire, log, accepted, rcv) && !Last(r).isSent
    requires 0 < Last(r).packet.size < r.payload
    ensures var p := SealedLast(r, now);
      SenderInv(SealLast(r, now), wire + {p}, Logged(log, [p]), accepted, rcv)
  {
    hide Sound;
    hide SealLast;
    hide SealedLast;
    hide WireInv;
    var r', p := SealLast(r, now), SealedLast(r, now);
    SealEffect(r, now);
    LogSealed(r, now, wire, log, accepted);
    assert r'.wnd[0] == At(r', r.bgn) && r.wnd[0] == At(r, r.bgn);
    assert SlotsInv(r', wire + {p}, log + [Carried(p)], rcv) by {
      SentStay(r, r', r.end, wire, log, p, rcv);
    }
    assert Flatten(log + [Carried(p)]) + [] == accepted;
  }

  lemma SentStay(r: Ring, r': Ring, to: nat, wire: set<Packet>, log: Log, p: Packet, rcv: Ring)
    requires SlotsInv(r, wire, log, rcv) && !Last(r).isSent && SameBut(r, r', to)
    requires SentSlot(At(r', r.end), r.end, wire + {p}, rcv)
    ensures forall id :: r.bgn <= id < r.end + 1 ==> SentSlot(At(r', id), id, wire + {p}, rcv)
  {
    forall id | r.bgn <= id < r.end + 1
      ensures SentSlot(At(r', id), id, wire + {p}, rcv)
    {
      if id < r.end {
        assert SentSlot(At(r, id), id, wire, rcv);
      }
    }
  }

  lemma AdvanceKeeps(r: Ring, now: nat, wire: set<Packet>, log: Log, accepted: seq<byte>, rcv: Ring)
    requires SenderInv(r, wire, log, accepted, rcv) && !Last(r).isSent
    requires 0 < Last(r).packet.size && r.end + 1 < r.bgn + |r.wnd|
    requires r.end + 1 + |r.wnd| < INVALID_ID
    ensures var p := SealedLast(r, now);
      && SenderInv(Advance(r, now), wire + {p}, Logged(log, [p]), accepted, rcv)
      && !Last(Advance(r, now)).isSent
  {
    hide Sound;
    hide SealLast;
    hide SealedLast;
    hide Advance;
    hide WireInv;
    var r', p := Advance(r, now), SealedLast(r, now);
    SealEffect(r, now);
    AdvanceEffect(r, now);
    LogSealed(r, now, wire, log, accepted);
    assert r'.wnd[0] == At(r', r.bgn) && r.wnd[0] == At(r, r.bgn);
    assert SlotsInv(r', wire + {p}, log + [Carried(p)], rcv) by {
      SentStay(r, r', r.end + 1, wire, log, p, rcv);
    }
    assert Flatten(log + [Carried(p)]) + [] == accepted;
  }

  /** A window handed over without a number changes nothing that matters. */
  lemma UnsealedKeeps(r: Ring, wire: set<Packet>, log: Log, accepted: seq<byte>, rcv: Ring)
    requires SenderInv(r, wire, log, accepted, rcv) && !Last(r).isSent
    ensures var p := Last(r).packet;
      SenderInv(r, wire + {p}, Logged(log, [p]), accepted, rcv)
  {
    hide Sound;
    hide Seal;
    var p := Last(r).packet;
    LoggedOld(log, [p]);
  }

  lemma FillOnceKeeps(r: Ring, bytes: seq<byte>, now: nat, nowMs: nat,
                      wire: set<Packet>, log: Log, accepted: seq<byte>, rcv: Ring)
    requires SenderInv(r, wire, log, accepted, rcv) && !Last(r).isSent && |bytes| <= Room(r)
    requires var e := FillOnce(r, bytes, now, nowMs).0.end; e + |r.wnd| < INVALID_ID
    ensures var (r', out) := FillOnce(r, bytes, now, nowMs);
      && SenderInv(r', Wired(wire, out), Logged(log, out), accepted + bytes, rcv)
      && !Last(r').isSent
  {
    hide Sound;
    hide Seal;
    var (r', out) := FillOnce(r, bytes, now, nowMs);
    var full := Append(r, bytes, nowMs);
    AppendKeeps(r, bytes, nowMs, wire, log, accepted, rcv);
    if Last(full).packet.size != r.payload {
      assert Wired(wire, out) == wire;
    } else {
      assert out == [out[0]];
      assert Wired(wire, out) == wire + {out[0]};
      if Count(full) < |r.wnd| {
        AdvanceKeeps(full, now, wire, log, accepted + bytes, rcv);
      } else {
        UnsealedKeeps(full, wire, log, accepted + bytes, rcv);
      }
    }
  }

  lemma WiredNone(wire: set<Packet>)
    ensures Wired(wire, []) == wire
  {
  }

  lemma WiredConcat(wire: set<Packet>, x: seq<Packet>, y: seq<Packet>)
    ensures Wired(wire, x + y) == Wired(Wired(wire, x), y)
  {
    hide Sound;
    hide Seal;
  }

  lemma {:induction false} FillKeeps(r: Ring, bytes: seq<byte>, now: nat, nowMs: nat,
                                     wire: set<Packet>, log: Log, accepted: seq<byte>, rcv: Ring)
    requires SenderInv(r, wire, log, accepted, rcv) && !Last(r).isSent
    requires bytes != [] ==> Count(r) < |r.wnd| && |bytes| <= r.payload
    requires Fill(r, bytes, now, nowMs).0.end + |r.wnd| < INVALID_ID
    ensures var (r', out) := Fill(r, bytes, now, nowMs);
      && SenderInv(r', Wired(wire, out), Logged(log, out), accepted + bytes, rcv)
      && !Last(r').isSent
    decreases |bytes|, Last(r).packet.size
  {
    hide SenderInv;
    hide FillOnce;
    hide Wired;
    if bytes == [] {
      assert accepted + bytes == accepted;
      WiredNone(wire);
    } else {
      var n := Min(|bytes|, Room(r));
      var (r1, out1) := FillOnce(r, bytes[..n], now, nowMs);
      FillLeavesRoom(r, bytes, n, now, nowMs);
      var (r2, out2) := Fill(r1, bytes[n..], now, nowMs);
      FillOnceKeeps(r, bytes[..n], now, nowMs, wire, log, accepted, rcv);
      FillKeeps(r1, bytes[n..], now, nowMs, Wired(wire, out1), Logged(log, out1), accepted + bytes[..n], rcv);
      WiredConcat(wire, out1, out2);
      LoggedConcat(log, out1, out2);
      assert accepted + bytes[..n] + bytes[n..] == accepted + bytes;
    }
  }

  lemma WriteKeeps(r: Ring, bytes: seq<byte>, now: nat, nowMs: nat,
                   wire: set<Packet>, log: Log, accepted: seq<byte>, rcv: Ring)
    requires SenderInv(r, wire, log, accepted, rcv) && |bytes| <= r.payload
    requires Write(r, bytes, now, nowMs).0.end + |r.wnd| < INVALID_ID
    ensures var (r', out, n) := Write(r, bytes, now, nowMs);
      SenderInv(r', Wired(wire, out), Logged(log, out), accepted + bytes[..n], rcv)
  {
    hide Sound;
    hide Seal;
    if Blocked(r) || bytes == [] {
      assert accepted + bytes[..0] == accepted;
      assert Wired(wire, []) == wire;
    } else {
      FillKeeps(r, bytes, now, nowMs, wire, log, accepted, rcv);
      assert bytes[..|bytes|] == bytes;
    }
  }

  // ------------------------------------------------------------------ sending half: timers

  lemma StaleKeeps(r: Ring, nowMs: nat, sealUs: nat,
                   wire: set<Packet>, log: Log, accepted: seq<byte>, rcv: Ring)
    requires SenderInv(r, wire, log, accepted, rcv)
    ensures var (r', out) := SendStale(r, nowMs, sealUs);
      SenderInv(r', Wired(wire, out), Logged(log, out), accepted, rcv)
  {
    hide Sound;
    hide SealLast;
    hide WireInv;
    var (r', out) := SendStale(r, nowMs, sealUs);
    if HasIncomplete(r) && nowMs > r.updateTime + FLUSH_TIMEOUT_MS {
      var p := Last(r').packet;
      assert out == [p];
      assert Wired(wire, out) == wire + {p};
      if Last(r).isSent {
        assert SentSlot(At(r, r.end), r.end, wire, rcv);
        assert wire + {p} == wire;
        LoggedOld(log, [p]);
      } else {
        SealKeeps(r, sealUs, wire, log, accepted, rcv);
      }
    } else {
      WiredNone(wire);
    }
  }

  /** What `Unacked` lists: the packet of each expired window, and nothing else. */
  lemma {:induction false} UnackedExactly(r: Ring, from: nat, now: nat, delay: nat, p: Packet)
    requires r.bgn <= from <= r.end
    ensures p in Unacked(r, from, now, delay)
       <==> exists id :: from <= id < r.end && p == At(r, id).packet
                         && !At(r, id).isAcked && At(r, id).sentTime + delay <= now
    decreases r.end - from
  {
    if from < r.end {
      UnackedExactly(r, from + 1, now, delay, p);
      if Expired(At(r, from), now, delay) && p == At(r, from).packet {
        assert p in Unacked(r, from, now, delay);
      }
    }
  }

  /** Retransmissions were on the wire before. */
  lemma ResendKeeps(r: Ring, now: nat, delay: nat, wire: set<Packet>, log: Log, accepted: seq<byte>, rcv: Ring)
    requires SenderInv(r, wire, log, accepted, rcv)
    ensures var out := Unacked(r, r.bgn, now, delay);
      Wired(wire, out) == wire && Logged(log, out) == log
  {
    hide Sound;
    hide WireInv;
    var out := Unacked(r, r.bgn, now, delay);
    forall p | p in out
      ensures p in wire && p.id < |log|
    {
      UnackedExactly(r, r.bgn, now, delay, p);
      var id :| r.bgn <= id < r.end && p == At(r, id).packet;
      assert SentSlot(At(r, id), id, wire, rcv);
    }
    LoggedOld(log, out);
  }

  lemma TickKeeps(e: Endpoint, now: nat, nowMs: nat, sealUs: nat,
                  wire: set<Packet>, log: Log, accepted: seq<byte>, rcv: Ring)
    requires SenderInv(e.snd, wire, log, accepted, rcv)
    ensures var (e', out) := SendUnacked(e, now, nowMs, sealUs);
      SenderInv(e'.snd, Wired(wire, out), Logged(log, out), accepted, rcv)
  {
    hide SenderInv;
    hide SendStale;
    hide Unacked;
    hide Wired;
    var first := Unacked(e.snd, e.snd.bgn, now, e.delay);
    var stale := SendStale(e.snd, nowMs, sealUs);
    ResendKeeps(e.snd, now, e.delay, wire, log, accepted, rcv);
    StaleKeeps(e.snd, nowMs, sealUs, wire, log, accepted, rcv);
    WiredConcat(wire, first, stale.1);
    LoggedConcat(log, first, stale.1);
  }

  /** Acknowledgements on the wire do not concern the sending half. */
  lemma AcksKeep(r: Ring, out: seq<Packet>, wire: set<Packet>, log: Log, accepted: seq<byte>, rcv: Ring)
    requires SenderInv(r, wire, log, accepted, rcv)
    requires forall p :: p in out ==> p.kind.Ack? && |p.data| == r.payload
    ensures SenderInv(r, Wired(wire, out), Logged(log, out), accepted, rcv)
  {
    hide Sound;
    LoggedOld(log, out);
  }

  // ------------------------------------------------------------------ sending half: acknowledgements

  /** `remove_acked` stops exactly where the done prefix ends. */
  lemma {:induction false} DonePrefixMaximal(ws: seq<Window>)
    ensures var n := DonePrefix(ws);
      && (forall i :: 0 <= i < n ==> Done(ws[i]))
      && (n < |ws| ==> !Done(ws[n]))
  {
    if ws != [] && Done(ws[0]) {
      var rest := ws[1..];
      DonePrefixMaximal(rest);
      forall i | 0 <= i < DonePrefix(ws)
        ensures Done(ws[i])
      {
        if i > 0 {
          assert ws[i] == rest[i - 1];
        }
      }
    }
  }

  /** Removal shifts the window and changes nothing that stays in it. */
  lemma RemoveEffect(r: Ring, n: nat)
    requires n <= |r.wnd|
    ensures var r' := RemoveN(r, n);
      && (forall id :: r.bgn + n <= id < r.bgn + |r.wnd| ==> At(r', id) == At(r, id))
      && (forall id :: r.bgn + |r.wnd| <= id < r.bgn + |r.wnd| + n ==> At(r', id) == At(r, id - |r.wnd|).Clear())
  {
  }

  /** The done prefix covers sealed windows only, so it never runs past the log. */
  lemma DoneWithinLog(r: Ring, wire: set<Packet>, log: Log, rcv: Ring)
    requires SlotsInv(r, wire, log, rcv)
    ensures r.bgn + DonePrefix(r.wnd) <= |log|
  {
    var n := DonePrefix(r.wnd);
    DonePrefixMaximal(r.wnd);
    if |log| < r.bgn + |r.wnd| {
      assert UnsentSlot(At(r, |log|));
      assert !Done(r.wnd[|log| - r.bgn]);
    }
  }

  lemma MarkKeepsSlots(r: Ring, id: nat, wire: set<Packet>, log: Log, rcv: Ring)
    requires SlotsInv(r, wire, log, rcv) && r.bgn <= id < |log| && Contains(r, id) && Received(rcv, id)
    ensures SlotsInv(MarkAcked(r, id), wire, log, rcv)
    ensures Tail(MarkAcked(r, id)) == Tail(r)
  {
    var m := MarkAcked(r, id);
    forall k | r.bgn <= k < r.bgn + |r.wnd|
      ensures At(m, k) == if k == id then At(r, k).(isAcked := true) else At(r, k)
    {
    }
    assert forall k :: r.bgn <= k < |log| ==> SentSlot(At(r, k), k, wire, rcv);
  }

  lemma RemoveKeepsSlots(r: Ring, n: nat, wire: set<Packet>, log: Log, rcv: Ring)
    requires SlotsInv(r, wire, log, rcv) && n <= |r.wnd| && r.bgn + n <= |log|
    requires forall i :: 0 <= i < n ==> Done(r.wnd[i])
    ensures SlotsInv(RemoveN(r, n), wire, log, rcv)
    ensures Tail(RemoveN(r, n)) == Tail(r)
  {
    var r' := RemoveN(r, n);
    RemoveEffect(r, n);
    forall id | r.bgn <= id < r.bgn + n
      ensures Received(rcv, id)
    {
      assert SentSlot(At(r, id), id, wire, rcv);
      assert Done(r.wnd[id - r.bgn]);
    }
    if r.bgn + n <= r.end {
      assert Last(r') == Last(r);
    } else {
      assert Last(r).isSent;
      assert !Last(r').isSent && Last(r').packet.size == 0 by {
        if n < |r.wnd| {
          assert UnsentSlot(At(r, r.end + 1));
        }
      }
      assert Tail(r') == [];
    }
  }

  lemma AckKeeps(r: Ring, id: nat, wire: set<Packet>, log: Log, accepted: seq<byte>, rcv: Ring)
    requires SenderInv(r, wire, log, accepted, rcv)
    requires r.bgn <= id < |log| && Contains(r, id) && Received(rcv, id)
    requires AckId(r, id).end + |r.wnd| < INVALID_ID
    ensures SenderInv(AckId(r, id), wire, log, accepted, rcv)
  {
    hide WireInv;
    hide Tail;
    hide SlotsInv;
    var m := MarkAcked(r, id);
    MarkKeepsSlots(r, id, wire, log, rcv);
    if id == r.bgn {
      var n := DonePrefix(m.wnd);
      DonePrefixMaximal(m.wnd);
      DoneWithinLog(m, wire, log, rcv);
      RemoveKeepsSlots(m, n, wire, log, rcv);
      RemoveEffect(m, n);
    }
  }
}
