/** The promises of the transport, for every run: in-order delivery without loss or
    repetition, truthful acknowledgements, stable retransmission, and what a completed
    flush means. */
module Delivery {
  import opened Bytes
  import opened Seqs
  import opened Frame
  import opened Packets
  import opened WindowRing
  import opened Protocol
  import opened Invariant
  import opened Safety

  // ------------------------------------------------------------------ delivery

  /** What one end has read is a prefix of what the other end's send call accepted. */
  lemma ExactlyOnceInOrder(w: World, evs: seq<Event>)
    requires Initial(w) && IsRun(w, evs)
    ensures After(w, evs).b.read <= After(w, evs).a.accepted
    ensures After(w, evs).a.read <= After(w, evs).b.accepted
  {
    hide Inv;
    Reachable(w, evs);
    var v := After(w, evs);
    ReadIsPrefix(v.a, v.b);
    ReadIsPrefix(v.b, v.a);
  }

  lemma Reachable(w: World, evs: seq<Event>)
    requires Initial(w) && IsRun(w, evs)
    ensures var v := After(w, evs); Inv(v) && LinkInv(v.a, v.b) && LinkInv(v.b, v.a)
  {
    hide LinkInv;
    hide NoWrap;
    InitialInv(w);
    RunKeepsInv(w, evs);
  }

  /** The octets that can be read at once, were the cursor at the start. */
  function Backlog(ws: seq<Window>): seq<byte> {
    if ws == [] || !Done(ws[0]) then [] else Carried(ws[0].packet) + Backlog(ws[1..])
  }

  /** The octets stored in order and not yet handed over. */
  function Pending(r: Ring): seq<byte> {
    var all := Backlog(r.wnd);
    all[Min(r.stored, |all|)..]
  }

  /** The stored windows in front are the next entries of the log. */
  lemma {:induction false} BacklogIsLogged(r: Ring, i: nat, wire: set<Packet>, log: Log, read: seq<byte>)
    requires ReceiverInv(r, wire, log, read) && WireInv(wire, log, r.payload) && i <= |r.wnd|
    ensures var n := r.bgn + i + DonePrefix(r.wnd[i..]);
      && n <= Max(|log|, r.bgn + i)
      && (r.bgn + i <= |log| ==> Backlog(r.wnd[i..]) == Flatten(log[r.bgn + i..n]))
    decreases |r.wnd| - i
  {
    hide ReceiverInv;
    hide WireInv;
    var ws := r.wnd[i..];
    if ws != [] && Done(ws[0]) {
      var id := r.bgn + i;
      DoneIsLogged(r, i, wire, log, read);
      assert ws[1..] == r.wnd[i + 1..];
      BacklogIsLogged(r, i + 1, wire, log, read);
      var n := id + DonePrefix(ws);
      assert log[id..n] == [log[id]] + log[id + 1..n];
    } else if r.bgn + i <= |log| {
      assert log[r.bgn + i..r.bgn + i] == [];
    }
  }

  /** A stored window holds what the log says under its id. */
  lemma DoneIsLogged(r: Ring, i: nat, wire: set<Packet>, log: Log, read: seq<byte>)
    requires ReceiverInv(r, wire, log, read) && WireInv(wire, log, r.payload) && i < |r.wnd| && Done(r.wnd[i])
    ensures r.bgn + i < |log| && Carried(r.wnd[i].packet) == log[r.bgn + i]
  {
    hide Sound;
    var id := r.bgn + i;
    assert r.wnd[i] == At(r, id);
    assert StoredSlot(At(r, id), id, wire);
    assert Genuine(At(r, id).packet, log);
  }

  /** What was read and what is stored in order are, together, the log so far. */
  lemma ReadAndPending(r: Ring, wire: set<Packet>, log: Log, read: seq<byte>)
    requires ReceiverInv(r, wire, log, read) && WireInv(wire, log, r.payload)
    ensures var n := r.bgn + DonePrefix(r.wnd);
      n <= |log| && read + Pending(r) == Flatten(log[..n])
  {
    hide WireInv, ReceiverInv, Flatten, Begun, Pending, Backlog, DonePrefix;
    assert r.wnd[0..] == r.wnd;
    ReadIsBegun(r, wire, log, read);
    BacklogIsLogged(r, 0, wire, log, read);
    var n := r.bgn + DonePrefix(r.wnd);
    assert log[..n][..r.bgn] == log[..r.bgn] && log[..n][r.bgn..] == log[r.bgn..n];
    FlattenPrefix(log[..n], r.bgn);
    BegunAndPending(r);
    assert Flatten(log[..r.bgn]) + Begun(r) + Pending(r) == Flatten(log[..r.bgn]) + (Begun(r) + Pending(r));
  }

  /** What the cursor has passed and what is pending are all that is stored in order. */
  lemma BegunAndPending(r: Ring)
    requires r.stored == 0 || (IsFirstAcked(r) && r.stored < r.wnd[0].packet.size)
    ensures Begun(r) + Pending(r) == Backlog(r.wnd)
  {
    var all := Backlog(r.wnd);
    if IsFirstAcked(r) {
      var bytes := Carried(r.wnd[0].packet);
      assert all == bytes + Backlog(r.wnd[1..]);
      assert Begun(r) == all[..Min(r.stored, |all|)];
    } else {
      assert Begun(r) == [] && all == [];
    }
  }

  lemma ReadIsBegun(r: Ring, wire: set<Packet>, log: Log, read: seq<byte>)
    requires ReceiverInv(r, wire, log, read)
    ensures r.bgn <= |log| && read == Flatten(log[..r.bgn]) + Begun(r)
    ensures r.stored == 0 || (IsFirstAcked(r) && r.stored < r.wnd[0].packet.size)
  {
    hide StoredSlot;
    hide Flatten;
  }

  lemma ReadIsPrefix(x: Side, y: Side)
    requires LinkInv(x, y)
    ensures y.read + Pending(y.ep.rcv) <= x.accepted && y.read <= x.accepted
  {
    hide SenderInv;
    hide ReceiverInv;
    hide WireInv;
    hide Pending;
    SenderSendsData(x, y);
    ReadAndPending(y.ep.rcv, x.wire, x.log, y.read);
    var n := y.ep.rcv.bgn + DonePrefix(y.ep.rcv.wnd);
    FlattenPrefix(x.log, n);
    assert x.accepted == Flatten(x.log) + Tail(x.ep.snd) by { AcceptedIsLogAndTail(x, y); }
    assert y.read + Pending(y.ep.rcv) + Flatten(x.log[n..]) + Tail(x.ep.snd) == x.accepted;
  }

  lemma AcceptedIsLogAndTail(x: Side, y: Side)
    requires LinkInv(x, y)
    ensures x.accepted == Flatten(x.log) + Tail(x.ep.snd)
  {
    hide Sound;
    hide WireInv;
  }

  // ------------------------------------------------------------------ flush

  /** No numbered window outstanding: the peer has stored all of them, in order. */
  lemma AllNumberedStored(x: Side, y: Side)
    requires LinkInv(x, y) && |x.log| == x.ep.snd.bgn
    ensures forall id :: 0 <= id < |x.log| ==> Received(y.ep.rcv, id)
    ensures y.read + Pending(y.ep.rcv) == Flatten(x.log)
  {
    hide Sound;
    hide Pending;
    hide WireInv;
    hide StoredSlot;
    var s := y.ep.rcv;
    SenderSendsData(x, y);
    ReadAndPending(s, x.wire, x.log, y.read);
    var n := DonePrefix(s.wnd);
    DonePrefixMaximal(s.wnd);
    assert n < |s.wnd| ==> At(s, s.bgn + n).isAcked && At(s, s.bgn + n) == s.wnd[n];
    assert n < |s.wnd| ==> !Received(s, s.bgn + n);
    assert |x.log| > 0 ==> Received(s, |x.log| - 1);
    assert s.bgn + n == |x.log|;
    assert x.log[..|x.log|] == x.log;
  }

  /** An empty sending half: everything accepted is stored by the peer, in order. */
  lemma EmptySenderMeansStored(x: Side, y: Side)
    requires LinkInv(x, y) && IsEmpty(x.ep.snd)
    ensures forall id :: 0 <= id < |x.log| ==> Received(y.ep.rcv, id)
    ensures y.read + Pending(y.ep.rcv) == x.accepted
  {
    hide Sound;
    hide Pending;
    hide WireInv;
    hide StoredSlot;
    assert !Last(x.ep.snd).isSent && Tail(x.ep.snd) == [];
    AllNumberedStored(x, y);
  }

  /** An empty receiving half has nothing to hand over. */
  lemma EmptyReceiverReadsNothing(r: Ring, n: nat, wire: set<Packet>, log: Log, read: seq<byte>)
    requires ReceiverInv(r, wire, log, read) && IsEmpty(r) && WireInv(wire, log, r.payload) && Sized(log, r.payload)
    ensures Pending(r) == [] && Read(r, n) == (r, [])
  {
    hide Sound;
    assert r.wnd[0] == At(r, r.bgn);
    if IsFirstAcked(r) {
      FirstIsLogged(r, wire, log, read);
    }
  }

  /** `mc_comm_flush` returns true exactly when both pools of its end are empty. In any
      run this means that the peer has stored every octet ever accepted here, and that no
      octet that arrived in order is still waiting here. */
  lemma FlushMeaning(w: World, evs: seq<Event>)
    requires Initial(w) && IsRun(w, evs)
    requires var a := After(w, evs).a.ep; IsEmpty(a.snd) && IsEmpty(a.rcv)
    ensures var v := After(w, evs);
      && v.b.read + Pending(v.b.ep.rcv) == v.a.accepted
      && Pending(v.a.ep.rcv) == []
  {
    hide Inv;
    hide SenderInv;
    hide ReceiverInv;
    hide WireInv;
    hide Pending;
    Reachable(w, evs);
    var v := After(w, evs);
    EmptySenderMeansStored(v.a, v.b);
    SenderSendsData(v.b, v.a);
    LogIsSized(v.b, v.a);
    EmptyReceiverReadsNothing(v.a.ep.rcv, 1, v.b.wire, v.b.log, v.a.read);
  }

  lemma LogIsSized(x: Side, y: Side)
    requires LinkInv(x, y)
    ensures Sized(x.log, x.ep.snd.payload)
  {
    hide Sound;
    hide WireInv;
    hide SlotsInv;
  }

  // ------------------------------------------------------------------ acknowledgements

  /** In every run, an acknowledgement on the wire, a window marked acknowledged and an id
      dropped by the sender all name packets that the receiver has; whatever happens next,
      it keeps them. No sender window in front is acknowledged and yet not removed. */
  lemma AckSoundness(w: World, evs: seq<Event>, more: seq<Event>)
    requires Initial(w) && IsRun(w, evs) && IsRun(After(w, evs), more)
    ensures var v, u := After(w, evs), After(After(w, evs), more);
      AcksTrue(v.a.ep.snd, v.b.wire, u.b.ep.rcv) && !IsFirstAcked(v.a.ep.snd)
  {
    hide LinkInv;
    hide NoWrap;
    hide AcksTrue;
    Reachable(w, evs);
    var v := After(w, evs);
    var u := After(v, more);
    AcksTrueNow(v.a, v.b);
    RunKeepsInv(v, more);
    AcksStayTrue(v.a.ep.snd, v.b.wire, v.b.ep.rcv, u.b.ep.rcv);
  }

  ghost predicate AcksTrue(snd: Ring, back: set<Packet>, rcv: Ring) {
    && (forall p :: p in back && IsAck(p) ==> Received(rcv, p.id))
    && (forall id :: 0 <= id < snd.bgn ==> Received(rcv, id))
    && (forall id :: Contains(snd, id) && Done(At(snd, id)) ==> Received(rcv, id))
  }

  lemma AcksStayTrue(snd: Ring, back: set<Packet>, rcv: Ring, rcv': Ring)
    requires AcksTrue(snd, back, rcv) && KeepsReceived(rcv, rcv')
    ensures AcksTrue(snd, back, rcv')
  {
  }

  lemma AcksTrueNow(x: Side, y: Side)
    requires LinkInv(x, y)
    ensures AcksTrue(x.ep.snd, y.wire, y.ep.rcv) && !IsFirstAcked(x.ep.snd)
  {
    hide Sound;
    hide WireInv;
    var r := x.ep.snd;
    forall id: nat | Contains(r, id) && Done(At(r, id))
      ensures Received(y.ep.rcv, id)
    {
      assert id >= |x.log| ==> UnsentSlot(At(r, id));
      assert id < |x.log| ==> SentSlot(At(r, id), id, x.wire, y.ep.rcv);
    }
  }

  /** Whatever id an acknowledgement names, genuine or not, removal takes exactly the
      done prefix, never a window that was not numbered, and leaves the rest alone. */
  lemma AckRemovesExactly(x: Side, y: Side, id: nat)
    requires LinkInv(x, y) && Contains(x.ep.snd, id)
    ensures var r, m, r' := x.ep.snd, MarkAcked(x.ep.snd, id), AckId(x.ep.snd, id);
      && r.bgn <= r'.bgn <= |x.log|
      && (forall k :: r.bgn <= k < r'.bgn ==> Done(At(m, k)))
      && (forall k :: r'.bgn <= k < r.bgn + |r.wnd| ==> At(r', k) == At(m, k))
      && !(id == r.bgn && IsFirstAcked(r'))
      && Tail(r') == Tail(r)
  {
    hide Sound;
    hide WireInv;
    var r, m := x.ep.snd, MarkAcked(x.ep.snd, id);
    ForgedMarkKeeps(x, y, id);
    if id == r.bgn {
      var n := DonePrefix(m.wnd);
      DonePrefixMaximal(m.wnd);
      RemoveEffect(m, n);
      if n < |m.wnd| {
        assert RemoveN(m, n).wnd[0] == m.wnd[n];
      }
      RemovalKeepsTail(x, m, n);
    }
  }

  lemma ForgedMarkKeeps(x: Side, y: Side, id: nat)
    requires LinkInv(x, y) && Contains(x.ep.snd, id)
    ensures var r, m := x.ep.snd, MarkAcked(x.ep.snd, id);
      && (forall k :: |x.log| <= k < r.bgn + |r.wnd| ==> At(m, k) == At(r, k) && UnsentSlot(At(m, k)))
      && r.bgn + DonePrefix(m.wnd) <= |x.log| && Tail(m) == Tail(r) && Last(m).isSent == Last(r).isSent
      && |x.log| == r.end + (if Last(r).isSent then 1 else 0)
  {
    hide Sound;
    hide WireInv;
    var r, m := x.ep.snd, MarkAcked(x.ep.snd, id);
    forall k | |x.log| <= k < r.bgn + |r.wnd|
      ensures At(m, k) == At(r, k) && UnsentSlot(At(m, k))
    {
      assert UnsentSlot(At(r, k));
    }
    DonePrefixMaximal(m.wnd);
    if |x.log| < r.bgn + |r.wnd| {
      assert UnsentSlot(At(m, |x.log|));
      assert !Done(m.wnd[|x.log| - r.bgn]);
    }
  }

  lemma RemovalKeepsTail(x: Side, m: Ring, n: nat)
    requires n <= |m.wnd| && m.bgn + n <= |x.log| && |x.log| == m.end + (if Last(m).isSent then 1 else 0)
    requires forall k :: |x.log| <= k < m.bgn + |m.wnd| ==> UnsentSlot(At(m, k))
    requires forall id :: m.end < id < m.bgn + |m.wnd| ==> At(m, id).packet.size == 0
    ensures Tail(RemoveN(m, n)) == Tail(m)
  {
    var r' := RemoveN(m, n);
    RemoveEffect(m, n);
    if m.bgn + n <= m.end {
      assert Last(r') == Last(m);
    } else {
      assert !Last(r').isSent && Last(r').packet.size == 0;
    }
  }

  // ------------------------------------------------------------------ transmissions

  /** Whenever an id is transmitted, first or again, in one step or in different ones, it
      is the same packet, and it passes the peer's check. */
  lemma RetransmissionStable(w: World, evs: seq<Event>, p: Packet, q: Packet)
    requires Initial(w) && IsRun(w, evs)
    requires p in After(w, evs).a.wire && q in After(w, evs).a.wire
    requires p.kind.Data? && q.kind.Data? && p.id == q.id && p.id != INVALID_ID
    ensures p == q && Genuine(p, After(w, evs).a.log)
  {
    hide Sound;
    Reachable(w, evs);
  }

  /** `protocol_send_unacked` resends in order of ids, each at most once. */
  lemma {:induction false} UnackedInOrder(r: Ring, from: nat, now: nat, delay: nat,
                                          wire: set<Packet>, log: Log, rcv: Ring)
    requires r.bgn <= from <= r.end && SlotsInv(r, wire, log, rcv)
    ensures var out := Unacked(r, from, now, delay);
      && (forall p :: p in out ==> from <= p.id < r.end)
      && (forall i, j :: 0 <= i < j < |out| ==> out[i].id < out[j].id)
    decreases r.end - from
  {
    if from < r.end {
      UnackedInOrder(r, from + 1, now, delay, wire, log, rcv);
      assert SentSlot(At(r, from), from, wire, rcv);
    }
  }

  /** A genuine packet that was received before changes nothing but earns a new, sound
      acknowledgement. */
  lemma DuplicateIgnored(x: Side, y: Side, p: Packet, now: nat)
    requires LinkInv(x, y) && p in x.wire && p.kind.Data? && Received(y.ep.rcv, p.id)
    ensures |p.data| == y.ep.rcv.payload
    ensures var (e', out) := Receive(y.ep, p, now);
      && e'.rcv == y.ep.rcv && e'.snd == y.ep.snd && e'.delay == y.ep.delay
      && |out| == 1 && out[0].kind.Ack? && out[0].id == p.id && Sound(out[0])
  {
    hide SenderInv;
    hide Sound;
    hide Seal;
    SenderSendsData(x, y);
    SealedSound(y.ep.ackBuf.(header := HEADER, kind := Ack, id := p.id));
    if p.id >= y.ep.rcv.bgn {
      StoreKeeps(y.ep.rcv, p, x.wire, x.log, y.read);
    }
  }

  // ------------------------------------------------------------------ writing

  /** A segment is refused, and nothing changes, or it is taken whole, and the numbered
      windows followed by the open one grow by exactly its octets. */
  lemma WriteAllOrNothing(x: Side, y: Side, bytes: seq<byte>, now: nat, nowMs: nat)
    requires LinkInv(x, y) && |bytes| <= x.ep.snd.payload
    requires Write(x.ep.snd, bytes, now, nowMs).0.end + |x.ep.snd.wnd| < INVALID_ID
    ensures var (r', out, n) := Write(x.ep.snd, bytes, now, nowMs);
      var refused := bytes == [] || Count(x.ep.snd) == Capacity(x.ep.snd) || Last(x.ep.snd).isSent;
      && (refused ==> n == 0 && r' == x.ep.snd && out == [])
      && (!refused ==> n == |bytes| > 0)
      && Flatten(Logged(x.log, out)) + Tail(r') == Flatten(x.log) + Tail(x.ep.snd) + bytes[..n]
      && r'.end - r'.bgn <= Capacity(r') - 1 && Count(r') <= Capacity(r')
  {
    hide Sound;
    hide WireInv;
    hide Fill;
    WriteKeeps(x.ep.snd, bytes, now, nowMs, x.wire, x.log, x.accepted, y.ep.rcv);
    assert bytes[..|bytes|] == bytes;
  }
}
