/** What becomes of a numbered window: an acknowledgement is remembered, and nothing is sent
    again before its time (src/io/communication/mc_protocol.c:31-45, 57-68, 87-103). */
module Resending {
  import opened Bytes
  import opened Seqs
  import opened Frame
  import opened Packets
  import opened WindowRing
  import opened Protocol
  import opened Invariant
  import opened Safety
  import opened Delivery
  import opened Liveness
  import opened Completion

  // ------------------------------------------------------------------ what a step leaves alone

  /** Slot `id` is as it was, unless it has been acknowledged meanwhile; an acknowledgement
      it had, it still has. */
  predicate Stays(r: Ring, r': Ring, id: nat)
    requires Contains(r, id)
  {
    id < r'.bgn || (
      && Contains(r', id)
      && At(r', id) == At(r, id).(isAcked := At(r', id).isAcked)
      && (At(r, id).isAcked ==> At(r', id).isAcked))
  }

  lemma FillOnceStays(r: Ring, bytes: seq<byte>, now: nat, nowMs: nat)
    requires |bytes| <= Room(r) && r.end < INVALID_ID
    ensures var r' := FillOnce(r, bytes, now, nowMs).0;
      && (forall id :: r.bgn <= id < r.end ==> At(r', id) == At(r, id))
      && (forall id :: r.end <= id < r'.end ==> At(r', id).sentTime == now)
  {
    hide Append, Advance, SealLast, SealedLast;
    var full := Append(r, bytes, nowMs);
    AppendEffect(r, bytes, nowMs);
    if full.end + 1 < full.bgn + |full.wnd| {
      AdvanceStays(full, now);
    }
  }

  lemma AdvanceStays(r: Ring, now: nat)
    requires r.end < INVALID_ID && r.end + 1 < r.bgn + |r.wnd|
    ensures var r' := Advance(r, now);
      && r'.bgn == r.bgn && r'.end == r.end + 1 && |r'.wnd| == |r.wnd|
      && (forall id :: r.bgn <= id < r.end ==> At(r', id) == At(r, id))
      && At(r', r.end).sentTime == now
  {
    hide SealLast, Advance, Sound;
    AdvanceEffect(r, now);
    SealTime(r, now);
  }

  /** Writing touches no numbered window, and numbers each new one at the present time. */
  lemma {:induction false} FillStays(r: Ring, bytes: seq<byte>, now: nat, nowMs: nat)
    requires bytes != [] ==> Count(r) < |r.wnd| && |bytes| <= r.payload
    requires Fill(r, bytes, now, nowMs).0.end < INVALID_ID
    ensures var r' := Fill(r, bytes, now, nowMs).0;
      && (forall id :: r.bgn <= id < r.end ==> At(r', id) == At(r, id))
      && (forall id :: r.end <= id < r'.end ==> At(r', id).sentTime == now)
    decreases |bytes|, Last(r).packet.size
  {
    hide FillOnce;
    if bytes != [] {
      var n := Min(|bytes|, Room(r));
      FillLeavesRoom(r, bytes, n, now, nowMs);
      FillOnceStays(r, bytes[..n], now, nowMs);
      FillStays(FillOnce(r, bytes[..n], now, nowMs).0, bytes[n..], now, nowMs);
    }
  }

  lemma AckStays(x: Side, y: Side, acked: nat, id: nat)
    requires LinkInv(x, y) && Contains(x.ep.snd, acked) && Contains(x.ep.snd, id)
    ensures Stays(x.ep.snd, AckId(x.ep.snd, acked), id)
  {
    hide LinkInv, RemoveN;
    var r, m, r' := x.ep.snd, MarkAcked(x.ep.snd, acked), AckId(x.ep.snd, acked);
    AckRemovesExactly(x, y, acked);
    assert At(m, id) == At(r, id) || At(m, id) == At(r, id).(isAcked := true);
    AckShape(r, acked);
  }

  lemma AckShape(r: Ring, acked: nat)
    requires Contains(r, acked)
    ensures |AckId(r, acked).wnd| == |r.wnd| && AckId(r, acked).bgn >= r.bgn
  {
  }

  lemma SendStays(x: Side, y: Side, bytes: seq<byte>, now: nat, nowMs: nat, id: nat)
    requires LinkInv(x, y) && |bytes| <= x.ep.snd.payload && Contains(x.ep.snd, id) && id < |x.log|
    requires Write(x.ep.snd, bytes, now, nowMs).0.end < INVALID_ID
    ensures Stays(x.ep.snd, Write(x.ep.snd, bytes, now, nowMs).0, id)
  {
    hide Fill, LinkInv;
    var r := x.ep.snd;
    NumberedBelow(x, y);
    if !Blocked(r) && bytes != [] {
      FillStays(r, bytes, now, nowMs);
    }
  }

  lemma NumberedBelow(x: Side, y: Side)
    requires LinkInv(x, y)
    ensures |x.log| == x.ep.snd.end + (if Last(x.ep.snd).isSent then 1 else 0) && x.ep.snd.bgn <= |x.log|
    ensures forall id :: x.ep.snd.bgn <= id < |x.log| ==> Contains(x.ep.snd, id)
    ensures forall id :: x.ep.snd.bgn <= id < |x.log| ==> At(x.ep.snd, id).packet.id == id
  {
    hide Sound;
    hide WireInv;
    forall id | x.ep.snd.bgn <= id < |x.log|
      ensures At(x.ep.snd, id).packet.id == id
    {
      assert SentSlot(At(x.ep.snd, id), id, x.wire, y.ep.rcv);
    }
  }

  lemma TickStays(x: Side, y: Side, act: Action, id: nat)
    requires LinkInv(x, y) && act.Tick? && Contains(x.ep.snd, id) && id < |x.log|
    ensures Stays(x.ep.snd, SendUnacked(x.ep, act.now, act.nowMs, act.sealUs).0.snd, id)
  {
    hide Unacked, LinkInv, SendStale, Stays;
    var r := x.ep.snd;
    NumberedBelow(x, y);
    EndIsValid(x, y);
    StaleShape(r, act.nowMs, act.sealUs);
    NothingStays(r, id);
    if !Last(r).isSent {
      SealStays(r, act.sealUs, id);
    }
  }

  lemma StaleShape(r: Ring, nowMs: nat, sealUs: nat)
    ensures var r' := SendStale(r, nowMs, sealUs).0;
      r' == r || (!Last(r).isSent && r' == SealLast(r, sealUs))
  {
    hide SealLast;
  }

  lemma SealStays(r: Ring, sealUs: nat, id: nat)
    requires r.end < INVALID_ID && Contains(r, id) && id < r.end
    ensures Stays(r, SealLast(r, sealUs), id)
  {
    hide SealLast, Sound;
    SealEffect(r, sealUs);
  }

  lemma EndIsValid(x: Side, y: Side)
    requires LinkInv(x, y)
    ensures x.ep.snd.end + |x.ep.snd.wnd| < INVALID_ID
  {
  }

  lemma StepStays(w: World, ev: Event, id: nat)
    requires Inv(w) && CanStep(w, ev) && NoWrap(Next(w, ev))
    requires w.a.ep.snd.bgn <= id < |w.a.log|
    ensures Contains(w.a.ep.snd, id) && Stays(w.a.ep.snd, Next(w, ev).a.ep.snd, id)
  {
    hide LinkInv, Receive, SendUnacked, Write, Accepts, Encode, FromLe, Stays;
    InvLinks(w);
    NumberedBelow(w.a, w.b);
    if ev.B? {
      NothingStays(w.a.ep.snd, id);
    } else {
      AllowedEnabled(w.a.ep, w.b.wire, ev.act);
      match ev.act
      case Send(bytes, now, nowMs) => SendStays(w.a, w.b, bytes, now, nowMs, id);
      case Recv(n) => NothingStays(w.a.ep.snd, id);
      case Tick(now, nowMs, sealUs) => TickStays(w.a, w.b, ev.act, id);
      case Deliver(f, now) =>
        if Accepts(f) {
          ReceiveStays(w.a, w.b, Decode(f), now, id);
        } else {
          NothingStays(w.a.ep.snd, id);
        }
    }
  }

  lemma NothingStays(r: Ring, id: nat)
    requires Contains(r, id)
    ensures Stays(r, r, id)
  {
  }

  lemma ReceiveStays(x: Side, y: Side, p: Packet, now: nat, id: nat)
    requires LinkInv(x, y) && |p.data| == x.ep.rcv.payload && Contains(x.ep.snd, id)
    ensures Stays(x.ep.snd, Receive(x.ep, p, now).0.snd, id)
  {
    hide LinkInv, Stays, AckId, Seal;
    NothingStays(x.ep.snd, id);
    if p.kind.Ack? && Contains(x.ep.snd, p.id) {
      AckStays(x, y, p.id, id);
    }
  }

  lemma BgnOnly(w: World, ev: Event)
    requires Inv(w) && CanStep(w, ev)
    ensures Next(w, ev).a.ep.snd.bgn >= w.a.ep.snd.bgn && |Next(w, ev).a.log| >= |w.a.log|
  {
    hide LinkInv, Unacked, Fill, Accepts, Encode, FromLe, Seal, Logged, Wired, AckId;
    if ev.A? {
      AllowedEnabled(w.a.ep, w.b.wire, ev.act);
      LoggedGrows(w.a.log, Perform(w.a.ep, ev.act).out);
      if ev.act.Deliver? && Accepts(ev.act.f) {
        var p := Decode(ev.act.f);
        if p.kind.Ack? && Contains(w.a.ep.snd, p.id) {
          AckShape(w.a.ep.snd, p.id);
        }
      }
    }
  }

  /** Over a whole run: a numbered window stays what it is until it is dropped, but for the
      acknowledgement it gets and never loses. */
  lemma {:induction false} NumberedStays(w: World, evs: seq<Event>, id: nat)
    requires Inv(w) && IsRun(w, evs) && w.a.ep.snd.bgn <= id < |w.a.log|
    ensures Contains(w.a.ep.snd, id) && Stays(w.a.ep.snd, After(w, evs).a.ep.snd, id)
    ensures Inv(After(w, evs)) && id < |After(w, evs).a.log|
    decreases |evs|
  {
    hide Inv, NoWrap, CanStep, Next, Stays;
    InvLinks(w);
    NumberedBelow(w.a, w.b);
    if evs != [] {
      var v := Next(w, evs[0]);
      assert NoWrap(v);
      StepStays(w, evs[0], id);
      StepKeepsInv(w, evs[0]);
      BgnOnly(w, evs[0]);
      if id < v.a.ep.snd.bgn {
        DroppedStays(v, evs[1..], id);
        DroppedIsFine(w.a.ep.snd, After(v, evs[1..]).a.ep.snd, id);
      } else {
        NumberedStays(v, evs[1..], id);
        StaysOn(w.a.ep.snd, v.a.ep.snd, After(v, evs[1..]).a.ep.snd, id);
      }
    } else {
      NothingStays(w.a.ep.snd, id);
    }
  }

  lemma DroppedIsFine(r: Ring, r': Ring, id: nat)
    requires Contains(r, id) && id < r'.bgn
    ensures Stays(r, r', id)
  {
  }

  lemma StaysOn(r: Ring, r': Ring, r'': Ring, id: nat)
    requires Contains(r, id) && Stays(r, r', id) && r'.bgn <= id && Stays(r', r'', id)
    ensures Stays(r, r'', id)
  {
  }

  lemma {:induction false} DroppedStays(w: World, evs: seq<Event>, id: nat)
    requires Inv(w) && IsRun(w, evs) && id < w.a.ep.snd.bgn && id < |w.a.log|
    ensures id < After(w, evs).a.ep.snd.bgn && id < |After(w, evs).a.log| && Inv(After(w, evs))
    decreases |evs|
  {
    hide Inv, NoWrap, CanStep, Next;
    if evs != [] {
      assert NoWrap(Next(w, evs[0]));
      StepKeepsInv(w, evs[0]);
      BgnOnly(w, evs[0]);
      DroppedStays(Next(w, evs[0]), evs[1..], id);
    }
  }

  // ------------------------------------------------------------------ acknowledgements are remembered

  /** The sender knows that `id` has arrived. */
  predicate Remembered(r: Ring, id: nat) {
    id < r.bgn || (Contains(r, id) && At(r, id).isAcked)
  }

  /** An acknowledgement of any numbered window, the first or not, is remembered. */
  lemma AckIsRemembered(x: Side, y: Side, p: Packet, now: nat)
    requires LinkInv(x, y) && |p.data| == x.ep.rcv.payload && p.kind.Ack? && p.id < |x.log|
    ensures Remembered(Receive(x.ep, p, now).0.snd, p.id)
  {
    hide LinkInv;
    NumberedBelow(x, y);
    if Contains(x.ep.snd, p.id) {
      AckRemovesExactly(x, y, p.id);
      AckShape(x.ep.snd, p.id);
    }
  }

  /** What a timer step sends: the packets of exactly those outstanding ids that are not
      acknowledged and whose time plus the delay has come, and the last window if it is stale. */
  lemma TickExactly(x: Side, y: Side, now: nat, nowMs: nat, sealUs: nat, q: Packet)
    requires LinkInv(x, y)
    ensures var r, (e', out) := x.ep.snd, SendUnacked(x.ep, now, nowMs, sealUs);
      && (q in out && q.id < r.end
          <==> exists id :: r.bgn <= id < r.end && q == At(r, id).packet
                            && !At(r, id).isAcked && At(r, id).sentTime + x.ep.delay <= now)
      && (q in out && q.id >= r.end
          <==> q == Last(e'.snd).packet && 0 < Last(r).packet.size < r.payload && nowMs > r.updateTime + 250)
  {
    hide LinkInv, Unacked, SendStale;
    var r := x.ep.snd;
    NumberedBelow(x, y);
    EndIsValid(x, y);
    LastFits(x, y);
    UnackedExactly(r, r.bgn, now, x.ep.delay, q);
    StaleExactly(r, nowMs, sealUs);
  }

  lemma LastFits(x: Side, y: Side)
    requires LinkInv(x, y)
    ensures Last(x.ep.snd).packet.size <= x.ep.snd.payload
    ensures Last(x.ep.snd).isSent ==> Last(x.ep.snd).packet.id == x.ep.snd.end
  {
    hide LinkInv;
    NumberedBelow(x, y);
    assert Last(x.ep.snd) in x.ep.snd.wnd;
  }

  /** What a timer step takes from the outstanding range has not been acknowledged. */
  lemma ResentIsUnacked(x: Side, y: Side, now: nat, nowMs: nat, sealUs: nat, q: Packet)
    requires LinkInv(x, y) && q in SendUnacked(x.ep, now, nowMs, sealUs).1 && q.id < x.ep.snd.end
    ensures !Remembered(x.ep.snd, q.id) && x.ep.snd.bgn <= q.id
    ensures Contains(x.ep.snd, q.id) && At(x.ep.snd, q.id).sentTime + x.ep.delay <= now
  {
    hide LinkInv, SendUnacked;
    NumberedBelow(x, y);
    TickExactly(x, y, now, nowMs, sealUs, q);
  }

  /** In every run: once the acknowledgement of a numbered window has arrived, no timer step
      takes that window from the outstanding range again, whatever its clocks show. */
  lemma AckedNotResent(w: World, p: Packet, time: nat, evs: seq<Event>, now: nat, nowMs: nat, sealUs: nat, q: Packet)
    requires Inv(w) && CanStep(w, A(Deliver(Encode(p), time))) && IsRun(Next(w, A(Deliver(Encode(p), time))), evs)
    requires p.kind.Ack? && p.id < |w.a.log| && Sound(p) && |p.data| == w.a.ep.rcv.payload
    requires var e := After(Next(w, A(Deliver(Encode(p), time))), evs).a.ep;
      q in SendUnacked(e, now, nowMs, sealUs).1 && q.id < e.snd.end
    ensures q.id != p.id
  {
    hide Inv, LinkInv, NoWrap, CanStep, Next, IsRun, After, Encode, Sound, SendUnacked;
    var ev := A(Deliver(Encode(p), time));
    var v := Next(w, ev);
    RunStartsHere(v, evs);
    StepKeepsInv(w, ev);
    BgnOnly(w, ev);
    InvLinks(w);
    AckIsRemembered(w.a, w.b, p, time);
    DeliveredHere(w, p, time);
    if p.id < v.a.ep.snd.bgn {
      DroppedStays(v, evs, p.id);
    } else {
      NumberedStays(v, evs, p.id);
    }
    var u := After(v, evs);
    InvLinks(u);
    ResentIsUnacked(u.a, u.b, now, nowMs, sealUs, q);
  }

  lemma RunStartsHere(w: World, evs: seq<Event>)
    requires IsRun(w, evs)
    ensures NoWrap(w)
  {
  }

  lemma DeliveredHere(w: World, p: Packet, time: nat)
    requires CanStep(w, A(Deliver(Encode(p), time))) && Sound(p) && |p.data| == w.a.ep.rcv.payload
    ensures Next(w, A(Deliver(Encode(p), time))).a.ep == Receive(w.a.ep, p, time).0
  {
    hide Accepts, Encode, Decode, Receive, Wired, Logged;
    assert Accepts(Encode(p)) by { SoundIsAccepted(p); }
    DecodeEncode(p);
    AllowedEnabled(w.a.ep, w.b.wire, Deliver(Encode(p), time));
  }

  // ------------------------------------------------------------------ nothing before its time

  /** The clock reading with which an action numbers windows. */
  function ClockOf(act: Action): nat {
    match act
    case Send(_, now, _) => now
    case Tick(_, _, sealUs) => sealUs
    case _ => 0
  }

  /** A window carries the time at which it was numbered. */
  lemma NumberedNow(w: World, ev: Event, id: nat)
    requires Inv(w) && CanStep(w, ev) && NoWrap(Next(w, ev)) && |w.a.log| <= id < |Next(w, ev).a.log|
    ensures ev.A? && (ev.act.Send? || ev.act.Tick?)
    ensures var r := Next(w, ev).a.ep.snd; id < r.bgn || (Contains(r, id) && At(r, id).sentTime == ClockOf(ev.act))
  {
    hide LinkInv, Fill, Unacked, Receive, Accepts, Encode, FromLe, SealLast, Logged, Wired, NoWrap;
    StepKeepsInv(w, ev);
    InvLinks(w);
    InvLinks(Next(w, ev));
    NumberedBelow(w.a, w.b);
    NumberedBelow(Next(w, ev).a, Next(w, ev).b);
    EndIsValid(w.a, w.b);
    EndIsValid(Next(w, ev).a, Next(w, ev).b);
    if ev.A? {
      AllowedEnabled(w.a.ep, w.b.wire, ev.act);
      var r := w.a.ep.snd;
      match ev.act
      case Send(bytes, now, nowMs) =>
        if !Blocked(r) && bytes != [] {
          FillStays(r, bytes, now, nowMs);
          WriteLeavesOpen(w.a, w.b, bytes, now, nowMs);
        }
      case Recv(n) => NothingHappens(w.a);
      case Tick(now, nowMs, sealUs) => SealTime(r, sealUs);
      case Deliver(f, now) =>
        NothingHappens(w.a);
        if Accepts(f) {
          AcksLogNothing(w.a, Decode(f), now);
        }
    }
  }

  lemma SealTime(r: Ring, sealUs: nat)
    requires r.end < INVALID_ID
    ensures Last(SealLast(r, sealUs)).sentTime == sealUs && SealLast(r, sealUs).end == r.end
    ensures SealLast(r, sealUs).bgn == r.bgn
  {
    hide Seal;
  }

  lemma AcksLogNothing(x: Side, p: Packet, now: nat)
    requires |p.data| == x.ep.rcv.payload
    ensures Logged(x.log, Receive(x.ep, p, now).1) == x.log
  {
    hide Seal;
    LoggedOld(x.log, Receive(x.ep, p, now).1);
  }

  lemma WriteLeavesOpen(x: Side, y: Side, bytes: seq<byte>, now: nat, nowMs: nat)
    requires LinkInv(x, y) && !Blocked(x.ep.snd) && 0 < |bytes| <= x.ep.snd.payload
    requires Fill(x.ep.snd, bytes, now, nowMs).0.end + |x.ep.snd.wnd| < INVALID_ID
    ensures !Last(Fill(x.ep.snd, bytes, now, nowMs).0).isSent
  {
    hide Sound;
    FillKeeps(x.ep.snd, bytes, now, nowMs, x.wire, x.log, x.accepted, y.ep.rcv);
  }

  /** In every run: no timer step takes a window from the outstanding range sooner than the
      delay, as it is then, after the time at which it was numbered. */
  lemma NotBeforeTime(w: World, ev: Event, id: nat, evs: seq<Event>, now: nat, nowMs: nat, sealUs: nat, q: Packet)
    requires Inv(w) && CanStep(w, ev) && IsRun(Next(w, ev), evs) && |w.a.log| <= id < |Next(w, ev).a.log|
    requires var e := After(Next(w, ev), evs).a.ep;
      q in SendUnacked(e, now, nowMs, sealUs).1 && q.id == id < e.snd.end
    ensures ClockOf(ev.act) + After(Next(w, ev), evs).a.ep.delay <= now
  {
    hide Inv, LinkInv, NoWrap, CanStep, Next, IsRun, After, SendUnacked, ClockOf;
    var v := Next(w, ev);
    RunStartsHere(v, evs);
    NumberedNow(w, ev, id);
    StepKeepsInv(w, ev);
    var u := After(v, evs);
    if id < v.a.ep.snd.bgn {
      DroppedStays(v, evs, id);
    } else {
      NumberedStays(v, evs, id);
    }
    InvLinks(u);
    ResentIsUnacked(u.a, u.b, now, nowMs, sealUs, q);
  }

  // ------------------------------------------------------------------ the open window

  /** The timer sends the last window exactly if it is partly filled and nothing was written
      to it for 250 milliseconds; then it carries its octets under the number due. */
  lemma StaleExactly(r: Ring, nowMs: nat, sealUs: nat)
    requires Last(r).packet.size <= r.payload && r.end < INVALID_ID
    ensures var (r', out) := SendStale(r, nowMs, sealUs);
      && (out == [] <==> !(0 < Last(r).packet.size < r.payload && nowMs > r.updateTime + 250))
      && (out == [] ==> r' == r)
      && (out != [] ==> |out| == 1 && Last(r').isSent && out == [Last(r').packet]
                        && Carried(out[0]) == Carried(Last(r).packet)
                        && (!Last(r).isSent ==> out[0].id == r.end && Last(r').sentTime == sealUs)
                        && (Last(r).isSent ==> r' == r))
  {
    hide SealLast;
    SealEffect(r, sealUs);
    SealTime(r, sealUs);
  }

  lemma FillOnceStamps(r: Ring, bytes: seq<byte>, now: nat, nowMs: nat)
    requires |bytes| <= Room(r)
    ensures FillOnce(r, bytes, now, nowMs).0.updateTime == nowMs
  {
    hide Seal;
  }

  lemma {:induction false} FillStamps(r: Ring, bytes: seq<byte>, now: nat, nowMs: nat)
    requires bytes != [] && Count(r) < |r.wnd| && |bytes| <= r.payload
    ensures Fill(r, bytes, now, nowMs).0.updateTime == nowMs
    decreases |bytes|, Last(r).packet.size
  {
    hide FillOnce;
    var n := Min(|bytes|, Room(r));
    FillLeavesRoom(r, bytes, n, now, nowMs);
    FillOnceStamps(r, bytes[..n], now, nowMs);
    if bytes[n..] != [] {
      FillStamps(FillOnce(r, bytes[..n], now, nowMs).0, bytes[n..], now, nowMs);
    }
  }

  lemma StepKeepsStamp(w: World, ev: Event)
    requires CanStep(w, ev) && NoSendByA([ev])
    ensures Next(w, ev).a.ep.snd.updateTime == w.a.ep.snd.updateTime
  {
    hide Unacked, Accepts, Encode, FromLe, Logged, Wired, AckPacket, DonePrefix, Read, SealedLast;
    assert [ev][0] == ev;
    if ev.A? {
      AllowedEnabled(w.a.ep, w.b.wire, ev.act);
      if ev.act.Tick? {
        StaleShape(w.a.ep.snd, ev.act.nowMs, ev.act.sealUs);
      }
    }
  }

  lemma {:induction false} StampStays(w: World, evs: seq<Event>)
    requires IsRun(w, evs) && NoSendByA(evs)
    ensures After(w, evs).a.ep.snd.updateTime == w.a.ep.snd.updateTime
    decreases |evs|
  {
    hide NoWrap, CanStep, Next;
    if evs != [] {
      assert NoSendByA([evs[0]]);
      StepKeepsStamp(w, evs[0]);
      forall i | 0 <= i < |evs[1..]|
        ensures evs[1..][i] == evs[i + 1]
      {
      }
      StampStays(Next(w, evs[0]), evs[1..]);
    }
  }

  /** In every run: after a write that was taken, the last window is neither sealed nor sent
      by the timer until more than 250 milliseconds have passed without another write. */
  lemma NotStaleEarly(w: World, bytes: seq<byte>, now: nat, nowMs: nat, evs: seq<Event>, later: nat, sealUs: nat)
    requires CanStep(w, A(Send(bytes, now, nowMs))) && !Blocked(w.a.ep.snd) && bytes != []
    requires IsRun(Next(w, A(Send(bytes, now, nowMs))), evs) && NoSendByA(evs)
    requires later <= nowMs + 250
    ensures var r := After(Next(w, A(Send(bytes, now, nowMs))), evs).a.ep.snd; SendStale(r, later, sealUs) == (r, [])
  {
    hide IsRun, After, Fill, Logged, Wired;
    FillStamps(w.a.ep.snd, bytes, now, nowMs);
    StampStays(Next(w, A(Send(bytes, now, nowMs))), evs);
  }

  /** The timer sends in order of ids: the expired ones of the outstanding range, then the
      last window if it is stale. */
  lemma TickInOrder(x: Side, y: Side, now: nat, nowMs: nat, sealUs: nat)
    requires LinkInv(x, y)
    ensures var out := SendUnacked(x.ep, now, nowMs, sealUs).1;
      forall i, j :: 0 <= i < j < |out| ==> out[i].id < out[j].id
  {
    hide LinkInv, Unacked, SendStale;
    var r := x.ep.snd;
    NumberedBelow(x, y);
    EndIsValid(x, y);
    SlotsOf(x, y);
    LastIsSmall(x, y);
    UnackedInOrder(r, r.bgn, now, x.ep.delay, x.wire, x.log, y.ep.rcv);
    StaleExactly(r, nowMs, sealUs);
  }

  lemma SlotsOf(x: Side, y: Side)
    requires LinkInv(x, y)
    ensures SlotsInv(x.ep.snd, x.wire, x.log, y.ep.rcv)
  {
    hide Sound;
    hide WireInv;
  }

  /** A write that leaves the last window stuck has handed it over as it is, last of all. */
  lemma StuckIsHandedOver(r: Ring, bytes: seq<byte>, now: nat, nowMs: nat)
    requires !Blocked(r) && 0 < |bytes| <= r.payload && r.end + 1 < INVALID_ID
    requires Stuck(Write(r, bytes, now, nowMs).0)
    ensures var (r', out, n) := Write(r, bytes, now, nowMs); out != [] && out[|out| - 1] == Last(r').packet
  {
    hide Seal;
    hide FillOnce;
    WriteSticksIff(r, bytes, now, nowMs);
    var n := Min(|bytes|, Room(r));
    FillLeavesRoom(r, bytes, n, now, nowMs);
    FillOnceShape(r, bytes[..n], now, nowMs);
    var (r1, out1) := FillOnce(r, bytes[..n], now, nowMs);
    if n < |bytes| {
      var rest := bytes[n..];
      FillLeavesRoom(r1, rest, |rest|, now, nowMs);
      FillOnceShape(r1, rest, now, nowMs);
      assert rest[..|rest|] == rest && rest[|rest|..] == [];
      var (r2, out2) := FillOnce(r1, rest, now, nowMs);
      assert Fill(r1, rest, now, nowMs) == (r2, out2 + []);
      HandsOverWhole(r1, rest, now, nowMs);
    } else {
      assert bytes[n..] == [] && bytes[..n] == bytes;
      assert Fill(r, bytes, now, nowMs) == (r1, out1 + []);
      HandsOverWhole(r, bytes, now, nowMs);
    }
  }

  lemma HandsOverWhole(r: Ring, bytes: seq<byte>, now: nat, nowMs: nat)
    requires |bytes| <= Room(r) && !Last(r).isSent && r.end < INVALID_ID
    requires Stuck(FillOnce(r, bytes, now, nowMs).0)
    ensures var (r', out) := FillOnce(r, bytes, now, nowMs); out == [Last(r').packet]
  {
    hide Advance, SealLast;
    FillOnceShape(r, bytes, now, nowMs);
    AppendEffect(r, bytes, nowMs);
  }

  // ------------------------------------------------------------------ the delay

  /** An acknowledgement of an id in the window sets the delay to four fifths of the time since
      that window was numbered, but no less than 100 and no more than 1000000 microseconds. */
  lemma AckSetsDelay(e: Endpoint, p: Packet, now: nat)
    requires |p.data| == e.rcv.payload && p.kind.Ack? && Contains(e.snd, p.id)
    requires At(e.snd, p.id).sentTime <= now < 0x1000_0000_0000_0000
    ensures var elapsed, delay := now - At(e.snd, p.id).sentTime, Receive(e, p, now).0.delay;
      && 100 <= delay <= 1000000
      && (elapsed < 125 ==> delay == 100) && (elapsed >= 1250000 ==> delay == 1000000)
      && (125 <= elapsed < 1250000 ==> 5 * delay <= 4 * elapsed < 5 * delay + 5)
  {
    hide AckId, NewDelay;
    DelayIs(now, At(e.snd, p.id).sentTime);
  }

  lemma DelayIs(now: nat, sentTime: nat)
    requires sentTime <= now < 0x1000_0000_0000_0000
    ensures var elapsed, delay := now - sentTime, NewDelay(now, sentTime);
      && 100 <= delay <= 1000000
      && (elapsed < 125 ==> delay == 100) && (elapsed >= 1250000 ==> delay == 1000000)
      && (125 <= elapsed < 1250000 ==> 5 * delay <= 4 * elapsed < 5 * delay + 5)
  {
    assert (now - sentTime) * 4 < 0x1_0000_0000_0000_0000;
  }
}
