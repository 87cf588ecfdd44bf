/** What a connection can and cannot complete: exactly when a blocked sender takes data
    again, when a sending half can be emptied, when everything accepted reaches the other
    application, and when a flush returns. */
module Completion {
  import opened Bytes
  import opened Seqs
  import opened Frame
  import opened Packets
  import opened WindowRing
  import opened Protocol
  import opened Invariant
  import opened Safety
  import opened Delivery
  import opened Liveness

  // ------------------------------------------------------------------ exactly when

  ghost predicate NoSendByA(evs: seq<Event>) {
    forall i :: 0 <= i < |evs| ==> !(evs[i].A? && evs[i].act.Send?)
  }

  /** Acknowledgements and timers leave a stuck window as it is. */
  lemma StuckStep(w: World, ev: Event)
    requires Inv(w) && NoWrap(w) && CanStep(w, ev) && Stuck(w.a.ep.snd) && NoSendByA([ev])
    ensures Stuck(Next(w, ev).a.ep.snd)
  {
    hide Sound;
    hide SenderInv;
    hide ReceiverInv;
    assert [ev][0] == ev;
    if ev.A? {
      AllowedEnabled(w.a.ep, w.b.wire, ev.act);
      match ev.act
      case Recv(n) =>
      case Tick(now, nowMs, sealUs) =>
        assert !HasIncomplete(w.a.ep.snd);
      case Deliver(f, now) =>
        if Accepts(f) {
          var p: Packet :| p in w.b.wire && f == Encode(p);
          DecodeEncode(p);
          StuckReceive(w.a, w.b, p, now);
        }
    }
  }

  lemma StuckReceive(x: Side, y: Side, p: Packet, now: nat)
    requires LinkInv(x, y) && Stuck(x.ep.snd) && |p.data| == x.ep.rcv.payload
    ensures Stuck(Receive(x.ep, p, now).0.snd)
  {
    hide Sound;
    hide Seal;
    hide WireInv;
    if p.kind.Ack? && Contains(x.ep.snd, p.id) {
      AckRemovesExactly(x, y, p.id);
      var r, m, r' := x.ep.snd, MarkAcked(x.ep.snd, p.id), AckId(x.ep.snd, p.id);
      assert r'.bgn <= r.end;
      assert At(r', r.end) == At(m, r.end);
    }
  }

  lemma {:induction false} StuckStays(w: World, evs: seq<Event>)
    requires Inv(w) && IsRun(w, evs) && Stuck(w.a.ep.snd) && NoSendByA(evs)
    ensures Stuck(After(w, evs).a.ep.snd) && !IsEmpty(After(w, evs).a.ep.snd)
    decreases |evs|
  {
    hide Inv;
    hide NoWrap;
    hide CanStep;
    hide Next;
    if evs != [] {
      assert NoSendByA([evs[0]]);
      StuckStep(w, evs[0]);
      assert NoWrap(Next(w, evs[0]));
      StepKeepsInv(w, evs[0]);
      assert NoSendByA(evs[1..]) by {
        forall i | 0 <= i < |evs[1..]|
          ensures !(evs[1..][i].A? && evs[1..][i].act.Send?)
        {
          assert evs[1..][i] == evs[i + 1];
        }
      }
      StuckStays(Next(w, evs[0]), evs[1..]);
    }
  }

  lemma {:induction false} QuietSendsNothing(w: World, evs: seq<Event>, a: set<Packet>, b: set<Packet>)
    requires QuietRun(w, evs, a, b)
    ensures NoSendByA(evs)
    decreases |evs|
  {
    hide NoWrap;
    hide CanStep;
    hide Next;
    hide Emitted;
    hide Encode;
    if evs != [] {
      QuietSendsNothing(Next(w, evs[0]), evs[1..], SentByA(w, evs[0], a), SentByB(w, evs[0], b));
      forall i | 0 <= i < |evs|
        ensures !(evs[i].A? && evs[i].act.Send?)
      {
        if i > 0 {
          assert evs[i] == evs[1..][i - 1];
        }
      }
    }
  }

  /** In every reachable state: the sending half can be emptied without writing more, with
      every earlier packet lost, if and only if its last window is not stuck. */
  lemma EmptyingPossibleIff(w: World, evs: seq<Event>)
    requires Initial(w) && IsRun(w, evs) && Slack(After(w, evs))
    ensures
      var v := After(w, evs);
      (exists more :: QuietRun(v, more, {}, {}) && IsRun(v, more) && IsEmpty(After(v, more).a.ep.snd))
      <==> !Stuck(v.a.ep.snd)
  {
    hide Inv;
    hide Slack;
    hide NoWrap;
    hide IsRun;
    hide After;
    hide QuietRun;
    hide Initial;
    Reachable(w, evs);
    var v := After(w, evs);
    if Stuck(v.a.ep.snd) {
      forall more | QuietRun(v, more, {}, {}) && IsRun(v, more)
        ensures !IsEmpty(After(v, more).a.ep.snd)
      {
        QuietSendsNothing(v, more, {}, {});
        StuckStays(v, more);
      }
    } else {
      var more := Drain(v);
    }
  }

  // ------------------------------------------------------------------ blocked senders

  /** A stuck window that is the only one. */
  predicate LoneStuck(r: Ring) {
    Stuck(r) && Capacity(r) == 1
  }

  lemma LoneStuckStep(w: World, ev: Event)
    requires Inv(w) && NoWrap(w) && CanStep(w, ev) && LoneStuck(w.a.ep.snd)
    ensures LoneStuck(Next(w, ev).a.ep.snd) && Next(w, ev).a.accepted == w.a.accepted
    ensures Next(w, ev).a.ep.snd.end == w.a.ep.snd.end
  {
    hide Inv;
    hide Receive;
    hide SendUnacked;
    hide Accepts;
    hide Decode;
    hide Encode;
    hide Wired;
    hide Logged;
    hide Fill;
    LoneStuckBlocks(w.a.ep.snd);
    assert w.a.accepted + [] == w.a.accepted;
    if ev == A(ev.act) && !ev.act.Send? {
      assert NoSendByA([ev]);
      StuckStep(w, ev);
      AllowedEnabled(w.a.ep, w.b.wire, ev.act);
      match ev.act
      case Recv(n) =>
      case Tick(now, nowMs, sealUs) => TickShape(w.a.ep, now, nowMs, sealUs);
      case Deliver(f, now) =>
        if Accepts(f) {
          var p: Packet :| p in w.b.wire && f == Encode(p);
          DecodeEncode(p);
          ReceiveShape(w.a.ep, p, now);
          InvLinks(w);
          StuckKeepsEnd(w.a, w.b, p, now);
        }
    }
  }

  lemma StuckKeepsEnd(x: Side, y: Side, p: Packet, now: nat)
    requires LinkInv(x, y) && Stuck(x.ep.snd) && |p.data| == x.ep.rcv.payload
    ensures Receive(x.ep, p, now).0.snd.end == x.ep.snd.end
  {
    hide Sound;
    hide Seal;
    hide WireInv;
    if p.kind.Ack? && Contains(x.ep.snd, p.id) {
      AckRemovesExactly(x, y, p.id);
      RemoveEffect(MarkAcked(x.ep.snd, p.id), DonePrefix(MarkAcked(x.ep.snd, p.id).wnd));
    }
  }

  lemma LoneStuckBlocks(r: Ring)
    requires LoneStuck(r)
    ensures Blocked(r) && r.bgn == r.end
  {
  }

  /** A sender whose only window is stuck accepts nothing any more, whatever its
      application, its peer and the network do. */
  lemma {:induction false} LoneStuckForGood(w: World, evs: seq<Event>)
    requires Inv(w) && IsRun(w, evs) && LoneStuck(w.a.ep.snd)
    ensures var u := After(w, evs);
      && LoneStuck(u.a.ep.snd) && Blocked(u.a.ep.snd)
      && u.a.accepted == w.a.accepted && u.a.ep.snd.end == w.a.ep.snd.end
    decreases |evs|
  {
    hide Inv;
    hide NoWrap;
    hide CanStep;
    hide Next;
    LoneStuckBlocks(w.a.ep.snd);
    if evs != [] {
      LoneStuckStep(w, evs[0]);
      assert NoWrap(Next(w, evs[0]));
      StepKeepsInv(w, evs[0]);
      LoneStuckForGood(Next(w, evs[0]), evs[1..]);
    }
  }

  lemma EmptyIsOpen(x: Side, y: Side)
    requires LinkInv(x, y) && IsEmpty(x.ep.snd)
    ensures !Blocked(x.ep.snd)
  {
    hide Sound;
    hide WireInv;
  }

  /** A stuck window behind outstanding ones: each round makes room. */
  lemma RoomBehindStuck(r: Ring, r': Ring)
    requires Stuck(r) && Stuck(r') && Capacity(r') == Capacity(r)
    requires Top(r') == Top(r) && r'.bgn > r.bgn
    ensures !Blocked(r')
  {
  }

  lemma Unblock(w: World) returns (evs: seq<Event>)
    requires Inv(w) && Slack(w) && !LoneStuck(w.a.ep.snd)
    ensures QuietRun(w, evs, {}, {}) && IsRun(w, evs) && Flushing(evs)
    ensures !Blocked(After(w, evs).a.ep.snd)
  {
    hide Inv;
    hide Slack;
    hide QuietRun;
    hide IsRun;
    hide After;
    hide Flushing;
    var r := w.a.ep.snd;
    if !Stuck(r) {
      evs := Drain(w);
      InvLinks(After(w, evs));
      EmptyIsOpen(After(w, evs).a, After(w, evs).b);
    } else if r.bgn < r.end {
      evs := Round(w);
      RoomBehindStuck(r, After(w, evs).a.ep.snd);
    } else {
      evs := [];
      SlackNoWrap(w);
      QuietNil(w, {}, {});
      NothingFlushes();
    }
  }

  /** In every reachable state: the sender takes data again, without its application
      doing anything and with every earlier packet lost, if and only if its last window
      is not stuck alone; and if it is, no run at all makes it. */
  lemma UnblockPossibleIff(w: World, evs: seq<Event>)
    requires Initial(w) && IsRun(w, evs) && Slack(After(w, evs))
    ensures
      var v := After(w, evs);
      (exists more :: QuietRun(v, more, {}, {}) && IsRun(v, more) && Flushing(more)
                      && !Blocked(After(v, more).a.ep.snd))
      <==> !LoneStuck(v.a.ep.snd)
    ensures
      var v := After(w, evs);
      LoneStuck(v.a.ep.snd) ==> forall more :: IsRun(v, more) ==> Blocked(After(v, more).a.ep.snd)
  {
    hide Inv;
    hide Slack;
    hide NoWrap;
    hide IsRun;
    hide After;
    hide QuietRun;
    hide Initial;
    hide Flushing;
    Reachable(w, evs);
    var v := After(w, evs);
    if LoneStuck(v.a.ep.snd) {
      forall more | IsRun(v, more)
        ensures Blocked(After(v, more).a.ep.snd)
      {
        LoneStuckForGood(v, more);
      }
    } else {
      var more := Unblock(v);
    }
  }

  // ------------------------------------------------------------------ flush

  /** What arrived first and is unread stays so while nobody reads. */
  lemma UnreadStep(w: World, ev: Event)
    requires Inv(w) && CanStep(w, ev) && !IsEmpty(w.a.ep.rcv)
    requires ev.A? ==> ev.act.Deliver? || ev.act.Tick?
    ensures !IsEmpty(Next(w, ev).a.ep.rcv)
  {
    hide Inv;
    hide Receive;
    hide SendUnacked;
    hide Accepts;
    hide Decode;
    hide Encode;
    if ev.A? {
      AllowedEnabled(w.a.ep, w.b.wire, ev.act);
      match ev.act
      case Tick(now, nowMs, sealUs) => TickShape(w.a.ep, now, nowMs, sealUs);
      case Deliver(f, now) =>
        if Accepts(f) {
          var p: Packet :| p in w.b.wire && f == Encode(p);
          DecodeEncode(p);
          InvLinks(w);
          UnreadReceive(w.b, w.a, p, now);
        }
    }
  }

  lemma UnreadReceive(x: Side, y: Side, p: Packet, now: nat)
    requires LinkInv(x, y) && p in x.wire && |p.data| == y.ep.rcv.payload && !IsEmpty(y.ep.rcv)
    ensures !IsEmpty(Receive(y.ep, p, now).0.rcv)
  {
    hide SenderInv;
    hide Sound;
    hide Seal;
    var r := y.ep.rcv;
    SenderSendsData(x, y);
    if p.kind.Data? && p.id >= r.bgn && Contains(r, p.id) {
      StoreKeeps(r, p, x.wire, x.log, y.read);
      StoreEffect(r, p, p.id);
      assert !EmptySlot(At(r, r.bgn));
      assert StoredSlot(At(r, r.bgn), r.bgn, x.wire);
    }
  }

  lemma {:induction false} UnreadStays(w: World, evs: seq<Event>)
    requires Inv(w) && IsRun(w, evs) && Flushing(evs) && !IsEmpty(w.a.ep.rcv)
    ensures !IsEmpty(After(w, evs).a.ep.rcv)
    decreases |evs|
  {
    hide Inv;
    hide NoWrap;
    hide CanStep;
    hide Next;
    hide Flushing;
    if evs != [] {
      FlushingRest(evs);
      UnreadStep(w, evs[0]);
      assert NoWrap(Next(w, evs[0]));
      StepKeepsInv(w, evs[0]);
      UnreadStays(Next(w, evs[0]), evs[1..]);
    }
  }

  lemma FlushingSendsNothing(evs: seq<Event>)
    requires Flushing(evs)
    ensures NoSendByA(evs)
  {
  }

  /** In every reachable state: a flush can complete, with nothing but deliveries and
      timers at its own end and with every earlier packet lost, if and only if the last
      window is not stuck and nothing that arrived in order waits unread; and if one of
      these fails, no such run completes it, whatever the peer does. */
  lemma FlushPossibleIff(w: World, evs: seq<Event>)
    requires Initial(w) && IsRun(w, evs) && Slack(After(w, evs))
    ensures
      var v := After(w, evs);
      (exists more :: QuietRun(v, more, {}, {}) && IsRun(v, more) && Flushing(more)
                      && Flushed(After(v, more).a.ep))
      <==> !Stuck(v.a.ep.snd) && IsEmpty(v.a.ep.rcv)
    ensures
      var v := After(w, evs);
      Stuck(v.a.ep.snd) || !IsEmpty(v.a.ep.rcv)
      ==> forall more :: IsRun(v, more) && Flushing(more) ==> !Flushed(After(v, more).a.ep)
  {
    hide Inv;
    hide Slack;
    hide NoWrap;
    hide IsRun;
    hide After;
    hide QuietRun;
    hide Initial;
    hide Flushing;
    Reachable(w, evs);
    var v := After(w, evs);
    if Stuck(v.a.ep.snd) || !IsEmpty(v.a.ep.rcv) {
      forall more | IsRun(v, more) && Flushing(more)
        ensures !Flushed(After(v, more).a.ep)
      {
        if Stuck(v.a.ep.snd) {
          FlushingSendsNothing(more);
          StuckStays(v, more);
        } else {
          UnreadStays(v, more);
        }
      }
    } else {
      var more := Drain(v);
    }
  }

  // ------------------------------------------------------------------ complete delivery

  lemma {:induction false} QuietTakesNothing(w: World, evs: seq<Event>, a: set<Packet>, b: set<Packet>)
    requires QuietRun(w, evs, a, b) && IsRun(w, evs)
    ensures After(w, evs).a.accepted == w.a.accepted
    decreases |evs|
  {
    hide NoWrap;
    hide CanStep;
    hide Next;
    hide Emitted;
    if evs != [] {
      QuietTakesNothing(Next(w, evs[0]), evs[1..], SentByA(w, evs[0], a), SentByB(w, evs[0], b));
      NextTakesNothing(w, evs[0]);
    }
  }

  lemma NextTakesNothing(w: World, ev: Event)
    requires CanStep(w, ev) && (ev.A? ==> !ev.act.Send?)
    ensures Next(w, ev).a.accepted == w.a.accepted
  {
    hide Receive;
    hide SendUnacked;
    hide Accepts;
    hide Decode;
    assert w.a.accepted + [] == w.a.accepted;
  }

  /** A read as large as a payload takes the whole rest of the first stored window. */
  lemma ReadTakesFirst(x: Side, y: Side)
    requires LinkInv(x, y) && IsFirstAcked(y.ep.rcv)
    ensures y.ep.rcv.bgn < |x.log|
    ensures Read(y.ep.rcv, x.ep.snd.payload).0.bgn == y.ep.rcv.bgn + 1
  {
    hide Sound;
    SenderSendsData(x, y);
    FirstIsLogged(y.ep.rcv, x.wire, x.log, y.read);
  }

  lemma NothingPending(r: Ring)
    requires !IsFirstAcked(r)
    ensures Pending(r) == []
  {
  }

  /** When the sending half is empty, reading on yields everything. */
  lemma {:induction false} ReadOut(w: World) returns (evs: seq<Event>)
    requires Inv(w) && NoWrap(w) && IsEmpty(w.a.ep.snd)
    ensures QuietRun(w, evs, {}, {}) && IsRun(w, evs)
    ensures After(w, evs).a == w.a && After(w, evs).b.read == w.a.accepted
    ensures Flushing(evs)
    decreases |w.a.log| - w.b.ep.rcv.bgn
  {
    hide LinkInv;
    hide NoWrap;
    hide CanStep;
    hide Next;
    hide Emitted;
    hide QuietRun;
    hide IsRun;
    hide After;
    hide Pending;
    hide Flushing;
    hide Read;
    if !IsFirstAcked(w.b.ep.rcv) {
      evs := [];
      NothingFlushes();
      QuietNil(w, {}, {});
      NothingPending(w.b.ep.rcv);
      EmptySenderMeansStored(w.a, w.b);
      assert w.b.read + [] == w.b.read;
    } else {
      var ev := B(Recv(w.a.ep.snd.payload));
      ReadTakesFirst(w.a, w.b);
      NextRecvB(w, w.a.ep.snd.payload);
      assert NoWrap(Next(w, ev)) by { RecvNoWrap(w, w.a.ep.snd.payload); }
      StepKeepsInv(w, ev);
      var rest := ReadOut(Next(w, ev));
      QuietMore(Next(w, ev), rest, {}, {}, SentByA(w, ev, {}), SentByB(w, ev, {}));
      QuietCons(w, ev, rest, {}, {});
      FlushingCons(ev, rest);
      evs := [ev] + rest;
    }
  }

  lemma RecvNoWrap(w: World, n: nat)
    requires NoWrap(w)
    ensures CanStep(w, B(Recv(n))) && NoWrap(Next(w, B(Recv(n))))
  {
    ReadShape(w.b.ep.rcv, n);
  }

  lemma ReadsLessThanAccepted(x: Side, y: Side)
    requires LinkInv(x, y) && Stuck(x.ep.snd)
    ensures y.read != x.accepted
  {
    hide Sound;
    hide WireInv;
    hide StoredSlot;
    hide Pending;
    SenderSendsData(x, y);
    ReadAndPending(y.ep.rcv, x.wire, x.log, y.read);
    FlattenPrefix(x.log, y.ep.rcv.bgn + DonePrefix(y.ep.rcv.wnd));
    assert |y.read| <= |Flatten(x.log)| < |x.accepted|;
  }

  /** In every reachable state: everything accepted so far can still reach the peer's
      application without writing more, with every earlier packet lost, if and only if the
      last window is not stuck. */
  lemma DeliveryPossibleIff(w: World, evs: seq<Event>)
    requires Initial(w) && IsRun(w, evs) && Slack(After(w, evs))
    ensures
      var v := After(w, evs);
      (exists more :: QuietRun(v, more, {}, {}) && IsRun(v, more) && After(v, more).b.read == v.a.accepted)
      <==> !Stuck(v.a.ep.snd)
  {
    hide LinkInv;
    hide Slack;
    hide NoWrap;
    hide IsRun;
    hide After;
    hide QuietRun;
    hide Initial;
    Reachable(w, evs);
    var v := After(w, evs);
    if Stuck(v.a.ep.snd) {
      forall more | QuietRun(v, more, {}, {}) && IsRun(v, more)
        ensures After(v, more).b.read != v.a.accepted
      {
        QuietSendsNothing(v, more, {}, {});
        QuietTakesNothing(v, more, {}, {});
        StuckStays(v, more);
        RunKeepsInv(v, more);
        ReadsLessThanAccepted(After(v, more).a, After(v, more).b);
      }
    } else {
      var first := Drain(v);
      QuietTakesNothing(v, first, {}, {});
      RunKeepsInv(v, first);
      var last := ReadOut(After(v, first));
      QuietConcat(v, first, last, {}, {});
      assert After(v, first + last).b.read == v.a.accepted;
    }
  }

  /** What a caller can see before a write: the segment is a whole payload, it starts on a
      window boundary, and it takes the last free window. */
  predicate TakesLastWindow(r: Ring, bytes: seq<byte>) {
    var size := Last(r).packet.size;
    && |bytes| == r.payload && (size == 0 || size == r.payload)
    && r.end - r.bgn + (if size == r.payload then 1 else 0) + 1 == Capacity(r)
  }

  /** A write leaves the last window stuck exactly then. */
  lemma WriteSticksIff(r: Ring, bytes: seq<byte>, now: nat, nowMs: nat)
    requires !Blocked(r) && 0 < |bytes| <= r.payload && r.end + 1 < INVALID_ID
    ensures Stuck(Write(r, bytes, now, nowMs).0) <==> TakesLastWindow(r, bytes)
  {
    hide Seal;
    hide FillOnce;
    var n := Min(|bytes|, Room(r));
    FillLeavesRoom(r, bytes, n, now, nowMs);
    FillOnceShape(r, bytes[..n], now, nowMs);
    var r1 := FillOnce(r, bytes[..n], now, nowMs).0;
    if n < |bytes| {
      var rest := bytes[n..];
      FillLeavesRoom(r1, rest, |rest|, now, nowMs);
      FillOnceShape(r1, rest, now, nowMs);
      assert rest[..|rest|] == rest && rest[|rest|..] == [];
      var r2 := FillOnce(r1, rest, now, nowMs).0;
      assert Fill(r1, rest, now, nowMs).0 == Fill(r2, [], now, nowMs).0 == r2;
      assert Fill(r, bytes, now, nowMs).0 == r2;
    } else {
      assert bytes[n..] == [];
      assert Fill(r, bytes, now, nowMs).0 == r1;
    }
  }

  lemma FillOnceShape(r: Ring, bytes: seq<byte>, now: nat, nowMs: nat)
    requires !Last(r).isSent && |bytes| <= Room(r) && r.end < INVALID_ID
    ensures var r' := FillOnce(r, bytes, now, nowMs).0;
      var size := Last(r).packet.size + |bytes|;
      && !Last(r').isSent
      && (if size < r.payload then r'.end == r.end && Last(r').packet.size == size
          else if r.end + 1 < r.bgn + |r.wnd| then r'.end == r.end + 1 && Last(r').packet.size == 0
          else r'.end == r.end && Last(r').packet.size == r.payload)
  {
    hide Seal;
    hide Advance;
    var full := Append(r, bytes, nowMs);
    AppendEffect(r, bytes, nowMs);
    if full.end + 1 < full.bgn + |full.wnd| {
      AdvanceEffect(full, now);
    }
  }

  /** A one-window sender that accepts one whole payload is stuck at once and for good:
      in every continuation it accepts nothing more, and the peer reads nothing at all. */
  lemma OneWindowSticks(w: World, bytes: seq<byte>, now: nat, nowMs: nat, more: seq<Event>)
    requires Initial(w) && NoWrap(w) && Capacity(w.a.ep.snd) == 1 && |bytes| == w.a.ep.snd.payload
    requires CanStep(w, A(Send(bytes, now, nowMs))) ==> IsRun(Next(w, A(Send(bytes, now, nowMs))), more)
    ensures var ev := A(Send(bytes, now, nowMs));
      && CanStep(w, ev) && Stuck(Next(w, ev).a.ep.snd) && Next(w, ev).a.accepted == bytes
      && var u := After(Next(w, ev), more);
      && Stuck(u.a.ep.snd) && Blocked(u.a.ep.snd) && u.a.accepted == bytes && u.b.read == []
  {
    hide Fill;
    hide Inv;
    hide IsRun;
    hide After;
    hide Logged;
    hide Wired;
    var r := w.a.ep.snd;
    assert Last(r) in r.wnd;
    assert Last(r) == Last(r).Clear();
    WriteSticksIff(r, bytes, now, nowMs);
    assert bytes[..|bytes|] == bytes;
    assert [] + bytes == bytes;
    var ev := A(Send(bytes, now, nowMs));
    var v := Next(w, ev);
    assert NoWrap(v) by { RunStarts(v, more); }
    InitialInv(w);
    StepKeepsInv(w, ev);
    LoneStuckForGood(v, more);
    RunKeepsInv(v, more);
    InvLinks(After(v, more));
    NothingNumbered(After(v, more).a, After(v, more).b);
  }

  lemma RunStarts(w: World, evs: seq<Event>)
    requires IsRun(w, evs)
    ensures NoWrap(w)
  {
  }

  lemma NothingNumbered(x: Side, y: Side)
    requires LinkInv(x, y) && x.ep.snd.end == 0 && Stuck(x.ep.snd)
    ensures y.read == []
  {
    hide Sound;
    hide WireInv;
    hide StoredSlot;
    hide Pending;
    SenderSendsData(x, y);
    ReadAndPending(y.ep.rcv, x.wire, x.log, y.read);
  }

  /** So the theorems speak of something: whatever a fresh connection accepts in one write
      that does not stick, some run takes to the other application. */
  lemma FirstWriteArrives(w: World, bytes: seq<byte>, now: nat, nowMs: nat)
    requires Initial(w) && 0 < |bytes| <= w.a.ep.snd.payload
    requires Capacity(w.a.ep.snd) > 1 || |bytes| < w.a.ep.snd.payload
    requires 2 + Max(Capacity(w.a.ep.snd), Capacity(w.b.ep.rcv)) < INVALID_ID
    requires Max(Capacity(w.b.ep.snd), Capacity(w.a.ep.rcv)) < INVALID_ID
    ensures exists more :: IsRun(w, [A(Send(bytes, now, nowMs))] + more)
              && After(w, [A(Send(bytes, now, nowMs))] + more).b.read == bytes
  {
    hide QuietRun;
    var ev := A(Send(bytes, now, nowMs));
    var v := FirstWrite(w, bytes, now, nowMs);
    RunOfOne(w, ev);
    DeliveryPossibleIff(w, [ev]);
    var more :| QuietRun(v, more, {}, {}) && IsRun(v, more) && After(v, more).b.read == v.a.accepted;
    var evs := [ev] + more;
    assert evs[0] == ev && evs[1..] == more;
    assert After(w, evs) == After(v, more);
  }

  lemma RunOfOne(w: World, ev: Event)
    requires NoWrap(w) && CanStep(w, ev) && NoWrap(Next(w, ev))
    ensures IsRun(w, [ev]) && After(w, [ev]) == Next(w, ev)
  {
    assert IsRun(Next(w, ev), []);
    assert [ev][1..] == [];
  }

  lemma FirstWrite(w: World, bytes: seq<byte>, now: nat, nowMs: nat) returns (v: World)
    requires Initial(w) && 0 < |bytes| <= w.a.ep.snd.payload
    requires Capacity(w.a.ep.snd) > 1 || |bytes| < w.a.ep.snd.payload
    requires 2 + Max(Capacity(w.a.ep.snd), Capacity(w.b.ep.rcv)) < INVALID_ID
    requires Max(Capacity(w.b.ep.snd), Capacity(w.a.ep.rcv)) < INVALID_ID
    ensures var ev := A(Send(bytes, now, nowMs));
      && NoWrap(w) && CanStep(w, ev) && v == Next(w, ev)
      && Slack(v) && NoWrap(v) && !Stuck(v.a.ep.snd) && v.a.accepted == bytes
      && v.b == w.b && v.a.ep.snd.bgn == 0 && Top(v.a.ep.snd) == 1 && Capacity(v.a.ep.snd) == Capacity(w.a.ep.snd)
  {
    hide Fill;
    var r := w.a.ep.snd;
    assert Last(r) in r.wnd;
    assert Last(r) == Last(r).Clear();
    WriteSticksIff(r, bytes, now, nowMs);
    FillOpensOne(r, bytes, now, nowMs);
    FillTop(r, bytes, now, nowMs);
    v := Next(w, A(Send(bytes, now, nowMs)));
    assert bytes[..|bytes|] == bytes;
    assert [] + bytes == bytes;
  }

  /** One segment opens at most one window if it starts on a boundary. */
  lemma FillOpensOne(r: Ring, bytes: seq<byte>, now: nat, nowMs: nat)
    requires Last(r).packet.size == 0 && Count(r) < Capacity(r) && 0 < |bytes| <= r.payload
    ensures Fill(r, bytes, now, nowMs).0.end <= r.end + 1
  {
    hide FillOnce;
    assert bytes[|bytes|..] == [];
    assert Min(|bytes|, Room(r)) == |bytes|;
  }

  lemma FillTop(r: Ring, bytes: seq<byte>, now: nat, nowMs: nat)
    requires Last(r).packet.size == 0 && !Last(r).isSent && Count(r) < Capacity(r) && r.end < INVALID_ID
    requires 0 < |bytes| <= r.payload
    ensures Top(Fill(r, bytes, now, nowMs).0) == r.end + 1
  {
    hide FillOnce;
    assert bytes[|bytes|..] == [] && bytes[..|bytes|] == bytes;
    assert Min(|bytes|, Room(r)) == |bytes|;
    FillOnceShape(r, bytes, now, nowMs);
  }

  // ------------------------------------------------------------------ unread input

  lemma StoredUnread(x: Side, y: Side, p: Packet, now: nat)
    requires LinkInv(x, y) && p in x.wire && p.kind.Data? && p.id == y.ep.rcv.bgn < |x.log|
    requires |p.data| == y.ep.rcv.payload
    ensures !IsEmpty(Receive(y.ep, p, now).0.rcv)
  {
    hide Sound;
    hide Seal;
    assert Genuine(p, x.log);
    StoreEffect(y.ep.rcv, p, p.id);
  }

  lemma SomethingWritten(w: World, bytes: seq<byte>, now: nat, nowMs: nat)
    requires Initial(w) && 0 < |bytes| <= w.a.ep.snd.payload
    requires Capacity(w.a.ep.snd) > 1 || |bytes| < w.a.ep.snd.payload
    requires 2 + Max(Capacity(w.a.ep.snd), Capacity(w.b.ep.rcv)) < INVALID_ID
    requires Max(Capacity(w.b.ep.snd), Capacity(w.a.ep.rcv)) < INVALID_ID
    ensures var ev := A(Send(bytes, now, nowMs));
      && NoWrap(w) && CanStep(w, ev)
      && var v := Next(w, ev);
      && v.b == w.b && v.a.ep.snd.bgn == 0 && v.a.accepted == bytes
      && !Stuck(v.a.ep.snd) && Top(v.a.ep.snd) == 1 && Capacity(v.a.ep.snd) == Capacity(w.a.ep.snd)
      && Inv(v) && Slack(v) && Outstanding(v.a.ep.snd)
  {
    hide Fill;
    hide Inv;
    hide Stuck;
    hide Logged;
    hide Wired;
    var v := FirstWrite(w, bytes, now, nowMs);
    InitialInv(w);
    StepKeepsInv(w, A(Send(bytes, now, nowMs)));
    InvLinks(v);
    if Count(v.a.ep.snd) == 0 {
      NothingAccepted(v.a, v.b);
    }
  }

  lemma NothingAccepted(x: Side, y: Side)
    requires LinkInv(x, y) && Count(x.ep.snd) == 0 && x.ep.snd.bgn == 0
    ensures x.accepted == []
  {
    hide Sound;
    hide WireInv;
  }

  /** The first segment sent by `a` can come to lie unread at `b`. */
  lemma FirstWriteStored(w: World, bytes: seq<byte>, now: nat, nowMs: nat) returns (evs: seq<Event>)
    requires Initial(w) && 0 < |bytes| <= w.a.ep.snd.payload
    requires Capacity(w.a.ep.snd) > 1 || |bytes| < w.a.ep.snd.payload
    requires 2 + Max(Capacity(w.a.ep.snd), Capacity(w.b.ep.rcv)) < INVALID_ID
    requires Max(Capacity(w.b.ep.snd), Capacity(w.a.ep.rcv)) < INVALID_ID
    ensures IsRun(w, evs)
    ensures var u := After(w, evs).b; u.accepted == [] && IsEmpty(u.ep.snd) && !IsEmpty(u.ep.rcv)
    ensures NoRecv(evs)
    ensures var u := After(w, evs);
      && Inv(u) && Slack(u) && !Stuck(u.a.ep.snd) && Top(u.a.ep.snd) == 1
      && Capacity(u.a.ep.snd) == Capacity(w.a.ep.snd) && Capacity(u.b.ep.rcv) == Capacity(w.b.ep.rcv)
      && u.a.log == [bytes] && u.a.accepted == bytes && u.b.read == [] && u.b.ep.rcv.bgn == 0
  {
    hide Inv, Slack, NoWrap, CanStep, Next, IsRun, After, Emitted, SendUnacked, Stuck, Outstanding, Top, NoRecv;
    hide Keeps, Initial;
    var first := A(Send(bytes, now, nowMs));
    SomethingWritten(w, bytes, now, nowMs);
    var v := Next(w, first);
    var tick := A(DueTick(v.a.ep));
    FirstResent(v);
    var u := Next(v, tick);
    assert IsEmpty(w.b.ep.snd) && w.b.accepted == [] && w.b.read == [] && w.b.ep.rcv.bgn == 0 by {
      InitialIsEmpty(w);
    }
    var p := u.a.ep.snd.wnd[0].packet;
    var last := B(Deliver(Encode(p), 0));
    FirstStored(u, p);
    SlackNoWrap(v);
    SlackNoWrap(u);
    evs := ThreeSteps(w, first, tick, last);
  }

  lemma InitialIsEmpty(w: World)
    requires Initial(w)
    ensures IsEmpty(w.b.ep.snd) && w.b.accepted == [] && w.b.read == [] && w.b.ep.rcv.bgn == 0
  {
    EmptyAtStart(w.b);
  }

  lemma ThreeSteps(w: World, x: Event, y: Event, z: Event) returns (evs: seq<Event>)
    requires !x.act.Recv? && !y.act.Recv? && !z.act.Recv?
    requires NoWrap(w) && CanStep(w, x) && NoWrap(Next(w, x)) && CanStep(Next(w, x), y)
    requires var u := Next(Next(w, x), y); NoWrap(u) && CanStep(u, z) && NoWrap(Next(u, z))
    ensures IsRun(w, evs) && After(w, evs) == Next(Next(Next(w, x), y), z) && NoRecv(evs)
  {
    hide NoWrap, CanStep, Next;
    RunOfOne(Next(Next(w, x), y), z);
    RunCons(Next(w, x), y, [z]);
    RunCons(w, x, [y] + [z]);
    evs := [x] + ([y] + [z]);
  }

  lemma FirstResent(v: World)
    requires Inv(v) && Slack(v) && Outstanding(v.a.ep.snd)
    ensures var tick := A(DueTick(v.a.ep));
      && CanStep(v, tick)
      && var u := Next(v, tick);
      && u.b == v.b && u.a.accepted == v.a.accepted && u.a.ep.rcv == v.a.ep.rcv && Inv(u) && Slack(u)
      && Stuck(u.a.ep.snd) == Stuck(v.a.ep.snd) && Top(u.a.ep.snd) == Top(v.a.ep.snd)
      && Capacity(u.a.ep.snd) == Capacity(v.a.ep.snd)
      && u.a.ep.snd.bgn == v.a.ep.snd.bgn < |u.a.log|
      && var p := u.a.ep.snd.wnd[0].packet;
      p in u.a.wire && p.kind.Data? && p.id == u.a.ep.snd.bgn
  {
    hide Inv, Slack, CanStep, Next, Emitted, SendUnacked, Stuck, Outstanding, Top;
    var tick := A(DueTick(v.a.ep));
    RoundStarts(v);
    NextTickA(v, tick.act.now, tick.act.nowMs, tick.act.sealUs);
    NextTakesNothing(v, tick);
  }

  lemma FirstStored(u: World, p: Packet)
    requires Inv(u) && Slack(u) && p in u.a.wire && p.kind.Data? && Top(u.a.ep.snd) == 1
    requires p.id == u.b.ep.rcv.bgn == u.a.ep.snd.bgn < |u.a.log|
    ensures var ev := B(Deliver(Encode(p), 0));
      && CanStep(u, ev) && NoWrap(Next(u, ev))
      && var x := Next(u, ev);
      && x.a == u.a && Inv(x) && Slack(x) && x.a.log == [x.a.accepted]
      && x.b.read == u.b.read && x.b.ep.rcv.bgn == u.b.ep.rcv.bgn && Capacity(x.b.ep.rcv) == Capacity(u.b.ep.rcv)
      && x.b.accepted == u.b.accepted && x.b.ep.snd == u.b.ep.snd && !IsEmpty(x.b.ep.rcv)
  {
    hide Inv, NoWrap, CanStep, Next, Encode;
    var ev := B(Deliver(Encode(p), 0));
    DeliverLast(u, p);
    NextIsB(u, ev.act);
    SlackNoWrap(u);
    StepKeepsInv(u, ev);
    FirstLogged(Next(u, ev));
  }

  lemma NextIsB(w: World, act: Action)
    requires CanStep(w, B(act))
    ensures Next(w, B(act)).a == w.a
  {
    hide Step;
  }

  lemma FirstLogged(w: World)
    requires Inv(w) && Top(w.a.ep.snd) == 1 && 0 < |w.a.log|
    ensures w.a.log == [w.a.accepted]
  {
    InvLinks(w);
    OneLogged(w.a, w.b);
  }

  lemma OneLogged(x: Side, y: Side)
    requires LinkInv(x, y) && Top(x.ep.snd) == 1 && 0 < |x.log|
    ensures x.log == [x.accepted]
  {
    hide Sound;
    hide WireInv;
    assert |x.log| == 1 && Tail(x.ep.snd) == [];
    assert x.log == [x.log[0]] && x.log[1..] == [];
    assert Flatten(x.log) == x.log[0] + Flatten([]) == x.log[0];
  }

  predicate NoRecv(evs: seq<Event>) {
    forall i :: 0 <= i < |evs| ==> !evs[i].act.Recv?
  }

  lemma EmptyAtStart(s: Side)
    requires InitSide(s)
    ensures IsEmpty(s.ep.snd) && s.accepted == [] && s.read == [] && s.ep.rcv.bgn == 0
  {
    assert Last(s.ep.snd) in s.ep.snd.wnd;
  }

  lemma DeliverLast(u: World, p: Packet)
    requires Inv(u) && Slack(u) && p in u.a.wire && p.kind.Data?
    requires p.id == u.b.ep.rcv.bgn == u.a.ep.snd.bgn < |u.a.log|
    ensures var ev := B(Deliver(Encode(p), 0));
      && CanStep(u, ev) && NoWrap(Next(u, ev))
      && var y := Next(u, ev).b;
      && y.read == u.b.read && y.ep.rcv.bgn == u.b.ep.rcv.bgn && Capacity(y.ep.rcv) == Capacity(u.b.ep.rcv)
      && y.accepted == u.b.accepted && y.ep.snd == u.b.ep.snd && !IsEmpty(y.ep.rcv)
  {
    hide Inv;
    hide Sound;
    hide Accepts;
    hide Encode;
    hide Decode;
    hide Receive;
    InvLinks(u);
    DeliverFirst(u.a, u.b, p, 0);
    assert Accepts(Encode(p)) by { SoundIsAccepted(p); }
    NextDeliverB(u, p, 0);
    StoredUnread(u.a, u.b, p, 0);
    ReceiveShape(u.b.ep, p, 0);
    assert u.b.accepted + [] == u.b.accepted && u.b.read + [] == u.b.read;
    ReceiveKeepsBgn(u.b.ep, p, 0);
  }

  lemma ReceiveKeepsBgn(e: Endpoint, p: Packet, now: nat)
    requires |p.data| == e.rcv.payload
    ensures Receive(e, p, now).0.rcv.bgn == e.rcv.bgn
  {
    hide Seal;
  }

  /** An end that has written nothing and yet cannot flush: whatever segment its peer sends
      first (here `b` sends to `a`) may arrive and lie unread, and then no flush returns. */
  lemma UnreadBlocksFlush(w: World, bytes: seq<byte>, now: nat, nowMs: nat) returns (evs: seq<Event>)
    requires Initial(w) && 0 < |bytes| <= w.b.ep.snd.payload
    requires Capacity(w.b.ep.snd) > 1 || |bytes| < w.b.ep.snd.payload
    requires 2 + Max(Capacity(w.b.ep.snd), Capacity(w.a.ep.rcv)) < INVALID_ID
    requires Max(Capacity(w.a.ep.snd), Capacity(w.b.ep.rcv)) < INVALID_ID
    ensures IsRun(w, evs)
    ensures var v := After(w, evs);
      && v.a.accepted == [] && IsEmpty(v.a.ep.snd)
      && forall more :: IsRun(v, more) && Flushing(more) ==> !Flushed(After(v, more).a.ep)
  {
    hide IsRun;
    hide After;
    hide Inv;
    hide Flushing;
    var m := Mirror(w);
    assert Mirror(m) == w;
    var back := FirstWriteStored(m, bytes, now, nowMs);
    MirrorRun(m, back);
    evs := MirrorAll(back);
    Reachable(w, evs);
    var v := After(w, evs);
    forall more | IsRun(v, more) && Flushing(more)
      ensures !Flushed(After(v, more).a.ep)
    {
      UnreadStays(v, more);
    }
  }
}
