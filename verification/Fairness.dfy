/** Progress that cannot be avoided: whatever else happens, a sender that is not stuck is
    empty after as many fair rounds as it has ids outstanding. */
module Fairness {
  import opened Bytes
  import opened Frame
  import opened Packets
  import opened WindowRing
  import opened Protocol
  import opened Invariant
  import opened Safety
  import opened Delivery
  import opened Liveness
  import opened Completion

  // ------------------------------------------------------------------ steps without a write

  /** An acknowledgement of any id never moves the sending half back. */
  lemma AckKeepsTop(x: Side, y: Side, id: nat)
    requires LinkInv(x, y) && Contains(x.ep.snd, id)
    ensures var r, r' := x.ep.snd, AckId(x.ep.snd, id);
      r'.bgn >= r.bgn && Top(r') == Top(r) && Stuck(r') == Stuck(r)
  {
    hide Sound;
    hide WireInv;
    var r, m := x.ep.snd, MarkAcked(x.ep.snd, id);
    ForgedMarkKeeps(x, y, id);
    assert Last(m) == Last(r) || Last(m) == Last(r).(isAcked := true);
    if id == r.bgn {
      var n := DonePrefix(m.wnd);
      RemoveEffect(m, n);
      if r.bgn + n <= r.end {
        assert Last(RemoveN(m, n)) == Last(m);
      } else {
        assert Last(RemoveN(m, n)).packet.size == 0;
      }
    }
  }

  /** What no step without a write at `a` takes back. */
  predicate Onward(r: Ring, r': Ring) {
    r'.bgn >= r.bgn && Top(r') == Top(r) && Stuck(r') == Stuck(r)
  }

  lemma StepOnward(w: World, ev: Event)
    requires Inv(w) && CanStep(w, ev) && NoSendByA([ev])
    ensures Onward(w.a.ep.snd, Next(w, ev).a.ep.snd)
  {
    hide LinkInv, Receive, SendUnacked, Accepts, Encode, FromLe, Stuck, Top;
    assert [ev][0] == ev;
    if ev.A? {
      AllowedEnabled(w.a.ep, w.b.wire, ev.act);
      match ev.act
      case Recv(n) =>
      case Tick(now, nowMs, sealUs) => TickKeepsLast(w.a, w.b, ev.act);
      case Deliver(f, now) => if Accepts(f) { ReceiveOnward(w.a, w.b, Decode(f), now); }
    }
  }

  lemma ReceiveOnward(x: Side, y: Side, p: Packet, now: nat)
    requires LinkInv(x, y) && |p.data| == x.ep.rcv.payload
    ensures Onward(x.ep.snd, Receive(x.ep, p, now).0.snd)
  {
    hide LinkInv, Stuck, Top, AckId, Seal;
    if p.kind.Ack? && Contains(x.ep.snd, p.id) {
      AckKeepsTop(x, y, p.id);
    }
  }

  lemma {:induction false} RunOnward(w: World, evs: seq<Event>)
    requires Inv(w) && IsRun(w, evs) && NoSendByA(evs)
    ensures Inv(After(w, evs)) && Onward(w.a.ep.snd, After(w, evs).a.ep.snd)
    decreases |evs|
  {
    hide Inv, NoWrap, CanStep, Next, Stuck, Top;
    if evs != [] {
      assert NoSendByA([evs[0]]);
      assert NoSendByA(evs[1..]) by { NoSendRest(evs); }
      StepOnward(w, evs[0]);
      assert NoWrap(Next(w, evs[0]));
      StepKeepsInv(w, evs[0]);
      RunOnward(Next(w, evs[0]), evs[1..]);
    }
  }

  lemma NoSendRest(evs: seq<Event>)
    requires NoSendByA(evs) && evs != []
    ensures NoSendByA(evs[1..])
  {
    forall i | 0 <= i < |evs[1..]|
      ensures !(evs[1..][i].A? && evs[1..][i].act.Send?)
    {
      assert evs[1..][i] == evs[i + 1];
    }
  }

  // ------------------------------------------------------------------ a fair round

  /** Anything, in which the window that was first at the start gets through once: its packet
      `p` is delivered, later the acknowledgement `q` that this earns. */
  datatype Round = Round(before: seq<Event>, p: Packet, time: nat,
                         between: seq<Event>, q: Packet, ackTime: nat, after: seq<Event>)

  function Arrival(r: Round): Event {
    B(Deliver(Encode(r.p), r.time))
  }

  function AckArrival(r: Round): Event {
    A(Deliver(Encode(r.q), r.ackTime))
  }

  function EventsOf(r: Round): seq<Event> {
    r.before + ([Arrival(r)] + (r.between + ([AckArrival(r)] + r.after)))
  }

  /** Nothing is written meanwhile, and when the packet arrives the receiver's window has
      reached it, because its application has read enough. */
  ghost predicate Fair(w: World, r: Round) {
    && NoSendByA(r.before) && NoSendByA(r.between) && NoSendByA(r.after)
    && IsRun(w, EventsOf(r)) && IsRun(w, r.before)
    && var v := After(w, r.before);
    && r.p in v.a.wire && r.p.kind.Data? && r.p.id == w.a.ep.snd.bgn
    && r.p.id < v.b.ep.rcv.bgn + Capacity(v.b.ep.rcv)
    && CanStep(v, Arrival(r)) && r.q in Emitted(v, Arrival(r))
  }

  lemma {:induction false} RunSplits(w: World, x: seq<Event>, y: seq<Event>)
    requires IsRun(w, x + y)
    ensures IsRun(w, x) && IsRun(After(w, x), y) && After(w, x + y) == After(After(w, x), y)
    decreases |x|
  {
    hide NoWrap, CanStep, Next;
    if x == [] {
      assert x + y == y;
    } else {
      assert (x + y)[0] == x[0] && (x + y)[1..] == x[1..] + y;
      RunSplits(Next(w, x[0]), x[1..], y);
    }
  }

  lemma RunHead(w: World, ev: Event, evs: seq<Event>)
    requires IsRun(w, [ev] + evs)
    ensures NoWrap(w) && CanStep(w, ev) && IsRun(Next(w, ev), evs)
    ensures After(w, [ev] + evs) == After(Next(w, ev), evs)
    ensures NoWrap(Next(w, ev))
  {
    hide NoWrap, CanStep, Next;
    assert ([ev] + evs)[1..] == evs;
  }

  /** A packet that the receiver has room for, or has had, earns one true acknowledgement. */
  lemma ArrivalEarnsAck(x: Side, y: Side, p: Packet, now: nat)
    requires LinkInv(x, y) && p in x.wire && p.kind.Data? && p.id < y.ep.rcv.bgn + Capacity(y.ep.rcv)
    ensures |p.data| == y.ep.rcv.payload && p.id < |x.log|
    ensures var out := Receive(y.ep, p, now).1;
      && |out| == 1 && out[0].kind.Ack? && out[0].id == p.id && Sound(out[0]) && |out[0].data| == y.ep.snd.payload
  {
    hide Sound;
    hide Seal;
    assert Genuine(p, x.log);
    SealedSound(y.ep.ackBuf.(header := HEADER, kind := Ack, id := p.id));
  }

  /** The acknowledgement of id `i`, when it arrives, leaves `i` behind. */
  lemma AckLeavesBehind(w: World, q: Packet, now: nat, i: nat)
    requires Inv(w) && CanStep(w, A(Deliver(Encode(q), now))) && i <= w.a.ep.snd.bgn && i < |w.a.log|
    requires q.kind.Ack? && q.id == i && Sound(q) && |q.data| == w.a.ep.rcv.payload
    ensures Next(w, A(Deliver(Encode(q), now))).a.ep.snd.bgn > i
  {
    hide LinkInv, Accepts, Encode, Decode, AckId;
    DecodeEncode(q);
    assert Accepts(Encode(q)) by { SoundIsAccepted(q); }
    AllowedEnabled(w.a.ep, w.b.wire, Deliver(Encode(q), now));
    if w.a.ep.snd.bgn == i {
      AckFirst(w.a, w.b);
    }
  }

  /** A fair round moves the window on, whatever else happens in it. */
  lemma RoundMovesOn(w: World, r: Round)
    requires Inv(w) && Fair(w, r)
    ensures var u := After(w, EventsOf(r));
      Inv(u) && Onward(w.a.ep.snd, u.a.ep.snd) && u.a.ep.snd.bgn > w.a.ep.snd.bgn
  {
    hide Inv, NoWrap, CanStep, Next, IsRun, After, Emitted, Stuck, Top, NoSendByA, Arrival, AckArrival;
    var i := w.a.ep.snd.bgn;
    RunSplits(w, r.before, [Arrival(r)] + (r.between + ([AckArrival(r)] + r.after)));
    RunOnward(w, r.before);
    var v := After(w, r.before);
    RunHead(v, Arrival(r), r.between + ([AckArrival(r)] + r.after));
    var x := Next(v, Arrival(r));
    ArrivalStep(v, r);
    RunSplits(x, r.between, [AckArrival(r)] + r.after);
    RunOnward(x, r.between);
    LogStays(x, r.between);
    var y := After(x, r.between);
    RunHead(y, AckArrival(r), r.after);
    var z := Next(y, AckArrival(r));
    AckStep(x, y, r, i);
    RunOnward(z, r.after);
  }

  /** The packet's arrival: the acknowledgement is genuine, and `a` is not concerned. */
  lemma ArrivalStep(v: World, r: Round)
    requires Inv(v) && NoWrap(v) && CanStep(v, Arrival(r)) && NoWrap(Next(v, Arrival(r)))
    requires r.p in v.a.wire && r.p.kind.Data? && r.p.id < v.b.ep.rcv.bgn + Capacity(v.b.ep.rcv)
    requires r.q in Emitted(v, Arrival(r))
    ensures var x := Next(v, Arrival(r));
      && x.a == v.a && Inv(x) && r.p.id < |x.a.log|
      && r.q.kind.Ack? && r.q.id == r.p.id && Sound(r.q) && |r.q.data| == x.a.ep.rcv.payload
  {
    hide Inv, LinkInv, NoWrap, CanStep, Next, Emitted, Accepts, Encode, Sound, Receive;
    InvLinks(v);
    ArrivalEarnsAck(v.a, v.b, r.p, r.time);
    PacketOnWire(v.a, v.b, r.p);
    assert Accepts(Encode(r.p)) by { SoundIsAccepted(r.p); }
    NextDeliverB(v, r.p, r.time);
    StepKeepsInv(v, Arrival(r));
  }

  lemma PacketOnWire(x: Side, y: Side, p: Packet)
    requires LinkInv(x, y) && p in x.wire && p.kind.Data? && p.id < |x.log|
    ensures Sound(p)
  {
    hide Sound;
    assert Genuine(p, x.log);
  }

  lemma AckStep(x: World, y: World, r: Round, i: nat)
    requires Inv(y) && CanStep(y, AckArrival(r)) && NoWrap(Next(y, AckArrival(r)))
    requires i <= y.a.ep.snd.bgn && i < |y.a.log|
    requires r.q.kind.Ack? && r.q.id == i && Sound(r.q) && |r.q.data| == y.a.ep.rcv.payload
    ensures var z := Next(y, AckArrival(r));
      Inv(z) && Onward(y.a.ep.snd, z.a.ep.snd) && z.a.ep.snd.bgn > i
  {
    hide Inv, NoWrap, CanStep, Next, Encode, Sound, Stuck, Top;
    AckLeavesBehind(y, r.q, r.ackTime, i);
    StepOnward(y, AckArrival(r));
    StepKeepsInv(y, AckArrival(r));
  }

  /** The log only grows, and frame sizes stay. */
  lemma {:induction false} LogStays(w: World, evs: seq<Event>)
    requires IsRun(w, evs)
    ensures |After(w, evs).a.log| >= |w.a.log| && After(w, evs).a.ep.rcv.payload == w.a.ep.rcv.payload
    decreases |evs|
  {
    hide NoWrap, Accepts, Encode, Perform, Logged, Wired;
    if evs != [] {
      match evs[0] {
        case A(act) =>
          AllowedEnabled(w.a.ep, w.b.wire, act);
          LoggedGrows(w.a.log, Perform(w.a.ep, act).out);
          PayloadStays(w.a.ep, act);
        case B(act) =>
      }
      LogStays(Next(w, evs[0]), evs[1..]);
    }
  }

  lemma PayloadStays(e: Endpoint, act: Action)
    requires Enabled(e, act)
    ensures Perform(e, act).ep.rcv.payload == e.rcv.payload
  {
    hide Accepts, FromLe, Receive, SendUnacked, Write, Read;
    match act
    case Send(bytes, now, nowMs) =>
    case Recv(n) => ReadShape(e.rcv, n);
    case Tick(now, nowMs, sealUs) => TickShape(e, now, nowMs, sealUs);
    case Deliver(f, now) => if Accepts(f) { ReceiveShape(e, Decode(f), now); }
  }

  // ------------------------------------------------------------------ fair runs

  /** One fair round after the other, with anything that is not a write in them. */
  ghost predicate FairRun(w: World, rounds: seq<Round>)
    decreases |rounds|
  {
    rounds == [] || (Fair(w, rounds[0]) && FairRun(After(w, EventsOf(rounds[0])), rounds[1..]))
  }

  ghost function Finally(w: World, rounds: seq<Round>): World
    requires FairRun(w, rounds)
    decreases |rounds|
  {
    if rounds == [] then w else Finally(After(w, EventsOf(rounds[0])), rounds[1..])
  }

  lemma {:induction false} RoundsMoveOn(w: World, rounds: seq<Round>)
    requires Inv(w) && FairRun(w, rounds)
    ensures var u := Finally(w, rounds);
      Inv(u) && Onward(w.a.ep.snd, u.a.ep.snd) && u.a.ep.snd.bgn >= w.a.ep.snd.bgn + |rounds|
    decreases |rounds|
  {
    hide Inv, Fair, EventsOf, After, Stuck, Top;
    if rounds != [] {
      assert IsRun(w, EventsOf(rounds[0])) by { FairIsRun(w, rounds[0]); }
      RoundMovesOn(w, rounds[0]);
      RoundsMoveOn(After(w, EventsOf(rounds[0])), rounds[1..]);
    }
  }

  lemma FairIsRun(w: World, r: Round)
    requires Fair(w, r)
    ensures IsRun(w, EventsOf(r))
  {
  }

  /** Whatever else happens, there can be no more fair rounds than ids in use; and after that
      many the sending half is empty, unless its last window is stuck, which then is all
      that is left after one round fewer. */
  lemma FairRunsEmpty(w: World, rounds: seq<Round>)
    requires Inv(w) && FairRun(w, rounds)
    ensures var left, u := Top(w.a.ep.snd) - w.a.ep.snd.bgn, Finally(w, rounds).a.ep.snd;
      && |rounds| <= left - (if Stuck(w.a.ep.snd) then 1 else 0)
      && (!Stuck(w.a.ep.snd) && |rounds| == left ==> IsEmpty(u))
      && (Stuck(w.a.ep.snd) && |rounds| == left - 1 ==> u.bgn == u.end && Stuck(u))
  {
    hide Inv, FairRun, Finally;
    RoundsMoveOn(w, rounds);
  }
}
