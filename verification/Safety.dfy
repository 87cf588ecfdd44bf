/** What every run of two ends over a lossy, duplicating, reordering and corrupting
    network keeps, and what follows for the octets delivered. */
module Safety {
  import opened Bytes
  import opened Seqs
  import opened Frame
  import opened Packets
  import opened WindowRing
  import opened Protocol
  import opened Invariant

  // ------------------------------------------------------------------ the receiving half

  /** What the receiver has, it keeps. */
  ghost predicate KeepsReceived(r: Ring, r': Ring) {
    forall id :: 0 <= id && Received(r, id) ==> Received(r', id)
  }

  lemma StoreEffect(r: Ring, p: Packet, id: nat)
    requires Contains(r, id) && |p.data| == r.payload
    ensures var r' := Store(r, p, id);
      && r'.bgn == r.bgn && |r'.wnd| == |r.wnd|
      && (forall k :: r.bgn <= k < r.bgn + |r.wnd| && k != id ==> At(r', k) == At(r, k))
      && At(r', id) == At(r, id).(packet := p, isAcked := true)
  {
  }

  /** A genuine packet inside the window is stored; one that is there already changes nothing. */
  lemma StoreKeeps(r: Ring, p: Packet, wire: set<Packet>, log: Log, read: seq<byte>)
    requires ReceiverInv(r, wire, log, read) && WireInv(wire, log, r.payload)
    requires p in wire && p.kind.Data? && Contains(r, p.id)
    ensures p.id < |log| && ReceiverInv(Store(r, p, p.id), wire, log, read)
    ensures KeepsReceived(r, Store(r, p, p.id)) && Received(Store(r, p, p.id), p.id)
    ensures At(r, p.id).IsValid() ==> Store(r, p, p.id) == r
  {
    hide Sound;
    var r' := Store(r, p, p.id);
    StoreEffect(r, p, p.id);
    assert Genuine(p, log);
    assert At(r, p.id).isAcked;
    assert r.wnd[0] == At(r, r.bgn) && r'.wnd[0] == At(r', r.bgn);
    if At(r, p.id).IsValid() {
      assert StoredSlot(At(r, p.id), p.id, wire);
      assert At(r, p.id).packet == p;
      assert r'.wnd == r.wnd;
    }
  }

  lemma TakeSnoc<T>(s: seq<T>, n: nat)
    requires n < |s|
    ensures s[..n + 1] == s[..n] + [s[n]]
  {
  }

  /** The first window of the receiver holds what the log says. */
  lemma FirstIsLogged(r: Ring, wire: set<Packet>, log: Log, read: seq<byte>)
    requires ReceiverInv(r, wire, log, read) && WireInv(wire, log, r.payload) && IsFirstAcked(r)
    ensures r.bgn < |log| && Carried(r.wnd[0].packet) == log[r.bgn]
    ensures read == Flatten(log[..r.bgn]) + log[r.bgn][..Min(r.stored, |log[r.bgn]|)]
  {
    hide Sound;
    assert r.wnd[0] == At(r, r.bgn);
    assert StoredSlot(At(r, r.bgn), r.bgn, wire);
    assert Genuine(r.wnd[0].packet, log);
  }

  /** Dropping a stored window keeps the shape of the receiving half. */
  lemma DropKeeps(r: Ring, wire: set<Packet>, log: Log, read: seq<byte>)
    requires ReceiverInv(r, wire, log, read) && IsFirstAcked(r) && r.bgn < |log|
    ensures var r' := RemoveN(r.(stored := 0), 1);
      ReceiverInv(r', wire, log, Flatten(log[..r.bgn + 1])) && KeepsReceived(r, r')
  {
    hide Flatten;
    var r' := RemoveN(r.(stored := 0), 1);
    RemoveEffect(r.(stored := 0), 1);
    assert forall id :: r'.bgn <= id < r.bgn + |r.wnd| ==> At(r', id) == At(r, id);
    assert EmptySlot(At(r', r.bgn + |r.wnd|));
    assert Begun(r') == [];
    assert Flatten(log[..r'.bgn]) + [] == Flatten(log[..r'.bgn]);
  }

  /** Moving the cursor inside a stored window keeps the shape of the receiving half. */
  lemma CursorKeeps(r: Ring, to: nat, wire: set<Packet>, log: Log, read: seq<byte>)
    requires ReceiverInv(r, wire, log, read) && IsFirstAcked(r) && r.bgn < |log|
    requires to < r.wnd[0].packet.size && Carried(r.wnd[0].packet) == log[r.bgn]
    ensures ReceiverInv(r.(stored := to), wire, log, Flatten(log[..r.bgn]) + log[r.bgn][..to])
  {
    hide Flatten;
    hide StoredSlot;
    var r' := r.(stored := to);
    forall id | r.bgn <= id < r.bgn + |r.wnd|
      ensures At(r', id) == At(r, id)
    {
    }
  }

  lemma ReadKeeps(r: Ring, n: nat, wire: set<Packet>, log: Log, read: seq<byte>)
    requires ReceiverInv(r, wire, log, read) && WireInv(wire, log, r.payload)
    ensures var (r', bytes) := Read(r, n);
      ReceiverInv(r', wire, log, read + bytes) && KeepsReceived(r, r')
  {
    hide ReceiverInv;
    hide WireInv;
    hide Flatten;
    hide RemoveN;
    hide KeepsReceived;
    var (r', got) := Read(r, n);
    KeepsSelf(r);
    if !IsFirstAcked(r) {
      assert read + [] == read;
    } else {
      FirstIsLogged(r, wire, log, read);
      var bytes := log[r.bgn];
      var from := Min(r.stored, |bytes|);
      var to := Min(from + n, |bytes|);
      assert bytes[..from] + bytes[from..to] == bytes[..to];
      assert read + got == Flatten(log[..r.bgn]) + bytes[..to];
      if to >= |bytes| {
        assert bytes[..to] == bytes;
        TakeSnoc(log, r.bgn);
        FlattenSnoc(log[..r.bgn], bytes);
        DropKeeps(r, wire, log, read);
      } else {
        CursorKeeps(r, to, wire, log, read);
      }
    }
  }

  lemma KeepsSelf(r: Ring)
    ensures KeepsReceived(r, r)
    ensures forall to: nat :: KeepsReceived(r, r.(stored := to))
  {
    forall to: nat, id: nat | Received(r, id)
      ensures Received(r.(stored := to), id)
    {
      assert Contains(r, id) ==> At(r.(stored := to), id) == At(r, id);
    }
  }

  lemma ReceiverWireGrows(r: Ring, wire: set<Packet>, log: Log, read: seq<byte>,
                          wire': set<Packet>, log': Log)
    requires ReceiverInv(r, wire, log, read)
    requires wire <= wire' && log <= log' && |log'| + |r.wnd| <= INVALID_ID
    ensures ReceiverInv(r, wire', log', read)
  {
    assert log'[..r.bgn] == log[..r.bgn];
  }

  lemma SenderSeesMore(r: Ring, wire: set<Packet>, log: Log, accepted: seq<byte>, rcv: Ring, rcv': Ring)
    requires SenderInv(r, wire, log, accepted, rcv) && KeepsReceived(rcv, rcv')
    ensures SenderInv(r, wire, log, accepted, rcv')
  {
    hide WireInv;
    forall id | r.bgn <= id < |log|
      ensures SentSlot(At(r, id), id, wire, rcv')
    {
      assert SentSlot(At(r, id), id, wire, rcv);
    }
  }

  // ------------------------------------------------------------------ one step of the sender

  /** The histories when an action puts nothing on the wire and moves no octets. */
  lemma NothingHappens(s: Side)
    ensures Wired(s.wire, []) == s.wire && Logged(s.log, []) == s.log
    ensures s.accepted + [] == s.accepted && s.read + [] == s.read
  {
  }

  /** `x` acts; the direction in which it sends stays sound. */
  lemma SenderStep(x: Side, y: Side, act: Action)
    requires LinkInv(x, y) && Allowed(x.ep, y.wire, act) && Enabled(x.ep, act)
    requires var x' := Step(x, act);
      x'.ep.snd.end + Max(|x'.ep.snd.wnd|, |y.ep.rcv.wnd|) < INVALID_ID
    ensures LinkInv(Step(x, act), y)
  {
    hide SenderInv;
    hide ReceiverInv;
    hide Accepts;
    hide Encode;
    hide Decode;
    hide Receive;
    hide SendUnacked;
    hide Write;
    hide Logged;
    hide Wired;
    var x' := Step(x, act);
    NothingHappens(x);
    match act
    case Send(bytes, now, nowMs) =>
      var out := Write(x.ep.snd, bytes, now, nowMs).1;
      WriteShape(x.ep.snd, bytes, now, nowMs);
      WriteKeeps(x.ep.snd, bytes, now, nowMs, x.wire, x.log, x.accepted, y.ep.rcv);
      SenderGrew(x, y, x', out);
    case Recv(n) =>
    case Tick(now, nowMs, sealUs) =>
      var out := SendUnacked(x.ep, now, nowMs, sealUs).1;
      TickShape(x.ep, now, nowMs, sealUs);
      TickKeeps(x.ep, now, nowMs, sealUs, x.wire, x.log, x.accepted, y.ep.rcv);
      SenderGrew(x, y, x', out);
    case Deliver(f, now) =>
      if Accepts(f) {
        var p: Packet :| p in y.wire && f == Encode(p);
        DecodeEncode(p);
        var out := Receive(x.ep, p, now).1;
        ReceiveShape(x.ep, p, now);
        ReceiveAsSender(x, y, p, now);
        SenderGrew(x, y, x', out);
      }
  }

  lemma WriteShape(r: Ring, bytes: seq<byte>, now: nat, nowMs: nat)
    requires |bytes| <= r.payload
    ensures var r' := Write(r, bytes, now, nowMs).0;
      r'.payload == r.payload && |r'.wnd| == |r.wnd|
  {
  }

  lemma TickShape(e: Endpoint, now: nat, nowMs: nat, sealUs: nat)
    ensures var e' := SendUnacked(e, now, nowMs, sealUs).0;
      && e'.snd.payload == e.snd.payload && |e'.snd.wnd| == |e.snd.wnd| && e'.snd.end == e.snd.end
      && e'.rcv == e.rcv
  {
    hide Seal;
  }

  lemma ReceiveShape(e: Endpoint, p: Packet, now: nat)
    requires |p.data| == e.rcv.payload
    ensures var e' := Receive(e, p, now).0;
      && e'.snd.payload == e.snd.payload && |e'.snd.wnd| == |e.snd.wnd|
      && e'.rcv.payload == e.rcv.payload && |e'.rcv.wnd| == |e.rcv.wnd|
  {
    hide Seal;
  }

  /** Once the sending half is sound again, the rest of the direction follows. */
  lemma SenderGrew(x: Side, y: Side, x': Side, out: seq<Packet>)
    requires LinkInv(x, y)
    requires x'.wire == Wired(x.wire, out) && x'.log == Logged(x.log, out)
    requires x'.ep.snd.payload == x.ep.snd.payload
    requires SenderInv(x'.ep.snd, x'.wire, x'.log, x'.accepted, y.ep.rcv)
    requires x'.ep.snd.end + |y.ep.rcv.wnd| < INVALID_ID
    ensures LinkInv(x', y)
  {
    hide Sound;
    LoggedGrows(x.log, out);
    ReceiverWireGrows(y.ep.rcv, x.wire, x.log, y.read, x'.wire, x'.log);
  }

  /** A packet arriving at `x`, for the direction in which `x` sends. */
  lemma ReceiveAsSender(x: Side, y: Side, p: Packet, now: nat)
    requires LinkInv(x, y) && p in y.wire && |p.data| == x.ep.rcv.payload
    requires Receive(x.ep, p, now).0.snd.end + |x.ep.snd.wnd| < INVALID_ID
    ensures var (e', out) := Receive(x.ep, p, now);
      && SenderInv(e'.snd, Wired(x.wire, out), Logged(x.log, out), x.accepted, y.ep.rcv)
      && e'.snd.payload == x.ep.snd.payload
  {
    hide SenderInv;
    hide Sound;
    hide Seal;
    var (e', out) := Receive(x.ep, p, now);
    if p.kind.Ack? {
      WiredNone(x.wire);
      if Contains(x.ep.snd, p.id) {
        AckIdWithinLog(x, y, p.id);
        AckKeeps(x.ep.snd, p.id, x.wire, x.log, x.accepted, y.ep.rcv);
      }
    } else {
      AcksKeep(x.ep.snd, out, x.wire, x.log, x.accepted, y.ep.rcv);
    }
  }

  /** Only numbered packets are ever received. */
  lemma AckIdWithinLog(x: Side, y: Side, id: nat)
    requires LinkInv(x, y) && Received(y.ep.rcv, id)
    ensures id < |x.log|
  {
    hide Sound;
    var r := y.ep.rcv;
    if id >= r.bgn {
      assert StoredSlot(At(r, id), id, x.wire);
      assert Genuine(At(r, id).packet, x.log);
    }
  }

  // ------------------------------------------------------------------ one step of the receiver

  predicate NoAcks(r: Ring) {
    forall i :: 0 <= i < |r.wnd| ==> !IsAck(r.wnd[i].packet)
  }

  lemma SenderSendsData(x: Side, y: Side)
    requires LinkInv(x, y)
    ensures NoAcks(x.ep.snd) && WireInv(x.wire, x.log, x.ep.snd.payload)
  {
    hide Sound;
    hide WireInv;
    var r := x.ep.snd;
    forall i | 0 <= i < |r.wnd|
      ensures !IsAck(r.wnd[i].packet)
    {
      var id := r.bgn + i;
      assert r.wnd[i] == At(r, id);
      if id < |x.log| {
        assert SentSlot(At(r, id), id, x.wire, y.ep.rcv);
      } else {
        assert UnsentSlot(At(r, id));
      }
    }
  }

  predicate NoAcksIn(out: seq<Packet>) {
    forall p :: p in out ==> !IsAck(p)
  }

  lemma FillOnceSendsData(r: Ring, bytes: seq<byte>, now: nat, nowMs: nat)
    requires NoAcks(r) && |bytes| <= Room(r)
    ensures var (r', out) := FillOnce(r, bytes, now, nowMs); NoAcks(r') && NoAcksIn(out)
  {
    hide Seal;
  }

  lemma {:induction false} FillSendsData(r: Ring, bytes: seq<byte>, now: nat, nowMs: nat)
    requires NoAcks(r) && (bytes != [] ==> Count(r) < |r.wnd| && |bytes| <= r.payload)
    ensures NoAcksIn(Fill(r, bytes, now, nowMs).1)
    decreases |bytes|, Last(r).packet.size
  {
    hide FillOnce;
    if bytes != [] {
      var n := Min(|bytes|, Room(r));
      FillLeavesRoom(r, bytes, n, now, nowMs);
      FillOnceSendsData(r, bytes[..n], now, nowMs);
      FillSendsData(FillOnce(r, bytes[..n], now, nowMs).0, bytes[n..], now, nowMs);
    }
  }

  lemma TickSendsData(e: Endpoint, now: nat, nowMs: nat, sealUs: nat)
    requires NoAcks(e.snd)
    ensures NoAcksIn(SendUnacked(e, now, nowMs, sealUs).1)
  {
    hide Seal;
    forall p | p in Unacked(e.snd, e.snd.bgn, now, e.delay)
      ensures !IsAck(p)
    {
      UnackedExactly(e.snd, e.snd.bgn, now, e.delay, p);
    }
  }

  lemma ReadShape(r: Ring, n: nat)
    ensures Read(r, n).0.payload == r.payload && |Read(r, n).0.wnd| == |r.wnd|
  {
  }

  /** Data packets on the way back do not concern the receiving half. */
  lemma DataKeepsAcks(rcv: Ring, back: set<Packet>, out: seq<Packet>)
    requires AckInv(rcv, back) && NoAcksIn(out)
    ensures AckInv(rcv, Wired(back, out))
  {
    hide Sound;
  }

  lemma AcksSeeMore(rcv: Ring, rcv': Ring, back: set<Packet>)
    requires AckInv(rcv, back) && KeepsReceived(rcv, rcv')
    ensures AckInv(rcv', back)
  {
    hide Sound;
  }

  lemma AckTrue(e: Endpoint, rcv: Ring, back: set<Packet>, id: nat)
    requires AckInv(rcv, back) && id <= INVALID_ID && Received(rcv, id)
    ensures AckInv(rcv, Wired(back, SendAck(e, id).1))
  {
    hide Sound;
    hide Seal;
    SealedSound(e.ackBuf.(header := HEADER, kind := Ack, id := id));
  }

  /** A packet arriving at `y`, for the direction in which `y` receives. */
  lemma ReceiveAsReceiver(x: Side, y: Side, p: Packet, now: nat)
    requires LinkInv(x, y) && p in x.wire && |p.data| == y.ep.rcv.payload
    ensures var (e', out) := Receive(y.ep, p, now);
      && ReceiverInv(e'.rcv, x.wire, x.log, y.read) && KeepsReceived(y.ep.rcv, e'.rcv)
      && e'.rcv.payload == y.ep.rcv.payload && |e'.rcv.wnd| == |y.ep.rcv.wnd|
      && AckInv(e'.rcv, Wired(y.wire, out))
  {
    hide SenderInv;
    hide Sound;
    hide SendAck;
    hide Wired;
    var r := y.ep.rcv;
    SenderSendsData(x, y);
    if p.kind.Ack? {
      WiredNone(y.wire);
    } else if p.id < r.bgn {
      AckTrue(y.ep, r, y.wire, p.id);
      SendAckKeepsRings(y.ep, p.id);
    } else if Contains(r, p.id) {
      var e := y.ep.(rcv := Store(r, p, p.id));
      StoreKeeps(r, p, x.wire, x.log, y.read);
      AcksSeeMore(r, e.rcv, y.wire);
      AckTrue(e, e.rcv, y.wire, p.id);
      SendAckKeepsRings(e, p.id);
    } else {
      WiredNone(y.wire);
    }
  }

  lemma SendAckKeepsRings(e: Endpoint, id: nat)
    requires id <= INVALID_ID
    ensures SendAck(e, id).0.rcv == e.rcv && SendAck(e, id).0.snd == e.snd
  {
  }

  /** `y` acts; the direction in which it receives stays sound. */
  lemma ReceiverStep(x: Side, y: Side, act: Action)
    requires LinkInv(x, y) && Allowed(y.ep, x.wire, act) && Enabled(y.ep, act)
    requires NoAcks(y.ep.snd)
    ensures LinkInv(x, Step(y, act))
    ensures KeepsReceived(y.ep.rcv, Step(y, act).ep.rcv)
  {
    hide SenderInv;
    hide ReceiverInv;
    hide AckInv;
    hide Accepts;
    hide Encode;
    hide Decode;
    hide Receive;
    hide SendUnacked;
    hide Write;
    hide Logged;
    hide Read;
    hide Wired;
    var y' := Step(y, act);
    NothingHappens(y);
    SenderSendsData(x, y);
    match act
    case Send(bytes, now, nowMs) =>
      WriteSendsData(y.ep.snd, bytes, now, nowMs);
      DataKeepsAcks(y.ep.rcv, y.wire, Write(y.ep.snd, bytes, now, nowMs).1);
    case Recv(n) =>
      ReadKeeps(y.ep.rcv, n, x.wire, x.log, y.read);
      ReadShape(y.ep.rcv, n);
      AcksSeeMore(y.ep.rcv, y'.ep.rcv, y.wire);
      SenderSeesMore(x.ep.snd, x.wire, x.log, x.accepted, y.ep.rcv, y'.ep.rcv);
    case Tick(now, nowMs, sealUs) =>
      TickShape(y.ep, now, nowMs, sealUs);
      TickSendsData(y.ep, now, nowMs, sealUs);
      DataKeepsAcks(y.ep.rcv, y.wire, SendUnacked(y.ep, now, nowMs, sealUs).1);
    case Deliver(f, now) =>
      if Accepts(f) {
        var p: Packet :| p in x.wire && f == Encode(p);
        DecodeEncode(p);
        ReceiveAsReceiver(x, y, p, now);
        SenderSeesMore(x.ep.snd, x.wire, x.log, x.accepted, y.ep.rcv, y'.ep.rcv);
      }
  }

  lemma WriteSendsData(r: Ring, bytes: seq<byte>, now: nat, nowMs: nat)
    requires NoAcks(r) && |bytes| <= r.payload
    ensures NoAcksIn(Write(r, bytes, now, nowMs).1)
  {
    hide Fill;
    if !Blocked(r) && bytes != [] {
      FillSendsData(r, bytes, now, nowMs);
    }
  }

  // ------------------------------------------------------------------ all runs

  lemma InitialInv(w: World)
    requires Initial(w) && NoWrap(w)
    ensures Inv(w)
  {
    hide Sound;
    InitLink(w.a, w.b);
    InitLink(w.b, w.a);
  }

  lemma InitLink(x: Side, y: Side)
    requires InitSide(x) && InitSide(y) && x.ep.snd.payload == y.ep.rcv.payload
    requires y.ep.rcv.stored == 0
    requires x.ep.snd.end + Max(|x.ep.snd.wnd|, |y.ep.rcv.wnd|) < INVALID_ID
    ensures LinkInv(x, y)
  {
    hide Sound;
    var r, s := x.ep.snd, y.ep.rcv;
    forall id | 0 <= id < |r.wnd|
      ensures UnsentSlot(At(r, id)) && At(r, id).packet.size == 0
    {
      assert At(r, id) in r.wnd;
    }
    forall id | 0 <= id < |s.wnd|
      ensures EmptySlot(At(s, id)) && At(s, id).isAcked
    {
      assert At(s, id) in s.wnd;
    }
    assert Last(r) == At(r, 0) && s.wnd[0] == At(s, 0) && r.wnd[0] == At(r, 0);
  }

  lemma StepKeepsInv(w: World, ev: Event)
    requires Inv(w) && CanStep(w, ev) && NoWrap(Next(w, ev))
    ensures Inv(Next(w, ev))
    ensures KeepsReceived(w.a.ep.rcv, Next(w, ev).a.ep.rcv)
    ensures KeepsReceived(w.b.ep.rcv, Next(w, ev).b.ep.rcv)
  {
    hide LinkInv;
    hide Step;
    SenderSendsData(w.a, w.b);
    SenderSendsData(w.b, w.a);
    match ev
    case A(act) =>
      AllowedEnabled(w.a.ep, w.b.wire, act);
      SenderStep(w.a, w.b, act);
      ReceiverStep(w.b, w.a, act);
    case B(act) =>
      AllowedEnabled(w.b.ep, w.a.wire, act);
      SenderStep(w.b, w.a, act);
      ReceiverStep(w.a, w.b, act);
  }

  lemma {:induction false} RunKeepsInv(w: World, evs: seq<Event>)
    requires Inv(w) && IsRun(w, evs)
    ensures Inv(After(w, evs)) && NoWrap(After(w, evs))
    ensures KeepsReceived(w.a.ep.rcv, After(w, evs).a.ep.rcv)
    ensures KeepsReceived(w.b.ep.rcv, After(w, evs).b.ep.rcv)
    decreases |evs|
  {
    hide Inv;
    hide Next;
    hide CanStep;
    hide NoWrap;
    if evs != [] {
      assert NoWrap(Next(w, evs[0]));
      StepKeepsInv(w, evs[0]);
      RunKeepsInv(Next(w, evs[0]), evs[1..]);
    }
  }

  /** Capacities and frame sizes never change. */
  predicate SameShape(w: World, v: World) {
    && Capacity(v.a.ep.snd) == Capacity(w.a.ep.snd) && v.a.ep.snd.payload == w.a.ep.snd.payload
    && Capacity(v.b.ep.snd) == Capacity(w.b.ep.snd) && v.b.ep.snd.payload == w.b.ep.snd.payload
    && Capacity(v.a.ep.rcv) == Capacity(w.a.ep.rcv) && Capacity(v.b.ep.rcv) == Capacity(w.b.ep.rcv)
  }

  lemma PerformKeepsShape(e: Endpoint, act: Action)
    requires Enabled(e, act)
    ensures var e' := Perform(e, act).ep;
      && Capacity(e'.snd) == Capacity(e.snd) && e'.snd.payload == e.snd.payload
      && Capacity(e'.rcv) == Capacity(e.rcv)
  {
    hide Accepts;
    hide FromLe;
    hide Receive;
    hide SendUnacked;
    hide Write;
    hide Read;
    match act
    case Send(bytes, now, nowMs) => WriteShape(e.snd, bytes, now, nowMs);
    case Recv(n) => ReadShape(e.rcv, n);
    case Tick(now, nowMs, sealUs) => TickShape(e, now, nowMs, sealUs);
    case Deliver(f, now) => if Accepts(f) { ReceiveShape(e, Decode(f), now); }
  }

  lemma {:induction false} RunKeepsShape(w: World, evs: seq<Event>)
    requires IsRun(w, evs)
    ensures SameShape(w, After(w, evs))
    decreases |evs|
  {
    hide Perform;
    hide NoWrap;
    hide Accepts;
    hide Encode;
    if evs != [] {
      match evs[0] {
        case A(act) => AllowedEnabled(w.a.ep, w.b.wire, act); PerformKeepsShape(w.a.ep, act);
        case B(act) => AllowedEnabled(w.b.ep, w.a.wire, act); PerformKeepsShape(w.b.ep, act);
      }
      RunKeepsShape(Next(w, evs[0]), evs[1..]);
    }
  }
}
