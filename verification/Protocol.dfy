/** One end of a connection as a value: what `mc_protocol.c` and `mc_communication.c` do
    to it in one step, and what it puts on the wire. */
module Protocol {
  import opened Bytes
  import opened Seqs
  import opened Frame
  import opened Packets
  import opened WindowRing

  const MIN_SEND_TIME_US: nat := 100
  const MAX_SEND_TIME_US: nat := 1000000
  const FLUSH_TIMEOUT_MS: nat := 250

  /** `mc_comm`: both pools, the buffer acknowledgements are built in, and the
      retransmission delay. */
  datatype RawEndpoint = Endpoint(snd: Ring, rcv: Ring, ackBuf: Packet, delay: nat)

  type Endpoint = e: RawEndpoint | |e.ackBuf.data| == e.snd.payload
    witness Endpoint(EmptyRing(), EmptyRing(), EmptyRing().wnd[0].packet, 0)

  function EmptyRing(): Ring {
    Ring(1, 0, 0, 0, 0, [Window(0, true, false,
      Packet(0, 0, 0, seq(16, _ => false), Data, [seq(8, _ => false)], seq(8, _ => false)))])
  }

  /** `send_ack`. */
  function AckPacket(buf: Packet, id: nat): Packet
    requires id <= INVALID_ID
  {
    Seal(buf.(header := HEADER, kind := Ack, id := id))
  }

  function SendAck(e: Endpoint, id: nat): (Endpoint, seq<Packet>)
    requires id <= INVALID_ID
  {
    var p := AckPacket(e.ackBuf, id);
    (e.(ackBuf := p), [p])
  }

  /** Four fifths of the measured round trip, in 64-bit arithmetic, kept within bounds. */
  function NewDelay(now: nat, sentTime: nat): nat {
    var elapsed := (now - sentTime) % 0x1_0000_0000_0000_0000;
    Min(Max((elapsed * 4) % 0x1_0000_0000_0000_0000 / 5, MIN_SEND_TIME_US), MAX_SEND_TIME_US)
  }

  /** `protocol_recv`: an accepted frame, as a packet. */
  function Receive(e: Endpoint, p: Packet, now: nat): (Endpoint, seq<Packet>)
    requires |p.data| == e.rcv.payload
  {
    if p.kind.Ack? then
      if !Contains(e.snd, p.id) then (e, [])
      else (e.(snd := AckId(e.snd, p.id), delay := NewDelay(now, At(e.snd, p.id).sentTime)), [])
    else if p.id < e.rcv.bgn then SendAck(e, p.id)
    else if Contains(e.rcv, p.id) then SendAck(e.(rcv := Store(e.rcv, p, p.id)), p.id)
    else (e, [])
  }

  /** An outstanding window whose time has come. */
  predicate Expired(w: Window, now: nat, delay: nat) {
    !w.isAcked && w.sentTime + delay <= now
  }

  /** The packets of the expired windows among ids `from .. r.end`, in order. */
  function Unacked(r: Ring, from: nat, now: nat, delay: nat): seq<Packet>
    requires r.bgn <= from <= r.end
    decreases r.end - from
  {
    if from == r.end then []
    else
      (if Expired(At(r, from), now, delay) then [At(r, from).packet] else [])
      + Unacked(r, from + 1, now, delay)
  }

  /** `send_stale_incomplete`. */
  function SendStale(r: Ring, nowMs: nat, sealUs: nat): (Ring, seq<Packet>) {
    if HasIncomplete(r) && nowMs > r.updateTime + FLUSH_TIMEOUT_MS then
      var s := if Last(r).isSent then r else SealLast(r, sealUs);
      (s, [Last(s).packet])
    else (r, [])
  }

  /** `protocol_send_unacked`. */
  function SendUnacked(e: Endpoint, now: nat, nowMs: nat, sealUs: nat): (Endpoint, seq<Packet>) {
    var stale := SendStale(e.snd, nowMs, sealUs);
    (e.(snd := stale.0), Unacked(e.snd, e.snd.bgn, now, e.delay) + stale.1)
  }

  // ------------------------------------------------------------------ an end with its history

  /** The payloads of the windows numbered so far, by id. */
  type Log = seq<seq<byte>>

  /** An end together with everything it ever put on the wire, the payload it first sent
      under each id (`log`), the octets its send call accepted and its receive call
      returned. */
  datatype Side = Side(ep: Endpoint, wire: set<Packet>, log: Log, accepted: seq<byte>, read: seq<byte>)

  /** The log after `out` goes on the wire: a data packet numbered with the next unused
      id is that id's first transmission. */
  function Logged(log: Log, out: seq<Packet>): Log
    decreases |out|
  {
    if out == [] then log
    else if out[0].kind.Data? && out[0].id == |log| then Logged(log + [Carried(out[0])], out[1..])
    else Logged(log, out[1..])
  }

  function SetOf(out: seq<Packet>): set<Packet> {
    set p | p in out
  }

  function Wired(wire: set<Packet>, out: seq<Packet>): set<Packet> {
    wire + SetOf(out)
  }

  datatype Action =
    | Send(bytes: seq<byte>, now: nat, nowMs: nat)
    | Recv(n: nat)
    | Deliver(f: frame, now: nat)
    | Tick(now: nat, nowMs: nat, sealUs: nat)

  /** The frame fits this end's receive window and, if it passes the check, reads as a packet. */
  predicate Readable(e: Endpoint, f: frame) {
    && |f| == e.rcv.payload + PACKET_SIZE
    && (Accepts(f) ==> Fits(Decode(f)))
  }

  /** Both pools are empty: what `mc_comm_flush` waits for. */
  predicate Flushed(e: Endpoint) {
    IsEmpty(e.snd) && IsEmpty(e.rcv)
  }

  predicate Enabled(e: Endpoint, a: Action) {
    match a
    case Send(bytes, _, _) => |bytes| <= e.snd.payload
    case Deliver(f, _) => Readable(e, f)
    case _ => true
  }

  /** One action's effect: the new state, the packets handed to the transport, the octets
      taken from the application and the octets given to it. */
  datatype Effect = Effect(ep: Endpoint, out: seq<Packet>, taken: seq<byte>, given: seq<byte>)

  function Perform(e: Endpoint, a: Action): Effect
    requires Enabled(e, a)
  {
    match a
    case Send(bytes, now, nowMs) =>
      var (snd, out, n) := Write(e.snd, bytes, now, nowMs);
      Effect(e.(snd := snd), out, bytes[..n], [])
    case Recv(n) =>
      var (rcv, bytes) := Read(e.rcv, n);
      Effect(e.(rcv := rcv), [], [], bytes)
    case Deliver(f, now) =>
      if !Accepts(f) then Effect(e, [], [], [])
      else
        var (e', out) := Receive(e, Decode(f), now);
        Effect(e', out, [], [])
    case Tick(now, nowMs, sealUs) =>
      var (e', out) := SendUnacked(e, now, nowMs, sealUs);
      Effect(e', out, [], [])
  }

  function Step(s: Side, a: Action): Side
    requires Enabled(s.ep, a)
  {
    var fx := Perform(s.ep, a);
    Side(fx.ep, Wired(s.wire, fx.out), Logged(s.log, fx.out), s.accepted + fx.taken, s.read + fx.given)
  }

  // ------------------------------------------------------------------ the two ends

  datatype World = World(a: Side, b: Side)

  datatype Event = A(act: Action) | B(act: Action)

  /** What may happen at an end whose peer has sent the packets `sent`: its application
      writes at most one payload at a time, and the network delivers any frame ever sent,
      any number of times and in any order, or any frame that fails the check. */
  ghost predicate Allowed(e: Endpoint, sent: set<Packet>, act: Action) {
    match act
    case Send(bytes, _, _) => |bytes| <= e.snd.payload
    case Deliver(f, _) => |f| == e.rcv.payload + PACKET_SIZE && (Accepts(f) ==> exists p :: p in sent && f == Encode(p))
    case _ => true
  }

  lemma AllowedEnabled(e: Endpoint, sent: set<Packet>, act: Action)
    requires Allowed(e, sent, act)
    ensures Enabled(e, act)
  {
    if act.Deliver? && Accepts(act.f) {
      var p :| p in sent && act.f == Encode(p);
      DecodeEncode(p);
    }
  }

  ghost predicate CanStep(w: World, ev: Event) {
    match ev
    case A(act) => Allowed(w.a.ep, w.b.wire, act)
    case B(act) => Allowed(w.b.ep, w.a.wire, act)
  }

  ghost function Next(w: World, ev: Event): World
    requires CanStep(w, ev)
  {
    match ev
    case A(act) => AllowedEnabled(w.a.ep, w.b.wire, act); w.(a := Step(w.a, act))
    case B(act) => AllowedEnabled(w.b.ep, w.a.wire, act); w.(b := Step(w.b, act))
  }

  /** Ids stay below the sentinel, at both ends, whatever the two capacities are. */
  predicate NoWrap(w: World) {
    && w.a.ep.snd.end + Max(Capacity(w.a.ep.snd), Capacity(w.b.ep.rcv)) < INVALID_ID
    && w.b.ep.snd.end + Max(Capacity(w.b.ep.snd), Capacity(w.a.ep.rcv)) < INVALID_ID
  }

  /** A run that never reaches the last ids. */
  ghost predicate IsRun(w: World, evs: seq<Event>)
    decreases |evs|
  {
    NoWrap(w) && (evs == [] || (CanStep(w, evs[0]) && IsRun(Next(w, evs[0]), evs[1..])))
  }

  ghost function After(w: World, evs: seq<Event>): World
    requires IsRun(w, evs)
    decreases |evs|
  {
    if evs == [] then w else After(Next(w, evs[0]), evs[1..])
  }

  lemma RunNil(w: World)
    requires NoWrap(w)
    ensures IsRun(w, []) && After(w, []) == w
  {
  }

  /** Runs compose. */
  lemma {:induction false} RunConcat(w: World, x: seq<Event>, y: seq<Event>)
    requires IsRun(w, x) && IsRun(After(w, x), y)
    ensures IsRun(w, x + y) && After(w, x + y) == After(After(w, x), y)
    decreases |x|
  {
    hide NoWrap;
    hide CanStep;
    hide Next;
    if x == [] {
      assert x + y == y;
    } else {
      assert (x + y)[0] == x[0] && (x + y)[1..] == x[1..] + y;
      RunConcat(Next(w, x[0]), x[1..], y);
    }
  }

  lemma RunCons(w: World, ev: Event, evs: seq<Event>)
    requires NoWrap(w) && CanStep(w, ev) && IsRun(Next(w, ev), evs)
    ensures IsRun(w, [ev] + evs) && After(w, [ev] + evs) == After(Next(w, ev), evs)
  {
    hide NoWrap;
    hide CanStep;
    hide Next;
    assert ([ev] + evs)[1..] == evs;
  }

  // ------------------------------------------------------------------ symmetry

  function Mirror(w: World): World {
    World(w.b, w.a)
  }

  function MirrorEvent(ev: Event): Event {
    match ev
    case A(act) => B(act)
    case B(act) => A(act)
  }

  function MirrorAll(evs: seq<Event>): (r: seq<Event>)
    ensures |r| == |evs|
  {
    if evs == [] then [] else [MirrorEvent(evs[0])] + MirrorAll(evs[1..])
  }

  /** The two ends are alike: what is proved of one holds of the other. */
  lemma {:induction false} MirrorRun(w: World, evs: seq<Event>)
    requires IsRun(w, evs)
    ensures IsRun(Mirror(w), MirrorAll(evs))
    ensures After(Mirror(w), MirrorAll(evs)) == Mirror(After(w, evs))
    decreases |evs|
  {
    hide Allowed;
    hide Step;
    if evs != [] {
      var ev, mirrored := evs[0], MirrorAll(evs);
      assert CanStep(Mirror(w), MirrorEvent(ev));
      assert Next(Mirror(w), MirrorEvent(ev)) == Mirror(Next(w, ev));
      assert mirrored[0] == MirrorEvent(ev) && mirrored[1..] == MirrorAll(evs[1..]);
      MirrorRun(Next(w, ev), evs[1..]);
    }
  }

  // ------------------------------------------------------------------ start

  /** `wndpool_init`: no ids in use and every slot cleared. Whatever else the memory held
      is still there: the data, times and types of the slots, and the cursor. */
  predicate InitRing(r: Ring) {
    r.bgn == 0 && r.end == 0 && forall w :: w in r.wnd ==> w == w.Clear()
  }

  /** What `wndpool_init` makes of any memory. */
  lemma InitGivesInitRing(payload: nat, stored: nat, updateTime: nat, memory: seq<Window>)
    requires payload > 0 && memory != []
    requires forall w :: w in memory ==> |w.packet.data| == payload
    ensures var r := Ring(payload, 0, 0, stored, updateTime, Cleared(memory)); Shaped(r) && InitRing(r)
  {
    forall w | w in Cleared(memory)
      ensures |w.packet.data| == payload && w == w.Clear()
    {
      var i :| 0 <= i < |memory| && w == Cleared(memory)[i];
      assert memory[i] in memory;
    }
  }

  predicate InitSide(s: Side) {
    && InitRing(s.ep.snd) && InitRing(s.ep.rcv)
    && s.wire == {} && s.log == [] && s.accepted == [] && s.read == []
  }

  /** Two ends just initialised over any memory, whose frame sizes agree; capacities are free. */
  predicate JustInit(w: World) {
    && InitSide(w.a) && InitSide(w.b)
    && w.a.ep.snd.payload == w.b.ep.rcv.payload
    && w.b.ep.snd.payload == w.a.ep.rcv.payload
  }

  /** ... and both receive cursors happen to be zero. */
  predicate Initial(w: World) {
    JustInit(w) && w.a.ep.rcv.stored == 0 && w.b.ep.rcv.stored == 0
  }
}
