/** `mc_comm` as the program keeps it: two pools, a receive buffer and a few counters
    (src/io/communication/mc_communication.c, mc_protocol.c, mc_io.c). Each call is proved
    to do exactly the protocol steps that a loop over its turns prescribes, and the object
    keeps the list of all steps of its life; `Weaving` says what follows for every use. */
module Communication {
  import opened Bytes
  import opened Seqs
  import opened Crc16
  import opened Frame
  import opened Packets
  import opened WindowRing
  import opened Protocol
  import opened Weaving
  import opened WindowPool

  // ------------------------------------------------------------------ the transport

  /** What the outside world shows during one turn of a loop: the octets the transport
      holds ready, and the clock. */
  datatype View = View(avail: seq<byte>, now: nat, nowMs: nat, later: nat)

  /** What one read takes: no more than what is missing of the current frame. */
  function Chunk(n: nat, stream: seq<byte>, avail: seq<byte>): seq<byte>
    requires n > 0
  {
    avail[..Min(|avail|, n - |Rest(n, stream)|)]
  }

  /** The frame that this read completes, if it passes the check. */
  function Arriving(n: nat, stream: seq<byte>, avail: seq<byte>): Option<frame>
    requires n >= PACKET_SIZE
  {
    var full := Rest(n, stream) + Chunk(n, stream, avail);
    if |full| == n then Checked(full) else None
  }

  // ------------------------------------------------------------------ moments

  /** An end at one moment: its state and history, the octets received from the transport,
      and everything it has done. */
  datatype Moment = Moment(side: Side, stream: seq<byte>, life: seq<Deed>)

  /** One more deed. */
  function Acted(m: Moment, d: Deed): Moment {
    if Enabled(m.side.ep, d.act) then m.(side := Step(m.side, d.act), life := m.life + [d]) else m
  }

  function FrameSize(e: Endpoint): nat {
    e.rcv.payload + PACKET_SIZE
  }

  /** `io_recv`: a frame that is completed and passes the check is delivered. */
  function Polled(m: Moment, t: View, sent: set<Packet>): Moment {
    var n := FrameSize(m.side.ep);
    var f := Arriving(n, m.stream, t.avail);
    var m' := if f.Some? then Acted(m, Deed(Deliver(f.value, t.now), sent)) else m;
    m'.(stream := m.stream + Chunk(n, m.stream, t.avail))
  }

  /** `mc_comm_update`: one read, then the timer step. */
  function Turned(m: Moment, t: View, sent: set<Packet>): Moment {
    Acted(Polled(m, t, sent), Deed(Tick(t.now, t.nowMs, t.now), {}))
  }

  /** A frame that this turn completes and that passes the check is one of `sent`. */
  ghost predicate Honest(m: Moment, t: View, sent: set<Packet>) {
    var f := Arriving(FrameSize(m.side.ep), m.stream, t.avail);
    f.Some? ==> exists p :: p in sent && f.value == Encode(p)
  }

  // ------------------------------------------------------------------ calls that wait

  datatype Status = Success | Timeout | Watching

  /** How far a call has come: the end as it is now, what the call has achieved, whether it
      has returned and with what, and the turns of its loop so far. */
  datatype Course<T> = Course(now: Moment, got: T, status: Status, turns: nat)

  predicate Late(deadline: Option<nat>, time: nat) {
    deadline.Some? && time > deadline.value
  }

  /** One turn of `mc_comm_send`: a segment is taken whole, or refused and the connection
      gets a turn; the time is looked at afterwards. */
  function SendTurn(c: Course<nat>, src: seq<byte>, deadline: Option<nat>, t: View, sent: set<Packet>): Course<nat> {
    if !c.status.Watching? || c.got >= |src| then c
    else
      var n := Min(|src| - c.got, c.now.side.ep.snd.payload);
      var refused := Blocked(c.now.side.ep.snd);
      var offered := Acted(c.now, Deed(Action.Send(src[c.got..c.got + n], t.now, t.nowMs), {}));
      var got := if refused then c.got else c.got + n;
      Course(if refused then Turned(offered, t, sent) else offered, got,
             if Late(deadline, t.later) then Timeout else if got == |src| then Success else Watching, c.turns + 1)
  }

  /** `mc_comm_send` after `k` turns, or where it returned before. */
  function SendCourse(m: Moment, src: seq<byte>, deadline: Option<nat>, views: seq<View>, sents: seq<set<Packet>>,
                      k: nat): Course<nat>
    requires |sents| == |views| && k <= |views|
    decreases k
  {
    if k == 0 then Course(m, 0, if src == [] then Success else Watching, 0)
    else SendTurn(SendCourse(m, src, deadline, views, sents, k - 1), src, deadline, views[k - 1], sents[k - 1])
  }

  /** In the turns in which the call reads from the transport, it reads what was sent. */
  ghost predicate HonestSend(m: Moment, src: seq<byte>, deadline: Option<nat>, views: seq<View>,
                             sents: seq<set<Packet>>) {
    |sents| == |views| && forall i :: 0 <= i < |views| ==>
      var c := SendCourse(m, src, deadline, views, sents, i);
      c.status.Watching? && Blocked(c.now.side.ep.snd) ==> Honest(c.now, views[i], sents[i])
  }

  /** One turn of `mc_comm_recv`: the time is looked at first; then octets stored in order
      are taken, or the connection gets a turn. */
  function RecvTurn(c: Course<seq<byte>>, size: nat, deadline: Option<nat>, t: View,
                    sent: set<Packet>): Course<seq<byte>> {
    if !c.status.Watching? || |c.got| >= size then c
    else if Late(deadline, t.now) then c.(status := Timeout, turns := c.turns + 1)
    else
      var n := size - |c.got|;
      var bytes := Read(c.now.side.ep.rcv, n).1;
      var tried := Acted(c.now, Deed(Action.Recv(n), {}));
      Course(if bytes == [] then Turned(tried, t, sent) else tried, c.got + bytes,
             if |c.got + bytes| == size then Success else Watching, c.turns + 1)
  }

  function RecvCourse(m: Moment, size: nat, deadline: Option<nat>, views: seq<View>, sents: seq<set<Packet>>,
                      k: nat): Course<seq<byte>>
    requires |sents| == |views| && k <= |views|
    decreases k
  {
    if k == 0 then Course(m, [], if size == 0 then Success else Watching, 0)
    else RecvTurn(RecvCourse(m, size, deadline, views, sents, k - 1), size, deadline, views[k - 1], sents[k - 1])
  }

  ghost predicate HonestRecv(m: Moment, size: nat, deadline: Option<nat>, views: seq<View>,
                             sents: seq<set<Packet>>) {
    |sents| == |views| && forall i :: 0 <= i < |views| ==>
      var c := RecvCourse(m, size, deadline, views, sents, i);
      c.status.Watching? && !Late(deadline, views[i].now) && |c.got| < size
        && Read(c.now.side.ep.rcv, size - |c.got|).1 == []
      ==> Honest(c.now, views[i], sents[i])
  }

  /** One turn of `mc_comm_flush`: the connection gets a turn, then the time is looked at. */
  function FlushTurn(c: Course<()>, deadline: nat, t: View, sent: set<Packet>): Course<()> {
    if !c.status.Watching? then c
    else
      var now := Turned(c.now, t, sent);
      Course(now, (), if Late(Some(deadline), t.later) then Timeout
                      else if Flushed(now.side.ep) then Success else Watching, c.turns + 1)
  }

  function FlushCourse(m: Moment, deadline: nat, views: seq<View>, sents: seq<set<Packet>>, k: nat): Course<()>
    requires |sents| == |views| && k <= |views|
    decreases k
  {
    if k == 0 then Course(m, (), if Flushed(m.side.ep) then Success else Watching, 0)
    else FlushTurn(FlushCourse(m, deadline, views, sents, k - 1), deadline, views[k - 1], sents[k - 1])
  }

  ghost predicate HonestFlush(m: Moment, deadline: nat, views: seq<View>, sents: seq<set<Packet>>) {
    |sents| == |views| && forall i :: 0 <= i < |views| ==>
      var c := FlushCourse(m, deadline, views, sents, i);
      c.status.Watching? ==> Honest(c.now, views[i], sents[i])
  }

  lemma {:induction false} SendSettled(m: Moment, src: seq<byte>, deadline: Option<nat>, views: seq<View>,
    sents: seq<set<Packet>>, i: nat, k: nat)
    requires |sents| == |views| && i <= k <= |views|
    requires !SendCourse(m, src, deadline, views, sents, i).status.Watching?
    ensures SendCourse(m, src, deadline, views, sents, k) == SendCourse(m, src, deadline, views, sents, i)
    decreases k
  {
    hide Turned;
    hide Acted;
    hide Blocked;
    hide Read;
    hide Late;
    hide Flushed;
    if i < k {
      SendSettled(m, src, deadline, views, sents, i, k - 1);
    }
  }

  lemma SendStart(m: Moment, src: seq<byte>, deadline: Option<nat>, views: seq<View>, sents: seq<set<Packet>>)
    requires HonestSend(m, src, deadline, views, sents)
    ensures |sents| == |views|
    ensures SendCourse(m, src, deadline, views, sents, 0)
         == Course(m, 0, if src == [] then Success else Watching, 0)
  {
  }

  /** The turn in which the call may read, and the next place on its course. */
  lemma SendNext(m: Moment, src: seq<byte>, deadline: Option<nat>, views: seq<View>, sents: seq<set<Packet>>, i: nat)
    requires HonestSend(m, src, deadline, views, sents) && i < |views|
    ensures var c := SendCourse(m, src, deadline, views, sents, i);
      && SendCourse(m, src, deadline, views, sents, i + 1) == SendTurn(c, src, deadline, views[i], sents[i])
      && (c.status.Watching? && Blocked(c.now.side.ep.snd) ==> Honest(c.now, views[i], sents[i]))
  {
    hide SendTurn;
  }

  lemma {:induction false} RecvSettled(m: Moment, size: nat, deadline: Option<nat>, views: seq<View>,
    sents: seq<set<Packet>>, i: nat, k: nat)
    requires |sents| == |views| && i <= k <= |views|
    requires !RecvCourse(m, size, deadline, views, sents, i).status.Watching?
    ensures RecvCourse(m, size, deadline, views, sents, k) == RecvCourse(m, size, deadline, views, sents, i)
    decreases k
  {
    hide Turned;
    hide Acted;
    hide Blocked;
    hide Read;
    hide Late;
    hide Flushed;
    if i < k {
      RecvSettled(m, size, deadline, views, sents, i, k - 1);
    }
  }

  lemma RecvStart(m: Moment, size: nat, deadline: Option<nat>, views: seq<View>, sents: seq<set<Packet>>)
    requires HonestRecv(m, size, deadline, views, sents)
    ensures |sents| == |views|
    ensures RecvCourse(m, size, deadline, views, sents, 0)
         == Course(m, [], if size == 0 then Success else Watching, 0)
  {
  }

  /** The turn in which the call may read, and the next place on its course. */
  lemma RecvNext(m: Moment, size: nat, deadline: Option<nat>, views: seq<View>, sents: seq<set<Packet>>, i: nat)
    requires HonestRecv(m, size, deadline, views, sents) && i < |views|
    ensures var c := RecvCourse(m, size, deadline, views, sents, i);
      && RecvCourse(m, size, deadline, views, sents, i + 1) == RecvTurn(c, size, deadline, views[i], sents[i])
      && (c.status.Watching? && !Late(deadline, views[i].now) && |c.got| < size
           && Read(c.now.side.ep.rcv, size - |c.got|).1 == []
         ==> Honest(c.now, views[i], sents[i]))
  {
    hide RecvTurn;
  }

  lemma {:induction false} FlushSettled(m: Moment, deadline: nat, views: seq<View>,
    sents: seq<set<Packet>>, i: nat, k: nat)
    requires |sents| == |views| && i <= k <= |views|
    requires !FlushCourse(m, deadline, views, sents, i).status.Watching?
    ensures FlushCourse(m, deadline, views, sents, k) == FlushCourse(m, deadline, views, sents, i)
    decreases k
  {
    hide Turned;
    hide Acted;
    hide Blocked;
    hide Read;
    hide Late;
    hide Flushed;
    if i < k {
      FlushSettled(m, deadline, views, sents, i, k - 1);
    }
  }

  lemma FlushStart(m: Moment, deadline: nat, views: seq<View>, sents: seq<set<Packet>>)
    requires HonestFlush(m, deadline, views, sents)
    ensures |sents| == |views|
    ensures FlushCourse(m, deadline, views, sents, 0)
         == Course(m, (), if Flushed(m.side.ep) then Success else Watching, 0)
  {
  }

  /** The turn in which the call may read, and the next place on its course. */
  lemma FlushNext(m: Moment, deadline: nat, views: seq<View>, sents: seq<set<Packet>>, i: nat)
    requires HonestFlush(m, deadline, views, sents) && i < |views|
    ensures var c := FlushCourse(m, deadline, views, sents, i);
      && FlushCourse(m, deadline, views, sents, i + 1) == FlushTurn(c, deadline, views[i], sents[i])
      && (c.status.Watching? ==> Honest(c.now, views[i], sents[i]))
  {
    hide FlushTurn;
  }

  // ------------------------------------------------------------------ ids

  /** Both rings stay at least `n` steps away from the last ids. */
  ghost predicate Roomy(e: Endpoint, n: nat) {
    && Capacity(e.snd) < 256 && Capacity(e.rcv) < 256
    && e.snd.end + 256 * (n + 1) < INVALID_ID
    && e.rcv.end + 256 * (n + 1) < INVALID_ID
  }

  lemma LessRoom(e: Endpoint, m: nat, n: nat)
    requires m <= n && Roomy(e, n)
    ensures Roomy(e, m)
  {
  }

  /** One step uses up less than one window of ids. */
  lemma StepRoom(e: Endpoint, act: Action, n: nat)
    requires Enabled(e, act) && Roomy(e, n + 1)
    ensures Roomy(Perform(e, act).ep, n)
  {
    hide Seal;
    hide Accepts;
    hide Decode;
    hide Unacked;
    match act
    case Send(bytes, now, nowMs) => FillRoom(e.snd, bytes, now, nowMs);
    case _ =>
  }

  lemma FillRoom(r: Ring, bytes: seq<byte>, now: nat, nowMs: nat)
    requires |bytes| <= r.payload
    ensures var r' := Write(r, bytes, now, nowMs).0;
      r'.end < r.bgn + |r.wnd| && |r'.wnd| == |r.wnd|
  {
  }

  // ------------------------------------------------------------------ the object

  class Comm {
    const snd: WindowPool
    const rcv: WindowPool
    const frame: Assembler
    var ackBuf: Packet
    var sendDelayUs: nat

    /** The end this object is, with its history; how it began, and what it did since. */
    ghost var side: Side
    ghost var origin: Side
    ghost var life: seq<Deed>

    ghost predicate Ready()
      reads this`ackBuf, snd, snd.windows, rcv, rcv.windows
    {
      && snd != rcv && snd.windows != rcv.windows
      && snd.Valid() && rcv.Valid()
      && |ackBuf.data| == snd.windowSize - PACKET_SIZE
    }

    ghost function State(): Endpoint
      requires Ready()
      reads this`ackBuf, this`sendDelayUs, snd, snd.windows, rcv, rcv.windows
    {
      Endpoint(snd.State(), rcv.State(), ackBuf, sendDelayUs)
    }

    ghost predicate Valid()
      reads this, snd, snd.windows, rcv, rcv.windows, frame, frame.temp
    {
      && Ready() && side.ep == State()
      && frame.Valid() && frame.windowSize == rcv.windowSize
      && Lived()
    }

    ghost predicate Lived()
      reads this`side, this`origin, this`life
    {
      Acts(origin, life) && side == Steps(origin, life)
    }

    ghost function Now(): Moment
      reads this`side, this`life, frame`stream
    {
      Moment(side, frame.stream, life)
    }

    /** Every change of the history goes through here. */
    ghost method Record(d: Deed)
      requires Lived() && Allowed(side.ep, d.sent, d.act)
      modifies this`side, this`life
      ensures Lived() && Enabled(old(side.ep), d.act) && Now() == Acted(old(Now()), d)
    {
      ActsSnoc(origin, life, d);
      life := life + [d];
      side := Step(side, d.act);
    }

    /** `mc_comm_init`, over two pools already placed in the caller's memory. */
    constructor (snd: WindowPool, rcv: WindowPool, ackBuf: Packet)
      requires snd != rcv && snd.windows != rcv.windows && snd.Valid() && rcv.Valid()
      requires |ackBuf.data| == snd.windowSize - PACKET_SIZE
      ensures Valid() && this.snd == snd && this.rcv == rcv && fresh(frame) && fresh(frame.temp)
      ensures State() == Endpoint(snd.State(), rcv.State(), ackBuf, MIN_SEND_TIME_US)
      ensures side == origin == Side(State(), {}, [], [], []) && Now() == Moment(side, [], [])
    {
      this.snd := snd;
      this.rcv := rcv;
      this.ackBuf := ackBuf;
      sendDelayUs := MIN_SEND_TIME_US;
      frame := new Assembler(rcv.windowSize);
      side := Side(Endpoint(snd.State(), rcv.State(), ackBuf, MIN_SEND_TIME_US), {}, [], [], []);
      origin := Side(Endpoint(snd.State(), rcv.State(), ackBuf, MIN_SEND_TIME_US), {}, [], [], []);
      life := [];
    }

    // ---------------------------------------------------------------- protocol

    method SendAck(id: nat) returns (p: Packet)
      requires Ready() && id <= INVALID_ID
      modifies this`ackBuf
      ensures Ready() && (State(), [p]) == Protocol.SendAck(old(State()), id)
    {
      hide Crc;
      hide Encode;
      var q := ackBuf.(header := HEADER, kind := Ack, id := id);
      var crc := Crc16Ccitt(Encode(q.(crc := Zeros(16))));
      p := q.(crc := crc);
      ackBuf := p;
    }

    /** An acknowledgement, in `protocol_recv`. */
    method AckArrived(p: Packet, now: nat)
      requires Ready() && p.kind.Ack? && |p.data| == rcv.windowSize - PACKET_SIZE && Roomy(State(), 1)
      modifies this`sendDelayUs, snd, snd.windows
      ensures Ready() && State() == Receive(old(State()), p, now).0
    {
      if !snd.ContainsId(p.id) {
        return;
      }
      var elapsed := (now - snd.Get(p.id).sentTime) % 0x1_0000_0000_0000_0000;
      sendDelayUs := Min(Max((elapsed * 4) % 0x1_0000_0000_0000_0000 / 5, MIN_SEND_TIME_US), MAX_SEND_TIME_US);
      snd.Acknowledge(p.id);
    }

    /** `protocol_recv`. */
    method ProtocolRecv(p: Packet, now: nat) returns (out: seq<Packet>)
      requires Ready() && |p.data| == rcv.windowSize - PACKET_SIZE
      requires Roomy(State(), 1)
      modifies this`ackBuf, this`sendDelayUs, snd, snd.windows, rcv.windows
      ensures Ready() && (State(), out) == Receive(old(State()), p, now)
    {
      hide AckPacket;
      out := [];
      if p.kind.Ack? {
        AckArrived(p, now);
        return;
      }
      if p.id < rcv.bgnId {
        var ack := SendAck(p.id);
        return [ack];
      }
      if rcv.ContainsId(p.id) {
        rcv.Update(p, p.id);
        var ack := SendAck(p.id);
        return [ack];
      }
    }

    /** `protocol_send_unacked`: one pass over the outstanding ids, then the stale window. */
    method SendUnacked(now: nat, nowMs: nat, sealUs: nat) returns (out: seq<Packet>)
      requires Ready()
      modifies snd.windows
      ensures Ready() && (State(), out) == Protocol.SendUnacked(old(State()), now, nowMs, sealUs)
    {
      out := ResendExpired(now);
      var stale := SendStale(nowMs, sealUs);
      out := out + stale;
    }

    method ResendExpired(now: nat) returns (out: seq<Packet>)
      requires snd.Valid()
      ensures out == Unacked(snd.State(), snd.bgnId, now, sendDelayUs)
    {
      hide Unacked;
      ghost var r, delay := snd.State(), sendDelayUs;
      ghost var goal := Unacked(r, snd.bgnId, now, delay);
      out := [];
      var id := snd.bgnId;
      while id < snd.endId
        invariant snd.bgnId <= id <= snd.endId
        invariant goal == out + Unacked(r, id, now, delay)
      {
        UnackedTurn(r, id, now, delay, out);
        var w := snd.Get(id);
        if w.isAcked || now < w.sentTime + sendDelayUs {
          id := id + 1;
          continue;
        }
        out := out + [w.packet];
        id := id + 1;
      }
      UnackedEnd(r, now, delay, out);
    }

    method SendStale(nowMs: nat, sealUs: nat) returns (out: seq<Packet>)
      requires Ready()
      modifies snd.windows
      ensures Ready() && (snd.State(), out) == Protocol.SendStale(old(snd.State()), nowMs, sealUs)
      ensures rcv.State() == old(rcv.State())
    {
      hide Seal;
      out := [];
      if snd.Incomplete() {
        if nowMs > snd.updateTimeMs + FLUSH_TIMEOUT_MS {
          if !snd.GetLast().isSent {
            snd.UpdateHeader(sealUs);
          }
          out := [snd.GetLast().packet];
        }
      }
    }

    // ---------------------------------------------------------------- one turn

    /** A frame that passed the check is handed to the protocol. */
    method Arrived(f: frame, now: nat, ghost sent: set<Packet>)
      requires Valid() && Roomy(side.ep, 1)
      requires Accepts(f) && Allowed(side.ep, sent, Deliver(f, now))
      modifies this`side, this`life, this`ackBuf, this`sendDelayUs, snd, snd.windows, rcv.windows
      ensures Valid() && Now() == Acted(old(Now()), Deed(Deliver(f, now), sent))
    {
      hide Receive;
      hide Accepts;
      hide Encode;
      hide Decode;
      hide Wired;
      hide Logged;
      hide Lived;
      AllowedEnabled(side.ep, sent, Deliver(f, now));
      DecodeShape(f);
      var out := ProtocolRecv(Decode(f), now);
      Record(Deed(Deliver(f, now), sent));
    }

    /** `io_recv`: read what the transport has, and handle the frame it completes. */
    method Poll(t: View, ghost sent: set<Packet>, ghost n: nat)
      requires Valid() && Roomy(side.ep, n + 1) && Honest(Now(), t, sent)
      modifies this`side, this`life, this`ackBuf, this`sendDelayUs, snd, snd.windows, rcv.windows
      modifies frame`tempStored, frame`stream, frame.temp
      ensures Valid() && Now() == Polled(old(Now()), t, sent)
      ensures side.accepted == old(side.accepted) && side.read == old(side.read) && Roomy(side.ep, n)
    {
      hide Accepts;
      hide Encode;
      hide Decode;
      hide Step;
      hide State;
      hide Ready;
      hide Blocks;
      hide Rest;
      hide Perform;
      hide Lived;
      Sizes();
      var chunk := t.avail[..Min(|t.avail|, frame.Required())];
      assert chunk == Chunk(frame.windowSize, frame.stream, t.avail);
      ghost var full := frame.temp[..frame.tempStored] + chunk;
      var done, accepted := frame.IoRecv(chunk);
      LessRoom(side.ep, n, n + 1);
      LessRoom(side.ep, 1, n + 1);
      if accepted.Some? {
        ghost var act := Deliver(accepted.value, t.now);
        AllowedEnabled(side.ep, sent, act);
        StepRoom(side.ep, act, n);
        DeliverMovesNothing(side, accepted.value, t.now);
        Arrived(accepted.value, t.now, sent);
      }
    }

    lemma Sizes()
      requires Valid()
      ensures PACKET_SIZE < frame.windowSize == FrameSize(side.ep)
      ensures side.ep.snd.payload == snd.windowSize - PACKET_SIZE
    {
    }

    /** The timer step. */
    method Resend(now: nat, nowMs: nat, sealUs: nat)
      requires Valid()
      modifies this`side, this`life, snd.windows
      ensures Valid() && Now() == Acted(old(Now()), Deed(Tick(now, nowMs, sealUs), {}))
    {
      hide Protocol.SendUnacked;
      hide Wired;
      hide Logged;
      hide Lived;
      var out := SendUnacked(now, nowMs, sealUs);
      Record(Deed(Tick(now, nowMs, sealUs), {}));
    }

    /** `mc_comm_update`. */
    method Update(t: View, ghost sent: set<Packet>, ghost n: nat)
      requires Valid() && Roomy(side.ep, n + 2) && Honest(Now(), t, sent)
      modifies this`side, this`life, this`ackBuf, this`sendDelayUs, snd, snd.windows, rcv.windows
      modifies frame`tempStored, frame`stream, frame.temp
      ensures Valid() && Now() == Turned(old(Now()), t, sent)
      ensures side.accepted == old(side.accepted) && side.read == old(side.read) && Roomy(side.ep, n)
    {
      hide Ready;
      hide State;
      hide Step;
      hide Polled;
      hide Perform;
      hide Honest;
      hide Lived;
      Poll(t, sent, n + 1);
      TickMovesNothing(side, t.now, t.nowMs, t.now);
      StepRoom(side.ep, Tick(t.now, t.nowMs, t.now), n);
      Resend(t.now, t.nowMs, t.now);
    }

    /** One segment offered to the sending pool. */
    method SendSegment(bytes: seq<byte>, t: View, ghost n: nat) returns (taken: nat)
      requires Valid() && Roomy(side.ep, n + 1) && 0 < |bytes| <= snd.windowSize - PACKET_SIZE
      modifies this`side, this`life, snd`updateTimeMs, snd`endId, snd.windows
      ensures Valid() && taken == if old(Blocked(side.ep.snd)) then 0 else |bytes|
      ensures Now() == Acted(old(Now()), Deed(Action.Send(bytes, t.now, t.nowMs), {}))
      ensures side.accepted == old(side.accepted) + bytes[..taken] && side.read == old(side.read)
      ensures Roomy(side.ep, n)
    {
      hide Fill;
      hide Step;
      hide Allowed;
      hide Lived;
      hide Acted;
      ghost var act := Action.Send(bytes, t.now, t.nowMs);
      assert Allowed(side.ep, {}, act) by { SendAllowed(side.ep, {}, bytes, t); }
      StepRoom(side.ep, act, n);
      LessRoom(side.ep, 1, n + 1);
      SendRoom(side.ep, bytes, t);
      var out;
      OfferTakes(Now(), bytes, t);
      taken, out := snd.Write(bytes, t.now, t.nowMs);
      Record(Deed(act, {}));
    }

    /** One turn of the loop of `mc_comm_send`. */
    method SendOnce(src: seq<byte>, from: nat, deadline: Option<nat>, t: View, ghost sent: set<Packet>,
                    ghost room: nat, ghost turns: nat) returns (count: nat, status: Status)
      requires Valid() && Roomy(side.ep, room + 3) && from < |src|
      requires Blocked(side.ep.snd) ==> Honest(Now(), t, sent)
      modifies this`side, this`life, this`ackBuf, this`sendDelayUs, snd, snd.windows, rcv.windows
      modifies frame`tempStored, frame`stream, frame.temp
      ensures Valid() && Roomy(side.ep, room) && from <= count <= |src|
      ensures Course(Now(), count, status, turns + 1)
           == SendTurn(Course(old(Now()), from, Watching, turns), src, deadline, t, sent)
      ensures side.accepted == old(side.accepted) + src[from..count] && side.read == old(side.read)
    {
      hide Ready;
      hide State;
      hide Step;
      hide Honest;
      hide Roomy;
      hide Turned;
      hide Lived;
      hide Blocked;
      hide Acted;
      count := from;
      Sizes();
      var seg := Min(|src| - count, snd.windowSize - PACKET_SIZE);
      ghost var before := Now();
      OfferKeeps(before, src[count..count + seg], t);
      var taken := SendSegment(src[count..count + seg], t, room + 2);
      if taken != 0 {
        assert src[count..count + seg][..seg] == src[count..count + seg];
        count := count + seg;
        LessRoom(side.ep, room, room + 2);
      } else {
        SameHonest(before, Now(), t, sent);
        Update(t, sent, room);
      }
      status := if deadline.Some? && t.later > deadline.value then Timeout
                else if count == |src| then Success else Watching;
    }

    /** `mc_comm_send`: offer the data segment by segment, and update while it is refused.
        `views` is what the outside shows while the caller watches. */
    method Send(src: seq<byte>, deadline: Option<nat>, views: seq<View>, ghost sents: seq<set<Packet>>)
      returns (count: nat, status: Status, rest: seq<View>)
      requires Valid() && Roomy(side.ep, 3 * |views|) && HonestSend(Now(), src, deadline, views, sents)
      modifies this`side, this`life, this`ackBuf, this`sendDelayUs, snd, snd.windows, rcv.windows
      modifies frame`tempStored, frame`stream, frame.temp
      ensures Valid() && |rest| <= |views| && rest == views[|views| - |rest|..] && Roomy(side.ep, 3 * |rest|)
      ensures Course(Now(), count, status, |views| - |rest|)
           == SendCourse(old(Now()), src, deadline, views, sents, |views|)
      ensures count <= |src| && side.accepted == old(side.accepted) + src[..count] && side.read == old(side.read)
      ensures status == Success ==> count == |src|
      ensures status == Watching ==> count < |src| && rest == []
      ensures status == Timeout <==> |rest| < |views| && Late(deadline, views[|views| - |rest| - 1].later)
    {
      hide Valid;
      hide Honest;
      hide Roomy;
      hide HonestSend;
      hide SendCourse;
      hide SendTurn;
      ghost var was := Now();
      SendStart(was, src, deadline, views, sents);
      count, status := 0, if src == [] then Success else Watching;
      assert side.accepted + src[..0] == side.accepted;
      var i := 0;
      while status == Watching && i < |views|
        invariant Valid() && 0 <= i <= |views| && count <= |src|
        invariant side.accepted == old(side.accepted) + src[..count] && side.read == old(side.read)
        invariant Roomy(side.ep, 3 * (|views| - i))
        invariant Course(Now(), count, status, i) == SendCourse(was, src, deadline, views, sents, i)
        invariant status == Success ==> count == |src|
        invariant status == Watching ==> count < |src|
        invariant status == Timeout <==> i > 0 && Late(deadline, views[i - 1].later)
        decreases |views| - i
      {
        ghost var from := count;
        SendNext(was, src, deadline, views, sents, i);
        SendTurnStatus(Course(Now(), count, Watching, i), src, deadline, views[i], sents[i]);
        count, status := SendOnce(src, count, deadline, views[i], sents[i], 3 * (|views| - i - 1), i);
        assert src[..from] + src[from..count] == src[..count];
        i := i + 1;
      }
      rest := views[i..];
      if status != Watching {
        SendSettled(was, src, deadline, views, sents, i, |views|);
      }
    }

    /** One read from the receiving pool. */
    method ReadSegment(n: nat, ghost room: nat) returns (bytes: seq<byte>)
      requires Valid() && Roomy(side.ep, room + 1)
      modifies this`side, this`life, rcv, rcv.windows
      ensures Valid() && |bytes| <= n && bytes == Read(old(side.ep.rcv), n).1
      ensures Now() == Acted(old(Now()), Deed(Action.Recv(n), {}))
      ensures side.accepted == old(side.accepted) && side.read == old(side.read) + bytes
      ensures Roomy(side.ep, room)
    {
      hide Wired;
      hide Logged;
      hide Read;
      hide WindowPool.State;
      hide Lived;
      ghost var act := Action.Recv(n);
      StepRoom(side.ep, act, room);
      LessRoom(side.ep, 1, room + 1);
      ReadRoom(side.ep, n);
      bytes := rcv.Read(n);
      Record(Deed(act, {}));
      assert side.accepted == old(side.accepted);
    }

    /** One turn of the loop of `mc_comm_recv`. */
    method RecvOnce(data: seq<byte>, size: nat, deadline: Option<nat>, t: View, ghost sent: set<Packet>,
                    ghost room: nat, ghost turns: nat) returns (bytes: seq<byte>, status: Status)
      requires Valid() && Roomy(side.ep, room + 3) && |data| < size
      requires !Late(deadline, t.now) && Read(side.ep.rcv, size - |data|).1 == [] ==> Honest(Now(), t, sent)
      modifies this`side, this`life, this`ackBuf, this`sendDelayUs, snd, snd.windows, rcv, rcv.windows
      modifies frame`tempStored, frame`stream, frame.temp
      ensures Valid() && Roomy(side.ep, room) && |data + bytes| <= size
      ensures Course(Now(), data + bytes, status, turns + 1)
           == RecvTurn(Course(old(Now()), data, Watching, turns), size, deadline, t, sent)
      ensures side.read == old(side.read) + bytes && side.accepted == old(side.accepted)
    {
      hide Ready;
      hide State;
      hide Step;
      hide Honest;
      hide Roomy;
      hide Turned;
      hide Lived;
      hide Acted;
      hide Read;
      if deadline.Some? && t.now > deadline.value {
        bytes, status := [], Timeout;
        assert data + bytes == data && side.read + [] == side.read;
        LessRoom(side.ep, room, room + 3);
      } else {
        ghost var before := Now();
        ReadKeepsFrame(before, size - |data|);
        bytes := ReadSegment(size - |data|, room + 2);
        if |bytes| == 0 {
          SameHonest(before, Now(), t, sent);
          Update(t, sent, room);
        } else {
          LessRoom(side.ep, room, room + 2);
        }
        status := if |data + bytes| == size then Success else Watching;
      }
    }

    /** `mc_comm_recv`: read what is stored in order, and update while there is nothing. */
    method Recv(size: nat, deadline: Option<nat>, views: seq<View>, ghost sents: seq<set<Packet>>)
      returns (data: seq<byte>, status: Status, rest: seq<View>)
      requires Valid() && Roomy(side.ep, 3 * |views|) && HonestRecv(Now(), size, deadline, views, sents)
      modifies this`side, this`life, this`ackBuf, this`sendDelayUs, snd, snd.windows, rcv, rcv.windows
      modifies frame`tempStored, frame`stream, frame.temp
      ensures Valid() && |rest| <= |views| && rest == views[|views| - |rest|..] && Roomy(side.ep, 3 * |rest|)
      ensures Course(Now(), data, status, |views| - |rest|)
           == RecvCourse(old(Now()), size, deadline, views, sents, |views|)
      ensures |data| <= size && side.read == old(side.read) + data && side.accepted == old(side.accepted)
      ensures status == Success <==> |data| == size
      ensures status == Watching ==> rest == []
      ensures status == Timeout <==> |rest| < |views| && Late(deadline, views[|views| - |rest| - 1].now)
    {
      hide Valid;
      hide Honest;
      hide Roomy;
      hide HonestRecv;
      hide RecvCourse;
      hide RecvTurn;
      hide Read;
      ghost var was := Now();
      RecvStart(was, size, deadline, views, sents);
      data, status := [], if size == 0 then Success else Watching;
      assert side.read + [] == side.read;
      var i := 0;
      while status == Watching && i < |views|
        invariant Valid() && 0 <= i <= |views| && |data| <= size
        invariant side.read == old(side.read) + data && side.accepted == old(side.accepted)
        invariant Roomy(side.ep, 3 * (|views| - i))
        invariant Course(Now(), data, status, i) == RecvCourse(was, size, deadline, views, sents, i)
        invariant status == Success <==> |data| == size
        invariant status == Timeout <==> i > 0 && Late(deadline, views[i - 1].now)
        decreases |views| - i
      {
        RecvNext(was, size, deadline, views, sents, i);
        RecvTurnStatus(Course(Now(), data, Watching, i), size, deadline, views[i], sents[i]);
        ghost var before := side.read;
        var bytes;
        bytes, status := RecvOnce(data, size, deadline, views[i], sents[i], 3 * (|views| - i - 1), i);
        assert before + bytes == old(side.read) + (data + bytes);
        data := data + bytes;
        i := i + 1;
      }
      rest := views[i..];
      if status != Watching {
        RecvSettled(was, size, deadline, views, sents, i, |views|);
      }
    }

    predicate EmptyPools()
      requires Valid()
      reads this, snd, snd.windows, rcv, rcv.windows, frame, frame.temp
      ensures EmptyPools() <==> Flushed(side.ep)
    {
      snd.Empty() && rcv.Empty()
    }

    /** One turn of the loop of `mc_comm_flush`. */
    method FlushOnce(deadline: nat, t: View, ghost sent: set<Packet>, ghost room: nat, ghost turns: nat)
      returns (status: Status)
      requires Valid() && Roomy(side.ep, room + 3) && Honest(Now(), t, sent)
      modifies this`side, this`life, this`ackBuf, this`sendDelayUs, snd, snd.windows, rcv.windows
      modifies frame`tempStored, frame`stream, frame.temp
      ensures Valid() && Roomy(side.ep, room)
      ensures Course(Now(), (), status, turns + 1)
           == FlushTurn(Course(old(Now()), (), Watching, turns), deadline, t, sent)
      ensures side.read == old(side.read) && side.accepted == old(side.accepted)
    {
      hide Ready;
      hide State;
      hide Honest;
      hide Roomy;
      hide Turned;
      hide Lived;
      hide Flushed;
      LessRoom(side.ep, room + 2, room + 3);
      Update(t, sent, room);
      var empty := EmptyPools();
      status := if t.later > deadline then Timeout else if empty then Success else Watching;
    }

    /** `mc_comm_flush`: update until both pools are empty. */
    method Flush(deadline: nat, views: seq<View>, ghost sents: seq<set<Packet>>)
      returns (flushed: bool, status: Status, rest: seq<View>)
      requires Valid() && Roomy(side.ep, 3 * |views|) && HonestFlush(Now(), deadline, views, sents)
      modifies this`side, this`life, this`ackBuf, this`sendDelayUs, snd, snd.windows, rcv.windows
      modifies frame`tempStored, frame`stream, frame.temp
      ensures Valid() && |rest| <= |views| && rest == views[|views| - |rest|..] && Roomy(side.ep, 3 * |rest|)
      ensures Course(Now(), (), status, |views| - |rest|)
           == FlushCourse(old(Now()), deadline, views, sents, |views|)
      ensures side.read == old(side.read) && side.accepted == old(side.accepted)
      ensures flushed <==> status == Success
      ensures flushed ==> Flushed(side.ep)
      ensures status == Watching ==> !Flushed(side.ep) && rest == []
      ensures status == Timeout <==> |rest| < |views| && Late(Some(deadline), views[|views| - |rest| - 1].later)
    {
      hide Honest;
      hide Roomy;
      hide HonestFlush;
      hide FlushCourse;
      hide FlushTurn;
      hide Flushed;
      hide Valid;
      ghost var was := Now();
      FlushStart(was, deadline, views, sents);
      var empty := EmptyPools();
      status := if empty then Success else Watching;
      var i := 0;
      while status == Watching && i < |views|
        invariant Valid() && 0 <= i <= |views|
        invariant side.read == old(side.read) && side.accepted == old(side.accepted)
        invariant Roomy(side.ep, 3 * (|views| - i))
        invariant Course(Now(), (), status, i) == FlushCourse(was, deadline, views, sents, i)
        invariant status == Success ==> Flushed(side.ep)
        invariant status == Watching ==> !Flushed(side.ep)
        invariant status == Timeout <==> i > 0 && Late(Some(deadline), views[i - 1].later)
        decreases |views| - i
      {
        FlushNext(was, deadline, views, sents, i);
        FlushTurnStatus(Course(Now(), (), Watching, i), deadline, views[i], sents[i]);
        status := FlushOnce(deadline, views[i], sents[i], 3 * (|views| - i - 1), i);
        i := i + 1;
      }
      rest := views[i..];
      flushed := status == Success;
      if status != Watching {
        FlushSettled(was, deadline, views, sents, i, |views|);
      }
    }
  }

  /** When a send reports a timeout: exactly if the clock is past the deadline after its
      last turn, whatever that turn achieved. */
  lemma {:induction false} SendOutcome(m: Moment, src: seq<byte>, deadline: Option<nat>, views: seq<View>,
                                       sents: seq<set<Packet>>, k: nat)
    requires |sents| == |views| && k <= |views|
    ensures var c := SendCourse(m, src, deadline, views, sents, k);
      && c.turns <= k && c.got <= |src| && (c.turns == 0 ==> c.got == 0)
      && (c.status.Timeout? <==> c.turns > 0 && Late(deadline, views[c.turns - 1].later))
      && (c.status.Success? ==> c.got == |src|) && (c.status.Watching? ==> c.got < |src| && c.turns == k)
    decreases k
  {
    hide Turned;
    hide Acted;
    hide Blocked;
    if k > 0 {
      SendOutcome(m, src, deadline, views, sents, k - 1);
    }
  }

  /** So a send that has accepted everything reports a timeout if and only if the clock was
      late after the turn that took the last segment; a segment that is free to go and a
      deadline that has passed are enough. */
  lemma TimeoutThoughAccepted(m: Moment, src: seq<byte>, deadline: Option<nat>, views: seq<View>,
                              sents: seq<set<Packet>>)
    requires |sents| == |views| && src != []
    ensures var c := SendCourse(m, src, deadline, views, sents, |views|);
      c.got == |src| ==>
        0 < c.turns <= |views| && (c.status.Timeout? <==> Late(deadline, views[c.turns - 1].later))
    ensures |src| <= m.side.ep.snd.payload && !Blocked(m.side.ep.snd) && views != [] && Late(deadline, views[0].later)
      ==> var c := SendCourse(m, src, deadline, views, sents, |views|); c.got == |src| && c.status.Timeout?
  {
    hide SendCourse;
    SendOutcome(m, src, deadline, views, sents, |views|);
    if |src| <= m.side.ep.snd.payload && !Blocked(m.side.ep.snd) && views != [] && Late(deadline, views[0].later) {
      OneLateTurn(m, src, deadline, views, sents);
      SendSettled(m, src, deadline, views, sents, 1, |views|);
    }
  }

  lemma OneLateTurn(m: Moment, src: seq<byte>, deadline: Option<nat>, views: seq<View>, sents: seq<set<Packet>>)
    requires |sents| == |views| > 0 && Late(deadline, views[0].later)
    requires 0 < |src| <= m.side.ep.snd.payload && !Blocked(m.side.ep.snd)
    ensures var c := SendCourse(m, src, deadline, views, sents, 1); c.got == |src| && c.status.Timeout?
  {
    hide Turned;
    hide Acted;
    hide Blocked;
    assert SendCourse(m, src, deadline, views, sents, 0) == Course(m, 0, Watching, 0);
  }

  lemma SendTurnStatus(c: Course<nat>, src: seq<byte>, deadline: Option<nat>, t: View, sent: set<Packet>)
    requires c.status.Watching? && c.got < |src|
    ensures var d := SendTurn(c, src, deadline, t, sent);
      && (d.status.Timeout? <==> Late(deadline, t.later))
      && (d.status.Success? ==> d.got == |src|) && (d.status.Watching? ==> d.got != |src|)
  {
  }

  lemma RecvTurnStatus(c: Course<seq<byte>>, size: nat, deadline: Option<nat>, t: View, sent: set<Packet>)
    requires c.status.Watching? && |c.got| < size
    ensures var d := RecvTurn(c, size, deadline, t, sent);
      && (d.status.Timeout? <==> Late(deadline, t.now))
      && (d.status.Success? <==> |d.got| == size)
  {
  }

  lemma FlushTurnStatus(c: Course<()>, deadline: nat, t: View, sent: set<Packet>)
    requires c.status.Watching?
    ensures var d := FlushTurn(c, deadline, t, sent);
      && (d.status.Timeout? <==> Late(Some(deadline), t.later))
      && (d.status.Success? ==> Flushed(d.now.side.ep)) && (d.status.Watching? ==> !Flushed(d.now.side.ep))
  {
  }

  /** A segment offered does not change what is read from the transport next. */
  lemma OfferKeeps(m: Moment, bytes: seq<byte>, t: View)
    ensures var m' := Acted(m, Deed(Action.Send(bytes, t.now, t.nowMs), {}));
      FrameSize(m'.side.ep) == FrameSize(m.side.ep) && m'.stream == m.stream
  {
  }

  lemma OfferTakes(m: Moment, bytes: seq<byte>, t: View)
    requires 0 < |bytes| <= m.side.ep.snd.payload
    ensures var m', w := Acted(m, Deed(Action.Send(bytes, t.now, t.nowMs), {})),
                         Write(m.side.ep.snd, bytes, t.now, t.nowMs);
      && m'.side.ep == m.side.ep.(snd := w.0) && m'.side.read == m.side.read
      && m'.side.accepted == m.side.accepted + bytes[..w.2]
  {
    hide Wired;
    hide Logged;
    hide Write;
    assert m.side.read + [] == m.side.read;
  }

  /** Nor does a read from the pool. */
  lemma ReadKeepsFrame(m: Moment, n: nat)
    ensures var m' := Acted(m, Deed(Action.Recv(n), {}));
      FrameSize(m'.side.ep) == FrameSize(m.side.ep) && m'.stream == m.stream
  {
  }

  lemma SameHonest(m: Moment, m': Moment, t: View, sent: set<Packet>)
    requires Honest(m, t, sent) && FrameSize(m'.side.ep) == FrameSize(m.side.ep) && m'.stream == m.stream
    ensures Honest(m', t, sent)
  {
  }

  lemma UnackedTurn(r: Ring, id: nat, now: nat, delay: nat, out: seq<Packet>)
    requires r.bgn <= id < r.end
    ensures out + Unacked(r, id, now, delay)
         == out + (if Expired(At(r, id), now, delay) then [At(r, id).packet] else []) + Unacked(r, id + 1, now, delay)
  {
  }

  lemma UnackedEnd(r: Ring, now: nat, delay: nat, out: seq<Packet>)
    ensures out + Unacked(r, r.end, now, delay) == out
  {
  }

  lemma SendAllowed(e: Endpoint, sent: set<Packet>, bytes: seq<byte>, t: View)
    requires |bytes| <= e.snd.payload
    ensures Allowed(e, sent, Action.Send(bytes, t.now, t.nowMs))
  {
  }

  lemma SendRoom(e: Endpoint, bytes: seq<byte>, t: View)
    requires |bytes| <= e.snd.payload && Roomy(e, 1)
    ensures Write(e.snd, bytes, t.now, t.nowMs).0.end + |e.snd.wnd| < INVALID_ID
  {
    FillRoom(e.snd, bytes, t.now, t.nowMs);
  }

  lemma ReadRoom(e: Endpoint, n: nat)
    requires Roomy(e, 1)
    ensures Read(e.rcv, n).0.end + |e.rcv.wnd| < INVALID_ID && |Read(e.rcv, n).1| <= n
  {
  }

  lemma DecodeShape(f: frame)
    ensures |Decode(f).data| == |f| - PACKET_SIZE
  {
  }

  /** Neither a delivery nor a timer moves octets to or from the application. */
  lemma DeliverMovesNothing(s: Side, f: frame, now: nat)
    requires Enabled(s.ep, Deliver(f, now))
    ensures var s' := Step(s, Deliver(f, now));
      s'.accepted == s.accepted && s'.read == s.read && s'.ep == Perform(s.ep, Deliver(f, now)).ep
  {
    hide Accepts;
    hide Decode;
    hide Receive;
  }

  lemma TickMovesNothing(s: Side, now: nat, nowMs: nat, sealUs: nat)
    ensures var s' := Step(s, Tick(now, nowMs, sealUs));
      s'.accepted == s.accepted && s'.read == s.read && s'.ep == Perform(s.ep, Tick(now, nowMs, sealUs)).ep
  {
    hide SendUnacked;
  }
}
