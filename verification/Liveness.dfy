/** Progress: whenever an id is outstanding or an open window can be sealed, the window can
    move on, even if every packet sent so far is lost; so no such state is a deadlock. */
module Liveness {
  import opened Seqs
  import opened Frame
  import opened Packets
  import opened WindowRing
  import opened Protocol
  import opened Invariant
  import opened Safety
  import opened Delivery

  // ------------------------------------------------------------------ runs without old packets

  /** What an end puts on the wire in one event. */
  ghost function Emitted(w: World, ev: Event): seq<Packet>
    requires CanStep(w, ev)
  {
    match ev
    case A(act) => AllowedEnabled(w.a.ep, w.b.wire, act); Perform(w.a.ep, act).out
    case B(act) => AllowedEnabled(w.b.ep, w.a.wire, act); Perform(w.b.ep, act).out
  }

  /** The event takes nothing more from either application, and what it delivers is among
      the packets `fromA` and `fromB`. */
  ghost predicate Renewed(ev: Event, fromA: set<Packet>, fromB: set<Packet>) {
    match ev
    case A(act) => !act.Send? && (act.Deliver? ==> exists p :: p in fromB && act.f == Encode(p))
    case B(act) => !act.Send? && (act.Deliver? ==> exists p :: p in fromA && act.f == Encode(p))
  }

  /** The packets of either end that have been sent in a run, after one more event. */
  ghost function SentByA(w: World, ev: Event, fromA: set<Packet>): set<Packet>
    requires CanStep(w, ev)
  {
    if ev.A? then fromA + SetOf(Emitted(w, ev)) else fromA
  }

  ghost function SentByB(w: World, ev: Event, fromB: set<Packet>): set<Packet>
    requires CanStep(w, ev)
  {
    if ev.B? then fromB + SetOf(Emitted(w, ev)) else fromB
  }

  /** A run in which nothing is written, and every packet delivered was sent during the run
      itself: all earlier ones may be lost. */
  ghost predicate QuietRun(w: World, evs: seq<Event>, fromA: set<Packet>, fromB: set<Packet>)
    decreases |evs|
  {
    NoWrap(w) && (evs == [] || (
      CanStep(w, evs[0]) && Renewed(evs[0], fromA, fromB) &&
      QuietRun(Next(w, evs[0]), evs[1..], SentByA(w, evs[0], fromA), SentByB(w, evs[0], fromB))))
  }

  lemma {:induction false} QuietIsRun(w: World, evs: seq<Event>, fromA: set<Packet>, fromB: set<Packet>)
    requires QuietRun(w, evs, fromA, fromB)
    ensures IsRun(w, evs)
    decreases |evs|
  {
    hide NoWrap;
    hide CanStep;
    hide Next;
    hide Emitted;
    hide Renewed;
    if evs != [] {
      QuietIsRun(Next(w, evs[0]), evs[1..], SentByA(w, evs[0], fromA), SentByB(w, evs[0], fromB));
    }
  }

  lemma RenewedMore(ev: Event, a: set<Packet>, b: set<Packet>, a': set<Packet>, b': set<Packet>)
    requires Renewed(ev, a, b) && a <= a' && b <= b'
    ensures Renewed(ev, a', b')
  {
    hide Encode;
  }

  lemma {:induction false} QuietMore(w: World, evs: seq<Event>,
                                     a: set<Packet>, b: set<Packet>, a': set<Packet>, b': set<Packet>)
    requires QuietRun(w, evs, a, b) && a <= a' && b <= b'
    ensures QuietRun(w, evs, a', b')
    decreases |evs|
  {
    hide NoWrap;
    hide CanStep;
    hide Next;
    hide Emitted;
    hide Renewed;
    if evs != [] {
      RenewedMore(evs[0], a, b, a', b');
      QuietMore(Next(w, evs[0]), evs[1..], SentByA(w, evs[0], a), SentByB(w, evs[0], b),
                SentByA(w, evs[0], a'), SentByB(w, evs[0], b'));
    }
  }

  /** Runs compose. */
  lemma {:induction false} QuietConcat(w: World, x: seq<Event>, y: seq<Event>, a: set<Packet>, b: set<Packet>)
    requires QuietRun(w, x, a, b) && IsRun(w, x) && QuietRun(After(w, x), y, {}, {})
    ensures QuietRun(w, x + y, a, b) && IsRun(w, x + y)
    ensures IsRun(After(w, x), y) && After(w, x + y) == After(After(w, x), y)
    decreases |x|
  {
    hide NoWrap;
    hide CanStep;
    hide Next;
    hide Emitted;
    hide Renewed;
    if x == [] {
      assert x + y == y;
      QuietMore(w, y, {}, {}, a, b);
      QuietIsRun(w, y, a, b);
    } else {
      assert (x + y)[0] == x[0] && (x + y)[1..] == x[1..] + y;
      QuietConcat(Next(w, x[0]), x[1..], y, SentByA(w, x[0], a), SentByB(w, x[0], b));
    }
  }

  /** Such runs, too, are the same seen from the other end. */
  lemma {:induction false} MirrorQuietRun(w: World, evs: seq<Event>, a: set<Packet>, b: set<Packet>)
    requires QuietRun(w, evs, a, b)
    ensures QuietRun(Mirror(w), MirrorAll(evs), b, a)
    decreases |evs|
  {
    hide Allowed;
    hide Step;
    hide Perform;
    hide Encode;
    if evs != [] {
      var ev, mirrored := evs[0], MirrorAll(evs);
      assert CanStep(Mirror(w), MirrorEvent(ev)) && Renewed(MirrorEvent(ev), b, a);
      assert Next(Mirror(w), MirrorEvent(ev)) == Mirror(Next(w, ev));
      assert SentByA(Mirror(w), MirrorEvent(ev), b) == SentByB(w, ev, b);
      assert SentByB(Mirror(w), MirrorEvent(ev), a) == SentByA(w, ev, a);
      assert mirrored[0] == MirrorEvent(ev) && mirrored[1..] == MirrorAll(evs[1..]);
      MirrorQuietRun(Next(w, ev), evs[1..], SentByA(w, ev, a), SentByB(w, ev, b));
    }
  }

  /** What `mc_comm_flush` lets its own end do: take in frames and resend, but not read
      or write. The peer may do anything. */
  ghost predicate Flushing(evs: seq<Event>) {
    forall i :: 0 <= i < |evs| && evs[i].A? ==> evs[i].act.Deliver? || evs[i].act.Tick?
  }

  lemma FlushingConcat(x: seq<Event>, y: seq<Event>)
    requires Flushing(x) && Flushing(y)
    ensures Flushing(x + y)
  {
  }

  lemma FlushingCons(ev: Event, evs: seq<Event>)
    requires Flushing(evs) && (ev.A? ==> ev.act.Deliver? || ev.act.Tick?)
    ensures Flushing([ev] + evs)
  {
    FlushingConcat([ev], evs);
  }

  lemma FlushingRest(evs: seq<Event>)
    requires Flushing(evs) && evs != []
    ensures Flushing(evs[1..]) && (evs[0].A? ==> evs[0].act.Deliver? || evs[0].act.Tick?)
  {
    forall i | 0 <= i < |evs[1..]| && evs[1..][i].A?
      ensures evs[1..][i].act.Deliver? || evs[1..][i].act.Tick?
    {
      assert evs[1..][i] == evs[i + 1];
    }
  }

  // ------------------------------------------------------------------ one round trip

  /** The last window is full and has no number: nothing but a later write sends it. */
  predicate Stuck(r: Ring) {
    !Last(r).isSent && Last(r).packet.size == r.payload
  }

  /** A numbered window waits for its acknowledgement, or an open one can be sealed. */
  predicate Outstanding(r: Ring) {
    r.bgn < r.end || (Count(r) > 0 && !Stuck(r))
  }

  /** One past the highest id in use. */
  function Top(r: Ring): nat {
    r.end + if Last(r).packet.size != 0 then 1 else 0
  }

  lemma FirstNotAcked(x: Side, y: Side)
    requires LinkInv(x, y) && x.ep.snd.bgn < |x.log|
    ensures var w := x.ep.snd.wnd[0];
      w.packet.id == x.ep.snd.bgn && w.packet.kind.Data? && w.IsValid() && !w.isAcked && w.packet in x.wire
  {
    hide Sound;
    hide WireInv;
    var r := x.ep.snd;
    assert SentSlot(At(r, r.bgn), r.bgn, x.wire, y.ep.rcv);
    assert r.wnd[0] == At(r, r.bgn);
  }

  lemma LastIsSmall(x: Side, y: Side)
    requires LinkInv(x, y)
    ensures Last(x.ep.snd).isSent ==> 0 < Last(x.ep.snd).packet.size < x.ep.snd.payload
  {
    hide Sound;
    hide WireInv;
  }

  /** When its time has come, the timer step resends the first outstanding window, after
      sealing it if it was still open. */
  lemma TickSendsFirst(x: Side, y: Side, now: nat, nowMs: nat, sealUs: nat)
    requires LinkInv(x, y) && Outstanding(x.ep.snd)
    requires now >= x.ep.snd.wnd[0].sentTime + x.ep.delay && nowMs > x.ep.snd.updateTime + FLUSH_TIMEOUT_MS
    ensures var (e', out) := SendUnacked(x.ep, now, nowMs, sealUs);
      && e'.snd.bgn == x.ep.snd.bgn && e'.snd.end == x.ep.snd.end && |e'.snd.wnd| == |x.ep.snd.wnd|
      && Last(e'.snd).packet.size == Last(x.ep.snd).packet.size && Stuck(e'.snd) == Stuck(x.ep.snd)
      && e'.rcv == x.ep.rcv
      && e'.snd.wnd[0].packet in out && e'.snd.wnd[0].IsValid()
  {
    hide Sound;
    hide WireInv;
    hide SealLast;
    var r := x.ep.snd;
    var (e', out) := SendUnacked(x.ep, now, nowMs, sealUs);
    if !Last(r).isSent {
      SealEffect(r, sealUs);
    }
    LastIsSmall(x, y);
    assert r.wnd[0] == At(r, r.bgn) && e'.snd.wnd[0] == At(e'.snd, r.bgn);
    if r.bgn < r.end {
      FirstNotAcked(x, y);
      assert Expired(At(r, r.bgn), now, x.ep.delay);
      UnackedExactly(r, r.bgn, now, x.ep.delay, At(r, r.bgn).packet);
    } else {
      assert HasIncomplete(r);
      if Last(r).isSent {
        FirstNotAcked(x, y);
      }
      assert Last(e'.snd).packet in SendStale(r, nowMs, sealUs).1;
    }
  }

  /** If the receiver has no slot for the sender's first window, it has something to read,
      and reading it makes the slot. */
  lemma RoomOrReadable(x: Side, y: Side)
    requires LinkInv(x, y) && x.ep.snd.bgn < |x.log|
    requires x.ep.snd.bgn >= y.ep.rcv.bgn + |y.ep.rcv.wnd|
    ensures IsFirstAcked(y.ep.rcv)
    ensures var (r', bytes) := Read(y.ep.rcv, x.ep.snd.payload);
      bytes != [] && x.ep.snd.bgn < r'.bgn + |r'.wnd|
  {
    hide Sound;
    var s := y.ep.rcv;
    assert Received(s, x.ep.snd.bgn - 1);
    assert Received(s, s.bgn);
    assert s.wnd[0] == At(s, s.bgn);
    SenderSendsData(x, y);
    FirstIsLogged(s, x.wire, x.log, y.read);
  }

  lemma DeliverFirst(x: Side, y: Side, p: Packet, now: nat)
    requires LinkInv(x, y) && p in x.wire && p.kind.Data? && p.id == x.ep.snd.bgn < |x.log|
    requires p.id < y.ep.rcv.bgn + |y.ep.rcv.wnd|
    ensures |p.data| == y.ep.rcv.payload && Sound(p)
    ensures var (e', out) := Receive(y.ep, p, now);
      && e'.snd == y.ep.snd && |e'.rcv.wnd| == |y.ep.rcv.wnd|
      && |out| == 1 && out[0].kind.Ack? && out[0].id == p.id && Sound(out[0]) && |out[0].data| == y.ep.snd.payload
  {
    hide Sound;
    hide Seal;
    assert Genuine(p, x.log);
    SealedSound(y.ep.ackBuf.(header := HEADER, kind := Ack, id := p.id));
  }

  /** An acknowledgement of the first window moves the window on. */
  lemma AckFirst(x: Side, y: Side)
    requires LinkInv(x, y) && x.ep.snd.bgn < |x.log|
    ensures var r, r' := x.ep.snd, AckId(x.ep.snd, x.ep.snd.bgn);
      && r'.bgn > r.bgn && Top(r') == Top(r) && Stuck(r') == Stuck(r) && |r'.wnd| == |r.wnd|
  {
    hide Sound;
    hide WireInv;
    var r := x.ep.snd;
    var m := MarkAcked(r, r.bgn);
    FirstNotAcked(x, y);
    ForgedMarkKeeps(x, y, r.bgn);
    var n := DonePrefix(m.wnd);
    RemoveEffect(m, n);
    var r' := RemoveN(m, n);
    if r.bgn + n <= r.end {
      assert Last(r') == Last(m);
    } else {
      assert Last(r).isSent;
      assert Last(r').packet.size == 0;
    }
  }

  // ------------------------------------------------------------------ the round trip as a run

  /** Ids in use, and those that emptying the window can still open, stay below the sentinel. */
  predicate Slack(w: World) {
    && Top(w.a.ep.snd) + Max(Capacity(w.a.ep.snd), Capacity(w.b.ep.rcv)) < INVALID_ID
    && w.b.ep.snd.end + Max(Capacity(w.b.ep.snd), Capacity(w.a.ep.rcv)) < INVALID_ID
  }

  lemma SlackNoWrap(w: World)
    requires Slack(w)
    ensures NoWrap(w)
  {
  }

  /** What the rounds keep: a sound world, its highest id, whether the last window of `a`
      is stuck, and what `a` has received. */
  ghost predicate Keeps(w: World, u: World) {
    && Inv(u) && Slack(u)
    && Top(u.a.ep.snd) == Top(w.a.ep.snd) && Stuck(u.a.ep.snd) == Stuck(w.a.ep.snd)
    && Capacity(u.a.ep.snd) == Capacity(w.a.ep.snd) && u.a.ep.rcv == w.a.ep.rcv
  }

  lemma QuietCons(w: World, ev: Event, evs: seq<Event>, a: set<Packet>, b: set<Packet>)
    requires NoWrap(w) && CanStep(w, ev) && Renewed(ev, a, b)
    requires QuietRun(Next(w, ev), evs, SentByA(w, ev, a), SentByB(w, ev, b))
    ensures QuietRun(w, [ev] + evs, a, b) && IsRun(w, [ev] + evs) && IsRun(Next(w, ev), evs)
    ensures After(w, [ev] + evs) == After(Next(w, ev), evs)
  {
    hide NoWrap;
    hide CanStep;
    hide Next;
    hide Emitted;
    hide Renewed;
    assert ([ev] + evs)[0] == ev && ([ev] + evs)[1..] == evs;
    QuietIsRun(w, [ev] + evs, a, b);
  }

  lemma QuietNil(w: World, a: set<Packet>, b: set<Packet>)
    requires NoWrap(w)
    ensures QuietRun(w, [], a, b) && IsRun(w, []) && After(w, []) == w
  {
  }

  /** The acknowledgement of the first window arrives. */
  lemma AckMovesOn(w: World, q: Packet)
    requires Inv(w) && Slack(w) && w.a.ep.snd.bgn < |w.a.log|
    requires q in w.b.wire && q.kind.Ack? && q.id == w.a.ep.snd.bgn && Sound(q)
    requires |q.data| == w.b.ep.snd.payload
    ensures var ev := A(Deliver(Encode(q), 0));
      && CanStep(w, ev) && Keeps(w, Next(w, ev)) && Next(w, ev).b == w.b
      && Next(w, ev).a.ep.snd.bgn > w.a.ep.snd.bgn
  {
    hide Sound;
    hide Accepts;
    hide Encode;
    hide Inv;
    hide NoWrap;
    hide CanStep;
    hide Next;
    hide Emitted;
    var f := Encode(q);
    var ev := A(Deliver(f, 0));
    assert Accepts(f) by { SoundIsAccepted(q); }
    assert w.b.ep.snd.payload == w.a.ep.rcv.payload && LinkInv(w.a, w.b) by { InvLinks(w); }
    AckFirst(w.a, w.b);
    NextDeliverA(w, q, 0);
    SlackNoWrap(w);
    SlackNoWrap(Next(w, ev));
    StepKeepsInv(w, ev);
  }

  lemma RoundEnds(w: World, q: Packet, a: set<Packet>, b: set<Packet>) returns (evs: seq<Event>)
    requires Inv(w) && Slack(w) && w.a.ep.snd.bgn < |w.a.log|
    requires q in b && q in w.b.wire && q.kind.Ack? && q.id == w.a.ep.snd.bgn && Sound(q)
    requires |q.data| == w.b.ep.snd.payload
    ensures QuietRun(w, evs, a, b) && IsRun(w, evs)
    ensures Flushing(evs) && Keeps(w, After(w, evs)) && After(w, evs).a.ep.snd.bgn > w.a.ep.snd.bgn
  {
    hide Sound, Encode, Inv, Slack, Keeps, NoWrap, CanStep, Next, Emitted, QuietRun, IsRun, After, Flushing;
    var ev := A(Deliver(Encode(q), 0));
    AckMovesOn(w, q);
    KeepsInv(w, Next(w, ev));
    SlackNoWrap(w);
    SlackNoWrap(Next(w, ev));
    QuietNil(Next(w, ev), SentByA(w, ev, a), b);
    QuietCons(w, ev, [], a, b);
    NothingFlushes();
    FlushingCons(ev, []);
    evs := [ev] + [];
  }

  lemma SoundIsAccepted(p: Packet)
    requires Sound(p)
    ensures Accepts(Encode(p))
  {
  }

  lemma InvLinks(w: World)
    requires Inv(w)
    ensures LinkInv(w.a, w.b) && LinkInv(w.b, w.a)
    ensures w.b.ep.snd.payload == w.a.ep.rcv.payload && w.a.ep.snd.payload == w.b.ep.rcv.payload
  {
    hide SenderInv;
    hide ReceiverInv;
    hide AckInv;
  }

  lemma NextDeliverA(w: World, q: Packet, now: nat)
    requires q in w.b.wire && Accepts(Encode(q)) && |q.data| == w.a.ep.rcv.payload
    ensures var ev := A(Deliver(Encode(q), now));
      && CanStep(w, ev)
      && var (e', out) := Receive(w.a.ep, q, now);
      && Next(w, ev).a.ep == e' && Next(w, ev).b == w.b && Emitted(w, ev) == out
      && Next(w, ev).a.wire == Wired(w.a.wire, out) && Next(w, ev).a.log == Logged(w.a.log, out)
  {
    hide Accepts;
    hide Encode;
    hide Decode;
    hide Receive;
    DecodeEncode(q);
    AllowedEnabled(w.a.ep, w.b.wire, Deliver(Encode(q), now));
  }

  lemma NextDeliverB(w: World, p: Packet, now: nat)
    requires p in w.a.wire && Accepts(Encode(p)) && |p.data| == w.b.ep.rcv.payload
    ensures var ev := B(Deliver(Encode(p), now));
      && CanStep(w, ev)
      && var (e', out) := Receive(w.b.ep, p, now);
      && Next(w, ev).b.ep == e' && Next(w, ev).a == w.a && Emitted(w, ev) == out
      && Next(w, ev).b.accepted == w.b.accepted && Next(w, ev).b.read == w.b.read
      && Next(w, ev).b.wire == Wired(w.b.wire, out)
  {
    hide Accepts;
    hide Encode;
    hide Decode;
    hide Receive;
    DecodeEncode(p);
    assert w.b.accepted + [] == w.b.accepted && w.b.read + [] == w.b.read;
    AllowedEnabled(w.b.ep, w.a.wire, Deliver(Encode(p), now));
  }

  /** The first window arrives where there is room for it. */
  lemma RoundDelivers(w: World, p: Packet, a: set<Packet>, b: set<Packet>) returns (evs: seq<Event>)
    requires Inv(w) && Slack(w) && w.a.ep.snd.bgn < |w.a.log|
    requires p in a && p in w.a.wire && p.kind.Data? && p.id == w.a.ep.snd.bgn
    requires p.id < w.b.ep.rcv.bgn + |w.b.ep.rcv.wnd|
    ensures QuietRun(w, evs, a, b) && IsRun(w, evs)
    ensures Flushing(evs) && Keeps(w, After(w, evs)) && After(w, evs).a.ep.snd.bgn > w.a.ep.snd.bgn
  {
    hide Sound;
    hide Accepts;
    hide Encode;
    hide Inv;
    hide NoWrap;
    hide CanStep;
    hide Next;
    hide Emitted;
    hide QuietRun;
    hide IsRun;
    hide After;
    hide Receive;
    InvLinks(w);
    DeliverFirst(w.a, w.b, p, 0);
    var q := Receive(w.b.ep, p, 0).1[0];
    var ev := B(Deliver(Encode(p), 0));
    assert Accepts(Encode(p)) by { SoundIsAccepted(p); }
    NextDeliverB(w, p, 0);
    SlackNoWrap(w);
    SlackNoWrap(Next(w, ev));
    StepKeepsInv(w, ev);
    var b' := SentByB(w, ev, b);
    var rest := RoundEnds(Next(w, ev), q, a, b');
    QuietCons(w, ev, rest, a, b);
    FlushingCons(ev, rest);
    evs := [ev] + rest;
  }

  /** The first window arrives, after the peer has read if it must. */
  lemma RoundReads(w: World, p: Packet, a: set<Packet>, b: set<Packet>) returns (evs: seq<Event>)
    requires Inv(w) && Slack(w) && w.a.ep.snd.bgn < |w.a.log|
    requires p in a && p in w.a.wire && p.kind.Data? && p.id == w.a.ep.snd.bgn
    ensures QuietRun(w, evs, a, b) && IsRun(w, evs)
    ensures Flushing(evs) && Keeps(w, After(w, evs)) && After(w, evs).a.ep.snd.bgn > w.a.ep.snd.bgn
  {
    hide Sound;
    hide Accepts;
    hide Encode;
    hide Inv;
    hide NoWrap;
    hide CanStep;
    hide Next;
    hide Emitted;
    hide QuietRun;
    hide IsRun;
    hide After;
    if p.id < w.b.ep.rcv.bgn + |w.b.ep.rcv.wnd| {
      evs := RoundDelivers(w, p, a, b);
    } else {
      InvLinks(w);
      RoomOrReadable(w.a, w.b);
      var ev := B(Recv(w.a.ep.snd.payload));
      NextRecvB(w, w.a.ep.snd.payload);
      SlackNoWrap(w);
      SlackNoWrap(Next(w, ev));
      StepKeepsInv(w, ev);
      var b' := SentByB(w, ev, b);
      var rest := RoundDelivers(Next(w, ev), p, a, b');
      QuietCons(w, ev, rest, a, b);
      FlushingCons(ev, rest);
      evs := [ev] + rest;
    }
  }

  /** The same by itself: what the peer does to acknowledge the first window. */
  lemma PeerAnswers(w: World, p: Packet) returns (evs: seq<Event>, q: Packet)
    requires Inv(w) && Slack(w) && w.a.ep.snd.bgn < |w.a.log|
    requires p in w.a.wire && p.kind.Data? && p.id == w.a.ep.snd.bgn
    ensures IsRun(w, evs) && (forall i :: 0 <= i < |evs| ==> evs[i].B?)
    ensures var v := After(w, evs);
      && v.a == w.a && Inv(v) && Slack(v)
      && q in v.b.wire && q.kind.Ack? && q.id == p.id && Sound(q) && |q.data| == v.b.ep.snd.payload
  {
    hide Sound, Inv, LinkInv, Read, NoWrap, CanStep, Next, Emitted, IsRun, After;
    if p.id < w.b.ep.rcv.bgn + |w.b.ep.rcv.wnd| {
      evs, q := PeerStores(w, p);
    } else {
      InvLinks(w);
      RoomOrReadable(w.a, w.b);
      var n := w.a.ep.snd.payload;
      var ev := B(Recv(n));
      NextRecvB(w, n);
      SlackNoWrap(w);
      SlackNoWrap(Next(w, ev));
      StepKeepsInv(w, ev);
      var rest, ack := PeerStores(Next(w, ev), p);
      RunCons(w, ev, rest);
      evs, q := [ev] + rest, ack;
    }
  }

  /** The packet of the first window arrives where there is room, and is acknowledged. */
  lemma StoreAnswers(w: World, p: Packet) returns (q: Packet)
    requires Inv(w) && Slack(w) && w.a.ep.snd.bgn < |w.a.log|
    requires p in w.a.wire && p.kind.Data? && p.id == w.a.ep.snd.bgn
    requires p.id < w.b.ep.rcv.bgn + |w.b.ep.rcv.wnd|
    ensures Sound(p) && |p.data| == w.b.ep.rcv.payload
    ensures var ev := B(Deliver(Encode(p), 0));
      && CanStep(w, ev)
      && var v := Next(w, ev);
      && v.a == w.a && v.b.accepted == w.b.accepted && v.b.read == w.b.read && Inv(v) && Slack(v)
      && q in v.b.wire && q.kind.Ack? && q.id == p.id && Sound(q) && |q.data| == v.b.ep.snd.payload
  {
    hide Sound, Accepts, Encode, Inv, NoWrap, CanStep, Next, Emitted, Receive;
    InvLinks(w);
    DeliverFirst(w.a, w.b, p, 0);
    q := Receive(w.b.ep, p, 0).1[0];
    var ev := B(Deliver(Encode(p), 0));
    assert Accepts(Encode(p)) by { SoundIsAccepted(p); }
    NextDeliverB(w, p, 0);
    SlackNoWrap(w);
    SlackNoWrap(Next(w, ev));
    StepKeepsInv(w, ev);
  }

  lemma PeerStores(w: World, p: Packet) returns (evs: seq<Event>, q: Packet)
    requires Inv(w) && Slack(w) && w.a.ep.snd.bgn < |w.a.log|
    requires p in w.a.wire && p.kind.Data? && p.id == w.a.ep.snd.bgn
    requires p.id < w.b.ep.rcv.bgn + |w.b.ep.rcv.wnd|
    ensures IsRun(w, evs) && (forall i :: 0 <= i < |evs| ==> evs[i].B?)
    ensures var v := After(w, evs);
      && v.a == w.a && Inv(v) && Slack(v)
      && q in v.b.wire && q.kind.Ack? && q.id == p.id && Sound(q) && |q.data| == v.b.ep.snd.payload
  {
    hide Sound, Encode, Inv, Slack, NoWrap, CanStep, Next, IsRun, After;
    q := StoreAnswers(w, p);
    var ev := B(Deliver(Encode(p), 0));
    SlackNoWrap(w);
    SlackNoWrap(Next(w, ev));
    RunNil(Next(w, ev));
    RunCons(w, ev, []);
    evs := [ev] + [];
  }

  lemma NextRecvB(w: World, n: nat)
    ensures var ev := B(Recv(n));
      && CanStep(w, ev) && Next(w, ev).a == w.a && Emitted(w, ev) == []
      && Next(w, ev).b.ep == w.b.ep.(rcv := Read(w.b.ep.rcv, n).0)
      && |Next(w, ev).b.ep.rcv.wnd| == |w.b.ep.rcv.wnd|
  {
    ReadShape(w.b.ep.rcv, n);
  }

  lemma NextTickA(w: World, now: nat, nowMs: nat, sealUs: nat)
    ensures var ev := A(Tick(now, nowMs, sealUs));
      && CanStep(w, ev) && Next(w, ev).b == w.b
      && var (e', out) := SendUnacked(w.a.ep, now, nowMs, sealUs);
      && Next(w, ev).a.ep == e' && Emitted(w, ev) == out && Next(w, ev).a.wire == Wired(w.a.wire, out)
  {
    hide SendUnacked;
  }

  lemma FirstIsSent(x: Side, y: Side)
    requires LinkInv(x, y) && x.ep.snd.wnd[0].IsValid()
    ensures x.ep.snd.bgn < |x.log|
    ensures var p := x.ep.snd.wnd[0].packet;
      p.kind.Data? && p.id == x.ep.snd.bgn && p in x.wire
  {
    hide Sound;
    hide WireInv;
    var r := x.ep.snd;
    assert r.wnd[0] == At(r, r.bgn);
    assert r.bgn >= |x.log| ==> UnsentSlot(At(r, r.bgn));
    assert r.bgn < |x.log| ==> SentSlot(At(r, r.bgn), r.bgn, x.wire, y.ep.rcv);
  }

  /** The clock readings at which the first outstanding window is resent. */
  function DueTick(e: Endpoint): Action {
    var now := e.snd.wnd[0].sentTime + e.delay;
    Tick(now, e.snd.updateTime + FLUSH_TIMEOUT_MS + 1, now)
  }

  lemma RoundStarts(w: World)
    requires Inv(w) && Slack(w) && Outstanding(w.a.ep.snd)
    ensures var ev := A(DueTick(w.a.ep));
      && CanStep(w, ev)
      && var v := Next(w, ev);
      && Keeps(w, v) && v.a.ep.snd.bgn == w.a.ep.snd.bgn < |v.a.log|
      && var p := v.a.ep.snd.wnd[0].packet;
      && p in v.a.wire && p.kind.Data? && p.id == v.a.ep.snd.bgn
      && p in Emitted(w, ev)
  {
    hide Sound;
    hide Inv;
    hide CanStep;
    hide Next;
    hide Emitted;
    hide SendUnacked;
    hide NoWrap;
    var act := DueTick(w.a.ep);
    InvLinks(w);
    TickSendsFirst(w.a, w.b, act.now, act.nowMs, act.sealUs);
    NextTickA(w, act.now, act.nowMs, act.sealUs);
    var v := Next(w, A(act));
    SlackNoWrap(w);
    SlackNoWrap(v);
    StepKeepsInv(w, A(act));
    InvLinks(v);
    FirstIsSent(v.a, v.b);
  }

  /** Whatever the clock shows, a timer step keeps all this. */
  lemma AnyTickKeeps(w: World, act: Action)
    requires Inv(w) && Slack(w) && act.Tick?
    ensures var ev := A(act);
      && CanStep(w, ev) && Keeps(w, Next(w, ev)) && Next(w, ev).b == w.b
      && Next(w, ev).a.ep.snd.bgn == w.a.ep.snd.bgn
  {
    hide Inv, LinkInv, CanStep, Next, Emitted, NoWrap, SendUnacked;
    var e := w.a.ep;
    InvLinks(w);
    TickShape(e, act.now, act.nowMs, act.sealUs);
    TickKeepsLast(w.a, w.b, act);
    NextTickA(w, act.now, act.nowMs, act.sealUs);
    SlackNoWrap(w);
    SlackNoWrap(Next(w, A(act)));
    StepKeepsInv(w, A(act));
  }

  lemma TickKeepsLast(x: Side, y: Side, act: Action)
    requires LinkInv(x, y) && act.Tick?
    ensures var r, r' := x.ep.snd, SendUnacked(x.ep, act.now, act.nowMs, act.sealUs).0.snd;
      && r'.bgn == r.bgn && Top(r') == Top(r) && Stuck(r') == Stuck(r)
  {
    hide Sound;
    hide WireInv;
    hide Seal;
    hide Unacked;
    LastIsSmall(x, y);
  }

  /** One retransmission, one delivery and one acknowledgement move the window on, at most
      after one read by the peer. */
  lemma Round(w: World) returns (evs: seq<Event>)
    requires Inv(w) && Slack(w) && Outstanding(w.a.ep.snd)
    ensures QuietRun(w, evs, {}, {}) && IsRun(w, evs)
    ensures Flushing(evs) && Keeps(w, After(w, evs)) && After(w, evs).a.ep.snd.bgn > w.a.ep.snd.bgn
  {
    hide Inv;
    hide Slack;
    hide Outstanding;
    hide Keeps;
    hide CanStep;
    hide Next;
    hide Emitted;
    hide NoWrap;
    hide QuietRun;
    hide IsRun;
    hide After;
    var ev := A(DueTick(w.a.ep));
    RoundStarts(w);
    var v := Next(w, ev);
    var p := v.a.ep.snd.wnd[0].packet;
    KeepsInv(w, v);
    var rest := RoundReads(v, p, SentByA(w, ev, {}), SentByB(w, ev, {}));
    SlackNoWrap(w);
    KeepsTrans(w, v, After(v, rest));
    QuietCons(w, ev, rest, {}, {});
    FlushingCons(ev, rest);
    evs := [ev] + rest;
  }

  lemma KeepsInv(w: World, u: World)
    requires Keeps(w, u)
    ensures Inv(u) && Slack(u)
  {
  }

  lemma KeepsTrans(w: World, v: World, u: World)
    requires Keeps(w, v) && Keeps(v, u)
    ensures Keeps(w, u)
  {
    hide Inv;
    hide Slack;
  }

  /** Rounds go on until the sending half is empty. */
  lemma {:induction false} Drain(w: World) returns (evs: seq<Event>)
    requires Inv(w) && Slack(w) && !Stuck(w.a.ep.snd)
    ensures QuietRun(w, evs, {}, {}) && IsRun(w, evs)
    ensures Flushing(evs) && Keeps(w, After(w, evs)) && IsEmpty(After(w, evs).a.ep.snd)
    decreases Top(w.a.ep.snd) - w.a.ep.snd.bgn
  {
    hide Inv;
    hide Slack;
    hide QuietRun;
    hide IsRun;
    hide After;
    hide Flushing;
    if Count(w.a.ep.snd) == 0 {
      evs := [];
      SlackNoWrap(w);
      QuietNil(w, {}, {});
      assert Flushing([]) by { NothingFlushes(); }
    } else {
      var first := Round(w);
      var rest := Drain(After(w, first));
      QuietConcat(w, first, rest, {}, {});
      FlushingConcat(first, rest);
      evs := first + rest;
    }
  }

  lemma NothingFlushes()
    ensures Flushing([])
  {
  }
}
