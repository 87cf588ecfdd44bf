/** Connections over memory that was not zeroed. Initialisation leaves the read cursor as it
    finds it (src/io/communication/mc_window_pool.c:56-75); this is exactly when that matters. */
module Memory {
  import opened Bytes
  import opened Seqs
  import opened Frame
  import opened Packets
  import opened WindowRing
  import opened Protocol
  import opened Invariant
  import opened Safety
  import opened Delivery
  import opened Liveness
  import opened Completion

  // ------------------------------------------------------------------ reading inside the window

  /** The cursor is not past the end of the window it is about to read: what the program
      copies are octets of that window. */
  predicate Inside(r: Ring) {
    IsFirstAcked(r) ==> r.stored <= r.wnd[0].packet.size
  }

  /** No read of the run starts outside its window. */
  ghost predicate AllInside(w: World, evs: seq<Event>)
    requires IsRun(w, evs)
    decreases |evs|
  {
    evs == [] || (
      && (evs[0].act.Recv? ==> Inside(if evs[0].A? then w.a.ep.rcv else w.b.ep.rcv))
      && AllInside(Next(w, evs[0]), evs[1..]))
  }

  ghost predicate InOrder(w: World) {
    w.b.read <= w.a.accepted && w.a.read <= w.b.accepted
  }

  lemma SoundIsInside(x: Side, y: Side)
    requires LinkInv(x, y)
    ensures Inside(y.ep.rcv)
  {
    hide SenderInv;
    hide AckInv;
  }

  /** From a sound state on, every read is inside. */
  lemma {:induction false} ReadsInside(w: World, evs: seq<Event>)
    requires Inv(w) && IsRun(w, evs)
    ensures AllInside(w, evs)
    decreases |evs|
  {
    hide LinkInv;
    hide NoWrap;
    hide CanStep;
    hide Next;
    if evs != [] {
      SoundIsInside(w.a, w.b);
      SoundIsInside(w.b, w.a);
      assert NoWrap(Next(w, evs[0]));
      StepKeepsInv(w, evs[0]);
      ReadsInside(Next(w, evs[0]), evs[1..]);
    }
  }

  // ------------------------------------------------------------------ twins

  /** The same world with other cursors, and another record of what `b` has read. */
  function Twin(w: World, ca: nat, cb: nat, rb: seq<byte>): World {
    World(w.a.(ep := w.a.ep.(rcv := w.a.ep.rcv.(stored := ca))),
          w.b.(ep := w.b.ep.(rcv := w.b.ep.rcv.(stored := cb)), read := rb))
  }

  /** The event reads at no end whose cursor differs, unless there is nothing to read. */
  predicate Harmless(w: World, ev: Event, fa: bool, fb: bool) {
    && (ev.A? && ev.act.Recv? && fa ==> !IsFirstAcked(w.a.ep.rcv))
    && (ev.B? && ev.act.Recv? && fb ==> !IsFirstAcked(w.b.ep.rcv))
  }

  function Pick(f: bool, c: nat, r: Ring): nat {
    if f then c else r.stored
  }

  lemma TwinReceive(e: Endpoint, c: nat, p: Packet, now: nat)
    requires |p.data| == e.rcv.payload
    ensures var e' := e.(rcv := e.rcv.(stored := c));
      && Receive(e', p, now).0 == Receive(e, p, now).0.(rcv := Receive(e, p, now).0.rcv.(stored := c))
      && Receive(e', p, now).1 == Receive(e, p, now).1
      && Receive(e, p, now).0.rcv.stored == e.rcv.stored
  {
    hide Seal;
  }

  /** One end does the same whatever its cursor. */
  lemma TwinPerform(e: Endpoint, f: bool, c: nat, act: Action)
    requires Enabled(e, act) && (act.Recv? && f ==> !IsFirstAcked(e.rcv))
    ensures var e', fx := e.(rcv := e.rcv.(stored := Pick(f, c, e.rcv))), Perform(e, act);
      && Enabled(e', act)
      && Perform(e', act) == fx.(ep := fx.ep.(rcv := fx.ep.rcv.(stored := Pick(f, c, fx.ep.rcv))))
  {
    hide Accepts;
    hide Receive;
    hide Unacked;
    hide Write;
    hide FromLe;
    if act.Deliver? && Accepts(act.f) {
      TwinReceive(e, Pick(f, c, e.rcv), Decode(act.f), act.now);
    }
    assert !f ==> e.(rcv := e.rcv.(stored := e.rcv.stored)) == e;
  }

  ghost function Given(w: World, ev: Event): seq<byte>
    requires CanStep(w, ev)
  {
    match ev
    case A(act) => []
    case B(act) => AllowedEnabled(w.b.ep, w.a.wire, act); Perform(w.b.ep, act).given
  }

  lemma TwinStep(w: World, ev: Event, fa: bool, fb: bool, ca: nat, cb: nat, rb: seq<byte>)
    requires CanStep(w, ev) && Harmless(w, ev, fa, fb)
    ensures var v := Twin(w, Pick(fa, ca, w.a.ep.rcv), Pick(fb, cb, w.b.ep.rcv), rb);
      && CanStep(v, ev)
      && var u := Next(w, ev);
      && Next(v, ev) == Twin(u, Pick(fa, ca, u.a.ep.rcv), Pick(fb, cb, u.b.ep.rcv), rb + Given(w, ev))
      && u.b.read == w.b.read + Given(w, ev)
  {
    hide Perform;
    hide Wired;
    hide Logged;
    hide Accepts;
    hide Encode;
    assert rb + [] == rb && w.b.read + [] == w.b.read;
    match ev
    case A(act) =>
      AllowedEnabled(w.a.ep, w.b.wire, act);
      TwinPerform(w.a.ep, fa, ca, act);
    case B(act) =>
      AllowedEnabled(w.b.ep, w.a.wire, act);
      TwinPerform(w.b.ep, fb, cb, act);
  }

  lemma TwinNoWrap(w: World, ca: nat, cb: nat, rb: seq<byte>)
    ensures NoWrap(Twin(w, ca, cb, rb)) == NoWrap(w)
  {
  }

  ghost predicate AllHarmless(w: World, evs: seq<Event>, fa: bool, fb: bool)
    requires IsRun(w, evs)
    decreases |evs|
  {
    evs == [] || (Harmless(w, evs[0], fa, fb) && AllHarmless(Next(w, evs[0]), evs[1..], fa, fb))
  }

  /** The same run is possible in the twin world, and leads to the twin of where it led. */
  lemma {:induction false} TwinRun(w: World, evs: seq<Event>, fa: bool, fb: bool, ca: nat, cb: nat, rb: seq<byte>)
    returns (given: seq<byte>)
    requires IsRun(w, evs) && AllHarmless(w, evs, fa, fb)
    ensures var v := Twin(w, Pick(fa, ca, w.a.ep.rcv), Pick(fb, cb, w.b.ep.rcv), rb);
      && IsRun(v, evs)
      && var u := After(w, evs);
      && After(v, evs) == Twin(u, Pick(fa, ca, u.a.ep.rcv), Pick(fb, cb, u.b.ep.rcv), rb + given)
      && u.b.read == w.b.read + given
    decreases |evs|
  {
    hide NoWrap;
    hide CanStep;
    hide Next;
    hide Harmless;
    hide Twin;
    hide Given;
    TwinNoWrap(w, Pick(fa, ca, w.a.ep.rcv), Pick(fb, cb, w.b.ep.rcv), rb);
    if evs == [] {
      given := [];
      assert rb + [] == rb && w.b.read + [] == w.b.read;
    } else {
      TwinStep(w, evs[0], fa, fb, ca, cb, rb);
      var first := Given(w, evs[0]);
      var rest := TwinRun(Next(w, evs[0]), evs[1..], fa, fb, ca, cb, rb + first);
      given := first + rest;
      assert rb + first + rest == rb + given && w.b.read + first + rest == w.b.read + given;
    }
  }

  // ------------------------------------------------------------------ senders that never number a window

  /** The only window holds one octet, so it is full as soon as it holds any. */
  predicate Silent(r: Ring) {
    r.payload == 1 && Capacity(r) == 1
  }

  lemma SilentNumbersNothing(x: Side, y: Side)
    requires LinkInv(x, y) && Silent(x.ep.snd) && x.ep.snd.bgn == 0
    ensures x.log == []
  {
    hide Sound;
    hide WireInv;
  }

  lemma StaysSilent(x: Side, y: Side, act: Action)
    requires LinkInv(x, y) && Enabled(x.ep, act) && LinkInv(Step(x, act), y)
    requires Silent(x.ep.snd) && x.log == []
    ensures Silent(Step(x, act).ep.snd) && Step(x, act).log == []
  {
    hide LinkInv;
    hide Accepts;
    hide FromLe;
    hide Receive;
    hide Unacked;
    hide Fill;
    hide Seal;
    hide Logged;
    hide Wired;
    var x' := Step(x, act);
    NothingIsOpen(x, y);
    match act
    case Recv(n) => NothingHappens(x);
    case Send(bytes, now, nowMs) => SilentNumbersNothing(x', y);
    case Tick(now, nowMs, sealUs) => SilentNumbersNothing(x', y);
    case Deliver(f, now) =>
      if Accepts(f) {
        SilentReceive(x, Decode(f), now);
      } else {
        NothingHappens(x);
      }
  }

  lemma NothingIsOpen(x: Side, y: Side)
    requires LinkInv(x, y) && x.log == []
    ensures x.ep.snd.bgn == 0
  {
    hide Sound;
    hide WireInv;
  }

  lemma SilentReceive(x: Side, p: Packet, now: nat)
    requires |p.data| == x.ep.rcv.payload
    ensures var (e', out) := Receive(x.ep, p, now);
      Logged(x.log, out) == x.log && e'.snd.payload == x.ep.snd.payload && Capacity(e'.snd) == Capacity(x.ep.snd)
  {
    hide Seal;
    LoggedOld(x.log, Receive(x.ep, p, now).1);
  }

  lemma NothingToRead(x: Side, y: Side)
    requires LinkInv(x, y) && x.log == []
    ensures !IsFirstAcked(y.ep.rcv)
  {
    hide Sound;
    SenderSendsData(x, y);
    if IsFirstAcked(y.ep.rcv) {
      FirstIsLogged(y.ep.rcv, x.wire, x.log, y.read);
    }
  }

  /** Behind such a sender the cursor never matters. */
  ghost predicate Idle(x: Side) {
    Silent(x.ep.snd) && x.log == []
  }

  lemma IdleNow(w: World, ev: Event, fa: bool, fb: bool)
    requires Inv(w) && (fb ==> Idle(w.a)) && (fa ==> Idle(w.b))
    ensures Harmless(w, ev, fa, fb)
  {
    hide LinkInv;
    if fb { NothingToRead(w.a, w.b); }
    if fa { NothingToRead(w.b, w.a); }
  }

  lemma StepStaysIdle(w: World, ev: Event, fa: bool, fb: bool)
    requires Inv(w) && CanStep(w, ev) && Inv(Next(w, ev))
    requires (fb ==> Idle(w.a)) && (fa ==> Idle(w.b))
    ensures (fb ==> Idle(Next(w, ev).a)) && (fa ==> Idle(Next(w, ev).b))
  {
    hide LinkInv;
    hide Step;
    match ev
    case A(act) =>
      AllowedEnabled(w.a.ep, w.b.wire, act);
      if fb { StaysSilent(w.a, w.b, act); }
    case B(act) =>
      AllowedEnabled(w.b.ep, w.a.wire, act);
      if fa { StaysSilent(w.b, w.a, act); }
  }

  lemma TwinCanStep(w: World, ev: Event, ca: nat, cb: nat, rb: seq<byte>)
    ensures CanStep(Twin(w, ca, cb, rb), ev) == CanStep(w, ev)
  {
    hide Accepts;
    hide Encode;
  }

  /** A run of a twin is a run of the world itself. */
  lemma {:induction false} IdleRun(w: World, evs: seq<Event>, fa: bool, fb: bool, ca: nat, cb: nat, rb: seq<byte>)
    requires Inv(w) && (fb ==> Idle(w.a)) && (fa ==> Idle(w.b))
    requires IsRun(Twin(w, Pick(fa, ca, w.a.ep.rcv), Pick(fb, cb, w.b.ep.rcv), rb), evs)
    ensures IsRun(w, evs) && AllHarmless(w, evs, fa, fb)
    decreases |evs|
  {
    hide Inv;
    hide NoWrap;
    hide CanStep;
    hide Next;
    hide Idle;
    hide Harmless;
    hide Twin;
    hide Given;
    TwinNoWrap(w, Pick(fa, ca, w.a.ep.rcv), Pick(fb, cb, w.b.ep.rcv), rb);
    if evs != [] {
      var ev := evs[0];
      TwinCanStep(w, ev, Pick(fa, ca, w.a.ep.rcv), Pick(fb, cb, w.b.ep.rcv), rb);
      IdleNow(w, ev, fa, fb);
      TwinStep(w, ev, fa, fb, ca, cb, rb);
      var u, rb' := Next(w, ev), rb + Given(w, ev);
      TwinNoWrap(u, Pick(fa, ca, u.a.ep.rcv), Pick(fb, cb, u.b.ep.rcv), rb');
      StepKeepsInv(w, ev);
      StepStaysIdle(w, ev, fa, fb);
      IdleRun(u, evs[1..], fa, fb, ca, cb, rb');
    }
  }

  /** A run is inside if it is in the zeroed twin, and the cursors that differ are not used. */
  lemma {:induction false} TwinInside(w: World, evs: seq<Event>, fa: bool, fb: bool, ca: nat, cb: nat, rb: seq<byte>)
    requires IsRun(w, evs) && AllHarmless(w, evs, fa, fb) && AllInside(w, evs)
    requires IsRun(Twin(w, Pick(fa, ca, w.a.ep.rcv), Pick(fb, cb, w.b.ep.rcv), rb), evs)
    ensures AllInside(Twin(w, Pick(fa, ca, w.a.ep.rcv), Pick(fb, cb, w.b.ep.rcv), rb), evs)
    decreases |evs|
  {
    hide NoWrap;
    hide CanStep;
    hide Next;
    hide Given;
    if evs != [] {
      TwinStep(w, evs[0], fa, fb, ca, cb, rb);
      TwinInside(Next(w, evs[0]), evs[1..], fa, fb, ca, cb, rb + Given(w, evs[0]));
    }
  }

  // ------------------------------------------------------------------ exactly when

  function Zeroed(w: World): World {
    Twin(w, 0, 0, w.b.read)
  }

  /** At `y`, receiving from `x`, the cursor found in memory does no harm. */
  predicate CursorHarmless(x: Side, y: Side) {
    y.ep.rcv.stored == 0 || Silent(x.ep.snd)
  }

  lemma ZeroedIsInitial(w: World)
    requires JustInit(w) && NoWrap(w)
    ensures Initial(Zeroed(w)) && NoWrap(Zeroed(w)) && Inv(Zeroed(w))
  {
    hide Inv;
    InitialInv(Zeroed(w));
  }

  /** Memory whose cursors do no harm is as good as zeroed memory, in every run. */
  lemma HarmlessMemory(w: World, evs: seq<Event>)
    requires JustInit(w) && CursorHarmless(w.a, w.b) && CursorHarmless(w.b, w.a) && IsRun(w, evs)
    ensures InOrder(After(w, evs)) && AllInside(w, evs)
  {
    hide Inv, IsRun, After, AllInside, AllHarmless, Initial, JustInit, NoWrap;
    var z, ca, cb := Zeroed(w), w.a.ep.rcv.stored, w.b.ep.rcv.stored;
    var fa, fb := ca != 0, cb != 0;
    assert NoWrap(w) by { RunStarts(w, evs); }
    ZeroedIsInitial(w);
    IdleAtStart(w);
    assert Twin(z, Pick(fa, ca, z.a.ep.rcv), Pick(fb, cb, z.b.ep.rcv), []) == w;
    IdleRun(z, evs, fa, fb, ca, cb, []);
    ReadsInside(z, evs);
    var given := TwinRun(z, evs, fa, fb, ca, cb, []);
    TwinInside(z, evs, fa, fb, ca, cb, []);
    assert z.b.read + given == [] + given;
    ExactlyOnceInOrder(z, evs);
  }

  lemma IdleAtStart(w: World)
    requires JustInit(w)
    ensures w.a.log == [] && w.b.log == [] && w.b.read == []
  {
  }

  // ------------------------------------------------------------------ when it does harm

  predicate NoRecvByA(evs: seq<Event>) {
    forall i :: 0 <= i < |evs| ==> !(evs[i].A? && evs[i].act.Recv?)
  }

  lemma NoRecvByAConcat(x: seq<Event>, y: seq<Event>)
    requires NoRecvByA(x) && NoRecvByA(y)
    ensures NoRecvByA(x + y)
  {
  }

  lemma FlushingReadsNothing(evs: seq<Event>)
    requires Flushing(evs)
    ensures NoRecvByA(evs)
  {
  }

  lemma {:induction false} UnreadIsHarmless(w: World, evs: seq<Event>, fb: bool)
    requires IsRun(w, evs) && NoRecvByA(evs) && (fb ==> NoRecv(evs))
    ensures AllHarmless(w, evs, true, fb)
    decreases |evs|
  {
    hide NoWrap;
    hide CanStep;
    hide Next;
    if evs != [] {
      forall i | 0 <= i < |evs[1..]|
        ensures evs[1..][i] == evs[i + 1]
      {
      }
      UnreadIsHarmless(Next(w, evs[0]), evs[1..], fb);
    }
  }

  lemma {:induction false} InsideConcat(w: World, x: seq<Event>, y: seq<Event>)
    requires IsRun(w, x) && IsRun(After(w, x), y) && IsRun(w, x + y)
    requires AllInside(w, x) && AllInside(After(w, x), y)
    ensures AllInside(w, x + y)
    decreases |x|
  {
    hide NoWrap;
    hide CanStep;
    hide Next;
    hide Inside;
    if x == [] {
      assert x + y == y;
    } else {
      assert (x + y)[0] == x[0] && (x + y)[1..] == x[1..] + y;
      InsideConcat(Next(w, x[0]), x[1..], y);
    }
  }

  /** Ids enough for two windows more. */
  predicate Ample(w: World) {
    && 4 + Max(Capacity(w.a.ep.snd), Capacity(w.b.ep.rcv)) < INVALID_ID
    && 4 + Max(Capacity(w.b.ep.snd), Capacity(w.a.ep.rcv)) < INVALID_ID
  }

  /** An empty sender takes one octet more, and it reaches the other application. */
  lemma OneMore(w: World, y: byte) returns (evs: seq<Event>)
    requires Inv(w) && !Silent(w.a.ep.snd) && IsEmpty(w.a.ep.snd) && w.a.ep.snd.end <= 1
    requires Ample(w) && NoWrap(w)
    ensures IsRun(w, evs) && NoRecvByA(evs)
    ensures var u := After(w, evs); u.b.read == u.a.accepted == w.a.accepted + [y]
  {
    hide Inv, IsRun, After, QuietRun, NoWrap, CanStep, Next, Stuck, Flushing, Slack, NoRecvByA;
    var ev := A(Send([y], 0, 0));
    OneWritten(w, y);
    var v := Next(w, ev);
    var first := Drain(v);
    QuietTakesNothing(v, first, {}, {});
    RunKeepsInv(v, first);
    var last := ReadOut(After(v, first));
    FlushingReadsNothing(first);
    FlushingReadsNothing(last);
    RunConcat(v, first, last);
    RunCons(w, ev, first + last);
    NoRecvByAConcat(first, last);
    NoRecvByAConcat([ev], first + last);
    evs := [ev] + (first + last);
  }

  lemma OneWritten(w: World, y: byte)
    requires Inv(w) && !Silent(w.a.ep.snd) && IsEmpty(w.a.ep.snd) && w.a.ep.snd.end <= 1
    requires Ample(w) && NoWrap(w)
    ensures var ev := A(Send([y], 0, 0));
      && CanStep(w, ev) && NoRecvByA([ev])
      && var v := Next(w, ev);
      && Inv(v) && Slack(v) && !Stuck(v.a.ep.snd) && v.a.accepted == w.a.accepted + [y]
  {
    hide Inv, LinkInv, Write, Stuck, Top, Blocked, Next, CanStep;
    var r, ev := w.a.ep.snd, A(Send([y], 0, 0));
    InvLinks(w);
    EmptyIsOpen(w.a, w.b);
    OneInEmpty(r, y);
    NextSendA(w, [y], 0, 0);
    assert [y][..1] == [y];
    assert NoRecvByA([ev]);
    SlackNoWrap(Next(w, ev));
    StepKeepsInv(w, ev);
  }

  lemma NextSendA(w: World, bytes: seq<byte>, now: nat, nowMs: nat)
    requires |bytes| <= w.a.ep.snd.payload
    ensures var ev := A(Send(bytes, now, nowMs));
      && CanStep(w, ev) && Next(w, ev).b == w.b
      && var (snd, out, n) := Write(w.a.ep.snd, bytes, now, nowMs);
      && Next(w, ev).a.ep == w.a.ep.(snd := snd) && Next(w, ev).a.accepted == w.a.accepted + bytes[..n]
  {
    hide Write, Wired, Logged;
  }

  lemma OneInEmpty(r: Ring, y: byte)
    requires !Blocked(r) && IsEmpty(r) && !Silent(r) && r.end <= 1 && 4 + Capacity(r) < INVALID_ID
    ensures var (r', out, n) := Write(r, [y], 0, 0);
      n == 1 && !Stuck(r') && Top(r') == r.end + 1 && Capacity(r') == Capacity(r)
  {
    hide Fill, Stuck, Top;
    WriteSticksIff(r, [y], 0, 0);
    FillTop(r, [y], 0, 0);
  }

  /** The first segment of a fresh sender is read, and then all the rest, one octet more. */
  lemma ReadAndOneMore(u: World, bytes: seq<byte>, y: byte) returns (evs: seq<Event>)
    requires Inv(u) && Slack(u) && Ample(u) && !Stuck(u.a.ep.snd) && Top(u.a.ep.snd) == 1
    requires !Silent(u.a.ep.snd) && u.a.accepted == bytes
    ensures IsRun(u, evs) && NoRecvByA(evs)
    ensures After(u, evs).b.read == After(u, evs).a.accepted == bytes + [y]
  {
    hide Inv, IsRun, After, QuietRun, NoWrap, Stuck, Flushing, Slack, NoRecvByA, Ample, Silent;
    var first := Drain(u);
    QuietTakesNothing(u, first, {}, {});
    RunKeepsInv(u, first);
    var v := After(u, first);
    EmptyAtOne(u, v);
    RunKeepsShape(u, first);
    AmpleStays(u, v);
    var rest := OneMore(v, y);
    FlushingReadsNothing(first);
    RunConcat(u, first, rest);
    NoRecvByAConcat(first, rest);
    evs := first + rest;
  }

  lemma EmptyAtOne(u: World, v: World)
    requires Keeps(u, v) && Top(u.a.ep.snd) == 1 && IsEmpty(v.a.ep.snd)
    ensures v.a.ep.snd.end <= 1
  {
    hide Inv, Slack, Stuck;
  }

  lemma AmpleStays(w: World, v: World)
    requires Ample(w) && SameShape(w, v)
    ensures Ample(v) && Silent(v.a.ep.snd) == Silent(w.a.ep.snd)
  {
  }

  /** The largest window that a sender ever numbers. */
  function Largest(r: Ring): nat {
    if Capacity(r) > 1 then r.payload else r.payload - 1
  }

  lemma {:induction false} NoRecvIsInside(w: World, evs: seq<Event>)
    requires IsRun(w, evs) && NoRecv(evs)
    ensures AllInside(w, evs)
    decreases |evs|
  {
    hide NoWrap;
    hide CanStep;
    hide Next;
    if evs != [] {
      forall i | 0 <= i < |evs[1..]|
        ensures evs[1..][i] == evs[i + 1]
      {
      }
      NoRecvIsInside(Next(w, evs[0]), evs[1..]);
    }
  }

  /** The first segment has arrived: where the run so far has led, in zeroed memory (`u`) and
      in the memory at hand. */
  lemma FirstArrives(w: World, bytes: seq<byte>) returns (evs: seq<Event>, u: World)
    requires JustInit(w) && Ample(w) && 0 < |bytes| <= Largest(w.a.ep.snd)
    ensures IsRun(w, evs) && NoRecv(evs)
    ensures After(w, evs) == Twin(u, w.a.ep.rcv.stored, w.b.ep.rcv.stored, [])
    ensures Inv(u) && Slack(u) && Ample(u) && !Stuck(u.a.ep.snd) && Top(u.a.ep.snd) == 1 && !Silent(u.a.ep.snd)
    ensures u.a.log == [bytes] && u.a.accepted == bytes && u.b.read == []
    ensures u.b.ep.rcv.bgn == 0 && !IsEmpty(u.b.ep.rcv)
  {
    hide Inv, IsRun, After, Initial, JustInit, NoRecv, Stuck, Top, Slack;
    var z, ca, cb := Zeroed(w), w.a.ep.rcv.stored, w.b.ep.rcv.stored;
    assert NoWrap(w) by { AmpleNoWrap(w); }
    ZeroedIsInitial(w);
    IdleAtStart(w);
    evs := FirstWriteStored(z, bytes, 0, 0);
    u := After(z, evs);
    RunKeepsShape(z, evs);
    AmpleStays(z, u);
    assert !Silent(w.a.ep.snd);
    assert NoRecvByA(evs) by { NoRecvAtAll(evs); }
    UnreadIsHarmless(z, evs, true);
    assert Twin(z, ca, cb, []) == w;
    var given := TwinRun(z, evs, true, true, ca, cb, []);
    assert [] + given == given == [];
  }

  lemma NoRecvAtAll(evs: seq<Event>)
    requires NoRecv(evs)
    ensures NoRecvByA(evs)
  {
  }

  lemma AmpleNoWrap(w: World)
    requires JustInit(w) && Ample(w)
    ensures NoWrap(w)
  {
  }

  lemma FirstIsWhole(u: World, bytes: seq<byte>)
    requires Inv(u) && u.a.log == [bytes] && u.b.ep.rcv.bgn == 0 && !IsEmpty(u.b.ep.rcv)
    ensures IsFirstAcked(u.b.ep.rcv) && Carried(u.b.ep.rcv.wnd[0].packet) == bytes
  {
    hide Sound;
    hide SenderInv;
    hide AckInv;
    var r := u.b.ep.rcv;
    SenderSendsData(u.a, u.b);
    assert r.wnd[0] == At(r, 0);
    assert !EmptySlot(At(r, 0)) && StoredSlot(At(r, 0), 0, u.a.wire);
    FirstIsLogged(r, u.a.wire, u.a.log, u.b.read);
  }

  /** A cursor at the end of the first window skips it: nothing is read, and from then on
      the memory is as good as zeroed, but for what was lost. */
  lemma SkipsWindow(u: World, bytes: seq<byte>, ca: nat, n: nat)
    requires Inv(u) && u.a.log == [bytes] && u.b.ep.rcv.bgn == 0 && !IsEmpty(u.b.ep.rcv) && u.b.read == []
    requires n >= |bytes|
    ensures var v, ev := Twin(u, ca, |bytes|, []), B(Recv(n));
      && CanStep(v, ev) && CanStep(u, ev) && Inside(v.b.ep.rcv)
      && Next(v, ev) == Twin(Next(u, ev), ca, Next(u, ev).b.ep.rcv.stored, [])
      && Next(u, ev).a == u.a && Next(u, ev).b.read == bytes
      && Next(u, ev).b.ep.snd == u.b.ep.snd && Capacity(Next(u, ev).b.ep.rcv) == Capacity(u.b.ep.rcv)
  {
    hide LinkInv;
    hide RemoveN;
    FirstIsWhole(u, bytes);
    CursorAtStart(u.a, u.b);
    ReadShape(u.b.ep.rcv, n);
    assert bytes[0..|bytes|] == bytes && [] + bytes == bytes;
    var r := u.b.ep.rcv;
    assert r.(stored := |bytes|).(stored := 0) == r.(stored := 0);
  }

  lemma CursorAtStart(x: Side, y: Side)
    requires LinkInv(x, y) && y.read == [] && y.ep.rcv.bgn == 0
    ensures y.ep.rcv.stored == 0
  {
    hide SenderInv;
    hide AckInv;
  }

  /** A cursor inside the windows that the peer can send: with every read inside its window,
      what is delivered is not what was sent. */
  lemma CursorMisleads(w: World) returns (evs: seq<Event>)
    requires JustInit(w) && Ample(w) && 0 < w.b.ep.rcv.stored <= Largest(w.a.ep.snd)
    ensures IsRun(w, evs) && AllInside(w, evs) && !(After(w, evs).b.read <= After(w, evs).a.accepted)
  {
    hide Inv, IsRun, After, AllInside, JustInit, NoRecv, NoRecvByA, Stuck, Top, Slack, NoWrap, Silent, Largest;
    hide AllHarmless, CanStep, Next, Inside;
    var c, ca := w.b.ep.rcv.stored, w.a.ep.rcv.stored;
    var bytes, y := seq(c, _ => Zeros(8)), Ones(8);
    var first, u := FirstArrives(w, bytes);
    var v, ev := After(w, first), B(Recv(c));
    SkipsWindow(u, bytes, ca, c);
    var u', v' := Next(u, ev), Next(v, ev);
    SlackStays(u, u');
    StepKeepsInv(u, ev);
    var last := ReadAndOneMore(u', bytes, y);
    UnreadIsHarmless(u', last, false);
    var given := TwinRun(u', last, true, false, ca, 0, []);
    assert given == (bytes + given)[c..] == (bytes + [y])[c..] == [y];
    ReadsInside(u', last);
    TwinInside(u', last, true, false, ca, 0, []);
    TwinNoWrap(u, ca, c, []);
    evs := first + ([ev] + last);
    JoinRuns(w, first, ev, last);
    NoRecvIsInside(w, first);
    InsideStep(v, ev, last);
    InsideConcat(w, first, [ev] + last);
    assert After(w, evs).b.read == [] + [y] == [y] && After(w, evs).a.accepted == bytes + [y];
    assert (bytes + [y])[0] == Zeros(8) && [y][0] == Ones(8) && !Zeros(8)[0] && Ones(8)[0];
  }

  lemma SlackStays(u: World, v: World)
    requires Slack(u) && Ample(u) && v.a == u.a && v.b.ep.snd == u.b.ep.snd
    requires Capacity(v.b.ep.rcv) == Capacity(u.b.ep.rcv)
    ensures Slack(v) && Ample(v) && NoWrap(v) && NoWrap(u)
  {
  }

  lemma JoinRuns(w: World, first: seq<Event>, ev: Event, last: seq<Event>)
    requires IsRun(w, first)
    requires var v := After(w, first); NoWrap(v) && CanStep(v, ev) && IsRun(Next(v, ev), last)
    ensures var v := After(w, first);
      && IsRun(v, [ev] + last) && IsRun(w, first + ([ev] + last))
      && After(w, first + ([ev] + last)) == After(Next(v, ev), last)
  {
    hide NoWrap, CanStep, Next, IsRun, After;
    RunCons(After(w, first), ev, last);
    RunConcat(w, first, [ev] + last);
  }

  lemma InsideStep(v: World, ev: Event, evs: seq<Event>)
    requires NoWrap(v) && CanStep(v, ev) && IsRun(Next(v, ev), evs) && AllInside(Next(v, ev), evs)
    requires IsRun(v, [ev] + evs) && ev.B? && Inside(v.b.ep.rcv)
    ensures AllInside(v, [ev] + evs)
  {
    hide NoWrap, CanStep, Next, Inside;
    assert ([ev] + evs)[1..] == evs;
  }

  lemma {:induction false} InsideSoFar(w: World, x: seq<Event>, ev: Event)
    requires IsRun(w, x + [ev]) && IsRun(w, x) && AllInside(w, x + [ev]) && ev.B? && ev.act.Recv?
    ensures Inside(After(w, x).b.ep.rcv)
    decreases |x|
  {
    hide NoWrap, CanStep, Next, Inside;
    if x == [] {
      assert [] + [ev] == [ev];
    } else {
      assert (x + [ev])[0] == x[0] && (x + [ev])[1..] == x[1..] + [ev];
      InsideSoFar(Next(w, x[0]), x[1..], ev);
    }
  }

  /** A cursor beyond: the first read copies from outside its window. */
  lemma CursorOutside(w: World) returns (evs: seq<Event>)
    requires JustInit(w) && Ample(w) && 1 < w.b.ep.rcv.stored && 0 < Largest(w.a.ep.snd)
    ensures IsRun(w, evs) && !AllInside(w, evs)
  {
    hide Inv, IsRun, After, AllInside, JustInit, NoRecv, Stuck, Top, Slack, NoWrap, Silent, Largest;
    var ca, cb := w.a.ep.rcv.stored, w.b.ep.rcv.stored;
    var first, u := FirstArrives(w, [Zeros(8)]);
    var v, ev := After(w, first), B(Recv(1));
    FirstIsWhole(u, [Zeros(8)]);
    assert !Inside(v.b.ep.rcv);
    TwinNoWrap(u, ca, cb, []);
    TwinNoWrap(Next(u, ev), ca, cb, []);
    SlackNoWrap(u);
    RecvNoWrap(v, 1);
    RunOfOne(v, ev);
    RunConcat(w, first, [ev]);
    evs := first + [ev];
    if AllInside(w, evs) {
      InsideSoFar(w, first, ev);
    }
  }

  // ------------------------------------------------------------------ both directions

  lemma {:induction false} MirrorInside(w: World, evs: seq<Event>)
    requires IsRun(w, evs) && IsRun(Mirror(w), MirrorAll(evs))
    ensures AllInside(Mirror(w), MirrorAll(evs)) == AllInside(w, evs)
    decreases |evs|
  {
    hide Allowed, Step, NoWrap, Inside;
    if evs != [] {
      var ev, mirrored := evs[0], MirrorAll(evs);
      assert mirrored[0] == MirrorEvent(ev) && mirrored[1..] == MirrorAll(evs[1..]);
      assert Next(Mirror(w), MirrorEvent(ev)) == Mirror(Next(w, ev));
      MirrorInside(Next(w, ev), evs[1..]);
    }
  }

  /** The run delivers in order, in both directions, and reads nothing else. */
  ghost predicate Right(w: World, evs: seq<Event>)
    requires IsRun(w, evs)
  {
    InOrder(After(w, evs)) && AllInside(w, evs)
  }

  lemma HarmfulCursor(w: World) returns (evs: seq<Event>)
    requires JustInit(w) && Ample(w) && !CursorHarmless(w.a, w.b)
    ensures IsRun(w, evs) && !Right(w, evs)
  {
    hide IsRun, After, AllInside, JustInit, Ample;
    if w.b.ep.rcv.stored <= Largest(w.a.ep.snd) {
      evs := CursorMisleads(w);
    } else {
      evs := CursorOutside(w);
    }
  }

  lemma HarmfulElsewhere(w: World) returns (evs: seq<Event>)
    requires JustInit(w) && Ample(w) && !CursorHarmless(w.b, w.a)
    ensures IsRun(w, evs) && !Right(w, evs)
  {
    hide IsRun, After, AllInside;
    var m := Mirror(w);
    assert Mirror(m) == w;
    var back := HarmfulCursor(m);
    MirrorRun(m, back);
    MirrorInside(m, back);
    evs := MirrorAll(back);
  }

  /** Over whatever memory two ends are initialised: every run delivers in order and reads
      inside its windows if and only if, at either end, the cursor found is zero or the peer
      can never number a window. */
  lemma RightIff(w: World)
    requires JustInit(w) && Ample(w)
    ensures (forall evs :: IsRun(w, evs) ==> Right(w, evs))
       <==> CursorHarmless(w.a, w.b) && CursorHarmless(w.b, w.a)
  {
    hide IsRun, After, AllInside, JustInit, Ample, CursorHarmless, InOrder;
    if CursorHarmless(w.a, w.b) && CursorHarmless(w.b, w.a) {
      forall evs | IsRun(w, evs)
        ensures Right(w, evs)
      {
        HarmlessMemory(w, evs);
      }
    } else if !CursorHarmless(w.a, w.b) {
      var evs := HarmfulCursor(w);
    } else {
      var evs := HarmfulElsewhere(w);
    }
  }
}
