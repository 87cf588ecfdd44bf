/** When a call of `mc_comm_flush` returns (src/io/communication/mc_communication.c:170-189):
    the condition of `Completion.FlushPossibleIff`, for the turns of the call itself. */
module Flush {
  import opened Bytes
  import opened Seqs
  import opened Crc16
  import opened Frame
  import opened Packets
  import opened WindowRing
  import opened Protocol
  import opened Invariant
  import opened Delivery
  import opened Liveness
  import opened Completion
  import opened Weaving
  import opened Communication

  /** The call, made at `a` at the moment `m`, with what `b` does meanwhile. */
  ghost predicate Used(w: World, m: Moment, deadline: nat, views: seq<View>, sents: seq<set<Packet>>,
                       gaps: seq<seq<Event>>) {
    && m.side == w.a && HonestFlush(m, deadline, views, sents)
    && var c := FlushCourse(m, deadline, views, sents, |views|);
    && m.life <= c.now.life
    && var ds := c.now.life[|m.life|..];
    && |gaps| == |ds| + 1 && Woven(w, ds, gaps)
  }

  ghost predicate Returns(w: World, m: Moment, deadline: nat, views: seq<View>, sents: seq<set<Packet>>,
                          gaps: seq<seq<Event>>) {
    Used(w, m, deadline, views, sents, gaps) && FlushCourse(m, deadline, views, sents, |views|).status.Success?
  }

  // ------------------------------------------------------------------ what a call does

  predicate OnlyFlush(ds: seq<Deed>) {
    forall i :: 0 <= i < |ds| ==> ds[i].act.Deliver? || ds[i].act.Tick?
  }

  function TickDeed(t: View): Deed {
    Deed(Tick(t.now, t.nowMs, t.now), {})
  }

  /** The deeds of one turn. */
  function TurnDeeds(m: Moment, t: View, sent: set<Packet>): seq<Deed> {
    var f := Arriving(FrameSize(m.side.ep), m.stream, t.avail);
    (if f.Some? then [Deed(Deliver(f.value, t.now), sent)] else []) + [TickDeed(t)]
  }

  lemma TickAct(m: Moment, t: View)
    ensures Acts(m.side, [TickDeed(t)])
    ensures Acted(m, TickDeed(t)) == m.(side := Steps(m.side, [TickDeed(t)]), life := m.life + [TickDeed(t)])
  {
    hide Step;
    assert [TickDeed(t)][1..] == [];
  }

  lemma DeliverAct(m: Moment, f: frame, now: nat, sent: set<Packet>)
    requires |f| == FrameSize(m.side.ep) && exists p :: p in sent && f == Encode(p)
    ensures var d := Deed(Deliver(f, now), sent);
      && Acts(m.side, [d]) && Acted(m, d) == m.(side := Steps(m.side, [d]), life := m.life + [d])
  {
    hide Step, Accepts, Encode;
    var d := Deed(Deliver(f, now), sent);
    AllowedEnabled(m.side.ep, sent, d.act);
    assert [d][1..] == [];
  }

  lemma TurnActs(m: Moment, t: View, sent: set<Packet>)
    requires Honest(m, t, sent)
    ensures var m', ds := Turned(m, t, sent), TurnDeeds(m, t, sent);
      m'.life == m.life + ds && Acts(m.side, ds) && m'.side == Steps(m.side, ds) && OnlyFlush(ds)
  {
    hide Acted, Acts, Steps, Rest, Accepts, Encode;
    var n := FrameSize(m.side.ep);
    var f := Arriving(n, m.stream, t.avail);
    var m' := Polled(m, t, sent);
    TickAct(m', t);
    if f.Some? {
      var d := Deed(Deliver(f.value, t.now), sent);
      DeliverAct(m, f.value, t.now, sent);
      ActsConcat(m.side, [d], [TickDeed(t)]);
      assert m.life + [d] + [TickDeed(t)] == m.life + ([d] + [TickDeed(t)]);
    } else {
      assert [] + [TickDeed(t)] == [TickDeed(t)];
    }
  }

  /** Whatever the turns show, the call is a sequence of deliveries and timer steps. */
  lemma {:induction false} FlushActs(m: Moment, deadline: nat, views: seq<View>, sents: seq<set<Packet>>, k: nat)
    returns (ds: seq<Deed>)
    requires HonestFlush(m, deadline, views, sents) && k <= |views|
    ensures var now := FlushCourse(m, deadline, views, sents, k).now;
      now.life == m.life + ds && Acts(m.side, ds) && now.side == Steps(m.side, ds) && OnlyFlush(ds)
    decreases k
  {
    hide Turned, Acts, Steps, Honest, HonestFlush, TurnDeeds;
    FlushStart(m, deadline, views, sents);
    if k == 0 {
      ds := [];
      NoActs(m.side);
      assert m.life + [] == m.life;
    } else {
      var before := FlushActs(m, deadline, views, sents, k - 1);
      FlushNext(m, deadline, views, sents, k - 1);
      var c := FlushCourse(m, deadline, views, sents, k - 1);
      if c.status.Watching? {
        TurnActs(c.now, views[k - 1], sents[k - 1]);
        var more := TurnDeeds(c.now, views[k - 1], sents[k - 1]);
        ActsConcat(m.side, before, more);
        ds := before + more;
        assert m.life + before + more == m.life + ds;
      } else {
        ds := before;
      }
    }
  }

  lemma NoActs(s: Side)
    ensures Acts(s, []) && Steps(s, []) == s
  {
  }

  lemma {:induction false} FlushOutcome(m: Moment, deadline: nat, views: seq<View>, sents: seq<set<Packet>>, k: nat)
    requires |sents| == |views| && k <= |views|
    ensures var c := FlushCourse(m, deadline, views, sents, k);
      (c.status.Success? ==> Flushed(c.now.side.ep)) && (c.status.Watching? ==> !Flushed(c.now.side.ep))
    decreases k
  {
    hide Turned, Flushed;
    if k > 0 {
      FlushOutcome(m, deadline, views, sents, k - 1);
    }
  }

  lemma {:induction false} WeaveFlushes(w: World, ds: seq<Deed>, gaps: seq<seq<Event>>)
    requires Acts(w.a, ds) && |gaps| == |ds| + 1 && Woven(w, ds, gaps) && OnlyFlush(ds)
    ensures Flushing(Weave(ds, gaps))
    decreases |ds|
  {
    hide Allowed, Step, NoWrap, IsRun, After;
    OnlyBKeepsA(w, gaps[0]);
    assert Flushing(gaps[0]);
    if ds != [] {
      var v, ev := After(w, gaps[0]), A(ds[0].act);
      MoreAllowed(v.a.ep, ds[0].sent, v.b.wire, ds[0].act);
      AllowedEnabled(v.a.ep, v.b.wire, ds[0].act);
      WeaveFlushes(Next(v, ev), ds[1..], gaps[1..]);
      FlushingCons(ev, Weave(ds[1..], gaps[1..]));
      FlushingConcat(gaps[0], [ev] + Weave(ds[1..], gaps[1..]));
    }
  }

  /** A call that returns is a run in which `a` flushes. */
  lemma ReturnIsFlush(w: World, m: Moment, deadline: nat, views: seq<View>, sents: seq<set<Packet>>,
                      gaps: seq<seq<Event>>) returns (evs: seq<Event>)
    requires Returns(w, m, deadline, views, sents, gaps)
    ensures IsRun(w, evs) && Flushing(evs) && Flushed(After(w, evs).a.ep)
  {
    hide Acts, Steps, Woven, IsRun, After, Flushing, Flushed, FlushCourse, HonestFlush, OnlyFlush;
    FlushStart(m, deadline, views, sents);
    var c := FlushCourse(m, deadline, views, sents, |views|);
    var ds := FlushActs(m, deadline, views, sents, |views|);
    assert c.now.life[|m.life|..] == ds;
    FlushOutcome(m, deadline, views, sents, |views|);
    WovenIsRun(w, ds, gaps);
    WeaveFlushes(w, ds, gaps);
    evs := Weave(ds, gaps);
  }

  // ------------------------------------------------------------------ one turn more in front

  lemma {:induction false} FlushCons(m: Moment, deadline: nat, t: View, sent: set<Packet>, views: seq<View>,
                                     sents: seq<set<Packet>>, k: nat)
    requires |sents| == |views| && k <= |views| && !Flushed(m.side.ep) && t.later <= deadline
    ensures var c, d := FlushCourse(m, deadline, [t] + views, [sent] + sents, k + 1),
                        FlushCourse(Turned(m, t, sent), deadline, views, sents, k);
      c.now == d.now && c.status == d.status
    decreases k
  {
    hide Turned, Flushed;
    var all, from := [t] + views, [sent] + sents;
    if k == 0 {
      assert FlushCourse(m, deadline, all, from, 0).status.Watching?;
      assert all[0] == t && from[0] == sent;
    } else {
      FlushCons(m, deadline, t, sent, views, sents, k - 1);
      assert all[k] == views[k - 1] && from[k] == sents[k - 1];
    }
  }

  lemma HonestCons(m: Moment, deadline: nat, t: View, sent: set<Packet>, views: seq<View>, sents: seq<set<Packet>>)
    requires !Flushed(m.side.ep) && t.later <= deadline && Honest(m, t, sent)
    requires HonestFlush(Turned(m, t, sent), deadline, views, sents)
    ensures HonestFlush(m, deadline, [t] + views, [sent] + sents)
  {
    hide Turned, Flushed, FlushCourse, Honest;
    var all, from := [t] + views, [sent] + sents;
    forall i | 0 <= i < |all|
      ensures var c := FlushCourse(m, deadline, all, from, i); c.status.Watching? ==> Honest(c.now, all[i], from[i])
    {
      if i == 0 {
        AtStart(m, deadline, all, from);
      } else {
        FlushCons(m, deadline, t, sent, views, sents, i - 1);
        assert all[i] == views[i - 1] && from[i] == sents[i - 1];
        FlushNext(Turned(m, t, sent), deadline, views, sents, i - 1);
      }
    }
  }

  lemma AtStart(m: Moment, deadline: nat, views: seq<View>, sents: seq<set<Packet>>)
    requires |sents| == |views|
    ensures FlushCourse(m, deadline, views, sents, 0).now == m
  {
  }

  /** A turn of the call in front of one that returns, `gap` being what `b` does before it;
      `u` is where the turn leads. */
  lemma PrependTurn(w: World, gap: seq<Event>, m: Moment, t: View, sent: set<Packet>, u: World, deadline: nat,
                    views: seq<View>, sents: seq<set<Packet>>, gaps: seq<seq<Event>>)
    returns (more: seq<seq<Event>>)
    requires m.side == w.a && !Flushed(m.side.ep) && t.later <= deadline && Honest(m, t, sent)
    requires OnlyB(gap) && IsRun(w, gap) && TurnLeadsTo(After(w, gap), m, t, sent, u)
    requires Returns(u, Turned(m, t, sent), deadline, views, sents, gaps)
    ensures Returns(w, m, deadline, [t] + views, [sent] + sents, more)
  {
    hide Turned, Flushed, FlushCourse, Honest, HonestFlush, Woven, IsRun, After, TurnLeadsTo, TurnDeeds;
    hide Acts, Steps, OnlyFlush, TurnGaps;
    var m' := Turned(m, t, sent);
    FlushStart(m', deadline, views, sents);
    HonestCons(m, deadline, t, sent, views, sents);
    FlushCons(m, deadline, t, sent, views, sents, |views|);
    TurnActs(m, t, sent);
    var now := FlushCourse(m', deadline, views, sents, |views|).now;
    var first, ds := TurnDeeds(m, t, sent), now.life[|m'.life|..];
    assert now.life == m'.life + ds == m.life + (first + ds);
    assert now.life[|m.life|..] == first + ds;
    more := WovenTurn(w, gap, m, t, sent, u, ds, gaps);
    assert |[t] + views| == |views| + 1;
  }

  /** The deeds of the turn lead from `v` to `u`, and what it takes in was sent. */
  ghost predicate TurnLeadsTo(v: World, m: Moment, t: View, sent: set<Packet>, u: World) {
    var f := Arriving(FrameSize(m.side.ep), m.stream, t.avail);
    var tick := A(TickDeed(t).act);
    if f.Some? then
      var deliver := A(Deliver(f.value, t.now));
      && sent <= v.b.wire && CanStep(v, deliver) && NoWrap(Next(v, deliver))
      && CanStep(Next(v, deliver), tick) && u == Next(Next(v, deliver), tick)
    else CanStep(v, tick) && u == Next(v, tick)
  }

  /** What `b` does before and between the deeds of a turn: only `gap`, before them. */
  function TurnGaps(m: Moment, t: View, gap: seq<Event>, gaps: seq<seq<Event>>): seq<seq<Event>> {
    if Arriving(FrameSize(m.side.ep), m.stream, t.avail).Some? then [gap] + ([[]] + gaps) else [gap] + gaps
  }

  lemma WovenTurn(w: World, gap: seq<Event>, m: Moment, t: View, sent: set<Packet>, u: World,
                  ds: seq<Deed>, gaps: seq<seq<Event>>) returns (more: seq<seq<Event>>)
    requires OnlyB(gap) && IsRun(w, gap) && TurnLeadsTo(After(w, gap), m, t, sent, u)
    requires |gaps| == |ds| + 1 && Woven(u, ds, gaps)
    ensures var all := TurnDeeds(m, t, sent) + ds; |more| == |all| + 1 && Woven(w, all, more)
    ensures more == TurnGaps(m, t, gap, gaps)
  {
    hide CanStep, Next, IsRun, After, Woven, NoWrap, Rest, Accepts;
    var f := Arriving(FrameSize(m.side.ep), m.stream, t.avail);
    var v, tick := After(w, gap), TickDeed(t);
    if f.Some? {
      var deliver := Deed(Deliver(f.value, t.now), sent);
      var x := Next(v, A(deliver.act));
      RunNil(x);
      WovenCons(x, [], tick, ds, gaps);
      WovenCons(w, gap, deliver, [tick] + ds, [[]] + gaps);
      more := [gap] + ([[]] + gaps);
      assert TurnDeeds(m, t, sent) + ds == [deliver] + ([tick] + ds);
    } else {
      WovenCons(w, gap, tick, ds, gaps);
      more := [gap] + gaps;
      assert TurnDeeds(m, t, sent) + ds == [tick] + ds;
    }
  }

  // ------------------------------------------------------------------ frames, one per read

  predicate Aligned(m: Moment) {
    Rest(FrameSize(m.side.ep), m.stream) == []
  }

  lemma QuietView(m: Moment, t: View)
    requires Aligned(m) && t.avail == []
    ensures Arriving(FrameSize(m.side.ep), m.stream, t.avail).None?
    ensures Turned(m, t, {}).stream == m.stream && Honest(m, t, {})
  {
    hide Turned;
    StreamAfter(m, t, {});
    assert m.stream + [] == m.stream;
  }

  lemma FrameView(m: Moment, t: View, f: frame)
    requires Aligned(m) && t.avail == f && |f| == FrameSize(m.side.ep) && Accepts(f)
    ensures Arriving(FrameSize(m.side.ep), m.stream, t.avail) == Some(f)
  {
    hide Accepts;
    assert [] + f == f && f[..|f|] == f;
  }

  lemma StreamAfter(m: Moment, t: View, sent: set<Packet>)
    ensures Turned(m, t, sent).stream == m.stream + Chunk(FrameSize(m.side.ep), m.stream, t.avail)
  {
    hide Step, Accepts, Rest, Enabled;
  }

  lemma BlockEnds(n: nat, stream: seq<byte>, avail: seq<byte>)
    requires n > 0 && |Rest(n, stream)| + |avail| == n
    ensures Chunk(n, stream, avail) == avail && Rest(n, stream + avail) == []
  {
    BlocksAppend(n, stream, avail);
  }

  /** The object's state after a turn is where the turn leads. */
  lemma TurnSide(v: World, m: Moment, t: View, sent: set<Packet>, u: World)
    requires m.side == v.a && TurnLeadsTo(v, m, t, sent, u)
    ensures Turned(m, t, sent).side == u.a && u.b == v.b
  {
    hide Step, Accepts, Encode, Rest, Chunk, Arriving;
    var f := Arriving(FrameSize(m.side.ep), m.stream, t.avail);
    if f.Some? {
      AllowedEnabled(v.a.ep, v.b.wire, Deliver(f.value, t.now));
    }
  }

  // ------------------------------------------------------------------ the call completes

  lemma Finished(w: World, m: Moment, deadline: nat)
    requires NoWrap(w) && m.side == w.a && Flushed(w.a.ep)
    ensures Returns(w, m, deadline, [], [], [[]])
  {
    hide NoWrap, Flushed;
    assert m.life[|m.life|..] == [];
    RunNil(w);
  }

  lemma NotFlushedYet(w: World)
    requires !Stuck(w.a.ep.snd) && IsEmpty(w.a.ep.rcv) && !Flushed(w.a.ep)
    ensures Outstanding(w.a.ep.snd) && Top(w.a.ep.snd) > w.a.ep.snd.bgn
  {
  }

  /** A timer step does not unblock. */
  lemma TickKeepsBlocked(v: World, u: World, act: Action)
    requires Inv(v) && Slack(v) && act.Tick? && CanStep(v, A(act)) && u == Next(v, A(act)) && Blocked(v.a.ep.snd)
    ensures Blocked(u.a.ep.snd)
  {
    hide Inv, CanStep, Next, Emitted;
    NextTickA(v, act.now, act.nowMs, act.sealUs);
    TickBlocks(v.a.ep, act.now, act.nowMs, act.sealUs);
  }

  lemma TickBlocks(e: Endpoint, now: nat, nowMs: nat, sealUs: nat)
    requires Blocked(e.snd)
    ensures Blocked(SendUnacked(e, now, nowMs, sealUs).0.snd)
  {
    hide Unacked, Seal;
  }

  /** The turn that resends the first window. */
  lemma ResendTurn(w: World, m: Moment) returns (t: View, u: World)
    requires Inv(w) && Slack(w) && Outstanding(w.a.ep.snd) && m.side == w.a && Aligned(m)
    ensures t.later == 0 && Honest(m, t, {}) && TurnLeadsTo(w, m, t, {}, u)
    ensures Turned(m, t, {}).side == u.a && Aligned(Turned(m, t, {}))
    ensures Inv(u) && Slack(u) && u.a.ep.rcv == w.a.ep.rcv
    ensures u.b == w.b && Capacity(u.a.ep.snd) == Capacity(w.a.ep.snd)
    ensures Blocked(w.a.ep.snd) ==> Blocked(u.a.ep.snd)
    ensures Stuck(u.a.ep.snd) == Stuck(w.a.ep.snd) && Top(u.a.ep.snd) == Top(w.a.ep.snd)
    ensures u.a.ep.snd.bgn == w.a.ep.snd.bgn < |u.a.log|
    ensures var p := u.a.ep.snd.wnd[0].packet; p in u.a.wire && p.kind.Data? && p.id == u.a.ep.snd.bgn
  {
    hide Inv, Slack, CanStep, Next, Stuck, Top, Outstanding, Blocked, Turned, Honest, Rest;
    var act := DueTick(w.a.ep);
    t := View([], act.now, act.nowMs, 0);
    FirstResent(w);
    u := Next(w, A(act));
    QuietView(m, t);
    if Blocked(w.a.ep.snd) {
      TickKeepsBlocked(w, u, act);
    }
    TurnSide(w, m, t, {}, u);
  }

  /** The turn that takes in the acknowledgement. */
  lemma AckTurn(x: World, m: Moment, q: Packet) returns (t: View, u: World)
    requires Inv(x) && Slack(x) && x.a.ep.snd.bgn < |x.a.log| && m.side == x.a && Aligned(m)
    requires q in x.b.wire && q.kind.Ack? && q.id == x.a.ep.snd.bgn && Sound(q) && |q.data| == x.b.ep.snd.payload
    ensures t.later == 0 && Honest(m, t, {q}) && TurnLeadsTo(x, m, t, {q}, u)
    ensures Turned(m, t, {q}).side == u.a && Aligned(Turned(m, t, {q}))
    ensures Inv(u) && Slack(u) && u.a.ep.rcv == x.a.ep.rcv
    ensures u.b == x.b && Capacity(u.a.ep.snd) == Capacity(x.a.ep.snd)
    ensures Stuck(u.a.ep.snd) == Stuck(x.a.ep.snd) && Top(u.a.ep.snd) == Top(x.a.ep.snd)
    ensures u.a.ep.snd.bgn > x.a.ep.snd.bgn
  {
    hide Inv, LinkInv, Slack, NoWrap, CanStep, Next, Stuck, Top, Turned, Rest, Sound, Encode, Accepts;
    var f := Encode(q);
    t := View(f, 0, 0, 0);
    InvLinks(x);
    assert Accepts(f) by { SoundIsAccepted(q); }
    FrameView(m, t, f);
    AckMovesOn(x, q);
    var y := Next(x, A(Deliver(f, 0)));
    AnyTickKeeps(y, TickDeed(t).act);
    u := Next(y, A(TickDeed(t).act));
    SlackNoWrap(y);
    TurnSide(x, m, t, {q}, u);
    StreamAfter(m, t, {q});
    BlockEnds(FrameSize(m.side.ep), m.stream, f);
  }

  lemma {:induction false} Completes(w: World, m: Moment, deadline: nat)
    returns (views: seq<View>, sents: seq<set<Packet>>, gaps: seq<seq<Event>>)
    requires Inv(w) && Slack(w) && !Stuck(w.a.ep.snd) && IsEmpty(w.a.ep.rcv) && m.side == w.a && Aligned(m)
    ensures Returns(w, m, deadline, views, sents, gaps)
    decreases Top(w.a.ep.snd) - w.a.ep.snd.bgn
  {
    hide Inv, Slack, NoWrap, CanStep, Next, IsRun, After, Turned, Honest, Aligned, TurnLeadsTo, Returns, Stuck;
    hide Top, Outstanding, IsEmpty, Flushed;
    SlackNoWrap(w);
    if Flushed(w.a.ep) {
      views, sents, gaps := [], [], [[]];
      Finished(w, m, deadline);
    } else {
      NotFlushedYet(w);
      var t, u := ResendTurn(w, m);
      var m1 := Turned(m, t, {});
      var p := u.a.ep.snd.wnd[0].packet;
      var gap, q := PeerAnswers(u, p);
      var x := After(u, gap);
      var t', z := AckTurn(x, m1, q);
      var vs, ss, gs := Completes(z, Turned(m1, t', {q}), deadline);
      StillOutstanding(u);
      gs := PrependTurn(u, gap, m1, t', {q}, z, deadline, vs, ss, gs);
      RunNil(w);
      gaps := PrependTurn(w, [], m, t, {}, u, deadline, [t'] + vs, [{q}] + ss, gs);
      views, sents := [t] + ([t'] + vs), [{}] + ([{q}] + ss);
    }
  }

  lemma StillOutstanding(u: World)
    requires Top(u.a.ep.snd) > u.a.ep.snd.bgn
    ensures !Flushed(u.a.ep)
  {
  }

  /** What is buffered of a frame can be completed so that it fails the check. */
  lemma SpoilFrame(partial: seq<byte>, n: nat) returns (rest: seq<byte>)
    requires |partial| < n && n >= PACKET_SIZE
    ensures |partial + rest| == n && !Accepts(partial + rest)
  {
    rest := seq(n - |partial|, _ => Zeros(8));
    var f: frame := partial + rest;
    if Accepts(f) {
      var last := n - 1 - |partial|;
      var bad := rest[last := Ones(8)];
      var g: frame := partial + bad;
      assert g == f[n - 1 := Ones(8)];
      assert g != f by { assert g[n - 1][0] != f[n - 1][0]; }
      forall i | 0 <= i < 8 * |f| && !(8 * (n - 1) <= i < 8 * (n - 1) + 16)
        ensures BitsOf(f)[i] == BitsOf(g)[i]
      {
        BitOfOctet(f, i);
        BitOfOctet(g, i);
      }
      DamageRejected(f, g, 8 * (n - 1));
      rest := bad;
    }
  }

  /** A turn that gets rid of what is buffered. */
  lemma SpoilTurn(w: World, m: Moment) returns (t: View, u: World)
    requires Inv(w) && Slack(w) && m.side == w.a
    ensures t.later == 0 && Honest(m, t, {}) && TurnLeadsTo(w, m, t, {}, u)
    ensures Turned(m, t, {}).side == u.a && Aligned(Turned(m, t, {}))
    ensures Inv(u) && Slack(u) && u.a.ep.rcv == w.a.ep.rcv && Stuck(u.a.ep.snd) == Stuck(w.a.ep.snd)
    ensures u.b == w.b && Capacity(u.a.ep.snd) == Capacity(w.a.ep.snd) && Top(u.a.ep.snd) == Top(w.a.ep.snd)
  {
    hide Inv, Slack, NoWrap, CanStep, Next, Stuck, Turned, Rest, Accepts;
    var n := FrameSize(m.side.ep);
    var filler := SpoilFrame(Rest(n, m.stream), n);
    t := View(filler, 0, 0, 0);
    BlockEnds(n, m.stream, filler);
    AnyTickKeeps(w, TickDeed(t).act);
    u := Next(w, A(TickDeed(t).act));
    TurnSide(w, m, t, {}, u);
    StreamAfter(m, t, {});
  }

  lemma CompletesAnyway(w: World, m: Moment, deadline: nat)
    requires Inv(w) && Slack(w) && !Stuck(w.a.ep.snd) && IsEmpty(w.a.ep.rcv) && m.side == w.a
    ensures exists views, sents, gaps :: Returns(w, m, deadline, views, sents, gaps)
  {
    hide Inv, Slack, NoWrap, CanStep, Next, IsRun, After, Turned, Honest, Aligned, TurnLeadsTo, Returns, Stuck;
    hide IsEmpty, Flushed;
    SlackNoWrap(w);
    if Flushed(w.a.ep) {
      Finished(w, m, deadline);
    } else {
      var t, u := SpoilTurn(w, m);
      var views, sents, gaps := Completes(u, Turned(m, t, {}), deadline);
      RunNil(w);
      var all := PrependTurn(w, [], m, t, {}, u, deadline, views, sents, gaps);
    }
  }

  /** In every reachable state, whatever is buffered of a frame: a call of `mc_comm_flush`
      made now can return true, for some clock, transport and peer, if and only if the last
      window is not stuck and nothing that arrived in order waits unread. */
  lemma FlushReturnsIff(w: World, evs: seq<Event>, m: Moment, deadline: nat)
    requires Initial(w) && IsRun(w, evs) && Slack(After(w, evs)) && m.side == After(w, evs).a
    ensures
      var v := After(w, evs);
      (exists views, sents, gaps :: Returns(v, m, deadline, views, sents, gaps))
      <==> !Stuck(v.a.ep.snd) && IsEmpty(v.a.ep.rcv)
  {
    hide Inv, Slack, IsRun, After, Stuck, IsEmpty, Returns, Initial, Flushing, Flushed;
    Reachable(w, evs);
    var v := After(w, evs);
    if !Stuck(v.a.ep.snd) && IsEmpty(v.a.ep.rcv) {
      CompletesAnyway(v, m, deadline);
    } else {
      FlushPossibleIff(w, evs);
      forall views, sents, gaps | Returns(v, m, deadline, views, sents, gaps)
        ensures false
      {
        var more := ReturnIsFlush(v, m, deadline, views, sents, gaps);
      }
    }
  }
}
