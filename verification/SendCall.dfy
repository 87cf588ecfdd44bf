/** When a call of `mc_comm_send` returns (src/io/communication/mc_communication.c:135-168):
    a refused segment waits for acknowledgements, which the turns of the call take in. */
module SendCall {
  import opened Bytes
  import opened Seqs
  import opened Frame
  import opened Packets
  import opened WindowRing
  import opened Protocol
  import opened Invariant
  import opened Safety
  import opened Delivery
  import opened Liveness
  import opened Completion
  import opened Weaving
  import opened Communication
  import opened Flush

  /** The call, made without a deadline at `a` at the moment `m`, with what `b` does
      meanwhile, reports success. */
  ghost predicate SendReturns(w: World, m: Moment, src: seq<byte>, views: seq<View>, sents: seq<set<Packet>>,
                              gaps: seq<seq<Event>>) {
    && m.side == w.a && HonestSend(m, src, None, views, sents)
    && var c := SendCourse(m, src, None, views, sents, |views|);
    && m.life <= c.now.life
    && var ds := c.now.life[|m.life|..];
    && |gaps| == |ds| + 1 && Woven(w, ds, gaps)
    && c.status.Success?
  }

  // ------------------------------------------------------------------ what a turn does

  /** The segment that a turn offers, and the deed of offering it. */
  function Offer(m: Moment, src: seq<byte>, from: nat, t: View): Deed
    requires from <= |src|
  {
    Deed(Action.Send(src[from..from + Min(|src| - from, m.side.ep.snd.payload)], t.now, t.nowMs), {})
  }

  lemma OfferAct(m: Moment, src: seq<byte>, from: nat, t: View)
    requires from <= |src|
    ensures var d := Offer(m, src, from, t);
      && Acts(m.side, [d]) && Acted(m, d) == m.(side := Steps(m.side, [d]), life := m.life + [d])
  {
    hide Step;
    var d := Offer(m, src, from, t);
    assert [d][1..] == [];
  }

  /** Refused, it changes nothing. */
  lemma RefusedAct(m: Moment, src: seq<byte>, from: nat, t: View)
    requires from <= |src| && Blocked(m.side.ep.snd)
    ensures var d := Offer(m, src, from, t);
      && Acted(m, d) == m.(life := m.life + [d]) && Acts(m.side, [d]) && Steps(m.side, [d]) == m.side
  {
    hide Blocked;
    OfferAct(m, src, from, t);
    NothingHappens(m.side);
    var bytes := Offer(m, src, from, t).act.bytes;
    assert bytes[..0] == [];
  }

  /** While the call waits, each of its turns offers the segment, delivers the frame it
      completes, if that passes the check, and lets the timer run. */
  lemma WaitingSendTurns(c: Course<nat>, src: seq<byte>, deadline: Option<nat>, t: View, sent: set<Packet>)
    requires c.status.Watching? && c.got < |src| && Blocked(c.now.side.ep.snd) && Honest(c.now, t, sent)
    ensures var now, ds := SendTurn(c, src, deadline, t, sent).now, TurnDeeds(c.now, t, sent);
      && now.life == c.now.life + ([Offer(c.now, src, c.got, t)] + ds)
      && Acts(c.now.side, ds) && now.side == Steps(c.now.side, ds)
  {
    hide Acted, Acts, Steps, Blocked, Turned, Honest, TurnDeeds;
    RefusedAct(c.now, src, c.got, t);
    var d := Offer(c.now, src, c.got, t);
    var m := Acted(c.now, d);
    SameHonest(c.now, m, t, sent);
    TurnActs(m, t, sent);
    SameDeeds(m, c.now, t, sent);
    assert c.now.life + [d] + TurnDeeds(m, t, sent) == c.now.life + ([d] + TurnDeeds(m, t, sent));
  }

  lemma SameDeeds(m: Moment, m': Moment, t: View, sent: set<Packet>)
    requires m'.side == m.side && m'.stream == m.stream
    ensures TurnDeeds(m', t, sent) == TurnDeeds(m, t, sent)
  {
    hide Rest, Accepts;
  }

  // ------------------------------------------------------------------ what a call does

  lemma {:induction false} SendActs(m: Moment, src: seq<byte>, deadline: Option<nat>, views: seq<View>,
                                    sents: seq<set<Packet>>, k: nat) returns (ds: seq<Deed>)
    requires HonestSend(m, src, deadline, views, sents) && k <= |views|
    ensures var c := SendCourse(m, src, deadline, views, sents, k);
      && c.now.life == m.life + ds && Acts(m.side, ds) && c.now.side == Steps(m.side, ds)
      && c.got <= |src| && c.now.side.accepted == m.side.accepted + src[..c.got]
    decreases k
  {
    hide Turned, Acts, Steps, Honest, HonestSend, SendTurn, TurnDeeds, Blocked, Acted;
    SendStart(m, src, deadline, views, sents);
    SendOutcome(m, src, deadline, views, sents, k);
    if k == 0 {
      ds := [];
      NoActs(m.side);
      assert m.life + [] == m.life && src[..0] == [] && m.side.accepted + [] == m.side.accepted;
    } else {
      var before := SendActs(m, src, deadline, views, sents, k - 1);
      SendNext(m, src, deadline, views, sents, k - 1);
      var c := SendCourse(m, src, deadline, views, sents, k - 1);
      var more := SendTurnActs(c, src, deadline, views[k - 1], sents[k - 1]);
      ActsConcat(m.side, before, more);
      ds := before + more;
      var d := SendCourse(m, src, deadline, views, sents, k);
      assert m.life + before + more == m.life + ds;
      assert src[..c.got] + src[c.got..d.got] == src[..d.got];
    }
  }

  lemma SendTurnActs(c: Course<nat>, src: seq<byte>, deadline: Option<nat>, t: View, sent: set<Packet>)
    returns (ds: seq<Deed>)
    requires c.got <= |src| && (c.status.Watching? && Blocked(c.now.side.ep.snd) ==> Honest(c.now, t, sent))
    ensures var d := SendTurn(c, src, deadline, t, sent);
      && d.now.life == c.now.life + ds && Acts(c.now.side, ds) && d.now.side == Steps(c.now.side, ds)
      && c.got <= d.got <= |src|
      && d.now.side.accepted == c.now.side.accepted + src[c.got..d.got]
  {
    hide Acts, Steps, Blocked, Turned, Honest, Acted, Offer, TurnDeeds, SendTurn;
    if !c.status.Watching? || c.got >= |src| {
      ds := [];
      EndedSend(c, src, deadline, t, sent);
      NoActs(c.now.side);
      assert c.now.life + [] == c.now.life && src[c.got..c.got] == [];
      assert c.now.side.accepted + [] == c.now.side.accepted;
    } else if Blocked(c.now.side.ep.snd) {
      WaitingSendTurns(c, src, deadline, t, sent);
      RefusedSend(c, src, deadline, t, sent);
      var o, rest := Offer(c.now, src, c.got, t), TurnDeeds(c.now, t, sent);
      RefusedAct(c.now, src, c.got, t);
      ActsConcat(c.now.side, [o], rest);
      ds := [o] + rest;
      DeedsOnlyFlush(c.now, t, sent);
      TurnsTakeNothing(c.now.side, rest);
      assert src[c.got..c.got] == [] && c.now.side.accepted + [] == c.now.side.accepted;
    } else {
      OfferAct(c.now, src, c.got, t);
      ds := [Offer(c.now, src, c.got, t)];
      TakenOffer(c.now, src, c.got, t);
      TakenSend(c, src, deadline, t, sent);
    }
  }

  lemma EndedSend(c: Course<nat>, src: seq<byte>, deadline: Option<nat>, t: View, sent: set<Packet>)
    requires !c.status.Watching? || c.got >= |src|
    ensures SendTurn(c, src, deadline, t, sent) == c
  {
  }

  lemma RefusedSend(c: Course<nat>, src: seq<byte>, deadline: Option<nat>, t: View, sent: set<Packet>)
    requires c.status.Watching? && c.got < |src| && Blocked(c.now.side.ep.snd)
    ensures var d := SendTurn(c, src, deadline, t, sent);
      d.got == c.got && d.now == Turned(Acted(c.now, Offer(c.now, src, c.got, t)), t, sent)
  {
    hide Blocked, Turned, Acted;
  }

  lemma TakenSend(c: Course<nat>, src: seq<byte>, deadline: Option<nat>, t: View, sent: set<Packet>)
    requires c.status.Watching? && c.got < |src| && !Blocked(c.now.side.ep.snd)
    ensures var d := SendTurn(c, src, deadline, t, sent);
      && d.got == c.got + Min(|src| - c.got, c.now.side.ep.snd.payload)
      && d.now == Acted(c.now, Offer(c.now, src, c.got, t))
  {
    hide Blocked, Acted;
  }

  lemma DeedsOnlyFlush(m: Moment, t: View, sent: set<Packet>)
    ensures OnlyFlush(TurnDeeds(m, t, sent))
  {
    hide Rest, Accepts;
  }

  lemma TakenOffer(m: Moment, src: seq<byte>, from: nat, t: View)
    requires from < |src| && !Blocked(m.side.ep.snd)
    ensures var n := Min(|src| - from, m.side.ep.snd.payload);
      && n > 0
      && Acted(m, Offer(m, src, from, t)).side.accepted == m.side.accepted + src[from..from + n]
      && src[..from + n] == src[..from] + src[from..from + n]
  {
    hide Blocked, Fill, Wired, Logged;
    var n := Min(|src| - from, m.side.ep.snd.payload);
    assert src[from..from + n][..n] == src[from..from + n];
  }

  lemma {:induction false} TurnsTakeNothing(s: Side, ds: seq<Deed>)
    requires Acts(s, ds) && OnlyFlush(ds)
    ensures Steps(s, ds).accepted == s.accepted
    decreases |ds|
  {
    hide Allowed, Step;
    if ds != [] {
      AllowedEnabled(s.ep, ds[0].sent, ds[0].act);
      FlushTakesNothing(s, ds[0].act);
      TurnsTakeNothing(Step(s, ds[0].act), ds[1..]);
    }
  }

  lemma FlushTakesNothing(s: Side, act: Action)
    requires Enabled(s.ep, act) && (act.Deliver? || act.Tick?)
    ensures Step(s, act).accepted == s.accepted && Step(s, act).read == s.read
  {
    hide Receive, SendUnacked, Accepts, Decode;
    NothingHappens(s);
  }

  // ------------------------------------------------------------------ one turn more in front

  lemma SendStep(m: Moment, src: seq<byte>, views: seq<View>, sents: seq<set<Packet>>, k: nat)
    requires |sents| == |views| && k < |views|
    ensures SendCourse(m, src, None, views, sents, k + 1)
         == SendTurn(SendCourse(m, src, None, views, sents, k), src, None, views[k], sents[k])
  {
    hide SendTurn;
  }

  lemma SendZero(m: Moment, src: seq<byte>, views: seq<View>, sents: seq<set<Packet>>)
    requires |sents| == |views|
    ensures SendCourse(m, src, None, views, sents, 0)
         == Course(m, 0, if src == [] then Success else Watching, 0)
  {
  }

  /** A turn depends on what is left to send, not on what was sent. */
  lemma ShiftedSend(c: Course<nat>, d: Course<nat>, got: nat, src: seq<byte>, t: View, sent: set<Packet>)
    requires got <= |src| && c.now == d.now && c.got == got + d.got && c.status == d.status
    ensures var c', d' := SendTurn(c, src, None, t, sent), SendTurn(d, src[got..], None, t, sent);
      c'.now == d'.now && c'.got == got + d'.got && c'.status == d'.status
  {
    hide Turned, Acted, Blocked;
    if c.status.Watching? && c.got < |src| {
      var n := Min(|src| - c.got, c.now.side.ep.snd.payload);
      assert src[got..][d.got..d.got + n] == src[c.got..c.got + n];
    }
  }

  /** The first turn, and how much it takes. */
  function FirstTurn(m: Moment, src: seq<byte>, t: View, sent: set<Packet>): Course<nat> {
    SendTurn(Course(m, 0, Watching, 0), src, None, t, sent)
  }

  lemma FirstOfSend(m: Moment, src: seq<byte>, t: View, sent: set<Packet>)
    requires src != []
    ensures var c := FirstTurn(m, src, t, sent);
      c.got <= |src| && c.status == if c.got == |src| then Success else Watching
  {
    hide Turned, Acted, Blocked;
  }

  /** A send call is its first turn and then a call for what is left. */
  lemma {:induction false} SendCons(m: Moment, src: seq<byte>, t: View, sent: set<Packet>,
                                    views: seq<View>, sents: seq<set<Packet>>, k: nat)
    requires |sents| == |views| && k <= |views| && src != []
    ensures var first := FirstTurn(m, src, t, sent);
      && first.got <= |src|
      && var c := SendCourse(m, src, None, [t] + views, [sent] + sents, k + 1);
      var d := SendCourse(first.now, src[first.got..], None, views, sents, k);
      c.now == d.now && c.got == first.got + d.got && c.status == d.status
    decreases k
  {
    hide SendTurn, SendCourse;
    var all, from := [t] + views, [sent] + sents;
    var first := FirstTurn(m, src, t, sent);
    FirstOfSend(m, src, t, sent);
    SendStep(m, src, all, from, k);
    if k == 0 {
      SendZero(m, src, all, from);
      SendZero(first.now, src[first.got..], views, sents);
      assert all[0] == t && from[0] == sent;
    } else {
      SendCons(m, src, t, sent, views, sents, k - 1);
      assert all[k] == views[k - 1] && from[k] == sents[k - 1];
      SendStep(first.now, src[first.got..], views, sents, k - 1);
      var c := SendCourse(m, src, None, all, from, k);
      var d := SendCourse(first.now, src[first.got..], None, views, sents, k - 1);
      ShiftedSend(c, d, first.got, src, views[k - 1], sents[k - 1]);
    }
  }

  lemma HonestSendCons(m: Moment, src: seq<byte>, t: View, sent: set<Packet>,
                       views: seq<View>, sents: seq<set<Packet>>)
    requires src != [] && (Blocked(m.side.ep.snd) ==> Honest(m, t, sent))
    requires var first := FirstTurn(m, src, t, sent);
      first.got <= |src| ==> HonestSend(first.now, src[first.got..], None, views, sents)
    ensures HonestSend(m, src, None, [t] + views, [sent] + sents)
  {
    hide SendCourse, SendTurn, Honest, Blocked, FirstTurn;
    var all, from := [t] + views, [sent] + sents;
    var first := FirstTurn(m, src, t, sent);
    FirstOfSend(m, src, t, sent);
    SendStart(first.now, src[first.got..], None, views, sents);
    forall i | 0 <= i < |all|
      ensures var c := SendCourse(m, src, None, all, from, i);
        c.status.Watching? && Blocked(c.now.side.ep.snd) ==> Honest(c.now, all[i], from[i])
    {
      if i == 0 {
        SendZero(m, src, all, from);
      } else {
        SendCons(m, src, t, sent, views, sents, i - 1);
        assert all[i] == views[i - 1] && from[i] == sents[i - 1];
        SendNext(first.now, src[first.got..], None, views, sents, i - 1);
      }
    }
  }

  /** What the deeds of one turn are. */
  ghost predicate TurnIs(m: Moment, src: seq<byte>, t: View, sent: set<Packet>, ds: seq<Deed>) {
    FirstTurn(m, src, t, sent).now.life == m.life + ds
  }

  /** A turn of the call in front of one that returns. */
  lemma PrependSend(w: World, m: Moment, src: seq<byte>, t: View, sent: set<Packet>, first: seq<Deed>, u: World,
                    views: seq<View>, sents: seq<set<Packet>>, gaps: seq<seq<Event>>, more: seq<seq<Event>>)
    requires m.side == w.a && src != [] && (Blocked(m.side.ep.snd) ==> Honest(m, t, sent))
    requires TurnIs(m, src, t, sent, first)
    requires var c := FirstTurn(m, src, t, sent);
      && c.got <= |src| && SendReturns(u, c.now, src[c.got..], views, sents, gaps)
      && forall ds :: |gaps| == |ds| + 1 && Woven(u, ds, gaps) ==>
           |more| == |first + ds| + 1 && Woven(w, first + ds, more)
    ensures SendReturns(w, m, src, [t] + views, [sent] + sents, more)
  {
    hide SendCourse, SendTurn, HonestSend, Woven, Honest, Blocked, FirstTurn;
    var c := FirstTurn(m, src, t, sent);
    SendStart(c.now, src[c.got..], None, views, sents);
    HonestSendCons(m, src, t, sent, views, sents);
    SendCons(m, src, t, sent, views, sents, |views|);
    var now := SendCourse(c.now, src[c.got..], None, views, sents, |views|).now;
    var ds := now.life[|c.now.life|..];
    assert now.life == c.now.life + ds == m.life + (first + ds);
    assert now.life[|m.life|..] == first + ds;
    assert |[t] + views| == |views| + 1;
  }

  lemma OfferLeavesWorld(v: World, m: Moment, src: seq<byte>, t: View)
    requires m.side == v.a && Blocked(v.a.ep.snd)
    ensures var ev := A(Offer(m, src, 0, t).act); CanStep(v, ev) && Next(v, ev) == v
  {
    hide Blocked;
    NothingHappens(v.a);
    var bytes := Offer(m, src, 0, t).act.bytes;
    assert bytes[..0] == [];
  }

  lemma WaitingFirstTurn(m: Moment, src: seq<byte>, t: View, sent: set<Packet>)
    requires src != [] && Blocked(m.side.ep.snd) && Honest(m, t, sent)
    ensures var d := Offer(m, src, 0, t);
      && var c := FirstTurn(m, src, t, sent);
      && c.got == 0 && c.now == Turned(Acted(m, d), t, sent)
      && TurnIs(m, src, t, sent, [d] + TurnDeeds(Acted(m, d), t, sent))
      && Honest(Acted(m, d), t, sent)
  {
    hide Turned, Acted, Blocked, Honest, TurnDeeds, Acts, Steps;
    var c := Course(m, 0, Watching, 0);
    RefusedAct(m, src, 0, t);
    WaitingSendTurns(c, src, None, t, sent);
    RefusedSend(c, src, None, t, sent);
    SameHonest(m, Acted(m, Offer(m, src, 0, t)), t, sent);
    SameDeeds(m, Acted(m, Offer(m, src, 0, t)), t, sent);
  }

  /** A turn in which the segment is refused. */
  lemma PrependWait(w: World, gap: seq<Event>, m: Moment, src: seq<byte>, t: View, sent: set<Packet>, u: World,
                    views: seq<View>, sents: seq<set<Packet>>, gaps: seq<seq<Event>>)
    returns (more: seq<seq<Event>>)
    requires m.side == w.a && src != [] && Blocked(w.a.ep.snd) && Honest(m, t, sent)
    requires OnlyB(gap) && IsRun(w, gap)
    requires var m1 := Acted(m, Offer(m, src, 0, t));
      && TurnLeadsTo(After(w, gap), m1, t, sent, u)
      && SendReturns(u, Turned(m1, t, sent), src, views, sents, gaps)
    ensures SendReturns(w, m, src, [t] + views, [sent] + sents, more)
  {
    hide SendReturns, TurnLeadsTo, Turned, Acted, Blocked, Honest, IsRun, After, Woven, FirstTurn, TurnIs, Offer;
    hide CanStep, Next, NoWrap, TurnDeeds, TurnGaps;
    var d := Offer(m, src, 0, t);
    var m1, v := Acted(m, d), After(w, gap);
    WaitingFirstTurn(m, src, t, sent);
    OnlyBKeepsA(w, gap);
    OfferLeavesWorld(v, m, src, t);
    RunNil(v);
    more := [gap] + TurnGaps(m1, t, [], gaps);
    assert src[0..] == src;
    forall ds | |gaps| == |ds| + 1 && Woven(u, ds, gaps)
      ensures |more| == |[d] + TurnDeeds(m1, t, sent) + ds| + 1 && Woven(w, [d] + TurnDeeds(m1, t, sent) + ds, more)
    {
      var rest := WovenTurn(v, [], m1, t, sent, u, ds, gaps);
      assert d.act.Send? by { OfferIsSend(m, src, t); }
      WovenCons(w, gap, d, TurnDeeds(m1, t, sent) + ds, rest);
      assert [d] + (TurnDeeds(m1, t, sent) + ds) == [d] + TurnDeeds(m1, t, sent) + ds;
    }
    PrependSend(w, m, src, t, sent, [d] + TurnDeeds(m1, t, sent), u, views, sents, gaps, more);
  }

  lemma OfferIsSend(m: Moment, src: seq<byte>, t: View)
    ensures Offer(m, src, 0, t).act.Send?
  {
  }

  lemma TakingFirstTurn(m: Moment, src: seq<byte>, t: View)
    requires src != [] && !Blocked(m.side.ep.snd)
    ensures var d := Offer(m, src, 0, t);
      && var c := FirstTurn(m, src, t, {});
      && c.got == Min(|src|, m.side.ep.snd.payload) && c.now == Acted(m, d)
      && TurnIs(m, src, t, {}, [d]) && d.act == Action.Send(src[..c.got], t.now, t.nowMs)
  {
    hide Blocked;
    OfferAct(m, src, 0, t);
  }

  /** A turn in which the segment is taken. */
  lemma PrependTaken(w: World, m: Moment, src: seq<byte>, t: View,
                     views: seq<View>, sents: seq<set<Packet>>, gaps: seq<seq<Event>>)
    returns (more: seq<seq<Event>>)
    requires m.side == w.a && src != [] && !Blocked(w.a.ep.snd) && NoWrap(w)
    requires var n, ev := Min(|src|, w.a.ep.snd.payload), A(Offer(m, src, 0, t).act);
      && CanStep(w, ev)
      && SendReturns(Next(w, ev), Acted(m, Offer(m, src, 0, t)), src[n..], views, sents, gaps)
    ensures SendReturns(w, m, src, [t] + views, [{}] + sents, more)
  {
    hide SendReturns, Acted, Blocked, Honest, IsRun, After, Woven, FirstTurn, TurnIs, Offer, CanStep, Next, NoWrap;
    var d := Offer(m, src, 0, t);
    TakingFirstTurn(m, src, t);
    RunNil(w);
    more := [[]] + gaps;
    forall ds | |gaps| == |ds| + 1 && Woven(Next(w, A(d.act)), ds, gaps)
      ensures |more| == |[d] + ds| + 1 && Woven(w, [d] + ds, more)
    {
      WovenCons(w, [], d, ds, gaps);
    }
    PrependSend(w, m, src, t, {}, [d], Next(w, A(d.act)), views, sents, gaps, more);
  }

  lemma SendFinished(w: World, m: Moment)
    requires NoWrap(w) && m.side == w.a
    ensures SendReturns(w, m, [], [], [], [[]])
  {
    hide NoWrap;
    assert m.life[|m.life|..] == [];
    RunNil(w);
  }

  // ------------------------------------------------------------------ the call completes

  /** How many segments the call cuts `len` octets into. */
  function Segments(len: nat, payload: nat): nat
    requires payload > 0
  {
    if len == 0 then 0 else 1 + Segments(len - Min(len, payload), payload)
  }

  /** Ids enough for `n` windows more. */
  predicate SlackFor(w: World, n: nat) {
    && Top(w.a.ep.snd) + n + Max(Capacity(w.a.ep.snd), Capacity(w.b.ep.rcv)) < INVALID_ID
    && w.b.ep.snd.end + Max(Capacity(w.b.ep.snd), Capacity(w.a.ep.rcv)) < INVALID_ID
  }

  lemma WriteTop(r: Ring, bytes: seq<byte>, now: nat, nowMs: nat)
    requires !Blocked(r) && 0 < |bytes| <= r.payload && r.end + 1 < INVALID_ID
    ensures var r' := Write(r, bytes, now, nowMs).0;
      Top(r') <= Top(r) + 1 && Capacity(r') == Capacity(r) && r'.bgn == r.bgn && r'.payload == r.payload
    ensures Write(r, bytes, now, nowMs).2 == |bytes|
  {
    hide Seal;
    hide FillOnce;
    var n := Min(|bytes|, Room(r));
    FillLeavesRoom(r, bytes, n, now, nowMs);
    FillOnceShape(r, bytes[..n], now, nowMs);
    var r1 := FillOnce(r, bytes[..n], now, nowMs).0;
    if n < |bytes| {
      var rest := bytes[n..];
      FillLeavesRoom(r1, rest, |rest|, now, nowMs);
      FillOnceShape(r1, rest, now, nowMs);
      assert rest[..|rest|] == rest && rest[|rest|..] == [];
      var r2 := FillOnce(r1, rest, now, nowMs).0;
      assert Fill(r1, rest, now, nowMs).0 == Fill(r2, [], now, nowMs).0 == r2;
      assert Fill(r, bytes, now, nowMs).0 == r2;
    } else {
      assert bytes[n..] == [];
      assert Fill(r, bytes, now, nowMs).0 == r1;
    }
  }

  lemma TakenStep(w: World, m: Moment, src: seq<byte>, t: View, n: nat)
    requires Inv(w) && SlackFor(w, n + 1) && m.side == w.a && src != [] && !Blocked(w.a.ep.snd)
    ensures var ev := A(Offer(m, src, 0, t).act);
      && CanStep(w, ev) && Acted(m, Offer(m, src, 0, t)).side == Next(w, ev).a
      && Acted(m, Offer(m, src, 0, t)).stream == m.stream
      && var v := Next(w, ev);
      && Inv(v) && SlackFor(v, n) && Capacity(v.a.ep.snd) == Capacity(w.a.ep.snd)
      && v.a.ep.snd.payload == w.a.ep.snd.payload && v.a.ep.rcv == w.a.ep.rcv
  {
    hide Inv, Write, Top, Blocked, NoWrap;
    var d := Offer(m, src, 0, t);
    var bytes := d.act.bytes;
    EndBelowTop(w.a.ep.snd);
    WriteTop(w.a.ep.snd, bytes, t.now, t.nowMs);
    var v := Next(w, A(d.act));
    EndBelowTop(v.a.ep.snd);
    assert NoWrap(v) by { SlackForNoWrap(v, n); }
    StepKeepsInv(w, A(d.act));
  }

  lemma EndBelowTop(r: Ring)
    ensures r.end <= Top(r) <= r.end + 1
  {
  }

  lemma SlackForNoWrap(w: World, n: nat)
    requires SlackFor(w, n)
    ensures NoWrap(w) && Slack(w)
  {
  }

  lemma BlockedIsOutstanding(x: Side, y: Side)
    requires LinkInv(x, y) && Blocked(x.ep.snd) && !LoneStuck(x.ep.snd)
    ensures Outstanding(x.ep.snd) && Top(x.ep.snd) > x.ep.snd.bgn
  {
    hide LinkInv;
    LastIsSmall(x, y);
  }

  /** Whether the call can get through all of `src`: no window is stuck alone, and with one
      window everything fits into the first segment, after which it is. */
  predicate CanTake(r: Ring, src: seq<byte>) {
    src == [] || (!LoneStuck(r) && (Capacity(r) > 1 || |src| <= r.payload))
  }

  lemma SlackAfterGap(u: World, x: World, n: nat)
    requires SlackFor(u, n) && Slack(x) && x.a == u.a && SameShape(u, x)
    ensures SlackFor(x, n)
  {
  }

  lemma SlackAfterTurn(w: World, u: World, n: nat)
    requires SlackFor(w, n) && u.b == w.b && Capacity(u.a.ep.snd) == Capacity(w.a.ep.snd)
    requires Top(u.a.ep.snd) == Top(w.a.ep.snd) && u.a.ep.rcv == w.a.ep.rcv
    ensures SlackFor(u, n)
  {
  }

  /** One waiting round: resend, answer, acknowledgement. */
  lemma WaitRound(w: World, m: Moment, src: seq<byte>, n: nat)
    returns (t: View, gap: seq<Event>, t': View, q: Packet, u: World, z: World)
    requires Inv(w) && SlackFor(w, n) && m.side == w.a && Aligned(m) && src != []
    requires Blocked(w.a.ep.snd) && !LoneStuck(w.a.ep.snd)
    ensures t.later == 0 && Honest(m, t, {})
    ensures var m1 := Acted(m, Offer(m, src, 0, t));
      && TurnLeadsTo(w, m1, t, {}, u)
      && var m2 := Turned(m1, t, {});
      && m2.side == u.a && Blocked(u.a.ep.snd) && Honest(m2, t', {q})
      && OnlyB(gap) && IsRun(u, gap)
      && var m3 := Acted(m2, Offer(m2, src, 0, t'));
      && TurnLeadsTo(After(u, gap), m3, t', {q}, z)
      && var m4 := Turned(m3, t', {q});
      m4.side == z.a && Aligned(m4)
    ensures Inv(z) && SlackFor(z, n) && Stuck(z.a.ep.snd) == Stuck(w.a.ep.snd)
    ensures Capacity(z.a.ep.snd) == Capacity(w.a.ep.snd) && z.a.ep.snd.payload == w.a.ep.snd.payload
    ensures Top(z.a.ep.snd) == Top(w.a.ep.snd) && z.a.ep.snd.bgn > w.a.ep.snd.bgn
  {
    hide Inv, LinkInv, SlackFor, Slack, Stuck, Top, Outstanding, Blocked, Turned, Honest, Rest, TurnLeadsTo, Acted;
    hide CanStep, Next, IsRun, After, NoWrap, LoneStuck;
    SlackForNoWrap(w, n);
    InvLinks(w);
    BlockedIsOutstanding(w.a, w.b);
    var t0 := View([], DueTick(w.a.ep).now, DueTick(w.a.ep).nowMs, 0);
    RefusedAct(m, src, 0, t0);
    var m0 := Acted(m, Offer(m, src, 0, t0));
    AlignedToo(m, m0);
    t, u := ResendTurn(w, m0);
    RefusedAct(m, src, 0, t);
    var m1 := Acted(m, Offer(m, src, 0, t));
    SameTurn(w, m0, m1, t, {}, u);
    SameHonest(m1, m, t, {});
    SlackAfterTurn(w, u, n);
    var m2 := Turned(m1, t, {});
    gap, q := PeerAnswers(u, u.a.ep.snd.wnd[0].packet);
    var x := After(u, gap);
    RunKeepsShape(u, gap);
    SlackAfterGap(u, x, n);
    RefusedAct(m2, src, 0, t0);
    var m3' := Acted(m2, Offer(m2, src, 0, t0));
    AlignedToo(m2, m3');
    t', z := AckTurn(x, m3', q);
    RefusedAct(m2, src, 0, t');
    var m3 := Acted(m2, Offer(m2, src, 0, t'));
    SameTurn(x, m3', m3, t', {q}, z);
    SameHonest(m3, m2, t', {q});
    SlackAfterTurn(x, z, n);
    InvLinks(u);
    InvLinks(x);
    InvLinks(z);
  }

  lemma AlignedToo(m: Moment, m': Moment)
    requires Aligned(m) && m'.side == m.side && m'.stream == m.stream
    ensures Aligned(m')
  {
  }

  /** A turn does not depend on what was done before. */
  lemma SameTurn(v: World, m: Moment, m': Moment, t: View, sent: set<Packet>, u: World)
    requires m'.side == m.side && m'.stream == m.stream && TurnLeadsTo(v, m, t, sent, u) && Honest(m, t, sent)
    ensures TurnLeadsTo(v, m', t, sent, u) && Honest(m', t, sent)
    ensures Turned(m', t, sent).side == Turned(m, t, sent).side
    ensures Turned(m', t, sent).stream == Turned(m, t, sent).stream
  {
    hide CanStep, Next, Step, Accepts, Encode, Rest;
  }

  lemma {:induction false} SendGoesOn(w: World, m: Moment, src: seq<byte>)
    returns (views: seq<View>, sents: seq<set<Packet>>, gaps: seq<seq<Event>>)
    requires Inv(w) && SlackFor(w, Segments(|src|, w.a.ep.snd.payload)) && m.side == w.a && Aligned(m)
    requires CanTake(w.a.ep.snd, src)
    ensures SendReturns(w, m, src, views, sents, gaps)
    decreases |src|, Top(w.a.ep.snd) - w.a.ep.snd.bgn
  {
    hide Inv, LinkInv, SlackFor, Stuck, Top, Blocked, Turned, Honest, TurnLeadsTo, Acted, SendReturns, Aligned;
    hide CanStep, Next, IsRun, After, NoWrap, LoneStuck, Segments, Offer;
    var n := Segments(|src|, w.a.ep.snd.payload);
    SlackForNoWrap(w, n);
    InvLinks(w);
    if src == [] {
      views, sents, gaps := [], [], [[]];
      SendFinished(w, m);
    } else if !Blocked(w.a.ep.snd) {
      var t, k := View([], 0, 0, 0), Min(|src|, w.a.ep.snd.payload);
      MoreSegments(|src|, w.a.ep.snd.payload);
      TakenStep(w, m, src, t, n - 1);
      var v, m' := Next(w, A(Offer(m, src, 0, t).act)), Acted(m, Offer(m, src, 0, t));
      ManyNotAlone(v.a.ep.snd);
      AlignedAfter(m, m');
      var vs, ss, gs := SendGoesOn(v, m', src[k..]);
      gaps := PrependTaken(w, m, src, t, vs, ss, gs);
      views, sents := [t] + vs, [{}] + ss;
    } else {
      BlockedIsOutstanding(w.a, w.b);
      var t, gap, t', q, u, z := WaitRound(w, m, src, n);
      var m1 := Acted(m, Offer(m, src, 0, t));
      var m2 := Turned(m1, t, {});
      var m4 := Turned(Acted(m2, Offer(m2, src, 0, t')), t', {q});
      LoneStuckSame(w.a.ep.snd, z.a.ep.snd);
      BgnBelowTop(z.a.ep.snd);
      var vs, ss, gs := SendGoesOn(z, m4, src);
      gs := PrependWait(u, gap, m2, src, t', {q}, z, vs, ss, gs);
      RunNil(w);
      gaps := PrependWait(w, [], m, src, t, {}, u, [t'] + vs, [{q}] + ss, gs);
      views, sents := [t] + ([t'] + vs), [{}] + ([{q}] + ss);
    }
  }

  lemma MoreSegments(len: nat, payload: nat)
    requires len > 0 && payload > 0
    ensures Segments(len, payload) == 1 + Segments(len - Min(len, payload), payload)
  {
  }

  lemma ManyNotAlone(r: Ring)
    ensures Capacity(r) > 1 ==> !LoneStuck(r)
  {
  }

  lemma LoneStuckSame(r: Ring, r': Ring)
    requires Stuck(r') == Stuck(r) && Capacity(r') == Capacity(r)
    ensures LoneStuck(r') == LoneStuck(r)
  {
  }

  lemma BgnBelowTop(r: Ring)
    ensures r.bgn <= Top(r)
  {
  }

  lemma AlignedAfter(m: Moment, m': Moment)
    requires Aligned(m) && m'.stream == m.stream && m'.side.ep.rcv == m.side.ep.rcv
    ensures Aligned(m')
  {
  }

  /** Whatever part of a frame is buffered. */
  lemma {:induction false} SendCompletes(w: World, m: Moment, src: seq<byte>)
    requires Inv(w) && SlackFor(w, Segments(|src|, w.a.ep.snd.payload)) && m.side == w.a
    requires CanTake(w.a.ep.snd, src)
    ensures exists views, sents, gaps :: SendReturns(w, m, src, views, sents, gaps)
    decreases |src|
  {
    hide Inv, LinkInv, SlackFor, Stuck, Top, Turned, Honest, TurnLeadsTo, Acted, SendReturns, Aligned;
    hide CanStep, Next, IsRun, After, NoWrap, Segments, Offer, Rest;
    var n := Segments(|src|, w.a.ep.snd.payload);
    SlackForNoWrap(w, n);
    InvLinks(w);
    if src == [] {
      SendFinished(w, m);
    } else if !Blocked(w.a.ep.snd) {
      var t, k := View([], 0, 0, 0), Min(|src|, w.a.ep.snd.payload);
      MoreSegments(|src|, w.a.ep.snd.payload);
      TakenStep(w, m, src, t, n - 1);
      var v, m' := Next(w, A(Offer(m, src, 0, t).act)), Acted(m, Offer(m, src, 0, t));
      ManyNotAlone(v.a.ep.snd);
      SendCompletes(v, m', src[k..]);
      var vs, ss, gs :| SendReturns(v, m', src[k..], vs, ss, gs);
      var gaps := PrependTaken(w, m, src, t, vs, ss, gs);
    } else {
      var t0 := View([], 0, 0, 0);
      RefusedAct(m, src, 0, t0);
      var m0 := Acted(m, Offer(m, src, 0, t0));
      var t, u := SpoilTurn(w, m0);
      RefusedAct(m, src, 0, t);
      var m1 := Acted(m, Offer(m, src, 0, t));
      SameTurn(w, m0, m1, t, {}, u);
      SameHonest(m1, m, t, {});
      AlignedToo(Turned(m0, t, {}), Turned(m1, t, {}));
      SlackAfterTurn(w, u, n);
      InvLinks(u);
      LoneStuckSame(w.a.ep.snd, u.a.ep.snd);
      var vs, ss, gs := SendGoesOn(u, Turned(m1, t, {}), src);
      RunNil(w);
      var gaps := PrependWait(w, [], m, src, t, {}, u, vs, ss, gs);
    }
  }

  // ------------------------------------------------------------------ when it cannot

  lemma {:induction false} LifeGrows(m: Moment, src: seq<byte>, views: seq<View>, sents: seq<set<Packet>>,
                                     i: nat, k: nat)
    requires HonestSend(m, src, None, views, sents) && i <= k <= |views|
    ensures SendCourse(m, src, None, views, sents, i).now.life <= SendCourse(m, src, None, views, sents, k).now.life
    decreases k
  {
    hide SendTurn, HonestSend, SendCourse;
    SendStart(m, src, None, views, sents);
    if i < k {
      LifeGrows(m, src, views, sents, i, k - 1);
      SendNext(m, src, None, views, sents, k - 1);
      SendOutcome(m, src, None, views, sents, k - 1);
      var c := SendCourse(m, src, None, views, sents, k - 1);
      var more := SendTurnActs(c, src, None, views[k - 1], sents[k - 1]);
    }
  }

  /** The turn that takes the first segment. */
  lemma {:induction false} FirstTaken(m: Moment, src: seq<byte>, views: seq<View>, sents: seq<set<Packet>>, k: nat)
    returns (i: nat)
    requires |sents| == |views| && k <= |views| && SendCourse(m, src, None, views, sents, k).got > 0
    ensures i < k && SendCourse(m, src, None, views, sents, i).got == 0
    ensures SendCourse(m, src, None, views, sents, i + 1).got > 0
    decreases k
  {
    hide SendTurn;
    if SendCourse(m, src, None, views, sents, k - 1).got > 0 {
      i := FirstTaken(m, src, views, sents, k - 1);
    } else {
      i := k - 1;
    }
  }

  /** A call that returns is a run in which exactly `src` is accepted. */
  lemma ReturnIsRun(w: World, m: Moment, src: seq<byte>, views: seq<View>, sents: seq<set<Packet>>,
                    gaps: seq<seq<Event>>) returns (evs: seq<Event>)
    requires SendReturns(w, m, src, views, sents, gaps)
    ensures IsRun(w, evs) && After(w, evs).a.accepted == w.a.accepted + src
  {
    hide Acts, Steps, Woven, IsRun, After, SendCourse, HonestSend;
    SendStart(m, src, None, views, sents);
    var c := SendCourse(m, src, None, views, sents, |views|);
    SendOutcome(m, src, None, views, sents, |views|);
    var ds := SendActs(m, src, None, views, sents, |views|);
    assert c.now.life[|m.life|..] == ds && src[..c.got] == src;
    WovenIsRun(w, ds, gaps);
    evs := Weave(ds, gaps);
  }

  lemma WholeSegmentSticks(m: Moment, src: seq<byte>, t: View, sent: set<Packet>)
    requires Capacity(m.side.ep.snd) == 1 && !Blocked(m.side.ep.snd) && m.side.ep.snd.end + 1 < INVALID_ID
    requires |src| >= m.side.ep.snd.payload
    ensures var c := FirstTurn(m, src, t, sent);
      c.got == m.side.ep.snd.payload && LoneStuck(c.now.side.ep.snd)
  {
    hide Write, Stuck;
    var r := m.side.ep.snd;
    var bytes := Offer(m, src, 0, t).act.bytes;
    assert |bytes| == r.payload;
    OneWindowFills(r, bytes, t.now, t.nowMs);
  }

  lemma OneWindowFills(r: Ring, bytes: seq<byte>, now: nat, nowMs: nat)
    requires Capacity(r) == 1 && !Blocked(r) && |bytes| == r.payload && r.end + 1 < INVALID_ID
    ensures LoneStuck(Write(r, bytes, now, nowMs).0)
  {
    hide Fill, Stuck;
    WriteSticksIff(r, bytes, now, nowMs);
  }

  /** One window takes one segment and no more. */
  lemma OneWindowTakesOne(w: World, m: Moment, src: seq<byte>, views: seq<View>, sents: seq<set<Packet>>,
                          gaps: seq<seq<Event>>)
    requires Inv(w) && Capacity(w.a.ep.snd) == 1 && |src| >= w.a.ep.snd.payload
    requires SendReturns(w, m, src, views, sents, gaps)
    ensures |src| == w.a.ep.snd.payload
  {
    hide Inv, Acts, Steps, Woven, IsRun, After, SendCourse, SendTurn, HonestSend, LoneStuck, Blocked, FirstTurn;
    SendStart(m, src, None, views, sents);
    var k := |views|;
    var c := SendCourse(m, src, None, views, sents, k);
    SendOutcome(m, src, None, views, sents, k);
    var i := FirstTaken(m, src, views, sents, k);
    SendOutcome(m, src, None, views, sents, i);
    SendOutcome(m, src, None, views, sents, i + 1);
    LifeGrows(m, src, views, sents, i, k);
    LifeGrows(m, src, views, sents, i + 1, k);
    var ds := SendActs(m, src, None, views, sents, k);
    var x := SendActs(m, src, None, views, sents, i);
    var y := SendActs(m, src, None, views, sents, i + 1);
    var ci, cj := SendCourse(m, src, None, views, sents, i), SendCourse(m, src, None, views, sents, i + 1);
    assert c.now.life[|m.life|..] == ds;
    PrefixOfDeeds(m.life, ds, x, c.now.life, ci.now.life);
    PrefixOfDeeds(m.life, ds, y, c.now.life, cj.now.life);
    var before, gaps0 := WovenSplits(w, x, ds[|x|..], gaps);
    RunKeepsInv(w, before);
    RunKeepsShape(w, before);
    InvLinks(After(w, before));
    SendStep(m, src, views, sents, i);
    TakenAtOnce(ci, src, views[i], sents[i], After(w, before));
    var upTo, gaps1 := WovenSplits(w, y, ds[|y|..], gaps);
    RunKeepsInv(w, upTo);
    var u := After(w, upTo);
    WovenIsRun(u, ds[|y|..], gaps1);
    LoneStuckForGood(u, Weave(ds[|y|..], gaps1));
    assert w.a.accepted + src[..c.got] == w.a.accepted + src[..cj.got];
    assert |src[..c.got]| == |src| && |src[..cj.got]| == cj.got;
  }

  lemma PrefixOfDeeds(life: seq<Deed>, ds: seq<Deed>, x: seq<Deed>, whole: seq<Deed>, part: seq<Deed>)
    requires whole == life + ds && part == life + x && part <= whole
    ensures x <= ds && ds == x + ds[|x|..]
  {
    assert x == whole[|life|..|part|] == ds[..|x|];
  }

  lemma TakenAtOnce(c: Course<nat>, src: seq<byte>, t: View, sent: set<Packet>, u: World)
    requires c.got == 0 && SendTurn(c, src, None, t, sent).got > 0 && src != []
    requires Inv(u) && u.a == c.now.side && Capacity(u.a.ep.snd) == 1 && |src| >= u.a.ep.snd.payload
    ensures var d := SendTurn(c, src, None, t, sent); d.got == u.a.ep.snd.payload && LoneStuck(d.now.side.ep.snd)
  {
    hide Inv, LinkInv, Blocked, Turned, Acted, LoneStuck;
    InvLinks(u);
    EndIsSmall(u.a, u.b);
    assert !Blocked(c.now.side.ep.snd) && c.status.Watching?;
    WholeSegmentSticks(c.now, src, t, sent);
  }

  lemma EndIsSmall(x: Side, y: Side)
    requires LinkInv(x, y)
    ensures x.ep.snd.end + |x.ep.snd.wnd| < INVALID_ID
  {
  }

  /** In every reachable state, whatever part of a frame is buffered: a call of `mc_comm_send`
      without a deadline can get through all of `src`, for some transport, clock and peer, if
      and only if no window is stuck alone and, with one window only, `src` is one segment. */
  lemma SendReturnsIff(w: World, evs: seq<Event>, m: Moment, src: seq<byte>)
    requires Initial(w) && IsRun(w, evs) && m.side == After(w, evs).a
    requires SlackFor(After(w, evs), Segments(|src|, After(w, evs).a.ep.snd.payload))
    ensures
      var v := After(w, evs);
      (exists views, sents, gaps :: SendReturns(v, m, src, views, sents, gaps)) <==> CanTake(v.a.ep.snd, src)
  {
    hide Inv, IsRun, After, SendReturns, Initial, SlackFor, Segments, CanTake;
    Reachable(w, evs);
    var v := After(w, evs);
    if CanTake(v.a.ep.snd, src) {
      SendCompletes(v, m, src);
    }
    forall views, sents, gaps | SendReturns(v, m, src, views, sents, gaps)
      ensures CanTake(v.a.ep.snd, src)
    {
      ReturnMeansCanTake(v, m, src, views, sents, gaps);
    }
  }

  lemma ReturnMeansCanTake(v: World, m: Moment, src: seq<byte>, views: seq<View>, sents: seq<set<Packet>>,
                           gaps: seq<seq<Event>>)
    requires Inv(v) && SendReturns(v, m, src, views, sents, gaps)
    ensures CanTake(v.a.ep.snd, src)
  {
    hide Inv, IsRun, After, SendReturns, LoneStuck;
    var more := ReturnIsRun(v, m, src, views, sents, gaps);
    assert |v.a.accepted + src| == |v.a.accepted| + |src|;
    if LoneStuck(v.a.ep.snd) {
      LoneStuckForGood(v, more);
    }
    if Capacity(v.a.ep.snd) == 1 && |src| >= v.a.ep.snd.payload {
      OneWindowTakesOne(v, m, src, views, sents, gaps);
    }
    PositiveCapacity(v.a.ep.snd);
  }

  lemma PositiveCapacity(r: Ring)
    ensures Capacity(r) >= 1
  {
  }
}
