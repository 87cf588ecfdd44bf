/** When a call of `mc_comm_recv` returns (src/io/communication/mc_communication.c:105-133):
    while nothing is there to hand out, its turns take in what the peer sends. */
module RecvCall {
  import opened Bytes
  import opened Seqs
  import opened Frame
  import opened Packets
  import opened WindowRing
  import opened Protocol
  import opened Invariant
  import opened Safety
  import opened Delivery
  import opened Liveness
  import opened Completion
  import opened Weaving
  import opened Communication
  import opened Flush
  import opened Reading
  import opened SendCall

  predicate WritesNothing(gaps: seq<seq<Event>>) {
    forall i, j :: 0 <= i < |gaps| && 0 <= j < |gaps[i]| ==> !gaps[i][j].act.Send?
  }

  /** The call, made without a deadline at `a` at the moment `m`, with what `b` does
      meanwhile, which is anything but writing, hands out `size` octets. */
  ghost predicate RecvReturns(w: World, m: Moment, size: nat, views: seq<View>, sents: seq<set<Packet>>,
                              gaps: seq<seq<Event>>) {
    && m.side == w.a && HonestRecv(m, size, None, views, sents)
    && var c := RecvCourse(m, size, None, views, sents, |views|);
    && m.life <= c.now.life
    && var ds := c.now.life[|m.life|..];
    && |gaps| == |ds| + 1 && Woven(w, ds, gaps) && WritesNothing(gaps)
    && c.status.Success?
  }

  // ------------------------------------------------------------------ what a turn does

  function RecvDeed(n: nat): Deed {
    Deed(Action.Recv(n), {})
  }

  lemma RecvAct(m: Moment, n: nat)
    ensures Acts(m.side, [RecvDeed(n)])
    ensures Acted(m, RecvDeed(n)) == m.(side := Steps(m.side, [RecvDeed(n)]), life := m.life + [RecvDeed(n)])
    ensures var s := Steps(m.side, [RecvDeed(n)]);
      && s.read == m.side.read + Read(m.side.ep.rcv, n).1 && s.accepted == m.side.accepted
      && s.ep == m.side.ep.(rcv := Read(m.side.ep.rcv, n).0) && s.log == m.side.log && s.wire == m.side.wire
  {
    hide Read;
    NothingHappens(m.side);
    assert [RecvDeed(n)][1..] == [];
  }

  /** With nothing to hand out, it changes nothing. */
  lemma EmptyAct(m: Moment, n: nat)
    requires !IsFirstAcked(m.side.ep.rcv)
    ensures Acted(m, RecvDeed(n)) == m.(life := m.life + [RecvDeed(n)])
    ensures Acts(m.side, [RecvDeed(n)]) && Steps(m.side, [RecvDeed(n)]) == m.side
  {
    RecvAct(m, n);
    assert m.side.read + [] == m.side.read;
  }

  /** While the call waits, each of its turns tries to read, delivers the frame it completes,
      if that passes the check, and lets the timer run. */
  lemma WaitingRecvTurns(c: Course<seq<byte>>, size: nat, deadline: Option<nat>, t: View, sent: set<Packet>)
    requires c.status.Watching? && |c.got| < size && !Late(deadline, t.now)
    requires Read(c.now.side.ep.rcv, size - |c.got|).1 == [] && Honest(c.now, t, sent)
    ensures var d, now := RecvDeed(size - |c.got|), RecvTurn(c, size, deadline, t, sent).now;
      && var tried := Acted(c.now, d);
      && now.life == c.now.life + ([d] + TurnDeeds(tried, t, sent))
      && Acts(tried.side, TurnDeeds(tried, t, sent)) && now.side == Steps(tried.side, TurnDeeds(tried, t, sent))
      && Honest(tried, t, sent)
  {
    hide Acted, Acts, Steps, Turned, Honest, TurnDeeds, Read;
    var n := size - |c.got|;
    RecvAct(c.now, n);
    var tried := Acted(c.now, RecvDeed(n));
    ReadShape(c.now.side.ep.rcv, n);
    SameHonest(c.now, tried, t, sent);
    TurnActs(tried, t, sent);
    assert c.now.life + [RecvDeed(n)] + TurnDeeds(tried, t, sent)
        == c.now.life + ([RecvDeed(n)] + TurnDeeds(tried, t, sent));
  }

  predicate NoSends(ds: seq<Deed>) {
    forall i :: 0 <= i < |ds| ==> !ds[i].act.Send?
  }

  lemma RecvTurnActs(c: Course<seq<byte>>, size: nat, t: View, sent: set<Packet>) returns (ds: seq<Deed>)
    requires |c.got| <= size
    requires c.status.Watching? && |c.got| < size && Read(c.now.side.ep.rcv, size - |c.got|).1 == []
      ==> Honest(c.now, t, sent)
    ensures var d := RecvTurn(c, size, None, t, sent);
      && d.now.life == c.now.life + ds && Acts(c.now.side, ds) && d.now.side == Steps(c.now.side, ds)
      && c.got <= d.got && |d.got| <= size
      && d.now.side.read == c.now.side.read + d.got[|c.got|..]
  {
    hide Acts, Steps, Turned, Honest, Acted, TurnDeeds, Read, RecvTurn;
    if !c.status.Watching? || |c.got| >= size {
      ds := [];
      EndedRecv(c, size, t, sent);
      NoActs(c.now.side);
      assert c.now.life + [] == c.now.life && c.now.side.read + [] == c.now.side.read;
    } else {
      var n := size - |c.got|;
      var bytes := Read(c.now.side.ep.rcv, n).1;
      ReadBound(c.now.side.ep.rcv, n);
      RecvAct(c.now, n);
      if bytes == [] {
        WaitingRecvTurns(c, size, None, t, sent);
        EmptyRecv(c, size, t, sent);
        var tried := Acted(c.now, RecvDeed(n));
        ActsConcat(c.now.side, [RecvDeed(n)], TurnDeeds(tried, t, sent));
        DeedsOnlyFlush(tried, t, sent);
        TurnsReadNothing(tried.side, TurnDeeds(tried, t, sent));
        ds := [RecvDeed(n)] + TurnDeeds(tried, t, sent);
      } else {
        ReadingRecv(c, size, t, sent);
        ds := [RecvDeed(n)];
        assert (c.got + bytes)[|c.got|..] == bytes;
      }
    }
  }

  lemma ReadBound(r: Ring, n: nat)
    ensures |Read(r, n).1| <= n
  {
  }

  lemma EndedRecv(c: Course<seq<byte>>, size: nat, t: View, sent: set<Packet>)
    requires !c.status.Watching? || |c.got| >= size
    ensures RecvTurn(c, size, None, t, sent) == c
  {
  }

  lemma EmptyRecv(c: Course<seq<byte>>, size: nat, t: View, sent: set<Packet>)
    requires c.status.Watching? && |c.got| < size && Read(c.now.side.ep.rcv, size - |c.got|).1 == []
    ensures var d := RecvTurn(c, size, None, t, sent);
      d.got == c.got && d.now == Turned(Acted(c.now, RecvDeed(size - |c.got|)), t, sent)
  {
    hide Turned, Acted, Read;
    assert c.got + [] == c.got;
  }

  lemma ReadingRecv(c: Course<seq<byte>>, size: nat, t: View, sent: set<Packet>)
    requires c.status.Watching? && |c.got| < size && Read(c.now.side.ep.rcv, size - |c.got|).1 != []
    ensures var d := RecvTurn(c, size, None, t, sent);
      && d.got == c.got + Read(c.now.side.ep.rcv, size - |c.got|).1
      && d.now == Acted(c.now, RecvDeed(size - |c.got|))
  {
    hide Turned, Acted, Read;
  }

  lemma {:induction false} TurnsReadNothing(s: Side, ds: seq<Deed>)
    requires Acts(s, ds) && OnlyFlush(ds)
    ensures Steps(s, ds).read == s.read
    decreases |ds|
  {
    hide Allowed, Step;
    if ds != [] {
      AllowedEnabled(s.ep, ds[0].sent, ds[0].act);
      FlushTakesNothing(s, ds[0].act);
      TurnsReadNothing(Step(s, ds[0].act), ds[1..]);
    }
  }

  // ------------------------------------------------------------------ what a call does

  lemma {:induction false} RecvCallActs(m: Moment, size: nat, views: seq<View>, sents: seq<set<Packet>>, k: nat)
    returns (ds: seq<Deed>)
    requires HonestRecv(m, size, None, views, sents) && k <= |views|
    ensures var c := RecvCourse(m, size, None, views, sents, k);
      && c.now.life == m.life + ds && Acts(m.side, ds) && c.now.side == Steps(m.side, ds)
      && |c.got| <= size && c.now.side.read == m.side.read + c.got
      && (c.status.Success? ==> |c.got| == size)
    decreases k
  {
    hide Turned, Acts, Steps, Honest, HonestRecv, RecvTurn, TurnDeeds, Acted, Read;
    RecvStart(m, size, None, views, sents);
    if k == 0 {
      ds := [];
      NoActs(m.side);
      assert m.life + [] == m.life && m.side.read + [] == m.side.read;
    } else {
      var before := RecvCallActs(m, size, views, sents, k - 1);
      RecvNext(m, size, None, views, sents, k - 1);
      var c := RecvCourse(m, size, None, views, sents, k - 1);
      var more := RecvTurnActs(c, size, views[k - 1], sents[k - 1]);
      SuccessIsWhole(c, size, views[k - 1], sents[k - 1]);
      ActsConcat(m.side, before, more);
      ds := before + more;
      var d := RecvCourse(m, size, None, views, sents, k);
      assert m.life + before + more == m.life + ds;
      assert m.side.read + c.got + d.got[|c.got|..] == m.side.read + d.got;
    }
  }

  lemma SuccessIsWhole(c: Course<seq<byte>>, size: nat, t: View, sent: set<Packet>)
    requires c.status.Success? ==> |c.got| == size
    ensures var d := RecvTurn(c, size, None, t, sent); d.status.Success? ==> |d.got| == size
  {
    hide Turned, Acted, Read;
  }

  /** A call that returns is a run in which `b` writes nothing and `size` octets are read. */
  lemma RecvIsRun(w: World, m: Moment, size: nat, views: seq<View>, sents: seq<set<Packet>>,
                  gaps: seq<seq<Event>>) returns (evs: seq<Event>)
    requires RecvReturns(w, m, size, views, sents, gaps)
    ensures IsRun(w, evs) && NoSendByB(evs) && |After(w, evs).a.read| == |w.a.read| + size
  {
    hide Acts, Steps, Woven, IsRun, After, RecvCourse, HonestRecv, WritesNothing, NoSendByB;
    RecvStart(m, size, None, views, sents);
    var c := RecvCourse(m, size, None, views, sents, |views|);
    var ds := RecvCallActs(m, size, views, sents, |views|);
    assert c.now.life[|m.life|..] == ds;
    WovenIsRun(w, ds, gaps);
    WeaveWritesNothing(ds, gaps);
    evs := Weave(ds, gaps);
  }

  predicate NoSendByB(evs: seq<Event>) {
    forall i :: 0 <= i < |evs| ==> !(evs[i].B? && evs[i].act.Send?)
  }

  lemma {:induction false} WeaveWritesNothing(ds: seq<Deed>, gaps: seq<seq<Event>>)
    requires |gaps| == |ds| + 1 && WritesNothing(gaps)
    ensures NoSendByB(Weave(ds, gaps))
    decreases |ds|
  {
    assert NoSendByB(gaps[0]);
    if ds != [] {
      assert WritesNothing(gaps[1..]) by {
        forall i, j | 0 <= i < |gaps[1..]| && 0 <= j < |gaps[1..][i]|
          ensures !gaps[1..][i][j].act.Send?
        {
          assert gaps[1..][i] == gaps[i + 1];
        }
      }
      WeaveWritesNothing(ds[1..], gaps[1..]);
    }
  }

  // ------------------------------------------------------------------ one turn more in front

  function FirstRecv(m: Moment, size: nat, t: View, sent: set<Packet>): Course<seq<byte>> {
    RecvTurn(Course(m, [], Watching, 0), size, None, t, sent)
  }

  lemma HonestRecvCons(m: Moment, size: nat, t: View, sent: set<Packet>,
                       views: seq<View>, sents: seq<set<Packet>>)
    requires size > 0 && (Read(m.side.ep.rcv, size).1 == [] ==> Honest(m, t, sent))
    requires var first := FirstRecv(m, size, t, sent);
      |first.got| <= size && HonestRecv(first.now, size - |first.got|, None, views, sents)
    ensures HonestRecv(m, size, None, [t] + views, [sent] + sents)
  {
    hide RecvCourse, RecvTurn, Honest, Read;
    var all, from := [t] + views, [sent] + sents;
    var first := FirstRecv(m, size, t, sent);
    RecvStart(first.now, size - |first.got|, None, views, sents);
    forall i | 0 <= i < |all|
      ensures var c := RecvCourse(m, size, None, all, from, i);
        c.status.Watching? && !Late(None, all[i].now) && |c.got| < size
          && Read(c.now.side.ep.rcv, size - |c.got|).1 == []
        ==> Honest(c.now, all[i], from[i])
    {
      if i == 0 {
        RecvFirst(m, size, None, all, from);
      } else {
        RecvCons(m, size, None, t, sent, views, sents, i - 1);
        assert all[i] == views[i - 1] && from[i] == sents[i - 1];
        RecvNext(first.now, size - |first.got|, None, views, sents, i - 1);
      }
    }
  }

  /** A turn of the call, of deeds `first`, in front of one that returns. */
  lemma PrependRecv(w: World, m: Moment, size: nat, t: View, sent: set<Packet>, first: seq<Deed>, u: World,
                    views: seq<View>, sents: seq<set<Packet>>, gaps: seq<seq<Event>>, more: seq<seq<Event>>)
    requires m.side == w.a && size > 0 && (Read(m.side.ep.rcv, size).1 == [] ==> Honest(m, t, sent))
    requires FirstRecv(m, size, t, sent).now.life == m.life + first && WritesNothing(more)
    requires var c := FirstRecv(m, size, t, sent);
      && |c.got| <= size && RecvReturns(u, c.now, size - |c.got|, views, sents, gaps)
      && forall ds :: |gaps| == |ds| + 1 && Woven(u, ds, gaps) ==>
           |more| == |first + ds| + 1 && Woven(w, first + ds, more)
    ensures RecvReturns(w, m, size, [t] + views, [sent] + sents, more)
  {
    hide RecvCourse, RecvTurn, HonestRecv, Woven, Honest, Read, FirstRecv, WritesNothing;
    var c := FirstRecv(m, size, t, sent);
    RecvStart(c.now, size - |c.got|, None, views, sents);
    HonestRecvCons(m, size, t, sent, views, sents);
    IsFirstRecv(m, size, t, sent);
    RecvCons(m, size, None, t, sent, views, sents, |views|);
    var now := RecvCourse(c.now, size - |c.got|, None, views, sents, |views|).now;
    var ds := now.life[|c.now.life|..];
    assert now.life == c.now.life + ds == m.life + (first + ds);
    assert now.life[|m.life|..] == first + ds;
    assert |[t] + views| == |views| + 1;
  }

  lemma IsFirstRecv(m: Moment, size: nat, t: View, sent: set<Packet>)
    ensures FirstRecv(m, size, t, sent) == RecvTurn(Course(m, [], Watching, 0), size, None, t, sent)
  {
  }

  lemma GapsWriteNothing(gap: seq<Event>, gaps: seq<seq<Event>>, m: Moment, t: View)
    requires WritesNothing(gaps) && forall i :: 0 <= i < |gap| ==> !gap[i].act.Send?
    ensures WritesNothing([gap] + gaps) && WritesNothing([gap] + TurnGaps(m, t, [], gaps))
  {
    hide Rest, Accepts;
    OneGapMore([], gaps);
    OneGapMore(gap, gaps);
    OneGapMore([], [[]] + gaps);
    OneGapMore(gap, TurnGaps(m, t, [], gaps));
  }

  lemma OneGapMore(gap: seq<Event>, gaps: seq<seq<Event>>)
    requires WritesNothing(gaps) && forall i :: 0 <= i < |gap| ==> !gap[i].act.Send?
    ensures WritesNothing([gap] + gaps)
  {
    var all: seq<seq<Event>> := [gap] + gaps;
    forall i, j | 0 <= i < |all| && 0 <= j < |all[i]|
      ensures !all[i][j].act.Send?
    {
      assert i > 0 ==> all[i] == gaps[i - 1];
    }
  }

  lemma RecvLeavesWorld(v: World, n: nat)
    requires !IsFirstAcked(v.a.ep.rcv)
    ensures var ev := A(Action.Recv(n)); CanStep(v, ev) && Next(v, ev) == v
  {
    NothingHappens(v.a);
  }

  lemma EmptyFirstTurn(m: Moment, size: nat, t: View, sent: set<Packet>)
    requires size > 0 && !IsFirstAcked(m.side.ep.rcv) && Honest(m, t, sent)
    ensures var d := RecvDeed(size);
      && var c := FirstRecv(m, size, t, sent);
      && c.got == [] && c.now == Turned(Acted(m, d), t, sent)
      && c.now.life == m.life + ([d] + TurnDeeds(Acted(m, d), t, sent))
      && Honest(Acted(m, d), t, sent)
  {
    hide Turned, Acted, Honest, TurnDeeds;
    WaitingRecvTurns(Course(m, [], Watching, 0), size, None, t, sent);
    EmptyRecv(Course(m, [], Watching, 0), size, t, sent);
  }

  /** A turn that has nothing to hand out. */
  lemma PrependEmpty(w: World, gap: seq<Event>, m: Moment, size: nat, t: View, sent: set<Packet>, u: World,
                     views: seq<View>, sents: seq<set<Packet>>, gaps: seq<seq<Event>>)
    returns (more: seq<seq<Event>>)
    requires m.side == w.a && size > 0 && !IsFirstAcked(w.a.ep.rcv) && Honest(m, t, sent)
    requires OnlyB(gap) && IsRun(w, gap) && forall i :: 0 <= i < |gap| ==> !gap[i].act.Send?
    requires var m1 := Acted(m, RecvDeed(size));
      && TurnLeadsTo(After(w, gap), m1, t, sent, u)
      && RecvReturns(u, Turned(m1, t, sent), size, views, sents, gaps)
    ensures RecvReturns(w, m, size, [t] + views, [sent] + sents, more)
  {
    hide TurnLeadsTo, Turned, Acted, Honest, IsRun, After, Woven, FirstRecv, HonestRecv, RecvCourse;
    hide CanStep, Next, NoWrap, TurnDeeds, TurnGaps, IsFirstAcked, WritesNothing, Read;
    var d := RecvDeed(size);
    var m1, v := Acted(m, d), After(w, gap);
    EmptyFirstTurn(m, size, t, sent);
    OnlyBKeepsA(w, gap);
    RecvLeavesWorld(v, size);
    RunNil(v);
    more := [gap] + TurnGaps(m1, t, [], gaps);
    GapsWriteNothing(gap, gaps, m1, t);
    forall ds | |gaps| == |ds| + 1 && Woven(u, ds, gaps)
      ensures |more| == |[d] + TurnDeeds(m1, t, sent) + ds| + 1 && Woven(w, [d] + TurnDeeds(m1, t, sent) + ds, more)
    {
      var rest := WovenTurn(v, [], m1, t, sent, u, ds, gaps);
      WovenCons(w, gap, d, TurnDeeds(m1, t, sent) + ds, rest);
      assert [d] + (TurnDeeds(m1, t, sent) + ds) == [d] + TurnDeeds(m1, t, sent) + ds;
    }
    PrependRecv(w, m, size, t, sent, [d] + TurnDeeds(m1, t, sent), u, views, sents, gaps, more);
  }

  /** A turn that hands something out. */
  lemma PrependRead(w: World, m: Moment, size: nat, t: View,
                    views: seq<View>, sents: seq<set<Packet>>, gaps: seq<seq<Event>>)
    returns (more: seq<seq<Event>>)
    requires m.side == w.a && size > 0 && NoWrap(w) && Read(w.a.ep.rcv, size).1 != []
    requires var ev := A(RecvDeed(size).act);
      && CanStep(w, ev) && |Read(w.a.ep.rcv, size).1| <= size
      && RecvReturns(Next(w, ev), Acted(m, RecvDeed(size)), size - |Read(w.a.ep.rcv, size).1|, views, sents, gaps)
    ensures RecvReturns(w, m, size, [t] + views, [{}] + sents, more)
  {
    hide Honest, IsRun, After, Woven, FirstRecv, HonestRecv, RecvCourse, CanStep, Next, NoWrap, WritesNothing, Read;
    var d, bytes := RecvDeed(size), Read(w.a.ep.rcv, size).1;
    IsFirstRecv(m, size, t, {});
    ReadingRecv(Course(m, [], Watching, 0), size, t, {});
    assert [] + bytes == bytes;
    RecvAct(m, size);
    RunNil(w);
    more := [[]] + gaps;
    GapsWriteNothing([], gaps, m, t);
    forall ds | |gaps| == |ds| + 1 && Woven(Next(w, A(d.act)), ds, gaps)
      ensures |more| == |[d] + ds| + 1 && Woven(w, [d] + ds, more)
    {
      WovenCons(w, [], d, ds, gaps);
    }
    PrependRecv(w, m, size, t, {}, [d], Next(w, A(d.act)), views, sents, gaps, more);
  }

  /** Something that `b` does before the first turn. */
  lemma PrependGap(w: World, ev: Event, m: Moment, size: nat,
                   views: seq<View>, sents: seq<set<Packet>>, gaps: seq<seq<Event>>)
    returns (more: seq<seq<Event>>)
    requires ev.B? && !ev.act.Send? && NoWrap(w) && CanStep(w, ev) && Next(w, ev).a == w.a
    requires RecvReturns(Next(w, ev), m, size, views, sents, gaps)
    ensures RecvReturns(w, m, size, views, sents, more)
  {
    hide IsRun, After, HonestRecv, RecvCourse, CanStep, Next, NoWrap;
    RecvStart(m, size, None, views, sents);
    var ds := RecvCourse(m, size, None, views, sents, |views|).now.life[|m.life|..];
    more := [[ev] + gaps[0]] + gaps[1..];
    RunCons(w, ev, gaps[0]);
    assert more[0] == [ev] + gaps[0] && more[1..] == gaps[1..];
    assert WritesNothing(gaps[1..]) by {
      forall i, j | 0 <= i < |gaps[1..]| && 0 <= j < |gaps[1..][i]|
        ensures !gaps[1..][i][j].act.Send?
      {
        assert gaps[1..][i] == gaps[i + 1];
      }
    }
    OneGapMore([ev] + gaps[0], gaps[1..]);
  }

  lemma RecvFinished(w: World, m: Moment)
    requires NoWrap(w) && m.side == w.a
    ensures RecvReturns(w, m, 0, [], [], [[]])
  {
    hide NoWrap;
    assert m.life[|m.life|..] == [];
    RunNil(w);
  }

  // ------------------------------------------------------------------ seen from the other end

  lemma MirrorNext(w: World, ev: Event)
    ensures CanStep(Mirror(w), MirrorEvent(ev)) == CanStep(w, ev)
    ensures CanStep(w, ev) ==> Next(Mirror(w), MirrorEvent(ev)) == Mirror(Next(w, ev))
  {
    hide Allowed, Step;
  }

  lemma MirrorInv(w: World)
    ensures Inv(Mirror(w)) == Inv(w) && NoWrap(Mirror(w)) == NoWrap(w)
  {
    hide LinkInv;
  }

  /** How many of the octets accepted can get out without another write. */
  function Deliverable(x: Side): int {
    |x.accepted| - if Stuck(x.ep.snd) then x.ep.snd.payload else 0
  }

  /** As long as some of them are neither read nor there to be read, something is outstanding. */
  lemma MissingIsOutstanding(x: Side, y: Side)
    requires LinkInv(x, y) && !IsFirstAcked(y.ep.rcv) && |y.read| < Deliverable(x)
    ensures Outstanding(x.ep.snd) && Top(x.ep.snd) > x.ep.snd.bgn
  {
    hide LinkInv, Pending;
    NothingPending(y.ep.rcv);
    AcceptedIsLogAndTail(x, y);
    NumberedAll(x, y);
    StuckTail(x.ep.snd);
    assert y.read + [] == y.read;
    if x.ep.snd.bgn == x.ep.snd.end {
      if Count(x.ep.snd) == 0 {
        EmptySenderMeansStored(x, y);
      } else if Stuck(x.ep.snd) {
        AllNumberedStored(x, y);
      }
    }
  }

  lemma StuckTail(r: Ring)
    ensures Stuck(r) ==> |Tail(r)| == r.payload
  {
  }

  lemma NumberedAll(x: Side, y: Side)
    requires LinkInv(x, y)
    ensures |x.log| == x.ep.snd.end + (if Last(x.ep.snd).isSent then 1 else 0)
  {
    hide Sound;
    hide WireInv;
  }

  /** Never more than that is read. */
  lemma ReadsAtMost(x: Side, y: Side)
    requires LinkInv(x, y)
    ensures |y.read| <= Deliverable(x)
  {
    hide Sound;
    hide WireInv;
    hide StoredSlot;
    hide Pending;
    SenderSendsData(x, y);
    ReadAndPending(y.ep.rcv, x.wire, x.log, y.read);
    FlattenPrefix(x.log, y.ep.rcv.bgn + DonePrefix(y.ep.rcv.wnd));
  }

  // ------------------------------------------------------------------ one round

  /** Whatever its clock shows, a timer step of `b` does not concern the direction to it. */
  lemma OtherTick(w: World, act: Action)
    requires Inv(w) && Slack(w) && act.Tick?
    ensures var ev := B(act);
      && CanStep(w, ev)
      && var v := Next(w, ev);
      && v.a == w.a && Inv(v) && Slack(v) && w.b.wire <= v.b.wire
      && v.b.read == w.b.read && v.b.accepted == w.b.accepted && v.b.ep.rcv == w.b.ep.rcv
      && v.b.ep.snd.payload == w.b.ep.snd.payload
  {
    hide Inv, SendUnacked, NoWrap;
    TickShape(w.b.ep, act.now, act.nowMs, act.sealUs);
    NothingHappens(w.b);
    SlackNoWrap(w);
    SlackNoWrap(Next(w, B(act)));
    StepKeepsInv(w, B(act));
  }

  /** What a round keeps, seen from the sending end `a`. */
  ghost predicate Fetches(w: World, v: World) {
    && Inv(v) && Slack(v)
    && Top(v.a.ep.snd) == Top(w.a.ep.snd) && Stuck(v.a.ep.snd) == Stuck(w.a.ep.snd)
    && v.a.accepted == w.a.accepted && v.a.ep.snd.payload == w.a.ep.snd.payload && v.b.read == w.b.read
  }

  /** A round, with names for the worlds it passes: `a` resends, `b` stores and lets its timer
      run, the acknowledgement arrives. */
  lemma SendingRound(w: World) returns (p: Packet, q: Packet, u: World, v: World, x: World, y: World)
    requires Inv(w) && Slack(w) && Outstanding(w.a.ep.snd) && !IsFirstAcked(w.b.ep.rcv)
    ensures var due := A(DueTick(w.a.ep)); CanStep(w, due) && u == Next(w, due) && u.b == w.b && NoWrap(u)
    ensures p in u.a.wire && Sound(p) && |p.data| == w.b.ep.rcv.payload
    ensures var arrive := B(Deliver(Encode(p), 0)); CanStep(u, arrive) && v == Next(u, arrive) && NoWrap(v)
    ensures var tick := B(Tick(0, 0, 0)); CanStep(v, tick) && x == Next(v, tick) && NoWrap(x)
    ensures x.b.ep.rcv.payload == w.b.ep.rcv.payload
    ensures var ack := A(Deliver(Encode(q), 0)); CanStep(x, ack) && y == Next(x, ack) && y.b == x.b
    ensures Fetches(w, y) && y.a.ep.snd.bgn > w.a.ep.snd.bgn
  {
    hide Inv, LinkInv, Slack, NoWrap, CanStep, Next, Encode, Sound, Stuck, Top, Outstanding, IsFirstAcked, Read;
    FirstResent(w);
    u := Next(w, A(DueTick(w.a.ep)));
    p := u.a.ep.snd.wnd[0].packet;
    InvLinks(u);
    if p.id >= u.b.ep.rcv.bgn + |u.b.ep.rcv.wnd| {
      RoomOrReadable(u.a, u.b);
    }
    q := StoreAnswers(u, p);
    v := Next(u, B(Deliver(Encode(p), 0)));
    OtherTick(v, Tick(0, 0, 0));
    x := Next(v, B(Tick(0, 0, 0)));
    AckMovesOn(x, q);
    var ack := A(Deliver(Encode(q), 0));
    y := Next(x, ack);
    NextTakesNothing(x, ack);
    SlackNoWrap(u);
    SlackNoWrap(v);
    SlackNoWrap(x);
    KeepsWhat(x, y);
    InvLinks(w);
    InvLinks(y);
    SameFrames(w, u, v, x, y);
  }

  lemma KeepsWhat(w: World, u: World)
    requires Keeps(w, u)
    ensures Inv(u) && Slack(u) && Top(u.a.ep.snd) == Top(w.a.ep.snd) && Stuck(u.a.ep.snd) == Stuck(w.a.ep.snd)
  {
    hide Inv, Slack, Top, Stuck;
  }

  /** The receiving end's frame size never changes, so neither does the sending end's. */
  lemma SameFrames(w: World, u: World, v: World, x: World, y: World)
    requires w.a.ep.snd.payload == w.b.ep.rcv.payload && u.b == w.b && Inv(u) && Inv(v) && Inv(x)
    requires v.a == u.a && x.a == v.a && y.b == x.b && y.a.ep.snd.payload == y.b.ep.rcv.payload
    ensures y.a.ep.snd.payload == w.a.ep.snd.payload && x.b.ep.rcv.payload == w.b.ep.rcv.payload
  {
    hide LinkInv;
    InvLinks(u);
    InvLinks(v);
    InvLinks(x);
  }

  /** The same round as turns of the call at `a`: what `b` does before the turn, the view, and
      what `b` does after it. */
  lemma FetchRound(w: World, m: Moment, size: nat)
    returns (due: Event, t: View, p: Packet, u: World, back: Event, y: World)
    requires Inv(w) && Slack(Mirror(w)) && m.side == w.a && Aligned(m)
    requires !IsFirstAcked(w.a.ep.rcv) && Outstanding(w.b.ep.snd)
    ensures due.B? && !due.act.Send? && IsRun(w, [due]) && Honest(m, t, {p})
    ensures var m1 := Acted(m, RecvDeed(size));
      && TurnLeadsTo(After(w, [due]), m1, t, {p}, u)
      && Turned(m1, t, {p}).side == u.a && Aligned(Turned(m1, t, {p}))
    ensures back.B? && !back.act.Send? && NoWrap(u) && CanStep(u, back) && y == Next(u, back) && y.a == u.a
    ensures Fetches(Mirror(w), Mirror(y)) && y.b.ep.snd.bgn > w.b.ep.snd.bgn
  {
    hide Inv, Slack, NoWrap, CanStep, Next, Encode, Sound, Stuck, Top, Outstanding, IsFirstAcked, Accepts, IsRun;
    hide After, Turned, Acted, TurnLeadsTo, Honest, Rest, Fetches;
    MirrorInv(w);
    var q, mu, mv, mx, my;
    p, q, mu, mv, mx, my := SendingRound(Mirror(w));
    due, back := B(DueTick(w.b.ep)), B(Deliver(Encode(q), 0));
    MirrorNext(w, due);
    var w1 := Next(w, due);
    u, y := Mirror(mx), Mirror(my);
    MirrorNext(w1, A(Deliver(Encode(p), 0)));
    MirrorNext(Mirror(mv), A(Tick(0, 0, 0)));
    MirrorNext(u, back);
    assert w1 == Mirror(mu);
    MirrorInv(w1);
    MirrorInv(Mirror(mv));
    MirrorInv(u);
    SlackNoWrap(Mirror(w));
    RunOfOne(w, due);
    t := View(Encode(p), 0, 0, 0);
    EmptyAct(m, size);
    var m1 := Acted(m, RecvDeed(size));
    AlignedToo(m, m1);
    assert Accepts(Encode(p)) by { SoundIsAccepted(p); }
    DeliveredTurn(w1, m1, t, p, Mirror(mv), u);
    SameHonest(m1, m, t, {p});
  }

  /** A turn whose view is one frame, which was sent. */
  lemma DeliveredTurn(w: World, m: Moment, t: View, p: Packet, v: World, u: World)
    requires m.side == w.a && Aligned(m) && t == View(Encode(p), 0, 0, 0) && p in w.b.wire && Accepts(Encode(p))
    requires |p.data| == w.a.ep.rcv.payload
    requires CanStep(w, A(Deliver(Encode(p), 0))) && v == Next(w, A(Deliver(Encode(p), 0))) && NoWrap(v)
    requires CanStep(v, A(Tick(0, 0, 0))) && u == Next(v, A(Tick(0, 0, 0)))
    requires FrameSize(u.a.ep) == FrameSize(w.a.ep)
    ensures TurnLeadsTo(w, m, t, {p}, u) && Honest(m, t, {p})
    ensures Turned(m, t, {p}).side == u.a && Aligned(Turned(m, t, {p}))
  {
    hide CanStep, Next, Encode, Accepts, NoWrap, Rest, Turned;
    var f := Encode(p);
    FrameView(m, t, f);
    TurnSide(w, m, t, {p}, u);
    StreamAfter(m, t, {p});
    BlockEnds(FrameSize(m.side.ep), m.stream, f);
  }

  // ------------------------------------------------------------------ the call completes

  lemma DeliverableStays(w: World, y: World)
    requires Fetches(w, y)
    ensures Inv(y) && Slack(y) && Deliverable(y.a) == Deliverable(w.a) && y.b.read == w.b.read
    ensures Top(y.a.ep.snd) == Top(w.a.ep.snd)
  {
    hide Inv, Slack, Stuck, Top;
  }

  lemma ReadStep(w: World, m: Moment, n: nat)
    requires Inv(w) && Slack(Mirror(w)) && m.side == w.a && IsFirstAcked(w.a.ep.rcv) && n > 0
    ensures var ev, bytes := A(RecvDeed(n).act), Read(w.a.ep.rcv, n).1;
      && CanStep(w, ev) && 0 < |bytes| <= n && NoWrap(w)
      && var v := Next(w, ev);
      && Inv(v) && Slack(Mirror(v)) && v.b == w.b && |v.a.read| == |w.a.read| + |bytes|
      && Acted(m, RecvDeed(n)).side == v.a && Acted(m, RecvDeed(n)).stream == m.stream
      && FrameSize(v.a.ep) == FrameSize(w.a.ep)
  {
    hide LinkInv, NoWrap, Read, Top, Pending;
    var ev := A(RecvDeed(n).act);
    ReadYields(w.b, w.a, n);
    PendingNow(w.b, w.a);
    RecvAct(m, n);
    ReadShape(w.a.ep.rcv, n);
    NextRecvA(w, n);
    MirrorInv(w);
    SlackNoWrap(Mirror(w));
    MirrorInv(Next(w, ev));
    SlackNoWrap(Mirror(Next(w, ev)));
    StepKeepsInv(w, ev);
  }

  lemma NextRecvA(w: World, n: nat)
    ensures var ev := A(Recv(n));
      && CanStep(w, ev) && Next(w, ev).b == w.b
      && Next(w, ev).a.ep == w.a.ep.(rcv := Read(w.a.ep.rcv, n).0)
      && Next(w, ev).a.read == w.a.read + Read(w.a.ep.rcv, n).1
  {
    hide Read;
  }

  lemma PendingNow(x: Side, y: Side)
    requires LinkInv(x, y) && IsFirstAcked(y.ep.rcv)
    ensures FirstRest(y.ep.rcv) > 0
  {
    hide LinkInv, Pending;
    PendingSplits(x, y);
  }

  /** Rounds and reads go on until everything asked for is there. */
  lemma {:induction false} RecvGoesOn(w: World, m: Moment, size: nat)
    returns (views: seq<View>, sents: seq<set<Packet>>, gaps: seq<seq<Event>>)
    requires Inv(w) && Slack(Mirror(w)) && m.side == w.a && Aligned(m)
    requires size <= Deliverable(w.b) - |w.a.read|
    ensures RecvReturns(w, m, size, views, sents, gaps)
    decreases size, Top(w.b.ep.snd) - w.b.ep.snd.bgn
  {
    hide Inv, LinkInv, Slack, Stuck, Top, Turned, Honest, TurnLeadsTo, Acted, RecvReturns, Aligned, Read;
    hide CanStep, Next, IsRun, After, NoWrap, IsFirstAcked, Fetches, Deliverable, Outstanding;
    MirrorInv(w);
    SlackNoWrap(Mirror(w));
    if size == 0 {
      views, sents, gaps := [], [], [[]];
      RecvFinished(w, m);
    } else if IsFirstAcked(w.a.ep.rcv) {
      var t := View([], 0, 0, 0);
      ReadStep(w, m, size);
      var v, m' := Next(w, A(RecvDeed(size).act)), Acted(m, RecvDeed(size));
      AlignedStill(m, m');
      var vs, ss, gs := RecvGoesOn(v, m', size - |Read(w.a.ep.rcv, size).1|);
      gaps := PrependRead(w, m, size, t, vs, ss, gs);
      views, sents := [t] + vs, [{}] + ss;
    } else {
      InvLinks(w);
      MissingIsOutstanding(w.b, w.a);
      var due, t, p, u, back, y := FetchRound(w, m, size);
      var m2 := Turned(Acted(m, RecvDeed(size)), t, {p});
      DeliverableStays(Mirror(w), Mirror(y));
      MirrorInv(y);
      BgnBelowTop(y.b.ep.snd);
      var vs, ss, gs := RecvGoesOn(y, m2, size);
      gs := PrependGap(u, back, m2, size, vs, ss, gs);
      gaps := PrependEmpty(w, [due], m, size, t, {p}, u, vs, ss, gs);
      views, sents := [t] + vs, [{p}] + ss;
    }
  }

  lemma AlignedStill(m: Moment, m': Moment)
    requires Aligned(m) && m'.stream == m.stream && FrameSize(m'.side.ep) == FrameSize(m.side.ep)
    ensures Aligned(m')
  {
  }

  /** A turn that gets rid of what is buffered. */
  lemma SpoilingTurn(w: World, m: Moment) returns (t: View, u: World)
    requires Inv(w) && Slack(Mirror(w)) && m.side == w.a
    ensures Honest(m, t, {}) && TurnLeadsTo(w, m, t, {}, u)
    ensures Turned(m, t, {}).side == u.a && Aligned(Turned(m, t, {}))
    ensures Inv(u) && Slack(Mirror(u)) && u.b == w.b && u.a.read == w.a.read
  {
    hide Inv, Slack, NoWrap, CanStep, Next, Turned, Rest, Accepts;
    var n := FrameSize(m.side.ep);
    var filler := SpoilFrame(Rest(n, m.stream), n);
    t := View(filler, 0, 0, 0);
    BlockEnds(n, m.stream, filler);
    MirrorInv(w);
    OtherTick(Mirror(w), Tick(0, 0, 0));
    MirrorNext(Mirror(w), B(Tick(0, 0, 0)));
    u := Next(w, A(Tick(0, 0, 0)));
    MirrorInv(u);
    TurnSide(w, m, t, {}, u);
    StreamAfter(m, t, {});
  }

  /** Whatever part of a frame is buffered. */
  lemma {:induction false} RecvCompletes(w: World, m: Moment, size: nat)
    requires Inv(w) && Slack(Mirror(w)) && m.side == w.a && size <= Deliverable(w.b) - |w.a.read|
    ensures exists views, sents, gaps :: RecvReturns(w, m, size, views, sents, gaps)
    decreases size
  {
    hide Inv, LinkInv, Slack, Turned, Honest, TurnLeadsTo, Acted, RecvReturns, Aligned, Read;
    hide CanStep, Next, IsRun, After, NoWrap, IsFirstAcked, Deliverable;
    MirrorInv(w);
    SlackNoWrap(Mirror(w));
    if size == 0 {
      RecvFinished(w, m);
    } else if IsFirstAcked(w.a.ep.rcv) {
      var t := View([], 0, 0, 0);
      ReadStep(w, m, size);
      var v, m' := Next(w, A(RecvDeed(size).act)), Acted(m, RecvDeed(size));
      var less := size - |Read(w.a.ep.rcv, size).1|;
      RecvCompletes(v, m', less);
      var vs, ss, gs :| RecvReturns(v, m', less, vs, ss, gs);
      var gaps := PrependRead(w, m, size, t, vs, ss, gs);
    } else {
      EmptyAct(m, size);
      var m1 := Acted(m, RecvDeed(size));
      var t, u := SpoilingTurn(w, m1);
      SameHonest(m1, m, t, {});
      var vs, ss, gs := RecvGoesOn(u, Turned(m1, t, {}), size);
      RunNil(w);
      var gaps := PrependEmpty(w, [], m, size, t, {}, u, vs, ss, gs);
    }
  }

  // ------------------------------------------------------------------ exactly when

  /** While `b` writes nothing, what it can get out stays the same. */
  lemma {:induction false} DeliverableIsAll(w: World, evs: seq<Event>)
    requires Inv(w) && IsRun(w, evs) && NoSendByB(evs)
    ensures Inv(After(w, evs)) && Deliverable(After(w, evs).b) <= Deliverable(w.b)
    decreases |evs|
  {
    hide Inv, NoWrap, CanStep, Next, Deliverable;
    if evs != [] {
      var v := Next(w, evs[0]);
      assert NoWrap(w) && NoWrap(v);
      StepKeepsInv(w, evs[0]);
      assert !(evs[0].B? && evs[0].act.Send?);
      forall i | 0 <= i < |evs[1..]|
        ensures evs[1..][i] == evs[i + 1]
      {
      }
      DeliverableStep(w, evs[0]);
      DeliverableIsAll(v, evs[1..]);
    }
  }

  lemma DeliverableStep(w: World, ev: Event)
    requires Inv(w) && CanStep(w, ev) && NoWrap(w) && !(ev.B? && ev.act.Send?)
    ensures Deliverable(Next(w, ev).b) <= Deliverable(w.b)
  {
    hide Inv, NoWrap, CanStep, Next, Stuck, NoSendByA;
    var m, back := Mirror(w), MirrorEvent(ev);
    MirrorInv(w);
    MirrorNext(w, ev);
    NextTakesNothing(m, back);
    FrameStays(w, ev);
    if Stuck(m.a.ep.snd) {
      assert NoSendByA([back]) by { NoSendOne(back); }
      StuckStep(m, back);
    }
  }

  lemma NoSendOne(ev: Event)
    requires !(ev.A? && ev.act.Send?)
    ensures NoSendByA([ev])
  {
  }

  lemma FrameStays(w: World, ev: Event)
    requires CanStep(w, ev)
    ensures Next(w, ev).b.ep.snd.payload == w.b.ep.snd.payload
  {
    hide Perform, Accepts, Encode;
    match ev
    case A(act) =>
    case B(act) =>
      AllowedEnabled(w.b.ep, w.a.wire, act);
      PerformKeepsShape(w.b.ep, act);
  }

  /** In every reachable state, whatever part of a frame is buffered: a call of `mc_comm_recv`
      for `size` octets without a deadline can hand them out, for some transport, clock and
      peer that writes nothing meanwhile, if and only if that many octets accepted there were
      not read yet, not counting those in a stuck window. */
  lemma RecvReturnsIff(w: World, evs: seq<Event>, m: Moment, size: nat)
    requires Initial(w) && IsRun(w, evs) && m.side == After(w, evs).a && Slack(Mirror(After(w, evs)))
    ensures
      var v := After(w, evs);
      (exists views, sents, gaps :: RecvReturns(v, m, size, views, sents, gaps))
      <==> size <= Deliverable(v.b) - |v.a.read|
  {
    hide Inv, LinkInv, IsRun, After, RecvReturns, Initial, Slack, Deliverable;
    Reachable(w, evs);
    var v := After(w, evs);
    if size <= Deliverable(v.b) - |v.a.read| {
      RecvCompletes(v, m, size);
    }
    forall views, sents, gaps | RecvReturns(v, m, size, views, sents, gaps)
      ensures size <= Deliverable(v.b) - |v.a.read|
    {
      var more := RecvIsRun(v, m, size, views, sents, gaps);
      DeliverableIsAll(v, more);
      InvLinks(After(v, more));
      ReadsAtMost(After(v, more).b, After(v, more).a);
    }
  }
}
