/** Messages across the lossy network: the transport's theorem and the parser's together,
    first for values and then for the objects, whatever calls are made on them. */
module EndToEnd {
  import opened Bytes
  import opened Seqs
  import opened WindowRing
  import opened Protocol
  import opened Invariant
  import opened Delivery
  import opened Safety
  import opened Weaving
  import opened Communication
  import opened Reading
  import opened Messages
  import opened Messenger

  /** The messages of `ms` that the table of their moment has a subscriber for. */
  ghost function Dispatched(ms: seq<RawMsg>, tables: seq<seq<IdNode>>): seq<RawMsg>
    requires |tables| == |ms|
  {
    if ms == [] then []
    else (if Subscribed(tables[0], ms[0].id) then [ms[0]] else []) + Dispatched(ms[1..], tables[1..])
  }

  function Made(calls: seq<Option<Call>>): seq<RawMsg> {
    if calls == [] then []
    else (if calls[0].Some? then [calls[0].value.msg] else []) + Made(calls[1..])
  }

  lemma {:induction false} CallsMade(ms: seq<RawMsg>, tables: seq<seq<IdNode>>, calls: seq<Option<Call>>)
    requires Calls(ms, tables, calls)
    ensures Made(calls) == Dispatched(ms, tables)
    decreases |ms|
  {
    if ms != [] {
      assert Dispatches(tables[0], ms[0], calls[0]);
      forall i | 0 <= i < |ms[1..]|
        ensures Dispatches(tables[1..][i], ms[1..][i], calls[1..][i])
      {
        assert Dispatches(tables[i + 1], ms[i + 1], calls[i + 1]);
      }
      CallsMade(ms[1..], tables[1..], calls[1..]);
    }
  }

  lemma FrontDispatched(done: seq<RawMsg>, all: seq<RawMsg>, tables: seq<seq<IdNode>>, calls: seq<Option<Call>>)
    requires done <= all && Calls(done, tables, calls)
    ensures |tables| == |done| <= |all| && Made(calls) == Dispatched(all[..|tables|], tables)
  {
    CallsMade(done, tables, calls);
    assert all[..|tables|] == done;
  }

  // ------------------------------------------------------------------ one update

  /** A message that fits and lies whole in the receiving half after the connection's turn is
      fed to the parser and completed in one update, whatever the transport shows, if both
      receive calls are in time and have one turn for each window stored, and one more. */
  lemma MessageAtOnce(x: Side, m: Moment, pool: seq<byte>, msg: Msg, s: Scene, b: Backdrop)
    requires FitsPool(msg, |pool|) && |b.sents| == |s.views|
    requires var y := Turned(m, s.first, b.first).side;
      && LinkInv(x, y) && NoAcks(y.ep.snd) && EncodeMsg(msg) <= Pending(y.ep.rcv)
      && DonePrefix(y.ep.rcv.wnd) < |s.views|
    requires forall i :: 0 <= i < |s.views| ==>
      s.views[i].now <= s.headerStart + 10000 && s.views[i].now <= s.bodyStart + 10000
    ensures var f := FeedOf(m, Parser(pool, 0), s, b);
      && f == Feed(EncodeMsg(msg)[..4], msg.payload)
      && Messages.Update(Parser(pool, 0), f).1 == Some(msg)
  {
    hide LinkInv, Turned, NoAcks, Pending, RecvCourse, EncodeMsg, FitsPool, TakeHeader, WantsBody;
    var p, y := Parser(pool, 0), Turned(m, s.first, b.first).side;
    var all, whole := Pending(y.ep.rcv), EncodeMsg(msg);
    MessageParts(msg);
    OneUpdateIsEnough(pool, msg);
    HeaderFirst(pool, msg);
    RecvOfPending(x, Turned(m, s.first, b.first), 4, Some(s.headerStart + HEADER_TIMEOUT_US), s.views, b.sents);
    var h := HeaderCourse(m, p, s, b);
    assert h.got == all[..4] == whole[..4];
    var q := TakeHeader(p, h.got);
    RecvOfPending(x, h.now, |msg.payload|, BodyDeadline(q, s.bodyStart), s.views[h.turns..], b.sents[h.turns..]);
    assert all[4..][..|msg.payload|] == whole[4..];
    assert BodyCourse(m, p, s, b).got == msg.payload;
  }

  lemma MessageParts(msg: Msg)
    ensures |EncodeMsg(msg)| == 4 + |msg.payload| && EncodeMsg(msg)[4..] == msg.payload
  {
  }

  /** Once the header is there, the parser wants exactly the payload. */
  lemma HeaderFirst(pool: seq<byte>, msg: Msg)
    requires FitsPool(msg, |pool|)
    ensures |EncodeMsg(msg)| >= 4 && |pool| >= 4 && WantsHeader(Parser(pool, 0)) == 4
    ensures var q := TakeHeader(Parser(pool, 0), EncodeMsg(msg)[..4]);
      WantsBody(q) == |msg.payload| && !Oversize(q)
  {
    hide FromLe, ToLe;
    var h := EncodeMsg(msg)[..4];
    FieldsOfEncoded(msg, []);
    assert EncodeMsg(msg) + [] == EncodeMsg(msg);
    var q := TakeHeader(Parser(pool, 0), h);
    assert q.pool[..4] == h;
    assert q.pool[..2] == h[..2] == EncodeMsg(msg)[..2] by {
      SliceOfPrefix(q.pool, 4, 0, 2);
    }
  }

  // ------------------------------------------------------------------ runs

  /** `a` sends the messages `ms`, the last one perhaps only in part; `b` parses what it
      reads, in updates `fs` cut anywhere, while its subscriptions change as they will.
      Whatever the network does, the messages completed are the first of those that fit
      the pool, and the calls made are those of them subscribed at that moment. */
  lemma MessagesInOrder(w: World, evs: seq<Event>, ms: seq<Msg>, pool: seq<byte>, fs: seq<Feed>,
                        tables: seq<seq<IdNode>>, calls: seq<Option<Call>>)
    requires Initial(w) && IsRun(w, evs)
    requires After(w, evs).a.accepted <= EncodeAll(ms)
    requires |pool| >= HEADER_SIZE && AllFed(Parser(pool, 0), fs)
    requires Consumed(fs) == After(w, evs).b.read
    requires Calls(Completed(Parser(pool, 0), fs), tables, calls)
    ensures |tables| <= |Fitting(ms, |pool|)| && Made(calls) == Dispatched(Fitting(ms, |pool|)[..|tables|], tables)
  {
    hide AllFed;
    hide Completed;
    hide IsRun;
    hide After;
    hide Initial;
    hide Calls;
    hide Dispatched;
    hide Fitting;
    ExactlyOnceInOrder(w, evs);
    ParserRoundTrip(pool, fs, ms);
    FrontDispatched(Completed(Parser(pool, 0), fs), Fitting(ms, |pool|), tables, calls);
  }

  /** Once all of `ms` is accepted, the sending half is empty and nothing stored is left
      to read, every message that fits has been completed. */
  lemma MessagesAllArrive(w: World, evs: seq<Event>, ms: seq<Msg>, pool: seq<byte>, fs: seq<Feed>,
                          tables: seq<seq<IdNode>>, calls: seq<Option<Call>>)
    requires Initial(w) && IsRun(w, evs)
    requires After(w, evs).a.accepted == EncodeAll(ms)
    requires IsEmpty(After(w, evs).a.ep.snd) && Pending(After(w, evs).b.ep.rcv) == []
    requires |pool| >= HEADER_SIZE && AllFed(Parser(pool, 0), fs)
    requires Consumed(fs) == After(w, evs).b.read
    requires Calls(Completed(Parser(pool, 0), fs), tables, calls)
    ensures |tables| == |Fitting(ms, |pool|)| && Made(calls) == Dispatched(Fitting(ms, |pool|), tables)
    ensures Finally(Parser(pool, 0), fs).stored == 0
  {
    hide AllFed;
    hide Completed;
    hide Finally;
    hide IsRun;
    hide After;
    hide Initial;
    hide LinkInv;
    hide Pending;
    Reachable(w, evs);
    var v := After(w, evs);
    EmptySenderMeansStored(v.a, v.b);
    assert v.b.read + [] == v.b.read;
    ParserRoundTrip(pool, fs, ms);
    CallsMade(Completed(Parser(pool, 0), fs), tables, calls);
  }

  // ------------------------------------------------------------------ objects

  /** Every use of a connection object, whatever calls were made and whatever its peer did
      between any two of their steps, is one end's part of a run. */
  lemma UseIsRun(c: Comm, w: World, gaps: seq<seq<Event>>)
    requires c.Valid() && w.a == c.origin && |gaps| == |c.life| + 1 && Woven(w, c.life, gaps)
    ensures IsRun(w, Weave(c.life, gaps)) && After(w, Weave(c.life, gaps)).a == c.side
    ensures ByA(Weave(c.life, gaps)) == ActsOf(c.life)
  {
    hide Acts;
    hide Woven;
    hide IsRun;
    hide After;
    hide Comm.Ready;
    WovenIsRun(w, c.life, gaps);
  }

  /** What a connection object has handed out is a prefix of what its peer accepted, and
      the other way round. */
  lemma UseDelivers(c: Comm, w: World, gaps: seq<seq<Event>>)
    requires c.Valid() && w.a == c.origin && |gaps| == |c.life| + 1 && Woven(w, c.life, gaps) && Initial(w)
    ensures IsRun(w, Weave(c.life, gaps))
    ensures var b := After(w, Weave(c.life, gaps)).b; c.side.read <= b.accepted && b.read <= c.side.accepted
  {
    hide Acts;
    hide Woven;
    hide IsRun;
    hide After;
    hide Initial;
    hide Comm.Ready;
    WovenDelivery(w, c.life, gaps);
    UseIsRun(c, w, gaps);
  }

  /** What it means that `Comm.Flush` has returned true. */
  lemma FlushedMeans(c: Comm, w: World, gaps: seq<seq<Event>>)
    requires c.Valid() && w.a == c.origin && |gaps| == |c.life| + 1 && Woven(w, c.life, gaps) && Initial(w)
    requires Flushed(c.side.ep)
    ensures IsRun(w, Weave(c.life, gaps))
    ensures var b := After(w, Weave(c.life, gaps)).b;
      b.read + Pending(b.ep.rcv) == c.side.accepted && Pending(c.side.ep.rcv) == []
  {
    hide Acts;
    hide Woven;
    hide IsRun;
    hide After;
    hide Initial;
    hide Pending;
    hide Comm.Ready;
    WovenFlushMeaning(w, c.life, gaps);
    UseIsRun(c, w, gaps);
  }

  /** The calls a messenger has made, over all its updates, with subscriptions coming and
      going in between: what `MessagesInOrder` says, about the object itself. Its peer has
      accepted the encoding of `ms`, the last message perhaps only in part. */
  lemma MessengerInOrder(m: Messenger, w: World, gaps: seq<seq<Event>>, ms: seq<Msg>)
    requires m.Valid() && m.diary.read == []
    requires w.a == m.comm.origin && |gaps| == |m.comm.life| + 1 && Woven(w, m.comm.life, gaps) && Initial(w)
    requires IsRun(w, Weave(m.comm.life, gaps)) ==> After(w, Weave(m.comm.life, gaps)).b.accepted <= EncodeAll(ms)
    ensures var fitting, tables := Fitting(ms, |m.diary.pool|), m.diary.tables;
      |tables| <= |fitting| && Made(m.diary.calls) == Dispatched(fitting[..|tables|], tables)
  {
    hide Woven;
    hide IsRun;
    hide After;
    hide Initial;
    hide AllFed;
    hide Completed;
    hide Finally;
    hide Comm.Valid;
    hide Calls;
    hide Dispatched;
    hide Fitting;
    hide EncodeAll;
    var d := m.diary;
    UseDelivers(m.comm, w, gaps);
    assert [] + Consumed(d.fed) == Consumed(d.fed);
    ParserRoundTrip(d.pool, d.fed, ms);
    FrontDispatched(Completed(Parser(d.pool, 0), d.fed), Fitting(ms, |d.pool|), d.tables, d.calls);
  }

  /** Two messenger objects, each used in any way, whose lives interleave in any order: as
      long as no send of `b` was broken off and followed by another, the calls `a` has made
      are, in order, those of the first fitting messages of `b` that were subscribed at
      their moment. */
  lemma TwoMessengers(a: Messenger, b: Messenger, w: World, order: seq<bool>)
    requires a.Valid() && b.Valid() && Initial(w)
    requires w.a == a.comm.origin && w.b == b.comm.origin && Interleaved(w, a.comm.life, b.comm.life, order)
    requires a.diary.read == [] && b.outbox.before == [] && !b.outbox.mail.Torn?
    ensures var fitting, tables := Fitting(b.outbox.msgs, |a.diary.pool|), a.diary.tables;
      |tables| <= |fitting| && Made(a.diary.calls) == Dispatched(fitting[..|tables|], tables)
  {
    hide Acts, Steps, Interleaved, IsRun, After, Initial, AllFed, Completed, Finally, Comm.Ready, Calls, Dispatched;
    hide Fitting, EncodeAll;
    var evs := Merge(a.comm.life, b.comm.life, order);
    InterleavedIsRun(w, a.comm.life, b.comm.life, order);
    ExactlyOnceInOrder(w, evs);
    FrontCalls(a.diary, a.State(), a.comm.side.read, b.outbox, b.comm.side.accepted);
  }

  /** The objects' records, once the octets read by one are a prefix of those accepted by
      the other. */
  lemma FrontCalls(d: Diary, p: Parser, read: seq<byte>, o: Outbox, accepted: seq<byte>)
    requires Kept(d, p, read) && d.read == [] && Mailed(o, accepted) && o.before == [] && !o.mail.Torn?
    requires read <= accepted
    ensures var fitting := Fitting(o.msgs, |d.pool|);
      |d.tables| <= |fitting| && Made(d.calls) == Dispatched(fitting[..|d.tables|], d.tables)
  {
    hide AllFed, Completed, Finally, Calls, Dispatched, Fitting, EncodeAll;
    assert [] + Consumed(d.fed) == Consumed(d.fed) && [] + EncodeAll(o.msgs) == EncodeAll(o.msgs);
    ParserRoundTrip(d.pool, d.fed, o.msgs);
    FrontDispatched(Completed(Parser(d.pool, 0), d.fed), Fitting(o.msgs, |d.pool|), d.tables, d.calls);
  }

  /** And all of them, once `b` has nothing left to send, every send was accepted whole, and
      nothing waits unread at `a`. */
  lemma TwoMessengersAll(a: Messenger, b: Messenger, w: World, order: seq<bool>)
    requires a.Valid() && b.Valid() && Initial(w)
    requires w.a == a.comm.origin && w.b == b.comm.origin && Interleaved(w, a.comm.life, b.comm.life, order)
    requires a.diary.read == [] && b.outbox.before == [] && b.outbox.mail.Whole?
    requires IsEmpty(b.comm.side.ep.snd) && Pending(a.comm.side.ep.rcv) == []
    ensures |a.diary.tables| == |Fitting(b.outbox.msgs, |a.diary.pool|)|
    ensures Made(a.diary.calls) == Dispatched(Fitting(b.outbox.msgs, |a.diary.pool|), a.diary.tables)
  {
    hide Acts, Steps, Interleaved, IsRun, After, Initial, AllFed, Completed, Finally, Comm.Ready, Calls, Dispatched;
    hide Fitting, EncodeAll, Inv, LinkInv, Pending, IsEmpty;
    var evs := Merge(a.comm.life, b.comm.life, order);
    InterleavedIsRun(w, a.comm.life, b.comm.life, order);
    Reachable(w, evs);
    EmptySenderMeansStored(b.comm.side, a.comm.side);
    assert a.comm.side.read + [] == a.comm.side.read;
    AllCalls(a.diary, a.State(), a.comm.side.read, b.outbox, b.comm.side.accepted);
  }

  lemma AllCalls(d: Diary, p: Parser, read: seq<byte>, o: Outbox, accepted: seq<byte>)
    requires Kept(d, p, read) && d.read == [] && Mailed(o, accepted) && o.before == [] && o.mail.Whole?
    requires read == accepted
    ensures |d.tables| == |Fitting(o.msgs, |d.pool|)|
    ensures Made(d.calls) == Dispatched(Fitting(o.msgs, |d.pool|), d.tables)
  {
    hide AllFed, Completed, Finally, Calls, Dispatched, Fitting, EncodeAll;
    assert [] + Consumed(d.fed) == Consumed(d.fed) && [] + EncodeAll(o.msgs) == EncodeAll(o.msgs);
    ParserRoundTrip(d.pool, d.fed, o.msgs);
    var fitting := Fitting(o.msgs, |d.pool|);
    FrontDispatched(Completed(Parser(d.pool, 0), d.fed), fitting, d.tables, d.calls);
    assert fitting[..|fitting|] == fitting;
  }
}
