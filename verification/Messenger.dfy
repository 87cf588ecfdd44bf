/** `mc_msg` as the program keeps it (src/io/message/mc_message.c): a connection, a table of
    subscriptions and a receive pool that is filled across calls. */
module Messenger {
  import opened Bytes
  import opened Seqs
  import opened Packets
  import opened WindowRing
  import opened Communication
  import opened SortedArray
  import opened Messages

  /** A subscription: which message id, and which callback. */
  datatype IdNode = IdNode(id: nat, handler: nat)

  function IdRank(): IdNode -> int {
    (n: IdNode) => n.id
  }

  /** A callback made: to whom, with which message. */
  datatype Call = Call(handler: nat, msg: RawMsg)

  ghost predicate Subscribed(table: seq<IdNode>, id: nat) {
    exists i :: 0 <= i < |table| && table[i].id == id
  }

  /** What dispatching a message does, given the table: one call to a subscriber of
      exactly its id, or nothing if there is none. */
  ghost predicate Dispatches(table: seq<IdNode>, m: RawMsg, call: Option<Call>) {
    && (call.Some? <==> Subscribed(table, m.id))
    && (call.Some? ==> call.value.msg == m && IdNode(m.id, call.value.handler) in table)
  }

  /** The calls made while completed messages are dispatched one by one, each by the table
      as it is then. */
  ghost predicate Calls(ms: seq<RawMsg>, tables: seq<seq<IdNode>>, calls: seq<Option<Call>>) {
    && |calls| == |tables| == |ms|
    && forall i :: 0 <= i < |ms| ==> Dispatches(tables[i], ms[i], calls[i])
  }

  lemma CallsSnoc(ms: seq<RawMsg>, tables: seq<seq<IdNode>>, calls: seq<Option<Call>>,
                  m: RawMsg, table: seq<IdNode>, call: Option<Call>)
    requires Calls(ms, tables, calls) && Dispatches(table, m, call)
    ensures Calls(ms + [m], tables + [table], calls + [call])
  {
    hide Dispatches;
  }

  /** What an object remembers of its receiving side: its pool and the octets its connection
      had read at first; what the parser was fed since; and for each message completed the
      table it met and the call made. */
  datatype Diary = Diary(pool: seq<byte>, read: seq<byte>, fed: seq<Feed>,
                         tables: seq<seq<IdNode>>, calls: seq<Option<Call>>)

  /** The diary is true of the parser `p` and of the octets read. */
  ghost predicate Kept(d: Diary, p: Parser, read: seq<byte>) {
    && |d.pool| >= HEADER_SIZE && AllFed(Parser(d.pool, 0), d.fed)
    && p == Finally(Parser(d.pool, 0), d.fed)
    && Calls(Completed(Parser(d.pool, 0), d.fed), d.tables, d.calls)
    && read == d.read + Consumed(d.fed)
  }

  function Noted(d: Diary, feed: Feed, whole: Option<RawMsg>, table: seq<IdNode>, call: Option<Call>): Diary {
    if whole.None? then d.(fed := d.fed + [feed])
    else d.(fed := d.fed + [feed], tables := d.tables + [table], calls := d.calls + [call])
  }

  /** Consecutive updates compose. */
  lemma NotedIsKept(d: Diary, p: Parser, read: seq<byte>, feed: Feed,
                    whole: Option<RawMsg>, table: seq<IdNode>, call: Option<Call>)
    requires Kept(d, p, read) && |p.pool| >= HEADER_SIZE && Fed(p, feed) && whole == Messages.Update(p, feed).1
    requires whole.Some? ==> Dispatches(table, whole.value, call)
    ensures Kept(Noted(d, feed, whole, table, call), Messages.Update(p, feed).0, read + feed.header + feed.body)
  {
    hide Messages.Update;
    hide Fed;
    hide AllFed;
    hide Finally;
    hide Completed;
    hide Dispatches;
    hide Calls;
    var p0 := Parser(d.pool, 0);
    FedSnoc(p0, d.fed, feed);
    assert d.read + Consumed(d.fed) + feed.header + feed.body == d.read + Consumed(d.fed + [feed]);
    assert whole.None? ==> Completed(p0, d.fed) + [] == Completed(p0, d.fed);
    if whole.Some? {
      CallsSnoc(Completed(p0, d.fed), d.tables, d.calls, whole.value, table, call);
    }
  }

  // ------------------------------------------------------------------ what was sent

  /** Whether the messages sent are on the stream whole; all but the last, which is there in
      part; or broken off somewhere in between. */
  datatype Mail = Whole | Cut | Torn

  /** What an object remembers of its sending side: the octets its connection had accepted
      at first, and the messages of which anything was accepted since. */
  datatype Outbox = Outbox(before: seq<byte>, msgs: seq<Msg>, mail: Mail)

  /** The outbox is true of the octets accepted. */
  ghost predicate Mailed(o: Outbox, accepted: seq<byte>) {
    && (o.mail.Whole? ==> accepted == o.before + EncodeAll(o.msgs))
    && (o.mail.Cut? ==> accepted <= o.before + EncodeAll(o.msgs))
  }

  /** After a send of which `count` octets were accepted. */
  function Posted(o: Outbox, m: Msg, count: nat): Outbox {
    if count == 0 then o
    else Outbox(o.before, o.msgs + [m],
                if !o.mail.Whole? then Torn else if count == |EncodeMsg(m)| then Whole else Cut)
  }

  /** Consecutive sends compose. */
  lemma PostedIsMailed(o: Outbox, accepted: seq<byte>, m: Msg, count: nat)
    requires Mailed(o, accepted) && count <= |EncodeMsg(m)|
    ensures Mailed(Posted(o, m, count), accepted + EncodeMsg(m)[..count])
  {
    hide EncodeMsg;
    var s := EncodeMsg(m);
    EncodeSnoc(o.msgs, m);
    if count == 0 {
      assert accepted + s[..0] == accepted;
    } else if o.mail.Whole? {
      assert s == s[..count] + s[count..];
      assert o.before + EncodeAll(o.msgs + [m]) == accepted + s[..count] + s[count..];
      assert count == |s| ==> s[..count] == s;
    }
  }

  // ------------------------------------------------------------------ one update

  const HEADER_TIMEOUT_US: nat := 10000
  const DROP_TIMEOUT_US: nat := 1000
  const STORE_TIMEOUT_US: nat := 10000

  /** Until when the second receive call of an update that starts at `start` waits. */
  function BodyDeadline(p: Parser, start: nat): Option<nat>
    requires |p.pool| >= HEADER_SIZE
  {
    Some(start + if Oversize(p) then DROP_TIMEOUT_US else STORE_TIMEOUT_US)
  }

  /** What the outside shows during one update: the turn of the connection, then the clock
      at the start of each receive call and the turns it may take. */
  datatype Scene = Scene(first: View, headerStart: nat, bodyStart: nat, views: seq<View>)

  /** What the peer has sent by then. */
  datatype Backdrop = Backdrop(first: set<Packet>, sents: seq<set<Packet>>)

  /** A whole receive call. */
  function WholeRecv(m: Moment, size: nat, deadline: Option<nat>, views: seq<View>,
                    sents: seq<set<Packet>>): Course<seq<byte>>
    requires |sents| == |views|
  {
    RecvCourse(m, size, deadline, views, sents, |views|)
  }

  lemma {:induction false} RecvBounds(m: Moment, size: nat, deadline: Option<nat>, views: seq<View>,
                                      sents: seq<set<Packet>>, k: nat)
    requires |sents| == |views| && k <= |views|
    ensures var c := RecvCourse(m, size, deadline, views, sents, k); c.turns <= k && |c.got| <= size
    decreases k
  {
    hide Turned;
    hide Acted;
    if k > 0 {
      var c := RecvCourse(m, size, deadline, views, sents, k - 1);
      RecvBounds(m, size, deadline, views, sents, k - 1);
      if |c.got| < size {
        ReadAtMost(c.now.side.ep.rcv, size - |c.got|);
      }
    }
  }

  lemma ReadAtMost(r: Ring, n: nat)
    ensures |Read(r, n).1| <= n
  {
  }

  /** The first receive call of an update: what is missing of the header. */
  function HeaderCourse(m: Moment, p: Parser, s: Scene, b: Backdrop): (c: Course<seq<byte>>)
    requires |b.sents| == |s.views|
    ensures c.turns <= |s.views| && |c.got| <= WantsHeader(p)
  {
    RecvBounds(Turned(m, s.first, b.first), WantsHeader(p), Some(s.headerStart + HEADER_TIMEOUT_US), s.views, b.sents,
               |s.views|);
    WholeRecv(Turned(m, s.first, b.first), WantsHeader(p), Some(s.headerStart + HEADER_TIMEOUT_US), s.views, b.sents)
  }

  /** The second one: what is missing of the message, or the next piece of an oversize one. */
  function BodyCourse(m: Moment, p: Parser, s: Scene, b: Backdrop): Course<seq<byte>>
    requires |b.sents| == |s.views| && |p.pool| >= HEADER_SIZE
  {
    var h := HeaderCourse(m, p, s, b);
    var q := TakeHeader(p, h.got);
    WholeRecv(h.now, WantsBody(q), BodyDeadline(q, s.bodyStart), s.views[h.turns..], b.sents[h.turns..])
  }

  lemma BodyBounds(m: Moment, p: Parser, s: Scene, b: Backdrop)
    requires |b.sents| == |s.views| && |p.pool| >= HEADER_SIZE
    ensures |BodyCourse(m, p, s, b).got| <= WantsBody(TakeHeader(p, HeaderCourse(m, p, s, b).got))
  {
    hide RecvCourse;
    hide HeaderCourse;
    hide FromLe;
    var h := HeaderCourse(m, p, s, b);
    var q := TakeHeader(p, h.got);
    RecvBounds(h.now, WantsBody(q), BodyDeadline(q, s.bodyStart), s.views[h.turns..], b.sents[h.turns..],
               |s.views| - h.turns);
  }

  /** What the parser is fed in one update. */
  function FeedOf(m: Moment, p: Parser, s: Scene, b: Backdrop): (f: Feed)
    requires |b.sents| == |s.views| && |p.pool| >= HEADER_SIZE
    ensures Fed(p, f)
  {
    hide BodyCourse;
    hide HeaderCourse;
    hide WantsBody;
    hide TakeHeader;
    BodyBounds(m, p, s, b);
    Feed(HeaderCourse(m, p, s, b).got, BodyCourse(m, p, s, b).got)
  }

  /** Each of the reads from the transport takes in what was sent. */
  ghost predicate HonestUpdate(m: Moment, p: Parser, s: Scene, b: Backdrop)
    requires |p.pool| >= HEADER_SIZE
  {
    && |b.sents| == |s.views|
    && Honest(m, s.first, b.first)
    && HonestRecv(Turned(m, s.first, b.first), WantsHeader(p), Some(s.headerStart + HEADER_TIMEOUT_US),
                  s.views, b.sents)
    && var h := HeaderCourse(m, p, s, b);
    var q := TakeHeader(p, h.got);
    HonestRecv(h.now, WantsBody(q), BodyDeadline(q, s.bodyStart), s.views[h.turns..], b.sents[h.turns..])
  }

  /** A receive call came out as its course says. */
  predicate Yields(c: Course<seq<byte>>, now: Moment, bytes: seq<byte>) {
    c.now == now && c.got == bytes
  }

  predicate Fetched(c: Course<seq<byte>>, now: Moment, bytes: seq<byte>, views: seq<View>, rest: seq<View>) {
    Yields(c, now, bytes) && c.turns <= |views| && rest == views[c.turns..]
  }

  lemma HonestLength(m: Moment, size: nat, deadline: Option<nat>, views: seq<View>, sents: seq<set<Packet>>)
    requires HonestRecv(m, size, deadline, views, sents)
    ensures |sents| == |views|
  {
  }

  lemma {:induction false} NothingReceived(m: Moment, deadline: Option<nat>, views: seq<View>,
                                           sents: seq<set<Packet>>)
    requires |sents| == |views|
    ensures WholeRecv(m, 0, deadline, views, sents) == Course(m, [], Success, 0)
  {
    RecvSettled(m, 0, deadline, views, sents, 0, |views|);
  }

  lemma FirstHonest(m: Moment, p: Parser, s: Scene, b: Backdrop)
    requires |p.pool| >= HEADER_SIZE && HonestUpdate(m, p, s, b)
    ensures |b.sents| == |s.views| && Honest(m, s.first, b.first)
  {
  }

  // ------------------------------------------------------------------ one message sent

  function Until(timeout: Option<nat>, start: nat): Option<nat> {
    if timeout.Some? then Some(start + timeout.value) else None
  }

  /** A whole send call. */
  function WholeSend(m: Moment, src: seq<byte>, deadline: Option<nat>, views: seq<View>,
                sents: seq<set<Packet>>): Course<nat>
    requires |sents| == |views|
  {
    SendCourse(m, src, deadline, views, sents, |views|)
  }

  lemma SentTurns(m: Moment, src: seq<byte>, deadline: Option<nat>, views: seq<View>, sents: seq<set<Packet>>)
    requires |sents| == |views|
    ensures WholeSend(m, src, deadline, views, sents).turns <= |views|
  {
    SendOutcome(m, src, deadline, views, sents, |views|);
  }

  /** The course of `mc_msg_send`: where it ends, how much was accepted, what it reports. */
  function MsgCourse(m: Moment, msg: Msg, timeout: Option<nat>, headerStart: nat, payloadStart: nat,
                     views: seq<View>, sents: seq<set<Packet>>): (Moment, nat, Status)
    requires |sents| == |views|
  {
    var h := WholeSend(m, EncodeHeader(msg), Until(timeout, headerStart), views, sents);
    if !h.status.Success? then (h.now, h.got, h.status)
    else
      SentTurns(m, EncodeHeader(msg), Until(timeout, headerStart), views, sents);
      var c := WholeSend(h.now, msg.payload, Until(timeout, payloadStart), views[h.turns..], sents[h.turns..]);
      (c.now, HEADER_SIZE + c.got, c.status)
  }

  ghost predicate HonestSendMsg(m: Moment, msg: Msg, timeout: Option<nat>, headerStart: nat, payloadStart: nat,
                                views: seq<View>, sents: seq<set<Packet>>) {
    && HonestSend(m, EncodeHeader(msg), Until(timeout, headerStart), views, sents)
    && var h := WholeSend(m, EncodeHeader(msg), Until(timeout, headerStart), views, sents);
    SentTurns(m, EncodeHeader(msg), Until(timeout, headerStart), views, sents);
    h.status.Success? ==>
      HonestSend(h.now, msg.payload, Until(timeout, payloadStart), views[h.turns..], sents[h.turns..])
  }

  lemma HonestHeader(m: Moment, msg: Msg, timeout: Option<nat>, headerStart: nat, payloadStart: nat,
                     views: seq<View>, sents: seq<set<Packet>>)
    requires HonestSendMsg(m, msg, timeout, headerStart, payloadStart, views, sents)
    ensures |sents| == |views| && HonestSend(m, EncodeHeader(msg), Until(timeout, headerStart), views, sents)
  {
  }

  lemma HeaderOnly(m: Moment, msg: Msg, timeout: Option<nat>, headerStart: nat, payloadStart: nat,
                   views: seq<View>, sents: seq<set<Packet>>)
    requires |sents| == |views|
    ensures var h := WholeSend(m, EncodeHeader(msg), Until(timeout, headerStart), views, sents);
      !h.status.Success? ==>
        MsgCourse(m, msg, timeout, headerStart, payloadStart, views, sents) == (h.now, h.got, h.status)
  {
    hide WholeSend;
  }

  lemma HonestPayload(m: Moment, msg: Msg, timeout: Option<nat>, headerStart: nat, payloadStart: nat,
                      views: seq<View>, sents: seq<set<Packet>>)
    requires HonestSendMsg(m, msg, timeout, headerStart, payloadStart, views, sents) && |sents| == |views|
    requires WholeSend(m, EncodeHeader(msg), Until(timeout, headerStart), views, sents).status.Success?
    ensures var h := WholeSend(m, EncodeHeader(msg), Until(timeout, headerStart), views, sents);
      && h.turns <= |views|
      && HonestSend(h.now, msg.payload, Until(timeout, payloadStart), views[h.turns..], sents[h.turns..])
      && var c := WholeSend(h.now, msg.payload, Until(timeout, payloadStart), views[h.turns..], sents[h.turns..]);
      MsgCourse(m, msg, timeout, headerStart, payloadStart, views, sents) == (c.now, HEADER_SIZE + c.got, c.status)
  {
    hide WholeSend;
    hide HonestSend;
    SentTurns(m, EncodeHeader(msg), Until(timeout, headerStart), views, sents);
  }

  class Messenger {
    const comm: Comm
    const ids: SortedArray<IdNode>
    const recvPool: array<byte>
    var stored: nat

    ghost var diary: Diary
    ghost var outbox: Outbox

    ghost predicate Ready()
      reads this, recvPool, ids, ids.data
      reads comm, comm.snd, comm.snd.windows, comm.rcv, comm.rcv.windows, comm.frame, comm.frame.temp
    {
      && comm.Valid()
      && ids.Valid() && ids.rank == IdRank()
      && recvPool.Length >= HEADER_SIZE && recvPool != comm.frame.temp
    }

    /** Between updates. */
    ghost predicate Valid()
      reads this, recvPool, ids, ids.data
      reads comm, comm.snd, comm.snd.windows, comm.rcv, comm.rcv.windows, comm.frame, comm.frame.temp
    {
      Ready() && Sane(State()) && Recorded()
    }

    /** What the object records is what happened. */
    ghost predicate Recorded()
      reads this`diary, this`outbox, this`stored, recvPool, comm`side
    {
      Kept(diary, State(), comm.side.read) && Mailed(outbox, comm.side.accepted)
    }

    ghost function State(): (p: Parser)
      reads this`stored, recvPool
      ensures |p.pool| == recvPool.Length
    {
      Parser(recvPool[..], stored)
    }

    constructor (comm: Comm, ids: SortedArray<IdNode>, recvPool: array<byte>)
      requires comm.Valid() && ids.Valid() && ids.rank == IdRank()
      requires recvPool.Length >= HEADER_SIZE && recvPool != comm.frame.temp
      ensures Valid() && this.comm == comm && this.ids == ids && this.recvPool == recvPool
      ensures State() == Parser(recvPool[..], 0) && diary == Diary(recvPool[..], comm.side.read, [], [], [])
      ensures outbox == Outbox(comm.side.accepted, [], Whole)
    {
      this.comm := comm;
      this.ids := ids;
      this.recvPool := recvPool;
      stored := 0;
      diary := Diary(recvPool[..], comm.side.read, [], [], []);
      outbox := Outbox(comm.side.accepted, [], Whole);
    }

    // ---------------------------------------------------------------- receiving

    /** Received octets are copied into the pool. */
    method Put(at: nat, bytes: seq<byte>)
      requires at + |bytes| <= recvPool.Length
      modifies recvPool
      ensures recvPool[..] == Overwrite(old(recvPool[..]), at, bytes)
    {
      ghost var was := recvPool[..];
      var i := 0;
      while i < |bytes|
        invariant 0 <= i <= |bytes|
        invariant forall k :: 0 <= k < at || at + i <= k < recvPool.Length ==> recvPool[k] == was[k]
        invariant forall k :: 0 <= k < i ==> recvPool[at + k] == bytes[k]
      {
        recvPool[at + i] := bytes[i];
        i := i + 1;
      }
      assert recvPool[..] == was[..at] + bytes + was[at + |bytes|..];
    }

    /** `mc_comm_recv` into the pool, as each of the three reading helpers does. */
    method Fetch(at: nat, size: nat, deadline: Option<nat>, views: seq<View>, ghost sents: seq<set<Packet>>)
      returns (bytes: seq<byte>, rest: seq<View>)
      requires Ready() && Roomy(comm.side.ep, 3 * |views|) && at + size <= recvPool.Length
      requires HonestRecv(comm.Now(), size, deadline, views, sents)
      modifies recvPool, comm`side, comm`life, comm`ackBuf, comm`sendDelayUs
      modifies comm.snd, comm.snd.windows, comm.rcv, comm.rcv.windows
      modifies comm.frame`tempStored, comm.frame`stream, comm.frame.temp
      ensures Ready() && |bytes| <= size
      ensures recvPool[..] == Overwrite(old(recvPool[..]), at, bytes)
      ensures Fetched(WholeRecv(old(comm.Now()), size, deadline, views, sents), comm.Now(), bytes, views, rest)
      ensures comm.side.read == old(comm.side.read) + bytes && comm.side.accepted == old(comm.side.accepted)
      ensures Roomy(comm.side.ep, 3 * |rest|)
    {
      hide Comm.Valid;
      hide Roomy;
      hide HonestRecv;
      hide RecvCourse;
      var status;
      HonestLength(comm.Now(), size, deadline, views, sents);
      bytes, status, rest := comm.Recv(size, deadline, views, sents);
      Put(at, bytes);
    }

    /** `read_message_header`. */
    method ReadHeader(deadline: Option<nat>, views: seq<View>, ghost sents: seq<set<Packet>>)
      returns (bytes: seq<byte>, rest: seq<View>)
      requires Ready() && Roomy(comm.side.ep, 3 * |views|) && stored < HEADER_SIZE
      requires HonestRecv(comm.Now(), WantsHeader(State()), deadline, views, sents)
      modifies this`stored, recvPool, comm`side, comm`life, comm`ackBuf, comm`sendDelayUs
      modifies comm.snd, comm.snd.windows, comm.rcv, comm.rcv.windows
      modifies comm.frame`tempStored, comm.frame`stream, comm.frame.temp
      ensures Ready() && |bytes| <= old(WantsHeader(State())) && State() == TakeHeader(old(State()), bytes)
      ensures Fetched(WholeRecv(old(comm.Now()), old(WantsHeader(State())), deadline, views, sents),
                      comm.Now(), bytes, views, rest)
      ensures comm.side.read == old(comm.side.read) + bytes && comm.side.accepted == old(comm.side.accepted)
      ensures Roomy(comm.side.ep, 3 * |rest|)
    {
      hide Comm.Valid;
      hide HonestRecv;
      hide WholeRecv;
      hide Fetched;
      hide Roomy;
      ghost var was := State();
      HonestLength(comm.Now(), WantsHeader(State()), deadline, views, sents);
      bytes, rest := Fetch(stored, HEADER_SIZE - stored, deadline, views, sents);
      stored := stored + |bytes|;
      OverwriteNothing(was.pool, was.stored, bytes);
    }

    /** `drop_message`, for a message larger than the pool. */
    method DropMessage(deadline: Option<nat>, views: seq<View>, ghost sents: seq<set<Packet>>)
      returns (bytes: seq<byte>)
      requires Ready() && Roomy(comm.side.ep, 3 * |views|)
      requires HEADER_SIZE <= stored < Expected(State()) && Oversize(State())
      requires HonestRecv(comm.Now(), WantsBody(State()), deadline, views, sents)
      modifies this`stored, recvPool, comm`side, comm`life, comm`ackBuf, comm`sendDelayUs
      modifies comm.snd, comm.snd.windows, comm.rcv, comm.rcv.windows
      modifies comm.frame`tempStored, comm.frame`stream, comm.frame.temp
      ensures Ready() && |bytes| <= old(WantsBody(State())) && State() == DropBody(old(State()), bytes)
      ensures Yields(WholeRecv(old(comm.Now()), old(WantsBody(State())), deadline, views, sents), comm.Now(), bytes)
      ensures comm.side.read == old(comm.side.read) + bytes && comm.side.accepted == old(comm.side.accepted)
    {
      hide Comm.Valid;
      hide HonestRecv;
      hide WholeRecv;
      hide Roomy;
      hide FromLe;
      HonestLength(comm.Now(), WantsBody(State()), deadline, views, sents);
      var expected := SizeField(recvPool[..]) + HEADER_SIZE;
      var segment := Min(recvPool.Length - HEADER_SIZE, expected - stored);
      var rest;
      bytes, rest := Fetch(HEADER_SIZE, segment, deadline, views, sents);
      stored := stored + |bytes|;
      if stored == expected {
        stored := 0;
      }
    }

    /** `is_message_stored`, for a message that fits: the message, once it is whole. */
    method StoreMessage(deadline: Option<nat>, views: seq<View>, ghost sents: seq<set<Packet>>)
      returns (bytes: seq<byte>, whole: Option<RawMsg>)
      requires Ready() && Roomy(comm.side.ep, 3 * |views|)
      requires HEADER_SIZE <= stored <= Expected(State()) && !Oversize(State())
      requires HonestRecv(comm.Now(), WantsBody(State()), deadline, views, sents)
      modifies this`stored, recvPool, comm`side, comm`life, comm`ackBuf, comm`sendDelayUs
      modifies comm.snd, comm.snd.windows, comm.rcv, comm.rcv.windows
      modifies comm.frame`tempStored, comm.frame`stream, comm.frame.temp
      ensures Ready() && |bytes| <= old(WantsBody(State())) && (State(), whole) == TakeBody(old(State()), bytes)
      ensures Yields(WholeRecv(old(comm.Now()), old(WantsBody(State())), deadline, views, sents), comm.Now(), bytes)
      ensures comm.side.read == old(comm.side.read) + bytes && comm.side.accepted == old(comm.side.accepted)
    {
      hide Comm.Valid;
      hide HonestRecv;
      hide WholeRecv;
      hide Roomy;
      hide FromLe;
      ghost var was := State();
      HonestLength(comm.Now(), WantsBody(State()), deadline, views, sents);
      var size, id := SizeField(recvPool[..]), IdField(recvPool[..]);
      var expected := size + HEADER_SIZE;
      bytes, whole := [], None;
      assert comm.side.read + [] == comm.side.read;
      if stored != expected {
        var rest;
        bytes, rest := Fetch(stored, size - (stored - HEADER_SIZE), deadline, views, sents);
        stored := stored + |bytes|;
        OverwriteNothing(was.pool, was.stored, bytes);
      } else {
        NothingReceived(comm.Now(), deadline, views, sents);
      }
      if stored == expected {
        stored := 0;
        whole := Some(Msg(id, recvPool[HEADER_SIZE..expected]));
      }
    }

    /** `dispatch_received`: the call made, if anyone subscribes to the id. */
    method Dispatch(m: RawMsg) returns (call: Option<Call>)
      requires ids.Valid() && ids.rank == IdRank()
      ensures Dispatches(ids.Contents(), m, call)
    {
      var found := ids.Find(IdNode(m.id, 0));
      call := if found.Some? && found.value.id == m.id then Some(Call(found.value.handler, m)) else None;
      PresentIsSubscribed(ids.Contents(), IdNode(m.id, 0));
    }

    /** `mc_msg_subscribe`. */
    method Subscribe(id: nat, handler: nat) returns (ok: bool, ghost at: nat)
      requires ids.Valid() && ids.rank == IdRank()
      modifies ids`count, ids.data
      ensures ids.Valid() && ok == (old(ids.count) < ids.data.Length)
      ensures !ok ==> ids.Contents() == old(ids.Contents())
      ensures ok ==> at <= |old(ids.Contents())|
      ensures ok ==> ids.Contents() == Inserted(old(ids.Contents()), at, IdNode(id, handler))
    {
      ok, at := ids.Insert(IdNode(id, handler));
    }

    /** `mc_msg_unsubscribe`. */
    method Unsubscribe(id: nat) returns (ok: bool, taken: Option<IdNode>, ghost at: nat)
      requires ids.Valid() && ids.rank == IdRank()
      modifies ids`count, ids.data
      ensures ok <==> old(ids.count) != 0
      ensures ids.Valid() && at <= |old(ids.Contents())|
      ensures at < |old(ids.Contents())| ==>
                taken == Some(old(ids.Contents())[at]) && ids.Contents() == Removed(old(ids.Contents()), at)
      ensures taken.None? ==> ids.Contents() == old(ids.Contents())
      ensures old(Subscribed(ids.Contents(), id)) <==> taken.Some? && taken.value.id == id
    {
      ghost var was := ids.Contents();
      ok, taken, at := ids.Remove(IdNode(id, 0));
      PlaceMeans(IdRank(), was, IdNode(id, 0), at);
      PresentIsSubscribed(was, IdNode(id, 0));
    }

    /** The second half of `mc_msg_update`: the header is there. */
    method TakeMessage(bodyStart: nat, views: seq<View>, ghost sents: seq<set<Packet>>)
      returns (bytes: seq<byte>, noSpace: bool, call: Option<Call>, ghost whole: Option<RawMsg>)
      requires Ready() && Roomy(comm.side.ep, 3 * |views|)
      requires HEADER_SIZE <= stored <= Expected(State()) && (Oversize(State()) ==> stored < Expected(State()))
      requires HonestRecv(comm.Now(), WantsBody(State()), BodyDeadline(State(), bodyStart), views, sents)
      modifies this`stored, recvPool, comm`side, comm`life, comm`ackBuf, comm`sendDelayUs
      modifies comm.snd, comm.snd.windows, comm.rcv, comm.rcv.windows
      modifies comm.frame`tempStored, comm.frame`stream, comm.frame.temp
      ensures Ready() && |bytes| <= old(WantsBody(State()))
      ensures (State(), whole)
           == old(if Oversize(State()) then (DropBody(State(), bytes), None) else TakeBody(State(), bytes))
      ensures |sents| == |views|
      ensures Yields(WholeRecv(old(comm.Now()), old(WantsBody(State())), old(BodyDeadline(State(), bodyStart)),
                              views, sents), comm.Now(), bytes)
      ensures comm.side.read == old(comm.side.read) + bytes && comm.side.accepted == old(comm.side.accepted)
      ensures whole.Some? ==> Dispatches(ids.Contents(), whole.value, call)
      ensures whole.None? ==> call.None?
      ensures noSpace == old(Oversize(State()))
    {
      hide Comm.Valid;
      hide HonestRecv;
      hide WholeRecv;
      hide Yields;
      hide Roomy;
      hide FromLe;
      hide WantsBody;
      HonestLength(comm.Now(), WantsBody(State()), BodyDeadline(State(), bodyStart), views, sents);
      call, whole := None, None;
      noSpace := recvPool.Length < SizeField(recvPool[..]) + HEADER_SIZE;
      if noSpace {
        bytes := DropMessage(Some(bodyStart + DROP_TIMEOUT_US), views, sents);
      } else {
        var m;
        bytes, m := StoreMessage(Some(bodyStart + STORE_TIMEOUT_US), views, sents);
        whole := m;
        if m.Some? {
          call := Dispatch(m.value);
        }
      }
    }

    /** Both receive calls of `mc_msg_update`. */
    method Parse(s: Scene, ghost m: Moment, ghost b: Backdrop)
      returns (noSpace: bool, call: Option<Call>, ghost feed: Feed, ghost whole: Option<RawMsg>)
      requires Ready() && Sane(State()) && Roomy(comm.side.ep, 3 * |s.views|)
      requires HonestUpdate(m, State(), s, b) && comm.Now() == Turned(m, s.first, b.first)
      modifies this`stored, recvPool, comm`side, comm`life, comm`ackBuf, comm`sendDelayUs
      modifies comm.snd, comm.snd.windows, comm.rcv, comm.rcv.windows
      modifies comm.frame`tempStored, comm.frame`stream, comm.frame.temp
      ensures Ready() && |b.sents| == |s.views|
      ensures feed == FeedOf(m, old(State()), s, b) && comm.Now() == BodyCourse(m, old(State()), s, b).now
      ensures (State(), whole) == Messages.Update(old(State()), feed)
      ensures comm.side.read == old(comm.side.read) + feed.header + feed.body
      ensures comm.side.accepted == old(comm.side.accepted)
      ensures whole.Some? ==> Dispatches(ids.Contents(), whole.value, call)
      ensures whole.None? ==> call.None?
      ensures noSpace == old(var q := TakeHeader(State(), feed.header); q.stored >= HEADER_SIZE && Oversize(q))
    {
      hide Comm.Valid;
      hide HonestRecv;
      hide RecvCourse;
      hide Turned;
      hide Roomy;
      hide FromLe;
      hide TakeHeader;
      hide DropBody;
      hide TakeBody;
      hide BodyDeadline;
      ghost var start, read0 := State(), comm.side.read;
      ghost var h := HeaderCourse(m, start, s, b);
      var rest, header := s.views, [];
      NoHeader(start);
      assert read0 + header == read0;
      if stored < HEADER_SIZE {
        header, rest := ReadHeader(Some(s.headerStart + HEADER_TIMEOUT_US), s.views, b.sents);
      } else {
        NothingReceived(comm.Now(), Some(s.headerStart + HEADER_TIMEOUT_US), s.views, b.sents);
      }
      assert h.now == comm.Now() && h.got == header && rest == s.views[h.turns..];
      ghost var sents := b.sents[h.turns..];
      feed, noSpace, call, whole := Feed(header, []), false, None, None;
      assert comm.side.read == read0 + header + [];
      ghost var q := State();
      HeaderBound(start, header);
      if stored >= HEADER_SIZE {
        var body;
        body, noSpace, call, whole := TakeMessage(s.bodyStart, rest, sents);
        feed := Feed(header, body);
      } else {
        NothingReceived(comm.Now(), BodyDeadline(q, s.bodyStart), rest, sents);
      }
    }

    /** `mc_msg_update`: one turn of the connection, then one step of the parser on what
        the connection yields, then the call to the subscriber of a completed message. */
    method Update(s: Scene, ghost b: Backdrop)
      returns (noSpace: bool, call: Option<Call>, ghost feed: Feed, ghost whole: Option<RawMsg>)
      requires Valid() && Roomy(comm.side.ep, 3 * (|s.views| + 1)) && HonestUpdate(comm.Now(), State(), s, b)
      modifies this`stored, this`diary, recvPool
      modifies comm`side, comm`life, comm`ackBuf, comm`sendDelayUs
      modifies comm.snd, comm.snd.windows, comm.rcv, comm.rcv.windows
      modifies comm.frame`tempStored, comm.frame`stream, comm.frame.temp
      ensures Valid() && |b.sents| == |s.views|
      ensures feed == FeedOf(old(comm.Now()), old(State()), s, b)
      ensures comm.Now() == BodyCourse(old(comm.Now()), old(State()), s, b).now
      ensures (State(), whole) == Messages.Update(old(State()), feed)
      ensures comm.side.accepted == old(comm.side.accepted)
      ensures whole.Some? ==> Dispatches(ids.Contents(), whole.value, call)
      ensures whole.None? ==> call.None?
      ensures noSpace == old(var q := TakeHeader(State(), feed.header); q.stored >= HEADER_SIZE && Oversize(q))
      ensures diary == Noted(old(diary), feed, whole, ids.Contents(), call)
    {
      hide Comm.Valid;
      hide Kept;
      hide Mailed;
      hide Noted;
      hide HonestUpdate;
      hide FeedOf;
      hide BodyCourse;
      hide Turned;
      hide Roomy;
      hide Messages.Update;
      hide Honest;
      hide FromLe;
      ghost var start, now, read0 := State(), comm.Now(), comm.side.read;
      ghost var room := 3 * |s.views|;
      LessRoom(comm.side.ep, room + 2, room + 3);
      FirstHonest(now, start, s, b);
      comm.Update(s.first, b.first, room);
      noSpace, call, feed, whole := Parse(s, now, b);
      UpdateKeepsSane(start, feed);
      NotedIsKept(diary, start, read0, feed, whole, ids.Contents(), call);
      diary := Noted(diary, feed, whole, ids.Contents(), call);
    }

    // ---------------------------------------------------------------- sending

    /** `mc_msg_send`, and `mc_msg_signal` when the payload is empty: header, then payload,
        each with the whole timeout. The payload is offered exactly if the header was
        accepted in time; `count` octets of the encoded message were accepted. */
    method Send(m: Msg, timeout: Option<nat>, headerStart: nat, payloadStart: nat, views: seq<View>,
                ghost sents: seq<set<Packet>>) returns (status: Status, ghost count: nat)
      requires Valid() && Roomy(comm.side.ep, 3 * |views|)
      requires HonestSendMsg(comm.Now(), m, timeout, headerStart, payloadStart, views, sents)
      modifies this`outbox, comm`side, comm`life, comm`ackBuf, comm`sendDelayUs
      modifies comm.snd, comm.snd.windows, comm.rcv.windows
      modifies comm.frame`tempStored, comm.frame`stream, comm.frame.temp
      ensures Valid() && State() == old(State()) && |sents| == |views|
      ensures MsgCourse(old(comm.Now()), m, timeout, headerStart, payloadStart, views, sents)
           == (comm.Now(), count, status)
      ensures count <= |EncodeMsg(m)| && comm.side.accepted == old(comm.side.accepted) + EncodeMsg(m)[..count]
      ensures comm.side.read == old(comm.side.read)
      ensures status == Success ==> count == |EncodeMsg(m)|
      ensures outbox == Posted(old(outbox), m, count)
    {
      hide Comm.Valid;
      hide HonestSend;
      hide HonestSendMsg;
      hide MsgCourse;
      hide SendCourse;
      hide Roomy;
      hide FromLe;
      hide EncodeMsg;
      hide EncodeHeader;
      hide Kept;
      hide Mailed;
      hide Posted;
      hide Until;
      ghost var before, was := comm.side.accepted, comm.Now();
      var header := EncodeHeader(m);
      HeaderThenPayload(m, header);
      HonestHeader(was, m, timeout, headerStart, payloadStart, views, sents);
      ghost var h := WholeSend(was, header, Until(timeout, headerStart), views, sents);
      var n, rest;
      n, status, rest := comm.Send(header, Until(timeout, headerStart), views, sents);
      assert h == Course(comm.Now(), n, status, |views| - |rest|);
      count := n;
      PartOfHeader(m, header, n);
      if status == Success {
        HonestPayload(was, m, timeout, headerStart, payloadStart, views, sents);
        var k;
        k, status, rest := comm.Send(m.payload, Until(timeout, payloadStart), rest, sents[h.turns..]);
        HeaderAndPart(before, m, header, k);
        count := HEADER_SIZE + k;
      } else {
        HeaderOnly(was, m, timeout, headerStart, payloadStart, views, sents);
      }
      PostedIsMailed(outbox, before, m, count);
      outbox := Posted(outbox, m, count);
    }
  }

  /** `pkt_hdr`. */
  function EncodeHeader(m: Msg): (h: seq<byte>)
    ensures |h| == HEADER_SIZE
  {
    ToLe(|m.payload|, U16) + ToLe(m.id, U16)
  }

  lemma HeaderThenPayload(m: Msg, header: seq<byte>)
    requires header == EncodeHeader(m)
    ensures EncodeMsg(m) == header + m.payload && |EncodeMsg(m)| == HEADER_SIZE + |m.payload|
  {
  }

  lemma PartOfHeader(m: Msg, header: seq<byte>, n: nat)
    requires header == EncodeHeader(m) && n <= HEADER_SIZE
    ensures EncodeMsg(m)[..n] == header[..n]
  {
    HeaderThenPayload(m, header);
  }

  lemma HeaderAndPart(before: seq<byte>, m: Msg, header: seq<byte>, k: nat)
    requires header == EncodeHeader(m) && k <= |m.payload|
    ensures before + header[..HEADER_SIZE] + m.payload[..k] == before + EncodeMsg(m)[..HEADER_SIZE + k]
  {
    HeaderThenPayload(m, header);
    assert EncodeMsg(m)[..HEADER_SIZE + k] == header[..HEADER_SIZE] + m.payload[..k];
  }

  lemma NoHeader(p: Parser)
    requires |p.pool| >= HEADER_SIZE
    ensures TakeHeader(p, []) == p
  {
  }

  lemma HeaderBound(p: Parser, bytes: seq<byte>)
    requires Sane(p) && |bytes| <= WantsHeader(p)
    ensures var q := TakeHeader(p, bytes);
      q.stored >= HEADER_SIZE ==> q.stored <= Expected(q) && (Oversize(q) ==> q.stored < Expected(q))
  {
  }

  lemma OverwriteNothing(pool: seq<byte>, at: nat, bytes: seq<byte>)
    requires at + |bytes| <= |pool|
    ensures bytes == [] ==> Overwrite(pool, at, bytes) == pool
  {
  }

  lemma PresentIsSubscribed(table: seq<IdNode>, n: IdNode)
    ensures Present(IdRank(), table, n) <==> Subscribed(table, n.id)
  {
  }
}
