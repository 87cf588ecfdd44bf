/** What a read yields: how much, and which octets; and a receive call for octets that are
    already there (src/io/communication/mc_window_pool.c:146-167). */
module Reading {
  import opened Bytes
  import opened Seqs
  import opened Packets
  import opened WindowRing
  import opened Protocol
  import opened Invariant
  import opened Safety
  import opened Delivery
  import opened Communication

  /** How many octets of the first window are still to be handed over. */
  function FirstRest(r: Ring): nat {
    if IsFirstAcked(r) then Max(r.wnd[0].packet.size - r.stored, 0) else 0
  }

  lemma {:induction false} BacklogSnoc(ws: seq<Window>, w: Window)
    requires !Done(w)
    ensures Backlog(ws + [w]) == Backlog(ws)
    decreases |ws|
  {
    if ws == [] {
      assert [] + [w] == [w];
    } else {
      assert (ws + [w])[0] == ws[0] && (ws + [w])[1..] == ws[1..] + [w];
      BacklogSnoc(ws[1..], w);
    }
  }

  /** What is pending, the first window apart. */
  lemma PendingSplits(x: Side, y: Side)
    requires LinkInv(x, y) && IsFirstAcked(y.ep.rcv)
    ensures var r := y.ep.rcv;
      && r.stored < r.wnd[0].packet.size
      && Pending(r) == Carried(r.wnd[0].packet)[r.stored..] + Backlog(r.wnd[1..])
  {
    hide Sound;
    hide SenderInv;
    var r := y.ep.rcv;
    SenderSendsData(x, y);
    LogIsSized(x, y);
    FirstIsLogged(r, x.wire, x.log, y.read);
    var bytes := Carried(r.wnd[0].packet);
    assert Backlog(r.wnd) == bytes + Backlog(r.wnd[1..]);
  }

  /** A read of `n > 0` octets yields nothing if and only if nothing is pending, and otherwise
      the first octets pending: as many as were asked for, or all that is left of the first
      window. The rest stays pending. */
  lemma ReadYields(x: Side, y: Side, n: nat)
    requires LinkInv(x, y)
    ensures var r, (r', bytes) := y.ep.rcv, Read(y.ep.rcv, n);
      && FirstRest(r) <= |Pending(r)| && (FirstRest(r) == 0 <==> Pending(r) == [])
      && bytes == Pending(r)[..Min(n, FirstRest(r))]
      && Pending(r) == bytes + Pending(r')
  {
    hide LinkInv;
    var r := y.ep.rcv;
    if IsFirstAcked(r) {
      PendingSplits(x, y);
      var (r', bytes) := Read(r, n);
      var first, rest := Carried(r.wnd[0].packet), Backlog(r.wnd[1..]);
      if r.stored + n >= |first| {
        assert r'.wnd == r.wnd[1..] + [r.wnd[0].Clear()];
        BacklogSnoc(r.wnd[1..], r.wnd[0].Clear());
        assert bytes == first[r.stored..];
      } else {
        assert Backlog(r.wnd) == first + rest;
        assert bytes == (first[r.stored..] + rest)[..n];
      }
    }
  }

  /** Each read that takes all there is of the first window leaves one stored window less. */
  lemma ReadShortens(x: Side, y: Side, n: nat)
    requires LinkInv(x, y) && IsFirstAcked(y.ep.rcv) && n >= FirstRest(y.ep.rcv)
    ensures DonePrefix(Read(y.ep.rcv, n).0.wnd) == DonePrefix(y.ep.rcv.wnd) - 1
  {
    hide LinkInv;
    var r := y.ep.rcv;
    PendingSplits(x, y);
    var r' := Read(r, n).0;
    assert r'.wnd == r.wnd[1..] + [r.wnd[0].Clear()];
    PrefixSnoc(r.wnd[1..], r.wnd[0].Clear());
  }

  lemma {:induction false} PrefixSnoc(ws: seq<Window>, w: Window)
    requires !Done(w)
    ensures DonePrefix(ws + [w]) == DonePrefix(ws)
    decreases |ws|
  {
    if ws == [] {
      assert [] + [w] == [w];
    } else {
      assert (ws + [w])[0] == ws[0] && (ws + [w])[1..] == ws[1..] + [w];
      PrefixSnoc(ws[1..], w);
    }
  }

  // ------------------------------------------------------------------ the first turn of a receive call

  /** A receive call is its first turn and then a call for what is still missing. */
  lemma {:induction false} RecvCons(m: Moment, size: nat, deadline: Option<nat>, t: View, sent: set<Packet>,
                                    views: seq<View>, sents: seq<set<Packet>>, k: nat)
    requires |sents| == |views| && k <= |views| && size > 0 && !Late(deadline, t.now)
    ensures var first := RecvTurn(Course(m, [], Watching, 0), size, deadline, t, sent);
      |first.got| <= size ==>
        var c := RecvCourse(m, size, deadline, [t] + views, [sent] + sents, k + 1);
        var d := RecvCourse(first.now, size - |first.got|, deadline, views, sents, k);
        c.now == d.now && c.got == first.got + d.got && c.status == d.status && c.turns == 1 + d.turns
    decreases k
  {
    hide RecvTurn, RecvCourse;
    var all, from := [t] + views, [sent] + sents;
    if k == 0 {
      RecvFirst(m, size, deadline, all, from);
      RecvStep(m, size, deadline, all, from, 0);
      FirstOfTurn(m, size, deadline, t, sent);
      RecvZero(RecvTurn(Course(m, [], Watching, 0), size, deadline, t, sent), size, deadline, views, sents);
      assert all[0] == t && from[0] == sent;
      var first := RecvTurn(Course(m, [], Watching, 0), size, deadline, t, sent);
      assert first.got + [] == first.got;
    } else {
      RecvCons(m, size, deadline, t, sent, views, sents, k - 1);
      assert all[k] == views[k - 1] && from[k] == sents[k - 1];
      var first := RecvTurn(Course(m, [], Watching, 0), size, deadline, t, sent);
      RecvStep(m, size, deadline, all, from, k);
      if |first.got| <= size {
        RecvStep(first.now, size - |first.got|, deadline, views, sents, k - 1);
        var c := RecvCourse(m, size, deadline, all, from, k);
        var d := RecvCourse(first.now, size - |first.got|, deadline, views, sents, k - 1);
        ShiftedTurn(c, d, first.got, size, deadline, views[k - 1], sents[k - 1]);
      }
    }
  }

  lemma FirstOfTurn(m: Moment, size: nat, deadline: Option<nat>, t: View, sent: set<Packet>)
    requires size > 0 && !Late(deadline, t.now)
    ensures var c := RecvTurn(Course(m, [], Watching, 0), size, deadline, t, sent);
      c.turns == 1 && c.status == if |c.got| == size then Success else Watching
  {
  }

  lemma RecvZero(c: Course<seq<byte>>, size: nat, deadline: Option<nat>, views: seq<View>, sents: seq<set<Packet>>)
    requires |sents| == |views|
    ensures |c.got| <= size ==>
      RecvCourse(c.now, size - |c.got|, deadline, views, sents, 0)
      == Course(c.now, [], if size == |c.got| then Success else Watching, 0)
  {
  }

  lemma RecvStep(m: Moment, size: nat, deadline: Option<nat>, views: seq<View>, sents: seq<set<Packet>>, k: nat)
    requires |sents| == |views| && k < |views|
    ensures RecvCourse(m, size, deadline, views, sents, k + 1)
         == RecvTurn(RecvCourse(m, size, deadline, views, sents, k), size, deadline, views[k], sents[k])
  {
    hide RecvTurn;
  }

  lemma RecvFirst(m: Moment, size: nat, deadline: Option<nat>, views: seq<View>, sents: seq<set<Packet>>)
    requires |sents| == |views| && size > 0
    ensures RecvCourse(m, size, deadline, views, sents, 0) == Course(m, [], Watching, 0)
  {
  }

  /** A turn depends on what is missing, not on what there is already. */
  lemma ShiftedTurn(c: Course<seq<byte>>, d: Course<seq<byte>>, got: seq<byte>, size: nat, deadline: Option<nat>,
                    t: View, sent: set<Packet>)
    requires |got| <= size && c.now == d.now && c.got == got + d.got && c.status == d.status && c.turns == 1 + d.turns
    ensures var c', d' := RecvTurn(c, size, deadline, t, sent), RecvTurn(d, size - |got|, deadline, t, sent);
      c'.now == d'.now && c'.got == got + d'.got && c'.status == d'.status && c'.turns == 1 + d'.turns
  {
    hide Turned, Acted, Read;
    if c.status.Watching? && |c.got| < size && !Late(deadline, t.now) {
      var bytes := Read(c.now.side.ep.rcv, size - |c.got|).1;
      assert size - |c.got| == size - |got| - |d.got|;
      assert got + d.got + bytes == got + (d.got + bytes);
    }
  }

  // ------------------------------------------------------------------ receiving what is there

  lemma RecvActs(x: Side, y: Side, n: nat)
    requires LinkInv(x, y) && NoAcks(y.ep.snd)
    ensures var y' := Step(y, Recv(n));
      && LinkInv(x, y') && NoAcks(y'.ep.snd) && y'.ep.rcv == Read(y.ep.rcv, n).0
  {
    hide LinkInv, Read, NoAcks;
    ReceiverStep(x, y, Recv(n));
  }

  /** A receive call that asks for no more than is pending gets it, within as many turns as
      windows are stored in order, whatever the transport shows, if it is in time. */
  lemma {:induction false} RecvOfPending(x: Side, m: Moment, size: nat, deadline: Option<nat>,
                                         views: seq<View>, sents: seq<set<Packet>>)
    requires LinkInv(x, m.side) && NoAcks(m.side.ep.snd) && |sents| == |views|
    requires size <= |Pending(m.side.ep.rcv)| && DonePrefix(m.side.ep.rcv.wnd) <= |views|
    requires forall i :: 0 <= i < |views| ==> !Late(deadline, views[i].now)
    ensures var c := RecvCourse(m, size, deadline, views, sents, |views|);
      && c.status.Success? && c.got == Pending(m.side.ep.rcv)[..size]
      && Pending(c.now.side.ep.rcv) == Pending(m.side.ep.rcv)[size..]
      && LinkInv(x, c.now.side) && NoAcks(c.now.side.ep.snd)
      && c.turns + DonePrefix(c.now.side.ep.rcv.wnd) <= DonePrefix(m.side.ep.rcv.wnd) + (if size == 0 then 0 else 1)
    decreases |views|
  {
    hide LinkInv, Turned, Read, NoAcks, Pending, RecvCourse, FirstRest, DonePrefix, IsFirstAcked, Late;
    var r := m.side.ep.rcv;
    if size == 0 {
      ZeroCourse(m, deadline, views, sents);
    } else {
      ReadYields(x, m.side, size);
      PendingIsFirst(r);
      PrefixStarts(r);
      var t, sent := views[0], sents[0];
      assert views == [t] + views[1..] && sents == [sent] + sents[1..];
      var first := RecvTurn(Course(m, [], Watching, 0), size, deadline, t, sent);
      var bytes := Read(r, size).1;
      RecvActs(x, m.side, size);
      assert first.got == [] + bytes == bytes && first.now.side == Step(m.side, Recv(size));
      RecvCons(m, size, deadline, t, sent, views[1..], sents[1..], |views| - 1);
      RecvShortens(x, m.side, size);
      if |bytes| < size {
        RecvOfPending(x, first.now, size - |bytes|, deadline, views[1..], sents[1..]);
        var all := Pending(r);
        assert all[..|bytes|] + all[|bytes|..][..size - |bytes|] == all[..size];
      } else {
        ZeroCourse(first.now, deadline, views[1..], sents[1..]);
      }
    }
  }

  lemma RecvShortens(x: Side, y: Side, n: nat)
    requires LinkInv(x, y) && IsFirstAcked(y.ep.rcv)
    ensures var d, d' := DonePrefix(y.ep.rcv.wnd), DonePrefix(Read(y.ep.rcv, n).0.wnd);
      d' == if n >= FirstRest(y.ep.rcv) then d - 1 else d
  {
    hide LinkInv;
    if n >= FirstRest(y.ep.rcv) {
      ReadShortens(x, y, n);
    } else {
      PendingSplits(x, y);
    }
  }

  lemma PendingIsFirst(r: Ring)
    ensures Pending(r) != [] ==> IsFirstAcked(r)
    ensures FirstRest(r) > 0 ==> IsFirstAcked(r)
  {
  }

  lemma PrefixStarts(r: Ring)
    requires IsFirstAcked(r)
    ensures DonePrefix(r.wnd) > 0
  {
  }

  lemma ZeroCourse(m: Moment, deadline: Option<nat>, views: seq<View>, sents: seq<set<Packet>>)
    requires |sents| == |views|
    ensures RecvCourse(m, 0, deadline, views, sents, |views|) == Course(m, [], Success, 0)
  {
    RecvSettled(m, 0, deadline, views, sents, 0, |views|);
  }
}
