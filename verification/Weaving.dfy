/** One end's own steps, woven into what the other end does meanwhile. A call that blocks
    is a sequence of steps between which the peer acts; the results about all runs are
    carried over to every such sequence. */
module Weaving {
  import opened Packets
  import opened WindowRing
  import opened Protocol
  import opened Delivery

  /** A step of an end, with what its peer had sent by then. */
  datatype Deed = Deed(act: Action, sent: set<Packet>)

  /** The deeds can be done one after the other from `s` on. */
  ghost predicate Acts(s: Side, ds: seq<Deed>)
    decreases |ds|
  {
    ds == [] || (
      Allowed(s.ep, ds[0].sent, ds[0].act) &&
      (AllowedEnabled(s.ep, ds[0].sent, ds[0].act); Acts(Step(s, ds[0].act), ds[1..])))
  }

  ghost function Steps(s: Side, ds: seq<Deed>): Side
    requires Acts(s, ds)
    decreases |ds|
  {
    if ds == [] then s
    else
      AllowedEnabled(s.ep, ds[0].sent, ds[0].act);
      Steps(Step(s, ds[0].act), ds[1..])
  }

  lemma {:induction false} ActsSnoc(s: Side, ds: seq<Deed>, d: Deed)
    requires Acts(s, ds) && Allowed(Steps(s, ds).ep, d.sent, d.act)
    ensures Acts(s, ds + [d]) && Enabled(Steps(s, ds).ep, d.act)
    ensures Steps(s, ds + [d]) == Step(Steps(s, ds), d.act)
    decreases |ds|
  {
    hide Allowed;
    hide Step;
    if ds == [] {
      assert [] + [d] == [d] && [d][1..] == [];
      AllowedEnabled(s.ep, d.sent, d.act);
    } else {
      AllowedEnabled(s.ep, ds[0].sent, ds[0].act);
      assert (ds + [d])[0] == ds[0] && (ds + [d])[1..] == ds[1..] + [d];
      ActsSnoc(Step(s, ds[0].act), ds[1..], d);
    }
  }

  lemma {:induction false} ActsConcat(s: Side, x: seq<Deed>, y: seq<Deed>)
    requires Acts(s, x) && Acts(Steps(s, x), y)
    ensures Acts(s, x + y) && Steps(s, x + y) == Steps(Steps(s, x), y)
    decreases |x|
  {
    hide Allowed;
    hide Step;
    if x == [] {
      assert x + y == y;
    } else {
      AllowedEnabled(s.ep, x[0].sent, x[0].act);
      assert (x + y)[0] == x[0] && (x + y)[1..] == x[1..] + y;
      ActsConcat(Step(s, x[0].act), x[1..], y);
    }
  }

  // ------------------------------------------------------------------ weaving

  predicate OnlyB(evs: seq<Event>) {
    forall i :: 0 <= i < |evs| ==> evs[i].B?
  }

  /** The deeds of `a` in order, with `gaps[i]` between them: what `b` does before deed `i`,
      and, at the end, after the last. */
  function Weave(ds: seq<Deed>, gaps: seq<seq<Event>>): seq<Event>
    requires |gaps| == |ds| + 1
    decreases |ds|
  {
    if ds == [] then gaps[0] else gaps[0] + ([A(ds[0].act)] + Weave(ds[1..], gaps[1..]))
  }

  /** In the gaps `b` does anything it is allowed to; a frame that a deed of `a` takes in
      was sent by `b` before. */
  ghost predicate Woven(w: World, ds: seq<Deed>, gaps: seq<seq<Event>>)
    requires |gaps| == |ds| + 1
    decreases |ds|
  {
    && OnlyB(gaps[0]) && IsRun(w, gaps[0])
    && (ds == [] || (
      var v, ev := After(w, gaps[0]), A(ds[0].act);
      && (ds[0].act.Deliver? ==> ds[0].sent <= v.b.wire)
      && (CanStep(v, ev) ==> Woven(Next(v, ev), ds[1..], gaps[1..]))))
  }

  /** What `a` does in a run. */
  function ByA(evs: seq<Event>): seq<Action> {
    if evs == [] then [] else (if evs[0].A? then [evs[0].act] else []) + ByA(evs[1..])
  }

  function ActsOf(ds: seq<Deed>): seq<Action> {
    if ds == [] then [] else [ds[0].act] + ActsOf(ds[1..])
  }

  lemma {:induction false} ByAConcat(x: seq<Event>, y: seq<Event>)
    ensures ByA(x + y) == ByA(x) + ByA(y)
    decreases |x|
  {
    if x == [] {
      assert x + y == y;
    } else {
      assert (x + y)[0] == x[0] && (x + y)[1..] == x[1..] + y;
      ByAConcat(x[1..], y);
    }
  }

  lemma {:induction false} OnlyBKeepsA(w: World, evs: seq<Event>)
    requires OnlyB(evs) && IsRun(w, evs)
    ensures After(w, evs).a == w.a && NoWrap(After(w, evs)) && ByA(evs) == []
    decreases |evs|
  {
    hide Allowed;
    hide Step;
    hide NoWrap;
    if evs != [] {
      forall i | 0 <= i < |evs[1..]|
        ensures evs[1..][i].B?
      {
        assert evs[1..][i] == evs[i + 1];
      }
      OnlyBKeepsA(Next(w, evs[0]), evs[1..]);
    }
  }

  lemma MoreAllowed(e: Endpoint, sent: set<Packet>, more: set<Packet>, act: Action)
    requires Allowed(e, sent, act) && (act.Deliver? ==> sent <= more)
    ensures Allowed(e, more, act)
  {
    hide Encode;
  }

  /** Whatever the peer does in between, what an end does by itself is its part of a run
      of the whole, and leads to the same state of that end. */
  lemma {:induction false} WovenIsRun(w: World, ds: seq<Deed>, gaps: seq<seq<Event>>)
    requires Acts(w.a, ds) && |gaps| == |ds| + 1 && Woven(w, ds, gaps)
    ensures IsRun(w, Weave(ds, gaps)) && After(w, Weave(ds, gaps)).a == Steps(w.a, ds)
    ensures ByA(Weave(ds, gaps)) == ActsOf(ds)
    decreases |ds|
  {
    hide Allowed;
    hide Step;
    hide NoWrap;
    hide IsRun;
    hide After;
    OnlyBKeepsA(w, gaps[0]);
    if ds != [] {
      var v, ev := After(w, gaps[0]), A(ds[0].act);
      MoreAllowed(v.a.ep, ds[0].sent, v.b.wire, ds[0].act);
      AllowedEnabled(v.a.ep, v.b.wire, ds[0].act);
      var rest := Weave(ds[1..], gaps[1..]);
      WovenIsRun(Next(v, ev), ds[1..], gaps[1..]);
      RunCons(v, ev, rest);
      RunConcat(w, gaps[0], [ev] + rest);
      ByAConcat(gaps[0], [ev] + rest);
      assert ([ev] + rest)[1..] == rest;
    }
  }

  /** One deed more in front. */
  lemma WovenCons(w: World, gap: seq<Event>, d: Deed, ds: seq<Deed>, gaps: seq<seq<Event>>)
    requires OnlyB(gap) && IsRun(w, gap) && |gaps| == |ds| + 1
    requires var v := After(w, gap);
      && (d.act.Deliver? ==> d.sent <= v.b.wire)
      && CanStep(v, A(d.act)) && Woven(Next(v, A(d.act)), ds, gaps)
    ensures Woven(w, [d] + ds, [gap] + gaps)
  {
    hide CanStep, Next, IsRun, After;
    assert ([d] + ds)[1..] == ds && ([gap] + gaps)[1..] == gaps;
  }

  /** A woven use can be interrupted anywhere: after its first deeds the world is `v`, from
      which the rest is woven. */
  lemma {:induction false} WovenSplits(w: World, x: seq<Deed>, y: seq<Deed>, gaps: seq<seq<Event>>)
    returns (evs: seq<Event>, rest: seq<seq<Event>>)
    requires Acts(w.a, x + y) && |gaps| == |x + y| + 1 && Woven(w, x + y, gaps)
    ensures IsRun(w, evs) && Acts(w.a, x) && After(w, evs).a == Steps(w.a, x)
    ensures Acts(After(w, evs).a, y) && |rest| == |y| + 1 && Woven(After(w, evs), y, rest)
    ensures Steps(w.a, x + y) == Steps(After(w, evs).a, y)
    decreases |x|
  {
    hide Allowed, Step, NoWrap, IsRun, After;
    if x == [] {
      assert x + y == y;
      RunNow(w, gaps[0]);
      evs, rest := [], gaps;
    } else {
      assert (x + y)[0] == x[0] && (x + y)[1..] == x[1..] + y;
      OnlyBKeepsA(w, gaps[0]);
      var v, ev := After(w, gaps[0]), A(x[0].act);
      MoreAllowed(v.a.ep, x[0].sent, v.b.wire, x[0].act);
      AllowedEnabled(v.a.ep, v.b.wire, x[0].act);
      var more;
      more, rest := WovenSplits(Next(v, ev), x[1..], y, gaps[1..]);
      RunCons(v, ev, more);
      RunConcat(w, gaps[0], [ev] + more);
      evs := gaps[0] + ([ev] + more);
    }
  }

  lemma RunNow(w: World, evs: seq<Event>)
    requires IsRun(w, evs)
    ensures IsRun(w, []) && After(w, []) == w
  {
  }

  // ------------------------------------------------------------------ two ends, both with their deeds

  /** The deeds of `a` and `b` in the order given, `true` for a turn of `a`; a frame that
      one takes in was sent by the other before. */
  ghost predicate Interleaved(w: World, da: seq<Deed>, db: seq<Deed>, order: seq<bool>)
    decreases |order|
  {
    && NoWrap(w)
    && if order == [] then da == [] && db == []
       else if order[0] then
         var ev := A(if da != [] then da[0].act else Recv(0));
         && da != [] && (da[0].act.Deliver? ==> da[0].sent <= w.b.wire)
         && (CanStep(w, ev) ==> Interleaved(Next(w, ev), da[1..], db, order[1..]))
       else
         var ev := B(if db != [] then db[0].act else Recv(0));
         && db != [] && (db[0].act.Deliver? ==> db[0].sent <= w.a.wire)
         && (CanStep(w, ev) ==> Interleaved(Next(w, ev), da, db[1..], order[1..]))
  }

  function Merge(da: seq<Deed>, db: seq<Deed>, order: seq<bool>): seq<Event>
    decreases |order|
  {
    if order == [] || (if order[0] then da else db) == [] then []
    else if order[0] then [A(da[0].act)] + Merge(da[1..], db, order[1..])
    else [B(db[0].act)] + Merge(da, db[1..], order[1..])
  }

  /** Two lives that interleave are a run in which each end does what it did. */
  lemma {:induction false} InterleavedIsRun(w: World, da: seq<Deed>, db: seq<Deed>, order: seq<bool>)
    requires Acts(w.a, da) && Acts(w.b, db) && Interleaved(w, da, db, order)
    ensures IsRun(w, Merge(da, db, order))
    ensures var u := After(w, Merge(da, db, order)); u.a == Steps(w.a, da) && u.b == Steps(w.b, db)
    decreases |order|
  {
    hide Allowed, Step, NoWrap, IsRun, After;
    if order == [] {
      RunNil(w);
    } else if order[0] {
      var ev := A(da[0].act);
      MoreAllowed(w.a.ep, da[0].sent, w.b.wire, da[0].act);
      AllowedEnabled(w.a.ep, w.b.wire, da[0].act);
      InterleavedIsRun(Next(w, ev), da[1..], db, order[1..]);
      RunCons(w, ev, Merge(da[1..], db, order[1..]));
    } else {
      var ev := B(db[0].act);
      MoreAllowed(w.b.ep, db[0].sent, w.a.wire, db[0].act);
      AllowedEnabled(w.b.ep, w.a.wire, db[0].act);
      InterleavedIsRun(Next(w, ev), da, db[1..], order[1..]);
      RunCons(w, ev, Merge(da, db[1..], order[1..]));
    }
  }

  // ------------------------------------------------------------------ what carries over

  /** In-order delivery, for every use of one end, whatever its peer does meanwhile. */
  lemma WovenDelivery(w: World, ds: seq<Deed>, gaps: seq<seq<Event>>)
    requires Initial(w) && Acts(w.a, ds) && |gaps| == |ds| + 1 && Woven(w, ds, gaps)
    ensures IsRun(w, Weave(ds, gaps))
    ensures var a, b := Steps(w.a, ds), After(w, Weave(ds, gaps)).b;
      a.read <= b.accepted && b.read <= a.accepted
  {
    hide IsRun;
    hide After;
    hide Initial;
    WovenIsRun(w, ds, gaps);
    ExactlyOnceInOrder(w, Weave(ds, gaps));
  }

  /** What it means that an end finds both its pools empty, as a flush that succeeds does. */
  lemma WovenFlushMeaning(w: World, ds: seq<Deed>, gaps: seq<seq<Event>>)
    requires Initial(w) && Acts(w.a, ds) && |gaps| == |ds| + 1 && Woven(w, ds, gaps)
    requires var a := Steps(w.a, ds).ep; IsEmpty(a.snd) && IsEmpty(a.rcv)
    ensures IsRun(w, Weave(ds, gaps))
    ensures var a, b := Steps(w.a, ds), After(w, Weave(ds, gaps)).b;
      b.read + Pending(b.ep.rcv) == a.accepted && Pending(a.ep.rcv) == []
  {
    hide IsRun;
    hide After;
    hide Initial;
    hide Pending;
    WovenIsRun(w, ds, gaps);
    FlushMeaning(w, Weave(ds, gaps));
  }
}
