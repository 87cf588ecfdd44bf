/** The window pool as the program keeps it: an array of slots used as a ring, and
    counters (src/io/communication/mc_window_pool.c). Every method is proved against the
    operation of the same name on the ring's value. */
module WindowPool {
  import opened Bytes
  import opened Seqs
  import opened Crc16
  import opened Frame
  import opened Packets
  import opened WindowRing
  import opened Invariant

  // ------------------------------------------------------------------ slots and ids

  lemma MulMono(a: nat, b: nat, n: nat)
    requires a <= b
    ensures a * n <= b * n
  {
  }

  lemma ModUnique(x: nat, n: nat, q: nat, r: nat)
    requires n > 0 && x == q * n + r && r < n
    ensures x % n == r
  {
    var q', r' := x / n, x % n;
    assert x == q' * n + r';
    if q' < q {
      MulMono(q' + 1, q, n);
    } else if q < q' {
      MulMono(q + 1, q', n);
    }
  }

  /** Going `k < n` places on from a slot wraps at most once. */
  lemma ModAdd(x: nat, k: nat, n: nat)
    requires k <= n && n > 0
    ensures (x + k) % n == (if x % n + k < n then x % n + k else x % n + k - n)
  {
    var q, b := x / n, x % n;
    assert x == q * n + b;
    if b + k < n {
      ModUnique(x + k, n, q, b + k);
    } else {
      assert (q + 1) * n == q * n + n;
      ModUnique(x + k, n, q + 1, b + k - n);
    }
  }

  lemma NextIndex(id: nat, index: nat, n: nat)
    requires n > 0 && index == id % n
    ensures (index + 1) % n == (id + 1) % n == if index + 1 < n then index + 1 else 0
  {
    ModAdd(id, 1, n);
    ModUnique(index, n, 0, index);
    ModAdd(index, 1, n);
  }

  const UINT32: nat := 0x1_0000_0000

  /** `get_index`, in the program's 32-bit arithmetic. */
  function IndexOf(bgnId: nat, id: nat, capacity: nat): nat
    requires capacity > 0
  {
    var dif := (id - bgnId) % 0x1_0000_0000;
    var dif' := if id < bgnId then (dif + capacity) % 0x1_0000_0000 else dif;
    (bgnId + dif') % 0x1_0000_0000 % capacity
  }

  /** It is right for ids on either side of the first one. */
  lemma IndexIsModulo(bgnId: nat, id: nat, capacity: nat)
    requires 0 < capacity && bgnId + capacity < UINT32 && id < UINT32
    ensures IndexOf(bgnId, id, capacity) == id % capacity
  {
    IndexBeforeModulo(bgnId, id, capacity);
    if id < bgnId {
      ModAdd(id, capacity, capacity);
    }
  }

  lemma IndexBeforeModulo(bgnId: nat, id: nat, capacity: nat)
    requires 0 < capacity && bgnId + capacity < UINT32 && id < UINT32
    ensures
      var dif := (id - bgnId) % 0x1_0000_0000;
      var dif' := if id < bgnId then (dif + capacity) % 0x1_0000_0000 else dif;
      (bgnId + dif') % 0x1_0000_0000 == if id < bgnId then id + capacity else id
  {
  }

  function Rotate<T>(s: seq<T>, b: nat): seq<T>
    requires b <= |s|
  {
    s[b..] + s[..b]
  }

  lemma RotateOn<T>(s: seq<T>, b: nat, x: T)
    requires b < |s|
    ensures Rotate(s[b := x], if b + 1 < |s| then b + 1 else 0) == Rotate(s, b)[1..] + [x]
  {
  }

  class WindowPool {
    const windowSize: nat
    const capacity: nat
    const windows: array<Window>
    var updateTimeMs: nat
    var bgnId: nat
    var endId: nat
    var storedSize: nat
    var bgnIndex: nat

    /** The slot `k` places after the first one. */
    function Slot(k: nat): nat
      reads this`bgnIndex
    {
      if bgnIndex + k < capacity then bgnIndex + k else bgnIndex + k - capacity
    }

    ghost function Slots(): (s: seq<Window>)
      requires windows.Length == capacity && bgnIndex < capacity
      reads this`bgnIndex, windows
      ensures |s| == capacity
      ensures forall k :: 0 <= k < capacity ==> s[k] == windows[Slot(k)]
    {
      Rotate(windows[..], bgnIndex)
    }

    ghost predicate Valid()
      reads this, windows
    {
      && PACKET_SIZE < windowSize < 0x1_0000
      && 0 < capacity < 256
      && windows.Length == capacity
      && bgnIndex < capacity
      && bgnIndex == bgnId % capacity
      && endId + capacity < INVALID_ID
      && Shaped(Value())
    }

    ghost function Value(): RawRing
      requires windows.Length == capacity && bgnIndex < capacity && windowSize >= PACKET_SIZE
      reads this, windows
    {
      Ring(windowSize - PACKET_SIZE, bgnId, endId, storedSize, updateTimeMs, Slots())
    }

    /** The ring this pool represents. */
    ghost function State(): Ring
      requires Valid()
      reads this, windows
    {
      Value()
    }

    /** `wndpool_init`: the cursor and the clock are left as the memory has them. */
    constructor (windowSize: nat, memory: array<Window>, storedSize: nat, updateTimeMs: nat)
      requires PACKET_SIZE < windowSize < 0x1_0000 && 0 < memory.Length < 256
      requires forall i :: 0 <= i < memory.Length ==> |memory[i].packet.data| == windowSize - PACKET_SIZE
      modifies memory
      ensures Valid() && this.windowSize == windowSize && windows == memory && capacity == memory.Length
      ensures State() == Ring(windowSize - PACKET_SIZE, 0, 0, storedSize, updateTimeMs, Cleared(old(memory[..])))
    {
      this.windowSize := windowSize;
      this.capacity := memory.Length;
      this.windows := memory;
      this.storedSize := storedSize;
      this.updateTimeMs := updateTimeMs;
      bgnId, endId, bgnIndex := 0, 0, 0;
      new;
      Clear();
    }

    /** `wndpool_clear`. */
    method Clear()
      requires windows.Length == capacity
      requires PACKET_SIZE < windowSize < 0x1_0000 && 0 < capacity < 256
      requires forall i :: 0 <= i < windows.Length ==> |windows[i].packet.data| == windowSize - PACKET_SIZE
      modifies this`bgnId, this`endId, this`bgnIndex, windows
      ensures Valid()
      ensures State() == Ring(windowSize - PACKET_SIZE, 0, 0, storedSize, updateTimeMs, Cleared(old(windows[..])))
    {
      var index := capacity;
      while index != 0
        invariant 0 <= index <= capacity
        invariant forall i :: 0 <= i < index ==> windows[i] == old(windows[i])
        invariant forall i :: index <= i < capacity ==> windows[i] == old(windows[i]).Clear()
        modifies windows
      {
        index := index - 1;
        windows[index] := windows[index].Clear();
      }
      bgnId, endId, bgnIndex := 0, 0, 0;
      AllCleared(old(windows[..]));
    }

    lemma AllCleared(was: seq<Window>)
      requires windows.Length == capacity == |was| && bgnId == endId == bgnIndex == 0
      requires PACKET_SIZE < windowSize < 0x1_0000 && 0 < capacity < 256
      requires forall i :: 0 <= i < capacity ==> |was[i].packet.data| == windowSize - PACKET_SIZE
      requires forall i :: 0 <= i < capacity ==> windows[i] == was[i].Clear()
      ensures Valid()
      ensures State() == Ring(windowSize - PACKET_SIZE, 0, 0, storedSize, updateTimeMs, Cleared(was))
    {
      assert windows[..] == Cleared(was);
      assert Slots() == Cleared(was);
      forall w | w in Cleared(was)
        ensures |w.packet.data| == windowSize - PACKET_SIZE
      {
        var i :| 0 <= i < |was| && w == Cleared(was)[i];
      }
    }

    /** `get_index`: the slot of an id, found without walking the ring. */
    function GetIndex(id: nat): (index: nat)
      requires Valid() && id < UINT32
      reads this, windows
      ensures index == id % capacity < capacity
      ensures Contains(State(), id) ==> index == Slot(id - bgnId)
    {
      IndexIsModulo(bgnId, id, capacity);
      SlotIsModulo(id);
      IndexOf(bgnId, id, capacity)
    }

    lemma SlotIsModulo(id: nat)
      requires Valid()
      ensures Contains(State(), id) ==> id % capacity == Slot(id - bgnId)
    {
      if Contains(State(), id) {
        ModAdd(bgnId, id - bgnId, capacity);
      }
    }

    predicate ContainsId(id: nat)
      requires Valid()
      reads this, windows
      ensures ContainsId(id) == Contains(State(), id)
    {
      bgnId <= id < bgnId + capacity
    }

    function Get(id: nat): (w: Window)
      requires Valid() && id < UINT32
      reads this, windows
      ensures Contains(State(), id) ==> w == At(State(), id)
    {
      windows[GetIndex(id)]
    }

    function GetLast(): (w: Window)
      requires Valid()
      reads this, windows
      ensures w == Last(State())
    {
      Get(endId)
    }

    /** The count in its 8-bit field. */
    function GetCount(): (n: nat)
      requires Valid()
      reads this, windows
      ensures n == Count(State()) <= capacity
    {
      (endId - bgnId + if GetLast().packet.size != 0 then 1 else 0) % 256
    }

    predicate Empty()
      requires Valid()
      reads this, windows
      ensures Empty() == IsEmpty(State())
    {
      endId == bgnId && GetLast().packet.size == 0
    }

    predicate Incomplete()
      requires Valid()
      reads this, windows
      ensures Incomplete() == HasIncomplete(State())
    {
      !Empty() && 0 < GetLast().packet.size && GetLast().packet.size != windowSize - PACKET_SIZE
    }

    predicate FirstAcked()
      requires Valid()
      reads this, windows
      ensures FirstAcked() == IsFirstAcked(State())
    {
      windows[bgnIndex].IsValid() && windows[bgnIndex].isAcked
    }

    /** Overwrite the slot of an id inside the window. */
    method Put(id: nat, w: Window)
      requires Valid() && Contains(State(), id) && |w.packet.data| == windowSize - PACKET_SIZE
      modifies windows
      ensures Valid() && State() == old(State()).(wnd := old(State()).wnd[id - bgnId := w])
    {
      var index := GetIndex(id);
      ghost var was := Slots();
      windows[index] := w;
      assert Slots() == was[id - bgnId := w];
    }

    method RemoveFirst()
      requires Valid() && RemoveN(State(), 1).end + capacity < INVALID_ID
      modifies this`bgnId, this`bgnIndex, this`endId, windows
      ensures Valid() && State() == RemoveN(old(State()), 1)
    {
      hide Slot;
      hide Rotate;
      ghost var was, next := Slots(), windows[..][bgnIndex := windows[bgnIndex].Clear()];
      NextIndex(bgnId, bgnIndex, capacity);
      FirstSlot();
      RotateOn(windows[..], bgnIndex, windows[bgnIndex].Clear());
      windows[bgnIndex] := windows[bgnIndex].Clear();
      assert windows[..] == next;
      bgnId := bgnId + 1;
      bgnIndex := (bgnIndex + 1) % capacity;
      if endId < bgnId {
        endId := bgnId;
      }
      assert Cleared(was[..1]) == [was[0].Clear()];
      assert Slots() == was[1..] + Cleared(was[..1]);
    }

    lemma FirstSlot()
      requires windows.Length == capacity && bgnIndex < capacity
      ensures Slots()[0] == windows[bgnIndex]
    {
    }

    /** `remove_acked` removes exactly the done prefix, whatever it is. */
    method RemoveAcked()
      requires Valid() && RemoveN(State(), DonePrefix(State().wnd)).end + capacity < INVALID_ID
      modifies this`bgnId, this`bgnIndex, this`endId, windows
      ensures Valid() && State() == RemoveN(old(State()), DonePrefix(old(State()).wnd))
    {
      hide Valid;
      hide State;
      ghost var n: nat := 0;
      ghost var start, goal := State(), DonePrefix(State().wnd);
      RemoveNone(start);
      while FirstAcked()
        invariant Valid() && n <= goal && State() == RemoveN(start, n)
        decreases goal - n
      {
        NextIsDone(start, n);
        RemoveOneMore(start, n);
        RemoveFirst();
        n := n + 1;
      }
      NextIsDone(start, n);
    }

    /** `wndpool_ack`. */
    method Acknowledge(id: nat)
      requires Valid() && Contains(State(), id) && AckId(State(), id).end + capacity < INVALID_ID
      modifies this`bgnId, this`bgnIndex, this`endId, windows
      ensures Valid() && State() == AckId(old(State()), id)
    {
      var w := Get(id);
      if !w.isAcked {
        Put(id, w.(isAcked := true));
      } else {
        assert State().wnd[id - bgnId := w.(isAcked := true)] == State().wnd;
      }
      if id == bgnId {
        RemoveAcked();
      }
    }

    /** `wndpool_update`: a received packet goes into its slot, whatever is there. */
    method Update(p: Packet, id: nat)
      requires Valid() && Contains(State(), id) && |p.data| == windowSize - PACKET_SIZE
      modifies windows
      ensures Valid() && State() == Store(old(State()), p, id)
    {
      var w := Get(id);
      Put(id, w.(packet := p, isAcked := true));
    }

    /** `wndpool_read`. */
    method Read(n: nat) returns (bytes: seq<byte>)
      requires Valid() && WindowRing.Read(State(), n).0.end + capacity < INVALID_ID
      modifies this, windows
      ensures Valid() && (State(), bytes) == WindowRing.Read(old(State()), n)
      ensures updateTimeMs == old(updateTimeMs)
    {
      hide Slots;
      hide IndexOf;
      if !FirstAcked() {
        return [];
      }
      FirstIsAt();
      var p := Get(bgnId).packet;
      var from := Min(storedSize, p.size);
      var readSize := Min(p.size - from, n);
      bytes := p.data[from..from + readSize];
      assert bytes == Carried(p)[from..from + readSize];
      storedSize := from + readSize;
      if storedSize >= p.size {
        storedSize := 0;
        assert State() == old(State()).(stored := 0);
        RemoveFirst();
      }
    }

    lemma FirstIsAt()
      requires Valid()
      ensures State().wnd[0] == At(State(), bgnId)
    {
    }

    /** `wndpool_update_header`. */
    method UpdateHeader(now: nat)
      requires Valid()
      modifies windows
      ensures Valid() && State() == SealLast(old(State()), now)
    {
      hide Crc;
      hide Encode;
      hide Slots;
      hide IndexOf;
      var w := GetLast();
      var p := w.packet.(header := HEADER, kind := Data, id := endId);
      var crc := Crc16Ccitt(Encode(p.(crc := Zeros(16))));
      Put(endId, w.(sentTime := now, isAcked := false, isSent := true, packet := p.(crc := crc)));
    }

    /** Copy a segment behind what the open window already holds. */
    method Copy(segment: seq<byte>, nowMs: nat)
      requires Valid() && |segment| <= Room(State())
      modifies this`updateTimeMs, windows
      ensures Valid() && State() == Append(old(State()), segment, nowMs)
    {
      hide Slots;
      hide IndexOf;
      var w := GetLast();
      var size := w.packet.size;
      var data := w.packet.data[..size] + segment + w.packet.data[size + |segment|..];
      Put(endId, w.(packet := w.packet.(size := size + |segment|, data := data)));
      updateTimeMs := nowMs;
    }

    /** Make the next id the last one; its slot is the one behind. */
    method BumpEnd()
      requires Valid() && endId + 1 < bgnId + capacity && endId + 1 + capacity < INVALID_ID
      modifies this`endId
      ensures Valid() && State() == old(State()).(end := old(endId) + 1)
    {
      hide Slots;
      endId := endId + 1;
    }

    /** Seal the full window and open the next one. */
    method OpenNext(now: nat)
      requires Valid() && endId + 1 < bgnId + capacity && endId + 1 + capacity < INVALID_ID
      modifies this`endId, windows
      ensures Valid() && State() == Advance(old(State()), now)
    {
      hide Valid;
      hide State;
      hide SealLast;
      Fields();
      UpdateHeader(now);
      Fields();
      BumpEnd();
      Fields();
      Put(endId, GetLast().Clear());
    }

    lemma Fields()
      requires Valid()
      ensures windowSize >= PACKET_SIZE && State().payload == windowSize - PACKET_SIZE
      ensures |State().wnd| == capacity && State().end == endId < UINT32 && State().bgn == bgnId
    {
    }

    /** The body of the copy loop: one segment that fits into the open window. */
    method FillWindow(segment: seq<byte>, now: nat, nowMs: nat) returns (out: seq<Packet>)
      requires Valid() && |segment| <= Room(State())
      requires FillOnce(State(), segment, now, nowMs).0.end + capacity < INVALID_ID
      modifies this`updateTimeMs, this`endId, windows
      ensures Valid() && (State(), out) == FillOnce(old(State()), segment, now, nowMs)
    {
      hide Valid;
      hide State;
      hide Append;
      hide Advance;
      hide SealLast;
      Fields();
      ghost var goal := FillOnce(State(), segment, now, nowMs);
      var filled := endId;
      Copy(segment, nowMs);
      Fields();
      ghost var full := State();
      out := [];
      if GetLast().packet.size == windowSize - PACKET_SIZE {
        if GetCount() < capacity {
          OpenedAfter(full, now);
          OpenNext(now);
          Fields();
        }
        out := [Get(filled).packet];
      }
      assert (State(), out) == goal;
    }

    /** The copy loop of `wndpool_write`. */
    method FillWindows(bytes: seq<byte>, now: nat, nowMs: nat) returns (out: seq<Packet>)
      requires Valid() && (bytes != [] ==> Count(State()) < |State().wnd| && |bytes| <= State().payload)
      requires Fill(State(), bytes, now, nowMs).0.end + capacity < INVALID_ID
      modifies this`updateTimeMs, this`endId, windows
      ensures Valid() && (State(), out) == Fill(old(State()), bytes, now, nowMs)
    {
      hide Valid;
      hide State;
      hide Fill;
      hide FillOnce;
      var sent := 0;
      out := [];
      ghost var goal := Fill(State(), bytes, now, nowMs);
      assert bytes[0..] == bytes && [] + goal.1 == goal.1;
      while sent < |bytes|
        invariant Valid() && 0 <= sent <= |bytes|
        invariant bytes[sent..] != [] ==> Count(State()) < |State().wnd| && |bytes| <= State().payload
        invariant var rest := Fill(State(), bytes[sent..], now, nowMs);
          goal == (rest.0, out + rest.1)
        decreases |bytes| - sent, Last(State()).packet.size
      {
        Fields();
        ghost var before, todo := State(), bytes[sent..];
        var seg := Min(|bytes| - sent, windowSize - PACKET_SIZE - GetLast().packet.size);
        FillLeavesRoom(before, todo, seg, now, nowMs);
        FillTurn(before, todo, seg, now, nowMs);
        assert todo[..seg] == bytes[sent..sent + seg] && todo[seg..] == bytes[sent + seg..];
        var packets := FillWindow(bytes[sent..sent + seg], now, nowMs);
        ghost var rest := Fill(State(), bytes[sent + seg..], now, nowMs);
        assert out + (packets + rest.1) == (out + packets) + rest.1;
        sent, out := sent + seg, out + packets;
      }
      FillNothing(State(), bytes[sent..], now, nowMs);
      assert out + [] == out;
    }

    /** `wndpool_write`: the octets taken, and the packets handed to `on_done`. */
    method Write(bytes: seq<byte>, now: nat, nowMs: nat) returns (sent: nat, out: seq<Packet>)
      requires Valid() && |bytes| <= windowSize - PACKET_SIZE
      requires WindowRing.Write(State(), bytes, now, nowMs).0.end + capacity < INVALID_ID
      modifies this`updateTimeMs, this`endId, windows
      ensures Valid() && (State(), out, sent) == WindowRing.Write(old(State()), bytes, now, nowMs)
    {
      hide Valid;
      hide State;
      hide Fill;
      Fields();
      if GetCount() == capacity || |bytes| == 0 || GetLast().isSent {
        return 0, [];
      }
      out := FillWindows(bytes, now, nowMs);
      sent := |bytes|;
    }
  }

  lemma OpenedAfter(full: Ring, now: nat)
    requires full.end + 1 < full.bgn + |full.wnd| && full.end < INVALID_ID
    ensures At(Advance(full, now), full.end) == Last(SealLast(full, now))
    ensures Advance(full, now).end == full.end + 1
  {
    AdvanceEffect(full, now);
  }

  /** One turn of the loop is one unfolding of `Fill`. */
  lemma FillTurn(r: Ring, bytes: seq<byte>, n: nat, now: nat, nowMs: nat)
    requires bytes != [] && Count(r) < |r.wnd| && |bytes| <= r.payload && n == Min(|bytes|, Room(r))
    ensures var (r', out) := FillOnce(r, bytes[..n], now, nowMs);
      && (bytes[n..] != [] ==> Count(r') < |r.wnd|)
      && var rest := Fill(r', bytes[n..], now, nowMs);
      Fill(r, bytes, now, nowMs) == (rest.0, out + rest.1)
  {
    hide FillOnce;
    FillLeavesRoom(r, bytes, n, now, nowMs);
  }

  lemma FillNothing(r: Ring, bytes: seq<byte>, now: nat, nowMs: nat)
    requires bytes == []
    ensures Fill(r, bytes, now, nowMs) == (r, [])
  {
  }

  lemma RemoveNone(r: Ring)
    ensures RemoveN(r, 0) == r
  {
    assert r.wnd[0..] + Cleared(r.wnd[..0]) == r.wnd;
  }

  lemma RemoveOneMore(r: Ring, n: nat)
    requires n < |r.wnd|
    ensures RemoveN(RemoveN(r, n), 1) == RemoveN(r, n + 1)
  {
    var s := RemoveN(r, n);
    assert s.wnd[1..] + Cleared(s.wnd[..1]) == r.wnd[n + 1..] + Cleared(r.wnd[..n + 1]);
  }

  /** After `n` removals the first window is done exactly if the prefix goes on. */
  lemma NextIsDone(r: Ring, n: nat)
    requires n <= DonePrefix(r.wnd)
    ensures IsFirstAcked(RemoveN(r, n)) <==> n < DonePrefix(r.wnd)
  {
    DonePrefixMaximal(r.wnd);
    if n == |r.wnd| {
      assert RemoveN(r, n).wnd[0] == r.wnd[0].Clear();
    } else {
      assert RemoveN(r, n).wnd[0] == r.wnd[n];
    }
  }
}
