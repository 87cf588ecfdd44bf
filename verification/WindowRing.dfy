/** The value of a window pool (src/io/communication/mc_window_pool.c), with its slots
    listed from the first id of the window: `wnd[k]` is the slot of id `bgn + k`. */
module WindowRing {
  import opened Bytes
  import opened Seqs
  import opened Frame
  import opened Packets

  datatype RawRing = Ring(payload: nat, bgn: nat, end: nat, stored: nat, updateTime: nat, wnd: seq<Window>)

  /** The id being filled never laps the first one: at least one slot is free or filling. */
  predicate Shaped(r: RawRing) {
    && 0 < r.payload
    && r.bgn <= r.end < r.bgn + |r.wnd|
    && (forall w :: w in r.wnd ==> |w.packet.data| == r.payload)
  }

  type Ring = r: RawRing | Shaped(r)
    witness Ring(1, 0, 0, 0, 0, [Window(0, true, false,
      Packet(0, 0, 0, seq(16, _ => false), Data, [seq(8, _ => false)], seq(8, _ => false)))])

  // ------------------------------------------------------------------ reading the ring

  function Capacity(r: Ring): nat {
    |r.wnd|
  }

  predicate Contains(r: Ring, id: nat) {
    r.bgn <= id < r.bgn + |r.wnd|
  }

  function At(r: Ring, id: nat): (w: Window)
    requires Contains(r, id)
  {
    r.wnd[id - r.bgn]
  }

  function Last(r: Ring): Window {
    At(r, r.end)
  }

  predicate Done(w: Window) {
    w.IsValid() && w.isAcked
  }

  predicate IsFirstAcked(r: Ring) {
    Done(r.wnd[0])
  }

  function Count(r: Ring): nat {
    r.end - r.bgn + if Last(r).packet.size != 0 then 1 else 0
  }

  predicate IsEmpty(r: Ring) {
    r.end == r.bgn && Last(r).packet.size == 0
  }

  predicate HasIncomplete(r: Ring) {
    !IsEmpty(r) && 0 < Last(r).packet.size && Last(r).packet.size != r.payload
  }

  // ------------------------------------------------------------------ removing

  function Cleared(ws: seq<Window>): (cs: seq<Window>)
    ensures |cs| == |ws|
  {
    seq(|ws|, i requires 0 <= i < |ws| => ws[i].Clear())
  }

  /** Drop the first `n` ids; their slots, cleared, serve the ids past the old window. */
  function RemoveN(r: Ring, n: nat): Ring
    requires n <= |r.wnd|
  {
    r.(bgn := r.bgn + n, end := Max(r.end, r.bgn + n), wnd := r.wnd[n..] + Cleared(r.wnd[..n]))
  }

  /** How many windows at the front are valid and acknowledged. */
  function DonePrefix(ws: seq<Window>): (n: nat)
    ensures n <= |ws|
  {
    if ws != [] && Done(ws[0]) then 1 + DonePrefix(ws[1..]) else 0
  }

  function MarkAcked(r: Ring, id: nat): Ring
    requires Contains(r, id)
  {
    r.(wnd := r.wnd[id - r.bgn := At(r, id).(isAcked := true)])
  }

  function AckId(r: Ring, id: nat): Ring
    requires Contains(r, id)
  {
    var m := MarkAcked(r, id);
    if id == r.bgn then RemoveN(m, DonePrefix(m.wnd)) else m
  }

  // ------------------------------------------------------------------ receiving

  function Store(r: Ring, p: Packet, id: nat): Ring
    requires Contains(r, id) && |p.data| == r.payload
  {
    r.(wnd := r.wnd[id - r.bgn := At(r, id).(packet := p, isAcked := true)])
  }

  /** Up to `n` octets of the first window, from the cursor on; an exhausted window goes. */
  function Read(r: Ring, n: nat): (Ring, seq<byte>) {
    if !IsFirstAcked(r) then (r, [])
    else
      var bytes := Carried(r.wnd[0].packet);
      var from := Min(r.stored, |bytes|);
      var to := Min(from + n, |bytes|);
      if to >= |bytes| then (RemoveN(r.(stored := 0), 1), bytes[from..to])
      else (r.(stored := to), bytes[from..to])
  }

  // ------------------------------------------------------------------ sending

  function SetLast(r: Ring, w: Window): Ring
    requires |w.packet.data| == r.payload
  {
    r.(wnd := r.wnd[r.end - r.bgn := w])
  }

  /** `wndpool_update_header`: number, seal and mark the last window as sent. */
  function SealLast(r: Ring, now: nat): Ring {
    var w := Last(r);
    var p := Seal(w.packet.(header := HEADER, kind := Data, id := r.end % 0x1_0000_0000));
    SetLast(r, w.(sentTime := now, isAcked := false, isSent := true, packet := p))
  }

  /** Octets that still fit into the last window. */
  function Room(r: Ring): nat {
    r.payload - Last(r).packet.size
  }

  function Append(r: Ring, bytes: seq<byte>, nowMs: nat): Ring
    requires |bytes| <= Room(r)
  {
    var w := Last(r);
    var p, s := w.packet, w.packet.size;
    var data := p.data[..s] + bytes + p.data[s + |bytes|..];
    SetLast(r, w.(packet := p.(size := s + |bytes|, data := data))).(updateTime := nowMs)
  }

  /** A full window is sealed and the next id opened. */
  function Advance(r: Ring, now: nat): Ring
    requires r.end + 1 < r.bgn + |r.wnd|
  {
    var s := SealLast(r, now).(end := r.end + 1);
    SetLast(s, Last(s).Clear())
  }

  predicate Blocked(r: Ring) {
    Count(r) == |r.wnd| || Last(r).isSent
  }

  /** One turn of the copy loop of `wndpool_write`: the ring afterwards and the packet
      handed to the transport, if the window is now full. A window that fills while no
      other is free is handed over as it is, unsealed. */
  function FillOnce(r: Ring, bytes: seq<byte>, now: nat, nowMs: nat): (res: (Ring, seq<Packet>))
    requires |bytes| <= Room(r)
    ensures res.0.bgn == r.bgn && r.end <= res.0.end <= r.end + 1 && |res.0.wnd| == |r.wnd|
    ensures res.0.payload == r.payload && res.0.stored == r.stored
  {
    var full := Append(r, bytes, nowMs);
    if Last(full).packet.size != r.payload then (full, [])
    else if Count(full) < |r.wnd| then (Advance(full, now), [Last(SealLast(full, now)).packet])
    else (full, [Last(full).packet])
  }

  /** The whole copy loop. */
  function Fill(r: Ring, bytes: seq<byte>, now: nat, nowMs: nat): (res: (Ring, seq<Packet>))
    requires bytes != [] ==> Count(r) < |r.wnd| && |bytes| <= r.payload
    ensures res.0.bgn == r.bgn && r.end <= res.0.end && |res.0.wnd| == |r.wnd|
    ensures res.0.payload == r.payload && res.0.stored == r.stored
    decreases |bytes|, Last(r).packet.size
  {
    if bytes == [] then (r, [])
    else
      var n := Min(|bytes|, Room(r));
      var (r', out) := FillOnce(r, bytes[..n], now, nowMs);
      FillLeavesRoom(r, bytes, n, now, nowMs);
      var rest := Fill(r', bytes[n..], now, nowMs);
      (rest.0, out + rest.1)
  }

  /** Why the loop ends: a turn that copies nothing opens an empty window. */
  lemma FillLeavesRoom(r: Ring, bytes: seq<byte>, n: nat, now: nat, nowMs: nat)
    requires bytes != [] && Count(r) < |r.wnd| && |bytes| <= r.payload && n == Min(|bytes|, Room(r))
    ensures
      var r' := FillOnce(r, bytes[..n], now, nowMs).0;
      && (bytes[n..] != [] ==> Count(r') < |r.wnd|)
      && (n == 0 ==> Last(r').packet.size < Last(r).packet.size)
  {
    hide Seal;
    assert bytes[..n] + bytes[n..] == bytes;
  }

  /** `wndpool_write` for one segment: ring, packets handed over, octets accepted. */
  function Write(r: Ring, bytes: seq<byte>, now: nat, nowMs: nat): (Ring, seq<Packet>, nat)
    requires |bytes| <= r.payload
  {
    if Blocked(r) || bytes == [] then (r, [], 0)
    else
      var res := Fill(r, bytes, now, nowMs);
      (res.0, res.1, |bytes|)
  }
}
