/** Messages over the octet stream (src/io/message/mc_message.c): a four-octet header,
    then the payload. The receiver parses whatever pieces it is given. */
module Messages {
  import opened Bytes
  import opened Seqs

  const HEADER_SIZE: nat := 4

  datatype RawMsg = Msg(id: nat, payload: seq<byte>)

  /** A message whose id and length fit their 16-bit fields. */
  type Msg = m: RawMsg | m.id < 0x1_0000 && |m.payload| < 0x1_0000 witness Msg(0, [])

  // ------------------------------------------------------------------ the stream format

  function EncodeMsg(m: Msg): (s: seq<byte>)
    ensures |s| == HEADER_SIZE + |m.payload|
  {
    ToLe(|m.payload|, U16) + ToLe(m.id, U16) + m.payload
  }

  function EncodeAll(ms: seq<Msg>): seq<byte> {
    if ms == [] then [] else EncodeMsg(ms[0]) + EncodeAll(ms[1..])
  }

  lemma {:induction false} EncodeSnoc(ms: seq<Msg>, m: Msg)
    ensures EncodeAll(ms + [m]) == EncodeAll(ms) + EncodeMsg(m)
    decreases |ms|
  {
    hide EncodeMsg;
    if ms == [] {
      assert [] + [m] == [m] && [m][1..] == [];
      assert EncodeAll([m]) == EncodeMsg(m) + EncodeAll([]) == EncodeMsg(m);
    } else {
      assert (ms + [m])[0] == ms[0] && (ms + [m])[1..] == ms[1..] + [m];
      EncodeSnoc(ms[1..], m);
    }
  }

  function SizeField(s: seq<byte>): nat
    requires |s| >= HEADER_SIZE
  {
    FromLe(s[..2])
  }

  function IdField(s: seq<byte>): nat
    requires |s| >= HEADER_SIZE
  {
    FromLe(s[2..4])
  }

  /** The whole messages at the front of a stream, as raw records. */
  function Parsed(s: seq<byte>): seq<RawMsg>
    decreases |s|
  {
    if |s| < HEADER_SIZE || |s| < HEADER_SIZE + SizeField(s) then []
    else
      var n := HEADER_SIZE + SizeField(s);
      [Msg(IdField(s), s[HEADER_SIZE..n])] + Parsed(s[n..])
  }

  /** What follows them: the beginning of a message, or nothing. */
  function Unparsed(s: seq<byte>): seq<byte>
    decreases |s|
  {
    if |s| < HEADER_SIZE || |s| < HEADER_SIZE + SizeField(s) then s
    else Unparsed(s[HEADER_SIZE + SizeField(s)..])
  }

  lemma FieldsOfEncoded(m: Msg, rest: seq<byte>)
    ensures var s := EncodeMsg(m) + rest;
      && SizeField(s) == |m.payload| && IdField(s) == m.id
      && s[HEADER_SIZE..HEADER_SIZE + |m.payload|] == m.payload && s[HEADER_SIZE + |m.payload|..] == rest
  {
    hide ToLe;
    hide FromLe;
    var s := EncodeMsg(m) + rest;
    assert s[..2] == ToLe(|m.payload|, U16);
    assert s[2..4] == ToLe(m.id, U16);
    assert Pow(256, 2) == 0x1_0000;
    LeRoundTrip(|m.payload|, U16);
    LeRoundTrip(m.id, U16);
  }

  /** Where everything lies: length, then id, low octet first, then the payload. */
  lemma MessageLayout(m: Msg)
    ensures var s := EncodeMsg(m);
      && FromBits(s[0]) + 256 * FromBits(s[1]) == |m.payload|
      && FromBits(s[2]) + 256 * FromBits(s[3]) == m.id
      && s[4..] == m.payload
  {
    hide ToLe, FromLe, FromBits;
    var s := EncodeMsg(m);
    FieldsOfEncoded(m, []);
    assert s + [] == s;
    FromLeTwo(s[..2]);
    FromLeTwo(s[2..4]);
  }

  /** Parsing undoes encoding. */
  lemma {:induction false} ParseEncoded(ms: seq<Msg>)
    ensures Parsed(EncodeAll(ms)) == ms && Unparsed(EncodeAll(ms)) == []
    decreases |ms|
  {
    if ms != [] {
      FieldsOfEncoded(ms[0], EncodeAll(ms[1..]));
      ParseEncoded(ms[1..]);
    }
  }

  /** A stream cut anywhere parses to the messages that are whole: none is split, merged
      or invented. */
  lemma {:induction false} ParseCutStream(ms: seq<Msg>, s: seq<byte>)
    requires s <= EncodeAll(ms)
    ensures Parsed(s) <= ms
    ensures s == EncodeAll(ms) ==> Parsed(s) == ms
    decreases |ms|
  {
    hide FromLe;
    hide Parsed;
    hide EncodeMsg;
    ParseEncoded(ms);
    ParseFirst(s);
    if ms != [] && |s| >= HEADER_SIZE {
      var first, later := EncodeMsg(ms[0]), EncodeAll(ms[1..]);
      FieldsOfEncoded(ms[0], later);
      assert s[..2] == EncodeAll(ms)[..2] && s[2..4] == EncodeAll(ms)[2..4];
      if |s| >= |first| {
        var rest := s[|first|..];
        assert rest <= later && s == first + rest;
        FieldsOfEncoded(ms[0], rest);
        ParseCutStream(ms[1..], rest);
      }
    }
  }

  /** The stream starts with a whole message. */
  predicate StartsWhole(s: seq<byte>) {
    |s| >= HEADER_SIZE && |s| >= HEADER_SIZE + SizeField(s)
  }

  lemma ParseFirst(s: seq<byte>)
    ensures
      if StartsWhole(s) then
        var n := HEADER_SIZE + SizeField(s);
        Parsed(s) == [Msg(IdField(s), s[HEADER_SIZE..n])] + Parsed(s[n..]) && Unparsed(s) == Unparsed(s[n..])
      else Parsed(s) == [] && Unparsed(s) == s
  {
  }

  lemma PrefixFields(s: seq<byte>, t: seq<byte>)
    requires StartsWhole(s)
    ensures StartsWhole(s + t) && SizeField(s + t) == SizeField(s) && IdField(s + t) == IdField(s)
    ensures var n := HEADER_SIZE + SizeField(s);
      (s + t)[HEADER_SIZE..n] == s[HEADER_SIZE..n] && (s + t)[n..] == s[n..] + t
  {
    assert (s + t)[..2] == s[..2] && (s + t)[2..4] == s[2..4];
  }

  lemma {:induction false} ParseAppend(s: seq<byte>, t: seq<byte>)
    ensures Parsed(s + t) == Parsed(s) + Parsed(Unparsed(s) + t)
    ensures Unparsed(s + t) == Unparsed(Unparsed(s) + t)
    decreases |s|
  {
    hide Parsed;
    hide Unparsed;
    hide FromLe;
    ParseFirst(s);
    if StartsWhole(s) {
      var n := HEADER_SIZE + SizeField(s);
      var first := [Msg(IdField(s), s[HEADER_SIZE..n])];
      PrefixFields(s, t);
      ParseFirst(s + t);
      ParseAppend(s[n..], t);
      var last := Parsed(Unparsed(s) + t);
      assert first + (Parsed(s[n..]) + last) == (first + Parsed(s[n..])) + last;
    } else {
      assert [] + Parsed(s + t) == Parsed(s + t);
    }
  }

  // ------------------------------------------------------------------ the incremental parser

  /** `mc_msg`'s receive pool and how much of the current message it has taken in. */
  datatype Parser = Parser(pool: seq<byte>, stored: nat)

  /** The messages that a pool of `capacity` octets can hold. */
  predicate FitsPool(m: RawMsg, capacity: nat) {
    HEADER_SIZE + |m.payload| <= capacity
  }

  function Fitting(ms: seq<RawMsg>, capacity: nat): seq<RawMsg> {
    if ms == [] then []
    else (if FitsPool(ms[0], capacity) then [ms[0]] else []) + Fitting(ms[1..], capacity)
  }

  lemma {:induction false} FittingConcat(x: seq<RawMsg>, y: seq<RawMsg>, capacity: nat)
    ensures Fitting(x + y, capacity) == Fitting(x, capacity) + Fitting(y, capacity)
    decreases |x|
  {
    hide FitsPool;
    if x == [] {
      assert x + y == y;
    } else {
      var first := if FitsPool(x[0], capacity) then [x[0]] else [];
      assert (x + y)[0] == x[0] && (x + y)[1..] == x[1..] + y;
      assert Fitting(x + y, capacity) == first + Fitting(x[1..] + y, capacity);
      FittingConcat(x[1..], y, capacity);
    }
  }

  function Overwrite(pool: seq<byte>, at: nat, bytes: seq<byte>): (r: seq<byte>)
    requires at + |bytes| <= |pool|
    ensures |r| == |pool|
  {
    pool[..at] + bytes + pool[at + |bytes|..]
  }

  /** The octets that the header call yields land inside the pool. */
  predicate HeaderFits(p: Parser, bytes: seq<byte>) {
    bytes == [] || p.stored + |bytes| <= |p.pool|
  }

  /** What `read_message_header` asks for; nothing once the header is there. */
  function WantsHeader(p: Parser): nat {
    if p.stored < HEADER_SIZE then HEADER_SIZE - p.stored else 0
  }

  function TakeHeader(p: Parser, bytes: seq<byte>): Parser
    requires |bytes| <= WantsHeader(p) && HeaderFits(p, bytes)
  {
    if bytes == [] then p else Parser(Overwrite(p.pool, p.stored, bytes), p.stored + |bytes|)
  }

  function Expected(p: Parser): nat
    requires |p.pool| >= HEADER_SIZE
  {
    SizeField(p.pool) + HEADER_SIZE
  }

  /** The message at hand is larger than the pool. */
  predicate Oversize(p: Parser)
    requires |p.pool| >= HEADER_SIZE
  {
    |p.pool| < Expected(p)
  }

  /** What `drop_message` or `is_message_stored` asks for. */
  function WantsBody(p: Parser): nat
    requires |p.pool| >= HEADER_SIZE
  {
    if p.stored < HEADER_SIZE || Expected(p) <= p.stored then 0
    else if Oversize(p) then Min(|p.pool| - HEADER_SIZE, Expected(p) - p.stored)
    else Expected(p) - p.stored
  }

  /** An oversize message passes through the pool behind its header. */
  function DropBody(p: Parser, bytes: seq<byte>): Parser
    requires |p.pool| >= HEADER_SIZE && Oversize(p) && |bytes| <= WantsBody(p)
  {
    var stored := p.stored + |bytes|;
    Parser(Overwrite(p.pool, HEADER_SIZE, bytes), if stored == Expected(p) then 0 else stored)
  }

  /** A message that fits is collected, and handed on when it is whole. */
  function TakeBody(p: Parser, bytes: seq<byte>): (Parser, Option<RawMsg>)
    requires |p.pool| >= HEADER_SIZE && !Oversize(p) && |bytes| <= WantsBody(p)
  {
    var pool := if bytes == [] then p.pool else Overwrite(p.pool, p.stored, bytes);
    var stored := p.stored + |bytes|;
    if stored == Expected(p) then (Parser(pool, 0), Some(Msg(IdField(p.pool), pool[HEADER_SIZE..stored])))
    else (Parser(pool, stored), None)
  }

  /** What the two receive calls of one update yield. */
  datatype Feed = Feed(header: seq<byte>, body: seq<byte>)

  /** Each call yields at most what it was asked for. */
  predicate Fed(p: Parser, f: Feed)
    requires |p.pool| >= HEADER_SIZE
  {
    |f.header| <= WantsHeader(p) && |f.body| <= WantsBody(TakeHeader(p, f.header))
  }

  /** One `mc_msg_update`: the parser afterwards and the message completed, if any. */
  function Update(p: Parser, f: Feed): (Parser, Option<RawMsg>)
    requires |p.pool| >= HEADER_SIZE && Fed(p, f)
  {
    var q := TakeHeader(p, f.header);
    if q.stored < HEADER_SIZE then (q, None)
    else if Oversize(q) then (DropBody(q, f.body), None)
    else TakeBody(q, f.body)
  }

  /** Between updates no message is whole. */
  predicate Sane(p: Parser) {
    |p.pool| >= HEADER_SIZE && (p.stored < HEADER_SIZE || p.stored < Expected(p))
  }

  lemma UpdateKeepsSane(p: Parser, f: Feed)
    requires Sane(p) && Fed(p, f)
    ensures Sane(Update(p, f).0)
  {
    hide FromLe;
    var q := TakeHeader(p, f.header);
    if q.stored >= HEADER_SIZE {
      if Oversize(q) {
        var r := DropBody(q, f.body);
        assert r.pool[..HEADER_SIZE] == q.pool[..HEADER_SIZE];
        SliceOfPrefix(r.pool, HEADER_SIZE, 0, 2);
        SliceOfPrefix(q.pool, HEADER_SIZE, 0, 2);
      } else {
        var r := TakeBody(q, f.body).0;
        assert r.pool[..HEADER_SIZE] == q.pool[..HEADER_SIZE];
        SliceOfPrefix(r.pool, HEADER_SIZE, 0, 2);
        SliceOfPrefix(q.pool, HEADER_SIZE, 0, 2);
      }
    }
  }

  // ------------------------------------------------------------------ what the parser knows

  /** After the octets `s`, the parser has handed on exactly the fitting whole messages,
      and its pool holds the beginning of the current one: the header always, the rest
      when it fits. */
  ghost predicate ParserInv(p: Parser, s: seq<byte>, out: seq<RawMsg>) {
    var rest := Unparsed(s);
    && |p.pool| >= HEADER_SIZE
    && out == Fitting(Parsed(s), |p.pool|)
    && p.stored == |rest|
    && p.pool[..Min(p.stored, HEADER_SIZE)] == rest[..Min(p.stored, HEADER_SIZE)]
    && (p.stored >= HEADER_SIZE && !Oversize(p) ==> p.stored <= |p.pool| && p.pool[..p.stored] == rest)
  }

  lemma {:induction false} UnparsedIsShort(s: seq<byte>)
    ensures var rest := Unparsed(s);
      (|rest| < HEADER_SIZE || |rest| < HEADER_SIZE + SizeField(rest)) && Parsed(rest) == [] && Unparsed(rest) == rest
    decreases |s|
  {
    if |s| >= HEADER_SIZE && |s| >= HEADER_SIZE + SizeField(s) {
      UnparsedIsShort(s[HEADER_SIZE + SizeField(s)..]);
    }
  }

  lemma HeaderStep(p: Parser, s: seq<byte>, out: seq<RawMsg>, bytes: seq<byte>)
    requires ParserInv(p, s, out) && |bytes| <= WantsHeader(p)
    requires var q := TakeHeader(p, bytes); q.stored < HEADER_SIZE || q.stored < Expected(q)
    ensures ParserInv(TakeHeader(p, bytes), s + bytes, out)
  {
    hide FromLe;
    var q, rest := TakeHeader(p, bytes), Unparsed(s);
    ParseAppend(s, bytes);
    UnparsedIsShort(s);
    if bytes == [] {
      assert s + bytes == s;
    } else {
      var grown := rest + bytes;
      assert q.pool[..q.stored] == grown;
      if |grown| >= HEADER_SIZE {
        assert q.pool[..2] == grown[..2];
      }
      assert Parsed(grown) == [] && Unparsed(grown) == grown;
      assert Fitting(Parsed(s) + [], |p.pool|) == out by { assert Parsed(s) + [] == Parsed(s); }
    }
  }

  /** The octets that complete a message, and what they make of it. */
  lemma Completes(s: seq<byte>, bytes: seq<byte>, capacity: nat)
    requires var grown := Unparsed(s) + bytes; |grown| >= HEADER_SIZE && |grown| == HEADER_SIZE + SizeField(grown)
    ensures var grown := Unparsed(s) + bytes;
      var m := Msg(IdField(grown), grown[HEADER_SIZE..]);
      && Unparsed(s + bytes) == []
      && Fitting(Parsed(s + bytes), capacity)
         == Fitting(Parsed(s), capacity) + if FitsPool(m, capacity) then [m] else []
  {
    hide FromLe;
    var grown := Unparsed(s) + bytes;
    var m := Msg(IdField(grown), grown[HEADER_SIZE..]);
    ParseAppend(s, bytes);
    assert grown[HEADER_SIZE..|grown|] == grown[HEADER_SIZE..] && grown[|grown|..] == [];
    assert Parsed(grown) == [m] + Parsed([]) == [m];
    FittingConcat(Parsed(s), [m], capacity);
    assert Fitting([m], capacity) == (if FitsPool(m, capacity) then [m] else []) + Fitting([], capacity);
  }

  /** Octets that do not complete the message at hand only lengthen it. */
  lemma Continues(s: seq<byte>, bytes: seq<byte>)
    requires var grown := Unparsed(s) + bytes; |grown| < HEADER_SIZE || |grown| < HEADER_SIZE + SizeField(grown)
    ensures Unparsed(s + bytes) == Unparsed(s) + bytes && Parsed(s + bytes) == Parsed(s)
  {
    hide FromLe;
    ParseAppend(s, bytes);
    assert Parsed(s) + [] == Parsed(s);
  }

  lemma DropStep(p: Parser, s: seq<byte>, out: seq<RawMsg>, bytes: seq<byte>)
    requires ParserInv(p, s, out) && p.stored >= HEADER_SIZE && Oversize(p) && |bytes| <= WantsBody(p)
    ensures ParserInv(DropBody(p, bytes), s + bytes, out)
  {
    hide FromLe;
    var q, grown := DropBody(p, bytes), Unparsed(s) + bytes;
    UnparsedIsShort(s);
    assert p.pool[..2] == Unparsed(s)[..2] == grown[..2] by {
      assert p.pool[..HEADER_SIZE][..2] == Unparsed(s)[..HEADER_SIZE][..2];
    }
    assert q.pool[..HEADER_SIZE] == p.pool[..HEADER_SIZE];
    assert q.pool[..2] == p.pool[..2] by { assert q.pool[..HEADER_SIZE][..2] == p.pool[..HEADER_SIZE][..2]; }
    if p.stored + |bytes| == Expected(p) {
      Completes(s, bytes, |p.pool|);
    } else {
      Continues(s, bytes);
      assert grown[..HEADER_SIZE] == Unparsed(s)[..HEADER_SIZE];
    }
  }

  lemma BodyStep(p: Parser, s: seq<byte>, out: seq<RawMsg>, bytes: seq<byte>)
    requires |p.pool| >= HEADER_SIZE && out == Fitting(Parsed(s), |p.pool|)
    requires HEADER_SIZE <= p.stored == |Unparsed(s)| <= Expected(p) && !Oversize(p)
    requires p.pool[..p.stored] == Unparsed(s) && |bytes| <= WantsBody(p)
    ensures var (q, m) := TakeBody(p, bytes);
      ParserInv(q, s + bytes, out + if m.Some? then [m.value] else [])
  {
    hide FromLe;
    hide Parsed, Unparsed;
    var (q, m) := TakeBody(p, bytes);
    var grown := Unparsed(s) + bytes;
    var stored := p.stored + |bytes|;
    assert q.pool[..stored] == grown;
    assert p.pool[..2] == grown[..2] && p.pool[2..4] == grown[2..4] by {
      assert p.pool[..p.stored][..2] == p.pool[..2];
      SliceOfPrefix(p.pool, p.stored, 2, 4);
      assert grown[2..4] == Unparsed(s)[2..4];
    }
    if stored == Expected(p) {
      Completes(s, bytes, |p.pool|);
      assert q.pool[HEADER_SIZE..stored] == grown[HEADER_SIZE..];
    } else {
      Continues(s, bytes);
      assert q.pool[..2] == grown[..2] by { assert q.pool[..stored][..2] == q.pool[..2]; }
      assert q.pool[..HEADER_SIZE] == grown[..HEADER_SIZE] by {
        assert q.pool[..stored][..HEADER_SIZE] == q.pool[..HEADER_SIZE];
      }
      assert out + [] == out;
    }
  }

  /** One update, whatever its two reads yield, keeps what the parser knows. */
  lemma UpdateKeeps(p: Parser, s: seq<byte>, out: seq<RawMsg>, f: Feed)
    requires ParserInv(p, s, out) && Fed(p, f)
    ensures var (q, m) := Update(p, f);
      ParserInv(q, s + f.header + f.body, out + if m.Some? then [m.value] else []) && |q.pool| == |p.pool|
  {
    hide FromLe;
    hide Parsed;
    hide Unparsed;
    hide Fitting;
    var q := TakeHeader(p, f.header);
    UnparsedIsShort(s);
    if p.stored >= HEADER_SIZE {
      PoolSizeField(p, s, out);
    }
    if q.stored < HEADER_SIZE || q.stored < Expected(q) {
      HeaderStep(p, s, out, f.header);
      if q.stored < HEADER_SIZE {
        assert f.body == [];
        assert s + f.header + [] == s + f.header && out + [] == out;
      } else if Oversize(q) {
        DropStep(q, s + f.header, out, f.body);
        assert out + [] == out;
      } else {
        BodyStep(q, s + f.header, out, f.body);
      }
    } else {
      assert f.body == [];
      assert s + f.header + [] == s + f.header;
      EmptyMessage(p, s, out, f.header);
    }
  }

  /** A header that announces no payload is a whole message at once. */
  lemma EmptyMessage(p: Parser, s: seq<byte>, out: seq<RawMsg>, bytes: seq<byte>)
    requires ParserInv(p, s, out) && p.stored < HEADER_SIZE && |bytes| <= WantsHeader(p)
    requires var q := TakeHeader(p, bytes); q.stored >= HEADER_SIZE && q.stored >= Expected(q)
    ensures var (q, m) := TakeBody(TakeHeader(p, bytes), []);
      m.Some? && ParserInv(q, s + bytes, out + [m.value])
  {
    hide FromLe;
    hide Parsed;
    hide Unparsed;
    var q, grown := TakeHeader(p, bytes), Unparsed(s) + bytes;
    assert q.pool[..HEADER_SIZE] == grown;
    assert q.pool[..2] == grown[..2] by { assert q.pool[..HEADER_SIZE][..2] == q.pool[..2]; }
    SliceOfPrefix(q.pool, HEADER_SIZE, 2, 4);
    Completes(s, bytes, |p.pool|);
    assert q.pool[HEADER_SIZE..HEADER_SIZE] == grown[HEADER_SIZE..] == [];
  }

  lemma PoolSizeField(p: Parser, s: seq<byte>, out: seq<RawMsg>)
    requires ParserInv(p, s, out) && p.stored >= HEADER_SIZE
    ensures SizeField(p.pool) == SizeField(Unparsed(s))
  {
    hide FromLe;
    SliceOfPrefix(p.pool, HEADER_SIZE, 0, 2);
    SliceOfPrefix(Unparsed(s), HEADER_SIZE, 0, 2);
    assert p.pool[0..2] == p.pool[..2] && Unparsed(s)[0..2] == Unparsed(s)[..2];
  }

  lemma SliceOfPrefix<T>(s: seq<T>, n: nat, i: nat, j: nat)
    requires i <= j <= n <= |s|
    ensures s[..n][i..j] == s[i..j]
  {
  }

  // ------------------------------------------------------------------ any fragmentation

  /** A sequence of updates whose reads never yield more than was asked for. */
  predicate AllFed(p: Parser, fs: seq<Feed>)
    requires |p.pool| >= HEADER_SIZE
    decreases |fs|
  {
    fs == [] || (Fed(p, fs[0]) && (UpdateKeepsPool(p, fs[0]); AllFed(Update(p, fs[0]).0, fs[1..])))
  }

  lemma UpdateKeepsPool(p: Parser, f: Feed)
    requires |p.pool| >= HEADER_SIZE && Fed(p, f)
    ensures |Update(p, f).0.pool| == |p.pool|
  {
  }

  /** The octets the updates take in. */
  function Consumed(fs: seq<Feed>): seq<byte> {
    if fs == [] then [] else fs[0].header + fs[0].body + Consumed(fs[1..])
  }

  /** The messages the updates complete. */
  function Completed(p: Parser, fs: seq<Feed>): seq<RawMsg>
    requires |p.pool| >= HEADER_SIZE && AllFed(p, fs)
    decreases |fs|
  {
    if fs == [] then []
    else
      UpdateKeepsPool(p, fs[0]);
      var (q, m) := Update(p, fs[0]);
      (if m.Some? then [m.value] else []) + Completed(q, fs[1..])
  }

  function Finally(p: Parser, fs: seq<Feed>): (q: Parser)
    requires |p.pool| >= HEADER_SIZE && AllFed(p, fs)
    ensures |q.pool| == |p.pool|
    decreases |fs|
  {
    if fs == [] then p
    else
      UpdateKeepsPool(p, fs[0]);
      Finally(Update(p, fs[0]).0, fs[1..])
  }

  lemma FedCons(p: Parser, f: Feed, rest: seq<Feed>)
    requires |p.pool| >= HEADER_SIZE && Fed(p, f)
    ensures |Update(p, f).0.pool| == |p.pool|
    ensures var (q, m) := Update(p, f);
      && AllFed(p, [f] + rest) == AllFed(q, rest)
      && (AllFed(q, rest) ==>
            Finally(p, [f] + rest) == Finally(q, rest)
            && Completed(p, [f] + rest) == (if m.Some? then [m.value] else []) + Completed(q, rest))
    ensures Consumed([f] + rest) == f.header + f.body + Consumed(rest)
  {
    hide Update;
    hide Fed;
    assert ([f] + rest)[1..] == rest;
    UpdateKeepsPool(p, f);
  }

  /** One update more. */
  lemma {:induction false} FedSnoc(p: Parser, fs: seq<Feed>, f: Feed)
    requires |p.pool| >= HEADER_SIZE && AllFed(p, fs) && Fed(Finally(p, fs), f)
    ensures AllFed(p, fs + [f])
    ensures var (q, m) := Update(Finally(p, fs), f);
      && Finally(p, fs + [f]) == q
      && Completed(p, fs + [f]) == Completed(p, fs) + if m.Some? then [m.value] else []
    ensures Consumed(fs + [f]) == Consumed(fs) + f.header + f.body
    decreases |fs|
  {
    hide Update;
    hide Fed;
    if fs == [] {
      assert [] + [f] == [f] + [];
      FedCons(p, f, []);
    } else {
      var first, rest := fs[0], fs[1..];
      assert Fed(p, first);
      FedCons(p, first, rest);
      FedCons(p, first, rest + [f]);
      hide AllFed, Finally, Completed, Consumed;
      assert fs == [first] + rest && fs + [f] == [first] + (rest + [f]);
      FedSnoc(Update(p, first).0, rest, f);
    }
  }

  lemma {:induction false} UpdatesKeep(p: Parser, s: seq<byte>, out: seq<RawMsg>, fs: seq<Feed>)
    requires |p.pool| >= HEADER_SIZE && ParserInv(p, s, out) && AllFed(p, fs)
    ensures ParserInv(Finally(p, fs), s + Consumed(fs), out + Completed(p, fs))
    decreases |fs|
  {
    hide ParserInv;
    hide Update;
    hide Fed;
    if fs == [] {
      assert s + [] == s && out + [] == out;
    } else {
      var f := fs[0];
      UpdateKeepsPool(p, f);
      var (q, m) := Update(p, f);
      var done := if m.Some? then [m.value] else [];
      UpdateKeeps(p, s, out, f);
      UpdatesKeep(q, s + f.header + f.body, out + done, fs[1..]);
      assert s + f.header + f.body + Consumed(fs[1..]) == s + Consumed(fs);
      assert out + done + Completed(q, fs[1..]) == out + Completed(p, fs);
    }
  }

  lemma {:induction false} FittingPrefix(x: seq<RawMsg>, y: seq<RawMsg>, capacity: nat)
    requires x <= y
    ensures Fitting(x, capacity) <= Fitting(y, capacity)
  {
    FittingConcat(x, y[|x|..], capacity);
    assert x + y[|x|..] == y;
  }

  /** However the stream of encoded messages is cut into reads, the messages completed are
      a prefix of those that fit, all of them once the stream has been read to its end; and
      then the parser stands at the start of a message. */
  lemma ParserRoundTrip(pool: seq<byte>, fs: seq<Feed>, ms: seq<Msg>)
    requires |pool| >= HEADER_SIZE && AllFed(Parser(pool, 0), fs)
    requires Consumed(fs) <= EncodeAll(ms)
    ensures Completed(Parser(pool, 0), fs) <= Fitting(ms, |pool|)
    ensures Consumed(fs) == EncodeAll(ms) ==>
              Completed(Parser(pool, 0), fs) == Fitting(ms, |pool|) && Finally(Parser(pool, 0), fs).stored == 0
  {
    hide Update;
    var p := Parser(pool, 0);
    assert ParserInv(p, [], []) by {
      assert p.pool[..0] == [];
    }
    UpdatesKeep(p, [], [], fs);
    assert [] + Consumed(fs) == Consumed(fs) && [] + Completed(p, fs) == Completed(p, fs);
    ParseCutStream(ms, Consumed(fs));
    ParseEncoded(ms);
    FittingPrefix(Parsed(Consumed(fs)), ms, |pool|);
  }

  /** The pool holds one header and nothing else, and the message at hand has a payload. */
  predicate Jammed(p: Parser) {
    |p.pool| == HEADER_SIZE <= p.stored < Expected(p)
  }

  /** Between updates the parser asks for more octets, unless it is jammed. */
  lemma AsksForMoreIff(p: Parser, s: seq<byte>, out: seq<RawMsg>)
    requires ParserInv(p, s, out)
    ensures WantsHeader(p) + WantsBody(p) > 0
       <==> !Jammed(p)
  {
    hide FromLe;
    UnparsedIsShort(s);
    if p.stored >= HEADER_SIZE {
      PoolSizeField(p, s, out);
    }
  }

  /** Then no update, now or later, changes anything or completes a message. */
  lemma {:induction false} JammedForGood(p: Parser, fs: seq<Feed>)
    requires Jammed(p) && AllFed(p, fs)
    ensures Finally(p, fs) == p && Completed(p, fs) == [] && Consumed(fs) == []
    decreases |fs|
  {
    hide FromLe;
    if fs != [] {
      assert fs[0].header == [] && fs[0].body == [];
      assert Overwrite(p.pool, HEADER_SIZE, []) == p.pool;
      assert Update(p, fs[0]) == (p, None);
      JammedForGood(p, fs[1..]);
    }
  }

  /** The stream `s` starts with the header `h`, as far as it goes. */
  predicate Opens(h: seq<byte>, s: seq<byte>) {
    forall i :: 0 <= i < |s| && i < |h| ==> s[i] == h[i]
  }

  lemma HeaderTurn(p: Parser, h: seq<byte>, f: Feed, rest: seq<byte>)
    requires |p.pool| == |h| == HEADER_SIZE && p.stored < HEADER_SIZE && p.pool[..p.stored] == h[..p.stored]
    requires |f.header| <= WantsHeader(p) && Opens(h, h[..p.stored] + (f.header + f.body + rest))
    ensures var q := TakeHeader(p, f.header);
      && q.stored == p.stored + |f.header| && q.pool[..q.stored] == h[..q.stored]
      && (f.body == [] ==> h[..q.stored] + rest == h[..p.stored] + (f.header + f.body + rest))
  {
    var q, all := TakeHeader(p, f.header), h[..p.stored] + (f.header + f.body + rest);
    forall i | 0 <= i < q.stored
      ensures q.pool[i] == h[i]
    {
      assert h[i] == all[i];
      assert i < p.stored ==> p.pool[i] == p.pool[..p.stored][i];
    }
  }

  lemma {:induction false} HeaderJams(p: Parser, h: seq<byte>, fs: seq<Feed>)
    requires |p.pool| == |h| == HEADER_SIZE && SizeField(h) > 0
    requires p.stored < HEADER_SIZE && p.pool[..p.stored] == h[..p.stored]
    requires AllFed(p, fs) && Opens(h, h[..p.stored] + Consumed(fs))
    ensures Completed(p, fs) == [] && Finally(p, fs).stored == p.stored + |Consumed(fs)| <= HEADER_SIZE
    ensures |Consumed(fs)| == HEADER_SIZE - p.stored ==> Jammed(Finally(p, fs))
    decreases |fs|
  {
    hide FromLe;
    if fs != [] {
      var f := fs[0];
      var q := TakeHeader(p, f.header);
      HeaderTurn(p, h, f, Consumed(fs[1..]));
      if q.stored < HEADER_SIZE {
        assert f.body == [] && Update(p, f) == (q, None);
        HeaderJams(q, h, fs[1..]);
      } else {
        assert q.pool == h && Jammed(q) && f.body == [];
        assert Overwrite(q.pool, HEADER_SIZE, []) == q.pool;
        assert Update(p, f) == (q, None);
        JammedForGood(q, fs[1..]);
      }
    }
  }

  lemma FirstHeader(ms: seq<Msg>)
    requires ms != []
    ensures var h, s := EncodeMsg(ms[0])[..HEADER_SIZE], EncodeAll(ms);
      |s| >= HEADER_SIZE && s[..HEADER_SIZE] == h && SizeField(h) == |ms[0].payload|
  {
    hide FromLe;
    hide ToLe;
    var h, s := EncodeMsg(ms[0])[..HEADER_SIZE], EncodeAll(ms);
    FieldsOfEncoded(ms[0], EncodeAll(ms[1..]));
    assert h[..2] == s[..2];
  }

  /** With a pool of one header, a first message that has a payload stops the parser,
      however the stream is cut: it takes the header and nothing else, and completes
      neither this message nor any behind it. */
  lemma {:induction false} FirstPayloadJams(pool: seq<byte>, ms: seq<Msg>, fs: seq<Feed>)
    requires |pool| == HEADER_SIZE && ms != [] && ms[0].payload != []
    requires AllFed(Parser(pool, 0), fs) && Consumed(fs) <= EncodeAll(ms)
    ensures Completed(Parser(pool, 0), fs) == [] && |Consumed(fs)| <= HEADER_SIZE
    ensures |Consumed(fs)| == HEADER_SIZE ==> Jammed(Finally(Parser(pool, 0), fs))
  {
    hide FromLe;
    hide AllFed, Completed, Finally;
    hide EncodeAll, EncodeMsg;
    var h, s := EncodeMsg(ms[0])[..HEADER_SIZE], EncodeAll(ms);
    FirstHeader(ms);
    assert h[..0] + Consumed(fs) == Consumed(fs);
    assert forall i :: 0 <= i < |Consumed(fs)| && i < |h| ==> Consumed(fs)[i] == s[i] == h[i];
    HeaderJams(Parser(pool, 0), h, fs);
  }

  /** A message that fits, all of whose octets are there, takes one update: the two calls ask
      for exactly its header and its payload. */
  lemma OneUpdateIsEnough(pool: seq<byte>, m: Msg)
    requires FitsPool(m, |pool|)
    ensures var f := Feed(EncodeMsg(m)[..4], m.payload);
      && Fed(Parser(pool, 0), f)
      && Update(Parser(pool, 0), f).0.stored == 0 && Update(Parser(pool, 0), f).1 == Some(m)
  {
    hide FromLe, ToLe;
    var p, h := Parser(pool, 0), EncodeMsg(m)[..4];
    FieldsOfEncoded(m, []);
    assert EncodeMsg(m) + [] == EncodeMsg(m);
    var q := TakeHeader(p, h);
    assert q.pool[..4] == h;
    assert q.pool[..2] == h[..2] == EncodeMsg(m)[..2] && q.pool[2..4] == h[2..4] == EncodeMsg(m)[2..4] by {
      SliceOfPrefix(q.pool, 4, 0, 2);
      SliceOfPrefix(q.pool, 4, 2, 4);
    }
    assert Expected(q) == 4 + |m.payload|;
    if m.payload != [] {
      assert Overwrite(q.pool, 4, m.payload)[4..4 + |m.payload|] == m.payload;
    }
  }

  /** Of a message that does not fit, each update takes as much as the pool has room for behind
      the header, until the rest is less. */
  lemma OversizePiece(p: Parser, bytes: seq<byte>)
    requires |p.pool| >= HEADER_SIZE && HEADER_SIZE <= p.stored < Expected(p) && Oversize(p)
    requires |bytes| == Min(|p.pool| - 4, Expected(p) - p.stored)
    ensures Fed(p, Feed([], bytes))
    ensures var q := Update(p, Feed([], bytes)).0;
      q.stored == if p.stored + |bytes| == Expected(p) then 0 else p.stored + |bytes|
  {
    hide FromLe;
  }

  // ------------------------------------------------------------------ pools of any size

  /** The places that the header call may write to, from the first up to the second. */
  function HeaderTarget(p: Parser): (nat, nat) {
    (p.stored, p.stored + WantsHeader(p))
  }

  /** The same of the second call: behind the header for a message that is dropped. */
  function BodyTarget(p: Parser): (nat, nat)
    requires |p.pool| >= HEADER_SIZE
  {
    var at := if Oversize(p) then HEADER_SIZE else p.stored;
    (at, at + WantsBody(p))
  }

  predicate Within(range: (nat, nat), size: nat) {
    range.0 == range.1 || range.1 <= size
  }

  /** With room for a header, both calls of every update aim inside the pool. */
  lemma TargetsInside(p: Parser, header: seq<byte>)
    requires Sane(p) && |header| <= WantsHeader(p)
    ensures Within(HeaderTarget(p), |p.pool|) && Within(BodyTarget(TakeHeader(p, header)), |p.pool|)
  {
    hide FromLe;
  }

  /** Reads of any length within what is asked for, for a pool of any size, up to the first
      one that lands outside the pool. */
  predicate Offered(p: Parser, fs: seq<Feed>)
    decreases |fs|
  {
    fs == [] || (
      && |fs[0].header| <= WantsHeader(p)
      && (HeaderFits(p, fs[0].header) ==>
            var q := TakeHeader(p, fs[0].header);
            if |p.pool| < HEADER_SIZE then fs[0].body == [] && Offered(q, fs[1..])
            else |fs[0].body| <= WantsBody(q) && Offered(Update(p, fs[0]).0, fs[1..])))
  }

  /** Everything they write lands inside the pool. */
  predicate WritesInside(p: Parser, fs: seq<Feed>)
    requires Offered(p, fs)
    decreases |fs|
  {
    fs == [] || (
      && HeaderFits(p, fs[0].header)
      && var q := TakeHeader(p, fs[0].header);
      if |p.pool| < HEADER_SIZE then WritesInside(q, fs[1..])
      else
        && (fs[0].body == [] || BodyTarget(q).0 + |fs[0].body| <= |p.pool|)
        && WritesInside(Update(p, fs[0]).0, fs[1..]))
  }

  lemma {:induction false} HeaderRoomIsEnough(p: Parser, fs: seq<Feed>)
    requires Sane(p) && Offered(p, fs)
    ensures WritesInside(p, fs)
    decreases |fs|
  {
    hide FromLe;
    hide Update;
    if fs != [] {
      TargetsInside(p, fs[0].header);
      UpdateKeepsSane(p, fs[0]);
      HeaderRoomIsEnough(Update(p, fs[0]).0, fs[1..]);
    }
  }

  /** With a pool of three octets, a header that arrives in two pieces is written past the
      end, whatever it says. */
  lemma PoolOfThree(pool: seq<byte>, header: seq<byte>)
    requires |pool| == 3 && |header| == HEADER_SIZE
    ensures var fs := [Feed(header[..3], []), Feed(header[3..], [])];
      Offered(Parser(pool, 0), fs) && !WritesInside(Parser(pool, 0), fs)
  {
    var p, fs := Parser(pool, 0), [Feed(header[..3], []), Feed(header[3..], [])];
    var q := TakeHeader(p, header[..3]);
    assert fs[1..] == [Feed(header[3..], [])];
    assert q.stored == 3 && |q.pool| == 3 && !HeaderFits(q, header[3..]);
    assert Offered(q, fs[1..]) && !WritesInside(q, fs[1..]);
  }

  lemma HeaderOutside(pool: seq<byte>)
    requires |pool| < HEADER_SIZE
    ensures exists fs :: Offered(Parser(pool, 0), fs) && !WritesInside(Parser(pool, 0), fs)
  {
    var p, fs := Parser(pool, 0), [Feed([Zeros(8), Zeros(8), Zeros(8), Zeros(8)], [])];
    assert !HeaderFits(p, fs[0].header);
    assert Offered(p, fs) && !WritesInside(p, fs);
  }

  /** A pool is written outside by no sequence of reads if and only if it has room for a
      header. */
  lemma WritesInsideIff(pool: seq<byte>)
    ensures (forall fs :: Offered(Parser(pool, 0), fs) ==> WritesInside(Parser(pool, 0), fs))
       <==> |pool| >= HEADER_SIZE
    ensures Within(HeaderTarget(Parser(pool, 0)), |pool|) <==> |pool| >= HEADER_SIZE
  {
    var p := Parser(pool, 0);
    if |pool| >= HEADER_SIZE {
      forall fs | Offered(p, fs)
        ensures WritesInside(p, fs)
      {
        HeaderRoomIsEnough(p, fs);
      }
    } else {
      HeaderOutside(pool);
    }
  }
}
