/**
  Splitting AMQP methods into frames and reassembling them per channel. The reader of a whole
  connection is, channel by channel, the reader of that channel's frames alone.
 */
module Framing {
  import opened Common
  import opened Bytes
  import opened Tables
  import Fields
  import opened Properties

  datatype Frame = Frame(ftype: nat, channel: nat, payload: bytes)

  datatype Sig = Sig(classId: nat, methodId: nat)

  /** Basic.return, Basic.deliver and Basic.get_ok carry content. */
  const CONTENT_METHODS: set<Sig> := {Sig(60, 50), Sig(60, 60), Sig(60, 71)}

  datatype Content = Content(properties: map<string, Fields.Field>, body: bytes)

  datatype AmqpMethod = AmqpMethod(sig: Sig, args: bytes, content: Option<Content>)

  datatype Message = Message(properties: map<string, Fields.Value>, body: bytes)

  /** What the frames of a connection lead to; `Failed` is the exception of a payload that cannot be read. */
  datatype Item =
    | Received(channel: nat, sig: Sig, args: bytes, content: Option<Message>)
    | Unexpected(channel: nat, got: nat, expected: nat)
    | Failed(channel: nat, error: Error)

  // ---------- splitting ----------

  function Chunks(body: bytes, n: nat): seq<bytes>
    requires n > 0
    decreases |body|
  {
    if body == [] then [] else [Take(body, n)] + Chunks(Drop(body, n), n)
  }

  function MethodPayload(m: AmqpMethod): bytes { Be(m.sig.classId, 2) + Be(m.sig.methodId, 2) + m.args }

  function HeaderPayload(schema: Schema, m: AmqpMethod, c: Content): Result<bytes, Failure> {
    var props :- Serialize(schema, c.properties);
    Ok(Be(m.sig.classId, 2) + Be(0, 2) + Be(|c.body|, 8) + props)
  }

  function BodyFrames(channel: nat, parts: seq<bytes>): seq<Frame> {
    seq(|parts|, i requires 0 <= i < |parts| => Frame(3, channel, parts[i]))
  }

  function Split(schema: Schema, channel: nat, m: AmqpMethod, frameMax: nat): Result<seq<Frame>, Failure>
    requires frameMax > 8
  {
    var first := Frame(1, channel, MethodPayload(m));
    if m.content == None then Ok([first])
    else
      var header :- HeaderPayload(schema, m, m.content.value);
      Ok([first, Frame(2, channel, header)] + BodyFrames(channel, Chunks(m.content.value.body, frameMax - 8)))
  }

  /** The body frames carry the body, in order, and each takes at most `frameMax` octets on the wire. */
  lemma {:induction false} ChunksCover(body: bytes, n: nat)
    requires n > 0
    ensures Flatten(Chunks(body, n)) == body
    ensures forall i :: 0 <= i < |Chunks(body, n)| ==> 0 < |Chunks(body, n)[i]| <= n
    ensures forall i :: 0 <= i < |Chunks(body, n)| - 1 ==> |Chunks(body, n)[i]| == n
    decreases |body|
  {
    if body != [] {
      var rest := Chunks(Drop(body, n), n);
      ChunksCover(Drop(body, n), n);
      assert body == Take(body, n) + Drop(body, n);
      assert |Take(body, n)| < n ==> Drop(body, n) == [] && rest == [];
      assert forall i :: 0 < i < |Chunks(body, n)| ==> Chunks(body, n)[i] == rest[i - 1];
    }
  }

  function Payloads(fs: seq<Frame>): seq<bytes> { seq(|fs|, i requires 0 <= i < |fs| => fs[i].payload) }

  /**
    The frames of one method, octet by octet. First the method frame: class id, method id, arguments. With
    content follow a header frame with class id, a weight of zero, the size of the body and the properties,
    and the body, in frames as full as the maximum allows but for the last.
   */
  ghost predicate OnWire(schema: Schema, channel: nat, m: AmqpMethod, frameMax: nat, fs: seq<Frame>) {
    && (forall i :: 0 <= i < |fs| ==> fs[i].channel == channel && fs[i].ftype == if i < 2 then i + 1 else 3)
    && |fs| >= 1 && MethodOctets(m, fs[0].payload)
    && (m.content == None ==> |fs| == 1)
    && (m.content.Some? ==>
          |fs| >= 2 && HeaderOctets(schema, m.sig.classId, m.content.value, fs[1].payload)
          && BodyOctets(m.content.value.body, frameMax, Payloads(fs[2..])))
  }

  ghost predicate MethodOctets(m: AmqpMethod, p: bytes) {
    && |p| >= 4 && p[4..] == m.args
    && Pair(p[0], p[1]) == m.sig.classId && Pair(p[2], p[3]) == m.sig.methodId
  }

  ghost predicate HeaderOctets(schema: Schema, classId: nat, c: Content, p: bytes) {
    && |p| >= 12 && Pair(p[0], p[1]) == classId && p[2] == p[3] == 0 && UnBe(p[4..12]) == |c.body|
    && Serialize(schema, c.properties) == Ok(p[12..])
  }

  ghost predicate BodyOctets(body: bytes, frameMax: nat, parts: seq<bytes>) {
    && Flatten(parts) == body
    && (forall i :: 0 <= i < |parts| - 1 ==> |parts[i]| == frameMax - 8)
    && (parts != [] ==> 0 < |parts[|parts| - 1]| <= frameMax - 8)
  }

  /** Class id, method id and the size of the body fit their fields. */
  predicate Announceable(m: AmqpMethod) {
    && m.sig.classId < 0x1_0000 && m.sig.methodId < 0x1_0000
    && (m.content.Some? ==> |m.content.value.body| < 0x1_0000_0000_0000_0000)
  }

  /** A failure to serialize the properties apart, the frames are these and no others. */
  lemma SplitOnWire(schema: Schema, channel: nat, m: AmqpMethod, frameMax: nat)
    requires frameMax > 8 && Announceable(m)
    ensures Split(schema, channel, m, frameMax).Err?
            <==> m.content.Some? && Serialize(schema, m.content.value.properties).Err?
    ensures Split(schema, channel, m, frameMax).Ok? ==>
              OnWire(schema, channel, m, frameMax, Split(schema, channel, m, frameMax).value)
    ensures MethodOctets(m, MethodPayload(m))
  {
    hide Be, UnBe, Pow256, Serialize, Chunks, Flatten;
    MethodPayloadOctets(m);
    if m.content.Some? && Serialize(schema, m.content.value.properties).Ok? {
      var c, fs := m.content.value, Split(schema, channel, m, frameMax).value;
      HeaderPayloadOctets(schema, m, c);
      ChunksCover(c.body, frameMax - 8);
      assert Payloads(fs[2..]) == Chunks(c.body, frameMax - 8);
    }
  }

  lemma MethodPayloadOctets(m: AmqpMethod)
    requires m.sig.classId < 0x1_0000 && m.sig.methodId < 0x1_0000
    ensures MethodOctets(m, MethodPayload(m))
  {
    hide Be, UnBe, Pow256;
    var a, b := Be(m.sig.classId, 2), Be(m.sig.methodId, 2);
    ShortOctets(m.sig.classId);
    ShortOctets(m.sig.methodId);
    assert (a + b + m.args)[4..] == m.args;
  }

  lemma ShortOctets(n: nat)
    requires n < 0x1_0000
    ensures Pair(Be(n, 2)[0], Be(n, 2)[1]) == n
  {
    hide Be, UnBe, Pow256;
    Widths();
    BeRoundTrip(n, 2);
    NetworkOrder(Be(n, 2));
  }

  lemma HeaderPayloadOctets(schema: Schema, m: AmqpMethod, c: Content)
    requires m.sig.classId < 0x1_0000 && |c.body| < 0x1_0000_0000_0000_0000
    requires Serialize(schema, c.properties).Ok?
    ensures HeaderOctets(schema, m.sig.classId, c, HeaderPayload(schema, m, c).value)
  {
    hide Be, UnBe, Pow256, Serialize;
    var a, z, n, props := Be(m.sig.classId, 2), Be(0, 2), Be(|c.body|, 8), Serialize(schema, c.properties).value;
    var p := a + z + n + props;
    ShortOctets(m.sig.classId);
    ShortOctets(0);
    Widths();
    BeRoundTrip(|c.body|, 8);
    assert p[4..12] == n && p[12..] == props && p[0] == a[0] && p[1] == a[1] && p[2] == z[0] && p[3] == z[1];
  }

  /** A frame of another type than 1, 2 or 3 in turn is answered by its type and the type expected. */
  lemma WrongType(schema: Schema, st: Partial, f: Frame, expected: nat)
    requires expected == if st.Idle? then 1 else if st.WantHeader? then 2 else 3
    requires f.ftype != expected
    ensures ChanRun(schema, st, [f]) == (st, [Unexpected(f.channel, f.ftype, expected)])
  {
    OneStep(schema, st, f, st, Unexpected(f.channel, f.ftype, expected));
  }

  /** Content is awaited behind basic.return, basic.deliver and basic.get-ok, and behind no other method. */
  lemma AwaitsContent(channel: nat, p: bytes)
    requires |p| >= 4
    ensures var st := StepMethod(channel, p);
      st.Ok? && var sig := Sig(Pair(p[0], p[1]), Pair(p[2], p[3]));
                if sig.classId == 60 && (sig.methodId == 50 || sig.methodId == 60 || sig.methodId == 71)
                then st.value == (WantHeader(sig, p[4..]), None)
                else st.value == (Idle, Some(Received(channel, sig, p[4..], None)))
  {
    hide UnBe;
    NetworkOrder(p[..2]);
    NetworkOrder(p[2..][..2]);
    assert p[2..][..2] == p[2..4] && p[2..][2..] == p[4..];
  }

  /** Seven octets of frame head and one of frame end make the announced maximum. */
  lemma FramesFit(schema: Schema, channel: nat, m: AmqpMethod, frameMax: nat)
    requires frameMax > 8 && Split(schema, channel, m, frameMax).Ok?
    ensures forall f | f in Split(schema, channel, m, frameMax).value && f.ftype == 3 :: |f.payload| + 8 <= frameMax
  {
    if m.content.Some? { ChunksCover(m.content.value.body, frameMax - 8); }
  }

  // ---------- one channel ----------

  /** What one channel has received of its next method. */
  datatype Partial =
    | Idle
    | WantHeader(sig: Sig, args: bytes)
    | WantBody(sig: Sig, args: bytes, size: nat, properties: map<string, Fields.Value>, parts: seq<bytes>)

  function ExpectedType(st: Partial): nat {
    match st
    case Idle => 1
    case WantHeader(_, _) => 2
    case WantBody(_, _, _, _, _) => 3
  }

  /** Signature and arguments of a method frame. */
  function MethodHead(payload: bytes): Result<(Sig, bytes), Error> {
    var (a, r1) :- ReadUint(payload, 2);
    var (b, args) :- ReadUint(r1, 2);
    Ok((Sig(a, b), args))
  }

  function StepMethod(channel: nat, payload: bytes): Result<(Partial, Option<Item>), Error> {
    var (sig, args) :- MethodHead(payload);
    if sig in CONTENT_METHODS then Ok((WantHeader(sig, args), None))
    else Ok((Idle, Some(Received(channel, sig, args, None))))
  }

  /** Body size and property octets of a content header frame; class and weight are not used. */
  function HeaderHead(payload: bytes): Result<(nat, bytes), Error> {
    var (_, r1) :- ReadUint(payload, 2);
    var (_, r2) :- ReadUint(r1, 2);
    ReadUint(r2, 8)
  }

  function StepHeader(schema: Schema, st: Partial, channel: nat, payload: bytes): Result<(Partial, Option<Item>), Error>
    requires st.WantHeader?
  {
    var (size, raw) :- HeaderHead(payload);
    var props :- Load(schema, raw);
    if size == 0 then Ok((Idle, Some(Received(channel, st.sig, st.args, Some(Message(props, []))))))
    else Ok((WantBody(st.sig, st.args, size, props, []), None))
  }

  function StepBody(st: Partial, channel: nat, payload: bytes): (Partial, Option<Item>)
    requires st.WantBody?
  {
    var parts := st.parts + [payload];
    if |Flatten(parts)| == st.size
    then (Idle, Some(Received(channel, st.sig, st.args, Some(Message(st.properties, Flatten(parts))))))
    else (st.(parts := parts), None)
  }

  function Step(schema: Schema, st: Partial, f: Frame): Result<(Partial, Option<Item>), Error> {
    if f.ftype != ExpectedType(st) then Ok((st, Some(Unexpected(f.channel, f.ftype, ExpectedType(st)))))
    else match st
      case Idle => StepMethod(f.channel, f.payload)
      case WantHeader(_, _) => StepHeader(schema, st, f.channel, f.payload)
      case WantBody(_, _, _, _, _) => Ok(StepBody(st, f.channel, f.payload))
  }

  /** A frame that cannot be read leaves the channel as it was. */
  function Advance(schema: Schema, st: Partial, f: Frame): (Partial, Option<Item>) {
    match Step(schema, st, f)
    case Ok(next) => next
    case Err(e) => (st, Some(Failed(f.channel, e)))
  }

  function Items(i: Option<Item>): seq<Item> { if i.Some? then [i.value] else [] }

  /** The result `r` of what follows, with `items` put in front. */
  function Emit<S>(items: seq<Item>, r: (S, seq<Item>)): (S, seq<Item>) { (r.0, items + r.1) }

  lemma EmitTwice<S>(a: seq<Item>, b: seq<Item>, r: (S, seq<Item>))
    ensures Emit(a, Emit(b, r)) == Emit(a + b, r) && Emit([], r) == r
  {
    assert a + (b + r.1) == (a + b) + r.1;
    assert [] + r.1 == r.1;
  }

  function ChanRun(schema: Schema, st: Partial, fs: seq<Frame>): (Partial, seq<Item>)
    decreases fs
  {
    if fs == [] then (st, [])
    else
      var (st1, i) := Advance(schema, st, fs[0]);
      Emit(Items(i), ChanRun(schema, st1, fs[1..]))
  }

  // ---------- the whole connection ----------

  type Channels = map<nat, Partial>

  function At(st: Channels, c: nat): Partial { if c in st then st[c] else Idle }

  function Put(st: Channels, c: nat, p: Partial): Channels { if p == Idle then st - {c} else st[c := p] }

  function AdvanceAll(schema: Schema, st: Channels, f: Frame): (Channels, Option<Item>) {
    var (p, i) := Advance(schema, At(st, f.channel), f);
    (Put(st, f.channel, p), i)
  }

  function Run(schema: Schema, st: Channels, fs: seq<Frame>): (Channels, seq<Item>)
    decreases fs
  {
    if fs == [] then (st, [])
    else
      var (st1, i) := AdvanceAll(schema, st, fs[0]);
      Emit(Items(i), Run(schema, st1, fs[1..]))
  }

  function OnChannel(fs: seq<Frame>, c: nat): seq<Frame>
    decreases fs
  {
    if fs == [] then [] else (if fs[0].channel == c then [fs[0]] else []) + OnChannel(fs[1..], c)
  }

  function ItemsOn(items: seq<Item>, c: nat): seq<Item>
    decreases items
  {
    if items == [] then [] else (if items[0].channel == c then [items[0]] else []) + ItemsOn(items[1..], c)
  }

  lemma AdvanceChannel(schema: Schema, st: Partial, f: Frame)
    ensures Advance(schema, st, f).1.Some? ==> Advance(schema, st, f).1.value.channel == f.channel
  {
  }

  lemma ItemsOnPrepend(i: Option<Item>, items: seq<Item>, c: nat)
    ensures ItemsOn(Items(i) + items, c)
            == (if i.Some? && i.value.channel == c then [i.value] else []) + ItemsOn(items, c)
  {
    if i.Some? {
      assert (Items(i) + items)[1..] == items;
    } else {
      assert Items(i) + items == items;
    }
  }

  /** Projection: whatever the interleaving and whatever fails elsewhere, each channel gets what it would alone. */
  lemma {:induction false} RunProjects(schema: Schema, st: Channels, fs: seq<Frame>, c: nat)
    ensures var (end, items) := Run(schema, st, fs);
      ChanRun(schema, At(st, c), OnChannel(fs, c)) == (At(end, c), ItemsOn(items, c))
    decreases fs
  {
    hide Advance;
    if fs != [] {
      var f, rest := fs[0], OnChannel(fs[1..], c);
      var (st1, i) := AdvanceAll(schema, st, f);
      AdvanceChannel(schema, At(st, f.channel), f);
      RunProjects(schema, st1, fs[1..], c);
      ItemsOnPrepend(i, Run(schema, st1, fs[1..]).1, c);
      if f.channel == c {
        assert OnChannel(fs, c)[0] == f && OnChannel(fs, c)[1..] == rest;
      } else {
        assert OnChannel(fs, c) == rest && At(st1, c) == At(st, c);
        EmitTwice([], [], ChanRun(schema, At(st1, c), rest));
      }
    }
  }

  // ---------- the round trip ----------

  /** What the writer's callers may send: content exactly on content methods, fields in range. */
  ghost predicate Sendable(schema: Schema, m: AmqpMethod) {
    && m.sig.classId < 0x1_0000 && m.sig.methodId < 0x1_0000
    && (m.content.Some? <==> m.sig in CONTENT_METHODS)
    && (m.content.Some? ==> NoBitSet(schema, m.content.value.properties) && Fits(schema, m.content.value.properties)
                            && NonePast15(schema, m.content.value.properties)
                            && |m.content.value.body| < 0x1_0000_0000_0000_0000)
  }

  /** The receiver can convert the times and decode the strings among a method's properties. */
  ghost predicate Readable(schema: Schema, m: AmqpMethod) {
    m.content.Some? ==> AllLegible(schema, m.content.value.properties)
  }

  /** The content of `m` under some signature and arguments. */
  ghost function ContentUnder(schema: Schema, channel: nat, sig: Sig, args: bytes, m: AmqpMethod): Item
    requires Sendable(schema, m) && m.content.Some?
  {
    var c := m.content.value;
    Received(channel, sig, args, Some(Message(Expected(schema, c.properties), c.body)))
  }

  ghost function Delivered(schema: Schema, channel: nat, m: AmqpMethod): Item
    requires Sendable(schema, m)
  {
    if m.content == None then Received(channel, m.sig, m.args, None)
    else ContentUnder(schema, channel, m.sig, m.args, m)
  }

  lemma {:induction false} ChanRunAppend(schema: Schema, st: Partial, fs: seq<Frame>, gs: seq<Frame>)
    ensures var (mid, items) := ChanRun(schema, st, fs);
      ChanRun(schema, st, fs + gs) == Emit(items, ChanRun(schema, mid, gs))
    decreases fs
  {
    hide Advance;
    if fs == [] {
      assert fs + gs == gs;
      EmitTwice([], [], ChanRun(schema, st, gs));
    } else {
      assert (fs + gs)[1..] == fs[1..] + gs;
      var (st1, i) := Advance(schema, st, fs[0]);
      ChanRunAppend(schema, st1, fs[1..], gs);
      var (mid, items) := ChanRun(schema, st1, fs[1..]);
      EmitTwice(Items(i), items, ChanRun(schema, mid, gs));
    }
  }

  lemma OneStep(schema: Schema, st: Partial, f: Frame, st1: Partial, item: Item)
    requires Advance(schema, st, f) == (st1, Some(item))
    ensures ChanRun(schema, st, [f]) == (st1, [item])
  {
    assert ChanRun(schema, st1, [f][1..]) == (st1, []);
    assert [item] + [] == [item];
  }

  /** Body frames complete the message at the last octet announced, and not before. */
  lemma {:induction false} BodyReassembles(schema: Schema, st: Partial, channel: nat, body: bytes, n: nat)
    requires st.WantBody? && n > 0 && body != []
    requires |Flatten(st.parts)| + |body| == st.size
    ensures ChanRun(schema, st, BodyFrames(channel, Chunks(body, n))) ==
            (Idle, [Received(channel, st.sig, st.args, Some(Message(st.properties, Flatten(st.parts) + body)))])
    decreases |body|
  {
    var part, rest := Take(body, n), Drop(body, n);
    var fs := BodyFrames(channel, Chunks(body, n));
    assert fs[0] == Frame(3, channel, part) && fs[1..] == BodyFrames(channel, Chunks(rest, n));
    FlattenAppend(st.parts, [part]);
    assert Flatten([part]) == part by { assert Flatten<byte>([]) == []; }
    assert body == part + rest;
    assert (Flatten(st.parts) + part) + rest == Flatten(st.parts) + body;
    var st1 := st.(parts := st.parts + [part]);
    EmitTwice([], [], ChanRun(schema, st1, fs[1..]));
    if rest != [] {
      assert Advance(schema, st, fs[0]) == (st1, None);
      BodyReassembles(schema, st1, channel, rest, n);
    } else {
      assert fs[1..] == [];
      var done := Received(channel, st.sig, st.args, Some(Message(st.properties, Flatten(st.parts) + body)));
      assert Advance(schema, st, fs[0]) == (Idle, Some(done));
      OneStep(schema, st, fs[0], Idle, done);
      assert fs == [fs[0]];
    }
  }

  lemma MethodPayloadReadsBack(schema: Schema, channel: nat, m: AmqpMethod)
    requires Sendable(schema, m)
    ensures StepMethod(channel, MethodPayload(m)) ==
            Ok(if m.content.Some? then (WantHeader(m.sig, m.args), None)
               else (Idle, Some(Received(channel, m.sig, m.args, None))))
  {
    Widths();
    UintRoundTrip(m.sig.classId, 2, Be(m.sig.methodId, 2) + m.args);
    UintRoundTrip(m.sig.methodId, 2, m.args);
    assert MethodPayload(m) == Be(m.sig.classId, 2) + (Be(m.sig.methodId, 2) + m.args);
  }

  /** What a channel that awaits a header makes of one whose properties it can read. */
  ghost function HeaderOutcome(schema: Schema, st: Partial, channel: nat, m: AmqpMethod): (Partial, Option<Item>)
    requires st.WantHeader? && Sendable(schema, m) && m.content.Some?
  {
    var c := m.content.value;
    var props := Expected(schema, c.properties);
    if c.body == [] then (Idle, Some(ContentUnder(schema, channel, st.sig, st.args, m)))
    else (WantBody(st.sig, st.args, |c.body|, props, []), None)
  }

  lemma HeaderPayloadReadsBack(schema: Schema, st: Partial, channel: nat, m: AmqpMethod)
    requires st.WantHeader? && Sendable(schema, m) && m.content.Some?
    ensures HeaderPayload(schema, m, m.content.value).Ok?
    ensures var r := StepHeader(schema, st, channel, HeaderPayload(schema, m, m.content.value).value);
      if Readable(schema, m) then r == Ok(HeaderOutcome(schema, st, channel, m)) else r.Err?
  {
    hide UnBe, Be, Serialize, Load, NonePast15, NoBitSet;
    var c := m.content.value;
    PropertiesReadBack(schema, c.properties);
    var props := Serialize(schema, c.properties).value;
    HeaderHeadReadsBack(m.sig.classId, |c.body|, props);
  }

  lemma HeaderHeadReadsBack(classId: nat, size: nat, props: bytes)
    requires classId < 0x1_0000 && size < 0x1_0000_0000_0000_0000
    ensures HeaderHead(Be(classId, 2) + Be(0, 2) + Be(size, 8) + props) == Ok((size, props))
  {
    hide UnBe, Be, Pow256;
    Widths();
    UintRoundTrip(classId, 2, Be(0, 2) + (Be(size, 8) + props));
    UintRoundTrip(0, 2, Be(size, 8) + props);
    UintRoundTrip(size, 8, props);
    assert Be(classId, 2) + Be(0, 2) + Be(size, 8) + props == Be(classId, 2) + (Be(0, 2) + (Be(size, 8) + props));
  }

  lemma SilentStep(schema: Schema, st: Partial, fs: seq<Frame>, st1: Partial)
    requires fs != [] && Advance(schema, st, fs[0]) == (st1, None)
    ensures ChanRun(schema, st, fs) == ChanRun(schema, st1, fs[1..])
  {
    EmitTwice([], [], ChanRun(schema, st1, fs[1..]));
  }

  lemma MethodStep(schema: Schema, channel: nat, m: AmqpMethod)
    requires Sendable(schema, m)
    ensures Advance(schema, Idle, Frame(1, channel, MethodPayload(m))) ==
            if m.content.Some? then (WantHeader(m.sig, m.args), None)
            else (Idle, Some(Received(channel, m.sig, m.args, None)))
  {
    hide MethodPayload, StepMethod;
    MethodPayloadReadsBack(schema, channel, m);
  }

  lemma HeaderStep(schema: Schema, st: Partial, channel: nat, m: AmqpMethod)
    requires st.WantHeader? && Sendable(schema, m) && m.content.Some?
    ensures HeaderPayload(schema, m, m.content.value).Ok?
    ensures var r := Advance(schema, st, Frame(2, channel, HeaderPayload(schema, m, m.content.value).value));
      if Readable(schema, m) then r == HeaderOutcome(schema, st, channel, m)
      else r.0 == st && r.1.Some? && r.1.value.Failed?
  {
    hide HeaderPayload, StepHeader, HeaderOutcome;
    HeaderPayloadReadsBack(schema, st, channel, m);
  }

  lemma NoChunks(n: nat)
    requires n > 0
    ensures Chunks([], n) == []
  {
  }

  /** Frames of a type the channel does not expect are answered one by one and change nothing. */
  function Refusals(channel: nat, got: nat, expected: nat, n: nat): seq<Item> {
    seq(n, _ => Unexpected(channel, got, expected))
  }

  lemma {:induction false} BodiesRefused(schema: Schema, st: Partial, channel: nat, parts: seq<bytes>)
    requires st.WantHeader?
    ensures ChanRun(schema, st, BodyFrames(channel, parts)) == (st, Refusals(channel, 3, 2, |parts|))
  {
    var fs := BodyFrames(channel, parts);
    if parts == [] {
      assert fs == [] && Refusals(channel, 3, 2, 0) == [];
    } else {
      assert fs[1..] == BodyFrames(channel, parts[1..]);
      BodiesRefused(schema, st, channel, parts[1..]);
      assert Advance(schema, st, fs[0]) == (st, Some(Unexpected(channel, 3, 2)));
      assert [Unexpected(channel, 3, 2)] + Refusals(channel, 3, 2, |parts| - 1) == Refusals(channel, 3, 2, |parts|);
    }
  }

  /** The channel has failed once, refused what followed, and still awaits a header for its method. */
  ghost predicate LeftWaiting(channel: nat, m: AmqpMethod, n: nat, r: (Partial, seq<Item>)) {
    && r.0 == WantHeader(m.sig, m.args) && r.1 != [] && r.1[0].Failed?
    && r.1[1..] == Refusals(channel, 3, 2, n)
  }

  /**
    One method's frames, read from an idle channel, give back exactly that method; or its properties
    cannot be read, and the channel is left waiting for a header.
   */
  lemma SplitReassembles(schema: Schema, channel: nat, m: AmqpMethod, frameMax: nat)
    requires frameMax > 8 && Sendable(schema, m)
    ensures Split(schema, channel, m, frameMax).Ok?
    ensures var r := ChanRun(schema, Idle, Split(schema, channel, m, frameMax).value);
      if Readable(schema, m) then r == (Idle, [Delivered(schema, channel, m)])
      else m.content.Some? && LeftWaiting(channel, m, |Chunks(m.content.value.body, frameMax - 8)|, r)
  {
    hide Advance, ChanRun, HeaderPayload, MethodPayload, Chunks, AllLegible, Sendable, LeftWaiting, HeaderOutcome;
    MethodStep(schema, channel, m);
    var first := Frame(1, channel, MethodPayload(m));
    if m.content == None {
      OneStep(schema, Idle, first, Idle, Delivered(schema, channel, m));
    } else {
      var st := WantHeader(m.sig, m.args);
      HeaderStep(schema, st, channel, m);
      var second := Frame(2, channel, HeaderPayload(schema, m, m.content.value).value);
      var parts := Chunks(m.content.value.body, frameMax - 8);
      var bodies := BodyFrames(channel, parts);
      SilentStep(schema, Idle, [first, second] + bodies, st);
      assert ([first, second] + bodies)[1..] == [second] + bodies;
      if Readable(schema, m) {
        HeaderThenBody(schema, st, channel, m, second, frameMax - 8);
      } else {
        HeaderFails(schema, m, channel, second, parts);
      }
    }
  }

  /** A readable content header and the body frames behind it complete the method. */
  lemma HeaderThenBody(schema: Schema, st: Partial, channel: nat, m: AmqpMethod, second: Frame, n: nat)
    requires st.WantHeader? && Sendable(schema, m) && m.content.Some? && n > 0
    requires Advance(schema, st, second) == HeaderOutcome(schema, st, channel, m)
    ensures ChanRun(schema, st, [second] + BodyFrames(channel, Chunks(m.content.value.body, n)))
         == (Idle, [ContentUnder(schema, channel, st.sig, st.args, m)])
  {
    hide Advance, ChanRun, Chunks, Fits, NoBitSet;
    var c := m.content.value;
    var item := ContentUnder(schema, channel, st.sig, st.args, m);
    var bodies := BodyFrames(channel, Chunks(c.body, n));
    assert ([second] + bodies)[1..] == bodies;
    if c.body == [] {
      NoChunks(n);
      assert bodies == [] && [second] + bodies == [second];
      OneStep(schema, st, second, Idle, item);
    } else {
      var st1 := WantBody(st.sig, st.args, |c.body|, Expected(schema, c.properties), []);
      SilentStep(schema, st, [second] + bodies, st1);
      BodyReassembles(schema, st1, channel, c.body, n);
      assert [] + c.body == c.body;
    }
  }

  lemma HeaderFails(schema: Schema, m: AmqpMethod, channel: nat, second: Frame, parts: seq<bytes>)
    requires var r := Advance(schema, WantHeader(m.sig, m.args), second);
      r.0 == WantHeader(m.sig, m.args) && r.1.Some? && r.1.value.Failed?
    ensures var fs := [second] + BodyFrames(channel, parts);
      LeftWaiting(channel, m, |parts|, ChanRun(schema, WantHeader(m.sig, m.args), fs))
  {
    hide Advance;
    var st, fs := WantHeader(m.sig, m.args), [second] + BodyFrames(channel, parts);
    assert fs[0] == second && fs[1..] == BodyFrames(channel, parts);
    var failed := Advance(schema, st, second).1.value;
    BodiesRefused(schema, st, channel, parts);
    assert ChanRun(schema, st, fs) == Emit([failed], ChanRun(schema, st, fs[1..]));
  }

  /**
    After a header that cannot be read, the next method on the channel is refused, and its content
    comes out under the signature and arguments of the one before.
   */
  lemma ContentMisplaced(schema: Schema, channel: nat, m: AmqpMethod, next: AmqpMethod, frameMax: nat)
    requires frameMax > 8 && Sendable(schema, m) && Sendable(schema, next)
    requires !Readable(schema, m) && Readable(schema, next) && next.content.Some?
    ensures Split(schema, channel, m, frameMax).Ok? && Split(schema, channel, next, frameMax).Ok?
    ensures var mid := ChanRun(schema, Idle, Split(schema, channel, m, frameMax).value);
      var fs := Split(schema, channel, m, frameMax).value + Split(schema, channel, next, frameMax).value;
      ChanRun(schema, Idle, fs) ==
      (Idle, mid.1 + [Unexpected(channel, 1, 2), ContentUnder(schema, channel, m.sig, m.args, next)])
  {
    hide Advance, ChanRun, HeaderPayload, MethodPayload, Chunks, AllLegible, Sendable, HeaderOutcome;
    SplitReassembles(schema, channel, m, frameMax);
    SplitReassembles(schema, channel, next, frameMax);
    var head, tail := Split(schema, channel, m, frameMax).value, Split(schema, channel, next, frameMax).value;
    var st := WantHeader(m.sig, m.args);
    ChanRunAppend(schema, Idle, head, tail);
    HeaderStep(schema, st, channel, next);
    var second := Frame(2, channel, HeaderPayload(schema, next, next.content.value).value);
    var bodies := BodyFrames(channel, Chunks(next.content.value.body, frameMax - 8));
    HeaderThenBody(schema, st, channel, next, second, frameMax - 8);
    assert tail[0] == Frame(1, channel, MethodPayload(next)) && tail[1..] == [second] + bodies;
    RefusedFirst(schema, st, tail);
    var refused, item := Unexpected(channel, 1, 2), ContentUnder(schema, channel, m.sig, m.args, next);
    assert ChanRun(schema, st, tail) == (Idle, [refused] + [item]) && [refused] + [item] == [refused, item];
  }

  lemma RefusedFirst(schema: Schema, st: Partial, fs: seq<Frame>)
    requires fs != [] && fs[0].ftype != ExpectedType(st)
    ensures ChanRun(schema, st, fs)
         == Emit([Unexpected(fs[0].channel, fs[0].ftype, ExpectedType(st))], ChanRun(schema, st, fs[1..]))
  {
  }

  function SplitAll(schema: Schema, channel: nat, ms: seq<AmqpMethod>, frameMax: nat): Result<seq<Frame>, Failure>
    requires frameMax > 8
    decreases ms
  {
    if ms == [] then Ok([])
    else
      var fs :- Split(schema, channel, ms[0], frameMax);
      var rest :- SplitAll(schema, channel, ms[1..], frameMax);
      Ok(fs + rest)
  }

  ghost function DeliveredAll(schema: Schema, channel: nat, ms: seq<AmqpMethod>): seq<Item>
    requires forall m | m in ms :: Sendable(schema, m)
  {
    seq(|ms|, i requires 0 <= i < |ms| => Delivered(schema, channel, ms[i]))
  }

  ghost predicate AllReadable(schema: Schema, ms: seq<AmqpMethod>) { forall m | m in ms :: Readable(schema, m) }

  ghost predicate HasFailed(items: seq<Item>) { exists i :: 0 <= i < |items| && items[i].Failed? }

  lemma FailedJoins(a: seq<Item>, b: seq<Item>)
    ensures HasFailed(a + b) <==> HasFailed(a) || HasFailed(b)
  {
    if HasFailed(a) {
      var i :| 0 <= i < |a| && a[i].Failed?;
      assert (a + b)[i].Failed?;
    }
    if HasFailed(b) {
      var i :| 0 <= i < |b| && b[i].Failed?;
      assert (a + b)[|a| + i].Failed?;
    }
  }

  /** A channel receives exactly its methods in order, or fails at one whose properties cannot be read. */
  lemma {:induction false} ChannelRoundTrip(schema: Schema, channel: nat, ms: seq<AmqpMethod>, frameMax: nat)
    requires frameMax > 8 && forall m | m in ms :: Sendable(schema, m)
    ensures SplitAll(schema, channel, ms, frameMax).Ok?
    ensures var r := ChanRun(schema, Idle, SplitAll(schema, channel, ms, frameMax).value);
      if AllReadable(schema, ms) then r == (Idle, DeliveredAll(schema, channel, ms)) else HasFailed(r.1)
    decreases ms
  {
    hide Split, Delivered, Readable, Sendable, Refusals, Chunks, HasFailed;
    if ms == [] {
      assert DeliveredAll(schema, channel, ms) == [];
    } else {
      SplitReassembles(schema, channel, ms[0], frameMax);
      ChannelRoundTrip(schema, channel, ms[1..], frameMax);
      var head := Split(schema, channel, ms[0], frameMax).value;
      var tail := SplitAll(schema, channel, ms[1..], frameMax).value;
      assert AllReadable(schema, ms) <==> Readable(schema, ms[0]) && AllReadable(schema, ms[1..]) by {
        assert ms == [ms[0]] + ms[1..];
      }
      var (mid, items) := ChanRun(schema, Idle, head);
      ChanRunAppend(schema, Idle, head, tail);
      FailedJoins(items, ChanRun(schema, mid, tail).1);
      if Readable(schema, ms[0]) {
        assert DeliveredAll(schema, channel, ms)
            == [Delivered(schema, channel, ms[0])] + DeliveredAll(schema, channel, ms[1..]);
      } else {
        FailedFirst(items);
      }
    }
  }

  lemma FailedFirst(items: seq<Item>)
    requires items != [] && items[0].Failed?
    ensures HasFailed(items)
  {
  }

  lemma NoneFailed(schema: Schema, channel: nat, ms: seq<AmqpMethod>)
    requires forall m | m in ms :: Sendable(schema, m)
    ensures !HasFailed(DeliveredAll(schema, channel, ms))
  {
  }

  /**
    For any frames of a connection among which those of channel `c` are, in order, those of the methods
    `ms`: the channel receives exactly these methods, in order, and ends idle, if and only if the
    properties of all of them can be read, whatever happens on the other channels.
   */
  lemma InterleavedRoundTrip(schema: Schema, ms: seq<AmqpMethod>, fs: seq<Frame>, frameMax: nat, c: nat)
    requires frameMax > 8 && forall m | m in ms :: Sendable(schema, m)
    requires SplitAll(schema, c, ms, frameMax) == Ok(OnChannel(fs, c))
    ensures var (end, items) := Run(schema, map[], fs);
      && (ItemsOn(items, c) == DeliveredAll(schema, c, ms) <==> AllReadable(schema, ms))
      && (HasFailed(ItemsOn(items, c)) <==> !AllReadable(schema, ms))
      && (AllReadable(schema, ms) ==> At(end, c) == Idle)
  {
    hide AllReadable, Sendable, ChanRun, SplitAll, OnChannel, HasFailed, DeliveredAll;
    RunProjects(schema, map[], fs, c);
    ChannelRoundTrip(schema, c, ms, frameMax);
    NoneFailed(schema, c, ms);
  }

  // ---------- arbitrary frames ----------

  /** `fs` are the frames of a method received so far on a channel in state `st`. */
  ghost predicate Forms(schema: Schema, st: Partial, fs: seq<Frame>) {
    match st
    case Idle => fs == []
    case WantHeader(_, _) =>
      |fs| == 1 && fs[0].ftype == 1 && StepMethod(fs[0].channel, fs[0].payload) == Ok((st, None))
    case WantBody(sig, args, size, props, parts) =>
      && |fs| >= 2 && fs[0].ftype == 1 && fs[1].ftype == 2
      && StepMethod(fs[0].channel, fs[0].payload) == Ok((WantHeader(sig, args), None))
      && StepHeader(schema, WantHeader(sig, args), fs[1].channel, fs[1].payload) == Ok((st.(parts := []), None))
      && parts == Payloads(fs[2..]) && (forall f | f in fs[2..] :: f.ftype == 3)
      && |Flatten(parts)| != size
  }

  /** The frames of one received method: its signature and arguments, header, and a body of the announced size. */
  ghost predicate Explains(schema: Schema, fs: seq<Frame>, item: Item) {
    && item.Received? && fs != [] && fs[0].ftype == 1
    && match item.content
       case None => |fs| == 1 && StepMethod(item.channel, fs[0].payload) == Ok((Idle, Some(item)))
       case Some(msg) =>
         && |fs| >= 2 && StepMethod(item.channel, fs[0].payload) == Ok((WantHeader(item.sig, item.args), None))
         && fs[1].ftype == 2 && AnnouncedSize(fs[1].payload) == Some(|msg.body|)
         && Load(schema, Drop(fs[1].payload, 12)) == Ok(msg.properties)
         && (forall f | f in fs[2..] :: f.ftype == 3) && Flatten(Payloads(fs[2..])) == msg.body
  }

  /** The body size in a content header. */
  function AnnouncedSize(payload: bytes): Option<nat> {
    if |payload| < 12 then None else Some(UnBe(payload[4..12]))
  }

  /** A frame of the type expected that can be read. */
  predicate Takes(schema: Schema, st: Partial, f: Frame) { f.ftype == ExpectedType(st) && Step(schema, st, f).Ok? }

  /** The frames a channel takes in; any other is answered, or raises, and is dropped. */
  function Accepted(schema: Schema, st: Partial, fs: seq<Frame>): seq<Frame>
    decreases fs
  {
    if fs == [] then []
    else
      var taken := if Takes(schema, st, fs[0]) then [fs[0]] else [];
      taken + Accepted(schema, Advance(schema, st, fs[0]).0, fs[1..])
  }

  function Methods(items: seq<Item>): seq<Item>
    decreases items
  {
    if items == [] then [] else (if items[0].Received? then [items[0]] else []) + Methods(items[1..])
  }

  lemma HeaderParts(schema: Schema, st: Partial, channel: nat, payload: bytes)
    requires st.WantHeader? && StepHeader(schema, st, channel, payload).Ok?
    ensures |payload| >= 12 && AnnouncedSize(payload).Some?
    ensures Load(schema, Drop(payload, 12)).Ok?
    ensures var size, props := AnnouncedSize(payload).value, Load(schema, Drop(payload, 12)).value;
      StepHeader(schema, st, channel, payload) ==
      Ok(if size == 0 then (Idle, Some(Received(channel, st.sig, st.args, Some(Message(props, [])))))
         else (WantBody(st.sig, st.args, size, props, []), None))
  {
    assert payload[2..][2..] == payload[4..];
    assert payload[4..][..8] == payload[4..12];
    assert payload[4..][8..] == payload[12..];
  }

  lemma AcceptHeader(schema: Schema, st: Partial, pending: seq<Frame>, f: Frame)
    requires st.WantHeader? && Forms(schema, st, pending) && f.ftype == ExpectedType(st) && Step(schema, st, f).Ok?
    requires forall g | g in pending :: g.channel == f.channel
    ensures var (st', i) := Step(schema, st, f).value;
      if i == None then Forms(schema, st', pending + [f])
      else st' == Idle && Explains(schema, pending + [f], i.value)
  {
    var fs := pending + [f];
    HeaderParts(schema, st, f.channel, f.payload);
    assert fs[..1] == pending && fs[2..] == [];
  }

  lemma AcceptBody(schema: Schema, st: Partial, pending: seq<Frame>, f: Frame)
    requires st.WantBody? && Forms(schema, st, pending) && f.ftype == ExpectedType(st) && Step(schema, st, f).Ok?
    requires forall g | g in pending :: g.channel == f.channel
    ensures var (st', i) := Step(schema, st, f).value;
      if i == None then Forms(schema, st', pending + [f])
      else st' == Idle && Explains(schema, pending + [f], i.value)
  {
    hide StepMethod, StepHeader, Load;
    var fs := pending + [f];
    HeaderParts(schema, WantHeader(st.sig, st.args), fs[1].channel, fs[1].payload);
    assert fs[2..] == pending[2..] + [f];
    assert Payloads(fs[2..]) == st.parts + [f.payload];
    assert fs[0] == pending[0] && fs[1] == pending[1];
  }

  /** One accepted frame extends the frames in progress, or completes and explains a method. */
  lemma AcceptOne(schema: Schema, st: Partial, pending: seq<Frame>, f: Frame)
    requires Forms(schema, st, pending) && f.ftype == ExpectedType(st) && Step(schema, st, f).Ok?
    requires forall g | g in pending :: g.channel == f.channel
    ensures var (st', i) := Step(schema, st, f).value;
      if i == None then Forms(schema, st', pending + [f])
      else st' == Idle && Explains(schema, pending + [f], i.value)
  {
    match st
    case Idle => assert pending + [f] == [f];
    case WantHeader(_, _) => AcceptHeader(schema, st, pending, f);
    case WantBody(_, _, _, _, _) => AcceptBody(schema, st, pending, f);
  }

  /**
    What was accepted of `fs`, behind the frames already pending, is one block of frames per method
    received, each explaining its method, and the frames `rest` of one still in progress.
   */
  ghost predicate Explained(schema: Schema, st: Partial, pending: seq<Frame>, fs: seq<Frame>, blocks: seq<seq<Frame>>,
                            rest: seq<Frame>)
  {
    var (end, items) := ChanRun(schema, st, fs);
    && Flatten(blocks) + rest == pending + Accepted(schema, st, fs)
    && Forms(schema, end, rest)
    && ExplainEach(schema, blocks, Methods(items))
  }

  ghost predicate ExplainEach(schema: Schema, blocks: seq<seq<Frame>>, items: seq<Item>) {
    |blocks| == |items| && forall i :: 0 <= i < |blocks| ==> Explains(schema, blocks[i], items[i])
  }

  lemma ExplainCons(schema: Schema, block: seq<Frame>, item: Item, blocks: seq<seq<Frame>>, items: seq<Item>,
                    rest: seq<Frame>, accepted: seq<Frame>)
    requires Explains(schema, block, item) && ExplainEach(schema, blocks, items)
    requires Flatten(blocks) + rest == [] + accepted
    ensures ExplainEach(schema, [block] + blocks, [item] + items)
    ensures Flatten([block] + blocks) + rest == block + accepted
  {
    assert ([block] + blocks)[1..] == blocks;
    assert (block + Flatten(blocks)) + rest == block + (Flatten(blocks) + rest);
    assert [] + accepted == accepted;
  }

  /** How one frame moves the frames in progress: dropped, kept, or closing a block. */
  datatype Fate = Dropped | Kept | Closed(item: Item)

  function FateOf(schema: Schema, st: Partial, f: Frame): Fate {
    var i := Advance(schema, st, f).1;
    if !Takes(schema, st, f) then Dropped else if i == None then Kept else Closed(i.value)
  }

  /** The first frame's share of a run: what it leaves to the others, and its fate. */
  lemma RunFirst(schema: Schema, st: Partial, pending: seq<Frame>, fs: seq<Frame>) returns (st1: Partial, fate: Fate)
    requires fs != [] && Forms(schema, st, pending)
    requires forall g | g in pending :: g.channel == fs[0].channel
    ensures ChanRun(schema, st, fs).0 == ChanRun(schema, st1, fs[1..]).0
    ensures Methods(ChanRun(schema, st, fs).1)
         == (if fate.Closed? then [fate.item] else []) + Methods(ChanRun(schema, st1, fs[1..]).1)
    ensures Accepted(schema, st, fs)
         == (if fate == Dropped then [] else [fs[0]]) + Accepted(schema, st1, fs[1..])
    ensures fate == Dropped ==> st1 == st
    ensures fate == Kept ==> Forms(schema, st1, pending + [fs[0]])
    ensures fate.Closed? ==> st1 == Idle && Explains(schema, pending + [fs[0]], fate.item)
  {
    hide Forms, Explains, StepMethod, StepHeader, StepBody;
    var i := Advance(schema, st, fs[0]).1;
    st1, fate := Advance(schema, st, fs[0]).0, FateOf(schema, st, fs[0]);
    MethodsPrepend(i, ChanRun(schema, st1, fs[1..]).1);
    if fate != Dropped {
      AcceptOne(schema, st, pending, fs[0]);
      ClosedReceived(schema, pending, fs[0], i);
    }
  }

  lemma ClosedReceived(schema: Schema, pending: seq<Frame>, f: Frame, i: Option<Item>)
    ensures i.Some? && Explains(schema, pending + [f], i.value) ==> i.value.Received?
  {
  }

  /**
    Soundness on arbitrary frames: no message is delivered whose body is not the concatenation of
    its body frames, of the size its header announced, and nothing accepted is lost.
   */
  lemma {:induction false} AcceptedExplained(schema: Schema, st: Partial, pending: seq<Frame>, fs: seq<Frame>, c: nat)
    returns (blocks: seq<seq<Frame>>, rest: seq<Frame>)
    requires Forms(schema, st, pending)
    requires forall f | f in pending :: f.channel == c
    requires forall f | f in fs :: f.channel == c
    ensures Explained(schema, st, pending, fs, blocks, rest)
    decreases fs
  {
    hide Forms, Advance, ChanRun, Accepted, Methods, Explains;
    NoneForms(schema);
    if fs == [] {
      blocks, rest := [], pending;
      ExplainedNothing(schema, st, pending);
    } else {
      var st1, fate := RunFirst(schema, st, pending, fs);
      var accepted, items := Accepted(schema, st1, fs[1..]), Methods(ChanRun(schema, st1, fs[1..]).1);
      var block := pending + [fs[0]];
      assert pending + ([fs[0]] + accepted) == block + accepted;
      assert [] + accepted == accepted && [] + items == items;
      match fate
      case Dropped => blocks, rest := AcceptedExplained(schema, st1, pending, fs[1..], c);
      case Kept => blocks, rest := AcceptedExplained(schema, st1, block, fs[1..], c);
      case Closed(item) =>
        var more;
        more, rest := AcceptedExplained(schema, st1, [], fs[1..], c);
        blocks := [block] + more;
        ExplainCons(schema, block, item, more, items, rest, accepted);
    }
  }

  lemma ExplainedNothing(schema: Schema, st: Partial, pending: seq<Frame>)
    requires Forms(schema, st, pending)
    ensures Explained(schema, st, pending, [], [], pending)
  {
    hide Forms, Step;
    assert [] + pending == pending + [];
  }

  lemma NoneForms(schema: Schema)
    ensures Forms(schema, Idle, [])
  {
  }

  lemma MethodsPrepend(i: Option<Item>, items: seq<Item>)
    ensures Methods(Items(i) + items) == (if i.Some? && i.value.Received? then [i.value] else []) + Methods(items)
  {
    if i.Some? {
      assert (Items(i) + items)[1..] == items;
    } else {
      assert Items(i) + items == items;
    }
  }

  lemma {:induction false} OnChannelChannel(fs: seq<Frame>, c: nat)
    ensures forall f | f in OnChannel(fs, c) :: f.channel == c
    decreases fs
  {
    if fs != [] { OnChannelChannel(fs[1..], c); }
  }

  /** The same for a connection: on every channel, what was accepted explains what was received. */
  lemma ConnectionExplained(schema: Schema, fs: seq<Frame>, c: nat) returns (blocks: seq<seq<Frame>>, rest: seq<Frame>)
    ensures ItemsOn(Run(schema, map[], fs).1, c) == ChanRun(schema, Idle, OnChannel(fs, c)).1
    ensures Explained(schema, Idle, [], OnChannel(fs, c), blocks, rest)
  {
    RunProjects(schema, map[], fs, c);
    OnChannelChannel(fs, c);
    blocks, rest := AcceptedExplained(schema, Idle, [], OnChannel(fs, c), c);
  }
}
