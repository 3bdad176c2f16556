/** The client stack as a whole: methods through both ends' objects and the network between them. */
module Stack {
  import opened Common
  import opened Bytes
  import Demux
  import opened Properties
  import opened Framing
  import opened MethodFraming
  import opened Transport

  /** A network that delivers every octet in order, in pieces of its own choice. */
  ghost predicate Delivers(cut: bytes -> seq<bytes>) {
    forall s :: Flatten(cut(s)) == s && forall piece | piece in cut(s) :: 0 < |piece| <= 65536
  }

  /** Every frame is packed and handed to the socket. */
  method Send(fs: seq<Frame>) returns (wire: bytes)
    requires forall f | f in fs :: Packable(f)
    ensures wire == WireAll(fs)
  {
    var t := new TCPTransport([]);
    for i := 0 to |fs|
      invariant fresh(t) && t.outgoing == WireAll(fs[..i])
    {
      var error := t.WriteFrame(fs[i]);
      WireSnoc(fs[..i], fs[i]);
      assert fs[..i + 1] == fs[..i] + [fs[i]];
    }
    assert fs[..|fs|] == fs;
    wire := t.outgoing;
  }

  lemma {:induction false} WireSnoc(fs: seq<Frame>, f: Frame)
    ensures WireAll(fs + [f]) == WireAll(fs) + Wire(f)
  {
    if fs == [] {
      assert [f][1..] == [] && WireAll([]) == [] && Wire(f) + [] == [] + Wire(f);
      assert [] + [f] == [f];
    } else {
      assert (fs + [f])[1..] == fs[1..] + [f];
      WireSnoc(fs[1..], f);
      assert Wire(fs[0]) + (WireAll(fs[1..]) + Wire(f)) == (Wire(fs[0]) + WireAll(fs[1..])) + Wire(f);
    }
  }

  /** What a caller sees of the items. */
  function Outcomes(items: seq<Item>): seq<Outcome> {
    seq(|items|, i requires 0 <= i < |items| => OutcomeOf(items[i]))
  }

  /** Methods are read until the frames run out; the caller goes on after an exception. */
  method ReadAll(reader: MethodReader) returns (r: seq<Outcome>, ghost items: seq<Item>)
    requires reader.Valid()
    modifies reader, reader.partialMessages.Values
    ensures items == Run(reader.schema, old(reader.view), old(reader.source)).1 && r == Outcomes(items)
  {
    ghost var goal := Drain(reader.schema, reader.view, reader.source);
    DrainIsRun(reader.schema, reader.view, reader.source);
    r, items := [], [];
    var more := true;
    EmitTwice([], [], goal);
    while more
      invariant reader.Valid() && r == Outcomes(items)
      invariant more ==> goal == Emit(items, Drain(reader.schema, reader.view, reader.source))
      invariant forall p | p in reader.partialMessages.Values :: p in old(reader.partialMessages.Values) || fresh(p)
      invariant !more ==> items == goal.1
      decreases more, |reader.source|
    {
      ghost var st, source := reader.view, reader.source;
      NextConsumes(reader.schema, st, source);
      ghost var next := NextItem(reader.schema, st, source).0;
      var outcome := reader.ReadMethod();
      if outcome == Ended {
        assert items + [] == items;
        more := false;
      } else {
        EmitTwice(items, [next.value], Drain(reader.schema, reader.view, reader.source));
        r, items := r + [outcome], items + [next.value];
      }
    }
  }

  /** Frames packed, sent, cut up, received, unpacked and reassembled. */
  method Carry(schema: Schema, fs: seq<Frame>, cut: bytes -> seq<bytes>)
    returns (r: seq<Outcome>, ghost items: seq<Item>)
    requires Delivers(cut) && forall f | f in fs :: Packable(f)
    ensures items == Run(schema, map[], fs).1 && r == Outcomes(items)
  {
    var wire := Send(fs);
    var t := new TCPTransport(cut(wire));
    FramesRoundTrip(fs, []);
    assert WireAll(fs) + [] == WireAll(fs);
    var frames := t.ReadFrames(|fs|);
    var reader := new MethodReader(schema, frames.value);
    r, items := ReadAll(reader);
  }

  /** The methods and unexpected frames of one channel among the outcomes. */
  function GotOn(outcomes: seq<Outcome>, c: nat): seq<Item>
    decreases outcomes
  {
    if outcomes == [] then []
    else
      var here := if outcomes[0].Got? && outcomes[0].item.channel == c then [outcomes[0].item] else [];
      here + GotOn(outcomes[1..], c)
  }

  lemma {:induction false} GotWithoutFailure(items: seq<Item>, c: nat)
    requires !HasFailed(ItemsOn(items, c))
    ensures GotOn(Outcomes(items), c) == ItemsOn(items, c)
    decreases items
  {
    if items != [] {
      var here := if items[0].channel == c then [items[0]] else [];
      FailedJoins(here, ItemsOn(items[1..], c));
      assert Outcomes(items)[1..] == Outcomes(items[1..]);
      if here != [] { assert !here[0].Failed?; }
      GotWithoutFailure(items[1..], c);
    }
  }

  // ---------- one connection's writer ----------

  datatype Call = Call(channel: nat, sent: AmqpMethod)

  function SplitCalls(schema: Schema, calls: seq<Call>, frameMax: nat): Result<seq<Frame>, Properties.Failure>
    requires frameMax > 8
  {
    if calls == [] then Ok([])
    else
      var rest :- SplitCalls(schema, calls[..|calls| - 1], frameMax);
      var fs :- Split(schema, calls[|calls| - 1].channel, calls[|calls| - 1].sent, frameMax);
      Ok(rest + fs)
  }

  /** The methods called on one channel, in order. */
  function CallsOn(calls: seq<Call>, c: nat): seq<AmqpMethod> {
    if calls == [] then []
    else CallsOn(calls[..|calls| - 1], c) + if calls[|calls| - 1].channel == c then [calls[|calls| - 1].sent] else []
  }

  lemma {:induction false} OnChannelAppend(fs: seq<Frame>, gs: seq<Frame>, c: nat)
    ensures OnChannel(fs + gs, c) == OnChannel(fs, c) + OnChannel(gs, c)
    decreases fs
  {
    if fs == [] {
      assert fs + gs == gs;
    } else {
      var one := if fs[0].channel == c then [fs[0]] else [];
      assert (fs + gs)[0] == fs[0] && (fs + gs)[1..] == fs[1..] + gs;
      OnChannelAppend(fs[1..], gs, c);
      assert one + (OnChannel(fs[1..], c) + OnChannel(gs, c)) == (one + OnChannel(fs[1..], c)) + OnChannel(gs, c);
    }
  }

  lemma {:induction false} OnChannelUniform(fs: seq<Frame>, channel: nat, c: nat)
    requires forall f | f in fs :: f.channel == channel
    ensures OnChannel(fs, c) == if channel == c then fs else []
    decreases fs
  {
    if fs != [] {
      OnChannelUniform(fs[1..], channel, c);
      assert fs == [fs[0]] + fs[1..];
    }
  }

  lemma SplitChannel(schema: Schema, channel: nat, m: AmqpMethod, frameMax: nat)
    requires frameMax > 8 && Split(schema, channel, m, frameMax).Ok?
    ensures forall f | f in Split(schema, channel, m, frameMax).value :: f.channel == channel
  {
  }

  lemma {:induction false} SplitAllSnoc(schema: Schema, c: nat, ms: seq<AmqpMethod>, m: AmqpMethod, frameMax: nat)
    requires frameMax > 8 && SplitAll(schema, c, ms, frameMax).Ok? && Split(schema, c, m, frameMax).Ok?
    ensures SplitAll(schema, c, ms + [m], frameMax)
         == Ok(SplitAll(schema, c, ms, frameMax).value + Split(schema, c, m, frameMax).value)
    decreases ms
  {
    hide Split;
    var last := Split(schema, c, m, frameMax).value;
    if ms == [] {
      assert ms + [m] == [m] && [m][1..] == [] && last + [] == [] + last;
    } else {
      assert (ms + [m])[1..] == ms[1..] + [m];
      SplitAllSnoc(schema, c, ms[1..], m, frameMax);
      var head, mid := Split(schema, c, ms[0], frameMax).value, SplitAll(schema, c, ms[1..], frameMax).value;
      assert head + (mid + last) == (head + mid) + last;
    }
  }

  /** On each channel, the frames of a sequence of calls are those of the methods called there. */
  lemma {:induction false} CallsProject(schema: Schema, calls: seq<Call>, frameMax: nat, c: nat)
    requires frameMax > 8 && SplitCalls(schema, calls, frameMax).Ok?
    ensures SplitAll(schema, c, CallsOn(calls, c), frameMax)
            == Ok(OnChannel(SplitCalls(schema, calls, frameMax).value, c))
    decreases calls
  {
    hide Split, OnChannel;
    if calls == [] {
      OnChannelUniform([], c, c);
    } else {
      var init, last := calls[..|calls| - 1], calls[|calls| - 1];
      CallsProject(schema, init, frameMax, c);
      var rest, fs := SplitCalls(schema, init, frameMax).value, Split(schema, last.channel, last.sent, frameMax).value;
      OnChannelAppend(rest, fs, c);
      SplitChannel(schema, last.channel, last.sent, frameMax);
      OnChannelUniform(fs, last.channel, c);
      if last.channel == c {
        SplitAllSnoc(schema, c, CallsOn(init, c), last.sent, frameMax);
      } else {
        assert CallsOn(init, c) + [] == CallsOn(init, c) && OnChannel(rest, c) + [] == OnChannel(rest, c);
      }
    }
  }

  lemma {:induction false} CallsOnIn(calls: seq<Call>, c: nat, m: AmqpMethod)
    requires m in CallsOn(calls, c)
    ensures exists i :: 0 <= i < |calls| && calls[i] == Call(c, m)
    decreases calls
  {
    var init, last := calls[..|calls| - 1], calls[|calls| - 1];
    if last.channel == c && last.sent == m {
      assert calls[|calls| - 1] == Call(c, m);
    } else {
      CallsOnIn(init, c, m);
      var i :| 0 <= i < |init| && init[i] == Call(c, m);
      assert calls[i] == Call(c, m);
    }
  }

  /** The method writer, called method by method. */
  method WriteAll(schema: Schema, calls: seq<Call>, frameMax: nat) returns (fs: seq<Frame>)
    requires frameMax > 8 && forall call | call in calls :: Sendable(schema, call.sent)
    ensures SplitCalls(schema, calls, frameMax) == Ok(fs)
  {
    hide Sendable, Split;
    var writer := new MethodWriter(schema, frameMax);
    for i := 0 to |calls|
      invariant fresh(writer) && writer.schema == schema && writer.frameMax == frameMax
      invariant SplitCalls(schema, calls[..i], frameMax) == Ok(writer.sent)
    {
      assert calls[..i + 1][..i] == calls[..i];
      SplitReassembles(schema, calls[i].channel, calls[i].sent, frameMax);
      var error := writer.WriteMethod(calls[i].channel, calls[i].sent);
    }
    assert calls[..|calls|] == calls;
    fs := writer.sent;
  }

  lemma {:induction false} CallsOnHas(calls: seq<Call>, i: nat)
    requires i < |calls|
    ensures calls[i].sent in CallsOn(calls, calls[i].channel)
    decreases calls
  {
    if i < |calls| - 1 { CallsOnHas(calls[..|calls| - 1], i); }
  }

  /** No exception reached the caller. */
  ghost predicate Quiet(outcomes: seq<Outcome>) { forall i :: 0 <= i < |outcomes| ==> !outcomes[i].Raised? }

  ghost predicate FailedOn(items: seq<Item>, c: nat) { HasFailed(ItemsOn(items, c)) }

  /** An exception reached the caller exactly when one of the channels failed. */
  lemma QuietEverywhere(items: seq<Item>)
    ensures Quiet(Outcomes(items)) <==> forall c :: !FailedOn(items, c)
  {
    if !Quiet(Outcomes(items)) {
      var i :| 0 <= i < |items| && Outcomes(items)[i].Raised?;
      FailedAt(items, i);
    }
    forall c | FailedOn(items, c) ensures !Quiet(Outcomes(items)) {
      var i := FailedFrom(items, c);
      assert Outcomes(items)[i].Raised?;
    }
  }

  lemma {:induction false} FailedAt(items: seq<Item>, i: nat)
    requires i < |items| && items[i].Failed?
    ensures FailedOn(items, items[i].channel)
    decreases items
  {
    var c := items[i].channel;
    var here := if items[0].channel == c then [items[0]] else [];
    FailedJoins(here, ItemsOn(items[1..], c));
    if i == 0 {
      assert here[0].Failed?;
    } else {
      FailedAt(items[1..], i - 1);
    }
  }

  lemma {:induction false} FailedFrom(items: seq<Item>, c: nat) returns (i: nat)
    requires FailedOn(items, c)
    ensures i < |items| && items[i].Failed?
    decreases items
  {
    var here := if items[0].channel == c then [items[0]] else [];
    FailedJoins(here, ItemsOn(items[1..], c));
    if HasFailed(here) {
      i := 0;
    } else {
      i := FailedFrom(items[1..], c);
      i := i + 1;
    }
  }

  /** What a channel was sent arrives on it exactly, or it fails. */
  ghost predicate Arrives(schema: Schema, c: nat, ms: seq<AmqpMethod>, received: seq<Outcome>, items: seq<Item>)
    requires forall m | m in ms :: Sendable(schema, m)
  {
    if AllReadable(schema, ms) then ItemsOn(items, c) == GotOn(received, c) == DeliveredAll(schema, c, ms)
    else FailedOn(items, c)
  }

  /**
    Frames of any number of writers, interleaved in any way that keeps each channel in order: packed, sent,
    cut up by the network, received, unpacked and reassembled, object by object. Every channel gets
    exactly what was sent on it, unless the properties of a method of its own cannot be read.
   */
  method Interleaved(schema: Schema, ghost sent: nat -> seq<AmqpMethod>, fs: seq<Frame>, frameMax: nat,
                     cut: bytes -> seq<bytes>)
    returns (received: seq<Outcome>, ghost items: seq<Item>)
    requires frameMax > 8 && Delivers(cut) && forall c, m | m in sent(c) :: Sendable(schema, m)
    requires forall c :: SplitAll(schema, c, sent(c), frameMax) == Ok(OnChannel(fs, c))
    requires forall f | f in fs :: Packable(f)
    ensures received == Outcomes(items) && forall c :: Arrives(schema, c, sent(c), received, items)
    ensures Quiet(received) <==> forall c :: AllReadable(schema, sent(c))
  {
    hide Sendable, AllReadable, OnChannel, SplitAll, Packable, Run, HasFailed, Outcomes, GotOn, Quiet;
    received, items := Carry(schema, fs, cut);
    forall c
      ensures Arrives(schema, c, sent(c), received, items)
      ensures FailedOn(items, c) <==> !AllReadable(schema, sent(c))
    {
      InterleavedRoundTrip(schema, sent(c), fs, frameMax, c);
      if AllReadable(schema, sent(c)) { GotWithoutFailure(items, c); }
    }
    QuietEverywhere(items);
  }

  /**
    The client stack end to end, object by object: methods called on one connection are split, packed,
    sent, cut up by the network, received, unpacked and reassembled. On every channel they arrive exactly
    as sent, unless the properties of one of its methods cannot be read.
   */
  method EndToEnd(schema: Schema, calls: seq<Call>, frameMax: nat, cut: bytes -> seq<bytes>)
    returns (received: seq<Outcome>, ghost items: seq<Item>)
    requires frameMax > 8 && Delivers(cut) && forall call | call in calls :: Sendable(schema, call.sent)
    requires SplitCalls(schema, calls, frameMax).Ok? ==>
               forall f | f in SplitCalls(schema, calls, frameMax).value :: Packable(f)
    ensures forall c, m | m in CallsOn(calls, c) :: Sendable(schema, m)
    ensures received == Outcomes(items) && forall c :: Arrives(schema, c, CallsOn(calls, c), received, items)
    ensures Quiet(received) <==> forall call | call in calls :: Readable(schema, call.sent)
  {
    hide Sendable, Readable, AllReadable, OnChannel, SplitAll, Packable, Run, HasFailed, Outcomes, GotOn;
    hide Arrives, Quiet;
    var fs := WriteAll(schema, calls, frameMax);
    forall c, m | m in CallsOn(calls, c) ensures Sendable(schema, m) { CallsOnIn(calls, c, m); }
    forall c ensures SplitAll(schema, c, CallsOn(calls, c), frameMax) == Ok(OnChannel(fs, c)) {
      CallsProject(schema, calls, frameMax, c);
    }
    received, items := Interleaved(schema, (c: nat) => CallsOn(calls, c), fs, frameMax, cut);
    ReadableCalls(schema, calls);
    assert forall c :: ReadableOn(schema, calls, c) <==> AllReadable(schema, CallsOn(calls, c));
  }

  ghost predicate ReadableOn(schema: Schema, calls: seq<Call>, c: nat) { AllReadable(schema, CallsOn(calls, c)) }

  lemma ReadableCalls(schema: Schema, calls: seq<Call>)
    ensures (forall c :: ReadableOn(schema, calls, c))
            <==> forall call | call in calls :: Readable(schema, call.sent)
  {
    hide Readable;
    if forall c :: ReadableOn(schema, calls, c) {
      forall i | 0 <= i < |calls| ensures Readable(schema, calls[i].sent) {
        assert ReadableOn(schema, calls, calls[i].channel);
        CallsOnHas(calls, i);
      }
    }
    if forall call | call in calls :: Readable(schema, call.sent) {
      forall c ensures ReadableOn(schema, calls, c) {
        forall m | m in CallsOn(calls, c) ensures Readable(schema, m) {
          CallsOnIn(calls, c, m);
          assert Call(c, m) in calls;
        }
      }
    }
  }

  // ---------- what the connection reads ----------

  type Carried = (bytes, Option<Message>)

  /** An outcome as the connection meets it: an unexpected frame or an exception is no method. */
  function EventOf(o: Outcome): Demux.Event<Carried> {
    if o.Got? && o.item.Received? then Demux.Read(ArrivalOf(o.item)) else Demux.Broken
  }

  function ArrivalOf(i: Item): Demux.Arrival<Carried>
    requires i.Received?
  {
    Demux.Arrival(i.channel, i.sig, (i.args, i.content))
  }

  function EventsOf(outcomes: seq<Outcome>): seq<Demux.Event<Carried>> {
    seq(|outcomes|, i requires 0 <= i < |outcomes| => EventOf(outcomes[i]))
  }

  function ArrivalsOf(items: seq<Item>): seq<Demux.Arrival<Carried>>
    decreases items
  {
    if items == [] then []
    else (if items[0].Received? then [ArrivalOf(items[0])] else []) + ArrivalsOf(items[1..])
  }

  lemma {:induction false} EventsOnChannel(outcomes: seq<Outcome>, c: nat)
    ensures Demux.ToChannel(Demux.Methods(EventsOf(outcomes)), c) == ArrivalsOf(GotOn(outcomes, c))
    decreases outcomes
  {
    if outcomes != [] {
      var e, rest := EventOf(outcomes[0]), outcomes[1..];
      assert EventsOf(outcomes) == [e] + EventsOf(rest);
      Demux.MethodsCons(e, EventsOf(rest));
      var here := if e.Read? then [e.m] else [];
      Demux.ToChannelAppend(here, Demux.Methods(EventsOf(rest)), c);
      if e.Read? { Demux.ToChannelOne(e.m, c); }
      EventsOnChannel(rest, c);
      if outcomes[0].Got? && outcomes[0].item.channel == c {
        assert GotOn(outcomes, c)[1..] == GotOn(rest, c);
      } else {
        assert GotOn(outcomes, c) == GotOn(rest, c);
      }
    }
  }

  lemma {:induction false} AllReceived(items: seq<Item>)
    requires forall i | i in items :: i.Received?
    ensures |ArrivalsOf(items)| == |items|
    ensures forall i :: 0 <= i < |items| ==> ArrivalsOf(items)[i] == ArrivalOf(items[i])
    decreases items
  {
    if items != [] { AllReceived(items[1..]); }
  }

  /** Through the whole stack, the connection's reader hands out on a channel just the methods sent on it. */
  lemma ConnectionReads(schema: Schema, c: nat, ms: seq<AmqpMethod>, received: seq<Outcome>, items: seq<Item>)
    requires forall m | m in ms :: Sendable(schema, m)
    requires Arrives(schema, c, ms, received, items) && AllReadable(schema, ms)
    ensures Demux.ToChannel(Demux.Methods(EventsOf(received)), c)
         == seq(|ms|, i requires 0 <= i < |ms| => ArrivalOf(Delivered(schema, c, ms[i])))
  {
    hide Sendable;
    EventsOnChannel(received, c);
    AllReceived(DeliveredAll(schema, c, ms));
  }
}
