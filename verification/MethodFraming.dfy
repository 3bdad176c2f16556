/** The method writer and the method reader as the objects of the source. */
module MethodFraming {
  import opened Common
  import opened Bytes
  import Tables
  import Fields
  import opened Properties
  import opened Framing

  class MethodWriter {
    const schema: Schema
    const frameMax: nat
    /** The frames handed to the transport. */
    var sent: seq<Frame>

    constructor (schema: Schema, frameMax: nat)
      ensures this.schema == schema && this.frameMax == frameMax && sent == []
    {
      this.schema, this.frameMax, sent := schema, frameMax, [];
    }

    method WriteFrame(ftype: nat, channel: nat, payload: bytes)
      modifies this
      ensures sent == old(sent) + [Frame(ftype, channel, payload)]
    {
      sent := sent + [Frame(ftype, channel, payload)];
    }

    /** When the properties cannot be serialized the method frame is already out. */
    method WriteMethod(channel: nat, m: AmqpMethod) returns (error: Option<Failure>)
      requires frameMax > 8
      modifies this
      ensures match Split(schema, channel, m, frameMax)
              case Ok(fs) => error == None && sent == old(sent) + fs
              case Err(e) => error == Some(e) && sent == old(sent) + [Frame(1, channel, MethodPayload(m))]
      ensures Announceable(m) ==>
                (error == None ==> OnWire(schema, channel, m, frameMax, sent[|old(sent)|..]))
                && (error.Some? ==> sent == old(sent) + [Frame(1, channel, MethodPayload(m))]
                                    && MethodOctets(m, MethodPayload(m)))
    {
      hide HeaderPayload, MethodPayload, OnWire, MethodOctets, Announceable;
      if Announceable(m) { SplitOnWire(schema, channel, m, frameMax); }
      WriteFrame(1, channel, MethodPayload(m));
      if m.content == None { return None; }
      var content := m.content.value;
      var header := HeaderPayload(schema, m, content);
      if header.Err? { return Some(header.error); }
      WriteFrame(2, channel, header.value);
      var body := content.body;
      ghost var done := sent;
      ghost var all := Chunks(body, frameMax - 8);
      ghost var n := 0;
      while body != []
        invariant n <= |all| && all[n..] == Chunks(body, frameMax - 8)
        invariant sent == done + BodyFrames(channel, all[..n])
        decreases |body|
      {
        var payload := Take(body, frameMax - 8);
        assert all[n] == payload && all[n..][1..] == all[n + 1..];
        WriteFrame(3, channel, payload);
        body := Drop(body, frameMax - 8);
        n := n + 1;
        assert BodyFrames(channel, all[..n]) == BodyFrames(channel, all[..n - 1]) + [Frame(3, channel, payload)];
      }
      assert all[..n] == all;
      error := None;
    }
  }

  /** A method whose content is still arriving. */
  class PartialMessage {
    const sig: Sig
    const args: bytes
    var properties: map<string, Fields.Value>
    var bodyParts: seq<bytes>
    var bodyReceived: nat
    var bodySize: Option<nat>
    var body: bytes
    var complete: bool
    /** A header was read; one that failed may have left its size behind. */
    ghost var headed: bool

    ghost predicate Valid()
      reads this
    {
      && !complete && body == [] && bodyReceived == |Flatten(bodyParts)|
      && if headed then bodySize.Some? else bodyParts == []
    }

    ghost function State(): Partial
      reads this
    {
      if headed && bodySize.Some? then WantBody(sig, args, bodySize.value, properties, bodyParts)
      else WantHeader(sig, args)
    }

    /** It has received what `st` says, and `expected` is the type of the frame it waits for. */
    ghost predicate Holds(st: Partial, expected: nat)
      reads this
    {
      Valid() && State() == st && expected == ExpectedType(st)
    }

    constructor (sig: Sig, args: bytes)
      ensures Valid() && State() == WantHeader(sig, args)
    {
      this.sig, this.args := sig, args;
      properties, bodyParts, bodyReceived, bodySize, body, complete := map[], [], 0, None, [], false;
      headed := false;
      new;
      assert Flatten(bodyParts) == [];
    }

    ghost function Done(channel: nat): Item
      reads this
    {
      Received(channel, sig, args, Some(Message(properties, body)))
    }

    /** The message is now what the step makes of it, or complete as the step's item. */
    ghost predicate TookIn(step: (Partial, Option<Item>), channel: nat)
      reads this
    {
      && complete == step.1.Some?
      && if complete then Done(channel) == step.1.value else Valid() && State() == step.0
    }

    /** An error leaves the message as it was, in state `before`. */
    ghost predicate Took(before: Partial, step: Result<(Partial, Option<Item>), Tables.Error>, channel: nat,
                         error: Option<Tables.Error>)
      reads this
    {
      if step.Err? then error == Some(step.error) && Valid() && State() == before
      else error == None && TookIn(step.value, channel)
    }

    method AddHeader(schema: Schema, channel: nat, payload: bytes) returns (error: Option<Tables.Error>)
      requires Valid() && State().WantHeader?
      modifies this
      ensures Took(old(State()), StepHeader(schema, old(State()), channel, payload), channel, error)
    {
      var head := HeaderHead(payload);
      if head.Err? { return Some(head.error); }
      bodySize := Some(head.value.0);
      var msg := new GenericContent(schema, map[]);
      error := msg.LoadProperties(head.value.1);
      if error.Some? { return; }
      headed := true;
      properties := msg.received;
      complete := bodySize.value == 0;
    }

    method AddPayload(channel: nat, payload: bytes)
      requires Valid() && State().WantBody?
      modifies this
      ensures TookIn(StepBody(old(State()), channel, payload), channel)
    {
      FlattenAppend(bodyParts, [payload]);
      assert Flatten([payload]) == payload by { assert Flatten<byte>([]) == []; }
      bodyParts := bodyParts + [payload];
      bodyReceived := bodyReceived + |payload|;
      if bodyReceived == bodySize.value {
        body := Flatten(bodyParts);
        complete := true;
      }
    }
  }

  /** What reading a method ends with: a method or unexpected frame, a bad payload, or no more frames. */
  datatype Outcome = Got(item: Item) | Raised(error: Tables.Error) | Ended

  /** An exception does not tell its channel. */
  function OutcomeOf(item: Item): Outcome { if item.Failed? then Raised(item.error) else Got(item) }

  /** The item the next frames lead to, none when they run out, the state then, and the frames left. */
  function NextItem(schema: Schema, st: Channels, source: seq<Frame>): (Option<Item>, Channels, seq<Frame>)
    decreases source
  {
    if source == [] then (None, st, [])
    else
      var (st1, i) := AdvanceAll(schema, st, source[0]);
      if i.Some? then (i, st1, source[1..]) else NextItem(schema, st1, source[1..])
  }

  lemma NextUnfolds(schema: Schema, st: Channels, source: seq<Frame>)
    ensures source == [] ==> NextItem(schema, st, source) == (None, st, [])
    ensures source != [] ==>
              var (st1, i) := AdvanceAll(schema, st, source[0]);
              NextItem(schema, st, source)
              == if i.Some? then (i, st1, source[1..]) else NextItem(schema, st1, source[1..])
  {
  }

  /** The type the next frame of a channel should have. */
  function TypeOf(types: map<nat, nat>, c: nat): nat { if c in types then types[c] else 1 }

  /**
    A channel has a partial message of its own exactly when it expects something other than a method, and
    but for `except` the message has received what `view` says.
   */
  ghost predicate TidyBut(messages: map<nat, PartialMessage>, types: map<nat, nat>, view: Channels, except: set<nat>)
    reads messages.Values
  {
    && view.Keys == messages.Keys
    && (forall c :: c in messages <==> TypeOf(types, c) != 1)
    && (forall c | c in messages && c !in except :: messages[c].Holds(view[c], TypeOf(types, c)))
    && (forall c, d | c in messages && d in messages && c != d :: messages[c] != messages[d])
  }

  lemma AddedTidy(messages: map<nat, PartialMessage>, types: map<nat, nat>, view: Channels, c: nat, p: PartialMessage,
                  st: Partial)
    requires TidyBut(messages, types, view, {}) && c !in messages && p !in messages.Values && p.Holds(st, 2)
    ensures TidyBut(messages[c := p], types[c := 2], view[c := st], {})
  {
    hide PartialMessage.Holds;
    forall d | d in messages ensures messages[d] != p { assert messages[d] in messages.Values; }
  }

  lemma ExpectsMethod(messages: map<nat, PartialMessage>, types: map<nat, nat>, view: Channels, c: nat)
    requires TidyBut(messages, types, view, {})
    ensures TypeOf(types, c) == 1 <==> c !in messages
    ensures view.Keys == messages.Keys
  {
  }

  lemma ForgottenTidy(messages: map<nat, PartialMessage>, types: map<nat, nat>, view: Channels, c: nat)
    requires TidyBut(messages, types, view, {c}) && c in messages
    ensures TidyBut(messages - {c}, types[c := 1], view - {c}, {})
  {
    hide PartialMessage.Holds;
  }

  lemma UpdatedTidy(messages: map<nat, PartialMessage>, types: map<nat, nat>, view: Channels, c: nat, st: Partial)
    requires TidyBut(messages, types, view, {c}) && c in messages && messages[c].Holds(st, 3)
    ensures TidyBut(messages, types[c := 3], view[c := st], {})
  {
    hide PartialMessage.Holds;
  }

  lemma RestoredTidy(messages: map<nat, PartialMessage>, types: map<nat, nat>, view: Channels, c: nat)
    requires TidyBut(messages, types, view, {c}) && c in messages && messages[c].Valid()
    requires messages[c].State() == view[c] && ExpectedType(view[c]) == TypeOf(types, c)
    ensures TidyBut(messages, types, view, {})
  {
  }

  class MethodReader {
    const schema: Schema
    var source: seq<Frame>
    var queue: seq<Outcome>
    var partialMessages: map<nat, PartialMessage>
    var expectedTypes: map<nat, nat>

    function Expected(c: nat): nat
      reads this
    {
      TypeOf(expectedTypes, c)
    }

    /** What each channel that is not idle has received of its method. */
    ghost var view: Channels

    ghost predicate Consistent()
      reads this, partialMessages.Values
    {
      TidyBut(partialMessages, expectedTypes, view, {})
    }

    ghost predicate Valid()
      reads this, partialMessages.Values
    {
      queue == [] && Consistent()
    }

    constructor (schema: Schema, source: seq<Frame>)
      ensures Valid() && view == map[] && this.schema == schema && this.source == source
      ensures partialMessages == map[]
    {
      this.schema, this.source := schema, source;
      queue, partialMessages, expectedTypes, view := [], map[], map[], map[];
    }

    /** From `before` the reader moved to channel state `st` and queued the item, if any. */
    ghost predicate MovedTo(before: Channels, channel: nat, st: Partial, i: Option<Framing.Item>)
      reads this, partialMessages.Values
    {
      && Consistent() && view == Put(before, channel, st)
      && queue == (if i.Some? then [Got(i.value)] else [])
    }

    /** The reader did what the step says, or raised its error and is as it was. */
    ghost predicate Follows(before: Channels, channel: nat, step: Result<(Partial, Option<Framing.Item>), Tables.Error>,
                            error: Option<Tables.Error>)
      reads this, partialMessages.Values
    {
      if step.Err? then error == Some(step.error) && Valid() && view == before
      else error == None && MovedTo(before, channel, step.value.0, step.value.1)
    }

    /** The partial messages are old ones or new objects. */
    twostate predicate Framed()
      reads this
    {
      forall p | p in partialMessages.Values :: p in old(partialMessages.Values) || fresh(p)
    }

    method ProcessMethodFrame(channel: nat, payload: bytes) returns (error: Option<Tables.Error>)
      requires Valid() && Expected(channel) == 1
      modifies this
      ensures source == old(source) && Framed()
      ensures Follows(old(view), channel, StepMethod(channel, payload), error)
    {
      hide MethodHead, MovedTo;
      var head := MethodHead(payload);
      if head.Err? { return Some(head.error); }
      var (sig, args) := head.value;
      if sig in CONTENT_METHODS {
        BeginContent(channel, sig, args);
      } else {
        Deliver(channel, sig, args);
      }
      error := None;
    }

    /** The message of a channel that is not idle. */
    lemma MessageOf(channel: nat)
      requires Consistent() && Expected(channel) != 1
      ensures channel in partialMessages && channel in view
      ensures var p := partialMessages[channel];
        p.Valid() && p.State() == view[channel] && ExpectedType(p.State()) == Expected(channel)
    {
      assert partialMessages[channel].Holds(view[channel], Expected(channel));
    }

    /** A method with content: its header comes next. */
    method BeginContent(channel: nat, sig: Sig, args: bytes)
      requires Valid() && Expected(channel) == 1
      modifies this
      ensures source == old(source) && Framed()
      ensures MovedTo(old(view), channel, WantHeader(sig, args), None)
    {
      hide TidyBut;
      var p := new PartialMessage(sig, args);
      assert channel !in partialMessages by { ExpectsMethod(partialMessages, expectedTypes, view, channel); }
      AddedTidy(partialMessages, expectedTypes, view, channel, p, WantHeader(sig, args));
      partialMessages := partialMessages[channel := p];
      expectedTypes := expectedTypes[channel := 2];
      view := view[channel := WantHeader(sig, args)];
    }

    /** A method without content is complete. */
    method Deliver(channel: nat, sig: Sig, args: bytes)
      requires Valid() && Expected(channel) == 1
      modifies this
      ensures source == old(source) && Framed()
      ensures MovedTo(old(view), channel, Idle, Some(Received(channel, sig, args, None)))
    {
      hide TidyBut;
      ExpectsMethod(partialMessages, expectedTypes, view, channel);
      queue := queue + [Got(Received(channel, sig, args, None))];
      assert view - {channel} == view;
    }

    /** A complete message is queued and forgotten, and the channel expects a method again. */
    method Finish(channel: nat, partial: PartialMessage)
      requires queue == [] && channel in partialMessages && partial == partialMessages[channel]
      requires TidyBut(partialMessages, expectedTypes, view, {channel})
      modifies this
      ensures source == old(source) && Framed()
      ensures MovedTo(old(view), channel, Idle, Some(partial.Done(channel)))
    {
      hide TidyBut;
      ForgottenTidy(partialMessages, expectedTypes, view, channel);
      var message := Message(partial.properties, partial.body);
      queue := queue + [Got(Received(channel, partial.sig, partial.args, Some(message)))];
      partialMessages := partialMessages - {channel};
      expectedTypes := expectedTypes[channel := 1];
      view := view - {channel};
    }

    /** The header goes to the channel's message and to no other. */
    method TakeHeader(channel: nat, partial: PartialMessage, payload: bytes) returns (error: Option<Tables.Error>)
      requires Consistent() && channel in partialMessages && partial == partialMessages[channel]
      requires partial.Valid() && partial.State().WantHeader?
      modifies partial
      ensures TidyBut(partialMessages, expectedTypes, view, {channel})
      ensures partial.Took(old(partial.State()), StepHeader(schema, old(partial.State()), channel, payload), channel,
                           error)
    {
      error := partial.AddHeader(schema, channel, payload);
      forall c | c in partialMessages && c != channel ensures partialMessages[c].Holds(view[c], Expected(c)) {
        assert old(partialMessages[c].Holds(view[c], Expected(c)));
      }
    }

    method ProcessContentHeader(channel: nat, payload: bytes) returns (error: Option<Tables.Error>)
      requires Valid() && Expected(channel) == 2
      modifies this, partialMessages.Values
      ensures source == old(source) && Framed()
      ensures Follows(old(view), channel, StepHeader(schema, old(view)[channel], channel, payload), error)
    {
      hide MovedTo, TidyBut, PartialMessage.Holds;
      MessageOf(channel);
      var partial := partialMessages[channel];
      error := TakeHeader(channel, partial, payload);
      if error.Some? {
        RestoredTidy(partialMessages, expectedTypes, view, channel);
        return;
      }
      if partial.complete {
        Finish(channel, partial);
      } else {
        AwaitBody(channel, partial);
      }
    }

    /** The header is in: the channel expects body frames. */
    method AwaitBody(channel: nat, partial: PartialMessage)
      requires queue == [] && channel in partialMessages && partial == partialMessages[channel]
      requires partial.Valid() && partial.State().WantBody?
      requires TidyBut(partialMessages, expectedTypes, view, {channel})
      modifies this
      ensures source == old(source) && partialMessages == old(partialMessages)
      ensures MovedTo(old(view), channel, partial.State(), None)
    {
      hide TidyBut;
      UpdatedTidy(partialMessages, expectedTypes, view, channel, partial.State());
      expectedTypes := expectedTypes[channel := 3];
      view := view[channel := partial.State()];
    }

    /** The payload goes to the channel's message and to no other. */
    method TakePayload(channel: nat, partial: PartialMessage, payload: bytes)
      requires Consistent() && channel in partialMessages && partial == partialMessages[channel]
      requires partial.Valid() && partial.State().WantBody?
      modifies partial
      ensures TidyBut(partialMessages, expectedTypes, view, {channel})
      ensures partial.TookIn(StepBody(old(partial.State()), channel, payload), channel)
    {
      partial.AddPayload(channel, payload);
      forall c | c in partialMessages && c != channel ensures partialMessages[c].Holds(view[c], Expected(c)) {
        assert old(partialMessages[c].Holds(view[c], Expected(c)));
      }
    }

    method ProcessContentBody(channel: nat, payload: bytes)
      requires Valid() && Expected(channel) == 3
      modifies this, partialMessages.Values
      ensures source == old(source) && Framed()
      ensures var step := StepBody(old(view)[channel], channel, payload); MovedTo(old(view), channel, step.0, step.1)
    {
      hide MovedTo, TidyBut, PartialMessage.Holds;
      MessageOf(channel);
      var partial := partialMessages[channel];
      TakePayload(channel, partial, payload);
      if partial.complete {
        Finish(channel, partial);
      } else {
        AwaitBody(channel, partial);
      }
    }

    method ProcessFrame(f: Frame) returns (error: Option<Tables.Error>)
      requires Valid()
      modifies this, partialMessages.Values
      ensures source == old(source) && Framed()
      ensures Follows(old(view), f.channel, Step(schema, At(old(view), f.channel), f), error)
    {
      error := None;
      if Expected(f.channel) != f.ftype {
        queue := queue + [Got(Unexpected(f.channel, f.ftype, Expected(f.channel)))];
        PutSame(view, f.channel);
      } else if f.ftype == 1 {
        error := ProcessMethodFrame(f.channel, f.payload);
      } else if f.ftype == 2 {
        error := ProcessContentHeader(f.channel, f.payload);
      } else if f.ftype == 3 {
        ProcessContentBody(f.channel, f.payload);
      }
    }

    static lemma PutSame(st: Channels, c: nat)
      requires At(st, c) == Idle ==> c !in st
      ensures Put(st, c, At(st, c)) == st
    {
    }

    /** One turn of the loop of `_next_method`. */
    method ProcessNext() returns (error: Option<Tables.Error>)
      requires Valid() && source != []
      modifies this, partialMessages.Values
      ensures Consistent() && Framed() && source == old(source)[1..]
      ensures var (st, i) := AdvanceAll(schema, old(view), old(source)[0]);
        view == st && if error.Some? then queue == [] && i.Some? && OutcomeOf(i.value) == Raised(error.value)
                      else queue == if i.Some? then [OutcomeOf(i.value)] else []
    {
      hide TidyBut;
      var f := source[0];
      source := source[1..];
      SameState(f.channel);
      NoneFailedInStep(schema, At(view, f.channel), f);
      error := ProcessFrame(f);
    }

    static lemma NoneFailedInStep(schema: Schema, st: Partial, f: Frame)
      ensures var step := Step(schema, st, f);
        step.Ok? && step.value.1.Some? ==> !step.value.1.value.Failed?
    {
    }

    /** `_next_method` and then `queue.get`: the next outcome, and nothing read beyond it. */
    method ReadMethod() returns (r: Outcome)
      requires Valid()
      modifies this, partialMessages.Values
      ensures Valid() && Framed()
      ensures var (item, st, rest) := NextItem(schema, old(view), old(source));
        r == (if item == None then Ended else OutcomeOf(item.value)) && view == st && source == rest
    {
      hide TidyBut, AdvanceAll, NextItem;
      ghost var goal := NextItem(schema, view, source);
      while queue == []
        invariant Consistent() && Framed()
        invariant queue == [] ==> goal == NextItem(schema, view, source)
        invariant queue != [] ==> goal.1 == view && goal.2 == source
                                  && queue == [if goal.0 == None then Ended else OutcomeOf(goal.0.value)]
        decreases queue == [], |source|
      {
        NextUnfolds(schema, view, source);
        if source == [] {
          queue := [Ended];
          break;
        }
        var error := ProcessNext();
        if error.Some? { return Raised(error.value); }
      }
      r := queue[0];
      queue := queue[1..];
    }

    /** A frame that cannot be read leaves the states of all channels. */
    lemma SameState(c: nat)
      requires Consistent()
      ensures Put(view, c, At(view, c)) == view
    {
      if c in partialMessages { MessageOf(c); }
    }
  }

  /** Reading until the frames run out: the items in order. */
  function Drain(schema: Schema, st: Channels, source: seq<Frame>): (Channels, seq<Framing.Item>)
    decreases |source|
  {
    var (i, st1, rest) := NextItem(schema, st, source);
    if i == None then (st1, [])
    else
      NextConsumes(schema, st, source);
      Emit([i.value], Drain(schema, st1, rest))
  }

  lemma {:induction false} NextConsumes(schema: Schema, st: Channels, source: seq<Frame>)
    ensures var (i, _, rest) := NextItem(schema, st, source);
      |rest| <= |source| && (i.Some? ==> |rest| < |source|)
    decreases source
  {
    if source != [] { NextConsumes(schema, AdvanceAll(schema, st, source[0]).0, source[1..]); }
  }

  /** Method by method, the reader delivers exactly what `Run` says of the frames. */
  lemma {:induction false} DrainIsRun(schema: Schema, st: Channels, source: seq<Frame>)
    ensures Drain(schema, st, source) == Run(schema, st, source)
    decreases |source|
  {
    hide AdvanceAll;
    if source != [] {
      var (st1, i) := AdvanceAll(schema, st, source[0]);
      DrainIsRun(schema, st1, source[1..]);
      EmitTwice([], [], Run(schema, st1, source[1..]));
    }
  }
}
