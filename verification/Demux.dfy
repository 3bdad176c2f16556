/** The connection's demultiplexer: methods not yet wanted are deferred on their channel. */
module Demux {
  import opened Common
  import Framing

  type Sig = Framing.Sig

  datatype Arrival<M> = Arrival(channel: nat, sig: Sig, value: M)

  /**
    What the method reader hands out: a method, or something that ends the wait with an exception, which is
    a payload that cannot be read, or the pair that stands for a frame of the wrong type and does not unpack.
   */
  datatype Event<M> = Read(m: Arrival<M>) | Broken

  datatype Error = UnknownChannel(id: nat) | ConnectionLost | NoFreeChannel | BadEvent | Undispatched

  const CHANNEL_CLOSE: Sig := Framing.Sig(20, 40)

  predicate Wanted(sig: Sig, allowed: Option<set<Sig>>) {
    allowed == None || sig in allowed.value || sig == CHANNEL_CLOSE
  }

  /** The arrivals with one channel and signature, in order. */
  function Only<M>(s: seq<Arrival<M>>, c: nat, sig: Sig): seq<Arrival<M>>
  {
    if s == [] then [] else (if s[0].channel == c && s[0].sig == sig then [s[0]] else []) + Only(s[1..], c, sig)
  }

  function ToChannel<M>(s: seq<Arrival<M>>, c: nat): seq<Arrival<M>>
  {
    if s == [] then [] else (if s[0].channel == c then [s[0]] else []) + ToChannel(s[1..], c)
  }

  function FirstWanted<M>(s: seq<Arrival<M>>, allowed: Option<set<Sig>>): Option<Arrival<M>>
  {
    if s == [] then None else if Wanted(s[0].sig, allowed) then Some(s[0]) else FirstWanted(s[1..], allowed)
  }

  lemma {:induction false} OnlyAppend<M>(a: seq<Arrival<M>>, b: seq<Arrival<M>>, c: nat, sig: Sig)
    ensures Only(a + b, c, sig) == Only(a, c, sig) + Only(b, c, sig)
  {
    if a == [] {
      assert a + b == b;
    } else {
      assert (a + b)[1..] == a[1..] + b;
      OnlyAppend(a[1..], b, c, sig);
    }
  }

  lemma OnlyOne<M>(a: Arrival<M>, c: nat, sig: Sig)
    ensures Only([a], c, sig) == if a.channel == c && a.sig == sig then [a] else []
  {
    assert Only<M>([a][1..], c, sig) == [];
  }

  lemma {:induction false} OnlyElsewhere<M>(s: seq<Arrival<M>>, c: nat, sig: Sig)
    requires forall a | a in s :: a.channel != c || a.sig != sig
    ensures Only(s, c, sig) == []
  {
    if s != [] { OnlyElsewhere(s[1..], c, sig); }
  }

  lemma {:induction false} FirstWantedAppend<M>(a: seq<Arrival<M>>, b: seq<Arrival<M>>, allowed: Option<set<Sig>>)
    requires FirstWanted(a, allowed) == None
    ensures FirstWanted(a + b, allowed) == FirstWanted(b, allowed)
  {
    if a == [] {
      assert a + b == b;
    } else {
      assert (a + b)[1..] == a[1..] + b;
      FirstWantedAppend(a[1..], b, allowed);
    }
  }

  lemma {:induction false} FirstWantedAt<M>(s: seq<Arrival<M>>, allowed: Option<set<Sig>>, i: nat)
    requires i <= |s| && forall j :: 0 <= j < i ==> !Wanted(s[j].sig, allowed)
    ensures i < |s| && Wanted(s[i].sig, allowed) ==> FirstWanted(s, allowed) == Some(s[i])
    ensures i == |s| ==> FirstWanted(s, allowed) == None
  {
    if i > 0 { FirstWantedAt(s[1..], allowed, i - 1); }
  }

  lemma {:induction false} CountOnly<M>(s: seq<Arrival<M>>, a: Arrival<M>)
    ensures multiset(s)[a] == multiset(Only(s, a.channel, a.sig))[a]
  {
    if s != [] {
      assert s == [s[0]] + s[1..];
      CountOnly(s[1..], a);
    }
  }

  /** `list.remove`: without the first element equal to `x`. */
  function RemoveFirst<T(==)>(s: seq<T>, x: T): seq<T>
    requires x in s
  {
    if s[0] == x then s[1..] else [s[0]] + RemoveFirst(s[1..], x)
  }

  /** The element found by the scan is the first one equal to it. */
  lemma {:induction false} RemoveFirstAt<M>(s: seq<Arrival<M>>, i: nat, allowed: Option<set<Sig>>)
    requires i < |s| && Wanted(s[i].sig, allowed)
    requires forall j :: 0 <= j < i ==> !Wanted(s[j].sig, allowed)
    ensures RemoveFirst(s, s[i]) == s[..i] + s[i + 1..]
  {
    if i == 0 {
      assert s[..0] + s[1..] == s[1..];
    } else {
      assert s[0] != s[i];
      assert s[1..][i - 1] == s[i];
      RemoveFirstAt(s[1..], i - 1, allowed);
      assert [s[0]] + (s[1..][..i - 1] + s[1..][i..]) == s[..i] + s[i + 1..];
    }
  }

  /** `all` is made of `kept` and `gone`, each in its order. */
  ghost predicate Merges<M>(all: seq<Arrival<M>>, kept: seq<Arrival<M>>, gone: seq<Arrival<M>>)
    decreases |all|
  {
    if all == [] then kept == [] && gone == []
    else
      var init, last := all[..|all| - 1], all[|all| - 1];
      || (kept != [] && kept[|kept| - 1] == last && Merges(init, kept[..|kept| - 1], gone))
      || (gone != [] && gone[|gone| - 1] == last && Merges(init, kept, gone[..|gone| - 1]))
  }

  lemma MergesKeep<M>(all: seq<Arrival<M>>, kept: seq<Arrival<M>>, gone: seq<Arrival<M>>, m: Arrival<M>)
    requires Merges(all, kept, gone)
    ensures Merges(all + [m], kept + [m], gone)
  {
    assert (all + [m])[..|all|] == all && (kept + [m])[..|kept|] == kept;
  }

  lemma {:induction false} MergesDrop<M>(all: seq<Arrival<M>>, kept: seq<Arrival<M>>, gone: seq<Arrival<M>>,
                                         q: seq<Arrival<M>>)
    requires Merges(all, kept, gone)
    ensures Merges(all + q, kept, gone + q)
    decreases |q|
  {
    if q == [] {
      assert all + q == all && gone + q == gone;
    } else {
      var init, m := q[..|q| - 1], q[|q| - 1];
      MergesDrop(all, kept, gone, init);
      assert (all + q)[..|all + q| - 1] == all + init && (gone + q)[..|gone + q| - 1] == gone + init;
      assert (all + q)[|all + q| - 1] == m && (gone + q)[|gone + q| - 1] == m;
    }
  }

  lemma {:induction false} MergesCount<M>(all: seq<Arrival<M>>, kept: seq<Arrival<M>>, gone: seq<Arrival<M>>)
    requires Merges(all, kept, gone)
    ensures multiset(all) == multiset(kept) + multiset(gone)
    decreases |all|
  {
    if all != [] {
      var init, m := all[..|all| - 1], all[|all| - 1];
      assert all == init + [m];
      if kept != [] && kept[|kept| - 1] == m && Merges(init, kept[..|kept| - 1], gone) {
        assert kept == kept[..|kept| - 1] + [m];
        MergesCount(init, kept[..|kept| - 1], gone);
      } else {
        assert gone == gone[..|gone| - 1] + [m];
        MergesCount(init, kept, gone[..|gone| - 1]);
      }
    }
  }

  lemma {:induction false} MergesOnly<M>(all: seq<Arrival<M>>, kept: seq<Arrival<M>>, gone: seq<Arrival<M>>, c: nat,
                                         sig: Sig)
    requires Merges(all, kept, gone)
    ensures Merges(Only(all, c, sig), Only(kept, c, sig), Only(gone, c, sig))
    decreases |all|
  {
    hide Only;
    if all == [] {
      OnlyNone<M>(c, sig);
    } else {
      var init, m := all[..|all| - 1], all[|all| - 1];
      OnlySnoc(all, c, sig);
      if kept != [] && kept[|kept| - 1] == m && Merges(init, kept[..|kept| - 1], gone) {
        MergesOnly(init, kept[..|kept| - 1], gone, c, sig);
        OnlySnoc(kept, c, sig);
        if m.channel == c && m.sig == sig {
          MergesKeep(Only(init, c, sig), Only(kept[..|kept| - 1], c, sig), Only(gone, c, sig), m);
        }
      } else {
        MergesOnly(init, kept, gone[..|gone| - 1], c, sig);
        OnlySnoc(gone, c, sig);
        if m.channel == c && m.sig == sig {
          MergesDrop(Only(init, c, sig), Only(kept, c, sig), Only(gone[..|gone| - 1], c, sig), [m]);
        }
      }
    }
  }

  lemma OnlyNone<M>(c: nat, sig: Sig)
    ensures Only<M>([], c, sig) == []
  {
  }

  lemma OnlySnoc<M>(s: seq<Arrival<M>>, c: nat, sig: Sig)
    requires s != []
    ensures var m := s[|s| - 1];
      Only(s, c, sig) == if m.channel == c && m.sig == sig
                         then Only(s[..|s| - 1], c, sig) + [m]
                         else Only(s[..|s| - 1], c, sig)
  {
    var init, m := s[..|s| - 1], s[|s| - 1];
    assert s == init + [m];
    OnlyAppend(init, [m], c, sig);
    OnlyOne(m, c, sig);
  }

  lemma {:induction false} MergesAll<M>(all: seq<Arrival<M>>, kept: seq<Arrival<M>>)
    requires Merges(all, kept, [])
    ensures all == kept
    decreases |all|
  {
    if all != [] {
      MergesAll(all[..|all| - 1], kept[..|kept| - 1]);
      assert all == all[..|all| - 1] + [all[|all| - 1]] && kept == kept[..|kept| - 1] + [kept[|kept| - 1]];
    }
  }

  /** The methods of one channel and signature among those settled, deferred, in the gap and unread. */
  function Together<M>(done: seq<Arrival<M>>, queue: seq<Arrival<M>>, gap: seq<Arrival<M>>, rest: seq<Arrival<M>>,
                       c: nat, sig: Sig): seq<Arrival<M>>
  {
    Only(done, c, sig) + Only(queue, c, sig) + Only(gap, c, sig) + Only(rest, c, sig)
  }

  lemma ReadTogether<M>(done: seq<Arrival<M>>, queue: seq<Arrival<M>>, m: Arrival<M>, rest: seq<Arrival<M>>, c: nat,
                        sig: Sig)
    ensures Together(done, queue, [], [m] + rest, c, sig) == Together(done, queue, [m], rest, c, sig)
  {
    hide Only;
    OnlyNone<M>(c, sig);
    OnlyAppend([m], rest, c, sig);
  }

  lemma DeferTogether<M>(done: seq<Arrival<M>>, queue: seq<Arrival<M>>, m: Arrival<M>, rest: seq<Arrival<M>>, c: nat,
                         sig: Sig)
    ensures Together(done, queue + [m], [], rest, c, sig) == Together(done, queue, [m], rest, c, sig)
  {
    hide Only;
    OnlyNone<M>(c, sig);
    OnlyAppend(queue, [m], c, sig);
  }

  lemma GapElsewhere<M>(done: seq<Arrival<M>>, queue: seq<Arrival<M>>, m: Arrival<M>, rest: seq<Arrival<M>>, c: nat,
                        sig: Sig)
    requires m.channel != c
    ensures Together(done, queue, [], rest, c, sig) == Together(done, queue, [m], rest, c, sig)
  {
    hide Only;
    OnlyNone<M>(c, sig);
    OnlyOne(m, c, sig);
  }

  lemma DeliverTogether<M>(done: seq<Arrival<M>>, queue: seq<Arrival<M>>, m: Arrival<M>, rest: seq<Arrival<M>>,
                           c: nat, sig: Sig)
    requires m.channel == c && m.sig == sig ==> Only(queue, c, sig) == []
    ensures Together(done + [m], queue, [], rest, c, sig) == Together(done, queue, [m], rest, c, sig)
  {
    hide Only;
    OnlyNone<M>(c, sig);
    OnlyOne(m, c, sig);
    OnlyAppend(done, [m], c, sig);
  }

  lemma TakeTogether<M>(done: seq<Arrival<M>>, queue: seq<Arrival<M>>, i: nat, rest: seq<Arrival<M>>, c: nat, sig: Sig)
    requires i < |queue| && forall j :: 0 <= j < i ==> queue[j].sig != queue[i].sig
    ensures Together(done + [queue[i]], queue[..i] + queue[i + 1..], [], rest, c, sig)
            == Together(done, queue, [], rest, c, sig)
  {
    hide Only;
    var m := queue[i];
    OnlyAppend(done, [m], c, sig);
    OnlyOne(m, c, sig);
    OnlyAppend(queue[..i], queue[i + 1..], c, sig);
    assert queue == queue[..i] + ([m] + queue[i + 1..]);
    OnlyAppend(queue[..i], [m] + queue[i + 1..], c, sig);
    OnlyAppend([m], queue[i + 1..], c, sig);
    if m.channel == c && m.sig == sig { OnlyElsewhere(queue[..i], c, sig); }
  }

  lemma SettledElsewhere<M>(done: seq<Arrival<M>>, gone: seq<Arrival<M>>, queue: seq<Arrival<M>>, rest: seq<Arrival<M>>,
                            c: nat, sig: Sig)
    requires forall a | a in gone :: a.channel != c
    ensures Together(done + gone, queue, [], rest, c, sig) == Together(done, queue, [], rest, c, sig)
  {
    hide Only;
    OnlyElsewhere(gone, c, sig);
    OnlyAppend(done, gone, c, sig);
  }

  lemma DropTogether<M>(done: seq<Arrival<M>>, queue: seq<Arrival<M>>, rest: seq<Arrival<M>>, c: nat, sig: Sig)
    ensures Together(done + queue, [], [], rest, c, sig) == Together(done, queue, [], rest, c, sig)
  {
    hide Only;
    OnlyNone<M>(c, sig);
    OnlyAppend(done, queue, c, sig);
  }

  // ---------- one wait, as a whole ----------

  function Methods<M>(es: seq<Event<M>>): seq<Arrival<M>>
  {
    if es == [] then [] else (if es[0].Read? then [es[0].m] else []) + Methods(es[1..])
  }

  lemma {:induction false} MethodsSnoc<M>(es: seq<Event<M>>, e: Event<M>)
    ensures Methods(es + [e]) == Methods(es) + (if e.Read? then [e.m] else [])
  {
    var last := if e.Read? then [e.m] else [];
    if es == [] {
      assert [] + [e] == [e] && [e][1..] == [];
    } else {
      var init, rest := if es[0].Read? then [es[0].m] else [], Methods(es[1..]);
      MethodsSnoc(es[1..], e);
      assert es + [e] == [es[0]] + (es[1..] + [e]);
      MethodsCons(es[0], es[1..] + [e]);
      assert init + (rest + last) == (init + rest) + last;
    }
  }

  lemma MethodsCons<M>(e: Event<M>, es: seq<Event<M>>)
    ensures Methods([e] + es) == (if e.Read? then [e.m] else []) + Methods(es)
  {
    assert ([e] + es)[1..] == es;
  }

  lemma {:induction false} ToChannelAppend<M>(a: seq<Arrival<M>>, b: seq<Arrival<M>>, c: nat)
    ensures ToChannel(a + b, c) == ToChannel(a, c) + ToChannel(b, c)
  {
    if a == [] {
      assert a + b == b;
    } else {
      var one := if a[0].channel == c then [a[0]] else [];
      assert (a + b)[0] == a[0] && (a + b)[1..] == a[1..] + b;
      ToChannelAppend(a[1..], b, c);
      assert one + (ToChannel(a[1..], c) + ToChannel(b, c)) == (one + ToChannel(a[1..], c)) + ToChannel(b, c);
    }
  }

  lemma ToChannelOne<M>(m: Arrival<M>, c: nat)
    ensures ToChannel([m], c) == if m.channel == c then [m] else []
  {
    assert ToChannel<M>([m][1..], c) == [];
  }

  datatype Status<M> = Status(
    channels: map<nat, seq<Arrival<M>>>, unread: seq<Event<M>>, delivered: seq<Arrival<M>>, lost: seq<Arrival<M>>)

  /** A method for a channel that is not open. */
  predicate Stray<M>(e: Event<M>, open: set<nat>) { e.Read? && e.m.channel !in open }

  predicate Answer<M>(e: Event<M>, id: nat, allowed: Option<set<Sig>>) {
    e.Read? && e.m.channel == id && Wanted(e.m.sig, allowed)
  }

  /** The wait for a method on `id` ends here; `dispatches` tells for channel 0 that the handler returns. */
  predicate Stops<M>(e: Event<M>, id: nat, allowed: Option<set<Sig>>, open: set<nat>, dispatches: Arrival<M> -> bool) {
    e.Broken? || Answer(e, id, allowed) || Stray(e, open) || (e.m.channel == 0 && !dispatches(e.m))
  }

  /** The first event that ends the wait, or the number of all when none does. */
  function Stop<M>(es: seq<Event<M>>, id: nat, allowed: Option<set<Sig>>, open: set<nat>,
                   dispatches: Arrival<M> -> bool): (i: nat)
    ensures i <= |es| && forall j :: 0 <= j < i ==> !Stops(es[j], id, allowed, open, dispatches)
    ensures i < |es| ==> Stops(es[i], id, allowed, open, dispatches)
  {
    if es == [] || Stops(es[0], id, allowed, open, dispatches) then 0
    else 1 + Stop(es[1..], id, allowed, open, dispatches)
  }

  lemma StopIs<M>(es: seq<Event<M>>, id: nat, allowed: Option<set<Sig>>, open: set<nat>,
                  dispatches: Arrival<M> -> bool, i: nat)
    requires i <= |es| && forall j :: 0 <= j < i ==> !Stops(es[j], id, allowed, open, dispatches)
    requires i < |es| ==> Stops(es[i], id, allowed, open, dispatches)
    ensures Stop(es, id, allowed, open, dispatches) == i
  {
  }

  /** The methods are deferred on their channels, except for those of channel 0. */
  function Extended<M>(channels: map<nat, seq<Arrival<M>>>, ms: seq<Arrival<M>>): map<nat, seq<Arrival<M>>> {
    map c | c in channels :: channels[c] + (if c == 0 then [] else ToChannel(ms, c))
  }

  lemma ExtendedNone<M>(channels: map<nat, seq<Arrival<M>>>)
    ensures Extended(channels, []) == channels
  {
    assert forall c :: ToChannel<M>([], c) == [];
    assert forall q: seq<Arrival<M>> :: q + [] == q;
  }

  lemma ExtendedMore<M>(channels: map<nat, seq<Arrival<M>>>, ms: seq<Arrival<M>>, m: Arrival<M>)
    requires m.channel in channels
    ensures var before := Extended(channels, ms);
      Extended(channels, ms + [m]) ==
      if m.channel == 0 then before else before[m.channel := before[m.channel] + [m]]
  {
    hide ToChannel;
    var before, after := Extended(channels, ms), Extended(channels, ms + [m]);
    forall c | c in channels ensures after[c] == if c == m.channel != 0 then before[c] + [m] else before[c] {
      ToChannelAppend(ms, [m], c);
      ToChannelOne(m, c);
      AppendOne(channels[c], ToChannel(ms, c), m);
    }
  }

  /** The first `n` events are passed over: deferred on their channels, and on channel 0 dispatched. */
  function Passed<M>(s: Status<M>, n: nat): Status<M>
    requires n <= |s.unread|
  {
    var ms := Methods(s.unread[..n]);
    Status(Extended(s.channels, ms), s.unread[n..], s.delivered + ToChannel(ms, 0), s.lost)
  }

  /** How the wait ends at the next event, one that stops it. */
  function Concluded<M>(s: Status<M>, id: nat, allowed: Option<set<Sig>>): (Result<Arrival<M>, Error>, Status<M>)
    requires s.unread != []
  {
    var e, s1 := s.unread[0], s.(unread := s.unread[1..]);
    if e.Broken? then (Err(BadEvent), s1)
    else if Answer(e, id, allowed) then (Ok(e.m), s1.(delivered := s.delivered + [e.m]))
    else if Stray(e, s.channels.Keys) then (Err(UnknownChannel(e.m.channel)), s1.(lost := s.lost + [e.m]))
    else (Err(Undispatched), s1.(delivered := s.delivered + [e.m]))
  }

  function ReadOn<M>(s: Status<M>, id: nat, allowed: Option<set<Sig>>, dispatches: Arrival<M> -> bool)
    : (Result<Arrival<M>, Error>, Status<M>)
  {
    var i := Stop(s.unread, id, allowed, s.channels.Keys, dispatches);
    if i == |s.unread| then (Err(ConnectionLost), Passed(s, i)) else Concluded(Passed(s, i), id, allowed)
  }

  /** `_wait_method`: a deferred method that is wanted, or the first event that ends the wait. */
  function Waited<M(==)>(s: Status<M>, id: nat, allowed: Option<set<Sig>>, dispatches: Arrival<M> -> bool)
    : (Result<Arrival<M>, Error>, Status<M>)
  {
    if id !in s.channels then (Err(UnknownChannel(id)), s)
    else
      var found := FirstWanted(s.channels[id], allowed);
      if found.Some? then
        FirstWantedIn(s.channels[id], allowed);
        var rest := RemoveFirst(s.channels[id], found.value);
        (Ok(found.value), s.(channels := s.channels[id := rest], delivered := s.delivered + [found.value]))
      else ReadOn(s, id, allowed, dispatches)
  }

  lemma {:induction false} FirstWantedIn<M>(queue: seq<Arrival<M>>, allowed: Option<set<Sig>>)
    requires FirstWanted(queue, allowed).Some?
    ensures FirstWanted(queue, allowed).value in queue
  {
    if !Wanted(queue[0].sig, allowed) { FirstWantedIn(queue[1..], allowed); }
  }

  lemma {:induction false} PrefixWanted<M>(a: seq<Arrival<M>>, b: seq<Arrival<M>>, allowed: Option<set<Sig>>)
    requires FirstWanted(a, allowed).Some?
    ensures FirstWanted(a + b, allowed) == FirstWanted(a, allowed)
  {
    assert (a + b)[1..] == a[1..] + b;
    if !Wanted(a[0].sig, allowed) { PrefixWanted(a[1..], b, allowed); }
  }

  /** Whatever stops the wait, the events before it hold nothing wanted. */
  lemma {:induction false} NoneBefore<M>(es: seq<Event<M>>, id: nat, allowed: Option<set<Sig>>, n: nat)
    requires n <= |es| && forall j :: 0 <= j < n ==> !Answer(es[j], id, allowed)
    ensures n == |es| ==> FirstWanted(ToChannel(Methods(es), id), allowed) == None
    ensures n < |es| && Answer(es[n], id, allowed) ==>
              FirstWanted(ToChannel(Methods(es), id), allowed) == Some(es[n].m)
  {
    if es != [] {
      var rest := ToChannel(Methods(es[1..]), id);
      if es[0].Read? {
        var ms := Methods(es[1..]);
        assert ([es[0].m] + ms)[1..] == ms;
        assert ToChannel([es[0].m] + ms, id) == (if es[0].m.channel == id then [es[0].m] else []) + rest;
        assert ([es[0].m] + rest)[1..] == rest && [] + rest == rest;
      } else {
        assert [] + Methods(es[1..]) == Methods(es[1..]);
      }
      if n > 0 { NoneBefore(es[1..], id, allowed, n - 1); }
    }
  }

  lemma {:induction false} NoneWanted<M>(q: seq<Arrival<M>>, allowed: Option<set<Sig>>)
    requires FirstWanted(q, allowed) == None
    ensures forall a | a in q :: allowed.Some? && a.sig !in allowed.value && a.sig != Framing.Sig(20, 40)
  {
    if q != [] {
      NoneWanted(q[1..], allowed);
      assert forall a | a in q :: a == q[0] || a in q[1..];
    }
  }

  /**
    A wait that succeeds delivers the first wanted method of its channel, deferred ones before those
    still to come; one that runs out of events met none.
   */
  lemma WaitedAnswers<M>(s: Status<M>, id: nat, allowed: Option<set<Sig>>, dispatches: Arrival<M> -> bool)
    requires id in s.channels
    ensures var (r, s') := Waited(s, id, allowed, dispatches);
      var first := FirstWanted(s.channels[id] + ToChannel(Methods(s.unread), id), allowed);
      && (r.Ok? ==> first == Some(r.value) && s'.delivered != [] && s'.delivered[|s'.delivered| - 1] == r.value)
      && (r == Err(ConnectionLost) ==> first == None && s'.unread == [])
    ensures Waited(s, id, allowed, dispatches).0 == Err(ConnectionLost) ==>
              forall a | a in s.channels[id] + ToChannel(Methods(s.unread), id) ::
                allowed.Some? && a.sig !in allowed.value && a.sig != Framing.Sig(20, 40)
  {
    hide Methods, ToChannel, RemoveFirst;
    var coming := ToChannel(Methods(s.unread), id);
    if FirstWanted(s.channels[id], allowed).Some? {
      PrefixWanted(s.channels[id], coming, allowed);
      FirstWantedIn(s.channels[id], allowed);
    } else {
      FirstWantedAppend(s.channels[id], coming, allowed);
      NoneBefore(s.unread, id, allowed, Stop(s.unread, id, allowed, s.channels.Keys, dispatches));
      if Waited(s, id, allowed, dispatches).0 == Err(ConnectionLost) { NoneWanted(s.channels[id] + coming, allowed); }
    }
  }

  /** A wait loses a method exactly when it ends at one for a channel that is not open. */
  lemma LosesExactly<M>(s: Status<M>, id: nat, allowed: Option<set<Sig>>, dispatches: Arrival<M> -> bool)
    requires id in s.channels && FirstWanted(s.channels[id], allowed) == None
    ensures var (r, s') := Waited(s, id, allowed, dispatches);
      var i := Stop(s.unread, id, allowed, s.channels.Keys, dispatches);
      && (s'.lost != s.lost <==> i < |s.unread| && Stray(s.unread[i], s.channels.Keys))
      && (s'.lost != s.lost ==> s'.lost == s.lost + [s.unread[i].m] && r == Err(UnknownChannel(s.unread[i].m.channel)))
  {
  }

  lemma PassedNone<M>(s: Status<M>)
    ensures Passed(s, 0) == s
  {
    assert Methods(s.unread[..0]) == [] && ToChannel<M>([], 0) == [];
    ExtendedNone(s.channels);
  }

  /** An input of that kind: with channel 0 alone open, a method for another one is read and gone. */
  lemma StrayLost<M>(a: Arrival<M>, allowed: Option<set<Sig>>, dispatches: Arrival<M> -> bool)
    requires a.channel != 0
    ensures Waited(Status(map[0 := []], [Read(a)], [], []), 0, allowed, dispatches)
         == (Err(UnknownChannel(a.channel)), Status(map[0 := []], [], [], [a]))
  {
    var s := Status(map[0 := []], [Read(a)], [], []);
    assert FirstWanted<M>([], allowed) == None;
    assert s.channels[0] == [];
    StopIs(s.unread, 0, allowed, {0}, dispatches, 0);
    assert s.channels.Keys == {0};
    PassedNone(s);
    assert s.unread[0] == Read(a) && s.unread[1..] == [] && [] + [a] == [a];
    assert !Answer(Read(a), 0, allowed);
    assert Concluded(s, 0, allowed) == (Err(UnknownChannel(a.channel)), Status(map[0 := []], [], [], [a]));
  }

  /** One more event is passed over. */
  lemma PassedMore<M>(s: Status<M>, n: nat)
    requires n < |s.unread| && s.unread[n].Read? && s.unread[n].m.channel in s.channels
    ensures var m, t := s.unread[n].m, Passed(s, n);
      Passed(s, n + 1) == if m.channel == 0 then t.(unread := s.unread[n + 1..], delivered := t.delivered + [m])
                          else t.(unread := s.unread[n + 1..],
                                  channels := t.channels[m.channel := t.channels[m.channel] + [m]])
  {
    hide Methods, ToChannel, Extended;
    var m, ms := s.unread[n].m, Methods(s.unread[..n]);
    assert s.unread[..n + 1] == s.unread[..n] + [s.unread[n]];
    MethodsSnoc(s.unread[..n], s.unread[n]);
    ExtendedMore(s.channels, ms, m);
    ToChannelAppend(ms, [m], 0);
    ToChannelOne(m, 0);
    AppendOne(s.delivered, ToChannel(ms, 0), m);
  }

  /** The wait ends at the first event that stops it. */
  lemma EndsAt<M>(s: Status<M>, id: nat, allowed: Option<set<Sig>>, dispatches: Arrival<M> -> bool, n: nat)
    requires n <= |s.unread|
    requires forall j :: 0 <= j < n ==> !Stops(s.unread[j], id, allowed, s.channels.Keys, dispatches)
    requires n < |s.unread| ==> Stops(s.unread[n], id, allowed, s.channels.Keys, dispatches)
    ensures ReadOn(s, id, allowed, dispatches) ==
            if n < |s.unread| then Concluded(Passed(s, n), id, allowed) else (Err(ConnectionLost), Passed(s, n))
  {
    hide Stops, Concluded;
    StopIs(s.unread, id, allowed, s.channels.Keys, dispatches, n);
  }

  lemma AppendOne<T>(a: seq<T>, b: seq<T>, x: T)
    ensures a + (b + [x]) == (a + b) + [x] && b + [] == b
  {
  }

  lemma EventStops<M>(e: Event<M>, id: nat, allowed: Option<set<Sig>>, open: set<nat>, dispatches: Arrival<M> -> bool)
    ensures Stops(e, id, allowed, open, dispatches) <==>
            e.Broken? || (e.m.channel == id && Wanted(e.m.sig, allowed)) || e.m.channel !in open
            || (e.m.channel == 0 && !dispatches(e.m))
  {
  }

  // ---------- which methods end a wait ----------

  /** A deferred method that was asked for, or that closes the channel, is the answer; the others stay deferred. */
  lemma DeferredAnswer<M>(s: Status<M>, id: nat, allowed: Option<set<Sig>>, dispatches: Arrival<M> -> bool, i: nat)
    requires id in s.channels && i < |s.channels[id]|
    requires var sig := s.channels[id][i].sig;
      allowed == None || sig in allowed.value || sig == Framing.Sig(20, 40)
    requires allowed == None ==> i == 0
    requires allowed.Some? ==>
               forall j :: 0 <= j < i ==>
                 s.channels[id][j].sig !in allowed.value && s.channels[id][j].sig != Framing.Sig(20, 40)
    ensures var q := s.channels[id];
      Waited(s, id, allowed, dispatches)
      == (Ok(q[i]), s.(channels := s.channels[id := q[..i] + q[i + 1..]], delivered := s.delivered + [q[i]]))
  {
    FirstWantedAt(s.channels[id], allowed, i);
    RemoveFirstAt(s.channels[id], i, allowed);
  }

  /** An event that a wait on `id` passes over, told by its numbers. */
  ghost predicate PassedOver<M>(e: Event<M>, id: nat, allowed: Option<set<Sig>>, open: set<nat>,
                                dispatches: Arrival<M> -> bool)
  {
    && e.Read? && e.m.channel in open && (e.m.channel == 0 ==> dispatches(e.m))
    && (e.m.channel == id ==>
          allowed.Some? && e.m.sig !in allowed.value && !(e.m.sig.classId == 20 && e.m.sig.methodId == 40))
  }

  /** With nothing to answer deferred, the first event not passed over decides; this one is an answer. */
  lemma ReadAnswer<M>(s: Status<M>, id: nat, allowed: Option<set<Sig>>, dispatches: Arrival<M> -> bool, n: nat)
    requires NothingDeferred(s, id, allowed)
    requires n < |s.unread| && forall j :: 0 <= j < n ==>
      PassedOver(s.unread[j], id, allowed, s.channels.Keys, dispatches)
    requires s.unread[n].Read? && s.unread[n].m.channel == id
    requires var sig := s.unread[n].m.sig;
      allowed == None || sig in allowed.value || sig == Framing.Sig(20, 40)
    ensures var (r, s') := Waited(s, id, allowed, dispatches);
      r == Ok(s.unread[n].m) && s'.unread == s.unread[n + 1..] && s'.lost == s.lost
    ensures var s', ms := Waited(s, id, allowed, dispatches).1, Methods(s.unread[..n]);
      && s'.delivered == s.delivered + ToChannel(ms, 0) + [s.unread[n].m] && s'.channels.Keys == s.channels.Keys
      && forall c | c in s.channels :: s'.channels[c] == s.channels[c] + if c == 0 then [] else ToChannel(ms, c)
  {
    NoneToAnswer(s, id, allowed);
    EndsAt(s, id, allowed, dispatches, n);
    assert s.unread[n..][0] == s.unread[n] && s.unread[n..][1..] == s.unread[n + 1..];
    PassedRest(s, n);
  }

  /** A close of the channel is returned whatever was asked for. */
  lemma CloseAnswers<M>(s: Status<M>, id: nat, allowed: Option<set<Sig>>, dispatches: Arrival<M> -> bool, v: M)
    requires NothingDeferred(s, id, allowed)
    requires s.unread != [] && s.unread[0] == Read(Arrival(id, Framing.Sig(20, 40), v))
    ensures Waited(s, id, allowed, dispatches)
         == (Ok(s.unread[0].m), s.(unread := s.unread[1..], delivered := s.delivered + [s.unread[0].m]))
  {
    NoneToAnswer(s, id, allowed);
    EndsAt(s, id, allowed, dispatches, 0);
    PassedNone(s);
  }

  /** The other ways to end: an event that is no method, a channel that is not open, a handler that raises. */
  lemma ReadRaises<M>(s: Status<M>, id: nat, allowed: Option<set<Sig>>, dispatches: Arrival<M> -> bool, n: nat)
    requires NothingDeferred(s, id, allowed)
    requires n <= |s.unread| && forall j :: 0 <= j < n ==>
      PassedOver(s.unread[j], id, allowed, s.channels.Keys, dispatches)
    ensures var (r, s') := Waited(s, id, allowed, dispatches);
      && (n == |s.unread| ==> r == Err(ConnectionLost) && s'.unread == [])
      && (n < |s.unread| && s.unread[n].Broken? ==> r == Err(BadEvent) && s'.unread == s.unread[n + 1..])
      && (n < |s.unread| && s.unread[n].Read? && s.unread[n].m.channel !in s.channels ==>
            r == Err(UnknownChannel(s.unread[n].m.channel)) && s'.lost == s.lost + [s.unread[n].m])
    ensures n < |s.unread| && s.unread[n].Read? && s.unread[n].m.channel == 0 != id ==>
              var (r, s') := Waited(s, id, allowed, dispatches);
              0 in s.channels && !dispatches(s.unread[n].m) ==>
                r == Err(Undispatched) && s'.unread == s.unread[n + 1..]
  {
    hide Passed;
    NoneToAnswer(s, id, allowed);
    PassedRest(s, n);
    if n == |s.unread| {
      EndsAt(s, id, allowed, dispatches, n);
    } else if Stops(s.unread[n], id, allowed, s.channels.Keys, dispatches) {
      EndsAt(s, id, allowed, dispatches, n);
      assert s.unread[n..][0] == s.unread[n] && s.unread[n..][1..] == s.unread[n + 1..];
    }
  }

  /** Nothing else is ever the answer. */
  lemma AnswersAsked<M>(s: Status<M>, id: nat, allowed: set<Sig>, dispatches: Arrival<M> -> bool)
    ensures var r := Waited(s, id, Some(allowed), dispatches).0;
      r.Ok? ==> r.value.sig in allowed || (r.value.sig.classId == 20 && r.value.sig.methodId == 40)
  {
    hide Methods, ToChannel, RemoveFirst;
    if id in s.channels {
      AnswerWanted(s.channels[id], Some(allowed));
    }
  }

  lemma {:induction false} AnswerWanted<M>(q: seq<Arrival<M>>, allowed: Option<set<Sig>>)
    ensures var first := FirstWanted(q, allowed); first.Some? ==> Wanted(first.value.sig, allowed)
  {
    if q != [] { AnswerWanted(q[1..], allowed); }
  }

  /** None of the methods deferred on an open channel would answer. */
  ghost predicate NothingDeferred<M>(s: Status<M>, id: nat, allowed: Option<set<Sig>>) {
    id in s.channels
    && if allowed == None then s.channels[id] == []
       else forall i :: 0 <= i < |s.channels[id]| ==>
              var sig := s.channels[id][i].sig;
              sig !in allowed.value && !(sig.classId == 20 && sig.methodId == 40)
  }

  lemma NoneToAnswer<M>(s: Status<M>, id: nat, allowed: Option<set<Sig>>)
    requires NothingDeferred(s, id, allowed)
    ensures FirstWanted(s.channels[id], allowed) == None
  {
    FirstWantedAt(s.channels[id], allowed, |s.channels[id]|);
  }

  lemma PassedRest<M>(s: Status<M>, n: nat)
    requires n <= |s.unread|
    ensures Passed(s, n).unread == s.unread[n..] && Passed(s, n).lost == s.lost
    ensures Passed(s, n).channels.Keys == s.channels.Keys
  {
  }

  // ---------- the history of reads ----------

  function Events<M>(history: seq<(Event<M>, set<nat>)>): seq<Event<M>> {
    seq(|history|, i requires 0 <= i < |history| => history[i].0)
  }

  /** The methods read for a channel that was not open then. */
  function Strays<M>(history: seq<(Event<M>, set<nat>)>): seq<Arrival<M>>
    decreases |history|
  {
    if history == [] then []
    else
      var (e, open) := history[|history| - 1];
      Strays(history[..|history| - 1]) + if Stray(e, open) then [e.m] else []
  }

  lemma HistorySnoc<M>(history: seq<(Event<M>, set<nat>)>, e: Event<M>, open: set<nat>)
    ensures Events(history + [(e, open)]) == Events(history) + [e]
    ensures Strays(history + [(e, open)]) == Strays(history) + if Stray(e, open) then [e.m] else []
  {
    assert (history + [(e, open)])[..|history|] == history;
  }

  lemma {:induction false} NoStrays<M>(history: seq<(Event<M>, set<nat>)>)
    ensures Strays(history) == [] <==> forall i :: 0 <= i < |history| ==> !Stray(history[i].0, history[i].1)
    decreases |history|
  {
    if history != [] { NoStrays(history[..|history| - 1]); }
  }

  class Connection<M(==,!new)> {
    const channelMax: nat
    /** For a method of channel 0: its handler returns, and leaves the channels alone. */
    const dispatches: Arrival<M> -> bool
    /** Each open channel's deferred methods. */
    var channels: map<nat, seq<Arrival<M>>>
    /** What the method reader has still to hand out. */
    var unread: seq<Event<M>>
    ghost var delivered: seq<Arrival<M>>
    /** What was deferred on channels closed since. */
    ghost var dropped: seq<Arrival<M>>
    /** What was read for a channel that was not open. */
    ghost var lost: seq<Arrival<M>>
    /** Everything dropped or lost, in order. */
    ghost var gone: seq<Arrival<M>>
    /** Everything delivered, dropped or lost, in order. */
    ghost var settled: seq<Arrival<M>>
    /** Everything read, each with the channels open at that time. */
    ghost var history: seq<(Event<M>, set<nat>)>
    ghost const received: seq<Event<M>>

    function Deferred(c: nat): seq<Arrival<M>>
      reads `channels
    {
      if c in channels then channels[c] else []
    }

    ghost function State(): Status<M>
      reads this
    {
      Status(channels, unread, delivered, lost)
    }

    /**
      Delivered, dropped or lost, deferred, `gap` and unread are together what was received, in order for
      each channel and signature.
     */
    ghost predicate Conserved(gap: seq<Arrival<M>>)
      reads this
    {
      Merges(settled, delivered, gone) && Merges(gone, lost, dropped) && forall c, sig :: Balanced(c, sig, gap)
    }

    ghost predicate Balanced(c: nat, sig: Sig, gap: seq<Arrival<M>>)
      reads this
    {
      Together(settled, Deferred(c), gap, Methods(unread), c, sig) == Only(Methods(received), c, sig)
    }

    /** The history is what has been read, and tells what was lost but for `stray`. */
    ghost predicate Recorded(stray: seq<Arrival<M>>)
      reads this
    {
      Events(history) + unread == received && Strays(history) == lost + stray
    }

    ghost predicate OwnQueues()
      reads `channels
    {
      forall c, a | c in channels && a in channels[c] :: a.channel == c
    }

    ghost predicate Ready()
      reads this
    {
      0 in channels && OwnQueues() && Conserved([]) && Recorded([])
    }

    ghost predicate Valid()
      reads this
    {
      Ready() && channels[0] == []
    }

    constructor (channelMax: nat, received: seq<Event<M>>, dispatches: Arrival<M> -> bool)
      ensures Valid() && channels == map[0 := []] && unread == received == this.received
      ensures delivered == dropped == lost == [] && history == []
      ensures this.channelMax == channelMax && this.dispatches == dispatches
    {
      this.channelMax, this.dispatches := channelMax, dispatches;
      channels, unread, this.received := map[0 := []], received, received;
      delivered, dropped, lost, gone, settled, history := [], [], [], [], [], [];
      new;
      forall c, sig ensures Balanced(c, sig, []) {
        OnlyNone<M>(c, sig);
        assert [] + Only(Methods(received), c, sig) == Only(Methods(received), c, sig);
      }
      assert [] + received == received;
    }

    /** The scan of a channel's deferred methods. */
    method TakeDeferred(id: nat, allowed: Option<set<Sig>>) returns (r: Option<Arrival<M>>)
      requires id in channels && Ready()
      modifies this
      ensures Ready() && dropped == old(dropped) && history == old(history)
      ensures r == FirstWanted(old(channels[id]), allowed)
      ensures r.Some? && allowed.Some? ==> r.value.sig in allowed.value || r.value.sig == Framing.Sig(20, 40)
      ensures r == None ==> State() == old(State())
      ensures r == None ==> forall a | a in channels[id] ::
                allowed.Some? && a.sig !in allowed.value && a.sig != Framing.Sig(20, 40)
      ensures r.Some? ==> r.value in old(channels[id])
      ensures r.Some? ==>
                State() == old(State()).(channels := old(channels)[id := RemoveFirst(old(channels[id]), r.value)],
                                         delivered := old(delivered) + [r.value])
    {
      hide Conserved, OwnQueues, Recorded, RemoveFirst;
      var queue := channels[id];
      var i := 0;
      while i < |queue|
        invariant 0 <= i <= |queue| && unchanged(this)
        invariant forall j :: 0 <= j < i ==> !Wanted(queue[j].sig, allowed)
      {
        var m := queue[i];
        if Wanted(m.sig, allowed) {
          FirstWantedAt(queue, allowed, i);
          RemoveFirstAt(queue, i, allowed);
          TakeOut(id, i);
          return Some(m);
        }
        i := i + 1;
      }
      FirstWantedAt(queue, allowed, i);
      NoneWanted(queue, allowed);
      r := None;
    }

    /** The `i`-th deferred method of the channel, the first of its signature, is delivered. */
    method TakeOut(id: nat, i: nat)
      requires id in channels && Ready() && i < |channels[id]|
      requires forall j :: 0 <= j < i ==> channels[id][j].sig != channels[id][i].sig
      modifies `channels, `delivered, `settled
      ensures Ready() && delivered == old(delivered) + [old(channels[id])[i]]
      ensures channels == old(channels)[id := old(channels[id])[..i] + old(channels[id])[i + 1..]]
    {
      hide Together, Merges, Methods;
      var queue := channels[id];
      var m := queue[i];
      assert m in queue;
      MergesKeep(settled, delivered, gone, m);
      channels := channels[id := queue[..i] + queue[i + 1..]];
      delivered, settled := delivered + [m], settled + [m];
      forall c, sig ensures Balanced(c, sig, []) {
        assert old(Balanced(c, sig, []));
        if c == id {
          TakeTogether(old(settled), queue, i, Methods(unread), c, sig);
        } else {
          SettledElsewhere(old(settled), [m], Deferred(c), Methods(unread), c, sig);
        }
      }
    }

    /** The next event is read: a method is the gap until it is placed somewhere. */
    method ReadEvent() returns (e: Event<M>)
      requires Ready() && unread != []
      modifies this`unread, this`history
      ensures [e] + unread == old(unread) && OwnQueues()
      ensures Conserved(if e.Read? then [e.m] else [])
      ensures Recorded(if Stray(e, channels.Keys) then [e.m] else [])
    {
      hide Together, Merges, OwnQueues, Methods;
      e := unread[0];
      history := history + [(e, channels.Keys)];
      unread := unread[1..];
      assert [e] + unread == old(unread);
      HistorySnoc(old(history), e, channels.Keys);
      assert Events(old(history)) + ([e] + unread) == (Events(old(history)) + [e]) + unread;
      MethodsCons(e, unread);
      assert [] + Methods(unread) == Methods(unread);
      ghost var gap := if e.Read? then [e.m] else [];
      forall c, sig ensures Balanced(c, sig, gap) {
        assert old(Balanced(c, sig, []));
        if e.Read? { ReadTogether(settled, Deferred(c), e.m, Methods(unread), c, sig); }
      }
    }

    method Deliver(m: Arrival<M>)
      requires Conserved([m]) && OwnQueues() && Recorded([]) && 0 in channels
      requires Only(Deferred(m.channel), m.channel, m.sig) == []
      modifies this`delivered, this`settled
      ensures Ready() && delivered == old(delivered) + [m]
    {
      hide Together, Merges, OwnQueues, Methods;
      MergesKeep(settled, delivered, gone, m);
      delivered, settled := delivered + [m], settled + [m];
      forall c, sig ensures Balanced(c, sig, []) {
        assert old(Balanced(c, sig, [m]));
        DeliverTogether(old(settled), Deferred(c), m, Methods(unread), c, sig);
      }
    }

    method Defer(m: Arrival<M>)
      requires Conserved([m]) && OwnQueues() && Recorded([]) && 0 in channels && m.channel in channels
      modifies this`channels
      ensures Ready() && channels == old(channels)[m.channel := old(channels[m.channel]) + [m]]
    {
      hide Together, Merges, Methods;
      channels := channels[m.channel := channels[m.channel] + [m]];
      forall c, sig ensures Balanced(c, sig, []) {
        assert old(Balanced(c, sig, [m]));
        if c == m.channel {
          DeferTogether(settled, old(Deferred(c)), m, Methods(unread), c, sig);
        } else {
          GapElsewhere(settled, Deferred(c), m, Methods(unread), c, sig);
        }
      }
    }

    /** The lookup of the channel raises, and nobody has the method any more. */
    ghost method Lose(m: Arrival<M>)
      requires Conserved([m]) && OwnQueues() && Recorded([m]) && 0 in channels && m.channel !in channels
      modifies this`lost, this`gone, this`settled
      ensures Ready() && lost == old(lost) + [m]
    {
      hide Together, Merges, OwnQueues, Methods;
      MergesDrop(settled, delivered, gone, [m]);
      MergesKeep(gone, lost, dropped, m);
      lost, gone, settled := lost + [m], gone + [m], settled + [m];
      assert lost + [] == lost;
      forall c, sig ensures Balanced(c, sig, []) {
        assert old(Balanced(c, sig, [m]));
        OnlyNone<M>(c, sig);
        DeliverTogether(old(settled), Deferred(c), m, Methods(unread), c, sig);
      }
    }

    /** A method nobody waits for is deferred; on channel 0 it is then dispatched at once. */
    method Place(m: Arrival<M>) returns (ok: bool)
      requires Conserved([m]) && OwnQueues() && Recorded([]) && 0 in channels && channels[0] == []
      requires m.channel in channels
      modifies this
      ensures Valid() && ok == (m.channel == 0 ==> dispatches(m))
      ensures dropped == old(dropped) && history == old(history)
      ensures var s := old(State());
        State() == if m.channel == 0 then s.(delivered := s.delivered + [m])
                   else s.(channels := s.channels[m.channel := s.channels[m.channel] + [m]])
      decreases |unread|, 2
    {
      hide Conserved, OwnQueues, Recorded;
      Defer(m);
      if m.channel == 0 {
        assert channels[0] == [m] && FirstWanted([m], None) == Some(m) && RemoveFirst([m], m) == [];
        var dispatched := WaitMethod(0, None);
        assert channels == old(channels);
        ok := dispatches(dispatched.value);
      } else {
        ok := true;
      }
    }

    /** `_wait_method`, exactly; nothing is unaccounted for afterwards, whatever happened. */
    method WaitMethod(id: nat, allowed: Option<set<Sig>>) returns (r: Result<Arrival<M>, Error>)
      requires Ready() && (channels[0] == [] || (id == 0 && allowed == None && |channels[0]| == 1))
      modifies this
      ensures (r, State()) == Waited(old(State()), id, allowed, dispatches)
      ensures r.Ok? && allowed.Some? ==> r.value.sig in allowed.value || r.value.sig == Framing.Sig(20, 40)
      ensures Valid() && |unread| <= |old(unread)| && channels.Keys == old(channels).Keys
      ensures dropped == old(dropped)
      ensures id !in channels ==> unchanged(this)
      ensures id in channels && FirstWanted(old(Deferred(id)), allowed).Some? ==> history == old(history)
      decreases |unread|, 1
    {
      hide Conserved, OwnQueues, Recorded, ReadOn;
      if allowed.Some? { AnswersAsked(State(), id, allowed.value, dispatches); }
      if id !in channels { return Err(UnknownChannel(id)); }
      var found := TakeDeferred(id, allowed);
      if found.Some? {
        EmptiedOwn(old(channels[id]), allowed);
        return Ok(found.value);
      }
      r := ReadUntil(id, allowed);
    }

    /** The read loop of `_wait_method`; channel 0 has no deferred method at its head. */
    method ReadUntil(id: nat, allowed: Option<set<Sig>>) returns (r: Result<Arrival<M>, Error>)
      requires Valid() && id in channels && FirstWanted(channels[id], allowed) == None
      modifies this
      ensures (r, State()) == ReadOn(old(State()), id, allowed, dispatches)
      ensures r.Ok? && allowed.Some? ==> r.value.sig in allowed.value || r.value.sig == Framing.Sig(20, 40)
      ensures Valid() && |unread| <= |old(unread)| && channels.Keys == old(channels).Keys
      ensures dropped == old(dropped)
      decreases |unread|, 0
    {
      hide Conserved, OwnQueues, Recorded, Passed, Stops, ReadOn;
      ghost var s, k := State(), 0;
      PassedNone(s);
      while unread != []
        invariant Valid() && dropped == old(dropped)
        invariant 0 <= k <= |s.unread| && State() == Passed(s, k) && unread == s.unread[k..]
        invariant channels.Keys == s.channels.Keys && FirstWanted(channels[id], allowed) == None
        invariant forall j :: 0 <= j < k ==> !Stops(s.unread[j], id, allowed, s.channels.Keys, dispatches)
        decreases |unread|
      {
        ghost var here := State();
        var e := ReadEvent();
        assert e == s.unread[k] && unread == here.unread[1..] == s.unread[k + 1..];
        EventStops(e, id, allowed, s.channels.Keys, dispatches);
        if e.Broken? {
          EndsAt(s, id, allowed, dispatches, k);
          return Err(BadEvent);
        }
        var m := e.m;
        if m.channel == id && Wanted(m.sig, allowed) {
          NoneDeferred(channels[id], id, m.sig, allowed);
          Deliver(m);
          EndsAt(s, id, allowed, dispatches, k);
          return Ok(m);
        }
        if m.channel !in channels {
          Lose(m);
          EndsAt(s, id, allowed, dispatches, k);
          return Err(UnknownChannel(m.channel));
        }
        if m.channel == id { FirstWantedAppend(channels[id], [m], allowed); }
        var ok := Place(m);
        if !ok {
          EndsAt(s, id, allowed, dispatches, k);
          return Err(Undispatched);
        }
        PassedMore(s, k);
        k := k + 1;
      }
      EndsAt(s, id, allowed, dispatches, k);
      r := Err(ConnectionLost);
    }

    static lemma EmptiedOwn(queue: seq<Arrival<M>>, allowed: Option<set<Sig>>)
      requires FirstWanted(queue, allowed).Some?
      ensures FirstWanted(queue, allowed).value in queue
      ensures |RemoveFirst(queue, FirstWanted(queue, allowed).value)| == |queue| - 1
    {
      if !Wanted(queue[0].sig, allowed) { EmptiedOwn(queue[1..], allowed); }
    }

    static lemma NoneDeferred(queue: seq<Arrival<M>>, id: nat, sig: Sig, allowed: Option<set<Sig>>)
      requires FirstWanted(queue, allowed) == None && Wanted(sig, allowed)
      ensures Only(queue, id, sig) == []
    {
      if queue != [] { NoneDeferred(queue[1..], id, sig, allowed); }
    }

    /** `_get_free_channel_id` and the new channel: the lowest id in use by no channel. */
    method OpenChannel() returns (r: Result<nat, Error>)
      requires Valid()
      modifies this`channels
      ensures Valid()
      ensures r.Ok? ==> 1 <= r.value <= channelMax && r.value !in old(channels)
                        && (forall i :: 1 <= i < r.value ==> i in old(channels))
                        && channels == old(channels)[r.value := []]
      ensures r.Err? <==> forall i :: 1 <= i <= channelMax ==> i in old(channels)
      ensures r.Err? ==> r.error == NoFreeChannel && channels == old(channels)
    {
      for i := 1 to channelMax + 1
        invariant unchanged(this) && forall j :: 1 <= j < i ==> j in channels
      {
        if i !in channels {
          channels := channels[i := []];
          forall c, sig ensures Balanced(c, sig, []) { assert old(Balanced(c, sig, [])); }
          return Ok(i);
        }
      }
      r := Err(NoFreeChannel);
    }

    /** `_do_close` of a channel: what was still deferred on it is dropped. */
    method CloseChannel(id: nat)
      requires Valid() && id in channels && id != 0
      modifies this`channels, this`dropped, this`gone, this`settled
      ensures Valid() && channels == old(channels) - {id} && dropped == old(dropped) + old(channels[id])
    {
      hide Together, Merges, Methods;
      ghost var queue := channels[id];
      MergesDrop(settled, delivered, gone, queue);
      MergesDrop(gone, lost, dropped, queue);
      channels := channels - {id};
      dropped, gone, settled := dropped + queue, gone + queue, settled + queue;
      forall c, sig ensures Balanced(c, sig, []) {
        assert old(Balanced(c, sig, []));
        if c == id {
          DropTogether(old(settled), queue, Methods(unread), c, sig);
        } else {
          SettledElsewhere(old(settled), queue, Deferred(c), Methods(unread), c, sig);
        }
      }
    }

    /**
      In every reachable state, each channel and signature is delivered in arrival order: those delivered,
      merged with those dropped when a channel closed and those lost, are the first received.
     */
    lemma DeliveredInOrder(c: nat, sig: Sig)
      requires Valid()
      ensures Only(settled, c, sig) <= Only(Methods(received), c, sig)
      ensures Merges(Only(settled, c, sig), Only(delivered, c, sig), Only(gone, c, sig))
      ensures Merges(Only(gone, c, sig), Only(lost, c, sig), Only(dropped, c, sig))
      ensures Only(dropped, c, sig) == [] && Only(lost, c, sig) == [] ==>
                Only(delivered, c, sig) <= Only(Methods(received), c, sig)
    {
      assert Balanced(c, sig, []);
      MergesOnly(settled, delivered, gone, c, sig);
      MergesOnly(gone, lost, dropped, c, sig);
      if Only(dropped, c, sig) == [] && Only(lost, c, sig) == [] {
        MergesAll(Only(gone, c, sig), Only(lost, c, sig));
        MergesAll(Only(settled, c, sig), Only(delivered, c, sig));
      }
    }

    /**
      In every reachable state each method received is, as often as it came, delivered, deferred, unread,
      dropped by a channel that closed, or lost.
     */
    lemma AllAccountedFor(a: Arrival<M>)
      requires Valid()
      ensures multiset(delivered)[a] + multiset(dropped)[a] + multiset(lost)[a] + multiset(Deferred(a.channel))[a]
              + multiset(Methods(unread))[a] == multiset(Methods(received))[a]
    {
      hide Only, Methods, Merges;
      var c, sig := a.channel, a.sig;
      assert Balanced(c, sig, []);
      MergesCount(settled, delivered, gone);
      MergesCount(gone, lost, dropped);
      CountOnly(settled, a);
      CountOnly(Deferred(c), a);
      CountOnly(Methods(unread), a);
      CountOnly(Methods(received), a);
      var d, q, u := Only(settled, c, sig), Only(Deferred(c), c, sig), Only(Methods(unread), c, sig);
      OnlyNone<M>(c, sig);
      assert multiset(d + q + [] + u) == multiset(d) + multiset(q) + multiset(u);
    }

    /** In every reachable state: nothing was lost exactly when every method read was for a channel open then. */
    lemma NothingLost()
      requires Valid()
      ensures (forall a :: multiset(delivered)[a] + multiset(dropped)[a] + multiset(Deferred(a.channel))[a]
                           + multiset(Methods(unread))[a] == multiset(Methods(received))[a])
              <==> forall i :: 0 <= i < |history| ==> !Stray(history[i].0, history[i].1)
      ensures Events(history) + unread == received
    {
      hide Conserved, Methods, Merges;
      NoStrays(history);
      forall a
        ensures multiset(delivered)[a] + multiset(dropped)[a] + multiset(lost)[a] + multiset(Deferred(a.channel))[a]
                + multiset(Methods(unread))[a] == multiset(Methods(received))[a]
      {
        AllAccountedFor(a);
      }
      assert lost + [] == lost;
      if lost != [] { assert multiset(lost)[lost[0]] > 0; }
    }
  }
}
