/**
  Replaying calls against a recorded queue of single calls, unordered groups and repeat groups.
  The queue is a greedy acceptor; this file says which call sequences it accepts, and exactly when
  those are the sequences the recording describes.
 */
module Mox {
  import opened Common

  /** A method with its arguments; calls are compared by value. */
  datatype Call = Call(name: string, arguments: string)

  /**
    `Repeat` lists its members in the set's iteration order, by object: equal members are distinct
    objects, so `left` holds positions.
   */
  datatype Block =
    | Single(call: Call)
    | Unordered(group: string, calls: seq<Call>)
    | Repeat(group: string, members: seq<Call>, left: set<nat>)

  type Expected = seq<Block>

  function RemoveFirst(s: seq<Call>, c: Call): (r: seq<Call>)
    requires c in s
    ensures |r| == |s| - 1 && multiset(s) == multiset(r) + multiset{c}
  {
    assert s == [s[0]] + s[1..];
    if s[0] == c then s[1..] else [s[0]] + RemoveFirst(s[1..], c)
  }

  function IndexOf(s: seq<Call>, c: Call): (i: nat)
    requires c in s
    ensures i < |s| && s[i] == c && forall j :: 0 <= j < i ==> s[j] != c
  {
    if s[0] == c then 0 else 1 + IndexOf(s[1..], c)
  }

  /** The queue after an expected call; none when the call is unexpected. */
  function Replay(q: Expected, c: Call): Option<Expected>
  {
    if q == [] then None
    else match q[0]
      case Single(call) => if call == c then Some(q[1..]) else None
      case Unordered(g, calls) =>
        if c !in calls then None
        else
          var rest := RemoveFirst(calls, c);
          Some(if rest == [] then q[1..] else [Unordered(g, rest)] + q[1..])
      case Repeat(g, members, left) =>
        if c in members then Some([Repeat(g, members, left - {IndexOf(members, c)})] + q[1..])
        else if left == {} then Replay(q[1..], c)
        else None
  }

  function ReplayAll(q: Expected, w: seq<Call>): Option<Expected>
    decreases w
  {
    if w == [] then Some(q)
    else if Replay(q, w[0]) == None then None
    else ReplayAll(Replay(q, w[0]).value, w[1..])
  }

  /** `_Verify`: nothing is left, except perhaps one satisfied repeat group. */
  predicate Verified(q: Expected) { q == [] || (|q| == 1 && q[0].Repeat? && q[0].left == {}) }

  predicate Accepts(q: Expected, w: seq<Call>) { ReplayAll(q, w).Some? && Verified(ReplayAll(q, w).value) }

  // ---------- the recorded language ----------

  ghost predicate Covers(members: seq<Call>, left: set<nat>, u: seq<Call>) {
    && (forall c | c in u :: c in members)
    && (forall i | i in left && i < |members| :: members[i] in u)
  }

  /** Single calls in order, an unordered group as any permutation, a repeat group as any covering sequence. */
  ghost predicate Matches(q: Expected, w: seq<Call>)
    decreases q
  {
    if q == [] then w == []
    else match q[0]
      case Single(c) => w != [] && w[0] == c && Matches(q[1..], w[1..])
      case Unordered(_, calls) =>
        |calls| <= |w| && multiset(w[..|calls|]) == multiset(calls) && Matches(q[1..], w[|calls|..])
      case Repeat(_, members, left) =>
        exists n :: 0 <= n <= |w| && Covers(members, left, w[..n]) && Matches(q[1..], w[n..])
  }

  function Members(b: Block): seq<Call> {
    match b
    case Single(c) => [c]
    case Unordered(_, calls) => calls
    case Repeat(_, members, _) => members
  }

  function Positions(n: nat): (r: set<nat>)
    ensures forall i: nat :: i in r <==> i < n
  {
    if n == 0 then {} else Positions(n - 1) + {n - 1}
  }

  /** A block as recorded: not empty, nothing called yet. */
  ghost predicate Fresh(b: Block) {
    Members(b) != [] && (b.Repeat? ==> b.left == Positions(|b.members|))
  }

  ghost predicate Recorded(q: Expected) { forall b | b in q :: Fresh(b) }

  /** A repeat group and the block after it share no call. */
  ghost predicate Apart(a: Block, b: Block) {
    a.Repeat? ==> forall c | c in Members(a) :: c !in Members(b)
  }

  /** Repeat groups have distinct members and share none with the block that follows. */
  ghost predicate Unambiguous(q: Expected) {
    && (forall i :: 0 <= i < |q| && q[i].Repeat? ==> Distinct(q[i].members))
    && (forall i :: 0 <= i < |q| - 1 ==> Apart(q[i], q[i + 1]))
  }

  // ---------- what is accepted was recorded ----------

  lemma {:induction false} AcceptedMatches(q: Expected, w: seq<Call>)
    requires Accepts(q, w)
    ensures Matches(q, w)
    decreases |w|, |q|
  {
    if q == [] {
    } else if w == [] {
      assert Covers(q[0].members, q[0].left, w[..0]) && Matches(q[1..], w[0..]);
    } else {
      var q' := Replay(q, w[0]).value;
      match q[0]
      case Single(_) =>
        AcceptedMatches(q[1..], w[1..]);
      case Unordered(g, calls) =>
        AcceptedMatches(q', w[1..]);
        UnorderedMatches(q[1..], g, calls, w);
      case Repeat(g, members, left) =>
        if w[0] in members {
          AcceptedMatches(q', w[1..]);
          RepeatMatches(q[1..], g, members, left, w);
        } else {
          AcceptedMatches(q[1..], w);
          assert Covers(members, left, w[..0]) && w[0..] == w;
        }
    }
  }

  lemma FirstOfWord(w: seq<Call>, n: nat)
    requires 0 < n <= |w|
    ensures w[..n] == [w[0]] + w[1..][..n - 1] && w[1..][n - 1..] == w[n..]
    ensures multiset(w[..n]) == multiset{w[0]} + multiset(w[1..][..n - 1])
  {
    assert w[..n] == [w[0]] + w[1..][..n - 1];
  }

  lemma UnorderedMatches(tail: Expected, g: string, calls: seq<Call>, w: seq<Call>)
    requires w != [] && w[0] in calls
    requires var rest := RemoveFirst(calls, w[0]);
      Matches(if rest == [] then tail else [Unordered(g, rest)] + tail, w[1..])
    ensures Matches([Unordered(g, calls)] + tail, w)
  {
    var rest := RemoveFirst(calls, w[0]);
    var q, q' := [Unordered(g, calls)] + tail, [Unordered(g, rest)] + tail;
    assert q[1..] == tail && q'[1..] == tail;
    if rest == [] {
      assert w[1..][0..] == w[1..] && multiset(w[1..][..0]) == multiset(rest);
    }
    FirstOfWord(w, |calls|);
  }

  lemma RepeatMatches(tail: Expected, g: string, members: seq<Call>, left: set<nat>, w: seq<Call>)
    requires w != [] && w[0] in members
    requires Matches([Repeat(g, members, left - {IndexOf(members, w[0])})] + tail, w[1..])
    ensures Matches([Repeat(g, members, left)] + tail, w)
  {
    var left' := left - {IndexOf(members, w[0])};
    var q, q' := [Repeat(g, members, left)] + tail, [Repeat(g, members, left')] + tail;
    assert q[1..] == tail && q'[1..] == tail;
    var n :| 0 <= n <= |w[1..]| && Covers(members, left', w[1..][..n]) && Matches(tail, w[1..][n..]);
    FirstOfWord(w, n + 1);
    assert Covers(members, left, w[..n + 1]);
  }

  // ---------- what was recorded is accepted, when unambiguous ----------

  lemma EmptyWord(q: Expected)
    requires Recorded(q) && q != []
    ensures !Matches(q, [])
  {
    assert Fresh(q[0]);
    if q[0].Repeat? { assert 0 in q[0].left; }
  }

  lemma FirstCall(q: Expected, w: seq<Call>)
    requires Recorded(q) && Matches(q, w) && w != []
    ensures q != [] && w[0] in Members(q[0])
  {
    match q[0]
    case Single(_) =>
    case Unordered(_, calls) =>
      assert q[0] in q;
      assert w[..|calls|][0] in multiset(w[..|calls|]);
    case Repeat(_, members, left) =>
      assert q[0] in q;
      var n :| 0 <= n <= |w| && Covers(members, left, w[..n]) && Matches(q[1..], w[n..]);
      assert 0 in left;
      assert w[..n][0] == w[0];
  }

  lemma UnambiguousTail(q: Expected)
    requires q != [] && Unambiguous(q)
    ensures Unambiguous(q[1..])
  {
    forall i | 0 <= i < |q[1..]| - 1 ensures Apart(q[1..][i], q[1..][i + 1]) {
      assert Apart(q[i + 1], q[i + 2]);
    }
  }

  lemma UnambiguousHead(q: Expected, b: Block)
    requires q != [] && Unambiguous(q)
    requires (b.Unordered? && q[0].Unordered?) || (b.Repeat? && q[0].Repeat? && b.members == q[0].members)
    ensures Unambiguous([b] + q[1..])
  {
    var r := [b] + q[1..];
    forall i | 0 <= i < |r| - 1 ensures Apart(r[i], r[i + 1]) {
      assert Apart(q[i], q[i + 1]);
    }
  }

  /** A block in the course of a run: some calls are still to come, or may come. */
  ghost predicate Active(b: Block) {
    Members(b) != [] && (b.Repeat? ==> forall i | i in b.left :: i < |b.members|)
  }

  /** From any state of a run: the first block may be partly used, the others are as recorded. */
  lemma {:induction false} MatchingAccepted(q: Expected, w: seq<Call>)
    requires Unambiguous(q) && Matches(q, w) && (q != [] ==> Active(q[0]) && Recorded(q[1..]))
    ensures Accepts(q, w)
    decreases |w|, |q|
  {
    if q == [] {
    } else {
      match q[0]
      case Single(c) =>
        UnambiguousTail(q);
        assert q[1..] != [] ==> Fresh(q[1..][0]);
        MatchingAccepted(q[1..], w[1..]);
      case Unordered(g, calls) => MatchingUnordered(q, w, g, calls);
      case Repeat(g, members, left) => MatchingRepeat(q, w, g, members, left);
    }
  }

  lemma {:induction false} MatchingUnordered(q: Expected, w: seq<Call>, g: string, calls: seq<Call>)
    requires q != [] && q[0] == Unordered(g, calls) && calls != []
    requires Unambiguous(q) && Matches(q, w) && Recorded(q[1..])
    ensures Accepts(q, w)
    decreases |w|, |q|, 0
  {
    var q' := UnorderedStep(q, w, g, calls);
    MatchingAccepted(q', w[1..]);
  }

  lemma CancelOne(a: multiset<Call>, b: multiset<Call>, c: Call)
    requires a + multiset{c} == b + multiset{c}
    ensures a == b
  {
    assert a == (a + multiset{c}) - multiset{c};
    assert b == (b + multiset{c}) - multiset{c};
  }

  lemma UnorderedStep(q: Expected, w: seq<Call>, g: string, calls: seq<Call>) returns (q': Expected)
    requires q != [] && q[0] == Unordered(g, calls) && calls != []
    requires Unambiguous(q) && Matches(q, w) && Recorded(q[1..])
    ensures w != [] && Replay(q, w[0]) == Some(q') && Unambiguous(q') && Matches(q', w[1..])
    ensures q' != [] ==> Active(q'[0]) && Recorded(q'[1..])
  {
    var n := |calls|;
    FirstOfWord(w, n);
    assert w[0] in multiset(calls);
    var rest := RemoveFirst(calls, w[0]);
    if rest == [] {
      q' := q[1..];
      UnambiguousTail(q);
      assert q' != [] ==> Fresh(q'[0]);
    } else {
      q' := [Unordered(g, rest)] + q[1..];
      UnambiguousHead(q, q'[0]);
      assert q'[1..] == q[1..] && |rest| == n - 1;
      CancelOne(multiset(w[1..][..n - 1]), multiset(rest), w[0]);
    }
  }

  lemma {:induction false} MatchingRepeat(q: Expected, w: seq<Call>, g: string, members: seq<Call>, left: set<nat>)
    requires q != [] && q[0] == Repeat(g, members, left) && Active(q[0])
    requires Unambiguous(q) && Matches(q, w) && Recorded(q[1..])
    ensures Accepts(q, w)
    decreases |w|, |q|, 0
  {
    var n :| 0 <= n <= |w| && Covers(members, left, w[..n]) && Matches(q[1..], w[n..]);
    hide Covers, Accepts, Replay, Unambiguous, Recorded, Active;
    if n > 0 {
      var q' := RepeatStep(q, w, g, members, left, n);
      MatchingAccepted(q', w[1..]);
      AcceptsStep(q, q', w);
    } else {
      assert w[0..] == w && w[..0] == [];
      RepeatSatisfied(q[0]);
      if w == [] {
        RepeatLast(q);
      } else {
        RepeatOver(q, w);
        MatchingAccepted(q[1..], w);
        AcceptsAlike(q, q[1..], w);
      }
    }
  }

  lemma AcceptsStep(q: Expected, q': Expected, w: seq<Call>)
    requires w != [] && Replay(q, w[0]) == Some(q') && Accepts(q', w[1..])
    ensures Accepts(q, w)
  {
  }

  lemma AcceptsAlike(q: Expected, p: Expected, w: seq<Call>)
    requires w != [] && Replay(q, w[0]) == Replay(p, w[0]) && Accepts(p, w)
    ensures Accepts(q, w)
  {
  }

  lemma RepeatSatisfied(b: Block)
    requires b.Repeat? && Active(b) && Covers(b.members, b.left, [])
    ensures b.left == {}
  {
  }

  lemma RepeatLast(q: Expected)
    requires q != [] && q[0].Repeat? && q[0].left == {} && Recorded(q[1..]) && Matches(q[1..], [])
    ensures Accepts(q, [])
  {
    if q[1..] != [] { EmptyWord(q[1..]); }
  }

  /** A call that belongs to the group: the rest of the word still matches what is left of it. */
  lemma RepeatStep(q: Expected, w: seq<Call>, g: string, members: seq<Call>, left: set<nat>, n: nat)
    returns (q': Expected)
    requires q != [] && q[0] == Repeat(g, members, left) && Active(q[0])
    requires Unambiguous(q) && Recorded(q[1..])
    requires 0 < n <= |w| && Covers(members, left, w[..n]) && Matches(q[1..], w[n..])
    ensures w != [] && Replay(q, w[0]) == Some(q') && Unambiguous(q') && Matches(q', w[1..])
    ensures q' != [] && Active(q'[0]) && Recorded(q'[1..])
  {
    hide Covers;
    var i := StillCovers(members, left, w, n);
    q' := [Repeat(g, members, left - {i})] + q[1..];
    UnambiguousHead(q, q'[0]);
    assert q'[1..] == q[1..];
  }

  /** A call of the next block passes over a satisfied group. */
  lemma RepeatOver(q: Expected, w: seq<Call>)
    requires q != [] && q[0].Repeat? && q[0].left == {} && w != []
    requires Unambiguous(q) && Recorded(q[1..]) && Matches(q[1..], w)
    ensures Replay(q, w[0]) == Replay(q[1..], w[0]) && Unambiguous(q[1..])
    ensures q[1..] != [] && Active(q[1..][0]) && Recorded(q[1..][1..])
  {
    FirstCall(q[1..], w);
    UnambiguousTail(q);
    assert Apart(q[0], q[1]) && Fresh(q[1..][0]);
  }

  lemma StillCovers(members: seq<Call>, left: set<nat>, w: seq<Call>, n: nat) returns (i: nat)
    requires 0 < n <= |w| && Covers(members, left, w[..n]) && Distinct(members)
    ensures w[0] in members && i == IndexOf(members, w[0])
    ensures Covers(members, left - {i}, w[1..][..n - 1]) && w[1..][n - 1..] == w[n..]
  {
    FirstOfWord(w, n);
    assert w[..n][0] == w[0];
    i := IndexOf(members, w[0]);
    var rest := w[1..][..n - 1];
    forall c | c in rest ensures c in members {
      assert c in w[..n];
    }
    forall j | j in left - {i} && j < |members| ensures members[j] in rest {
      assert members[j] in w[..n] && members[j] != w[0];
    }
  }

  // ---------- how many calls a queue still needs ----------

  function NeedOf(b: Block): nat {
    match b
    case Single(_) => 1
    case Unordered(_, calls) => |calls|
    case Repeat(_, _, left) => |left|
  }

  function Need(q: Expected): nat
  {
    if q == [] then 0 else NeedOf(q[0]) + Need(q[1..])
  }

  /** One call meets at most one need. */
  lemma {:induction false} ReplayNeed(q: Expected, c: Call)
    requires Replay(q, c).Some?
    ensures Need(Replay(q, c).value) >= Need(q) - 1
    decreases |q|
  {
    var q' := Replay(q, c).value;
    match q[0]
    case Single(_) =>
    case Unordered(g, calls) =>
      if q' != q[1..] { assert q'[1..] == q[1..]; }
    case Repeat(g, members, left) =>
      if c in members {
        assert q'[1..] == q[1..];
        assert |left| <= |left - {IndexOf(members, c)}| + 1;
      } else {
        ReplayNeed(q[1..], c);
      }
  }

  lemma {:induction false} AcceptedLength(q: Expected, w: seq<Call>)
    requires Accepts(q, w)
    ensures |w| >= Need(q)
    decreases |w|
  {
    if w != [] {
      ReplayNeed(q, w[0]);
      AcceptedLength(Replay(q, w[0]).value, w[1..]);
    } else if q != [] {
      assert Need(q[1..]) == 0;
    }
  }

  lemma {:induction false} ReplayAllAppend(q: Expected, u: seq<Call>, v: seq<Call>)
    ensures ReplayAll(q, u + v) == if ReplayAll(q, u) == None then None else ReplayAll(ReplayAll(q, u).value, v)
    decreases u
  {
    if u == [] {
      assert u + v == v;
    } else {
      assert (u + v)[1..] == u[1..] + v;
      if Replay(q, u[0]).Some? { ReplayAllAppend(Replay(q, u[0]).value, u[1..], v); }
    }
  }

  // ---------- ambiguous recordings ----------

  /** A block's members in order, each once. */
  function Word(q: Expected): seq<Call>
  {
    if q == [] then [] else Members(q[0]) + Word(q[1..])
  }

  lemma PositionsSize(n: nat)
    ensures |Positions(n)| == n
  {
    if n > 0 { PositionsSize(n - 1); }
  }

  lemma {:induction false} WordMatches(q: Expected)
    requires Recorded(q)
    ensures Matches(q, Word(q)) && |Word(q)| == Need(q)
    decreases q
  {
    if q != [] {
      assert Fresh(q[0]);
      var u, v := Members(q[0]), Word(q[1..]);
      WordMatches(q[1..]);
      ConsMatches(q, u, v);
      PositionsSize(|u|);
    }
  }

  /** A permutation of the first block's members, and then a word of the rest. */
  lemma ConsMatches(q: Expected, u: seq<Call>, v: seq<Call>)
    requires q != [] && Fresh(q[0]) && multiset(u) == multiset(Members(q[0])) && Matches(q[1..], v)
    ensures Matches(q, u + v) && |u| == |Members(q[0])|
  {
    assert |u| == |multiset(u)| == |multiset(Members(q[0]))|;
    assert (u + v)[..|u|] == u && (u + v)[|u|..] == v;
    match q[0]
    case Single(c) => assert u[0] in multiset(u);
    case Unordered(_, _) =>
    case Repeat(_, members, left) =>
      assert forall c | c in u :: c in multiset(u);
      assert forall i | i in left :: members[i] in multiset(members);
      assert Covers(members, left, (u + v)[..|u|]);
  }

  /** An equal pair in a repeat group: the later one is never found, so the group is never satisfied. */
  ghost predicate Stuck(q: Expected, k: nat, i: nat, j: nat) {
    && k < |q| && q[k].Repeat? && i < j < |q[k].members| && j in q[k].left
    && q[k].members[i] == q[k].members[j]
  }

  lemma {:induction false} StuckStays(q: Expected, c: Call, k: nat, i: nat, j: nat) returns (k': nat)
    requires Stuck(q, k, i, j) && Replay(q, c).Some?
    ensures Stuck(Replay(q, c).value, k', i, j)
    decreases |q|
  {
    var q' := Replay(q, c).value;
    if k == 0 {
      k' := 0;
    } else if q' == q[1..] {
      k' := k - 1;
    } else if q[0].Repeat? && c !in q[0].members {
      k' := StuckStays(q[1..], c, k - 1, i, j);
    } else {
      k' := k;
      assert q'[k] == q[k];
    }
  }

  lemma {:induction false} StuckRejects(q: Expected, w: seq<Call>, k: nat, i: nat, j: nat)
    requires Stuck(q, k, i, j)
    ensures !Accepts(q, w)
    decreases w
  {
    if w != [] && Replay(q, w[0]).Some? {
      var k' := StuckStays(q, w[0], k, i, j);
      StuckRejects(Replay(q, w[0]).value, w[1..], k', i, j);
    }
  }

  /** Every member of a satisfiable repeat group in turn satisfies it. */
  lemma {:induction false} RunRepeat(g: string, members: seq<Call>, left: set<nat>, tail: Expected, n: nat)
    requires n <= |members| && Distinct(members) && (forall i | i in left :: n <= i < |members|)
    ensures ReplayAll([Repeat(g, members, left)] + tail, members[n..]) == Some([Repeat(g, members, {})] + tail)
    decreases |members| - n
  {
    var q := [Repeat(g, members, left)] + tail;
    assert q[1..] == tail;
    if n == |members| {
      assert left == {};
    } else {
      var c := members[n];
      assert IndexOf(members, c) == n;
      assert members[n..][0] == c && members[n..][1..] == members[n + 1..];
      RunRepeat(g, members, left - {n}, tail, n + 1);
    }
  }

  lemma {:induction false} RunUnordered(g: string, calls: seq<Call>, tail: Expected)
    requires calls != []
    ensures ReplayAll([Unordered(g, calls)] + tail, calls) == Some(tail)
    decreases calls
  {
    var q := [Unordered(g, calls)] + tail;
    assert q[1..] == tail && RemoveFirst(calls, calls[0]) == calls[1..];
    if |calls| > 1 { RunUnordered(g, calls[1..], tail); }
  }

  /** Running a recorded block's own word: it is used up, or left satisfied. */
  lemma RunBlock(q: Expected)
    requires q != [] && Fresh(q[0]) && (q[0].Repeat? ==> Distinct(q[0].members))
    ensures ReplayAll(q, Members(q[0])) ==
            Some(if q[0].Repeat? then [q[0].(left := {})] + q[1..] else q[1..])
  {
    assert q == [q[0]] + q[1..];
    match q[0]
    case Single(c) => assert ReplayAll(q[1..], [c][1..]) == Some(q[1..]);
    case Unordered(g, calls) => RunUnordered(g, calls, q[1..]);
    case Repeat(g, members, left) =>
      RunRepeat(g, members, left, q[1..], 0);
      assert members[0..] == members;
  }

  /** A word of a recording that starts with any call of its first block. */
  lemma WordFrom(q: Expected, c: Call) returns (v: seq<Call>)
    requires Recorded(q) && q != [] && Fresh(q[0]) && c in Members(q[0])
    ensures Matches(q, v) && |v| == Need(q) && v != [] && v[0] == c
  {
    hide Matches, Recorded;
    var u, rest := [c] + RemoveFirst(Members(q[0]), c), Word(q[1..]);
    RecordedTail(q);
    WordMatches(q[1..]);
    ConsMatches(q, u, rest);
    PositionsSize(|Members(q[0])|);
    v := u + rest;
  }

  lemma RecordedTail(q: Expected)
    requires Recorded(q) && q != []
    ensures Recorded(q[1..])
  {
  }

  /** A repeat group takes a call meant for the block behind it, which then misses one. */
  lemma SharedRejects(q: Expected) returns (w: seq<Call>)
    requires |q| >= 2 && Recorded(q) && q[0].Repeat? && Distinct(q[0].members) && !Apart(q[0], q[1])
    ensures Matches(q, w) && !Accepts(q, w)
  {
    hide Accepts, ReplayAll, Matches, Need;
    assert Fresh(q[0]) && Fresh(q[1]);
    var c :| c in Members(q[0]) && c in Members(q[1]);
    var members, tail := q[0].members, q[1..];
    var v := WordFrom(tail, c);
    ConsMatches(q, members, v);
    TakenByGroup(q[0].(left := {}), tail, v);
    RunBlock(q);
    RejectsAfter(q, members, v, [q[0].(left := {})] + tail);
    w := members + v;
  }

  lemma RejectsAfter(q: Expected, a: seq<Call>, b: seq<Call>, mid: Expected)
    requires ReplayAll(q, a) == Some(mid) && !Accepts(mid, b)
    ensures !Accepts(q, a + b)
  {
    hide Replay;
    ReplayAllAppend(q, a, b);
  }

  /** A satisfied group swallows a call of its own, so a word just long enough for what follows fails. */
  lemma TakenByGroup(b: Block, tail: Expected, v: seq<Call>)
    requires b.Repeat? && b.left == {} && v != [] && v[0] in b.members && |v| == Need(tail)
    ensures !Accepts([b] + tail, v)
  {
    var mid := [b] + tail;
    assert mid[1..] == tail && Need(mid) == Need(tail);
    if Accepts(mid, v) {
      assert {} - {IndexOf(b.members, v[0])} == {};
      assert Replay(mid, v[0]) == Some(mid);
      AcceptedLength(mid, v[1..]);
    }
  }

  /** Prepending a block that is apart from the next keeps a rejected word rejected. */
  lemma PrependRejected(q: Expected, v: seq<Call>)
    requires q != [] && Recorded(q) && (q[0].Repeat? ==> Distinct(q[0].members)) && (|q| > 1 ==> Apart(q[0], q[1]))
    requires Matches(q[1..], v) && !Accepts(q[1..], v)
    ensures Matches(q, Members(q[0]) + v) && !Accepts(q, Members(q[0]) + v)
  {
    assert Fresh(q[0]);
    ConsMatches(q, Members(q[0]), v);
    RunBlock(q);
    ReplayAllAppend(q, Members(q[0]), v);
    if q[0].Repeat? {
      var mid := [q[0].(left := {})] + q[1..];
      assert mid[1..] == q[1..];
      if v == [] {
        if q[1..] != [] { EmptyWord(q[1..]); }
      } else {
        FirstCall(q[1..], v);
        assert Replay(mid, v[0]) == Replay(q[1..], v[0]);
      }
    }
  }

  lemma {:induction false} AmbiguousRejects(q: Expected) returns (w: seq<Call>)
    requires Recorded(q) && !Unambiguous(q)
    ensures Matches(q, w) && !Accepts(q, w)
    decreases |q|
  {
    if k: nat :| k < |q| && q[k].Repeat? && !Distinct(q[k].members) {
      var i, j :| 0 <= i < j < |q[k].members| && q[k].members[i] == q[k].members[j];
      assert Fresh(q[k]);
      w := Word(q);
      WordMatches(q);
      StuckRejects(q, w, k, i, j);
    } else if |q| >= 2 && !Apart(q[0], q[1]) {
      w := SharedRejects(q);
    } else {
      var i :| 0 <= i < |q| - 1 && !Apart(q[i], q[i + 1]);
      assert q[1..][i - 1] == q[i] && q[1..][i] == q[i + 1];
      var v := AmbiguousRejects(q[1..]);
      PrependRejected(q, v);
      w := Members(q[0]) + v;
    }
  }

  /**
    The sequences that replay without error and verify are exactly those recorded, if and only if
    every repeat group has distinct members and shares none with the block after it.
   */
  lemma ReplayLanguage(q: Expected)
    requires Recorded(q)
    ensures Unambiguous(q) <==> forall w :: Accepts(q, w) <==> Matches(q, w)
  {
    if Unambiguous(q) {
      forall w ensures Accepts(q, w) <==> Matches(q, w) {
        if Accepts(q, w) { AcceptedMatches(q, w); }
        if Matches(q, w) {
          assert q != [] ==> Fresh(q[0]);
          MatchingAccepted(q, w);
        }
      }
    } else {
      var w := AmbiguousRejects(q);
    }
  }

  // ---------- recording ----------

  /** A recorded call: ordered, or moved into a group by `InAnyOrder` or `MultipleTimes`. */
  datatype Record = Ordered(call: Call) | AnyOrder(call: Call, group: string) | Times(call: Call, group: string)

  /** A call joins the last block when that is a group of its kind and name. */
  function Add(q: Expected, r: Record): Expected {
    var last := |q| - 1;
    match r
    case Ordered(c) => q + [Single(c)]
    case AnyOrder(c, g) =>
      if last >= 0 && q[last].Unordered? && q[last].group == g
      then q[..last] + [Unordered(g, q[last].calls + [c])]
      else q + [Unordered(g, [c])]
    case Times(c, g) =>
      if last >= 0 && q[last].Repeat? && q[last].group == g
      then q[..last] + [Repeat(g, q[last].members + [c], q[last].left + {|q[last].members|})]
      else q + [Repeat(g, [c], {0})]
  }

  function AddAll(rs: seq<Record>): Expected
  {
    if rs == [] then [] else Add(AddAll(rs[..|rs| - 1]), rs[|rs| - 1])
  }

  /** Two blocks are one group: of the same kind and name. */
  predicate SameGroup(a: Block, b: Block) {
    (a.Unordered? && b.Unordered? && a.group == b.group) || (a.Repeat? && b.Repeat? && a.group == b.group)
  }

  /** Neighbours are not of one group. */
  ghost predicate Alternating(q: Expected) { forall i :: 0 <= i < |q| - 1 ==> !SameGroup(q[i], q[i + 1]) }

  /** What a block was recorded by: kind and name of group, call by call. */
  function RecordsOf(b: Block): seq<Record> {
    match b
    case Single(c) => [Ordered(c)]
    case Unordered(g, calls) => seq(|calls|, i requires 0 <= i < |calls| => AnyOrder(calls[i], g))
    case Repeat(g, members, _) => seq(|members|, i requires 0 <= i < |members| => Times(members[i], g))
  }

  function Records(q: Expected): seq<Record> { if q == [] then [] else RecordsOf(q[0]) + Records(q[1..]) }

  lemma {:induction false} RecordsAppend(a: Expected, b: Expected)
    ensures Records(a + b) == Records(a) + Records(b)
  {
    hide RecordsOf;
    if a == [] {
      assert a + b == b;
    } else {
      assert (a + b)[1..] == a[1..] + b;
      RecordsAppend(a[1..], b);
    }
  }

  lemma RecordsOne(b: Block)
    ensures Records([b]) == RecordsOf(b)
  {
    assert [b][1..] == [] && Records([]) == [];
  }

  lemma {:induction false} WordAppend(a: Expected, b: Expected)
    ensures Word(a + b) == Word(a) + Word(b)
  {
    if a == [] {
      assert a + b == b;
    } else {
      assert (a + b)[1..] == a[1..] + b;
      WordAppend(a[1..], b);
    }
  }

  function Calls(rs: seq<Record>): seq<Call> { seq(|rs|, i requires 0 <= i < |rs| => rs[i].call) }

  /**
    Recording gives a queue of fresh blocks that holds every call in the order recorded, each under the
    kind and the group name it was recorded with, in groups that run as long as these stay the same.
   */
  lemma {:induction false} RecordingGroups(rs: seq<Record>)
    ensures Recorded(AddAll(rs)) && Word(AddAll(rs)) == Calls(rs)
    ensures Records(AddAll(rs)) == rs && Alternating(AddAll(rs))
  {
    hide Recorded, Alternating, Word, Records, Add;
    if rs != [] {
      var init, r := rs[..|rs| - 1], rs[|rs| - 1];
      RecordingGroups(init);
      AddOne(AddAll(init), r);
    } else {
      RecordingNothing();
    }
  }

  lemma RecordingNothing()
    ensures Recorded([]) && Alternating([]) && Word([]) == [] && Records([]) == []
  {
  }

  /** No other queue of fresh, maximal groups comes from the same recording. */
  lemma RecordingUnique(rs: seq<Record>, q: Expected)
    ensures q == AddAll(rs) <==> Recorded(q) && Alternating(q) && Records(q) == rs
  {
    hide AddAll, Recorded, Alternating, Records;
    RecordingGroups(rs);
    if Recorded(q) && Alternating(q) && Records(q) == rs { AddsBack(q); }
  }

  /** Recording again what a queue of fresh, maximal groups was recorded by gives the queue. */
  lemma {:induction false} AddsBack(q: Expected)
    requires Recorded(q) && Alternating(q)
    ensures AddAll(Records(q)) == q
    decreases |Records(q)|
  {
    hide Recorded, Alternating, Records, AddAll, Add;
    if q == [] {
      RecordsNone();
    } else {
      var p, r := Unrecorded(q);
      AddsBack(p);
      AddAllLast(Records(p), r);
    }
  }

  lemma RecordsNone()
    ensures Records([]) == [] && AddAll([]) == []
  {
  }

  lemma AddAllLast(rs: seq<Record>, r: Record)
    ensures AddAll(rs + [r]) == Add(AddAll(rs), r)
  {
    assert (rs + [r])[..|rs|] == rs && (rs + [r])[|rs|] == r;
  }

  /** The queue before its last call was recorded. */
  lemma Unrecorded(q: Expected) returns (p: Expected, r: Record)
    requires q != [] && Recorded(q) && Alternating(q)
    ensures Recorded(p) && Alternating(p) && Records(q) == Records(p) + [r] && Add(p, r) == q
  {
    hide Records;
    var n := |q| - 1;
    var init, b := q[..n], q[n];
    assert q == init + [b] && Fresh(b);
    WithoutLast(q, b);
    RecordsAppend(init, [b]);
    RecordsOne(b);
    var k := |Members(b)| - 1;
    r := RecordsOf(b)[k];
    if k == 0 {
      p := init;
      AddsBlock(init, b);
    } else {
      var d := Shortened(b);
      WithLast(init, d);
      p := init + [d];
      RecordsAppend(init, [d]);
      RecordsOne(d);
      assert p[..n] == init && p[n] == d;
    }
  }

  lemma AddsBlock(q: Expected, b: Block)
    requires Fresh(b) && |Members(b)| == 1 && (q != [] ==> !SameGroup(q[|q| - 1], b))
    ensures |RecordsOf(b)| == 1 && Add(q, RecordsOf(b)[0]) == q + [b] && RecordsOf(b) == [RecordsOf(b)[0]]
  {
    PositionsNext(0);
    match b
    case Single(_) =>
    case Unordered(_, calls) => assert calls == [calls[0]];
    case Repeat(_, members, _) => assert members == [members[0]];
  }

  /** A group of several calls without its last. */
  lemma Shortened(b: Block) returns (d: Block)
    requires Fresh(b) && |Members(b)| > 1
    ensures Fresh(d) && SameGroup(d, b) && forall a :: SameGroup(a, d) <==> SameGroup(a, b)
    ensures var k := |Members(b)| - 1; RecordsOf(b) == RecordsOf(d) + [RecordsOf(b)[k]]
    ensures forall q :: Add(q + [d], RecordsOf(b)[|Members(b)| - 1]) == q + [b]
  {
    var k := |Members(b)| - 1;
    match b
    case Unordered(g, calls) =>
      d := Unordered(g, calls[..k]);
      assert calls == calls[..k] + [calls[k]];
      forall q: Expected ensures Add(q + [d], RecordsOf(b)[k]) == q + [b] { assert (q + [d])[..|q|] == q; }
    case Repeat(g, members, left) =>
      d := Repeat(g, members[..k], Positions(k));
      PositionsNext(k);
      assert members == members[..k] + [members[k]];
      forall q: Expected ensures Add(q + [d], RecordsOf(b)[k]) == q + [b] { assert (q + [d])[..|q|] == q; }
  }

  lemma WordOne(b: Block)
    ensures Word([b]) == Members(b)
  {
    assert [b][1..] == [] && Word([]) == [];
  }

  /** Appending or exchanging the last block. */
  lemma WithLast(q: Expected, b: Block)
    requires Recorded(q) && Fresh(b) && (q != [] ==> !SameGroup(q[|q| - 1], b))
    requires Alternating(q)
    ensures Recorded(q + [b]) && Word(q + [b]) == Word(q) + Members(b)
    ensures Alternating(q + [b])
  {
    hide Word;
    WordAppend(q, [b]);
    WordOne(b);
  }

  lemma PositionsNext(n: nat)
    ensures Positions(n + 1) == Positions(n) + {n} && Positions(1) == {0}
  {
    assert Positions(0) == {};
  }

  lemma ConcatOne<T>(a: seq<T>, b: seq<T>, c: T)
    ensures a + (b + [c]) == (a + b) + [c]
  {
  }

  lemma WithoutLast(q: Expected, b: Block)
    requires Recorded(q) && Alternating(q) && q != []
    requires b == q[|q| - 1] || SameGroup(q[|q| - 1], b)
    ensures var init := q[..|q| - 1];
      Recorded(init) && Alternating(init) && (init != [] ==> !SameGroup(init[|init| - 1], b))
  {
    var n := |q| - 1;
    assert forall d | d in q[..n] :: d in q;
    assert n > 0 ==> !SameGroup(q[n - 1], q[n]);
  }

  /** The last block takes one more call. */
  lemma WithJoined(q: Expected, b: Block, c: Call)
    requires Recorded(q) && q != [] && Fresh(b) && SameGroup(q[|q| - 1], b)
    requires Members(b) == Members(q[|q| - 1]) + [c]
    requires Alternating(q)
    ensures Recorded(q[..|q| - 1] + [b]) && Word(q[..|q| - 1] + [b]) == Word(q) + [c]
    ensures Alternating(q[..|q| - 1] + [b])
  {
    hide Recorded, Alternating, SameGroup, Fresh, Word, Members;
    var init, last := q[..|q| - 1], q[|q| - 1];
    WithoutLast(q, b);
    WithLast(init, b);
    WordAppend(init, [last]);
    WordOne(last);
    ConcatOne(Word(init), Members(last), c);
    assert q == init + [last];
  }

  /** A call is recorded under its own kind and group name, whatever stands before it. */
  lemma AddRecords(q: Expected, r: Record)
    ensures Records(Add(q, r)) == Records(q) + [r]
  {
    hide Records;
    var n := |q| - 1;
    match r
    case Ordered(c) => BlockAppended(q, Single(c), r);
    case AnyOrder(c, g) =>
      if n >= 0 && q[n].Unordered? && q[n].group == g {
        BlockReplaced(q, Unordered(g, q[n].calls + [c]), r);
      } else {
        BlockAppended(q, Unordered(g, [c]), r);
      }
    case Times(c, g) =>
      if n >= 0 && q[n].Repeat? && q[n].group == g {
        BlockReplaced(q, Repeat(g, q[n].members + [c], q[n].left + {|q[n].members|}), r);
      } else {
        BlockAppended(q, Repeat(g, [c], {0}), r);
      }
  }

  lemma BlockAppended(q: Expected, b: Block, r: Record)
    requires RecordsOf(b) == [r]
    ensures Records(q + [b]) == Records(q) + [r]
  {
    hide Records, RecordsOf;
    RecordsAppend(q, [b]);
    RecordsOne(b);
  }

  lemma BlockReplaced(q: Expected, b: Block, r: Record)
    requires q != [] && RecordsOf(b) == RecordsOf(q[|q| - 1]) + [r]
    ensures Records(q[..|q| - 1] + [b]) == Records(q) + [r]
  {
    hide Records, RecordsOf;
    var init, last := q[..|q| - 1], q[|q| - 1];
    assert q == init + [last];
    RecordsAppend(init, [last]);
    RecordsAppend(init, [b]);
    RecordsOne(last);
    RecordsOne(b);
    ConcatOne(Records(init), RecordsOf(last), r);
  }

  lemma AddOne(q: Expected, r: Record)
    requires Recorded(q) && Alternating(q)
    ensures Recorded(Add(q, r)) && Word(Add(q, r)) == Word(q) + [r.call]
    ensures Alternating(Add(q, r)) && Records(Add(q, r)) == Records(q) + [r]
  {
    hide Alternating, Word, Records;
    AddRecords(q, r);
    var n := |q| - 1;
    PositionsNext(0);
    match r
    case Ordered(c) => WithLast(q, Single(c));
    case AnyOrder(c, g) =>
      if n >= 0 && q[n].Unordered? && q[n].group == g {
        WithJoined(q, Unordered(g, q[n].calls + [c]), c);
      } else {
        WithLast(q, Unordered(g, [c]));
      }
    case Times(c, g) =>
      if n >= 0 && q[n].Repeat? && q[n].group == g {
        assert Fresh(q[n]);
        PositionsNext(|q[n].members|);
        WithJoined(q, Repeat(g, q[n].members + [c], q[n].left + {|q[n].members|}), c);
      } else {
        WithLast(q, Repeat(g, [c], {0}));
      }
  }

  // ---------- what each way of recording asks of a replay ----------

  /** A queue of single calls. */
  function Singles(w: seq<Call>): Expected { seq(|w|, i requires 0 <= i < |w| => Single(w[i])) }

  lemma {:induction false} SinglesRecord(w: seq<Call>)
    ensures Records(Singles(w)) == seq(|w|, i requires 0 <= i < |w| => Ordered(w[i]))
    ensures forall v :: Matches(Singles(w), v) <==> v == w
  {
    if w != [] {
      var q := Singles(w);
      assert q[1..] == Singles(w[1..]);
      SinglesRecord(w[1..]);
      forall v ensures Matches(q, v) <==> v == w {
        assert v != [] ==> v == [v[0]] + v[1..];
        assert w == [w[0]] + w[1..];
      }
    }
  }

  /** Calls recorded without a group must come as they were recorded. */
  lemma OrderedReplay(rs: seq<Record>, w: seq<Call>)
    requires forall r | r in rs :: r.Ordered?
    ensures Accepts(AddAll(rs), w) <==> w == Calls(rs)
  {
    var q := Singles(Calls(rs));
    SinglesRecord(Calls(rs));
    assert Records(q) == rs by { forall i | 0 <= i < |rs| ensures Records(q)[i] == rs[i] { assert rs[i] in rs; } }
    RecordingUnique(rs, q);
    ReplayLanguage(q);
  }

  /** Calls of one unordered group may come in any order, each as often as it was recorded. */
  lemma AnyOrderReplay(rs: seq<Record>, group: string, w: seq<Call>)
    requires rs != [] && forall r | r in rs :: r.AnyOrder? && r.group == group
    ensures Accepts(AddAll(rs), w) <==> multiset(w) == multiset(Calls(rs))
  {
    var b := Unordered(group, Calls(rs));
    assert RecordsOf(b) == rs by {
      forall i | 0 <= i < |rs| ensures RecordsOf(b)[i] == rs[i] { assert rs[i] in rs; }
    }
    OneBlock(b, rs, w);
    assert Matches([b], w) <==> multiset(w) == multiset(Calls(rs)) by {
      var n := |Calls(rs)|;
      assert multiset(w) == multiset(Calls(rs)) ==> |multiset(w)| == |multiset(Calls(rs))|;
      assert |w| == n ==> w[..n] == w && w[n..] == [];
      assert [b][1..] == [];
    }
  }

  /** Different calls of one repeat group may come in any order, each at least once. */
  lemma TimesReplay(rs: seq<Record>, group: string, w: seq<Call>)
    requires rs != [] && forall r | r in rs :: r.Times? && r.group == group
    requires Distinct(Calls(rs))
    ensures Accepts(AddAll(rs), w) <==> forall c :: c in w <==> c in Calls(rs)
  {
    var b := Repeat(group, Calls(rs), Positions(|rs|));
    assert RecordsOf(b) == rs by {
      forall i | 0 <= i < |rs| ensures RecordsOf(b)[i] == rs[i] { assert rs[i] in rs; }
    }
    OneBlock(b, rs, w);
    OneRepeat(b, w);
    hide Matches;
    if forall c :: c in w <==> c in Calls(rs) { assert Covers(b.members, b.left, w); }
  }

  lemma OneRepeat(b: Block, w: seq<Call>)
    requires b.Repeat?
    ensures Matches([b], w) <==> Covers(b.members, b.left, w)
  {
    hide Covers;
    assert [b][1..] == [] && w[..|w|] == w && w[|w|..] == [];
    assert Matches([b][1..], w[|w|..]);
    if Matches([b], w) {
      var n :| 0 <= n <= |w| && Covers(b.members, b.left, w[..n]) && Matches([b][1..], w[n..]);
      assert w[..n] == w;
    }
  }

  lemma OneBlock(b: Block, rs: seq<Record>, w: seq<Call>)
    requires Fresh(b) && RecordsOf(b) == rs && (b.Repeat? ==> Distinct(b.members))
    ensures Accepts(AddAll(rs), w) <==> Matches([b], w)
  {
    RecordsOne(b);
    RecordingUnique(rs, [b]);
    ReplayLanguage([b]);
  }
}
