/** Launches, node snapshots and the reports between them, as steps of the whole system. */
module Cloud {
  type Id = string
  type Name = string

  datatype Info = Info(owner: string, state: nat)

  type Instances = map<Id, Info>

  const PENDING := "pending"

  // ---------- the controller's table ----------

  /** The end of `run_instances`: the new instances join the pending ones. */
  function Launched(table: map<Name, Instances>, added: Instances): map<Name, Instances> {
    table[PENDING := (if PENDING in table then table[PENDING] else map[]) + added]
  }

  /** `update_state`: what a node reports is no longer pending, and replaces what it reported before. */
  function Updated(table: map<Name, Instances>, node: Name, items: Instances): map<Name, Instances> {
    var table1 := if PENDING in table then table[PENDING := table[PENDING] - items.Keys] else table;
    table1[node := items]
  }

  function At(table: map<Name, Instances>, place: Name): Instances { if place in table then table[place] else map[] }

  ghost predicate FoundAt(table: map<Name, Instances>, id: Id, place: Name) { place in table && id in table[place] }

  ghost predicate Found(table: map<Name, Instances>, id: Id) { exists place :: FoundAt(table, id, place) }

  // ---------- the system ----------

  datatype Report = Report(node: Name, items: Instances)

  /**
    The nodes' own tables, messages under way, and the controller's table. The last five fields only
    record what has happened: ids sent to be run, ids of completed launches, ids with a termination under
    way or done, ids in some consumed report, and the node that ran each id.
   */
  datatype World = World(
    nodes: map<Name, Instances>, inbox: set<Id>, kills: set<(Name, Id)>, queue: seq<Report>,
    table: map<Name, Instances>,
    sent: set<Id>, completed: set<Id>, terminated: set<Id>, seen: set<Id>, home: map<Id, Name>)

  datatype Op =
    | Launch(added: Instances, finished: bool)
    | RunOn(node: Name, id: Id, info: Info)
    | Change(node: Name, id: Id, info: Info)
    | ReportState(node: Name)
    | Consume
    | Terminate(node: Name, id: Id)
    | Destroyed(node: Name, id: Id)

  function Step(w: World, op: Op): World {
    match op
    case Launch(added, finished) =>
      var sent := w.(inbox := w.inbox + added.Keys, sent := w.sent + added.Keys);
      if finished then sent.(completed := w.completed + added.Keys, table := Launched(w.table, added)) else sent
    case RunOn(n, id, info) =>
      if id !in w.inbox || n !in w.nodes then w
      else if id in w.nodes[n] then w.(inbox := w.inbox - {id})
      else w.(inbox := w.inbox - {id}, nodes := w.nodes[n := w.nodes[n][id := info]], home := w.home[id := n])
    case Change(n, id, info) =>
      if n in w.nodes && id in w.nodes[n] then w.(nodes := w.nodes[n := w.nodes[n][id := info]]) else w
    case ReportState(n) =>
      if n in w.nodes then w.(queue := w.queue + [Report(n, w.nodes[n])]) else w
    case Consume =>
      if w.queue == [] then w
      else
        var r := w.queue[0];
        w.(queue := w.queue[1..], table := Updated(w.table, r.node, r.items), seen := w.seen + r.items.Keys)
    case Terminate(n, id) =>
      if n != PENDING && n in w.table && id in w.table[n]
      then w.(terminated := w.terminated + {id}, kills := w.kills + {(n, id)}) else w
    case Destroyed(n, id) =>
      if (n, id) in w.kills && n in w.nodes
      then w.(nodes := w.nodes[n := w.nodes[n] - {id}], kills := w.kills - {(n, id)}) else w
  }

  /** Instance ids are never used twice. */
  ghost predicate Legal(w: World, op: Op) { op.Launch? ==> op.added.Keys !! w.sent }

  function Start(names: set<Name>): World {
    World(map n | n in names :: map[], {}, {}, [], map[], {}, {}, {}, {}, map[])
  }

  // ---------- what every step keeps ----------

  /** The node that ran an id. */
  function HomeOf(w: World, id: Id): Name { if id in w.home then w.home[id] else PENDING }

  /** Everything is where it ran: an id is on its node, in that node's reports and at its place only. */
  ghost predicate AtHome(w: World) {
    && (forall n, id | id in At(w.nodes, n) :: id in w.home && HomeOf(w, id) == n)
    && (forall i, id | 0 <= i < |w.queue| && id in w.queue[i].items :: id in w.home && HomeOf(w, id) == w.queue[i].node)
    && (forall n, id | n != PENDING && id in At(w.table, n) :: id in w.seen && HomeOf(w, id) == n)
    && w.seen <= w.home.Keys
  }

  ghost predicate Known(w: World) {
    && w.home.Keys <= w.sent && w.completed <= w.sent && w.inbox <= w.sent && w.inbox !! w.home.Keys
    && PENDING !in w.nodes
    && (forall id | id in w.home :: HomeOf(w, id) in w.nodes)
    && (forall i | 0 <= i < |w.queue| :: w.queue[i].node in w.nodes)
    && (forall p | p in w.kills :: p.1 in w.terminated)
    && w.terminated <= w.sent
  }

  /** An instance nobody terminates stays on its node, and once reported it is in every later report and table entry. */
  ghost predicate Grows(w: World) {
    && (forall id | id in w.home && id !in w.terminated :: id in At(w.nodes, HomeOf(w, id)))
    && (forall i, j, id | 0 <= i < j < |w.queue| && w.queue[i].node == w.queue[j].node && id !in w.terminated ::
          id in w.queue[i].items ==> id in w.queue[j].items)
    && (forall j, id | 0 <= j < |w.queue| && id !in w.terminated ::
          id in At(w.table, w.queue[j].node) ==> id in w.queue[j].items)
    && (forall id | id in w.seen && id !in w.terminated :: id in At(w.table, HomeOf(w, id)))
  }

  ghost predicate PendingExact(w: World) {
    forall id :: id in At(w.table, PENDING) <==> id in w.completed && id !in w.seen
  }

  ghost predicate Inv(w: World) {
    AtHome(w) && Known(w) && Grows(w) && PendingExact(w)
  }

  lemma StartKeeps(names: set<Name>)
    requires PENDING !in names
    ensures Inv(Start(names))
  {
  }

  /** Steps that leave ids where they are, except among the pending ones. */
  ghost predicate Unmoved(w: World, w': World) {
    && (forall n :: At(w'.nodes, n).Keys == At(w.nodes, n).Keys)
    && (forall n :: n != PENDING ==> At(w'.table, n).Keys == At(w.table, n).Keys)
    && w'.queue == w.queue && w'.home == w.home && w'.seen == w.seen && w.terminated <= w'.terminated
  }

  lemma UnmovedHome(w: World, w': World)
    requires Unmoved(w, w') && AtHome(w)
    ensures AtHome(w')
  {
    hide At;
    assert forall n, id :: id in At(w'.nodes, n) ==> id in At(w.nodes, n).Keys;
    assert forall n, id :: n != PENDING && id in At(w'.table, n) ==> id in At(w.table, n).Keys;
    assert forall id :: HomeOf(w', id) == HomeOf(w, id);
  }

  lemma UnmovedGrows(w: World, w': World)
    requires Unmoved(w, w') && AtHome(w) && Grows(w) && Known(w)
    ensures Grows(w')
  {
    hide At;
    assert forall id :: HomeOf(w', id) == HomeOf(w, id);
    assert forall id | id in w.home :: HomeOf(w, id) != PENDING;
    assert forall n, id :: n != PENDING && id in At(w'.table, n) ==> id in At(w.table, n).Keys;
    assert forall n, id :: n != PENDING && id in At(w.table, n).Keys ==> id in At(w'.table, n);
    assert forall n, id :: id in At(w.nodes, n).Keys ==> id in At(w'.nodes, n);
  }

  lemma UnmovedKeeps(w: World, w': World)
    requires Unmoved(w, w') && AtHome(w) && Grows(w) && Known(w)
    ensures AtHome(w') && Grows(w')
  {
    hide Unmoved, AtHome, Grows, Known;
    UnmovedHome(w, w');
    UnmovedGrows(w, w');
  }

  lemma LaunchKeeps(w: World, added: Instances, finished: bool)
    requires Inv(w) && Legal(w, Launch(added, finished))
    ensures Inv(Step(w, Launch(added, finished)))
  {
    var w' := Step(w, Launch(added, finished));
    UnmovedKeeps(w, w');
    assert Known(w') by { hide Grows, PendingExact; }
    assert PendingExact(w') by { hide Grows; }
  }

  lemma RunOnKeeps(w: World, n: Name, id: Id, info: Info)
    requires Inv(w)
    ensures Inv(Step(w, RunOn(n, id, info)))
  {
    var w' := Step(w, RunOn(n, id, info));
    if id in w.inbox && n in w.nodes {
      assert id !in At(w.nodes, n);
      assert forall m :: At(w'.nodes, m).Keys == At(w.nodes, m).Keys + if m == n then {id} else {};
      Arrived(w, w', n, id);
    }
  }

  ghost predicate ArrivedAt(w: World, w': World, n: Name, id: Id) {
    && id in w.inbox && n in w.nodes && id !in w.home
    && w' == w.(inbox := w.inbox - {id}, nodes := w'.nodes, home := w.home[id := n]) && w'.nodes.Keys == w.nodes.Keys
    && (forall m :: At(w'.nodes, m).Keys == At(w.nodes, m).Keys + if m == n then {id} else {})
  }

  lemma ArrivedHome(w: World, w': World, n: Name, id: Id)
    requires AtHome(w) && ArrivedAt(w, w', n, id)
    ensures AtHome(w')
  {
    hide At;
    assert forall m, i :: i in At(w'.nodes, m) <==> i in At(w'.nodes, m).Keys;
    assert forall m, i :: i in At(w.nodes, m) <==> i in At(w.nodes, m).Keys;
    assert forall i | i != id :: HomeOf(w', i) == HomeOf(w, i);
  }

  lemma ArrivedGrows(w: World, w': World, n: Name, id: Id)
    requires AtHome(w) && Grows(w) && ArrivedAt(w, w', n, id)
    ensures Grows(w')
  {
    hide At;
    assert forall m, i :: i in At(w'.nodes, m) <==> i in At(w'.nodes, m).Keys;
    assert forall m, i :: i in At(w.nodes, m) <==> i in At(w.nodes, m).Keys;
    assert forall i | i != id :: HomeOf(w', i) == HomeOf(w, i);
  }

  lemma Arrived(w: World, w': World, n: Name, id: Id)
    requires Inv(w) && ArrivedAt(w, w', n, id)
    ensures Inv(w')
  {
    hide At, Grows, AtHome;
    ArrivedHome(w, w', n, id);
    ArrivedGrows(w, w', n, id);
  }

  lemma ChangeKeeps(w: World, n: Name, id: Id, info: Info)
    requires Inv(w)
    ensures Inv(Step(w, Change(n, id, info)))
  {
    UnmovedKeeps(w, Step(w, Change(n, id, info)));
  }

  lemma ReportKeeps(w: World, n: Name)
    requires Inv(w)
    ensures Inv(Step(w, ReportState(n)))
  {
    var w' := Step(w, ReportState(n));
    if n in w.nodes {
      assert w.nodes[n] == At(w.nodes, n);
      Reported(w, w', n);
    }
  }

  lemma Reported(w: World, w': World, n: Name)
    requires Inv(w) && n in w.nodes && w' == w.(queue := w.queue + [Report(n, At(w.nodes, n))])
    ensures Inv(w')
  {
    hide At;
    var k := |w.queue|;
    assert w'.queue[k] == Report(n, At(w.nodes, n)) && forall i | 0 <= i < k :: w'.queue[i] == w.queue[i];
    assert forall id :: HomeOf(w', id) == HomeOf(w, id);
    assert AtHome(w') && Known(w') by { hide Grows, PendingExact; }
    assert Grows(w') by { hide PendingExact; }
  }

  lemma ConsumeKeeps(w: World)
    requires Inv(w)
    ensures Inv(Step(w, Consume))
  {
    var w' := Step(w, Consume);
    if w.queue != [] {
      var r := w.queue[0];
      assert forall n | n != PENDING :: At(w'.table, n) == if n == r.node then r.items else At(w.table, n);
      assert At(w'.table, PENDING).Keys == At(w.table, PENDING).Keys - r.items.Keys;
      Consumed(w, w', r);
    }
  }

  ghost predicate TakenIn(w: World, w': World, r: Report) {
    && w.queue != [] && r == w.queue[0] && r.node != PENDING
    && w' == w.(queue := w.queue[1..], table := w'.table, seen := w.seen + r.items.Keys)
    && (forall n | n != PENDING :: At(w'.table, n) == if n == r.node then r.items else At(w.table, n))
    && At(w'.table, PENDING).Keys == At(w.table, PENDING).Keys - r.items.Keys
  }

  lemma TakenInGrows(w: World, w': World, r: Report)
    requires AtHome(w) && Known(w) && Grows(w) && TakenIn(w, w', r)
    ensures Grows(w')
  {
    hide At;
    assert forall i | 0 <= i < |w'.queue| :: w'.queue[i] == w.queue[i + 1];
    assert forall id :: HomeOf(w', id) == HomeOf(w, id);
  }

  lemma TakenInHome(w: World, w': World, r: Report)
    requires AtHome(w) && Known(w) && TakenIn(w, w', r)
    ensures AtHome(w') && Known(w')
  {
    hide At;
    assert forall i | 0 <= i < |w'.queue| :: w'.queue[i] == w.queue[i + 1];
    assert forall id :: HomeOf(w', id) == HomeOf(w, id);
  }

  lemma Consumed(w: World, w': World, r: Report)
    requires Inv(w) && TakenIn(w, w', r)
    ensures Inv(w')
  {
    hide At, Grows, AtHome, Known;
    TakenInGrows(w, w', r);
    TakenInHome(w, w', r);
    assert forall id :: id in At(w'.table, PENDING) <==> id in At(w'.table, PENDING).Keys;
  }

  lemma TerminateKeeps(w: World, n: Name, id: Id)
    requires Inv(w)
    ensures Inv(Step(w, Terminate(n, id)))
  {
    UnmovedKeeps(w, Step(w, Terminate(n, id)));
    assert n != PENDING && id in At(w.table, n) ==> id in w.sent;
  }

  lemma DestroyedKeeps(w: World, n: Name, id: Id)
    requires Inv(w)
    ensures Inv(Step(w, Destroyed(n, id)))
  {
    var w' := Step(w, Destroyed(n, id));
    if (n, id) in w.kills && n in w.nodes {
      assert forall m :: At(w'.nodes, m).Keys == At(w.nodes, m).Keys - if m == n then {id} else {};
      Removed(w, w', n, id);
    }
  }

  ghost predicate GoneFrom(w: World, w': World, n: Name, id: Id) {
    && id in w.terminated && w' == w.(nodes := w'.nodes, kills := w'.kills)
    && w'.nodes.Keys == w.nodes.Keys && w'.kills <= w.kills
    && (forall m :: At(w'.nodes, m).Keys == At(w.nodes, m).Keys - if m == n then {id} else {})
  }

  lemma GoneHome(w: World, w': World, n: Name, id: Id)
    requires AtHome(w) && GoneFrom(w, w', n, id)
    ensures AtHome(w')
  {
    hide At;
    assert forall m, i :: i in At(w'.nodes, m) ==> i in At(w.nodes, m).Keys;
    assert forall i :: HomeOf(w', i) == HomeOf(w, i);
  }

  lemma GoneGrows(w: World, w': World, n: Name, id: Id)
    requires Grows(w) && GoneFrom(w, w', n, id)
    ensures Grows(w')
  {
    hide At;
    assert forall m, i | i in At(w.nodes, m).Keys && i != id :: i in At(w'.nodes, m).Keys && i in At(w'.nodes, m);
    assert forall i :: HomeOf(w', i) == HomeOf(w, i);
  }

  lemma Removed(w: World, w': World, n: Name, id: Id)
    requires Inv(w) && GoneFrom(w, w', n, id)
    ensures Inv(w')
  {
    hide At, Grows, AtHome;
    GoneHome(w, w', n, id);
    GoneGrows(w, w', n, id);
  }

  lemma StepKeeps(w: World, op: Op)
    requires Inv(w) && Legal(w, op)
    ensures Inv(Step(w, op))
  {
    hide Step;
    match op
    case Launch(added, finished) => LaunchKeeps(w, added, finished);
    case RunOn(n, id, info) => RunOnKeeps(w, n, id, info);
    case Change(n, id, info) => ChangeKeeps(w, n, id, info);
    case ReportState(n) => ReportKeeps(w, n);
    case Consume => ConsumeKeeps(w);
    case Terminate(n, id) => TerminateKeeps(w, n, id);
    case Destroyed(n, id) => DestroyedKeeps(w, n, id);
  }

  // ---------- whole runs ----------

  function Exec(w: World, ops: seq<Op>): World
    decreases ops
  {
    if ops == [] then w else Step(Exec(w, ops[..|ops| - 1]), ops[|ops| - 1])
  }

  /** Instance ids are new at every launch of the run. */
  ghost predicate LegalRun(w: World, ops: seq<Op>) {
    forall k :: 0 <= k < |ops| ==> Legal(Exec(w, ops[..k]), ops[k])
  }

  lemma LegalInit(w: World, ops: seq<Op>)
    requires LegalRun(w, ops) && ops != []
    ensures LegalRun(w, ops[..|ops| - 1]) && Legal(Exec(w, ops[..|ops| - 1]), ops[|ops| - 1])
  {
    var init := ops[..|ops| - 1];
    forall k | 0 <= k < |init| ensures Legal(Exec(w, init[..k]), init[k]) {
      assert init[..k] == ops[..k];
    }
  }

  lemma {:induction false} RunKeeps(names: set<Name>, ops: seq<Op>)
    requires PENDING !in names && LegalRun(Start(names), ops)
    ensures Inv(Exec(Start(names), ops))
    decreases ops
  {
    hide Step, Inv, Legal;
    if ops == [] {
      StartKeeps(names);
    } else {
      LegalInit(Start(names), ops);
      RunKeeps(names, ops[..|ops| - 1]);
      StepKeeps(Exec(Start(names), ops[..|ops| - 1]), ops[|ops| - 1]);
    }
  }

  lemma FoundMeans(w: World, id: Id)
    ensures Found(w.table, id) <==> exists place :: id in At(w.table, place)
  {
    if Found(w.table, id) {
      var place :| FoundAt(w.table, id, place);
      assert id in At(w.table, place);
    }
    if exists place :: id in At(w.table, place) {
      var place :| id in At(w.table, place);
      assert FoundAt(w.table, id, place);
    }
  }

  /** An instance nobody terminated is found exactly when its launch completed or a report listed it. */
  lemma FoundExactly(w: World, id: Id)
    requires Inv(w) && id in w.sent && id !in w.terminated
    ensures Found(w.table, id) <==> id in w.completed || id in w.seen
  {
    FoundMeans(w, id);
    if id in w.completed || id in w.seen {
      assert id in At(w.table, if id in w.seen then HomeOf(w, id) else PENDING);
    }
  }

  /** An id is listed in one place at a time: pending, or at the node that runs it. */
  lemma OnePlace(w: World, id: Id, a: Name, b: Name)
    requires Inv(w) && FoundAt(w.table, id, a) && FoundAt(w.table, id, b)
    ensures a == b
  {
    assert id in At(w.table, a) && id in At(w.table, b);
    assert a != PENDING ==> id in w.seen && HomeOf(w, id) == a;
    assert b != PENDING ==> id in w.seen && HomeOf(w, id) == b;
  }

  /** What once left the pending ones does not come back. */
  lemma NeverPendingAgain(w: World, op: Op, id: Id)
    requires Inv(w) && Legal(w, op) && id in w.sent && id !in At(w.table, PENDING)
    ensures id !in At(Step(w, op).table, PENDING) && id in Step(w, op).sent
  {
    StepKeeps(w, op);
    assert id in w.completed ==> id in w.seen;
  }

  // ---------- what a report changes ----------

  /** A launch adds to the pending instances, and to nothing else. */
  lemma LaunchAdds(table: map<Name, Instances>, added: Instances, n: Name)
    ensures n != "pending" ==> At(Launched(table, added), n) == At(table, n)
    ensures forall id | id in added :: id in At(Launched(table, added), "pending")
                                       && At(Launched(table, added), "pending")[id] == added[id]
    ensures forall id | id !in added ::
      if id in At(table, "pending")
      then id in At(Launched(table, added), "pending")
           && At(Launched(table, added), "pending")[id] == At(table, "pending")[id]
      else id !in At(Launched(table, added), "pending")
  {
  }

  /** A report is all that is known of its node from then on; what it lists is no longer pending. */
  lemma ReportReplaces(table: map<Name, Instances>, node: Name, items: Instances, n: Name)
    ensures At(Updated(table, node, items), node) == items
    ensures n != node && n != "pending" ==> At(Updated(table, node, items), n) == At(table, n)
    ensures node != "pending" ==> At(Updated(table, node, items), "pending") == At(table, "pending") - items.Keys
  {
    if PENDING !in table { assert At(table, PENDING) - items.Keys == map[]; }
  }

  /** All reports under way are consumed. */
  function Drained(w: World): World
    decreases |w.queue|
  {
    if w.queue == [] then w else Drained(Step(w, Consume))
  }

  /** Of each node that reported, the last report counts. */
  lemma {:induction false} LastReportCounts(w: World, i: nat)
    requires i < |w.queue| && w.queue[i].node != PENDING
    requires forall j :: 0 <= j < |w.queue| ==> w.queue[j].node != PENDING
    requires forall j :: i < j < |w.queue| ==> w.queue[j].node != w.queue[i].node
    ensures At(Drained(w).table, w.queue[i].node) == w.queue[i].items
    decreases |w.queue|
  {
    hide Updated;
    var r, w1 := w.queue[0], Step(w, Consume);
    assert forall j :: 0 <= j < |w1.queue| ==> w1.queue[j] == w.queue[j + 1];
    if i > 0 {
      LastReportCounts(w1, i - 1);
    } else {
      ReportReplaces(w.table, r.node, r.items, r.node);
      OthersLeave(w1, r.node);
    }
  }

  /** Reports of other nodes leave a node's entry as it is. */
  lemma {:induction false} OthersLeave(w: World, n: Name)
    requires n != PENDING && forall j :: 0 <= j < |w.queue| ==> w.queue[j].node != n
    ensures At(Drained(w).table, n) == At(w.table, n)
    decreases |w.queue|
  {
    hide Updated;
    if w.queue != [] {
      var w1 := Step(w, Consume);
      assert forall j :: 0 <= j < |w1.queue| ==> w1.queue[j] == w.queue[j + 1];
      ReportReplaces(w.table, w.queue[0].node, w.queue[0].items, n);
      OthersLeave(w1, n);
    }
  }

  lemma {:induction false} DrainedKeeps(w: World)
    requires Inv(w)
    ensures Inv(Drained(w)) && Drained(w).nodes == w.nodes && Drained(w).home == w.home
    ensures w.seen <= Drained(w).seen
    decreases |w.queue|
  {
    hide Inv;
    if w.queue != [] {
      ConsumeKeeps(w);
      DrainedKeeps(Step(w, Consume));
    }
  }

  /** What its node's last report does not list is nowhere, once that report has been consumed. */
  lemma GoneWhenDrained(w: World, i: nat, id: Id)
    requires Inv(w) && i + 1 == |w.queue| && id !in w.queue[i].items
    requires HomeOf(w, id) == w.queue[i].node && id in w.seen
    ensures !Found(Drained(w).table, id)
  {
    var end := Drained(w);
    LastReportCounts(w, i);
    DrainedKeeps(w);
    FoundMeans(end, id);
    hide Drained, Step;
    assert HomeOf(end, id) == HomeOf(w, id) && id in end.seen;
    assert AtHome(end) && PendingExact(end);
  }

  /** Once its node has destroyed an instance and reported, the instance is not found any more. */
  lemma DestroyedForgotten(w: World, n: Name, id: Id)
    requires Inv(w) && (n, id) in w.kills && n in w.nodes && id in w.nodes[n] && id in w.seen
    ensures !Found(Drained(Step(Step(w, Destroyed(n, id)), ReportState(n))).table, id)
  {
    var w1 := Step(w, Destroyed(n, id));
    var w2 := Step(w1, ReportState(n));
    assert HomeOf(w, id) == n by { assert id in At(w.nodes, n); }
    DestroyedKeeps(w, n, id);
    ReportKeeps(w1, n);
    var k := |w.queue|;
    assert w2.queue[k] == Report(n, w.nodes[n] - {id}) && w2.home == w.home && w2.seen == w.seen;
    assert HomeOf(w2, id) == n && PENDING !in w2.nodes;
    GoneWhenDrained(w2, k, id);
  }

  // ---------- launches that fail half-way ----------

  ghost predicate AllFound(w: World) {
    forall id | id in w.sent && id !in w.terminated :: Found(w.table, id)
  }

  /** A launch that failed after some of its instances had been sent to the nodes. */
  predicate HalfLaunch(op: Op) { op.Launch? && !op.finished && op.added != map[] }

  lemma {:induction false} NoneHalf(w: World, ops: seq<Op>)
    requires w.sent <= w.completed && forall op | op in ops :: !HalfLaunch(op)
    ensures Exec(w, ops).sent <= Exec(w, ops).completed
    decreases ops
  {
    hide Step, HalfLaunch;
    if ops != [] {
      NoneHalf(w, ops[..|ops| - 1]);
      assert ops[|ops| - 1] in ops;
      NotHalf(Exec(w, ops[..|ops| - 1]), ops[|ops| - 1]);
    }
  }

  lemma NotHalf(w: World, op: Op)
    requires w.sent <= w.completed && !HalfLaunch(op)
    ensures Step(w, op).sent <= Step(w, op).completed
  {
  }

  lemma HalfLaunchLost(w: World, op: Op)
    requires Inv(w) && Legal(w, op) && HalfLaunch(op)
    ensures !AllFound(Step(w, op))
  {
    var id :| id in op.added;
    var w' := Step(w, op);
    StepKeeps(w, op);
    assert id !in w.terminated;
    assert id !in w'.completed && id !in w'.seen;
    FoundExactly(w', id);
  }

  ghost predicate AlwaysFound(w: World, ops: seq<Op>) {
    forall k :: 0 <= k <= |ops| ==> AllFound(Exec(w, ops[..k]))
  }

  lemma AlwaysFoundInRun(names: set<Name>, ops: seq<Op>)
    requires PENDING !in names && LegalRun(Start(names), ops)
    ensures AlwaysFound(Start(names), ops) <==> forall op | op in ops :: !HalfLaunch(op)
  {
    hide Step, Inv, Legal, Found;
    var w0 := Start(names);
    forall k | 0 <= k <= |ops| ensures Inv(Exec(w0, ops[..k])) {
      LegalPrefix(w0, ops, k);
      RunKeeps(names, ops[..k]);
    }
    if forall op | op in ops :: !HalfLaunch(op) {
      forall k | 0 <= k <= |ops| ensures AllFound(Exec(w0, ops[..k])) {
        NoneHalf(w0, ops[..k]);
        var w := Exec(w0, ops[..k]);
        forall id | id in w.sent && id !in w.terminated ensures Found(w.table, id) { FoundExactly(w, id); }
      }
    } else {
      var k :| 0 <= k < |ops| && HalfLaunch(ops[k]);
      HalfLaunchLost(Exec(w0, ops[..k]), ops[k]);
      assert ops[..k + 1][..k] == ops[..k];
      assert !AllFound(Exec(w0, ops[..k + 1]));
    }
  }

  lemma LegalPrefix(w: World, ops: seq<Op>, k: nat)
    requires LegalRun(w, ops) && k <= |ops|
    ensures LegalRun(w, ops[..k])
  {
    forall j | 0 <= j < k ensures Legal(Exec(w, ops[..k][..j]), ops[..k][j]) {
      assert ops[..k][..j] == ops[..j];
    }
  }

  // ---------- a node of the name `pending` ----------

  /** One report under the name `pending` wipes out what was pending. */
  lemma PendingNodeForgets(table: map<Name, Instances>, added: Instances, id: Id)
    requires id in added && !Found(table, id)
    ensures Found(Launched(table, added), id) && !Found(Updated(Launched(table, added), PENDING, map[]), id)
  {
    assert FoundAt(Launched(table, added), id, PENDING);
    var after := Updated(Launched(table, added), PENDING, map[]);
    forall place ensures !FoundAt(after, id, place) { assert !FoundAt(table, id, place); }
  }

  const LAUNCH := Launch(map["i" := Info("", 0)], true)

  lemma ExecThen(w: World, ops: seq<Op>, op: Op) returns (w': World)
    ensures w' == Exec(w, ops + [op]) == Step(Exec(w, ops), op)
  {
    assert (ops + [op])[..|ops|] == ops;
    w' := Exec(w, ops + [op]);
  }

  /** A launch, then a report of the node of that name: the instance is lost. */
  lemma PendingNodeRun(names: set<Name>) returns (ops: seq<Op>)
    requires PENDING in names
    ensures LegalRun(Start(names), ops) && forall op | op in ops :: !HalfLaunch(op)
    ensures var w := Exec(Start(names), ops);
      w.sent == w.completed == {"i"} && w.terminated == {} && w.seen == {} && w.table == map[PENDING := map[]]
  {
    var w0 := Start(names);
    var w1 := ExecThen(w0, [], LAUNCH);
    var w2 := ExecThen(w0, [LAUNCH], ReportState(PENDING));
    var w3 := ExecThen(w0, [LAUNCH, ReportState(PENDING)], Consume);
    ops := [LAUNCH, ReportState(PENDING), Consume];
    assert ops[..0] == [] && ops[..1] == [LAUNCH] && ops[..2] == [LAUNCH, ReportState(PENDING)];
  }

  ghost predicate CompletedFound(w: World) {
    forall id | id in w.completed && id !in w.terminated :: Found(w.table, id)
  }

  /**
    Completely launched and not terminated means found, in every reachable state, unless a node is called
    `pending`.
   */
  lemma LaunchedFound(names: set<Name>)
    ensures (forall ops :: LegalRun(Start(names), ops) ==> CompletedFound(Exec(Start(names), ops)))
            <==> PENDING !in names
  {
    hide Step, Legal, HalfLaunch;
    if PENDING in names {
      var ops := PendingNodeRun(names);
      var w := Exec(Start(names), ops);
      assert "i" in w.completed;
      assert !Found(w.table, "i");
      assert !CompletedFound(w);
    } else {
      forall ops | LegalRun(Start(names), ops) ensures CompletedFound(Exec(Start(names), ops)) {
        RunKeeps(names, ops);
        var w := Exec(Start(names), ops);
        forall id | id in w.completed && id !in w.terminated ensures Found(w.table, id) {
          FoundExactly(w, id);
        }
      }
    }
  }

  ghost predicate PendingIsRest(w: World) { At(w.table, PENDING).Keys == w.completed - w.seen }

  /**
    Pending are exactly the launched instances no report has listed, in every reachable state, unless a node is
    called `pending`.
   */
  lemma PendingIs(names: set<Name>)
    ensures (forall ops :: LegalRun(Start(names), ops) ==> PendingIsRest(Exec(Start(names), ops)))
            <==> PENDING !in names
  {
    hide Step, Legal, HalfLaunch;
    if PENDING in names {
      var ops := PendingNodeRun(names);
      var w := Exec(Start(names), ops);
      assert At(w.table, PENDING) == map[] && "i" in w.completed - w.seen;
      assert !PendingIsRest(w);
    } else {
      forall ops | LegalRun(Start(names), ops) ensures PendingIsRest(Exec(Start(names), ops)) { RunKeeps(names, ops); }
    }
  }

  /**
    A run finds every running instance all along exactly when no launch of it fails half-way, unless a node is
    called `pending`.
   */
  lemma AlwaysFoundExactly(names: set<Name>)
    ensures (forall ops | LegalRun(Start(names), ops) ::
               AlwaysFound(Start(names), ops) <==> forall op | op in ops :: !HalfLaunch(op))
            <==> PENDING !in names
  {
    hide Step, Legal, Inv, HalfLaunch;
    if PENDING in names {
      var ops := PendingNodeRun(names);
      var w := Exec(Start(names), ops);
      assert ops[..|ops|] == ops;
      assert "i" in w.sent && !Found(w.table, "i");
      assert !AllFound(w);
    } else {
      forall ops | LegalRun(Start(names), ops)
        ensures AlwaysFound(Start(names), ops) <==> forall op | op in ops :: !HalfLaunch(op)
      {
        AlwaysFoundInRun(names, ops);
      }
    }
  }
}
