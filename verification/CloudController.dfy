/** The controller's and a node's own tables, updated in place. */
module CloudController {
  import opened Common
  import opened Cloud

  const NOSTATE := 0

  /** The first `k` instances of a launch, as they are recorded while pending. */
  function Pending(ids: seq<Id>, owner: string, k: nat): Instances
    requires k <= |ids|
  {
    map id | id in ids[..k] :: Info(owner, NOSTATE)
  }

  lemma PendingGrows(ids: seq<Id>, owner: string, k: nat)
    requires k < |ids|
    ensures Pending(ids, owner, k + 1) == Pending(ids, owner, k)[ids[k] := Info(owner, NOSTATE)]
  {
    assert ids[..k + 1] == ids[..k] + [ids[k]];
  }

  /** A pending instance is its owner's, in state 0. */
  lemma PendingAre(ids: seq<Id>, owner: string, id: Id)
    ensures var p := Pending(ids, owner, |ids|); (id in p <==> id in ids) && (id in p ==> p[id] == Info(owner, 0))
  {
    assert ids[..|ids|] == ids;
  }

  /** How many leading instances get an address. */
  function Addressed(addresses: seq<Option<nat>>): (k: nat)
    ensures k <= |addresses| && (forall i :: 0 <= i < k ==> addresses[i].Some?)
    ensures k < |addresses| ==> addresses[k] == None
  {
    if addresses == [] || addresses[0] == None then 0 else 1 + Addressed(addresses[1..])
  }

  lemma AddressedIs(addresses: seq<Option<nat>>, k: nat)
    requires k <= |addresses| && (forall i :: 0 <= i < k ==> addresses[i].Some?)
    requires k < |addresses| ==> addresses[k] == None
    ensures Addressed(addresses) == k
  {
  }

  lemma RemoveOne(p: Instances, removed: set<Id>, id: Id)
    ensures p - removed - {id} == p - (removed + {id})
    ensures id !in p - removed ==> p - removed == p - (removed + {id})
  {
  }

  datatype Termination = NotFound | StillPending | Cast(node: Name)

  class CloudController {
    var instances: map<Name, Instances>

    constructor ()
      ensures instances == map[]
    {
      instances := map[];
    }

    /**
      `run_instances`: `addresses[i]` is what the network controller answers for the i-th instance, nothing
      when it raises. `cast` is what was sent to the nodes.
     */
    method RunInstances(ids: seq<Id>, owner: string, addresses: seq<Option<nat>>)
      returns (cast: seq<Id>, finished: bool)
      requires |addresses| == |ids|
      modifies this
      ensures finished == (Addressed(addresses) == |ids|) && cast == ids[..Addressed(addresses)]
      ensures instances == if finished then Launched(old(instances), Pending(ids, owner, |ids|)) else old(instances)
    {
      var pending: Instances := map[];
      cast := [];
      for num := 0 to |ids|
        invariant instances == old(instances) && cast == ids[..num] && pending == Pending(ids, owner, num)
        invariant forall i :: 0 <= i < num ==> addresses[i].Some?
      {
        if addresses[num] == None {
          AddressedIs(addresses, num);
          return cast, false;
        }
        cast := cast + [ids[num]];
        PendingGrows(ids, owner, num);
        pending := pending[ids[num] := Info(owner, NOSTATE)];
      }
      AddressedIs(addresses, |ids|);
      assert ids[..|ids|] == ids;
      if PENDING !in instances {
        instances := instances[PENDING := map[]];
      }
      instances := instances[PENDING := instances[PENDING] + pending];
      finished := true;
    }

    /** `update_state` for the topic `instances`. */
    method UpdateState(node: Name, items: Instances)
      modifies this
      ensures instances == Updated(old(instances), node, items)
    {
      var rest := items.Keys;
      ghost var removed: set<Id> := {};
      assert forall p: Instances :: p - {} == p;
      while rest != {}
        invariant removed + rest == items.Keys
        invariant PENDING !in old(instances) ==> instances == old(instances)
        invariant PENDING in old(instances) ==>
                    instances == old(instances)[PENDING := old(instances)[PENDING] - removed]
        decreases rest
      {
        var id :| id in rest;
        if PENDING in instances && id in instances[PENDING] {
          instances := instances[PENDING := instances[PENDING] - {id}];
        }
        if PENDING in old(instances) {
          RemoveOne(old(instances)[PENDING], removed, id);
        }
        removed := removed + {id};
        rest := rest - {id};
      }
      assert removed == items.Keys;
      instances := instances[node := items];
    }

    /** `_get_by_id`: where the instance is listed; none is `NotFound`. */
    method GetById(id: Id) returns (place: Option<Name>)
      ensures place == None <==> !Found(instances, id)
      ensures place.Some? ==> FoundAt(instances, id, place.value)
    {
      var rest := instances.Keys;
      while rest != {}
        invariant rest <= instances.Keys && forall n | n in instances && n !in rest :: !FoundAt(instances, id, n)
        decreases rest
      {
        var n :| n in rest;
        if id in instances[n] {
          assert FoundAt(instances, id, n);
          return Some(n);
        }
        rest := rest - {n};
      }
      place := None;
    }

    /** The request goes to the node that runs it; refused while the instance is pending, or not known. */
    method TerminateInstance(id: Id) returns (r: Termination)
      ensures r == NotFound <==> !Found(instances, id)
      ensures r == StillPending ==> FoundAt(instances, id, PENDING)
      ensures r.Cast? ==> r.node != PENDING && FoundAt(instances, id, r.node)
      ensures FoundAt(instances, id, PENDING) && (forall n :: FoundAt(instances, id, n) ==> n == PENDING) ==>
                r == StillPending
    {
      var place := GetById(id);
      if place == None { return NotFound; }
      if place.value == PENDING { return StillPending; }
      r := Cast(place.value);
    }
  }

  class Node {
    const name: Name
    var instances: Instances

    constructor (name: Name)
      ensures this.name == name && instances == map[]
    {
      this.name, instances := name, map[];
    }

    /** False when the id is in use here, an error in the source. */
    method RunInstance(id: Id, info: Info) returns (ok: bool)
      modifies this
      ensures ok == (id !in old(instances))
      ensures instances == if ok then old(instances)[id := info] else old(instances)
    {
      ok := id !in instances;
      if ok { instances := instances[id := info]; }
    }

    /** The instance is gone once its destruction is done; an unknown id is an error. */
    method TerminateInstance(id: Id) returns (ok: bool)
      modifies this
      ensures ok == (id in old(instances)) && instances == old(instances) - {id}
    {
      ok := id in instances;
      instances := instances - {id};
    }

    /** `describe_instances`, entry by entry. */
    method DescribeInstances() returns (d: Instances)
      ensures d == instances
    {
      d := map[];
      var rest := instances.Keys;
      while rest != {}
        invariant rest <= instances.Keys && d == instances - rest
        decreases rest
      {
        var id :| id in rest;
        d := d[id := instances[id]];
        rest := rest - {id};
      }
    }

    method ReportState() returns (r: Report)
      ensures r == Report(name, instances)
    {
      var d := DescribeInstances();
      r := Report(name, d);
    }
  }

  /** The messages under way: instances to run, terminations, and reports. */
  class Bus {
    var inbox: set<Id>
    var kills: set<(Name, Id)>
    var queue: seq<Report>

    constructor ()
      ensures inbox == {} && kills == {} && queue == []
    {
      inbox, kills, queue := {}, {}, [];
    }
  }

  // ---------- the objects take the steps of the whole system ----------

  ghost predicate Mirrors(w: World, controller: CloudController, bus: Bus, nodes: map<Name, Node>)
    reads controller, bus, nodes.Values
  {
    && controller.instances == w.table
    && bus.inbox == w.inbox && bus.kills == w.kills && bus.queue == w.queue
    && nodes.Keys == w.nodes.Keys
    && forall n | n in nodes :: nodes[n].name == n && nodes[n].instances == w.nodes[n]
  }

  method LaunchStep(ghost w: World, controller: CloudController, bus: Bus, ghost nodes: map<Name, Node>,
                    ids: seq<Id>, owner: string, addresses: seq<Option<nat>>)
    returns (finished: bool)
    requires |addresses| == |ids| && Mirrors(w, controller, bus, nodes)
    modifies controller, bus
    ensures finished == (Addressed(addresses) == |ids|)
    ensures Mirrors(Step(w, Launch(Pending(ids, owner, Addressed(addresses)), finished)), controller, bus, nodes)
  {
    var cast;
    cast, finished := controller.RunInstances(ids, owner, addresses);
    bus.inbox := bus.inbox + set id | id in cast;
    assert Pending(ids, owner, Addressed(addresses)).Keys == set id | id in cast;
  }

  /** The node takes one message; with an id it has already, the message is lost. */
  method RunOnStep(ghost w: World, ghost controller: CloudController, bus: Bus, nodes: map<Name, Node>,
                   name: Name, id: Id, info: Info)
    requires Mirrors(w, controller, bus, nodes) && name in nodes && id in bus.inbox
    modifies bus, nodes[name]
    ensures Mirrors(Step(w, RunOn(name, id, info)), controller, bus, nodes)
  {
    bus.inbox := bus.inbox - {id};
    var ok := nodes[name].RunInstance(id, info);
  }

  method ReportStep(ghost w: World, ghost controller: CloudController, bus: Bus, nodes: map<Name, Node>, name: Name)
    requires Mirrors(w, controller, bus, nodes) && name in nodes
    modifies bus
    ensures Mirrors(Step(w, ReportState(name)), controller, bus, nodes)
  {
    var r := nodes[name].ReportState();
    bus.queue := bus.queue + [r];
  }

  method ConsumeStep(ghost w: World, controller: CloudController, bus: Bus, ghost nodes: map<Name, Node>)
    requires Mirrors(w, controller, bus, nodes) && bus.queue != []
    modifies controller, bus
    ensures Mirrors(Step(w, Consume), controller, bus, nodes)
  {
    var r := bus.queue[0];
    bus.queue := bus.queue[1..];
    controller.UpdateState(r.node, r.items);
  }

  /** Only a request that goes to a node changes anything. */
  method TerminateStep(ghost w: World, controller: CloudController, bus: Bus, ghost nodes: map<Name, Node>, id: Id)
    returns (r: Termination)
    requires Mirrors(w, controller, bus, nodes)
    modifies bus
    ensures r == NotFound <==> !Found(w.table, id)
    ensures r.Cast? ==> FoundAt(w.table, id, r.node)
    ensures Mirrors(if r.Cast? then Step(w, Terminate(r.node, id)) else w, controller, bus, nodes)
  {
    r := controller.TerminateInstance(id);
    if r.Cast? {
      bus.kills := bus.kills + {(r.node, id)};
    }
  }

  method DestroyedStep(ghost w: World, ghost controller: CloudController, bus: Bus, nodes: map<Name, Node>,
                       name: Name, id: Id)
    requires Mirrors(w, controller, bus, nodes) && name in nodes && (name, id) in bus.kills
    modifies bus, nodes[name]
    ensures Mirrors(Step(w, Destroyed(name, id)), controller, bus, nodes)
  {
    bus.kills := bus.kills - {(name, id)};
    var ok := nodes[name].TerminateInstance(id);
  }
}
