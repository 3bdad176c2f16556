/** The network controller as steps over its memory and its store. */
module Allocation {
  import opened Common
  import opened Cidr
  import opened Network

  /** What the store holds: the vlans, the users listed under `private`, and each user's network. */
  datatype Saved = Saved(vlans: map<User, int>, listed: set<User>, records: map<User, Record>)

  datatype State = State(vlans: map<User, int>, vlanpool: set<int>, nets: map<User, Record>, store: Saved)

  datatype Op =
    | Allocate(user: User, mac: string)
    | Cloudpipe(user: User, mac: string)
    | Deallocate(address: nat)
    | Restart

  datatype Reply = Address(address: nat) | Failed(failure: Failure) | Done

  const EMPTY := State(map[], {}, map[], Saved(map[], {}, map[]))

  // ---------- steps ----------

  lemma {:induction false} MaxExists(s: set<int>) returns (m: int)
    requires s != {}
    ensures m in s && forall x | x in s :: x <= m
    decreases |s|
  {
    assert (forall x :: x !in s) ==> s == {};
    var x :| x in s;
    m := x;
    assert s == (s - {x}) + {x};
    if s - {x} != {} {
      var n := MaxExists(s - {x});
      if n > m { m := n; }
    }
  }

  ghost function MaxOf(s: set<int>): (m: int)
    requires s != {}
    ensures m in s && forall x | x in s :: x <= m
  {
    assert exists m :: m in s && forall x | x in s :: x <= m by { var m := MaxExists(s); }
    var m :| m in s && forall x | x in s :: x <= m;
    m
  }

  /** `VlanPool.next` when no user was deleted; none is "out of vlans". */
  ghost function NextVlan(start: int, end: int, vlanpool: set<int>): Option<int> {
    var next := MaxOf(vlanpool + {start}) + 1;
    if next == end then None else Some(next)
  }

  datatype Found = Found(error: Option<Failure>, state: State)

  /** `get_users_network`: the stored network is loaded anew, or one is made and stored. */
  ghost function UsersNet(cfg: Config, s: State, u: User): (f: Found)
    ensures f.error == None ==> u in f.state.nets
    ensures f.error != Some(NoMoreAddresses)
  {
    if u !in cfg.users then Found(Some(NoUser), s)
    else if u in s.store.records then Found(None, s.(nets := s.nets[u := s.store.records[u]]))
    else
      var vlan := NextVlan(cfg.start, cfg.end, s.vlanpool);
      if vlan == None then Found(Some(OutOfVlans), s)
      else
        var v := vlan.value;
        var s1 := s.(vlans := s.vlans[u := v], vlanpool := s.vlanpool + {v});
        var net := Subnet(cfg, v);
        if net == None then Found(Some(OutOfPool), s1)
        else
          var rec := Record(v, net.value, map[]);
          Found(None, s1.(nets := s1.nets[u := rec], store := s1.store.(records := s1.store.records[u := rec])))
  }

  function Restrict(m: map<User, Record>, keys: set<User>): map<User, Record> { map u | u in m && u in keys :: m[u] }

  /** `_save`: it fails at a network whose user has no vlan, after writing some of the records. */
  ghost predicate Saves(s: State, s': State, error: Option<Failure>) {
    if s.nets.Keys <= s.vlans.Keys then
      error == None && s' == s.(store := Saved(s.vlans, s.nets.Keys, s.store.records + s.nets))
    else
      error == Some(MissingVlan)
      && exists written :: s' == s.(store := s.store.(records := s.store.records + Restrict(s.nets, written)))
  }

  function Reported(error: Option<Failure>, done: Reply): Reply { if error == None then done else Failed(error.value) }

  ghost predicate SavesAs(s: State, s': State, done: Reply, r: Reply) {
    exists error :: Saves(s, s', error) && r == Reported(error, done)
  }

  function WithHost(s: State, u: User, a: nat, mac: string): State
    requires u in s.nets
  {
    s.(nets := s.nets[u := s.nets[u].(hosts := s.nets[u].hosts[a := Host(a, u, mac)])])
  }

  function WithoutHost(s: State, u: User, a: nat): State
    requires u in s.nets
  {
    s.(nets := s.nets[u := s.nets[u].(hosts := s.nets[u].hosts - {a})])
  }

  ghost predicate AllocateStep(cfg: Config, s: State, u: User, mac: string, r: Reply, s': State) {
    var f := UsersNet(cfg, s, u);
    if f.error != None then r == Failed(f.error.value) && s' == f.state
    else
      var net := f.state.nets[u];
      var a := FirstFree(net.subnet, net.hosts.Keys, 3);
      if a == None then r == Failed(NoMoreAddresses) && s' == f.state
      else SavesAs(WithHost(f.state, u, a.value, mac), s', Address(a.value), r)
  }

  ghost predicate CloudpipeStep(cfg: Config, s: State, u: User, mac: string, r: Reply, s': State) {
    var f := UsersNet(cfg, s, u);
    if f.error != None then r == Failed(f.error.value) && s' == f.state
    else
      var a := f.state.nets[u].subnet.ip + 2;
      SavesAs(WithHost(f.state, u, a, mac), s', Address(a), r)
  }

  /** The networks looked at are loaded from the store again. */
  function Reloaded(s: State, visited: set<User>): State {
    s.(nets := map u | u in s.nets :: if u in visited && u in s.store.records then s.store.records[u] else s.nets[u])
  }

  /** Networks are searched in no particular order for one that covers the address. */
  ghost predicate DeallocateStep(s: State, a: nat, r: Reply, s': State) {
    exists visited, holder: Option<User> :: DeallocateVia(s, a, visited, holder, r, s')
  }

  ghost predicate DeallocateVia(s: State, a: nat, visited: set<User>, holder: Option<User>, r: Reply, s': State) {
    var s1 := Reloaded(s, visited);
    && visited <= s.nets.Keys
    && (forall u | u in visited && holder != Some(u) :: !s1.nets[u].subnet.Covers(a))
    && if holder == None then visited == s.nets.Keys && r == Failed(NotAllocated) && s' == s1
       else
         var u := holder.value;
         u in visited && s1.nets[u].subnet.Covers(a) && Released(s1, u, a, r, s')
  }

  ghost predicate Released(s: State, u: User, a: nat, r: Reply, s': State)
    requires u in s.nets
  {
    if a !in s.nets[u].hosts then r == Failed(NotAllocated) && s' == s
    else SavesAs(WithoutHost(s, u, a), s', Done, r)
  }

  /** A new controller knows what the store tells: the vlans, and the networks of the users listed. */
  function Rebuilt(store: Saved): State {
    State(store.vlans, store.vlans.Values, Restrict(store.records, store.listed), store)
  }

  ghost predicate Next(cfg: Config, s: State, op: Op, r: Reply, s': State) {
    match op
    case Allocate(u, mac) => AllocateStep(cfg, s, u, mac, r, s')
    case Cloudpipe(u, mac) => CloudpipeStep(cfg, s, u, mac, r, s')
    case Deallocate(a) => DeallocateStep(s, a, r, s')
    case Restart => r == Done && s' == Rebuilt(s.store)
  }

  // ---------- what every step keeps ----------

  ghost predicate VlanOk(cfg: Config, v: int) { v > cfg.start && (cfg.start < cfg.end ==> v < cfg.end) }

  /** A network on its vlan's subnet, whose hosts are its user's, each at an address given out. */
  ghost predicate RecordOk(cfg: Config, u: User, rec: Record) {
    && VlanOk(cfg, rec.vlan) && Subnet(cfg, rec.vlan) == Some(rec.subnet)
    && forall a | a in rec.hosts ::
         rec.hosts[a].address == a && rec.hosts[a].user == u && (a == rec.subnet.ip + 2 || a in Range(rec.subnet))
  }

  ghost predicate VlansOk(cfg: Config, vlans: map<User, int>, nets: map<User, Record>) {
    && (forall u | u in vlans :: VlanOk(cfg, vlans[u]))
    && (forall u | u in nets :: u in vlans && vlans[u] == nets[u].vlan)
  }

  ghost predicate NetsOk(cfg: Config, nets: map<User, Record>) {
    && nets.Keys <= cfg.users
    && (forall u | u in nets :: RecordOk(cfg, u, nets[u]))
    && (forall u, w | u in nets && w in nets && u != w :: nets[u].vlan != nets[w].vlan)
  }

  ghost predicate MemoryOk(cfg: Config, s: State) {
    && NetsOk(cfg, s.nets) && VlansOk(cfg, s.vlans, s.nets)
    && s.vlans.Values <= s.vlanpool && forall v | v in s.vlanpool :: VlanOk(cfg, v)
  }

  /** Memory is as it should be and the store tells the same about every network. */
  ghost predicate Inv(cfg: Config, s: State) {
    && MemoryOk(cfg, s)
    && s.store.records == s.nets && s.store.listed == s.nets.Keys && VlansOk(cfg, s.store.vlans, s.nets)
  }

  lemma SaveKeeps(cfg: Config, s: State, s': State, error: Option<Failure>)
    requires MemoryOk(cfg, s) && s.store.records.Keys == s.nets.Keys && Saves(s, s', error)
    ensures error == None && Inv(cfg, s') && s'.nets == s.nets
  {
    assert s.store.records + s.nets == s.nets;
  }

  lemma NextVlanOk(cfg: Config, vlanpool: set<int>)
    requires forall v | v in vlanpool :: VlanOk(cfg, v)
    ensures NextVlan(cfg.start, cfg.end, vlanpool).Some? ==> VlanOk(cfg, NextVlan(cfg.start, cfg.end, vlanpool).value)
    ensures NextVlan(cfg.start, cfg.end, vlanpool).Some? ==> NextVlan(cfg.start, cfg.end, vlanpool).value !in vlanpool
  {
    var m := MaxOf(vlanpool + {cfg.start});
    assert cfg.start in vlanpool + {cfg.start};
    assert forall v | v in vlanpool :: v in vlanpool + {cfg.start} && v <= m;
  }

  /** Looking up a stored network changes nothing; making one leaves memory right and stores it at once. */
  lemma UsersNetKeeps(cfg: Config, s: State, u: User)
    requires Sound(cfg) && Inv(cfg, s)
    ensures var f := UsersNet(cfg, s, u);
      && MemoryOk(cfg, f.state) && f.state.store.records == f.state.nets && f.state.store.listed == s.store.listed
      && (u in s.nets ==> f == Found(None, s))
      && (u !in s.nets && f.error == None ==>
          f.state.nets == s.nets[u := f.state.nets[u]] && f.state.nets[u].hosts == map[])
      && (f.error != None ==> f.state.nets == s.nets && f.state.store == s.store && Inv(cfg, f.state))
  {
    hide Subnet, RecordOk, NextVlan, VlanOk;
    NextVlanOk(cfg, s.vlanpool);
    var vlan := NextVlan(cfg.start, cfg.end, s.vlanpool);
    if u in s.nets {
      assert s.nets[u := s.store.records[u]] == s.nets;
    } else if vlan.Some? && u in cfg.users {
      var rec := MakeNetwork(cfg, s, u, vlan.value);
    }
  }

  /** A new user on a new vlan. */
  lemma MakeNetwork(cfg: Config, s: State, u: User, v: int) returns (rec: Record)
    requires MemoryOk(cfg, s) && u in cfg.users && u !in s.nets && VlanOk(cfg, v) && v !in s.vlanpool
    ensures rec.vlan == v && rec.hosts == map[] && (Subnet(cfg, v).Some? ==> rec.subnet == Subnet(cfg, v).value)
    ensures MemoryOk(cfg, s.(vlans := s.vlans[u := v], vlanpool := s.vlanpool + {v}))
    ensures Subnet(cfg, v).Some? ==>
              MemoryOk(cfg, s.(vlans := s.vlans[u := v], vlanpool := s.vlanpool + {v}, nets := s.nets[u := rec]))
  {
    hide Subnet, VlanOk;
    rec := if Subnet(cfg, v).Some? then Record(v, Subnet(cfg, v).value, map[]) else Record(v, cfg.pool, map[]);
    forall w | w in s.nets ensures s.nets[w].vlan != v { assert s.vlans[w] in s.vlans.Values; }
    assert s.vlans[u := v].Values <= s.vlanpool + {v};
  }

  /** Adding a host of its user at an address given out keeps a network right. */
  lemma HostKeeps(cfg: Config, s: State, u: User, a: nat, mac: string)
    requires MemoryOk(cfg, s) && u in s.nets
    requires a == s.nets[u].subnet.ip + 2 || a in Range(s.nets[u].subnet)
    ensures MemoryOk(cfg, WithHost(s, u, a, mac))
  {
    hide Subnet, VlanOk, Range;
  }

  lemma UnhostKeeps(cfg: Config, s: State, u: User, a: nat)
    requires MemoryOk(cfg, s) && u in s.nets
    ensures MemoryOk(cfg, WithoutHost(s, u, a))
  {
    hide Subnet, VlanOk, Range;
  }

  lemma ReloadedSame(cfg: Config, s: State, visited: set<User>)
    requires Inv(cfg, s)
    ensures Reloaded(s, visited) == s
  {
    assert Reloaded(s, visited).nets == s.nets;
  }

  /** A new network always has an address to give, unless networks have four addresses only. */
  lemma NewNetworkHasRoom(cfg: Config, vlan: int)
    requires Sound(cfg) && cfg.netsize != 4 && vlan > cfg.start && Subnet(cfg, vlan).Some?
    ensures FirstFree(Subnet(cfg, vlan).value, {}, 3).Some?
  {
    hide Subnet;
    SubnetIs(cfg, vlan);
    FirstFreeIsLowest(Subnet(cfg, vlan).value, {}, 3);
    RangeSize(Subnet(cfg, vlan).value);
  }

  /** `mid` is `s` with the user's network at hand; it is given the address and saved. */
  lemma GivenAndSaved(cfg: Config, s: State, mid: State, u: User, a: nat, mac: string, r: Reply, s': State)
    requires MemoryOk(cfg, mid) && mid.store.records == mid.nets && u in mid.nets
    requires a == mid.nets[u].subnet.ip + 2 || a in Range(mid.nets[u].subnet)
    requires u in s.nets ==> mid == s
    requires u !in s.nets ==> mid.nets == s.nets[u := mid.nets[u]] && mid.nets[u].hosts == map[]
    requires SavesAs(WithHost(mid, u, a, mac), s', Address(a), r)
    ensures Inv(cfg, s') && r == Address(a) && GivenTo(s, s', u, a, mac) && s'.nets[u].subnet == mid.nets[u].subnet
  {
    hide MemoryOk, Inv, Range, Saves;
    HostKeeps(cfg, mid, u, a, mac);
    var error :| Saves(WithHost(mid, u, a, mac), s', error) && r == Reported(error, Address(a));
    SaveKeeps(cfg, WithHost(mid, u, a, mac), s', error);
  }

  /**
    A user's first allocation on a network of four addresses: it has none to give, so nothing is saved and
    the new vlan is in memory only.
   */
  ghost predicate Strands(cfg: Config, s: State, op: Op) {
    cfg.netsize == 4 && op.Allocate? && op.user !in s.nets && UsersNet(cfg, s, op.user).error == None
  }

  /** Networks of four addresses have none to give. */
  lemma FourFull(cfg: Config, s: State, u: User)
    requires Sound(cfg) && cfg.netsize == 4 && MemoryOk(cfg, s) && u in s.nets
    ensures FirstFree(s.nets[u].subnet, s.nets[u].hosts.Keys, 3) == None
  {
    hide Subnet;
    assert RecordOk(cfg, u, s.nets[u]);
    SubnetIs(cfg, s.nets[u].vlan);
  }

  /**
    A step of allocation, seen from a state that is right: it fails and changes no network, or one more
    address is held, and everything is in the store; but for the stranding ones.
   */
  lemma AllocateKeeps(cfg: Config, s: State, u: User, mac: string, r: Reply, s': State)
    requires Sound(cfg) && Inv(cfg, s) && AllocateStep(cfg, s, u, mac, r, s')
    ensures Inv(cfg, s') <==> !Strands(cfg, s, Allocate(u, mac))
    ensures Strands(cfg, s, Allocate(u, mac)) ==> r == Failed(NoMoreAddresses)
    ensures r.Failed? && !Strands(cfg, s, Allocate(u, mac)) ==>
              s'.nets == s.nets
              && (r == Failed(NoMoreAddresses) ==> u in s.nets && Range(s.nets[u].subnet) <= s.nets[u].hosts.Keys)
    ensures !r.Failed? ==>
              r.Address? && GivenTo(s, s', u, r.address, mac) && LowestFree(s'.nets[u].subnet, HostsOf(s, u), r.address)
  {
    hide Subnet, FirstFree, Range, UsersNet, NetsOk, VlansOk, GivenTo, SavesAs;
    UsersNetKeeps(cfg, s, u);
    var f := UsersNet(cfg, s, u);
    if f.error == None {
      var net := f.state.nets[u];
      FirstFreeIsLowest(net.subnet, net.hosts.Keys, 3) by { NothingBelow(net.subnet); }
      if Strands(cfg, s, Allocate(u, mac)) {
        FourFull(cfg, f.state, u);
        assert u in f.state.nets && u !in f.state.store.listed;
      } else if u !in s.nets {
        NewRoom(cfg, f.state, u);
      }
      var a := FirstFree(net.subnet, net.hosts.Keys, 3);
      if a.Some? {
        GivenAndSaved(cfg, s, f.state, u, a.value, mac, r, s');
      }
    }
  }

  lemma NothingBelow(subnet: Block)
    ensures forall b | b in Range(subnet) :: b >= subnet.ip + 3
  {
  }

  lemma NewRoom(cfg: Config, s: State, u: User)
    requires Sound(cfg) && cfg.netsize != 4 && MemoryOk(cfg, s) && u in s.nets && s.nets[u].hosts == map[]
    ensures FirstFree(s.nets[u].subnet, s.nets[u].hosts.Keys, 3).Some?
  {
    hide Subnet, FirstFree, Range;
    assert s.nets[u].hosts.Keys == {};
    assert RecordOk(cfg, u, s.nets[u]);
    NewNetworkHasRoom(cfg, s.nets[u].vlan);
  }

  function HostsOf(s: State, u: User): map<nat, Host> { if u in s.nets then s.nets[u].hosts else map[] }

  /** The user's network now holds the address, and nothing else about hosts changed. */
  ghost predicate GivenTo(s: State, s': State, u: User, a: nat, mac: string) {
    && u in s'.nets && s'.nets == s.nets[u := s'.nets[u]]
    && s'.nets[u].hosts == HostsOf(s, u)[a := Host(a, u, mac)]
    && (u in s.nets ==> s'.nets[u].subnet == s.nets[u].subnet && s'.nets[u].vlan == s.nets[u].vlan)
  }

  ghost predicate LowestFree(subnet: Block, before: map<nat, Host>, a: nat) {
    a in Range(subnet) && a !in before && forall b | b in Range(subnet) && b < a :: b in before
  }

  /** The next vlan is one above the highest of those given out and the start, unless that is the end. */
  lemma NextVlanIs(start: int, end: int, vlanpool: set<int>, top: int)
    requires top == start || top in vlanpool
    requires start <= top && forall v | v in vlanpool :: v <= top
    ensures NextVlan(start, end, vlanpool) == if top + 1 == end then None else Some(top + 1)
  {
    var all := vlanpool + {start};
    assert start in all && top in all;
    assert MaxOf(all) in all && MaxOf(all) <= top && top <= MaxOf(all);
  }

  /**
    Which requests are answered, and with what, `top` being the highest vlan given out: a user the manager
    does not know is refused, a new one gets the next vlan and its block of the pool unless one of the two
    is used up, and the address is between the fourth and the third from the end of the user's network.
   */
  lemma AllocateExactly(cfg: Config, s: State, u: User, mac: string, r: Reply, s': State, top: int)
    requires Sound(cfg) && Inv(cfg, s) && AllocateStep(cfg, s, u, mac, r, s')
    requires top == cfg.start || top in s.vlanpool
    requires cfg.start <= top && forall v | v in s.vlanpool :: v <= top
    ensures r == Failed(NoUser) <==> u !in cfg.users
    ensures r == Failed(OutOfVlans) <==> u in cfg.users && u !in s.nets && top + 1 == cfg.end
    ensures r == Failed(OutOfPool) <==> u in cfg.users && u !in s.nets && top + 1 != cfg.end
                                        && (top + 2 - cfg.start) * cfg.netsize > cfg.pool.Len()
    ensures r.Address? ==>
              var net := s'.nets[u];
              net.subnet.ip + 3 <= r.address <= net.subnet.ip + net.subnet.Len() - 3
              && (u !in s.nets ==> net.vlan == top + 1 && IsBlock(cfg, net.subnet, top + 1 - cfg.start))
  {
    hide Subnet, FirstFree, Range, MemoryOk, SavesAs, IsBlock, Inv, NextVlan;
    AllocateKeeps(cfg, s, u, mac, r, s');
    InvUsers(cfg, s);
    NextVlanIs(cfg.start, cfg.end, s.vlanpool, top);
    SubnetIs(cfg, top + 1);
    if UsersNet(cfg, s, u).error == None { AllocatedOn(cfg, s, u, mac, r, s'); }
    if r.Address? { RangeIndices(s'.nets[u].subnet, r.address); }
  }

  lemma InvUsers(cfg: Config, s: State)
    requires Inv(cfg, s)
    ensures s.nets.Keys <= cfg.users && s.store.records == s.nets
  {
  }

  /** The address comes from the network looked up or made. */
  lemma AllocatedOn(cfg: Config, s: State, u: User, mac: string, r: Reply, s': State)
    requires Sound(cfg) && Inv(cfg, s) && AllocateStep(cfg, s, u, mac, r, s') && UsersNet(cfg, s, u).error == None
    ensures r == Failed(NoMoreAddresses) || r.Address?
    ensures var net := UsersNet(cfg, s, u).state.nets[u];
      r.Address? ==> u in s'.nets && s'.nets[u].vlan == net.vlan && s'.nets[u].subnet == net.subnet
  {
    hide Subnet, FirstFree, Range, UsersNet, NetsOk, VlansOk, Saves;
    var f := UsersNet(cfg, s, u);
    UsersNetKeeps(cfg, s, u);
    var net := f.state.nets[u];
    var a := FirstFree(net.subnet, net.hosts.Keys, 3);
    FirstFreeIsLowest(net.subnet, net.hosts.Keys, 3) by { NothingBelow(net.subnet); }
    if a.Some? {
      var given := WithHost(f.state, u, a.value, mac);
      HostKeeps(cfg, f.state, u, a.value, mac);
      var error :| Saves(given, s', error) && r == Reported(error, Address(a.value));
      SaveKeeps(cfg, given, s', error);
    }
  }

  /** Asking for the cloudpipe address: always the one at index 2, and also in the store. */
  lemma CloudpipeKeeps(cfg: Config, s: State, u: User, mac: string, r: Reply, s': State)
    requires Sound(cfg) && Inv(cfg, s) && CloudpipeStep(cfg, s, u, mac, r, s')
    ensures Inv(cfg, s')
    ensures r.Failed? ==> s'.nets == s.nets
    ensures !r.Failed? ==> r.Address? && GivenTo(s, s', u, r.address, mac) && r.address == s'.nets[u].subnet.ip + 2
  {
    hide Subnet, RecordOk, VlanOk, Range, UsersNet;
    UsersNetKeeps(cfg, s, u);
    var f := UsersNet(cfg, s, u);
    if f.error == None {
      var a := f.state.nets[u].subnet.ip + 2;
      GivenAndSaved(cfg, s, f.state, u, a, mac, r, s');
    }
  }

  ghost predicate Held(s: State, u: User, a: nat) { u in s.nets && a in s.nets[u].hosts }

  /** Every address held lies in its network. */
  lemma HeldCovered(cfg: Config, s: State, u: User, a: nat)
    requires Sound(cfg) && MemoryOk(cfg, s) && Held(s, u, a)
    ensures s.nets[u].subnet.Covers(a)
  {
    hide Subnet;
    assert RecordOk(cfg, u, s.nets[u]);
    SubnetIs(cfg, s.nets[u].vlan);
    FourAtLeast(cfg.netsize);
  }

  lemma FourAtLeast(n: nat)
    requires SizeAllowed(n)
    ensures n >= 4
  {
  }

  /** No two networks share an address. */
  lemma NetworksApart(cfg: Config, s: State, u: User, w: User)
    requires Sound(cfg) && MemoryOk(cfg, s) && u in s.nets && w in s.nets && u != w
    ensures Overlaps(s.nets[u].subnet, s.nets[w].subnet) == 0
    ensures forall a: nat :: !(s.nets[u].subnet.Covers(a) && s.nets[w].subnet.Covers(a))
  {
    hide Subnet;
    assert RecordOk(cfg, u, s.nets[u]) && RecordOk(cfg, w, s.nets[w]);
    var v, x := s.nets[u].vlan, s.nets[w].vlan;
    if v < x { SubnetsApart(cfg, v, x); } else { SubnetsApart(cfg, x, v); }
    OverlapsIffShared(s.nets[u].subnet, s.nets[w].subnet);
  }

  /** No address is held twice. */
  lemma HeldOnce(cfg: Config, s: State, u: User, w: User, a: nat)
    requires Sound(cfg) && MemoryOk(cfg, s) && Held(s, u, a) && Held(s, w, a)
    ensures u == w
  {
    HeldCovered(cfg, s, u, a);
    HeldCovered(cfg, s, w, a);
    if u != w { NetworksApart(cfg, s, u, w); }
  }

  /** Deallocation succeeds exactly when someone holds the address, and takes away that alone. */
  lemma DeallocateKeeps(cfg: Config, s: State, a: nat, r: Reply, s': State)
    requires Sound(cfg) && Inv(cfg, s) && DeallocateStep(s, a, r, s')
    ensures Inv(cfg, s') && (r == Done || r == Failed(NotAllocated))
    ensures r == Done <==> exists u :: Held(s, u, a)
    ensures forall u, b :: Held(s', u, b) <==> Held(s, u, b) && b != a
  {
    hide Subnet, RecordOk, VlanOk, Saves;
    var visited, holder: Option<User> :| DeallocateVia(s, a, visited, holder, r, s');
    ReloadedSame(cfg, s, visited);
    forall u | Held(s, u, a) ensures holder == Some(u) {
      HeldCovered(cfg, s, u, a);
      if holder.Some? && holder.value != u { NetworksApart(cfg, s, u, holder.value); }
    }
    if holder.Some? && a in s.nets[holder.value].hosts {
      var u := holder.value;
      assert Held(s, u, a);
      UnhostKeeps(cfg, s, u, a);
      var error :| Saves(WithoutHost(s, u, a), s', error) && r == Reported(error, Done);
      SaveKeeps(cfg, WithoutHost(s, u, a), s', error);
      TakenAway(s, s', u, a);
    } else {
      assert forall u :: !Held(s, u, a);
    }
  }

  lemma TakenAway(s: State, s': State, u: User, a: nat)
    requires u in s.nets && s'.nets == WithoutHost(s, u, a).nets && forall w | Held(s, w, a) :: w == u
    ensures forall w, b :: Held(s', w, b) <==> Held(s, w, b) && b != a
  {
  }

  /** A restart brings back every network just as it was. */
  lemma RestartKeeps(cfg: Config, s: State)
    requires Inv(cfg, s)
    ensures Inv(cfg, Rebuilt(s.store)) && Rebuilt(s.store).nets == s.nets
    ensures forall u | u in s.nets :: Rebuilt(s.store).vlans[u] == s.vlans[u]
  {
    hide RecordOk, VlanOk;
    assert Restrict(s.store.records, s.store.listed) == s.nets;
    forall v | v in s.store.vlans.Values ensures VlanOk(cfg, v) {
      var u :| u in s.store.vlans && s.store.vlans[u] == v;
    }
  }

  // ---------- whole runs ----------

  datatype Run = Run(states: seq<State>, ops: seq<Op>, replies: seq<Reply>)

  /** Any sequence of requests and restarts, from an empty store. */
  ghost predicate IsRun(cfg: Config, run: Run) {
    && |run.states| == |run.ops| + 1 && |run.replies| == |run.ops|
    && run.states[0] == EMPTY
    && forall i :: 0 <= i < |run.ops| ==> Next(cfg, run.states[i], run.ops[i], run.replies[i], run.states[i + 1])
  }

  /** A step from a state that is right leads to one exactly when it is not a stranding one. */
  lemma StepKeeps(cfg: Config, s: State, op: Op, r: Reply, s': State)
    requires Sound(cfg) && Inv(cfg, s) && Next(cfg, s, op, r, s')
    ensures Inv(cfg, s') <==> !Strands(cfg, s, op)
  {
    hide Inv, AllocateStep, CloudpipeStep, DeallocateStep, LowestFree, Range, UsersNet, Sound;
    match op
    case Allocate(u, mac) => AllocateKeeps(cfg, s, u, mac, r, s');
    case Cloudpipe(u, mac) => CloudpipeKeeps(cfg, s, u, mac, r, s');
    case Deallocate(a) => DeallocateKeeps(cfg, s, a, r, s');
    case Restart => RestartKeeps(cfg, s);
  }

  /** None of the first `k` operations is a stranding one. */
  ghost predicate Unstranded(cfg: Config, run: Run, k: nat)
    requires k <= |run.ops| < |run.states|
  {
    forall i | 0 <= i < k :: !Strands(cfg, run.states[i], run.ops[i])
  }

  ghost predicate RightUpTo(cfg: Config, run: Run, k: nat)
    requires k < |run.states|
  {
    forall i | 0 <= i <= k :: Inv(cfg, run.states[i])
  }

  /** In every run the stored networks stay the ones in memory exactly until an operation strands a vlan. */
  lemma {:induction false} RunKeeps(cfg: Config, run: Run, k: nat)
    requires Sound(cfg) && IsRun(cfg, run) && k < |run.states|
    ensures RightUpTo(cfg, run, k) <==> Unstranded(cfg, run, k)
  {
    hide Inv, Next, Strands, Sound;
    if k == 0 {
      assert Inv(cfg, EMPTY) by { EmptyRight(cfg); }
    } else {
      RunKeeps(cfg, run, k - 1);
      assert Next(cfg, run.states[k - 1], run.ops[k - 1], run.replies[k - 1], run.states[k - 1 + 1]);
      if RightUpTo(cfg, run, k - 1) {
        StepKeeps(cfg, run.states[k - 1], run.ops[k - 1], run.replies[k - 1], run.states[k]);
      }
    }
  }

  lemma EmptyRight(cfg: Config)
    ensures Inv(cfg, EMPTY)
  {
  }

  /** An address held stays with its holder through every step but its own deallocation. */
  lemma HeldStays(cfg: Config, s: State, op: Op, r: Reply, s': State, u: User, a: nat)
    requires Sound(cfg) && Inv(cfg, s) && Next(cfg, s, op, r, s') && !Strands(cfg, s, op)
    requires Held(s, u, a) && op != Deallocate(a)
    ensures Held(s', u, a)
  {
    hide Inv, AllocateStep, CloudpipeStep, DeallocateStep, LowestFree, Range, UsersNet, Sound;
    match op
    case Allocate(w, mac) => AllocateKeeps(cfg, s, w, mac, r, s');
    case Cloudpipe(w, mac) => CloudpipeKeeps(cfg, s, w, mac, r, s');
    case Deallocate(b) => DeallocateKeeps(cfg, s, b, r, s');
    case Restart => RestartKeeps(cfg, s);
  }

  lemma {:induction false} HeldThrough(cfg: Config, run: Run, j: nat, k: nat, u: User, a: nat)
    requires Sound(cfg) && IsRun(cfg, run) && j <= k < |run.states| && Unstranded(cfg, run, k)
    requires Held(run.states[j], u, a) && forall i :: j <= i < k ==> run.ops[i] != Deallocate(a)
    ensures Held(run.states[k], u, a)
    decreases k
  {
    hide Inv, Next, Strands, Sound, Held;
    if j < k {
      HeldThrough(cfg, run, j, k - 1, u, a);
      RunKeeps(cfg, run, k - 1);
      assert Inv(cfg, run.states[k - 1]);
      assert Next(cfg, run.states[k - 1], run.ops[k - 1], run.replies[k - 1], run.states[k - 1 + 1]);
      HeldStays(cfg, run.states[k - 1], run.ops[k - 1], run.replies[k - 1], run.states[k], u, a);
    }
  }

  // ---------- no allocation from networks of four addresses ----------

  ghost predicate Sized(cfg: Config, nets: map<User, Record>) {
    forall u | u in nets :: nets[u].subnet.Len() == cfg.netsize
  }

  ghost predicate AllSized(cfg: Config, s: State) { Sized(cfg, s.nets) && Sized(cfg, s.store.records) }

  lemma UsersNetSized(cfg: Config, s: State, u: User)
    requires Sound(cfg) && AllSized(cfg, s)
    ensures AllSized(cfg, UsersNet(cfg, s, u).state)
  {
    hide Subnet, Sound;
    var vlan := NextVlan(cfg.start, cfg.end, s.vlanpool);
    if vlan.Some? {
      assert cfg.start in s.vlanpool + {cfg.start};
      SubnetIs(cfg, vlan.value);
    }
  }

  lemma SavesSized(cfg: Config, s: State, s': State, done: Reply, r: Reply)
    requires AllSized(cfg, s) && SavesAs(s, s', done, r)
    ensures AllSized(cfg, s')
  {
    var error :| Saves(s, s', error) && r == Reported(error, done);
  }

  lemma DeallocateSized(cfg: Config, s: State, a: nat, r: Reply, s': State)
    requires AllSized(cfg, s) && DeallocateStep(s, a, r, s')
    ensures AllSized(cfg, s')
  {
    hide SavesAs;
    var visited, holder: Option<User> :| DeallocateVia(s, a, visited, holder, r, s');
    var s1 := Reloaded(s, visited);
    assert AllSized(cfg, s1);
    if holder.Some? && a in s1.nets[holder.value].hosts {
      SavesSized(cfg, WithoutHost(s1, holder.value, a), s', Done, r);
    }
  }

  /** All networks have the size configured, after every step, and those of four addresses give none. */
  lemma StepSized(cfg: Config, s: State, op: Op, r: Reply, s': State)
    requires Sound(cfg) && AllSized(cfg, s) && Next(cfg, s, op, r, s')
    ensures AllSized(cfg, s') && (cfg.netsize == 4 && op.Allocate? ==> !r.Address?)
  {
    hide UsersNet, SavesAs, Sound, DeallocateStep;
    match op {
      case Allocate(u, mac) =>
        UsersNetSized(cfg, s, u);
        var f := UsersNet(cfg, s, u);
        if f.error == None {
          var net := f.state.nets[u];
          var a := FirstFree(net.subnet, net.hosts.Keys, 3);
          if a.Some? { SavesSized(cfg, WithHost(f.state, u, a.value, mac), s', Address(a.value), r); }
        }
      case Cloudpipe(u, mac) =>
        UsersNetSized(cfg, s, u);
        var f := UsersNet(cfg, s, u);
        if f.error == None {
          var a := f.state.nets[u].subnet.ip + 2;
          SavesSized(cfg, WithHost(f.state, u, a, mac), s', Address(a), r);
        }
      case Deallocate(a) => DeallocateSized(cfg, s, a, r, s');
      case Restart =>
    }
  }

  lemma {:induction false} RunSized(cfg: Config, run: Run, k: nat)
    requires Sound(cfg) && IsRun(cfg, run) && k < |run.states|
    ensures AllSized(cfg, run.states[k])
  {
    hide Next, Sound;
    if k > 0 {
      RunSized(cfg, run, k - 1);
      assert Next(cfg, run.states[k - 1], run.ops[k - 1], run.replies[k - 1], run.states[k - 1 + 1]);
      StepSized(cfg, run.states[k - 1], run.ops[k - 1], run.replies[k - 1], run.states[k]);
    }
  }

  /**
    In every run, restarts included: between giving out an address and taking it back, no allocation
    gives it out again.
   */
  lemma NeverReissued(cfg: Config, run: Run, j: nat, k: nat, u: User, a: nat)
    requires Sound(cfg) && IsRun(cfg, run) && j <= k < |run.ops|
    requires Held(run.states[j], u, a) && forall i :: j <= i < k ==> run.ops[i] != Deallocate(a)
    ensures run.ops[k].Allocate? ==> run.replies[k] != Address(a)
  {
    hide AllSized, Next, Inv, Held, Sound, GivenTo;
    if cfg.netsize == 4 {
      RunSized(cfg, run, k);
      StepSized(cfg, run.states[k], run.ops[k], run.replies[k], run.states[k + 1]);
    } else {
      assert Unstranded(cfg, run, k);
      HeldThrough(cfg, run, j, k, u, a);
      RunKeeps(cfg, run, k);
      assert Inv(cfg, run.states[k]);
      if run.ops[k].Allocate? && run.replies[k] == Address(a) {
        NotReissued(cfg, run.states[k], run.ops[k], run.states[k + 1], u, a);
      }
    }
  }

  /** Nobody is given what somebody holds. */
  lemma NotReissued(cfg: Config, s: State, op: Op, s': State, u: User, a: nat)
    requires Sound(cfg) && Inv(cfg, s) && op.Allocate? && Held(s, u, a) && !Strands(cfg, s, op)
    ensures !Next(cfg, s, op, Address(a), s')
  {
    hide AllocateStep;
    if Next(cfg, s, op, Address(a), s') {
      AllocateKeeps(cfg, s, op.user, op.mac, Address(a), s');
      HeldStays(cfg, s, op, Address(a), s', u, a);
      assert Inv(cfg, s') && Held(s', op.user, a);
      HeldOnce(cfg, s', u, op.user, a);
    }
  }

  /** Users' networks have different vlans and share no address. */
  ghost predicate Separate(nets: map<User, Record>) {
    forall u, w | u in nets && w in nets && u != w ::
      nets[u].vlan != nets[w].vlan && Overlaps(nets[u].subnet, nets[w].subnet) == 0
  }

  lemma InvSeparates(cfg: Config, s: State)
    requires Sound(cfg) && Inv(cfg, s)
    ensures Separate(s.store.records) && Separate(s.nets)
  {
    forall u, w | u in s.nets && w in s.nets && u != w
      ensures s.nets[u].vlan != s.nets[w].vlan && Overlaps(s.nets[u].subnet, s.nets[w].subnet) == 0
    {
      NetworksApart(cfg, s, u, w);
    }
  }

  // ---------- networks of four addresses ----------

  /** With four addresses nothing can be allocated, and the failure leaves the new vlan unsaved. */
  lemma FirstUser(cfg: Config, s: State, u: User)
    requires Sound(cfg) && cfg.netsize == 4 && u in cfg.users && u !in s.store.records
    requires s.vlanpool == {} && cfg.start + 1 != cfg.end && cfg.pool.Len() >= 8
    ensures Subnet(cfg, cfg.start + 1).Some?
    ensures UsersNet(cfg, s, u).error == None
    ensures AllocateStep(cfg, s, u, "", Failed(NoMoreAddresses), UsersNet(cfg, s, u).state)
    ensures UsersNet(cfg, s, u).state.store
         == s.store.(records := s.store.records[u := Record(cfg.start + 1, Subnet(cfg, cfg.start + 1).value, map[])])
  {
    hide Subnet;
    SubnetIs(cfg, cfg.start + 1);
    assert {} + {cfg.start} == {cfg.start} && MaxOf({cfg.start}) == cfg.start;
    assert NextVlan(cfg.start, cfg.end, s.vlanpool) == Some(cfg.start + 1);
  }

  lemma NothingRebuilt(store: Saved)
    requires store.vlans == map[] && store.listed == {}
    ensures Rebuilt(store).vlanpool == {} && Rebuilt(store).nets == map[]
  {
  }

  /** Two users who ask for an address around a restart end up on one vlan and one subnet. */
  lemma SmallNetworksCollide(cfg: Config, u: User, w: User) returns (run: Run)
    requires Sound(cfg) && cfg.netsize == 4 && {u, w} <= cfg.users && u != w
    requires cfg.start + 1 != cfg.end && cfg.pool.Len() >= 8
    ensures IsRun(cfg, run) && run.ops == [Allocate(u, ""), Restart, Allocate(w, "")]
    ensures !Separate(run.states[3].store.records)
  {
    hide Subnet, UsersNet, Overlaps;
    FirstUser(cfg, EMPTY, u);
    var s1 := UsersNet(cfg, EMPTY, u).state;
    var s2 := Rebuilt(s1.store);
    NothingRebuilt(s1.store);
    FirstUser(cfg, s2, w);
    var s3 := UsersNet(cfg, s2, w).state;
    var failed := Failed(NoMoreAddresses);
    run := Run([EMPTY, s1, s2, s3], [Allocate(u, ""), Restart, Allocate(w, "")], [failed, Done, failed]);
    var records := s3.store.records;
    assert u in records && w in records && records[u].vlan == records[w].vlan;
  }

  /**
    Given two users and room for one network: networks stay separate in all runs exactly when they have more
    than four addresses.
   */
  lemma SeparateExactly(cfg: Config, u: User, w: User)
    requires Sound(cfg) && {u, w} <= cfg.users && u != w && cfg.start + 1 != cfg.end
             && cfg.pool.Len() >= 2 * cfg.netsize
    ensures (forall run, k: nat :: IsRun(cfg, run) && k < |run.states| ==> Separate(run.states[k].store.records))
            <==> cfg.netsize != 4
  {
    if cfg.netsize == 4 {
      var run := SmallNetworksCollide(cfg, u, w);
      assert IsRun(cfg, run) && 3 < |run.states|;
    } else {
      forall run, k: nat | IsRun(cfg, run) && k < |run.states| ensures Separate(run.states[k].store.records) {
        assert Unstranded(cfg, run, k);
        RunKeeps(cfg, run, k);
        InvSeparates(cfg, run.states[k]);
      }
    }
  }
}
