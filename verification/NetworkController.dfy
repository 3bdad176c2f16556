/** The classes of the network controller, step by step against the specification. */
module NetworkController {
  import opened Common
  import opened Cidr
  import opened Network
  import opened Allocation

  class PrivateNetwork {
    const vlan: int
    const subnet: Block
    var hosts: map<nat, Host>

    function Rec(): Record
      reads this
    {
      Record(vlan, subnet, hosts)
    }

    constructor (rec: Record)
      ensures Rec() == rec
    {
      vlan, subnet, hosts := rec.vlan, rec.subnet, rec.hosts;
    }

    /** The lowest free address of the range, or none when all are held. */
    method AllocateIp(user: User, mac: string) returns (address: Option<nat>)
      modifies this`hosts
      ensures address == FirstFree(subnet, old(hosts).Keys, 3)
      ensures hosts == if address == None then old(hosts)
              else old(hosts)[address.value := Host(address.value, user, mac)]
    {
      var i := 3;
      while i < subnet.Len() - 2
        invariant i >= 3 && hosts == old(hosts)
        invariant FirstFree(subnet, hosts.Keys, 3) == FirstFree(subnet, hosts.Keys, i)
      {
        var address := subnet.ip + i;
        if address !in hosts.Keys {
          hosts := hosts[address := Host(address, user, mac)];
          return Some(address);
        }
        i := i + 1;
      }
      address := None;
    }

    /** False when the address is not held, which the source raises as `AddressNotAllocated`. */
    method DeallocateIp(address: nat) returns (held: bool)
      modifies this`hosts
      ensures held == (address in old(hosts)) && hosts == old(hosts) - {address}
    {
      held := address in hosts.Keys;
      hosts := hosts - {address};
    }

    method GetVpnIp(user: User, mac: string) returns (address: nat)
      modifies this`hosts
      ensures address == subnet.ip + 2 && hosts == old(hosts)[address := Host(address, user, mac)]
    {
      address := subnet.ip + 2;
      hosts := hosts[address := Host(address, user, mac)];
    }
  }

  class VlanPool {
    const start: int
    const end: int
    var vlans: map<User, int>
    var vlanpool: map<int, User>

    constructor (start: int, end: int, vlans: map<User, int>)
      ensures this.start == start && this.end == end && this.vlans == vlans
      ensures vlanpool.Keys == vlans.Values
    {
      this.start, this.end, this.vlans, vlanpool := start, end, vlans, map[];
      new;
      var rest := vlans.Keys;
      while rest != {}
        invariant rest <= vlans.Keys && this.vlans == vlans
        invariant forall v :: v in vlanpool <==> exists u :: u in vlans.Keys - rest && vlans[u] == v
        decreases rest
      {
        var u :| u in rest;
        ghost var before := vlanpool;
        vlanpool := vlanpool[vlans[u] := u];
        assert vlans.Keys - (rest - {u}) == (vlans.Keys - rest) + {u};
        rest := rest - {u};
      }
      assert vlans.Keys - rest == vlans.Keys;
      assert forall v :: v in vlanpool.Keys <==> v in vlans.Values;
    }

    /** The vlan above all that were given out; none when that is `end`. */
    method Next(user: User) returns (vlan: Option<int>)
      modifies this
      ensures vlan == NextVlan(start, end, old(vlanpool).Keys)
      ensures vlan == None ==> vlans == old(vlans) && vlanpool == old(vlanpool)
      ensures vlan.Some? ==> vlans == old(vlans)[user := vlan.value] && vlanpool == old(vlanpool)[vlan.value := user]
    {
      var max, rest := start, vlanpool.Keys;
      while rest != {}
        invariant rest <= vlanpool.Keys && max in vlanpool.Keys + {start} && max >= start
        invariant forall v | v in vlanpool.Keys - rest :: v <= max
        decreases rest
      {
        assert (forall x :: x !in rest) ==> rest == {};
        var v :| v in rest;
        assert vlanpool.Keys - (rest - {v}) == (vlanpool.Keys - rest) + {v};
        if v > max { max := v; }
        rest := rest - {v};
      }
      assert vlanpool.Keys - rest == vlanpool.Keys;
      assert forall v | v in vlanpool.Keys + {start} :: v <= max;
      assert max == MaxOf(vlanpool.Keys + {start});
      if max + 1 == end { return None; }
      vlans := vlans[user := max + 1];
      vlanpool := vlanpool[max + 1 := user];
      vlan := Some(max + 1);
    }
  }

  /** The persistent store. */
  class Keeper {
    var vlans: map<User, int>
    var listed: set<User>
    var records: map<User, Record>

    function Content(): Saved
      reads this
    {
      Saved(vlans, listed, records)
    }

    constructor ()
      ensures Content() == EMPTY.store
    {
      vlans, listed, records := map[], {}, map[];
    }
  }

  /** None of the users' stored networks covers the address. */
  ghost predicate NoneCovers(s: Allocation.State, users: set<User>, address: nat) {
    users <= s.store.records.Keys && forall u | u in users :: !s.store.records[u].subnet.Covers(address)
  }

  /** The holder is the only one of those visited to cover the address; without one all were visited. */
  ghost predicate Searched(s: Allocation.State, holder: Option<User>, visited: set<User>, address: nat) {
    if holder == None then visited == s.nets.Keys && NoneCovers(s, visited, address)
    else
      var u := holder.value;
      && u in visited && visited <= s.nets.Keys && NoneCovers(s, visited - {u}, address)
      && u in s.store.records && s.store.records[u].subnet.Covers(address)
  }

  class Controller {
    const cfg: Config
    const vlanPool: VlanPool
    const keeper: Keeper
    var privateNets: map<User, PrivateNetwork>

    ghost function Nets(): map<User, Record>
      reads this, privateNets.Values
    {
      map u | u in privateNets :: privateNets[u].Rec()
    }

    ghost function State(): Allocation.State
      reads this, vlanPool, keeper, privateNets.Values
    {
      Allocation.State.State(vlanPool.vlans, vlanPool.vlanpool.Keys, Nets(), keeper.Content())
    }

    /** Networks belong to users and are all in the store. */
    ghost predicate Valid()
      reads this, vlanPool, keeper
    {
      && vlanPool.start == cfg.start && vlanPool.end == cfg.end
      && privateNets.Keys <= keeper.records.Keys && keeper.records.Keys <= cfg.users
      && keeper.listed <= keeper.records.Keys
    }

    /** The user's network is an object of its own. */
    ghost predicate Own(u: User)
      reads this
    {
      u in privateNets && forall w | w in privateNets && w != u :: privateNets[w] != privateNets[u]
    }

    /** Only the user's network differs from `nets`. */
    lemma NetsBut(nets: map<User, Record>, u: User)
      requires u in privateNets && privateNets.Keys == nets.Keys + {u}
      requires forall w | w in privateNets && w != u :: privateNets[w].Rec() == nets[w]
      ensures Nets() == nets[u := privateNets[u].Rec()]
    {
    }

    /** A start on what an earlier controller left in the store. */
    constructor (cfg: Config, keeper: Keeper)
      requires keeper.listed <= keeper.records.Keys <= cfg.users
      ensures Valid() && this.cfg == cfg && this.keeper == keeper && fresh(vlanPool)
      ensures State() == Rebuilt(keeper.Content()) && keeper.Content() == old(keeper.Content())
    {
      this.cfg, this.keeper, privateNets := cfg, keeper, map[];
      vlanPool := new VlanPool(cfg.start, cfg.end, keeper.vlans);
      new;
      hide Restrict, Own, Nets;
      NothingLoaded();
      var rest := keeper.listed;
      while rest != {}
        invariant rest <= keeper.listed && Valid() && keeper.Content() == old(keeper.Content())
        invariant vlanPool.vlans == keeper.vlans && vlanPool.vlanpool.Keys == keeper.vlans.Values
        invariant Nets() == Restrict(keeper.records, keeper.listed - rest)
        invariant fresh(vlanPool)
        decreases rest
      {
        var u :| u in rest;
        Load(u);
        RestrictMore(keeper.records, keeper.listed - rest, u);
        assert keeper.listed - (rest - {u}) == (keeper.listed - rest) + {u};
        rest := rest - {u};
      }
      assert keeper.listed - rest == keeper.listed;
    }

    lemma NothingLoaded()
      requires privateNets == map[]
      ensures Nets() == Restrict(keeper.records, keeper.listed - keeper.listed)
    {
    }

    static lemma RestrictMore(m: map<User, Record>, keys: set<User>, u: User)
      requires u in m
      ensures Restrict(m, keys)[u := m[u]] == Restrict(m, keys + {u})
    {
    }

    /** The user's network as the store has it, in a new object. */
    method Load(u: User)
      requires u in keeper.records
      modifies this`privateNets
      ensures u in privateNets && fresh(privateNets[u]) && privateNets[u].Rec() == keeper.records[u]
      ensures privateNets == old(privateNets)[u := privateNets[u]]
      ensures Own(u) && Nets() == old(Nets())[u := keeper.records[u]]
    {
      ghost var nets := Nets();
      var net := new PrivateNetwork(keeper.records[u]);
      privateNets := privateNets[u := net];
      NetsBut(nets, u);
    }

    /** The next vlan, given to the user. */
    method AssignVlan(u: User) returns (vlan: Option<int>)
      requires Valid()
      modifies vlanPool
      ensures Valid() && vlan == NextVlan(cfg.start, cfg.end, old(State()).vlanpool)
      ensures var s := old(State());
        State() == if vlan == None then s
                   else s.(vlans := s.vlans[u := vlan.value], vlanpool := s.vlanpool + {vlan.value})
    {
      hide NextVlan;
      vlan := vlanPool.Next(u);
      assert vlan.Some? ==> vlanPool.vlanpool.Keys == old(vlanPool.vlanpool.Keys) + {vlan.value};
    }

    /** A network without hosts, stored and loaded. */
    method StoreNew(u: User, rec: Record)
      requires Valid() && u in cfg.users
      modifies this`privateNets, keeper
      ensures Valid() && Own(u) && fresh(privateNets[u]) && privateNets == old(privateNets)[u := privateNets[u]]
      ensures var s := old(State());
        State() == s.(nets := s.nets[u := rec], store := s.store.(records := s.store.records[u := rec]))
    {
      keeper.records := keeper.records[u := rec];
      Load(u);
    }

    /** A network for a user the store does not know, on the next vlan. */
    method Make(u: User) returns (error: Option<Failure>)
      requires Valid() && u in cfg.users && u !in keeper.records
      modifies this`privateNets, vlanPool, keeper
      ensures Valid() && Found(error, State()) == UsersNet(cfg, old(State()), u)
      ensures error == None ==> Own(u) && fresh(privateNets[u]) && privateNets == old(privateNets)[u := privateNets[u]]
      ensures error != None ==> privateNets == old(privateNets)
    {
      hide Subnet, NextVlan, Valid, Own;
      var vlan := AssignVlan(u);
      if vlan == None { return Some(OutOfVlans); }
      var subnet := Subnet(cfg, vlan.value);
      if subnet == None { return Some(OutOfPool); }
      StoreNew(u, Record(vlan.value, subnet.value, map[]));
      error := None;
    }

    method GetUsersNetwork(u: User) returns (error: Option<Failure>)
      requires Valid()
      modifies this`privateNets, vlanPool, keeper
      ensures Valid() && Found(error, State()) == UsersNet(cfg, old(State()), u)
      ensures error == None ==> Own(u) && fresh(privateNets[u]) && privateNets == old(privateNets)[u := privateNets[u]]
      ensures error != None ==> privateNets == old(privateNets)
    {
      hide Subnet, NextVlan;
      if u !in cfg.users { return Some(NoUser); }
      if u in keeper.records {
        Load(u);
        error := None;
      } else {
        error := Make(u);
      }
    }

    static lemma WriteOne(before: map<User, Record>, nets: map<User, Record>, written: set<User>, u: User)
      requires u in nets
      ensures (before + Restrict(nets, written))[u := nets[u]] == before + Restrict(nets, written + {u})
    {
    }

    /** The loop of `_save`: records are written until a user without a vlan turns up. */
    method WriteRecords() returns (error: Option<Failure>, ghost written: set<User>)
      modifies keeper`records
      ensures error == None <==> privateNets.Keys <= vlanPool.vlans.Keys
      ensures error == None || error == Some(MissingVlan)
      ensures error == None ==> written == privateNets.Keys
      ensures written <= privateNets.Keys && keeper.records == old(keeper.records) + Restrict(Nets(), written)
    {
      ghost var before, nets := keeper.records, Nets();
      var rest := privateNets.Keys;
      written := {};
      assert before + Restrict(nets, {}) == before;
      while rest != {}
        invariant written + rest == privateNets.Keys && written <= vlanPool.vlans.Keys
        invariant keeper.records == before + Restrict(nets, written)
        decreases rest
      {
        var u :| u in rest;
        if u !in vlanPool.vlans { return Some(MissingVlan), written; }
        WriteOne(before, nets, written, u);
        keeper.records := keeper.records[u := privateNets[u].Rec()];
        written := written + {u};
        rest := rest - {u};
      }
      error := None;
    }

    static lemma RestrictAll(m: map<User, Record>)
      ensures Restrict(m, m.Keys) == m
    {
    }

    method Save() returns (error: Option<Failure>)
      requires Valid()
      modifies keeper
      ensures Valid() && Saves(old(State()), State(), error)
    {
      ghost var s := State();
      assert s.nets.Keys == privateNets.Keys;
      ghost var written;
      error, written := WriteRecords();
      if error != None {
        assert State() == s.(store := s.store.(records := s.store.records + Restrict(s.nets, written)));
        return;
      }
      RestrictAll(Nets());
      keeper.listed := privateNets.Keys;
      keeper.vlans := vlanPool.vlans;
      assert State() == s.(store := Saved(s.vlans, s.nets.Keys, s.store.records + s.nets));
    }

    /** The lowest free address of the user's network, recorded there and nowhere else. */
    method AllocateIn(u: User, mac: string) returns (address: Option<nat>)
      requires Own(u)
      modifies privateNets[u]
      ensures var net := old(State()).nets[u];
        address == FirstFree(net.subnet, net.hosts.Keys, 3)
        && State() == if address == None then old(State()) else WithHost(old(State()), u, address.value, mac)
    {
      hide FirstFree;
      ghost var nets := Nets();
      address := privateNets[u].AllocateIp(u, mac);
      NetsBut(nets, u);
      assert address == None ==> nets[u := nets[u]] == nets;
    }

    method GetVpnIpIn(u: User, mac: string) returns (address: nat)
      requires Own(u)
      modifies privateNets[u]
      ensures address == old(State()).nets[u].subnet.ip + 2 && State() == WithHost(old(State()), u, address, mac)
    {
      ghost var nets := Nets();
      address := privateNets[u].GetVpnIp(u, mac);
      NetsBut(nets, u);
    }

    /** The address is taken from the user's network and from nowhere else. */
    method DeallocateIn(u: User, address: nat) returns (held: bool)
      requires Own(u)
      modifies privateNets[u]
      ensures held == (address in old(State()).nets[u].hosts)
      ensures State() == if held then WithoutHost(old(State()), u, address) else old(State())
    {
      ghost var nets := Nets();
      held := privateNets[u].DeallocateIp(address);
      NetsBut(nets, u);
      assert !held ==> nets[u].hosts - {address} == nets[u].hosts && nets[u := nets[u]] == nets;
    }

    method AllocateAddress(u: User, mac: string) returns (r: Reply)
      requires Valid()
      modifies this, vlanPool, keeper
      ensures Valid() && Next(cfg, old(State()), Allocate(u, mac), r, State())
    {
      hide UsersNet, Saves, FirstFree, Valid, State, WithHost, Own;
      var error := GetUsersNetwork(u);
      if error != None { return Failed(error.value); }
      var address := AllocateIn(u, mac);
      if address == None { return Failed(NoMoreAddresses); }
      error := Save();
      r := Reported(error, Address(address.value));
    }

    method GetCloudpipeAddress(u: User, mac: string) returns (r: Reply)
      requires Valid()
      modifies this, vlanPool, keeper
      ensures Valid() && Next(cfg, old(State()), Cloudpipe(u, mac), r, State())
    {
      hide UsersNet, Saves, Valid, State, WithHost, Own;
      var error := GetUsersNetwork(u);
      if error != None { return Failed(error.value); }
      var address := GetVpnIpIn(u, mac);
      error := Save();
      r := Reported(error, Address(address));
    }

    static lemma ReloadOne(cfg: Config, s: Allocation.State, visited: set<User>, u: User)
      requires u in s.nets && u in s.store.records && u in cfg.users
      ensures UsersNet(cfg, Reloaded(s, visited), u) == Found(None, Reloaded(s, visited + {u}))
      ensures Reloaded(s, visited + {u}).nets[u] == s.store.records[u]
    {
      assert Reloaded(s, visited).nets[u := s.store.records[u]] == Reloaded(s, visited + {u}).nets;
    }

    /** One network is loaded again and compared with the address. */
    method Visit(u: User, address: nat, ghost s: Allocation.State, ghost visited: set<User>) returns (covers: bool)
      requires Valid() && State() == Reloaded(s, visited) && u in s.nets && u in s.store.records && u in cfg.users
      modifies this`privateNets, vlanPool, keeper
      ensures Valid() && State() == Reloaded(s, visited + {u})
      ensures covers <==> s.store.records[u].subnet.Covers(address)
    {
      hide UsersNet, Reloaded, Valid, Own, NextVlan;
      ReloadOne(cfg, s, visited, u);
      var error := GetUsersNetwork(u);
      var net := privateNets[u];
      assert State().nets[u] == net.Rec();
      covers := net.subnet.ip <= address < net.subnet.ip + net.subnet.Len();
    }

    lemma Stored()
      requires Valid()
      ensures State().nets.Keys == privateNets.Keys <= State().store.records.Keys <= cfg.users
    {
    }

    /** The networks are searched, in any order, until one covers the address. */
    method Search(address: nat) returns (holder: Option<User>, ghost visited: set<User>)
      requires Valid()
      modifies this`privateNets, vlanPool, keeper
      ensures Valid() && State() == Reloaded(old(State()), visited) && Searched(old(State()), holder, visited, address)
    {
      hide UsersNet, Reloaded, State, Valid;
      ghost var s := State();
      Stored();
      var rest := privateNets.Keys;
      visited := {};
      ReloadNone(s);
      while rest != {}
        invariant Valid() && State() == Reloaded(s, visited)
        invariant visited + rest == s.nets.Keys && NoneCovers(s, visited, address)
        decreases rest
      {
        var u :| u in rest;
        var covers := Visit(u, address, s, visited);
        if covers {
          assert (visited + {u}) - {u} <= visited;
          return Some(u), visited + {u};
        }
        visited := visited + {u};
        rest := rest - {u};
      }
      holder := None;
    }

    /** The branch for private addresses. */
    method DeallocateAddress(address: nat) returns (r: Reply)
      requires Valid()
      modifies this, vlanPool, keeper
      ensures Valid() && Next(cfg, old(State()), Deallocate(address), r, State())
    {
      hide UsersNet, Reloaded, Released, Next, State, Valid;
      ghost var s := State();
      Stored();
      ghost var visited;
      var holder;
      holder, visited := Search(address);
      if holder == None {
        r := Failed(NotAllocated);
        FoundNowhere(cfg, s, address, visited);
      } else {
        var u := holder.value;
        ReloadOne(cfg, s, visited, u);
        assert visited + {u} == visited;
        r := Release(u, address);
        FoundIn(cfg, s, address, visited, u, r, State());
      }
    }

    static lemma ReloadNone(s: Allocation.State)
      ensures Reloaded(s, {}) == s
    {
      assert Reloaded(s, {}).nets == s.nets;
    }

    static lemma FoundIn(cfg: Config, s: Allocation.State, a: nat, visited: set<User>, u: User, r: Reply,
                         s': Allocation.State)
      requires Searched(s, Some(u), visited, a) && s.nets.Keys <= s.store.records.Keys && u in Reloaded(s, visited).nets
      requires Released(Reloaded(s, visited), u, a, r, s')
      ensures Next(cfg, s, Deallocate(a), r, s')
    {
      assert DeallocateVia(s, a, visited, Some(u), r, s');
    }

    static lemma FoundNowhere(cfg: Config, s: Allocation.State, a: nat, visited: set<User>)
      requires Searched(s, None, visited, a) && s.nets.Keys <= s.store.records.Keys
      ensures Next(cfg, s, Deallocate(a), Failed(NotAllocated), Reloaded(s, visited))
    {
      assert DeallocateVia(s, a, visited, None, Failed(NotAllocated), Reloaded(s, visited));
    }

    /** The address is taken from the network, if it is held there, and the rest is saved. */
    method Release(u: User, address: nat) returns (r: Reply)
      requires Valid() && u in State().nets
      requires UsersNet(cfg, State(), u) == Found(None, State())
      modifies this, vlanPool, keeper
      ensures Valid() && Released(old(State()), u, address, r, State())
    {
      hide UsersNet, Saves, State, WithoutHost, Valid;
      var error := GetUsersNetwork(u);
      var held := DeallocateIn(u, address);
      if held {
        error := Save();
        r := Reported(error, Done);
      } else {
        r := Failed(NotAllocated);
      }
    }
  }
}
