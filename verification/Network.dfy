/** Private networks: carving subnets from a pool, handing out their addresses, and the state kept in the store. */
module Network {
  import opened Common
  import opened Bits
  import opened Cidr
  import opened IpText

  type User = string

  datatype Host = Host(address: nat, user: User, mac: string)

  /** A private network as it is kept in memory and stored as `<user>-default`. */
  datatype Record = Record(vlan: int, subnet: Block, hosts: map<nat, Host>)

  datatype Failure = NoUser | OutOfVlans | OutOfPool | NoMoreAddresses | NotAllocated | MissingVlan

  // ---------- addresses of one network ----------

  function Interval(lo: nat, hi: nat): (r: set<nat>)
    ensures forall a: nat :: a in r <==> lo <= a < hi
    decreases hi
  {
    if hi <= lo then {} else Interval(lo, hi - 1) + {hi - 1}
  }

  lemma {:induction false} IntervalSize(lo: nat, hi: nat)
    requires lo <= hi
    ensures |Interval(lo, hi)| == hi - lo
    decreases hi
  {
    if lo < hi { IntervalSize(lo, hi - 1); }
  }

  /** The addresses `range()` yields: index 3 up to the third from the end. */
  function Range(subnet: Block): set<nat>
  {
    Interval(subnet.ip + 3, subnet.ip + subnet.Len() - Min(2, subnet.Len()))
  }

  /** From the fourth address of the network to the third from its end. */
  lemma RangeIndices(subnet: Block, a: nat)
    ensures a in Range(subnet) <==> subnet.ip + 3 <= a <= subnet.ip + subnet.Len() - 3
  {
    hide Pow2;
    if subnet.Len() < 2 { assert subnet.ip + 3 > subnet.ip + subnet.Len() - Min(2, subnet.Len()); }
  }

  /** A network of `n` addresses has `n - 5` to give out. */
  lemma RangeSize(subnet: Block)
    ensures |Range(subnet)| == if subnet.Len() <= 5 then 0 else subnet.Len() - 5
  {
    if subnet.Len() > 5 { IntervalSize(subnet.ip + 3, subnet.ip + subnet.Len() - 2); }
  }

  /** `allocate_ip` scans the range from index `i`; none is `NoMoreAddresses`. */
  function FirstFree(subnet: Block, held: set<nat>, i: nat): Option<nat>
    decreases subnet.Len() - i
  {
    if i >= subnet.Len() - 2 then None
    else if subnet.ip + i !in held then Some(subnet.ip + i)
    else FirstFree(subnet, held, i + 1)
  }

  /** The address found is the lowest free one; there is none exactly when the whole range is held. */
  lemma {:induction false} FirstFreeIsLowest(subnet: Block, held: set<nat>, i: nat)
    requires i >= 3
    requires forall b | b in Range(subnet) && b < subnet.ip + i :: b in held
    ensures FirstFree(subnet, held, i) == None <==> Range(subnet) <= held
    ensures FirstFree(subnet, held, i).Some? ==>
              var a := FirstFree(subnet, held, i).value;
              a in Range(subnet) && a !in held && forall b | b in Range(subnet) && b < a :: b in held
    decreases subnet.Len() - i
  {
    hide Pow2, Interval;
    if i < subnet.Len() - 2 {
      assert subnet.ip + i in Range(subnet);
      if subnet.ip + i in held { FirstFreeIsLowest(subnet, held, i + 1); }
    }
  }

  // ---------- subnets of the pool ----------

  /** The site's settings and its users. */
  datatype Config = Config(users: set<User>, start: int, end: int, netsize: nat, pool: Block)

  /** A network pool accepts only these sizes. */
  predicate SizeAllowed(n: nat) { n in [4, 8, 16, 32, 64, 128, 256, 512, 1024] }

  ghost predicate Sound(cfg: Config) {
    SizeAllowed(cfg.netsize) && cfg.pool.Valid() && cfg.pool.version == 4
  }

  /** `get_from_vlan` and the network built from its text; none is an `IndexError` or `ValueError`. */
  function Subnet(cfg: Config, vlan: int): Option<Block>
  {
    var first := (vlan - cfg.start) * cfg.netsize;
    var a, b := cfg.pool.GetItem(first), cfg.pool.GetItem(first + cfg.netsize - 1);
    if a.None? || b.None? then None else RangeNet(a.value, b.value)
  }

  lemma SizeIsPower(n: nat)
    requires SizeAllowed(n)
    ensures exists k :: 2 <= k <= 10 && n == Pow2(k)
  {
    assert Pow2(2) == 4 && Pow2(3) == 8 && Pow2(4) == 16 && Pow2(5) == 32 && Pow2(6) == 64 && Pow2(7) == 128;
    Pow16Is();
    assert Pow2(9) == 512 && Pow2(10) == 1024;
  }

  lemma MultipleOffset(base: nat, size: nat, k: nat, c: nat)
    requires size > 0 && c > 0 && base % (c * size) == 0
    ensures (base + k * size) % size == 0
  {
    var q := base / (c * size);
    assert base == q * (c * size);
    assert base + k * size == (q * c + k) * size;
    ModUnique(base + k * size, size, q * c + k, 0);
  }

  lemma Offset(d: nat, size: nat)
    requires d > 0
    ensures d * size >= size && (d + 1) * size == d * size + size
  {
  }

  /** The `vlan - start`-th block of the pool, where the pool still has one. */
  lemma SubnetIs(cfg: Config, vlan: int)
    requires Sound(cfg) && vlan > cfg.start
    ensures Subnet(cfg, vlan).Some? <==> (vlan - cfg.start + 1) * cfg.netsize <= cfg.pool.Len()
    ensures Subnet(cfg, vlan).Some? ==> IsBlock(cfg, Subnet(cfg, vlan).value, vlan - cfg.start)
  {
    hide Pow2, RangeNet, IsBlock;
    Offset(vlan - cfg.start, cfg.netsize);
    var first, last := (vlan - cfg.start) * cfg.netsize, (vlan - cfg.start) * cfg.netsize + cfg.netsize - 1;
    if last < cfg.pool.Len() {
      BlockAt(cfg, vlan - cfg.start, first);
      assert cfg.pool.GetItem(first) == Some(cfg.pool.ip + first);
      assert cfg.pool.GetItem(last) == Some(cfg.pool.ip + first + cfg.netsize - 1);
    }
  }

  /** The `d`-th block of `netsize` addresses in the pool. */
  ghost predicate IsBlock(cfg: Config, net: Net, d: nat) {
    && net.Valid() && net.version == 4 && net.Len() == cfg.netsize
    && net.ip == cfg.pool.ip + d * cfg.netsize
    && cfg.pool.prefix <= cfg.pool.Bits() && Contains(cfg.pool, net)
  }

  lemma BlockAt(cfg: Config, d: nat, first: nat)
    requires Sound(cfg) && first == d * cfg.netsize && first + cfg.netsize <= cfg.pool.Len()
    ensures RangeNet(cfg.pool.ip + first, cfg.pool.ip + first + cfg.netsize - 1).Some?
    ensures IsBlock(cfg, RangeNet(cfg.pool.ip + first, cfg.pool.ip + first + cfg.netsize - 1).value, d)
  {
    hide Pow2, RangeNet, SizeAllowed;
    SizeIsPower(cfg.netsize);
    var k :| 2 <= k <= 10 && cfg.netsize == Pow2(k);
    var lo, hi := cfg.pool.ip + first, cfg.pool.ip + first + cfg.netsize - 1;
    PoolTop(cfg.pool);
    BlockAligned(cfg.pool, cfg.netsize, d, k);
    assert AlignedBlock(lo, hi, k);
    RangeAccepted(lo, hi);
    RangeIs(lo, hi, k);
  }

  lemma BlockAligned(pool: Net, size: nat, d: nat, k: nat)
    requires pool.Valid() && pool.version == 4 && size == Pow2(k) && d * size + size <= pool.Len()
    ensures (pool.ip + d * size) % size == 0
  {
    hide Pow2;
    var p := 32 - pool.prefix;
    if p < k { Pow2Mono(p + 1, k); Doubled(p); }
    Pow2Add(p - k, k);
    MultipleOffset(pool.ip, size, d, Pow2(p - k));
  }

  lemma Doubled(n: nat)
    ensures Pow2(n + 1) == 2 * Pow2(n) > Pow2(n)
  {
  }

  lemma PoolTop(pool: Net)
    requires pool.Valid() && pool.version == 4
    ensures pool.ip + pool.Len() <= SPACE4
  {
    hide Pow2;
    var p := 32 - pool.prefix;
    Pow16Is();
    Pow2Add(pool.prefix, p);
    BlocksNest(0, SPACE4, pool.ip, pool.Len(), Pow2(pool.prefix));
  }

  lemma RangeIs(lo: nat, hi: nat, k: nat)
    requires RangeNet(lo, hi).Some? && AlignedBlock(lo, hi, k) && lo < SPACE4 && hi < SPACE4
    ensures RangeNet(lo, hi).value.ip == lo && RangeNet(lo, hi).value.Len() == Pow2(k)
            && RangeNet(lo, hi).value.version == 4
  {
  }

  lemma BlocksOrdered(d: nat, e: nat, size: nat)
    requires d < e
    ensures d * size + size <= e * size
  {
    assert (d + 1) * size <= e * size;
  }

  /** Different vlans get disjoint subnets. */
  lemma SubnetsApart(cfg: Config, v: int, w: int)
    requires Sound(cfg) && cfg.start < v < w && Subnet(cfg, v).Some? && Subnet(cfg, w).Some?
    ensures Subnet(cfg, v).value.Valid() && Subnet(cfg, w).value.Valid()
    ensures Overlaps(Subnet(cfg, v).value, Subnet(cfg, w).value) == 0
  {
    hide Pow2, Subnet, SizeAllowed;
    SubnetIs(cfg, v);
    SubnetIs(cfg, w);
    BlocksOrdered(v - cfg.start, w - cfg.start, cfg.netsize);
  }
}
