/** Networks as aligned blocks of addresses: prefixes, netmasks, ranges, membership and overlap. */
module Cidr {
  import opened Common
  import opened Bits
  import opened IpText
  import opened Numerals

  /** A network: first address, prefix length and version. */
  datatype Net = Net(ip: nat, prefix: nat, version: nat) {
    function Bits(): nat { if version == 4 then 32 else 128 }

    predicate WellFormed() {
      (version == 4 || version == 6) && prefix <= Bits()
    }

    /** `len()`: the number of addresses. */
    function Len(): nat
      requires prefix <= Bits()
    {
      Pow2(Bits() - prefix)
    }

    /** A block of addresses aligned on its own size, inside the address space. */
    ghost predicate Valid() {
      WellFormed() && ip % Len() == 0 && ip < Pow2(Bits())
    }

    function Broadcast(): nat
      requires prefix <= Bits()
    {
      ip + Len() - 1
    }

    ghost predicate Covers(x: int)
      requires prefix <= Bits()
    {
      ip <= x < ip + Len()
    }

    /** `self[key]`; none is an `IndexError`. */
    function GetItem(key: int): Option<nat>
      requires prefix <= Bits()
    {
      if key < 0 then if -key <= Len() then Some(ip + (Len() + key)) else None
      else if key >= Len() then None
      else Some(ip + key)
    }
  }

  type Block = n: Net | n.WellFormed() witness Net(0, 32, 4)

  /** `item in net` for an item that is a network itself. */
  predicate Contains(net: Net, item: Net)
    requires net.prefix <= net.Bits() && item.prefix <= item.Bits()
  {
    item.ip >= net.ip && item.ip < net.ip + net.Len() - item.Len() + 1
  }

  /** `overlaps`: 1, -1 or 0. */
  function Overlaps(net: Net, item: Net): int
    requires net.prefix <= net.Bits() && item.prefix <= item.Bits()
  {
    if item.ip >= net.ip && item.ip < net.ip + net.Len() then 1
    else if net.ip >= item.ip && net.ip < item.ip + item.Len() then -1
    else 0
  }

  // ---------- aligned blocks are nested or apart ----------

  lemma BlocksNest(p: nat, l: nat, q: nat, m: nat, c: nat)
    requires m > 0 && l > 0 && l == c * m && p % l == 0 && q % m == 0
    requires q < p + l && p < q + m
    ensures p <= q && q + m <= p + l
  {
    var i, j := q / m, c * (p / l);
    assert q == i * m;
    assert p == (p / l) * l;
    assert p == j * m;
    assert i * m < (j + c) * m && j * m < (i + 1) * m;
    MulLess(i, j + c, m);
    MulLess(j, i + 1, m);
    MulMost(j, i, m);
    MulMost(i + 1, j + c, m);
  }

  lemma MulLess(a: int, b: int, m: nat)
    requires a * m < b * m
    ensures a < b
  {
  }

  lemma MulMost(a: int, b: int, m: nat)
    requires a <= b
    ensures a * m <= b * m
  {
  }

  /** Two overlapping blocks, the second no larger: the second lies in the first. */
  lemma SmallerInside(a: Net, b: Net)
    requires a.Valid() && b.Valid() && b.Bits() - b.prefix <= a.Bits() - a.prefix
    requires b.ip < a.ip + a.Len() && a.ip < b.ip + b.Len()
    ensures Contains(a, b)
  {
    var i, j := a.Bits() - a.prefix, b.Bits() - b.prefix;
    Pow2Add(i - j, j);
    BlocksNest(a.ip, a.Len(), b.ip, b.Len(), Pow2(i - j));
  }

  /** Two valid networks overlap exactly when one contains the other, and the sign says which starts first. */
  lemma OverlapsIffNested(a: Net, b: Net)
    requires a.Valid() && b.Valid()
    ensures Overlaps(a, b) != 0 <==> Contains(a, b) || Contains(b, a)
    ensures Overlaps(a, b) == -1 <==> Contains(b, a) && b.ip < a.ip
    ensures Overlaps(a, b) == 1 <==> Contains(a, b) || (Contains(b, a) && a.ip == b.ip)
  {
    hide Pow2;
    if b.ip < a.ip + a.Len() && a.ip < b.ip + b.Len() {
      if b.Bits() - b.prefix <= a.Bits() - a.prefix { SmallerInside(a, b); } else { SmallerInside(b, a); }
    }
  }

  /** Overlap is about addresses: two networks overlap exactly when they share one. */
  lemma OverlapsIffShared(a: Net, b: Net)
    requires a.WellFormed() && b.WellFormed()
    ensures Overlaps(a, b) != 0 <==> exists x :: a.Covers(x) && b.Covers(x)
  {
    if Overlaps(a, b) == 1 {
      assert a.Covers(b.ip) && b.Covers(b.ip);
    } else if Overlaps(a, b) == -1 {
      assert a.Covers(a.ip) && b.Covers(a.ip);
    }
  }

  /** Containment of networks is inclusion of their addresses. */
  lemma ContainsIsInclusion(a: Net, b: Net)
    requires a.WellFormed() && b.WellFormed()
    ensures Contains(a, b) <==> forall x :: b.Covers(x) ==> a.Covers(x)
  {
    if forall x :: b.Covers(x) ==> a.Covers(x) {
      assert b.Covers(b.ip) && b.Covers(b.Broadcast());
      assert a.Covers(b.ip) && a.Covers(b.Broadcast());
    }
  }

  /** Indexing enumerates exactly the addresses covered; from the end with negative keys. */
  lemma ItemsAreAddresses(net: Net, key: int)
    requires net.WellFormed()
    ensures net.GetItem(key).Some? <==> 0 <= key + net.Len() && key < net.Len()
    ensures net.GetItem(key).Some? ==> net.Covers(net.GetItem(key).value)
    ensures 0 <= key < net.Len() ==> net.GetItem(key) == net.GetItem(key - net.Len()) == Some(net.ip + key)
    ensures net.GetItem(-1) == Some(net.Broadcast())
  {
  }

  // ---------- prefixes and masks ----------

  /** `_prefixlenToNetmask`; none is a `ValueError`, also that of a negative shift. */
  function PrefixToNetmask(prefix: int, bits: nat): Option<nat> {
    if prefix == 0 then Some(0)
    else if prefix < 0 || prefix > bits then None
    else Some(Shl(Shl(2, prefix - 1) - 1, bits - prefix))
  }

  /** All networks of one prefix length together make up the 2^32 or 2^128 addresses of their version. */
  lemma NetSizes(net: Block)
    ensures net.version == 4 ==> Pow2(net.prefix) * net.Len() == 0x1_0000_0000
    ensures net.version == 6 ==> Pow2(net.prefix) * net.Len() == 0x1_0000_0000_0000_0000_0000_0000_0000_0000
    ensures Pow2(8) == 0x100
  {
    hide Pow2;
    Pow16Is();
    Pow2Add(32, 32);
    Pow2Add(64, 64);
    Pow2Add(net.prefix, net.Bits() - net.prefix);
  }

  lemma NetmaskIs(prefix: nat, bits: nat)
    requires prefix <= bits
    ensures PrefixToNetmask(prefix, bits) == Some(OnesAbove(prefix, bits - prefix))
  {
    if prefix > 0 { assert Shl(2, prefix - 1) == Pow2(prefix); }
  }

  /** The end of the constructor: the address must be the first of its network. */
  function MakeNet(ip: nat, prefix: int, version: nat): (net: Option<Net>)
    ensures net.Some? ==> net.value.version == version && net.value.prefix <= net.value.Bits()
  {
    var mask := PrefixToNetmask(prefix, if version == 4 then 32 else 128);
    if mask.None? || And(ip, mask.value) != ip then None else Some(Net(ip, prefix, version))
  }

  /** `make_net=True`: the address is masked first. */
  function NetOf(ip: nat, prefix: int, version: nat): Option<Net> {
    var mask := PrefixToNetmask(prefix, if version == 4 then 32 else 128);
    if mask.None? then None else MakeNet(And(ip, mask.value), prefix, version)
  }

  /** A network is accepted exactly when its address is aligned on its size. */
  lemma MakeNetAccepts(ip: nat, prefix: int, version: nat)
    requires (version == 4 || version == 6) && ip < Pow2(if version == 4 then 32 else 128)
    ensures MakeNet(ip, prefix, version).Some? <==>
              0 <= prefix <= (if version == 4 then 32 else 128)
              && ip % Pow2((if version == 4 then 32 else 128) - prefix) == 0
    ensures MakeNet(ip, prefix, version).Some? ==> MakeNet(ip, prefix, version).value.Valid()
  {
    hide Pow2, And;
    var bits := if version == 4 then 32 else 128;
    if 0 <= prefix <= bits {
      NetmaskIs(prefix, bits);
      AndHighMask(ip, prefix, bits - prefix);
    }
  }

  /** Masking finds the one network of that prefix length that covers the address. */
  lemma NetOfCovers(ip: nat, prefix: nat, version: nat, other: Net)
    requires (version == 4 || version == 6) && ip < Pow2(if version == 4 then 32 else 128)
    requires prefix <= if version == 4 then 32 else 128
    ensures NetOf(ip, prefix, version).Some?
    ensures var net := NetOf(ip, prefix, version).value; net.Valid() && net.Covers(ip)
    ensures other.Valid() && other.version == version && other.prefix == prefix && other.Covers(ip)
            ==> other == NetOf(ip, prefix, version).value
  {
    hide Pow2, And;
    var bits := if version == 4 then 32 else 128;
    var size := Pow2(bits - prefix);
    NetmaskIs(prefix, bits);
    AndHighMask(ip, prefix, bits - prefix);
    var base := ip - ip % size;
    BaseAligned(ip, size);
    MakeNetAccepts(base, prefix, version);
    if other.Valid() && other.version == version && other.prefix == prefix && other.Covers(ip) {
      BlocksNest(base, size, other.ip, size, 1);
      BlocksNest(other.ip, size, base, size, 1);
    }
  }

  lemma BaseAligned(ip: nat, size: nat)
    requires size > 0
    ensures 0 <= ip - ip % size <= ip < ip - ip % size + size && (ip - ip % size) % size == 0
  {
    var q := ip / size;
    assert ip - ip % size == q * size;
    ModUnique(q * size, size, q, 0);
  }

  // ---------- counting bits ----------

  /** The number of binary digits. */
  function BitLength(n: nat): nat { if n == 0 then 0 else 1 + BitLength(n / 2) }

  function TrailingZeros(n: nat): nat { if n == 0 || n % 2 == 1 then 0 else 1 + TrailingZeros(n / 2) }

  /** `_count1Bits` */
  method Count1Bits(n: nat) returns (ret: nat)
    ensures ret == BitLength(n)
  {
    var num := n;
    ret := 0;
    while num > 0
      invariant ret + BitLength(num) == BitLength(n)
    {
      ShiftOne(num);
      num := Shr(num, 1);
      ret := ret + 1;
    }
  }

  /** `_count0Bits` */
  method Count0Bits(n: nat) returns (ret: nat)
    ensures ret == TrailingZeros(n)
  {
    var num := n;
    ret := 0;
    while num > 0
      invariant ret + TrailingZeros(num) == TrailingZeros(n)
    {
      ShiftOne(num);
      if And(num, 1) == 1 { break; }
      num := Shr(num, 1);
      ret := ret + 1;
    }
  }

  lemma ShiftOne(n: nat)
    ensures Shr(n, 1) == n / 2 && And(n, 1) == n % 2
  {
    assert Pow2(1) == 2;
    AndLowMask(n, 1);
  }

  lemma {:induction false} BitLengthIs(n: nat, k: nat)
    requires n < Pow2(k) && (k > 0 ==> n >= Pow2(k - 1))
    ensures BitLength(n) == k
    decreases k
  {
    if k > 0 { BitLengthIs(n / 2, k - 1); }
  }

  lemma {:induction false} BitLengthBound(n: nat)
    ensures n < Pow2(BitLength(n))
  {
    if n > 0 { BitLengthBound(n / 2); }
  }

  lemma {:induction false} ShortNumbers(n: nat, k: nat)
    requires n < Pow2(k)
    ensures BitLength(n) <= k
    decreases k
  {
    if n > 0 { ShortNumbers(n / 2, k - 1); }
  }

  // ---------- first-last notation ----------

  /** The network of `first-last`; none is a `ValueError`. */
  function RangeNet(first: nat, last: nat): (net: Option<Net>)
    ensures net.Some? ==> net.value.WellFormed() && net.value.version == 4
  {
    if last < first then None
    else
      var prefix := 32 - BitLength(last - first);
      var net := MakeNet(first, prefix, 4);
      if net.None? || prefix > 32 || prefix < 0 || net.value.Broadcast() != last then None else net
  }

  ghost predicate AlignedBlock(first: nat, last: nat, k: nat) {
    last - first + 1 == Pow2(k) && first % Pow2(k) == 0
  }

  /** Exactly the aligned power-of-two ranges are accepted, and the network covers exactly the range. */
  lemma RangeAccepted(first: nat, last: nat)
    requires first < SPACE4 && last < SPACE4
    ensures RangeNet(first, last).Some? <==> exists k :: AlignedBlock(first, last, k)
    ensures RangeNet(first, last).Some? ==>
              RangeNet(first, last).value.Valid()
              && forall x :: RangeNet(first, last).value.Covers(x) <==> first <= x <= last
  {
    hide Pow2, And, BitLength;
    Pow16Is();
    if last < first {
      assert forall k :: Pow2(k) > 0;
    } else {
      var size := last - first;
      var nb := BitLength(size);
      ShortNumbers(size, 32);
      MakeNetAccepts(first, 32 - nb, 4);
      if RangeNet(first, last).Some? { assert AlignedBlock(first, last, nb); }
      forall k | AlignedBlock(first, last, k) ensures k == nb { BlockLength(size, k); }
    }
  }

  lemma BlockLength(size: nat, k: nat)
    requires size + 1 == Pow2(k)
    ensures BitLength(size) == k
  {
    BitLengthIs(size, k);
  }

  /** The constructor on the two ends of a range. */
  method NetFromEnds(first: nat, last: nat) returns (net: Option<Net>)
    requires first < SPACE4 && last < SPACE4
    ensures net == RangeNet(first, last)
  {
    hide MakeNet, BitLength;
    if last < first { return None; }
    var netbits := Count1Bits(last - first);
    ShortBits(last - first);
    net := MakeNet(first, 32 - netbits, 4);
    if net.None? || net.value.Broadcast() != last { return None; }
  }

  ghost predicate IsV4(a: Option<Address>) { a.Some? && a.value.version == 4 }

  /** The constructor on a string with one `-`, between the ends of a range. */
  method IpFromRange(data: string) returns (net: Option<Net>)
    requires |Split(data, '-')| == 2
    ensures var a, b := ParseAddress(Split(data, '-')[0]), ParseAddress(Split(data, '-')[1]);
      && (IsV4(a) && IsV4(b) ==> 0 <= a.value.value && 0 <= b.value.value)
      && (net.Some? <==> IsV4(a) && IsV4(b) && exists k :: AlignedBlock(a.value.value, b.value.value, k))
      && (net.Some? ==> net.value.Valid() && net.value.version == 4)
      && (net.Some? ==> forall x :: net.value.Covers(x) <==> a.value.value <= x <= b.value.value)
  {
    hide ParseAddress, RangeNet, AlignedBlock, Split;
    var ends := Split(data, '-');
    SplitFree(data, '-');
    EndInRange(ends[0]);
    EndInRange(ends[1]);
    var a, b := ParseAddress(ends[0]), ParseAddress(ends[1]);
    if a.None? || a.value.version != 4 || b.None? || b.value.version != 4 { return None; }
    assert InRange(a.value) && InRange(b.value);
    RangeAccepted(a.value.value, b.value.value);
    net := NetFromEnds(a.value.value, b.value.value);
  }

  /** Text without a minus sign is no negative number. */
  lemma EndInRange(text: string)
    requires forall j :: 0 <= j < |text| ==> text[j] != '-'
    ensures ParseAddress(text).Some? ==> InRange(ParseAddress(text).value)
  {
    hide ParseAddress, ParseInt, Has;
    ParsedInRange(text);
    NoMinus(text, 10, true);
    NoMinus(text, 16, true);
    if StartsWith(text, "0x") { NoMinus(text[2..], 16, true); }
  }

  lemma ShortBits(n: nat)
    requires n < SPACE4
    ensures BitLength(n) <= 32
  {
    Pow16Is();
    ShortNumbers(n, 32);
  }

  // ---------- netmasks ----------

  predicate AllOnes(num: nat, bits: nat) { bits == 0 || (num % 2 == 1 && AllOnes(num / 2, bits - 1)) }

  /** The two loops of `_checkNetmask`: zeros are skipped, then only ones may follow. */
  predicate CheckMask(num: nat, bits: nat)
    decreases bits
  {
    if num % 2 == 0 && bits != 0 then CheckMask(num / 2, bits - 1) else AllOnes(num, bits)
  }

  /** `_checkNetmask`; false is its `ValueError`. */
  method CheckNetmask(netmask: nat, masklen: nat) returns (ok: bool)
    ensures ok == CheckMask(netmask, masklen)
  {
    var num, bits := netmask, masklen;
    ShiftOne(num);
    while And(num, 1) == 0 && bits != 0
      invariant And(num, 1) == num % 2 && CheckMask(netmask, masklen) == CheckMask(num, bits)
    {
      num := Shr(num, 1);
      ShiftOne(num);
      bits := bits - 1;
      if bits == 0 { break; }
    }
    while bits > 0
      invariant CheckMask(netmask, masklen) == AllOnes(num, bits)
    {
      ShiftOne(num);
      if And(num, 1) == 0 { return false; }
      num := Shr(num, 1);
      bits := bits - 1;
    }
    ok := true;
  }

  /** `_netmaskToPrefixlen`; none is a `ValueError`. */
  function NetmaskToPrefix(mask: nat): Option<int> {
    if CheckMask(mask, BitLength(mask)) then Some(BitLength(mask) - TrailingZeros(mask)) else None
  }

  method NetmaskToPrefixlen(netmask: nat) returns (prefix: Option<int>)
    ensures prefix == NetmaskToPrefix(netmask)
  {
    var netlen := Count0Bits(netmask);
    var masklen := Count1Bits(netmask);
    var ok := CheckNetmask(netmask, masklen);
    prefix := if ok then Some(masklen as int - netlen) else None;
  }

  lemma {:induction false} AllOnesIs(num: nat, bits: nat)
    requires num < Pow2(bits)
    ensures AllOnes(num, bits) <==> num == Pow2(bits) - 1
    decreases bits
  {
    if bits > 0 { AllOnesIs(num / 2, bits - 1); }
  }

  lemma {:induction false} MaskIsRun(mask: nat)
    requires CheckMask(mask, BitLength(mask))
    ensures TrailingZeros(mask) <= BitLength(mask)
    ensures mask == OnesAbove(BitLength(mask) - TrailingZeros(mask), TrailingZeros(mask))
    decreases mask
  {
    if mask == 0 {
    } else if mask % 2 == 0 {
      MaskIsRun(mask / 2);
      DoubleRun(BitLength(mask) - TrailingZeros(mask), TrailingZeros(mask / 2));
    } else {
      BitLengthBound(mask);
      AllOnesIs(mask, BitLength(mask));
      assert Pow2(0) == 1;
    }
  }

  lemma DoubleRun(a: nat, b: nat)
    ensures OnesAbove(a, b + 1) == 2 * OnesAbove(a, b)
  {
    assert (Pow2(a) - 1) * (2 * Pow2(b)) == 2 * ((Pow2(a) - 1) * Pow2(b));
  }

  lemma {:induction false} RunIsMask(a: nat, b: nat)
    requires a > 0
    ensures OnesAbove(a, b) > 0 && BitLength(OnesAbove(a, b)) == a + b && TrailingZeros(OnesAbove(a, b)) == b
    ensures CheckMask(OnesAbove(a, b), a + b)
    decreases b
  {
    if b > 0 {
      DoubleRun(a, b - 1);
      RunIsMask(a, b - 1);
      assert OnesAbove(a, b) / 2 == OnesAbove(a, b - 1);
    } else {
      var m := Pow2(a) - 1;
      assert Pow2(0) == 1 && OnesAbove(a, 0) == m;
      assert m % 2 == 1 by { assert Pow2(a) == 2 * Pow2(a - 1); }
      BitLengthIs(m, a);
      AllOnesIs(m, a);
    }
  }

  /** A mask is accepted exactly when it is one run of ones, wherever the run stands. */
  lemma NetmaskAccepted(mask: nat)
    ensures NetmaskToPrefix(mask).Some? <==> exists a: nat, b: nat :: mask == OnesAbove(a, b)
    ensures forall a: nat, b: nat | mask == OnesAbove(a, b) :: NetmaskToPrefix(mask) == Some(a)
  {
    hide BitLength, TrailingZeros, CheckMask, OnesAbove;
    if NetmaskToPrefix(mask).Some? { MaskIsRun(mask); }
    forall a: nat, b: nat | mask == OnesAbove(a, b) ensures NetmaskToPrefix(mask) == Some(a) {
      if a > 0 { RunIsMask(a, b); } else { NoOnes(b); }
    }
  }

  lemma NoOnes(b: nat)
    ensures OnesAbove(0, b) == 0 && NetmaskToPrefix(0) == Some(0)
  {
  }

  /** Prefix length to netmask and back. */
  lemma PrefixRoundTrip(prefix: nat, bits: nat)
    requires prefix <= bits
    ensures NetmaskToPrefix(PrefixToNetmask(prefix, bits).value) == Some(prefix)
  {
    hide NetmaskToPrefix;
    NetmaskIs(prefix, bits);
    NetmaskAccepted(OnesAbove(prefix, bits - prefix));
  }

  /** Netmask to prefix length and back returns the mask only when its run of ones starts at the top bit. */
  lemma NetmaskRoundTrip(mask: nat)
    requires mask < SPACE4 && NetmaskToPrefix(mask).Some?
    ensures NetmaskToPrefix(mask).value >= 0
    ensures PrefixToNetmask(NetmaskToPrefix(mask).value, 32) == Some(mask) <==> mask == 0 || mask >= 0x8000_0000
  {
    hide BitLength, TrailingZeros, CheckMask, OnesAbove, PrefixToNetmask;
    MaskIsRun(mask);
    var b := TrailingZeros(mask);
    var a := BitLength(mask) - b;
    ShortBits(mask);
    NetmaskIs(a, 32);
    Pow16Is();
    assert Pow2(31) == 0x8000_0000;
    if a == 0 {
      NoOnes(b);
      NoOnes(32);
    } else {
      RunIsMask(a, 32 - a);
      RunIsMask(a, b);
      TopBit(mask);
    }
  }

  lemma TopBit(mask: nat)
    requires mask < SPACE4
    ensures BitLength(mask) == 32 <==> mask >= 0x8000_0000
  {
    Pow16Is();
    assert Pow2(31) == 0x8000_0000;
    if mask >= 0x8000_0000 { BitLengthIs(mask, 32); } else { ShortNumbers(mask, 31); }
  }

  /** `0.255.255.0` is taken for a netmask of length 16, whose mask is `255.255.0.0`. */
  lemma NetmaskMisread()
    ensures NetmaskToPrefix(0x00ff_ff00) == Some(16) && PrefixToNetmask(16, 32) == Some(0xffff_0000)
  {
    Pow16Is();
    assert OnesAbove(16, 8) == 0x00ff_ff00;
    NetmaskAccepted(0x00ff_ff00);
    NetmaskIs(16, 32);
    assert OnesAbove(16, 16) == 0xffff_0000;
  }
}
