/** The loops of `intToIp`, `strCompressed` and `_parseAddressIPv6`, against what the text should be. */
module IpPrinter {
  import opened Common
  import opened Bits
  import opened Numerals
  import opened IpText

  // ---------- intToIp ----------

  /** Every part followed by a dot. */
  function Dots(parts: seq<string>): string {
    if parts == [] then "" else parts[0] + "." + Dots(parts[1..])
  }

  /** Every part preceded by a colon. */
  function Colons(parts: seq<string>): string {
    if parts == [] then "" else ":" + parts[0] + Colons(parts[1..])
  }

  lemma {:induction false} DotsJoin(parts: seq<string>)
    requires parts != []
    ensures Dots(parts) == Join(parts, '.') + "."
    decreases |parts|
  {
    if |parts| == 1 {
      assert parts[0] + "." + "" == parts[0] + ".";
    } else {
      DotsJoin(parts[1..]);
      assert parts[0] + "." + (Join(parts[1..], '.') + ".") == parts[0] + "." + Join(parts[1..], '.') + ".";
    }
  }

  lemma {:induction false} ColonsJoin(parts: seq<string>)
    requires parts != []
    ensures Colons(parts) == ":" + Join(parts, ':')
    decreases |parts|
  {
    if |parts| == 1 {
      assert ":" + parts[0] + "" == ":" + parts[0];
    } else {
      ColonsJoin(parts[1..]);
      assert ":" + parts[0] + (":" + Join(parts[1..], ':')) == ":" + (parts[0] + ":" + Join(parts[1..], ':'));
    }
  }

  lemma DotsPrepend(value: nat, rest: seq<nat>)
    ensures Dots(Spelled([value] + rest, 10)) == Digits(value, 10) + "." + Dots(Spelled(rest, 10))
  {
    assert Spelled([value] + rest, 10)[1..] == Spelled(rest, 10);
  }

  /** `intToIp(ip, 4)`: octets are taken from the low end and put in front. */
  method DottedLoop(n: nat) returns (text: string)
    requires n < SPACE4
    ensures text == DottedText(n)
  {
    var ret, ip, l := "", n, 0;
    ghost var done: seq<nat> := [];
    while l < 4
      invariant 0 <= l <= 4
      invariant OctetsOf(n, 4) == OctetsOf(ip, 4 - l) + done
      invariant ret == Dots(Spelled(done, 10))
    {
      AndLowMask(ip, 8);
      Pow16Is();
      DotsPrepend(ip % 256, done);
      ret := Digits(And(ip, 0xff), 10) + "." + ret;
      assert OctetsOf(ip, 4 - l) + done == OctetsOf(ip / 256, 3 - l) + ([ip % 256] + done);
      done := [ip % 256] + done;
      ip := Shr(ip, 8);
      l := l + 1;
    }
    assert done == OctetsOf(n, 4);
    DotsJoin(Spelled(done, 10));
    text := ret[..|ret| - 1];
  }

  lemma QuadsAre(l: string, n: nat, k: nat)
    requires n < SPACE6 && l == Zeros(32) + Digits(n, 16) && k < 8
    ensures |l| >= 32 && l[|l| - 4 * (8 - k)..|l| - 4 * (7 - k)] == Quads(Padded(n))[k]
  {
    var d := Digits(n, 16);
    PowFacts();
    DigitsLength(n, 16, 32);
    assert l == Zeros(|d|) + Padded(n) by {
      assert Zeros(32) == Zeros(|d|) + Zeros(32 - |d|);
    }
  }

  /** The text built from the last `x` digits of `l`, `k` groups of them already closed. */
  ghost predicate Built(ret: string, l: string, q: seq<string>, x: nat, k: nat) {
    x <= |l| && 4 * k <= x && k <= |q| && ret == l[|l| - x..|l| - 4 * k] + Colons(q[|q| - k..])
  }

  lemma NoneClosed(l: string, q: seq<string>)
    ensures Built("", l, q, 0, 0)
  {
    assert q[|q|..] == [];
  }

  lemma AllClosed(ret: string, l: string, q: seq<string>)
    requires |q| == 8 && Built(ret, l, q, 32, 8)
    ensures ret == ":" + Join(q, ':')
  {
    assert q[0..] == q;
    ColonsJoin(q);
  }

  lemma TakeDigit(ret: string, l: string, q: seq<string>, x: nat, k: nat)
    requires Built(ret, l, q, x, k) && x < |l|
    ensures Built([l[|l| - x - 1]] + ret, l, q, x + 1, k)
  {
  }

  lemma CloseGroup(ret: string, l: string, q: seq<string>, k: nat)
    requires Built(ret, l, q, 4 * k + 4, k) && |q| == 8 && k < 8
    requires q[7 - k] == l[|l| - 4 * k - 4..|l| - 4 * k]
    ensures Built(":" + ret, l, q, 4 * k + 4, k + 1)
  {
    assert q[7 - k..] == [q[7 - k]] + q[8 - k..];
    assert ":" + ret == Colons(q[7 - k..]);
  }

  /** Digits are taken from the low end of `l`, a colon goes in front after every fourth. */
  method GroupDigits(l: string, ghost q: seq<string>) returns (ret: string)
    requires |l| >= 32 && |q| == 8
    requires forall k :: 0 <= k < 8 ==> q[k] == l[|l| - 4 * (8 - k)..|l| - 4 * (7 - k)]
    ensures ret == ":" + Join(q, ':')
  {
    hide Colons, Join;
    var x := 1;
    ret := "";
    ghost var k := 0;
    NoneClosed(l, q);
    while x < 33
      invariant 1 <= x <= 33 && 0 <= k <= 8 && 4 * k < x <= 4 * k + 4
      invariant Built(ret, l, q, x - 1, k)
    {
      TakeDigit(ret, l, q, x - 1, k);
      ret := [l[|l| - x]] + ret;
      if x % 4 == 0 {
        assert x == 4 * k + 4;
        CloseGroup(ret, l, q, k);
        ret := ":" + ret;
        k := k + 1;
      }
      x := x + 1;
    }
    AllClosed(ret, l, q);
  }

  /** `intToIp(ip, 6)` */
  method FullLoop(n: nat) returns (text: string)
    requires n < SPACE6
    ensures text == FullText(n)
  {
    var l := Zeros(32) + Digits(n, 16);
    forall k | 0 <= k < 8 ensures Quads(Padded(n))[k] == l[|l| - 4 * (8 - k)..|l| - 4 * (7 - k)] {
      QuadsAre(l, n, k);
    }
    var ret := GroupDigits(l, Quads(Padded(n)));
    text := ret[1..];
  }

  /** `intToIp`; none is its `ValueError`. */
  method IntToIp(ip: int, version: int) returns (text: Option<string>)
    ensures text.Some? <==> 0 <= ip && ((version == 4 && ip < SPACE4) || (version == 6 && ip < SPACE6))
    ensures text.Some? ==> ParseAddress(text.value) == Some(Address(ip, version))
    ensures text.Some? ==> text.value == if version == 4 then DottedText(ip) else FullText(ip)
  {
    if ip < 0 {
      return None;
    } else if version == 4 {
      if ip > 0xffff_ffff { return None; }
      var s := DottedLoop(ip);
      DottedRoundTrip(ip);
      return Some(s);
    } else if version == 6 {
      if ip > 0xffff_ffff_ffff_ffff_ffff_ffff_ffff_ffff { return None; }
      var s := FullLoop(ip);
      FullRoundTrip(ip);
      return Some(s);
    } else {
      return None;
    }
  }

  // ---------- strCompressed ----------

  function HexValues(parts: seq<string>): seq<nat> { seq(|parts|, i requires 0 <= i < |parts| => Val(parts[i], 16)) }

  method ZeroRuns(h: seq<nat>) returns (z: seq<nat>)
    ensures z == FollowingZeros(h)
  {
    z := seq(|h|, _ => 0);
    for i := 0 to |h|
      invariant |z| == |h| && forall j :: 0 <= j < i ==> z[j] == CountFollowingZeros(h[j..])
    {
      z := z[i := CountFollowingZeros(h[i..])];
    }
  }

  lemma ZeroItemAt(h: seq<nat>, p: nat, d: nat)
    requires p < |h| && d <= CountFollowingZeros(h[p..])
    ensures (p + d < |h| && Digits(h[p + d], 16) == "0") <==> d < CountFollowingZeros(h[p..])
  {
    if p + d < |h| {
      ZeroDigits(h[p + d], 16);
      assert h[p..][d] == h[p + d];
    }
  }

  /** Drop the run of `"0"` items at `p`. */
  method DeleteZeros(h: seq<nat>, p: nat) returns (items: seq<string>)
    requires p < |h|
    ensures items == Spelled(h[..p], 16) + Spelled(h[p + CountFollowingZeros(h[p..])..], 16)
  {
    hide CountFollowingZeros, Digits;
    ghost var r := CountFollowingZeros(h[p..]);
    items := Spelled(h, 16);
    ghost var d := 0;
    ZeroItemAt(h, p, 0);
    while p < |items| && items[p] == "0"
      invariant d <= r && items == Spelled(h[..p], 16) + Spelled(h[p + d..], 16)
      invariant (p < |items| && items[p] == "0") <==> d < r
      decreases |items|
    {
      items := items[..p] + items[p + 1..];
      d := d + 1;
      ZeroItemAt(h, p, d);
    }
  }

  /** Empty items around the gap turn into `::` when joined. */
  lemma GapJoins(left: seq<string>, right: seq<string>)
    ensures var mid := left + [""] + (if right == [] then [""] else right);
      Join(if left == [] then [""] + mid else mid, ':') == Join(left, ':') + "::" + Join(right, ':')
  {
    var back := if right == [] then [""] else right;
    var mid := left + [""] + back;
    assert Join(back, ':') == Join(right, ':');
    assert ([""] + back)[1..] == back;
    assert Join([""] + back, ':') == ":" + Join(right, ':');
    if left == [] {
      assert mid == [""] + back;
      assert ([""] + mid)[1..] == mid;
    } else {
      assert mid == left + ([""] + back);
      JoinAppend(left, [""] + back, ':');
    }
  }

  /** Cut the zero run at `p` out and mark the gap. */
  method Elide(h: seq<nat>, p: nat) returns (text: string)
    requires p < |h| && h[p] == 0
    ensures text == ElidedText(h, p)
  {
    hide Join, Digits, CountFollowingZeros;
    var items := DeleteZeros(h, p);
    ghost var left, right := Spelled(h[..p], 16), Spelled(h[p + CountFollowingZeros(h[p..])..], 16);
    assert items[..p] == left && items[p..] == right;
    items := items[..p] + [""] + items[p..];
    if p + 1 >= |items| { items := items + [""]; }
    assert items == left + [""] + (if right == [] then [""] else right);
    if p == 0 { items := [""] + items; }
    GapJoins(left, right);
    text := Join(items, ':');
  }

  lemma HextetsRead(n: nat)
    requires n < SPACE6
    ensures HexValues(Split(FullText(n), ':')) == Hextets(n)
  {
    QuadsReadable(n);
    SplitJoin(Quads(Padded(n)), ':');
  }

  method StrCompressed(n: nat) returns (text: string)
    requires n < SPACE6
    ensures text == CompressedText(n)
    ensures ParseAddress(text) == Some(Address(n, 6))
  {
    hide ParseAddress, FullText, DottedText, Hextets, ElidedText, Split, Join;
    CompressedRoundTrip(n);
    if Shr(n, 32) == 0xffff {
      LowParts(n);
      var tail := DottedLoop(And(n, 0xffff_ffff));
      return "::ffff:" + tail;
    }
    var full := FullLoop(n);
    HextetsRead(n);
    var hextets := HexValues(Split(full, ':'));
    var zeros := ZeroRuns(hextets);
    var p := FirstMax(zeros);
    if zeros[p] > 1 {
      text := Elide(hextets, p);
    } else {
      text := Join(Spelled(hextets, 16), ':');
    }
  }

  // ---------- _parseAddressIPv6 ----------

  /** Cutting the text at colons; none is a `ValueError`. */
  method CutItems(text: string) returns (t: Option<Tokens>)
    ensures t == Tokenize(text, [], None)
  {
    var items: seq<string>, fill: Option<nat>, index := [], None, 0;
    assert text[0..] == text;
    while index < |text|
      invariant 0 <= index <= |text|
      invariant Tokenize(text, [], None) == Tokenize(text[index..], items, fill)
    {
      var rest := text[index..];
      if StartsWith(rest, "::") {
        if fill.Some? { return None; }
        assert rest[2..] == text[index + 2..];
        fill := Some(|items|);
        index := index + 2;
        continue;
      }
      var pos := Index(rest, ':');
      if pos == 0 { return None; }
      if pos < |rest| {
        assert rest[pos..] == text[index + pos..] && rest[pos + 1..] == text[index + pos + 1..];
        items := items + [rest[..pos]];
        index := if StartsWith(rest[pos..], "::") then index + pos else index + pos + 1;
        if index == |text| { return None; }
      } else {
        return Some(Tokens(items + [rest], fill));
      }
    }
    return Some(Tokens(items, fill));
  }

  /** Hextets are shifted in one by one; none at the first that is not one. */
  method FoldLoop(items: seq<string>) returns (v: Option<nat>)
    ensures v == FoldItems(items)
  {
    hide ParseInt;
    var value := 0;
    assert items[..0] == [];
    for i := 0 to |items|
      invariant FoldItems(items[..i]) == Some(value)
    {
      assert items[..i + 1][..i] == items[..i];
      var item := ParseInt(items[i], 16, false);
      if item.None? || item.value < 0 || item.value > 0xffff {
        FoldStops(items, i + 1);
        return None;
      }
      value := Shl(value, 16) + item.value;
    }
    assert items[..|items|] == items;
    return Some(value);
  }

  method ParseAddressIPv6(text: string) returns (v: Option<nat>)
    ensures v == ParseV6(text)
    ensures v.Some? ==> v.value < SPACE6
  {
    hide Tokenize, TailItems, Expand, FoldItems;
    V6Bound(text);
    var t := CutItems(text);
    if t.None? { return None; }
    var tail := TailItems(t.value);
    if tail.None? { return None; }
    var eight := Expand(tail.value, t.value.fill);
    if eight.None? { return None; }
    v := FoldLoop(eight.value);
  }

  /** One bad item makes the whole list bad. */
  lemma {:induction false} FoldStops(items: seq<string>, k: nat)
    requires k <= |items| && FoldItems(items[..k]).None?
    ensures FoldItems(items).None?
    decreases |items| - k
  {
    if k < |items| {
      assert items[..k + 1][..k] == items[..k];
      FoldStops(items, k + 1);
    } else {
      assert items[..k] == items;
    }
  }
}
