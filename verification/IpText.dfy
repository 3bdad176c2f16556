/** IP addresses as text: `parseAddress`, `intToIp` and `strCompressed`. */
module IpText {
  import opened Common
  import opened Bits
  import opened Numerals

  const SPACE4 := 0x1_0000_0000
  const SPACE6 := 0x1_0000_0000_0000_0000_0000_0000_0000_0000

  /** What `parseAddress` returns; its numerals may be negative. */
  datatype Address = Address(value: int, version: nat)

  predicate StartsWith(s: string, prefix: string) { prefix <= s }

  // ---------- printing: what each form looks like ----------

  function OctetsOf(n: nat, k: nat): (o: seq<nat>)
    ensures |o| == k
  {
    if k == 0 then [] else OctetsOf(n / 256, k - 1) + [n % 256]
  }

  function Spelled(values: seq<nat>, base: nat): (s: seq<string>)
    requires 2 <= base <= 16
    ensures |s| == |values|
  {
    seq(|values|, i requires 0 <= i < |values| => Digits(values[i], base))
  }

  /** `a.b.c.d`, most significant octet first. */
  function DottedText(n: nat): string { Join(Spelled(OctetsOf(n, 4), 10), '.') }

  lemma PowFacts()
    ensures Pow(16, 4) == 0x1_0000
    ensures Pow(16, 32) == SPACE6
    ensures Pow(256, 4) == SPACE4
  {
    PowAdd(16, 4, 4);
    PowAdd(16, 8, 8);
    PowAdd(16, 16, 16);
  }

  /** The hexadecimal numeral of `n`, zero-padded to 32 digits. */
  function Padded(n: nat): (s: string)
    requires n < SPACE6
    ensures |s| == 32
  {
    PowFacts();
    DigitsLength(n, 16, 32);
    Zeros(32 - |Digits(n, 16)|) + Digits(n, 16)
  }

  function Quads(s: string): (q: seq<string>)
    requires |s| == 32
    ensures |q| == 8
  {
    seq(8, i requires 0 <= i < 8 => s[4 * i..4 * i + 4])
  }

  /** Eight groups of four hexadecimal digits. */
  function FullText(n: nat): string
    requires n < SPACE6
  {
    Join(Quads(Padded(n)), ':')
  }

  function Hextets(n: nat): (h: seq<nat>)
    requires n < SPACE6
    ensures |h| == 8
  {
    seq(8, i requires 0 <= i < 8 => Val(Quads(Padded(n))[i], 16))
  }

  function NormalText(n: nat): string
    requires n < SPACE6
  {
    Join(Spelled(Hextets(n), 16), ':')
  }

  /** The length of the run of zeros that `hextets` starts with. */
  function CountFollowingZeros(hextets: seq<nat>): (r: nat)
    ensures r <= |hextets|
    ensures forall i :: 0 <= i < r ==> hextets[i] == 0
    ensures r < |hextets| ==> hextets[r] != 0
  {
    if hextets == [] then 0 else if hextets[0] != 0 then 0 else 1 + CountFollowingZeros(hextets[1..])
  }

  /** The zero run at `p`: no run is longer, and none of that length starts earlier. */
  ghost predicate FirstLongestRun(h: seq<nat>, p: nat) {
    && p < |h|
    && (forall i :: 0 <= i < |h| ==> CountFollowingZeros(h[i..]) <= CountFollowingZeros(h[p..]))
    && (forall i :: 0 <= i < p ==> CountFollowingZeros(h[i..]) < CountFollowingZeros(h[p..]))
  }

  /** The text with the zero run at `p` replaced by `::`. */
  function ElidedText(h: seq<nat>, p: nat): string
    requires p < |h|
  {
    Join(Spelled(h[..p], 16), ':') + "::" + Join(Spelled(h[p + CountFollowingZeros(h[p..])..], 16), ':')
  }

  // ---------- parsing ----------

  /** The parts of an address between colons, and where `::` stood among them. */
  datatype Tokens = Tokens(items: seq<string>, fill: Option<nat>)

  /** The reading loop of `_parseAddressIPv6`; none is its `ValueError`. */
  function Tokenize(text: string, items: seq<string>, fill: Option<nat>): Option<Tokens>
    decreases |text|
  {
    if text == "" then Some(Tokens(items, fill))
    else if StartsWith(text, "::") then
      if fill.Some? then None else Tokenize(text[2..], items, Some(|items|))
    else
      var pos := Index(text, ':');
      if pos == 0 then None
      else if pos == |text| then Some(Tokens(items + [text], fill))
      else
        var next := if StartsWith(text[pos..], "::") then text[pos..] else text[pos + 1..];
        if next == "" then None else Tokenize(next, items + [text[..pos]], fill)
  }

  function ZeroItems(n: nat): seq<string> { seq(n, _ => "0") }

  function OctetValues(parts: seq<string>): Option<seq<nat>> {
    if parts == [] then Some([])
    else
      var v, rest := ParseInt(parts[0], 10, true), OctetValues(parts[1..]);
      if v.Some? && 0 <= v.value <= 255 && rest.Some? then Some([v.value] + rest.value) else None
  }

  /** Dotted notation; missing octets on the right are zero. */
  function ParseDotted(text: string): Option<Address> {
    var parts := Split(text, '.');
    if |parts| > 4 then None
    else
      var octets := OctetValues(parts + ZeroItems(4 - |parts|));
      if octets.None? || |octets.value| != 4 then None
      else
        var o := octets.value;
        Some(Address(Shl(o[0], 24) + Shl(o[1], 16) + Shl(o[2], 8) + o[3], 4))
  }

  /** A plain number is a version 4 address when it fits in 32 bits. */
  function ParseNumber(text: string, base: nat): Option<Address> {
    var v := ParseInt(text, base, true);
    if v.None? || v.value >= SPACE6 then None
    else Some(Address(v.value, if v.value < SPACE4 then 4 else 6))
  }

  /** `parseAddress` on text without a colon. */
  function ParsePlain(text: string): Option<Address> {
    if StartsWith(text, "0x") then ParseNumber(text[2..], 16)
    else if |text| == 32 then
      var v := ParseInt(text, 16, true);
      if v.Some? then Some(Address(v.value, 6)) else None
    else if Has(text, '.') then ParseDotted(text)
    else if |text| < 4 && ParseInt(text, 10, false).None? then None
    else if |text| < 4 && ParseInt(text, 10, false).value < 256 then ParseDotted(text)
    else ParseNumber(text, 10)
  }

  /** `"%04x" % n` */
  function Hex4(n: nat): string {
    var d := Digits(n, 16);
    if |d| < 4 then Zeros(4 - |d|) + d else d
  }

  /** A dotted last part stands for two hextets, unless `::` follows it. */
  function TailItems(t: Tokens): Option<seq<string>> {
    var n := |t.items|;
    if n == 0 || !Has(t.items[n - 1], '.') then Some(t.items)
    else if t.fill.Some? && t.fill.value > n - 1 then None
    else
      var a := ParsePlain(t.items[n - 1]);
      if a.None? || a.value.value < 0 then None
      else Some(t.items[..n - 1] + [Hex4(Shr(a.value.value, 16)), Hex4(And(a.value.value, 0xffff))])
  }

  /** `::` stands for as many zero hextets as are missing, at least one. */
  function Expand(items: seq<string>, fill: Option<nat>): Option<seq<string>> {
    if fill.None? then if |items| == 8 then Some(items) else None
    else if |items| >= 8 then None
    else Some(Take(items, fill.value) + ZeroItems(8 - |items|) + Drop(items, fill.value))
  }

  function FoldItems(items: seq<string>): Option<nat> {
    if items == [] then Some(0)
    else
      var v, h := FoldItems(items[..|items| - 1]), ParseInt(items[|items| - 1], 16, false);
      if v.Some? && h.Some? && 0 <= h.value <= 0xffff then Some(Shl(v.value, 16) + h.value) else None
  }

  function ParseV6(text: string): Option<nat> {
    var t := Tokenize(text, [], None);
    if t.None? then None
    else
      var items := TailItems(t.value);
      if items.None? then None
      else
        var eight := Expand(items.value, t.value.fill);
        if eight.None? then None else FoldItems(eight.value)
  }

  function ParseAddress(text: string): Option<Address> {
    if !StartsWith(text, "0x") && Has(text, ':') then
      var v := ParseV6(text);
      if v.Some? then Some(Address(v.value, 6)) else None
    else ParsePlain(text)
  }

  // ---------- hextets carry the whole value ----------

  function Fold(h: seq<nat>): nat {
    if h == [] then 0 else Fold(h[..|h| - 1]) * 0x1_0000 + h[|h| - 1]
  }

  lemma PaddedIs(n: nat)
    requires n < SPACE6
    ensures IsNumeral(Padded(n), 16) && Val(Padded(n), 16) == n
  {
    DigitsRoundTrip(n, 16);
    PowFacts();
    DigitsLength(n, 16, 32);
    PaddedValue(32 - |Digits(n, 16)|, Digits(n, 16), 16);
  }

  lemma {:induction false} PrefixFold(s: string, h: seq<nat>, k: nat)
    requires |s| == 32 && |h| == 8 && k <= 8
    requires forall i :: 0 <= i < 8 ==> h[i] == Val(Quads(s)[i], 16)
    ensures Fold(h[..k]) == Val(s[..4 * k], 16)
  {
    if k > 0 {
      PrefixFold(s, h, k - 1);
      assert h[..k][..k - 1] == h[..k - 1];
      assert s[..4 * k] == s[..4 * (k - 1)] + Quads(s)[k - 1];
      ValAppend(s[..4 * (k - 1)], Quads(s)[k - 1], 16);
      PowFacts();
    }
  }

  /** The hextets of a version 6 address are below 2^16 and make up its value. */
  lemma HextetsMakeValue(n: nat)
    requires n < SPACE6
    ensures Fold(Hextets(n)) == n && forall i :: 0 <= i < 8 ==> Hextets(n)[i] < 0x1_0000
  {
    hide Fold, Val, Padded;
    var s, h := Padded(n), Hextets(n);
    PaddedIs(n);
    PrefixFold(s, h, 8);
    assert h[..8] == h && s[..4 * 8] == s;
    PowFacts();
    forall i | 0 <= i < 8 ensures h[i] < 0x1_0000 {
      ValBound(Quads(s)[i], 16);
    }
  }

  lemma Pow16Is()
    ensures Pow2(8) == 0x100 && Pow2(16) == 0x1_0000 && Pow2(24) == 0x100_0000 && Pow2(32) == SPACE4
  {
    Pow2Add(8, 8);
    Pow2Add(16, 8);
    Pow2Add(16, 16);
  }

  /** Items that spell hextets fold to the hextets' value. */
  lemma {:induction false} FoldItemsIs(items: seq<string>, h: seq<nat>)
    requires |items| == |h|
    requires forall i :: 0 <= i < |h| ==> h[i] <= 0xffff && ParseNat(items[i], 16) == Some(h[i])
    ensures FoldItems(items) == Some(Fold(h))
    decreases |h|
  {
    hide ParseInt, ParseNat;
    if h != [] {
      FoldItemsIs(items[..|h| - 1], h[..|h| - 1]);
      PlainParses(items[|h| - 1], 16, false);
      Pow16Is();
    }
  }

  // ---------- reading back what was joined ----------

  /** Parts that the reading loop keeps as they are. */
  ghost predicate Readable(parts: seq<string>) {
    Free(parts, ':') && forall i :: 0 <= i < |parts| ==> parts[i] != ""
  }

  lemma StepOver(head: string, rest: string, items: seq<string>, fill: Option<nat>)
    requires head != "" && (forall j :: 0 <= j < |head| ==> head[j] != ':')
    requires rest != "" && rest[0] != ':'
    ensures Tokenize(head + ":" + rest, items, fill) == Tokenize(rest, items + [head], fill)
  {
    hide Index;
    var text := head + ":" + rest;
    HeadAndRest(head, rest);
    assert !StartsWith(text, "::") && !StartsWith(text[|head|..], "::");
  }

  lemma HeadAndRest(head: string, rest: string)
    requires head != "" && (forall j :: 0 <= j < |head| ==> head[j] != ':') && rest != ""
    ensures var text := head + ":" + rest;
      && Index(text, ':') == |head| && text[0] == head[0] != ':'
      && text[..|head|] == head && text[|head| + 1..] == rest && text[|head|..][1] == rest[0]
  {
    IndexIs(head + ":" + rest, ':', |head|);
  }

  lemma StepToFill(head: string, rest: string, items: seq<string>, fill: Option<nat>)
    requires head != "" && (forall j :: 0 <= j < |head| ==> head[j] != ':')
    ensures Tokenize(head + "::" + rest, items, fill) == Tokenize("::" + rest, items + [head], fill)
  {
    var text := head + "::" + rest;
    IndexIs(text, ':', |head|);
    assert text[0] == head[0];
    assert text[|head|..] == "::" + rest && text[..|head|] == head;
  }

  lemma StepLast(head: string, items: seq<string>, fill: Option<nat>)
    requires head != "" && (forall j :: 0 <= j < |head| ==> head[j] != ':')
    ensures Tokenize(head, items, fill) == Some(Tokens(items + [head], fill))
  {
    IndexIs(head, ':', |head|);
  }

  lemma JoinStarts(parts: seq<string>)
    requires parts != [] && Readable(parts)
    ensures Join(parts, ':') != "" && Join(parts, ':')[0] == parts[0][0] != ':'
  {
  }

  lemma {:induction false} TokenizeJoin(parts: seq<string>, items: seq<string>, fill: Option<nat>)
    requires parts != [] && Readable(parts)
    ensures Tokenize(Join(parts, ':'), items, fill) == Some(Tokens(items + parts, fill))
    decreases |parts|
  {
    hide Tokenize;
    if |parts| == 1 {
      StepLast(parts[0], items, fill);
      assert parts == [parts[0]];
    } else {
      JoinStarts(parts[1..]);
      StepOver(parts[0], Join(parts[1..], ':'), items, fill);
      TokenizeJoin(parts[1..], items + [parts[0]], fill);
      assert items + [parts[0]] + parts[1..] == items + parts;
    }
  }

  lemma {:induction false} TokenizeToFill(parts: seq<string>, rest: string, items: seq<string>)
    requires Readable(parts)
    ensures Tokenize(Join(parts, ':') + "::" + rest, items, None) == Tokenize("::" + rest, items + parts, None)
    decreases |parts|
  {
    hide Tokenize;
    if parts == [] {
      assert "" + "::" + rest == "::" + rest;
      assert items + parts == items;
    } else if |parts| == 1 {
      StepToFill(parts[0], rest, items, None);
      assert parts == [parts[0]];
    } else {
      JoinStarts(parts[1..]);
      var tail := Join(parts[1..], ':') + "::" + rest;
      assert Join(parts, ':') + "::" + rest == parts[0] + ":" + tail;
      StepOver(parts[0], tail, items, None);
      TokenizeToFill(parts[1..], rest, items + [parts[0]]);
      assert items + [parts[0]] + parts[1..] == items + parts;
    }
  }

  /** Reading `left::right` yields both sides and remembers where `::` stood. */
  lemma TokenizeElided(left: seq<string>, right: seq<string>)
    requires Readable(left) && Readable(right)
    ensures Tokenize(Join(left, ':') + "::" + Join(right, ':'), [], None) == Some(Tokens(left + right, Some(|left|)))
  {
    var rest := Join(right, ':');
    TokenizeToFill(left, rest, []);
    assert [] + left == left;
    assert ("::" + rest)[2..] == rest;
    if right == [] {
      assert left + right == left;
    } else {
      TokenizeJoin(right, left, Some(|left|));
    }
  }

  lemma DigitsPlain(n: nat, base: nat)
    requires 2 <= base <= 16
    ensures ParseNat(Digits(n, base), base) == Some(n)
    ensures forall c | c in Digits(n, base) :: c != ':' && c != '.' && c != 'x'
  {
    DigitsRoundTrip(n, base);
  }

  lemma NumeralsPlain(h: seq<nat>, base: nat)
    requires 2 <= base <= 16
    ensures Readable(Spelled(h, base)) && Free(Spelled(h, base), '.') && Free(Spelled(h, base), 'x')
    ensures forall i :: 0 <= i < |h| ==> ParseNat(Spelled(h, base)[i], base) == Some(h[i])
  {
    forall i | 0 <= i < |h|
      ensures Spelled(h, base)[i] == Digits(h[i], base) && ParseNat(Digits(h[i], base), base) == Some(h[i])
    {
      DigitsPlain(h[i], base);
    }
    forall i, j | 0 <= i < |h| && 0 <= j < |Spelled(h, base)[i]|
      ensures Spelled(h, base)[i][j] != ':' && Spelled(h, base)[i][j] != '.' && Spelled(h, base)[i][j] != 'x'
    {
      DigitsPlain(h[i], base);
    }
  }

  lemma NoDot(items: seq<string>)
    requires Free(items, '.')
    ensures items != [] ==> !Has(items[|items| - 1], '.')
  {
  }

  lemma ZeroItem()
    ensures ParseNat("0", 16) == Some(0)
  {
    ZeroDigits(0, 16);
    DigitsPlain(0, 16);
  }

  lemma ExpandElided(left: seq<string>, right: seq<string>)
    requires |left| + |right| < 8
    ensures Expand(left + right, Some(|left|)) == Some(left + ZeroItems(8 - |left| - |right|) + right)
  {
    var items := left + right;
    assert Take(items, |left|) == left && Drop(items, |left|) == right;
  }

  lemma ParsesElided(left: seq<string>, right: seq<string>)
    requires Readable(left) && Readable(right) && Free(left, '.') && Free(right, '.') && |left| + |right| < 8
    ensures ParseV6(Join(left, ':') + "::" + Join(right, ':'))
         == FoldItems(left + ZeroItems(8 - |left| - |right|) + right)
  {
    hide Tokenize, FoldItems;
    TokenizeElided(left, right);
    NoDot(left + right);
    ExpandElided(left, right);
  }

  /** Text with a run of zero hextets elided parses to the whole address. */
  lemma ElidedParses(h: seq<nat>, p: nat)
    requires |h| == 8 && p < 8 && CountFollowingZeros(h[p..]) > 0
    requires forall i :: 0 <= i < 8 ==> h[i] <= 0xffff
    ensures ParseV6(ElidedText(h, p)) == Some(Fold(h))
  {
    hide Tokenize, FoldItems, Fold, ParseV6, ParseNat, Spelled, CountFollowingZeros, ZeroItems, Free, Readable, Join;
    var r := CountFollowingZeros(h[p..]);
    var left, right := Spelled(h[..p], 16), Spelled(h[p + r..], 16);
    NumeralsPlain(h[..p], 16);
    NumeralsPlain(h[p + r..], 16);
    ParsesElided(left, right);
    ElidedItems(h, p, r);
    FoldItemsIs(left + ZeroItems(r) + right, h);
  }

  /** With the zeros put back, every item reads as its hextet. */
  lemma ElidedItems(h: seq<nat>, p: nat, r: nat)
    requires |h| == 8 && p + r <= 8 && forall j :: 0 <= j < r ==> h[p..][j] == 0
    ensures var eight := Spelled(h[..p], 16) + ZeroItems(r) + Spelled(h[p + r..], 16);
      |eight| == 8 && forall i :: 0 <= i < 8 ==> ParseNat(eight[i], 16) == Some(h[i])
  {
    hide ParseNat, Spelled, Readable, Free;
    var left, right := Spelled(h[..p], 16), Spelled(h[p + r..], 16);
    NumeralsPlain(h[..p], 16);
    NumeralsPlain(h[p + r..], 16);
    ZeroItem();
    var eight := left + ZeroItems(r) + right;
    forall i | 0 <= i < 8 ensures ParseNat(eight[i], 16) == Some(h[i]) {
      if i < p {
        assert eight[i] == left[i];
      } else if i < p + r {
        assert eight[i] == "0" && h[i] == h[p..][i - p];
      } else {
        assert eight[i] == right[i - p - r];
      }
    }
  }

  /** Text with all eight hextets parses to the whole address. */
  lemma EightParse(items: seq<string>, h: seq<nat>)
    requires |items| == |h| == 8 && Readable(items) && Free(items, '.')
    requires forall i :: 0 <= i < 8 ==> h[i] <= 0xffff && ParseNat(items[i], 16) == Some(h[i])
    ensures ParseV6(Join(items, ':')) == Some(Fold(h))
  {
    TokenizeJoin(items, [], None);
    assert [] + items == items;
    NoDot(items);
    FoldItemsIs(items, h);
  }

  // ---------- round trips ----------

  lemma V6Branch(text: string, v: nat)
    requires ParseV6(text) == Some(v)
    requires |text| > 1 && text[1] != 'x' && exists i :: 0 <= i < |text| && text[i] == ':'
    ensures ParseAddress(text) == Some(Address(v, 6))
  {
  }

  lemma JoinHas(parts: seq<string>)
    requires |parts| > 1 && Readable(parts)
    ensures |Join(parts, ':')| > 1 && Join(parts, ':')[|parts[0]|] == ':'
  {
  }

  /** A quad is read as its hextet. */
  lemma QuadsReadable(n: nat)
    requires n < SPACE6
    ensures Readable(Quads(Padded(n))) && Free(Quads(Padded(n)), '.') && Free(Quads(Padded(n)), 'x')
    ensures forall i :: 0 <= i < 8 ==> ParseNat(Quads(Padded(n))[i], 16) == Some(Hextets(n)[i])
  {
    PaddedIs(n);
    var q := Quads(Padded(n));
    forall i, j | 0 <= i < 8 && 0 <= j < |q[i]| ensures IsDigit(q[i][j], 16) {
      assert q[i][j] == Padded(n)[4 * i + j];
    }
  }

  /** `parseAddress(intToIp(n, 6)) == (n, 6)` for every version 6 address. */
  lemma FullRoundTrip(n: nat)
    requires n < SPACE6
    ensures ParseAddress(FullText(n)) == Some(Address(n, 6))
  {
    var q := Quads(Padded(n));
    QuadsReadable(n);
    HextetsMakeValue(n);
    EightParse(q, Hextets(n));
    JoinHas(q);
    JoinLacks(q, ':', 'x');
    V6Branch(FullText(n), n);
  }

  lemma NormalRoundTrip(n: nat)
    requires n < SPACE6
    ensures ParseAddress(NormalText(n)) == Some(Address(n, 6))
  {
    var h := Hextets(n);
    var items := Spelled(h, 16);
    NumeralsPlain(h, 16);
    HextetsMakeValue(n);
    EightParse(items, h);
    JoinHas(items);
    JoinLacks(items, ':', 'x');
    V6Branch(NormalText(n), n);
  }

  lemma ElidedLacksX(h: seq<nat>, p: nat)
    requires p < |h|
    ensures forall i :: 0 <= i < |ElidedText(h, p)| ==> ElidedText(h, p)[i] != 'x'
  {
    var r := CountFollowingZeros(h[p..]);
    NumeralsPlain(h[..p], 16);
    NumeralsPlain(h[p + r..], 16);
    JoinLacks(Spelled(h[..p], 16), ':', 'x');
    JoinLacks(Spelled(h[p + r..], 16), ':', 'x');
  }

  lemma ElidedRoundTrip(n: nat, p: nat)
    requires n < SPACE6 && p < 8 && CountFollowingZeros(Hextets(n)[p..]) > 0
    ensures ParseAddress(ElidedText(Hextets(n), p)) == Some(Address(n, 6))
  {
    var h := Hextets(n);
    HextetsMakeValue(n);
    ElidedParses(h, p);
    ElidedLacksX(h, p);
    var text := ElidedText(h, p);
    assert text[|Join(Spelled(h[..p], 16), ':')|] == ':';
    V6Branch(text, n);
  }

  // ---------- dotted notation ----------

  function FoldOctets(o: seq<nat>): nat {
    if o == [] then 0 else FoldOctets(o[..|o| - 1]) * 256 + o[|o| - 1]
  }

  lemma {:induction false} OctetsMakeValue(n: nat, k: nat)
    requires n < Pow(256, k)
    ensures FoldOctets(OctetsOf(n, k)) == n && forall i :: 0 <= i < k ==> OctetsOf(n, k)[i] <= 255
  {
    if k > 0 {
      QuotientBound(n, 256, Pow(256, k - 1));
      OctetsMakeValue(n / 256, k - 1);
      var o := OctetsOf(n, k);
      assert o[..k - 1] == OctetsOf(n / 256, k - 1);
    }
  }

  lemma FourOctets(o: seq<nat>)
    requires |o| == 4
    ensures FoldOctets(o) == o[0] * 0x100_0000 + o[1] * 0x1_0000 + o[2] * 0x100 + o[3]
  {
    var a, b, c := o[..3], o[..2], o[..1];
    assert a[..2] == b && b[..1] == c && c[..0] == [];
    assert FoldOctets(c) == o[0];
    assert FoldOctets(b) == o[0] * 256 + o[1];
    assert FoldOctets(a) == (o[0] * 256 + o[1]) * 256 + o[2];
  }

  lemma {:induction false} OctetValuesAre(parts: seq<string>, o: seq<nat>)
    requires |parts| == |o|
    requires forall i :: 0 <= i < |o| ==> o[i] <= 255 && ParseNat(parts[i], 10) == Some(o[i])
    ensures OctetValues(parts) == Some(o)
    decreases |o|
  {
    if o != [] {
      OctetValuesAre(parts[1..], o[1..]);
      PlainParses(parts[0], 10, true);
      assert o == [o[0]] + o[1..];
    }
  }

  lemma {:induction false} JoinLength(parts: seq<string>, sep: char, m: nat)
    requires forall i :: 0 <= i < |parts| ==> |parts[i]| <= m
    ensures |Join(parts, sep)| <= |parts| * (m + 1)
    decreases |parts|
  {
    if |parts| > 1 { JoinLength(parts[1..], sep, m); }
  }

  lemma DottedShape(n: nat)
    requires n < SPACE4
    ensures var text := DottedText(n); 0 < |text| <= 16 && Has(text, '.')
    ensures forall c | c in DottedText(n) :: c != ':' && c != 'x'
  {
    var o := OctetsOf(n, 4);
    var parts := Spelled(o, 10);
    PowFacts();
    OctetsMakeValue(n, 4);
    NumeralsPlain(o, 10);
    JoinLacks(parts, '.', ':');
    JoinLacks(parts, '.', 'x');
    assert Pow(10, 3) == 1000;
    forall i | 0 <= i < 4 ensures |parts[i]| <= 3 { DigitsLength(o[i], 10, 3); }
    JoinLength(parts, '.', 3);
    assert DottedText(n)[|parts[0]|] == '.';
  }

  lemma JoinedParses(parts: seq<string>, o: seq<nat>)
    requires |parts| == |o| == 4 && Free(parts, '.')
    requires forall i :: 0 <= i < 4 ==> o[i] <= 255 && ParseNat(parts[i], 10) == Some(o[i])
    ensures ParseDotted(Join(parts, '.')) == Some(Address(FoldOctets(o), 4))
  {
    hide Split, OctetValues, Join, FoldOctets, ParseNat;
    SplitJoin(parts, '.');
    assert parts + ZeroItems(4 - |parts|) == parts;
    OctetValuesAre(parts, o);
    FourOctets(o);
    Pow16Is();
  }

  lemma DottedParses(n: nat)
    requires n < SPACE4
    ensures ParseDotted(DottedText(n)) == Some(Address(n, 4))
  {
    hide ParseDotted, FoldOctets, OctetsOf, Join;
    PowFacts();
    OctetsMakeValue(n, 4);
    NumeralsPlain(OctetsOf(n, 4), 10);
    JoinedParses(Spelled(OctetsOf(n, 4), 10), OctetsOf(n, 4));
  }

  lemma NotHexadecimal(text: string)
    requires forall c | c in text :: c != 'x'
    ensures !StartsWith(text, "0x")
  {
    if |text| > 1 { assert text[1] in text; }
  }

  lemma DottedPlain(n: nat)
    requires n < SPACE4
    ensures ParsePlain(DottedText(n)) == Some(Address(n, 4))
  {
    hide ParseDotted, DottedText;
    DottedShape(n);
    DottedParses(n);
    NotHexadecimal(DottedText(n));
  }

  /** `parseAddress(intToIp(n, 4)) == (n, 4)` for every version 4 address. */
  lemma DottedRoundTrip(n: nat)
    requires n < SPACE4
    ensures ParseAddress(DottedText(n)) == Some(Address(n, 4))
  {
    hide ParsePlain, DottedText;
    DottedShape(n);
    DottedPlain(n);
    NotHexadecimal(DottedText(n));
    var text := DottedText(n);
    forall i | 0 <= i < |text| ensures text[i] != ':' { assert text[i] in text; }
    IndexIs(text, ':', |text|);
  }

  // ---------- IPv4-mapped addresses ----------

  lemma Hex4Parses(v: nat)
    requires v <= 0xffff
    ensures ParseNat(Hex4(v), 16) == Some(v)
  {
    DigitsPlain(v, 16);
    var d := Digits(v, 16);
    if |d| < 4 { PaddedValue(4 - |d|, d, 16); }
  }

  /** The value split at bit 16 and at bit 32. */
  lemma LowParts(n: nat)
    requires n < SPACE6
    ensures And(n, 0xffff_ffff) == n % SPACE4 && Shr(n, 32) == n / SPACE4
    ensures n < SPACE4 ==> Shr(n, 16) == n / 0x1_0000 <= 0xffff && And(n, 0xffff) == n % 0x1_0000
  {
    Pow16Is();
    AndLowMask(n, 32);
    AndLowMask(n, 16);
  }

  lemma MappedFold(hi: nat, lo: nat)
    ensures Fold([0, 0, 0, 0, 0, 0xffff, hi, lo]) == (0xffff * 0x1_0000 + hi) * 0x1_0000 + lo
  {
    var h := [0, 0, 0, 0, 0, 0xffff, hi, lo];
    ZerosFold(5);
    assert h[..7][..6] == h[..6] && h[..6][..5] == seq(5, _ => 0) && h[..8][..7] == h[..7] && h == h[..8];
    assert Fold(h[..6]) == 0xffff;
    assert Fold(h[..7]) == 0xffff * 0x1_0000 + hi;
  }

  lemma {:induction false} ZerosFold(k: nat)
    ensures Fold(seq(k, _ => 0)) == 0
  {
    if k > 0 {
      assert seq(k, _ => 0)[..k - 1] == seq(k - 1, _ => 0);
      ZerosFold(k - 1);
    }
  }

  lemma MappedItems(v: nat)
    requires v < SPACE4
    ensures FoldItems(ZeroItems(5) + ["ffff", Hex4(Shr(v, 16)), Hex4(And(v, 0xffff))]) == Some(0xffff * SPACE4 + v)
  {
    hide FoldItems, Fold, ParseNat, Hex4;
    LowParts(v);
    var hi, lo := v / 0x1_0000, v % 0x1_0000;
    Hex4Parses(hi);
    Hex4Parses(lo);
    ZeroItem();
    FfffParses();
    var h: seq<nat> := [0, 0, 0, 0, 0, 0xffff, hi, lo];
    var items := ZeroItems(5) + ["ffff", Hex4(hi), Hex4(lo)];
    forall i | 0 <= i < 8 ensures h[i] <= 0xffff && ParseNat(items[i], 16) == Some(h[i]) {
      assert i < 5 ==> items[i] == "0" && h[i] == 0;
    }
    FoldItemsIs(items, h);
    MappedFold(hi, lo);
  }

  lemma FfffParses()
    ensures ParseNat("ffff", 16) == Some(0xffff)
  {
    var s := "ffff";
    assert s[..3][..2] == s[..2] && s[..2][..1] == s[..1] && s[..1][..0] == [] && DigitOf('f') == Some(15);
    assert Val(s[..1], 16) == 15;
    assert Val(s[..2], 16) == 0xff;
    assert Val(s[..3], 16) == 0xfff;
  }

  lemma MappedTokens(dotted: string)
    requires dotted != "" && forall c | c in dotted :: c != ':'
    ensures Tokenize("::ffff:" + dotted, [], None) == Some(Tokens(["ffff", dotted], Some(0)))
  {
    hide Tokenize;
    var right := ["ffff", dotted];
    assert Readable(right) by {
      forall i, j | 0 <= i < 2 && 0 <= j < |right[i]| ensures right[i][j] != ':' {
        if i == 1 { assert right[1][j] in dotted; }
      }
    }
    TokenizeElided([], right);
    assert right[1..] == [dotted];
    assert Join(right, ':') == "ffff:" + dotted;
    assert Join([], ':') + "::" + Join(right, ':') == "::ffff:" + dotted;
    assert [] + right == right;
  }

  lemma MappedTail(dotted: string, v: nat)
    requires Has(dotted, '.') && ParsePlain(dotted) == Some(Address(v, 4))
    ensures TailItems(Tokens(["ffff", dotted], Some(0)))
         == Some(["ffff", Hex4(Shr(v, 16)), Hex4(And(v, 0xffff))])
  {
    hide ParsePlain, Hex4;
    var t := Tokens(["ffff", dotted], Some(0));
    assert t.items[1] == dotted && t.items[..1] == ["ffff"];
    assert ["ffff"] + [Hex4(Shr(v, 16)), Hex4(And(v, 0xffff))] == ["ffff", Hex4(Shr(v, 16)), Hex4(And(v, 0xffff))];
  }

  lemma MappedParses(v: nat)
    requires v < SPACE4
    ensures ParseV6("::ffff:" + DottedText(v)) == Some(0xffff * SPACE4 + v)
  {
    hide Tokenize, FoldItems, DottedText, ParsePlain, Hex4, TailItems, Expand;
    DottedShape(v);
    DottedPlain(v);
    MappedTokens(DottedText(v));
    var items := ["ffff", Hex4(Shr(v, 16)), Hex4(And(v, 0xffff))];
    MappedTail(DottedText(v), v);
    ExpandElided([], items);
    assert [] + items == items && [] + ZeroItems(5) + items == ZeroItems(5) + items;
    MappedItems(v);
  }

  // ---------- the compressed form ----------

  function FollowingZeros(h: seq<nat>): (z: seq<nat>)
    ensures |z| == |h|
  {
    seq(|h|, i requires 0 <= i < |h| => CountFollowingZeros(h[i..]))
  }

  /** `z.index(max(z))` */
  function FirstMax(z: seq<nat>): (k: nat)
    requires z != []
    ensures k < |z| && (forall i :: 0 <= i < |z| ==> z[i] <= z[k]) && (forall i :: 0 <= i < k ==> z[i] < z[k])
  {
    if |z| == 1 then 0
    else
      var k := FirstMax(z[..|z| - 1]);
      if z[|z| - 1] > z[k] then |z| - 1 else k
  }

  /** `strCompressed` of a single version 6 address. */
  function CompressedText(n: nat): string
    requires n < SPACE6
  {
    if Shr(n, 32) == 0xffff then "::ffff:" + DottedText(And(n, 0xffff_ffff))
    else
      var h := Hextets(n);
      var z := FollowingZeros(h);
      var p := FirstMax(z);
      if z[p] > 1 then ElidedText(h, p) else NormalText(n)
  }

  lemma MappedRoundTrip(n: nat)
    requires n < SPACE6 && Shr(n, 32) == 0xffff
    ensures ParseAddress("::ffff:" + DottedText(And(n, 0xffff_ffff))) == Some(Address(n, 6))
  {
    hide DottedText, ParseV6, ParseAddress;
    LowParts(n);
    var v := n % SPACE4;
    MappedParses(v);
    V6Branch("::ffff:" + DottedText(v), n);
  }

  /** `parseAddress(strCompressed(n)) == (n, 6)` for every version 6 address. */
  lemma CompressedRoundTrip(n: nat)
    requires n < SPACE6
    ensures ParseAddress(CompressedText(n)) == Some(Address(n, 6))
  {
    var h := Hextets(n);
    if Shr(n, 32) == 0xffff {
      MappedRoundTrip(n);
    } else if FollowingZeros(h)[FirstMax(FollowingZeros(h))] > 1 {
      ElidedRoundTrip(n, FirstMax(FollowingZeros(h)));
    } else {
      NormalRoundTrip(n);
    }
  }

  /** The elided run is the leftmost of the longest ones, and never a single zero. */
  lemma CompressedElides(n: nat)
    requires n < SPACE6 && Shr(n, 32) != 0xffff
    ensures exists p: nat | p < 8 && FirstLongestRun(Hextets(n), p) ::
      CompressedText(n) == if CountFollowingZeros(Hextets(n)[p..]) > 1 then ElidedText(Hextets(n), p) else NormalText(n)
  {
    var h := Hextets(n);
    var z := FollowingZeros(h);
    var p := FirstMax(z);
    forall i | 0 <= i < 8
      ensures CountFollowingZeros(h[i..]) <= CountFollowingZeros(h[p..])
      ensures i < p ==> CountFollowingZeros(h[i..]) < CountFollowingZeros(h[p..])
    {
      assert z[i] <= z[p] && (i < p ==> z[i] < z[p]);
    }
    assert FirstLongestRun(h, p);
  }

  // ---------- what each form of text means ----------

  lemma PartsLack(parts: seq<string>, base: nat)
    requires base <= 16 && forall i :: 0 <= i < |parts| ==> ParseNat(parts[i], base).Some?
    ensures Readable(parts) && Free(parts, '.') && Free(parts, 'x')
  {
    forall i, j | 0 <= i < |parts| && 0 <= j < |parts[i]|
      ensures parts[i][j] != ':' && parts[i][j] != '.' && parts[i][j] != 'x'
    {
      DigitPlain(parts[i][j], base);
    }
  }

  lemma NoColon(text: string)
    requires (forall i :: 0 <= i < |text| ==> text[i] != ':' && text[i] != 'x')
    ensures ParseAddress(text) == ParsePlain(text) && !StartsWith(text, "0x")
  {
    hide ParsePlain;
    IndexIs(text, ':', |text|);
    NotHexadecimal(text);
  }

  /** Of one to four octets, the first is the most significant; those missing on the right are zero. */
  lemma DottedMeaning(parts: seq<string>, o: seq<nat>)
    requires 1 <= |parts| == |o| <= 4
    requires forall i :: 0 <= i < |o| ==> o[i] <= 255 && ParseNat(parts[i], 10) == Some(o[i])
    requires |Join(parts, '.')| != 32 && (|parts| == 1 ==> |parts[0]| < 4)
    ensures var p := o + seq(4 - |o|, _ => 0);
      ParseAddress(Join(parts, '.'))
      == Some(Address(p[0] * 0x100_0000 + p[1] * 0x1_0000 + p[2] * 0x100 + p[3], 4))
  {
    hide ParseDotted, ParseNat, FoldOctets;
    var text, p := Join(parts, '.'), o + seq(4 - |o|, _ => 0);
    PartsLack(parts, 10);
    JoinLacks(parts, '.', ':');
    JoinLacks(parts, '.', 'x');
    NoColon(text);
    PaddedParses(parts, o);
    FourOctets(p);
    if |parts| == 1 {
      PlainParses(text, 10, false);
      PlainParses(text, 10, true);
    } else {
      assert text[|parts[0]|] == '.';
    }
  }

  lemma PaddedParses(parts: seq<string>, o: seq<nat>)
    requires 1 <= |parts| == |o| <= 4 && Free(parts, '.')
    requires forall i :: 0 <= i < |o| ==> o[i] <= 255 && ParseNat(parts[i], 10) == Some(o[i])
    ensures ParseDotted(Join(parts, '.')) == Some(Address(FoldOctets(o + seq(4 - |o|, _ => 0)), 4))
  {
    hide Split, OctetValues, Join, FoldOctets, ParseNat;
    var p := o + seq(4 - |o|, _ => 0);
    SplitJoin(parts, '.');
    ZeroDecimal();
    var padded := parts + ZeroItems(4 - |parts|);
    forall i | 0 <= i < 4 ensures p[i] <= 255 && ParseNat(padded[i], 10) == Some(p[i]) {
      assert i >= |o| ==> padded[i] == "0" && p[i] == 0;
    }
    OctetValuesAre(padded, p);
    FourOctets(p);
    Pow16Is();
  }

  lemma ZeroDecimal()
    ensures ParseNat("0", 10) == Some(0)
  {
    ZeroDigits(0, 10);
    DigitsPlain(0, 10);
  }

  /** The network 10.1, the number 127, and the example of the documentation. */
  lemma ShortDottedExamples()
    ensures ParseAddress("10.1") == Some(Address(167837696, 4))
    ensures ParseAddress("127") == Some(Address(2130706432, 4))
    ensures ParseAddress("123.123") == Some(Address(2071658496, 4))
  {
    hide ParseAddress, ParseNat;
    SmallNumerals();
    DottedMeaning(["10", "1"], [10, 1]);
    DottedMeaning(["127"], [127]);
    DottedMeaning(["123", "123"], [123, 123]);
    assert ["123", "123"][1..] == ["123"] && ["10", "1"][1..] == ["1"];
    assert Join(["10", "1"], '.') == "10.1" && Join(["127"], '.') == "127" && Join(["123", "123"], '.') == "123.123";
  }

  lemma SmallNumerals()
    ensures ParseNat("1", 10) == Some(1) && ParseNat("10", 10) == Some(10)
    ensures ParseNat("127", 10) == Some(127) && ParseNat("123", 10) == Some(123)
  {
    ThreeDigits("127");
    ThreeDigits("123");
    assert "1"[..0] == "" && "10"[..1] == "1" && Val("1", 10) == 1;
  }

  lemma ThreeDigits(s: string)
    requires |s| == 3 && IsNumeral(s, 10)
    ensures ParseNat(s, 10) == Some(100 * DigitOf(s[0]).value + 10 * DigitOf(s[1]).value + DigitOf(s[2]).value)
  {
    assert s[..2][..1] == s[..1] && s[..1][..0] == "";
    assert Val(s[..1], 10) == DigitOf(s[0]).value;
    assert Val(s[..2], 10) == 10 * Val(s[..1], 10) + DigitOf(s[1]).value;
  }

  /** Dotted text is accepted for at most four numbers from 0 to 255. */
  lemma DottedAccepted(parts: seq<string>)
    requires |parts| > 1 && Free(parts, '.') && Free(parts, ':') && Free(parts, 'x') && |Join(parts, '.')| != 32
    ensures ParseAddress(Join(parts, '.')).Some?
            <==> |parts| <= 4 && forall i :: 0 <= i < |parts| ==> Within(ParseInt(parts[i], 10, true), 255)
  {
    hide ParseInt, Split, OctetValues;
    var text := Join(parts, '.');
    JoinLacks(parts, '.', ':');
    JoinLacks(parts, '.', 'x');
    NoColon(text);
    SplitJoin(parts, '.');
    assert text[|parts[0]|] == '.';
    if |parts| <= 4 {
      var padded := parts + ZeroItems(4 - |parts|);
      OctetValuesWhen(padded);
      ZeroDecimal();
      PlainParses("0", 10, true);
      assert forall i :: 0 <= i < |parts| ==> padded[i] == parts[i];
      assert forall i :: |parts| <= i < 4 ==> padded[i] == "0";
    }
  }

  predicate Within(v: Option<int>, max: int) { v.Some? && 0 <= v.value <= max }

  lemma {:induction false} OctetValuesWhen(parts: seq<string>)
    ensures OctetValues(parts).Some? <==> forall i :: 0 <= i < |parts| ==> Within(ParseInt(parts[i], 10, true), 255)
    ensures OctetValues(parts).Some? ==> |OctetValues(parts).value| == |parts|
    decreases |parts|
  {
    hide ParseInt;
    if parts != [] {
      OctetValuesWhen(parts[1..]);
      assert forall i :: 0 < i < |parts| ==> parts[i] == parts[1..][i - 1];
    }
  }

  /** Whole numbers, in hexadecimal behind `0x` or as 32 digits, or in decimal. */
  lemma NumeralMeaning(s: string, v: nat)
    ensures ParseNat(s, 16) == Some(v) ==>
              ParseAddress("0x" + s)
              == if v >= SPACE6 then None else Some(Address(v, if v < 0x1_0000_0000 then 4 else 6))
    ensures ParseNat(s, 16) == Some(v) && |s| == 32 ==> ParseAddress(s) == Some(Address(v, 6))
    ensures ParseNat(s, 10) == Some(v) && |s| >= 4 && |s| != 32 ==>
              ParseAddress(s) == if v >= SPACE6 then None else Some(Address(v, if v < 0x1_0000_0000 then 4 else 6))
    ensures ParseNat(s, 10) == Some(v) && v >= 256 && |s| < 4 ==> ParseAddress(s) == Some(Address(v, 4))
  {
    hide ParseInt, ParseNat, ParseDotted;
    assert ("0x" + s)[2..] == s;
    if ParseNat(s, 16) == Some(v) {
      PlainParses(s, 16, true);
      PartsLack([s], 16);
      LoneNumeral(s);
    }
    if ParseNat(s, 10) == Some(v) {
      PlainParses(s, 10, true);
      PlainParses(s, 10, false);
      PartsLack([s], 10);
      LoneNumeral(s);
      if |s| < 4 { ThreeBound(s); }
    }
  }

  lemma LoneNumeral(s: string)
    requires Readable([s]) && Free([s], '.') && Free([s], 'x')
    ensures ParseAddress(s) == ParsePlain(s) && !StartsWith(s, "0x") && !Has(s, '.')
  {
    hide ParsePlain, ParseAddress;
    forall i | 0 <= i < |s| ensures s[i] != ':' && s[i] != 'x' && s[i] != '.' {
      assert [s][0][i] == s[i];
    }
    NoColon(s);
  }

  lemma ThreeBound(s: string)
    requires ParseNat(s, 10).Some? && |s| < 4
    ensures ParseNat(s, 10).value < 1000
  {
    ValBound(s, 10);
    PowMono(10, |s|, 3);
    assert Pow(10, 3) == 1000;
  }

  /** Numbers from 0 to 0xffff, in hexadecimal. */
  ghost predicate AllHextets(items: seq<string>) {
    forall i :: 0 <= i < |items| ==> Within(ParseInt(items[i], 16, false), 0xffff)
  }

  /** Hextets between colons, in upper or lower case: accepted if they are eight numbers below 2^16. */
  lemma ColonAccepted(items: seq<string>)
    requires |items| > 1 && Readable(items) && Free(items, '.') && Free(items, 'x')
    ensures ParseAddress(Join(items, ':')).Some?
            <==> |items| == 8 && AllHextets(items)
  {
    hide Tokenize, FoldItems, ParseInt, AllHextets;
    TokenizeJoin(items, [], None);
    assert [] + items == items;
    NoDot(items);
    FoldItemsWhen(items);
    JoinHas(items);
    JoinLacks(items, ':', 'x');
    ColonBranch(Join(items, ':'));
  }

  lemma ColonBranch(text: string)
    requires (exists i :: 0 <= i < |text| && text[i] == ':') && forall i :: 0 <= i < |text| ==> text[i] != 'x'
    ensures ParseAddress(text).Some? <==> ParseV6(text).Some?
  {
    hide ParseV6;
    NotHexadecimal(text);
  }

  lemma {:induction false} FoldItemsWhen(items: seq<string>)
    ensures FoldItems(items).Some? <==> AllHextets(items)
    decreases |items|
  {
    hide ParseInt;
    if items != [] { FoldItemsWhen(items[..|items| - 1]); }
  }

  /** With `::` among them there may be seven at most. */
  lemma ElidedAccepted(left: seq<string>, right: seq<string>)
    requires Readable(left) && Free(left, '.') && Free(left, 'x')
    requires Readable(right) && Free(right, '.') && Free(right, 'x')
    ensures ParseAddress(Join(left, ':') + "::" + Join(right, ':')).Some?
            <==> |left| + |right| <= 7 && AllHextets(left) && AllHextets(right)
  {
    hide ParseV6, Join, AllHextets, ParseAddress, Readable, Free;
    var text := Join(left, ':') + "::" + Join(right, ':');
    JoinLacks(left, ':', 'x');
    JoinLacks(right, ':', 'x');
    assert text[|Join(left, ':')|] == ':';
    ColonBranch(text);
    ElidedRead(left, right);
  }

  lemma ElidedRead(left: seq<string>, right: seq<string>)
    requires Readable(left) && Free(left, '.') && Readable(right) && Free(right, '.')
    ensures ParseV6(Join(left, ':') + "::" + Join(right, ':')).Some?
            <==> |left| + |right| <= 7 && AllHextets(left) && AllHextets(right)
  {
    hide Tokenize, FoldItems, ParseInt, Join, AllHextets, ParseNat;
    if |left| + |right| <= 7 {
      ParsesElided(left, right);
      HextetsWithZeros(left, 8 - |left| - |right|, right);
    } else {
      TokenizeElided(left, right);
      NoDot(left + right);
    }
  }

  lemma HextetsWithZeros(left: seq<string>, k: nat, right: seq<string>)
    ensures FoldItems(left + ZeroItems(k) + right).Some? <==> AllHextets(left) && AllHextets(right)
  {
    hide FoldItems, ParseInt;
    var eight := left + ZeroItems(k) + right;
    FoldItemsWhen(eight);
    ZeroItem();
    PlainParses("0", 16, false);
    forall i | 0 <= i < |right| ensures right[i] == eight[|left| + k + i] {}
    forall i | 0 <= i < |left| ensures left[i] == eight[i] {}
    assert forall i :: |left| <= i < |left| + k ==> eight[i] == "0";
  }

  /** `::` may stand there once only. */
  lemma ElidedOnce(left: seq<string>, middle: seq<string>, rest: string)
    requires Readable(left) && Readable(middle)
    ensures ParseV6(Join(left, ':') + "::" + Join(middle, ':') + "::" + rest) == None
  {
    hide Tokenize;
    var tail := Join(middle, ':') + "::" + rest;
    assert Join(left, ':') + "::" + tail == Join(left, ':') + "::" + Join(middle, ':') + "::" + rest;
    TokenizeToFill(left, tail, []);
    SecondElision([] + left, None, tail);
    SecondElisionIn(middle, rest, [] + left, |left|);
  }

  lemma SecondElision(items: seq<string>, fill: Option<nat>, rest: string)
    ensures Tokenize("::" + rest, items, fill) == if fill.Some? then None else Tokenize(rest, items, Some(|items|))
  {
    assert ("::" + rest)[2..] == rest;
  }

  lemma {:induction false} SecondElisionIn(middle: seq<string>, rest: string, items: seq<string>, fill: nat)
    requires Readable(middle)
    ensures Tokenize(Join(middle, ':') + "::" + rest, items, Some(fill)) == None
    decreases |middle|
  {
    hide Tokenize;
    if middle == [] {
      assert "" + "::" + rest == "::" + rest;
      SecondElision(items, Some(fill), rest);
    } else if |middle| == 1 {
      StepToFill(middle[0], rest, items, Some(fill));
      SecondElision(items + [middle[0]], Some(fill), rest);
    } else {
      JoinStarts(middle[1..]);
      var tail := Join(middle[1..], ':') + "::" + rest;
      assert Join(middle, ':') + "::" + rest == middle[0] + ":" + tail;
      StepOver(middle[0], tail, items, Some(fill));
      SecondElisionIn(middle[1..], rest, items + [middle[0]], fill);
    }
  }

  /** A single colon may stand neither at the end nor at the start. */
  lemma {:induction false} TrailingColon(parts: seq<string>, items: seq<string>, fill: Option<nat>)
    requires parts != [] && Readable(parts)
    ensures Tokenize(Join(parts, ':') + ":", items, fill) == None
    decreases |parts|
  {
    hide Tokenize;
    if |parts| == 1 {
      LoneColon(parts[0], items, fill);
    } else {
      JoinStarts(parts[1..]);
      var tail := Join(parts[1..], ':') + ":";
      assert Join(parts, ':') + ":" == parts[0] + ":" + tail;
      StepOver(parts[0], tail, items, fill);
      TrailingColon(parts[1..], items + [parts[0]], fill);
    }
  }

  lemma LoneColon(head: string, items: seq<string>, fill: Option<nat>)
    requires head != "" && forall j :: 0 <= j < |head| ==> head[j] != ':'
    ensures Tokenize(head + ":", items, fill) == None
  {
    var text := head + ":";
    IndexIs(text, ':', |head|);
    assert text[0] == head[0] && text[|head| + 1..] == "" && |text[|head|..]| == 1;
  }

  lemma EdgeColons(parts: seq<string>, rest: string)
    requires parts != [] && Readable(parts)
    ensures ParseV6(Join(parts, ':') + ":") == None
    ensures (rest == "" || rest[0] != ':') ==> ParseV6(":" + rest) == None
  {
    TrailingColon(parts, [], None);
    IndexIs(":" + rest, ':', 0);
    if rest != "" { assert (":" + rest)[1] == rest[0]; }
  }

  /** Hextets are read most significant first; a dotted end gives the last two. */
  lemma ColonMeaning(items: seq<string>, h: seq<nat>)
    requires |items| == |h| == 8 && forall i :: 0 <= i < 8 ==> h[i] <= 0xffff && ParseNat(items[i], 16) == Some(h[i])
    ensures ParseAddress(Join(items, ':')) == Some(Address(Fold(h), 6))
  {
    PartsLack(items, 16);
    EightParse(items, h);
    JoinHas(items);
    JoinLacks(items, ':', 'x');
    V6Branch(Join(items, ':'), Fold(h));
  }

  lemma DottedEndMeaning(items: seq<string>, h: seq<nat>, v: nat)
    requires |items| == |h| == 6 && forall i :: 0 <= i < 6 ==> h[i] <= 0xffff && ParseNat(items[i], 16) == Some(h[i])
    requires v < SPACE4
    ensures ParseV6(Join(items + [DottedText(v)], ':')) == Some(Fold(h) * 0x1_0000_0000 + v)
  {
    hide Tokenize, FoldItems, DottedText, ParsePlain, Hex4, ParseNat, Fold, TailItems, Join;
    var parts := items + [DottedText(v)];
    PartsLack(items, 16);
    DottedLast(items, v);
    TokenizeJoin(parts, [], None);
    assert [] + parts == parts;
    LowParts(v);
    var hi, lo := v / 0x1_0000, v % 0x1_0000;
    Hex4Parses(hi);
    Hex4Parses(lo);
    FoldItemsIs(items + [Hex4(hi), Hex4(lo)], h + [hi, lo]);
    FoldTwo(h, hi, lo);
  }

  lemma DottedLast(items: seq<string>, v: nat)
    requires v < SPACE4 && Readable(items)
    ensures var parts := items + [DottedText(v)];
      Readable(parts) && TailItems(Tokens(parts, None)) == Some(items + [Hex4(Shr(v, 16)), Hex4(And(v, 0xffff))])
  {
    hide DottedText, ParsePlain, Hex4, Has;
    var dotted := DottedText(v);
    var parts := items + [dotted];
    DottedShape(v);
    DottedPlain(v);
    forall i, j | 0 <= i < |parts| && 0 <= j < |parts[i]| ensures parts[i][j] != ':' {
      if i == |items| { assert dotted[j] in dotted; }
    }
    assert parts[|items|] == dotted && parts[..|items|] == items;
  }

  lemma FoldTwo(h: seq<nat>, hi: nat, lo: nat)
    ensures Fold(h + [hi, lo]) == Fold(h) * 0x1_0000_0000 + hi * 0x1_0000 + lo
  {
    var all := h + [hi, lo];
    assert all[..|h| + 1] == h + [hi] && (h + [hi])[..|h|] == h;
    assert Fold(h + [hi]) == Fold(h) * 0x1_0000 + hi;
  }

  // ---------- how addresses are printed ----------

  /** Four octets in decimal, most significant first. */
  lemma DottedForm(a: nat, b: nat, c: nat, d: nat)
    requires a <= 255 && b <= 255 && c <= 255 && d <= 255
    ensures DottedText(a * 0x100_0000 + b * 0x1_0000 + c * 0x100 + d)
         == Digits(a, 10) + "." + Digits(b, 10) + "." + Digits(c, 10) + "." + Digits(d, 10)
  {
    hide Digits, OctetsOf, Join;
    OctetsAre(a, b, c, d);
    var s := Spelled([a, b, c, d], 10);
    JoinFour(s, '.');
    assert s[0] == Digits(a, 10) && s[1] == Digits(b, 10) && s[2] == Digits(c, 10) && s[3] == Digits(d, 10);
  }

  lemma OctetsAre(a: nat, b: nat, c: nat, d: nat)
    requires a <= 255 && b <= 255 && c <= 255 && d <= 255
    ensures OctetsOf(a * 0x100_0000 + b * 0x1_0000 + c * 0x100 + d, 4) == [a, b, c, d]
  {
    hide OctetsOf;
    var ab := a * 0x100 + b;
    var abc := ab * 0x100 + c;
    NoOctets();
    OctetsStep(0, a, 0);
    OctetsStep(a, b, 1);
    OctetsStep(ab, c, 2);
    OctetsStep(abc, d, 3);
    assert OctetsOf(a, 1) == [a] && OctetsOf(ab, 2) == [a, b] && OctetsOf(abc, 3) == [a, b, c];
    assert abc * 0x100 + d == a * 0x100_0000 + b * 0x1_0000 + c * 0x100 + d;
  }

  lemma NoOctets()
    ensures OctetsOf(0, 0) == []
  {
  }

  lemma OctetsStep(n: nat, d: nat, k: nat)
    requires d <= 255
    ensures OctetsOf(n * 0x100 + d, k + 1) == OctetsOf(n, k) + [d]
  {
    ModUnique(n * 0x100 + d, 256, n, d);
  }

  lemma JoinFour(s: seq<string>, sep: char)
    requires |s| == 4
    ensures Join(s, sep) == s[0] + [sep] + s[1] + [sep] + s[2] + [sep] + s[3]
  {
    assert s[1..][1..] == s[2..] && s[2..][1..] == s[3..];
    assert Join(s[3..], sep) == s[3];
    assert Join(s[2..], sep) == s[2] + [sep] + s[3];
  }

  /** Thirty-nine characters: a colon at every fifth, hexadecimal digits in lower case at all others. */
  lemma FullForm(n: nat)
    requires n < SPACE6
    ensures |FullText(n)| == 39
    ensures forall i :: 0 <= i < 39 ==>
      if i % 5 == 4 then FullText(n)[i] == ':' else FullText(n)[i] in "0123456789abcdef"
  {
    var p := Padded(n);
    PowFacts();
    DigitsLength(n, 16, 32);
    DigitsForm(n, 16);
    assert "0123456789abcdef"[..16] == "0123456789abcdef" && "0123456789abcdef"[0] == '0';
    forall i | 0 <= i < 32 ensures p[i] in "0123456789abcdef" {
      var z := 32 - |Digits(n, 16)|;
      assert p[i] == if i < z then '0' else Digits(n, 16)[i - z];
    }
    QuadsJoined(Quads(p));
    forall i | 0 <= i < 39 && i % 5 != 4 ensures FullText(n)[i] in "0123456789abcdef" {
      assert FullText(n)[i] == Quads(p)[i / 5][i % 5] == p[4 * (i / 5) + i % 5];
    }
  }

  lemma QuadsJoined(q: seq<string>)
    requires |q| == 8 && forall i :: 0 <= i < 8 ==> |q[i]| == 4
    ensures |Join(q, ':')| == 39
    ensures forall i :: 0 <= i < 39 ==> Join(q, ':')[i] == if i % 5 == 4 then ':' else q[i / 5][i % 5]
  {
    FoursJoined(q);
  }

  lemma {:induction false} FoursJoined(q: seq<string>)
    requires q != [] && forall i :: 0 <= i < |q| ==> |q[i]| == 4
    ensures |Join(q, ':')| == 5 * |q| - 1
    ensures forall i :: 0 <= i < 5 * |q| - 1 ==> Join(q, ':')[i] == if i % 5 == 4 then ':' else q[i / 5][i % 5]
    decreases |q|
  {
    if |q| > 1 {
      var s, rest := Join(q, ':'), Join(q[1..], ':');
      FoursJoined(q[1..]);
      forall i | 0 <= i < 5 * |q| - 1 ensures s[i] == if i % 5 == 4 then ':' else q[i / 5][i % 5] {
        if i >= 5 {
          assert s[i] == rest[i - 5] && (i - 5) % 5 == i % 5 && (i - 5) / 5 == i / 5 - 1;
          assert q[1..][(i - 5) / 5] == q[i / 5];
        }
      }
    }
  }

  /** `::ffff:` and a dotted text, exactly for the addresses from 2^32 * 0xffff on to 2^48. */
  lemma MappedForm(n: nat)
    requires n < SPACE6
    ensures 0xffff * 0x1_0000_0000 <= n < 0x1_0000_0000_0000 ==>
              CompressedText(n) == "::ffff:" + DottedText(n - 0xffff * 0x1_0000_0000)
    ensures !(0xffff * 0x1_0000_0000 <= n < 0x1_0000_0000_0000) ==>
              forall i :: 0 <= i < |CompressedText(n)| ==> CompressedText(n)[i] != '.'
  {
    hide DottedText, ElidedText, Hextets;
    LowParts(n);
    var h := Hextets(n);
    if n / SPACE4 == 0xffff {
    } else {
      var p := FirstMax(FollowingZeros(h));
      ElidedLacksDot(h, p);
      NormalLacksDot(n);
    }
  }

  lemma ElidedLacksDot(h: seq<nat>, p: nat)
    requires p < |h|
    ensures forall i :: 0 <= i < |ElidedText(h, p)| ==> ElidedText(h, p)[i] != '.'
  {
    var r := CountFollowingZeros(h[p..]);
    NumeralsPlain(h[..p], 16);
    NumeralsPlain(h[p + r..], 16);
    JoinLacks(Spelled(h[..p], 16), ':', '.');
    JoinLacks(Spelled(h[p + r..], 16), ':', '.');
  }

  lemma NormalLacksDot(n: nat)
    requires n < SPACE6
    ensures forall i :: 0 <= i < |NormalText(n)| ==> NormalText(n)[i] != '.'
  {
    NumeralsPlain(Hextets(n), 16);
    JoinLacks(Spelled(Hextets(n), 16), ':', '.');
  }

  // ---------- every accepted text is an address ----------

  predicate InRange(a: Address) {
    0 <= a.value && ((a.version == 4 && a.value < SPACE4) || (a.version == 6 && a.value < SPACE6))
  }

  lemma {:induction false} OctetValuesBound(parts: seq<string>)
    ensures OctetValues(parts).Some? ==>
              forall i :: 0 <= i < |OctetValues(parts).value| ==> OctetValues(parts).value[i] <= 255
    decreases |parts|
  {
    if parts != [] { OctetValuesBound(parts[1..]); }
  }

  lemma DottedBound(text: string)
    ensures ParseDotted(text).Some? ==> InRange(ParseDotted(text).value)
  {
    hide OctetValues, Split;
    var parts := Split(text, '.');
    if |parts| <= 4 { OctetValuesBound(parts + ZeroItems(4 - |parts|)); }
    Pow16Is();
  }

  lemma {:induction false} FoldItemsBound(items: seq<string>)
    ensures FoldItems(items).Some? ==> FoldItems(items).value < Pow(0x1_0000, |items|)
    decreases |items|
  {
    if items != [] {
      FoldItemsBound(items[..|items| - 1]);
      Pow16Is();
    }
  }

  /** Texts read as one number: with `0x`, of 32 characters, or without a dot. */
  predicate WholeNumeral(text: string) {
    StartsWith(text, "0x") || (!Has(text, ':') && (|text| == 32 || (!Has(text, '.') && |text| >= 4)))
  }

  /** The number read, in base 16 or 10. */
  function Numeral(text: string): Option<int> {
    if StartsWith(text, "0x") then ParseInt(text[2..], 16, true)
    else ParseInt(text, if |text| == 32 then 16 else 10, true)
  }

  predicate NegativeNumeral(text: string) { WholeNumeral(text) && Numeral(text).Some? && Numeral(text).value < 0 }

  /** What a negative numeral is taken for. */
  function NegativeAddress(text: string): (a: Address)
    requires NegativeNumeral(text)
    ensures a.value < 0
  {
    Address(Numeral(text).value, if !StartsWith(text, "0x") && |text| == 32 then 6 else 4)
  }

  lemma PlainBound(text: string)
    requires StartsWith(text, "0x") || !Has(text, ':')
    ensures ParsePlain(text).Some? ==> (InRange(ParsePlain(text).value) <==> !NegativeNumeral(text))
    ensures NegativeNumeral(text) ==> ParsePlain(text) == Some(NegativeAddress(text))
  {
    hide ParseDotted, ParseInt;
    DottedBound(text);
    PowFacts();
    LongAgrees(text, 10);
    if |text| == 32 { ParsedBound(text, 16, true); }
  }

  lemma EightItems(items: seq<string>, fill: Option<nat>)
    ensures Expand(items, fill).Some? ==> |Expand(items, fill).value| == 8
  {
  }

  lemma V6Bound(text: string)
    ensures ParseV6(text).Some? ==> ParseV6(text).value < SPACE6
  {
    hide Tokenize, FoldItems, TailItems, Expand;
    var t := Tokenize(text, [], None);
    if t.Some? && TailItems(t.value).Some? {
      var eight := Expand(TailItems(t.value).value, t.value.fill);
      EightItems(TailItems(t.value).value, t.value.fill);
      if eight.Some? { FoldItemsBound(eight.value); }
    }
    assert Pow(0x1_0000, 8) == SPACE6 by { PowAdd(0x1_0000, 4, 4); }
  }

  /**
    Whatever text `parseAddress` accepts, the value fits the version it reports if and only if the text
    is not a numeral for a negative number; every such numeral is accepted, with the number as the address.
   */
  lemma ParsedInRange(text: string)
    ensures ParseAddress(text).Some? ==> (InRange(ParseAddress(text).value) <==> !NegativeNumeral(text))
    ensures NegativeNumeral(text) ==> ParseAddress(text) == Some(NegativeAddress(text))
  {
    hide ParseV6, ParsePlain, NegativeNumeral;
    V6Bound(text);
    if StartsWith(text, "0x") || !Has(text, ':') { PlainBound(text); } else { ColonPositive(text); }
  }

  lemma ColonPositive(text: string)
    requires !StartsWith(text, "0x") && Has(text, ':')
    ensures !NegativeNumeral(text)
  {
  }

  /** A minus sign and three or more digits, not 32 characters in all: accepted as a version 4 address. */
  lemma NegativeAccepted(d: string)
    requires ParseNat(d, 10).Some? && ParseNat(d, 10).value > 0 && |d| >= 3 && |d| != 31
    ensures ParseAddress("-" + d) == Some(Address(-(ParseNat(d, 10).value as int), 4)) && NegativeNumeral("-" + d)
  {
    hide ParseInt;
    var text := "-" + d;
    SignedParses(d, 10, true);
    forall i | 0 <= i < |text| ensures text[i] != ':' && text[i] != '.' {
      if i > 0 { DigitPlain(d[i - 1], 10); }
    }
    IndexIs(text, ':', |text|);
    IndexIs(text, '.', |text|);
    assert text[0] != '0';
  }

  /** `parseAddress("-1234")` is (-1234, 4). */
  lemma NegativeExample()
    ensures ParseAddress("-1234") == Some(Address(-1234, 4)) && !InRange(Address(-1234, 4))
  {
    hide ParseAddress, NegativeNumeral;
    ValueOf1234("1234");
    NegativeAccepted("1234");
    assert "-" + "1234" == "-1234";
  }

  lemma ValueOf1234(s: string)
    requires s == "1234"
    ensures ParseNat(s, 10) == Some(1234)
  {
    assert s[..3][..2] == s[..2] && s[..2][..1] == s[..1] && s[..1][..0] == [];
    assert Val(s[..1], 10) == 1;
    assert Val(s[..2], 10) == 12;
    assert Val(s[..3], 10) == 123;
  }
}
