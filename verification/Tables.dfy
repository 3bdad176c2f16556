/** AMQP field tables: the wire form of a dictionary and its round trip. */
module Tables {
  import opened Common
  import opened Bytes

  datatype Error = OutOfRange | TooLong | Truncated | Unbound | BadTime | BadText

  /** A dictionary value as the writer meets it; a dictionary is listed in its iteration order. */
  datatype Item =
    | Str(text: bytes)
    | Int(n: int)
    | Dec(negative: bool, digits: seq<nat>, exponent: int)
    | Time(seconds: int)
    | Dict(entries: seq<Entry>)

  datatype Entry = Entry(key: bytes, value: Item)

  /** A dictionary value as the reader returns it. `Decimal(n, d)` is the number n / 10^d. */
  datatype Datum =
    | Text(text: bytes)
    | Whole(n: int)
    | Decimal(coefficient: int, places: nat)
    | Stamp(seconds: int)
    | Table(table: map<bytes, Datum>)

  type Listing = seq<Entry>
  type Dictionary = map<bytes, Datum>

  // ---------- writing ----------

  function DigitsValue(digits: seq<nat>): nat {
    if digits == [] then 0 else DigitsValue(digits[..|digits| - 1]) * 10 + digits[|digits| - 1]
  }

  function Coefficient(negative: bool, digits: seq<nat>): int {
    if negative then -(DigitsValue(digits) as int) else DigitsValue(digits)
  }

  predicate Fits32(n: int) { -0x8000_0000 <= n < 0x8000_0000 }

  predicate Fits64(n: int) { -0x8000_0000_0000_0000 <= n < 0x8000_0000_0000_0000 }

  /** Two's complement in 64 bits, as `pack('>q', n)` stores it. */
  function Signed64(n: int): nat
    requires Fits64(n)
  {
    if n >= 0 then n else n + 0x1_0000_0000_0000_0000
  }

  /** The last second a `datetime` can hold, in the time zone of the epoch. */
  const LAST_SECOND := 253_402_300_799

  /** The times `datetime.fromtimestamp` can convert. */
  predicate Datable(n: int) { 0 <= n <= LAST_SECOND }

  function EncShortStr(s: bytes): Result<bytes, Error> {
    if |s| > 255 then Err(TooLong) else Ok(Be(|s|, 1) + s)
  }

  function EncLongStr(s: bytes): Result<bytes, Error> {
    if |s| >= 0x1_0000_0000 then Err(OutOfRange) else Ok(Be(|s|, 4) + s)
  }

  /** Type octet and value of one table entry. */
  function EncItem(v: Item): Result<bytes, Error>
    decreases v, 0
  {
    match v
    case Str(text) =>
      var s :- EncLongStr(text);
      Ok([83] + s)
    case Int(n) =>
      if Fits32(n) then Ok([73] + Be(Signed32(n), 4)) else Err(OutOfRange)
    case Dec(negative, digits, exponent) =>
      var c := Coefficient(negative, digits);
      if 0 <= -exponent <= 255 && Fits32(c)
      then Ok([68] + Be(-exponent, 1) + Be(Signed32(c), 4))
      else Err(OutOfRange)
    case Time(seconds) =>
      if Fits64(seconds) then Ok([84] + Be(Signed64(seconds), 8)) else Err(OutOfRange)
    case Dict(entries) =>
      var s :- EncTable(entries);
      Ok([70] + s)
  }

  function EncEntries(es: Listing): Result<bytes, Error>
    decreases es, 0
  {
    if es == [] then Ok([])
    else
      var k :- EncShortStr(es[0].key);
      var v :- EncItem(es[0].value);
      var rest :- EncEntries(es[1..]);
      Ok(k + v + rest)
  }

  function EncTable(es: Listing): Result<bytes, Error>
    decreases es, 1
  {
    var body :- EncEntries(es);
    EncLongStr(body)
  }

  // ---------- reading ----------

  function ReadUint(rest: bytes, w: nat): (r: Result<(nat, bytes), Error>)
    ensures r.Ok? ==> |r.value.1| + w == |rest|
  {
    if |rest| < w then Err(Truncated) else Ok((UnBe(rest[..w]), rest[w..]))
  }

  /** A length-prefixed string; the string is shorter than announced when the data ends first. */
  function ReadStr(rest: bytes, w: nat): (r: Result<(bytes, bytes), Error>)
    ensures r.Ok? ==> |r.value.1| + w <= |rest|
  {
    var (n, r) :- ReadUint(rest, w);
    Ok((Take(r, n), Drop(r, n)))
  }

  /** A short string, which is decoded. */
  function ReadText(rest: bytes): (r: Result<(bytes, bytes), Error>)
    ensures r.Ok? ==> |r.value.1| < |rest|
  {
    var (s, r) :- ReadStr(rest, 1);
    if Utf8(s) then Ok((s, r)) else Err(BadText)
  }

  /** A time, which is stored unsigned and converted. */
  function ReadTime(rest: bytes): (r: Result<(nat, bytes), Error>)
    ensures r.Ok? ==> |r.value.1| + 8 == |rest|
  {
    var (t, r) :- ReadUint(rest, 8);
    if Datable(t) then Ok((t, r)) else Err(BadTime)
  }

  /** An unknown type octet leaves the previous entry's value in place, as the source's `val` does. */
  function ReadDatum(ftype: bytes, data: bytes, last: Option<Datum>): (r: Result<(Datum, bytes), Error>)
    ensures r.Ok? ==> |r.value.1| <= |data|
    decreases |data|, 1
  {
    if ftype == [83] then
      var (s, rest) :- ReadStr(data, 4);
      Ok((Text(s), rest))
    else if ftype == [73] then
      var (u, rest) :- ReadUint(data, 4);
      Ok((Whole(FromSigned32(u)), rest))
    else if ftype == [68] then
      var (d, r1) :- ReadUint(data, 1);
      var (u, rest) :- ReadUint(r1, 4);
      Ok((Decimal(FromSigned32(u), d), rest))
    else if ftype == [84] then
      var (t, rest) :- ReadTime(data);
      Ok((Stamp(t), rest))
    else if ftype == [70] then
      var (t, rest) :- ReadTable(data);
      Ok((Table(t), rest))
    else if last.Some? then Ok((last.value, data))
    else Err(Unbound)
  }

  function ReadTable(rest: bytes): (r: Result<(Dictionary, bytes), Error>)
    ensures r.Ok? ==> |r.value.1| <= |rest|
    decreases |rest|, 0
  {
    var (n, r) :- ReadUint(rest, 4);
    var t :- ReadEntries(Take(r, n), n - |Take(r, n)|, None, map[]);
    Ok((t, Drop(r, n)))
  }

  /** One entry: its name, its value, and the data after it. */
  function ReadEntry(data: bytes, last: Option<Datum>): (r: Result<(bytes, Datum, bytes), Error>)
    ensures r.Ok? ==> |r.value.2| < |data|
    decreases |data|, 2
  {
    var (name, r1) :- ReadText(data);
    var (v, rest) :- ReadDatum(Take(r1, 1), Drop(r1, 1), last);
    Ok((name, v, rest))
  }

  /** The entry loop; `missing` is how far the data falls short of the announced length. */
  function ReadEntries(data: bytes, missing: nat, last: Option<Datum>, acc: Dictionary): Result<Dictionary, Error>
    decreases |data|, 3
  {
    if |data| + missing == 0 then Ok(acc)
    else
      var (name, v, rest) :- ReadEntry(data, last);
      ReadEntries(rest, missing, Some(v), acc[name := v])
  }

  // ---------- what a written dictionary means ----------

  /** The value an entry stands for. */
  function Meaning(v: Item): Datum
    requires EncItem(v).Ok?
    decreases v, 0
  {
    match v
    case Str(text) => Text(text)
    case Int(n) => Whole(n)
    case Dec(negative, digits, exponent) => Decimal(Coefficient(negative, digits), -exponent)
    case Time(seconds) => Stamp(seconds)
    case Dict(entries) => assert EncTable(entries).Ok?; Table(AsMap(map[], entries))
  }

  /** The map a listing describes, a later entry overriding an earlier one. */
  function AsMap(acc: Dictionary, es: Listing): Dictionary
    requires EncEntries(es).Ok?
    decreases es, 0
  {
    if es == [] then acc else AsMap(acc[es[0].key := Meaning(es[0].value)], es[1..])
  }

  /** Times the reader can convert, at any depth, and names it can decode. */
  predicate LegibleItem(v: Item)
    decreases v, 0
  {
    match v
    case Time(seconds) => Datable(seconds)
    case Dict(entries) => LegibleListing(entries)
    case _ => true
  }

  predicate LegibleListing(es: Listing)
    decreases es, 0
  {
    forall i :: 0 <= i < |es| ==> Utf8(es[i].key) && LegibleItem(es[i].value)
  }

  /** A listing of a dictionary, with dictionaries inside: no key twice at any level. */
  ghost predicate IsDict(v: Item)
    decreases v, 0
  {
    v.Dict? ==> ListsDict(v.entries)
  }

  ghost predicate ListsDict(es: Listing)
    decreases es, 0
  {
    && (forall i :: 0 <= i < |es| ==> IsDict(es[i].value))
    && forall i, j :: 0 <= i < j < |es| ==> es[i].key != es[j].key
  }

  lemma {:induction false} EncodedParts(es: Listing, i: nat)
    requires EncEntries(es).Ok? && i < |es|
    ensures EncItem(es[i].value).Ok?
  {
    if i > 0 { EncodedParts(es[1..], i - 1); }
  }

  ghost predicate Lists(es: Listing, k: bytes) { exists i :: 0 <= i < |es| && es[i].key == k }

  lemma {:induction false} AsMapKeys(acc: Dictionary, es: Listing, k: bytes)
    requires EncEntries(es).Ok?
    ensures k in AsMap(acc, es) <==> k in acc || Lists(es, k)
    ensures k in acc && !Lists(es, k) ==> AsMap(acc, es)[k] == acc[k]
    decreases es
  {
    if es != [] {
      AsMapKeys(acc[es[0].key := Meaning(es[0].value)], es[1..], k);
      if Lists(es[1..], k) {
        var i :| 0 <= i < |es[1..]| && es[1..][i].key == k;
        assert es[i + 1].key == k;
      }
      if i: int :| 0 <= i < |es| && es[i].key == k {
        assert i > 0 ==> es[1..][i - 1].key == k;
      }
    }
  }

  /** Looking up a listed key gives the value listed with it. */
  lemma {:induction false} AsMapLookup(acc: Dictionary, es: Listing, i: nat)
    requires EncEntries(es).Ok? && ListsDict(es) && i < |es|
    ensures EncItem(es[i].value).Ok? && es[i].key in AsMap(acc, es)
    ensures AsMap(acc, es)[es[i].key] == Meaning(es[i].value)
    decreases es
  {
    var acc' := acc[es[0].key := Meaning(es[0].value)];
    if i > 0 {
      AsMapLookup(acc', es[1..], i - 1);
    } else {
      assert !Lists(es[1..], es[0].key);
      AsMapKeys(acc', es[1..], es[0].key);
    }
  }

  /** The order in which a dictionary lists its items does not matter. */
  lemma AsMapOrderFree(es: Listing, fs: Listing)
    requires EncEntries(es).Ok? && EncEntries(fs).Ok? && ListsDict(es) && ListsDict(fs)
    requires forall e :: e in es <==> e in fs
    ensures AsMap(map[], es) == AsMap(map[], fs)
  {
    forall k
      ensures SubmapAt(AsMap(map[], es), AsMap(map[], fs), k)
      ensures SubmapAt(AsMap(map[], fs), AsMap(map[], es), k)
    {
      ListedOnce(es, fs, k);
      ListedOnce(fs, es, k);
    }
    assert forall k :: k in AsMap(map[], es) ==> SubmapAt(AsMap(map[], es), AsMap(map[], fs), k);
    assert forall k :: k in AsMap(map[], fs) ==> SubmapAt(AsMap(map[], fs), AsMap(map[], es), k);
  }

  ghost predicate SubmapAt(m: Dictionary, m': Dictionary, k: bytes) { k in m ==> k in m' && m[k] == m'[k] }

  lemma ListedOnce(es: Listing, fs: Listing, k: bytes)
    requires EncEntries(es).Ok? && EncEntries(fs).Ok? && ListsDict(es) && ListsDict(fs)
    requires forall e :: e in es ==> e in fs
    ensures SubmapAt(AsMap(map[], es), AsMap(map[], fs), k)
  {
    AsMapKeys(map[], es, k);
    if i: int :| 0 <= i < |es| && es[i].key == k {
      assert es[i] in fs;
      var j :| 0 <= j < |fs| && fs[j] == es[i];
      AsMapLookup(map[], es, i);
      AsMapLookup(map[], fs, j);
    }
  }

  // ---------- round trip ----------

  lemma UintRoundTrip(n: nat, w: nat, rest: bytes)
    requires n < Pow256(w)
    ensures ReadUint(Be(n, w) + rest, w) == Ok((n, rest))
  {
    BeRoundTrip(n, w);
    assert (Be(n, w) + rest)[..w] == Be(n, w);
  }

  lemma StrRoundTrip(s: bytes, w: nat, rest: bytes)
    requires |s| < Pow256(w)
    ensures ReadStr(Be(|s|, w) + s + rest, w) == Ok((s, rest))
  {
    UintRoundTrip(|s|, w, s + rest);
    assert Be(|s|, w) + s + rest == Be(|s|, w) + (s + rest);
    assert Take(s + rest, |s|) == s && Drop(s + rest, |s|) == rest;
  }

  lemma DecimalReadsBack(c: int, places: nat, rest: bytes, last: Option<Datum>)
    requires Fits32(c) && places <= 255
    ensures ReadDatum([68], Be(places, 1) + Be(Signed32(c), 4) + rest, last) == Ok((Decimal(c, places), rest))
  {
    Widths();
    assert Be(places, 1) + Be(Signed32(c), 4) + rest == Be(places, 1) + (Be(Signed32(c), 4) + rest);
    UintRoundTrip(places, 1, Be(Signed32(c), 4) + rest);
    UintRoundTrip(Signed32(c), 4, rest);
  }

  lemma TextReadsBack(s: bytes, rest: bytes)
    requires |s| < Pow256(1)
    ensures ReadText(Be(|s|, 1) + s + rest) == if Utf8(s) then Ok((s, rest)) else Err(BadText)
  {
    StrRoundTrip(s, 1, rest);
  }

  lemma TimeReadsBack(n: int, rest: bytes)
    requires Fits64(n)
    ensures ReadTime(Be(Signed64(n), 8) + rest) == if Datable(n) then Ok((n as nat, rest)) else Err(BadTime)
  {
    Widths();
    UintRoundTrip(Signed64(n), 8, rest);
  }

  /** Reading back one value: the type octet selects the reader that undoes the writer, or that fails. */
  lemma {:induction false} ItemRoundTrip(v: Item, rest: bytes, last: Option<Datum>)
    requires EncItem(v).Ok?
    ensures EncItem(v).value != []
    ensures var e := EncItem(v).value;
      if LegibleItem(v) then ReadDatum([e[0]], e[1..] + rest, last) == Ok((Meaning(v), rest))
      else ReadDatum([e[0]], e[1..] + rest, last).Err?
    decreases v, 0
  {
    hide Be, UnBe, EncTable, ReadTable;
    Widths();
    var e := EncItem(v).value;
    match v
    case Str(text) =>
      StrRoundTrip(text, 4, rest);
      assert e[1..] == Be(|text|, 4) + text;
    case Int(n) =>
      assert e[1..] == Be(Signed32(n), 4);
      UintRoundTrip(Signed32(n), 4, rest);
    case Dec(negative, digits, exponent) =>
      var c := Coefficient(negative, digits);
      assert e[1..] == Be(-exponent, 1) + Be(Signed32(c), 4);
      DecimalReadsBack(c, -exponent, rest, last);
    case Time(seconds) =>
      assert e[1..] == Be(Signed64(seconds), 8);
      TimeReadsBack(seconds, rest);
    case Dict(entries) =>
      assert e[1..] == EncTable(entries).value;
      TableReadsBack(entries, rest);
  }

  /** One turn of the entry loop undoes one entry of the writer, or fails on its name or value. */
  lemma ReadOneEntry(k: bytes, v: bytes, tail: bytes, last: Option<Datum>, acc: Dictionary)
    requires |k| <= 255 && |v| > 0
    ensures var data, d := Be(|k|, 1) + k + v + tail, ReadDatum([v[0]], v[1..] + tail, last);
      && (Utf8(k) && d.Ok? && d.value.1 == tail ==>
            ReadEntries(data, 0, last, acc) == ReadEntries(tail, 0, Some(d.value.0), acc[k := d.value.0]))
      && (!Utf8(k) || d.Err? ==> ReadEntries(data, 0, last, acc).Err?)
  {
    Widths();
    var data := Be(|k|, 1) + k + v + tail;
    TextReadsBack(k, v + tail);
    assert data == Be(|k|, 1) + k + (v + tail);
    assert Take(v + tail, 1) == [v[0]] && Drop(v + tail, 1) == v[1..] + tail;
  }

  lemma {:induction false} EntriesReadBack(es: Listing, last: Option<Datum>, acc: Dictionary)
    requires EncEntries(es).Ok?
    ensures if LegibleListing(es) then ReadEntries(EncEntries(es).value, 0, last, acc) == Ok(AsMap(acc, es))
            else ReadEntries(EncEntries(es).value, 0, last, acc).Err?
    decreases es, 0
  {
    if es != [] {
      var k, v := es[0].key, EncItem(es[0].value).value;
      var d, tail := Meaning(es[0].value), EncEntries(es[1..]).value;
      LegibleFirst(es);
      ItemRoundTrip(es[0].value, tail, last);
      ReadOneEntry(k, v, tail, last, acc);
      EntriesReadBack(es[1..], Some(d), acc[k := d]);
    }
  }

  lemma LegibleFirst(es: Listing)
    requires es != []
    ensures LegibleListing(es) <==> Utf8(es[0].key) && LegibleItem(es[0].value) && LegibleListing(es[1..])
  {
    assert forall i :: 1 <= i < |es| ==> es[i] == es[1..][i - 1];
  }

  /**
    A written table is read with exactly its announced length consumed, or the read fails: it fails
    just when a time in it cannot be converted or a name not decoded.
   */
  lemma {:induction false} TableReadsBack(es: Listing, rest: bytes)
    requires EncTable(es).Ok?
    ensures if LegibleListing(es) then ReadTable(EncTable(es).value + rest) == Ok((AsMap(map[], es), rest))
            else ReadTable(EncTable(es).value + rest).Err?
    decreases es, 1
  {
    Widths();
    var body := EncEntries(es).value;
    UintRoundTrip(|body|, 4, body + rest);
    assert EncTable(es).value + rest == Be(|body|, 4) + (body + rest);
    assert Take(body + rest, |body|) == body && Drop(body + rest, |body|) == rest;
    EntriesReadBack(es, None, map[]);
  }

  /** The reader returns the dictionary written if and only if its times convert and its names decode. */
  lemma TableRoundTrip(es: Listing, rest: bytes)
    requires EncTable(es).Ok?
    ensures LegibleListing(es) <==> ReadTable(EncTable(es).value + rest) == Ok((AsMap(map[], es), rest))
  {
    TableReadsBack(es, rest);
  }

  lemma OneEntry(e: Entry)
    requires |e.key| <= 255 && EncItem(e.value).Ok? && |EncItem(e.value).value| <= 255
    ensures EncTable([e]).Ok? && (LegibleListing([e]) <==> Utf8(e.key) && LegibleItem(e.value))
  {
    assert [e][1..] == [] && EncEntries([]) == Ok([]);
  }

  /** A table with a time before the epoch can be written and not read. */
  lemma EarlyTimeLost(key: bytes, n: int, rest: bytes)
    requires |key| <= 255 && Fits64(n) && n < -1
    ensures EncTable([Entry(key, Time(n))]).Ok? && ReadTable(EncTable([Entry(key, Time(n))]).value + rest).Err?
  {
    OneEntry(Entry(key, Time(n)));
    TableReadsBack([Entry(key, Time(n))], rest);
  }

  /** So can a table with a name that is not UTF-8. */
  lemma UndecodableNameLost(rest: bytes)
    ensures EncTable([Entry([0xff], Int(0))]).Ok? && ReadTable(EncTable([Entry([0xff], Int(0))]).value + rest).Err?
  {
    OneEntry(Entry([0xff], Int(0)));
    TableReadsBack([Entry([0xff], Int(0))], rest);
  }

  // ---------- the octets of a table ----------

  /** Each value, in the words of the format: its type letter, then its octets. */
  lemma ItemOctets(v: Item)
    ensures v.Str? && |v.text| < 0x1_0000_0000 ==> EncItem(v) == Ok(['S' as int] + Be(|v.text|, 4) + v.text)
    ensures v.Int? && -0x8000_0000 <= v.n < 0x8000_0000 ==>
              EncItem(v) == Ok(['I' as int] + Be(if v.n < 0 then 0x1_0000_0000 + v.n else v.n, 4))
    ensures v.Time? && Fits64(v.seconds) ==>
              EncItem(v) == Ok(['T' as int]
                               + Be(if v.seconds < 0 then 0x1_0000_0000_0000_0000 + v.seconds else v.seconds, 8))
    ensures v.Dict? && EncTable(v.entries).Ok? ==> EncItem(v) == Ok(['F' as int] + EncTable(v.entries).value)
    ensures v.Dec? && -255 <= v.exponent <= 0 ==>
              var c := Coefficient(v.negative, v.digits);
              -0x8000_0000 <= c < 0x8000_0000 ==>
                EncItem(v) == Ok(['D' as int, -v.exponent] + Be(if c < 0 then 0x1_0000_0000 + c else c, 4))
  {
    hide EncTable;
    match v
    case Str(text) => assert ['S' as int] + (Be(|text|, 4) + text) == ['S' as int] + Be(|text|, 4) + text;
    case Dec(_, _, exponent) =>
      if -255 <= exponent <= 0 {
        OneOctet(-exponent);
        assert ['D' as int] + [-exponent] == ['D' as int, -exponent];
      }
    case _ =>
  }

  lemma OneOctet(n: nat)
    requires n < 256
    ensures Be(n, 1) == [n]
  {
    assert Be(n / 256, 0) == [] && n % 256 == n;
  }

  /** What cannot be written: numbers out of their range, strings and tables of 2^32 octets or more. */
  lemma ItemRefused(v: Item)
    ensures EncItem(v).Err? <==>
            || (v.Str? && |v.text| >= 0x1_0000_0000)
            || (v.Int? && !(-0x8000_0000 <= v.n < 0x8000_0000))
            || (v.Time? && !(-0x8000_0000_0000_0000 <= v.seconds < 0x8000_0000_0000_0000))
            || (v.Dec? && (!(-255 <= v.exponent <= 0)
                           || !(-0x8000_0000 <= Coefficient(v.negative, v.digits) < 0x8000_0000)))
            || (v.Dict? && EncTable(v.entries).Err?)
  {
    hide EncTable;
  }

  /** A table is its length and its entries; one more entry is a length octet, the name, and the value. */
  lemma TableOctets(es: Listing)
    ensures EncTable(es).Ok? <==> EncEntries(es).Ok? && |EncEntries(es).value| < 0x1_0000_0000
    ensures EncTable(es).Ok? ==> EncTable(es).value == Be(|EncEntries(es).value|, 4) + EncEntries(es).value
  {
    hide EncEntries;
  }

  lemma {:induction false} EntryAppended(es: Listing, e: Entry)
    ensures EncEntries(es + [e]).Ok? <==> EncEntries(es).Ok? && |e.key| <= 255 && EncItem(e.value).Ok?
    ensures EncEntries(es + [e]).Ok? ==> EncEntries(es + [e]).value == EncEntries(es).value + EntryOctets(e)
    decreases |es|
  {
    hide EncItem, EncShortStr, Be, EntryOctets;
    LastEntry(e);
    if es == [] {
      assert es + [e] == [e];
      if EncEntries([e]).Ok? { assert [] + EntryOctets(e) == EntryOctets(e); }
    } else {
      assert (es + [e])[1..] == es[1..] + [e];
      EntryAppended(es[1..], e);
      if EncEntries(es + [e]).Ok? {
        var k, v := EncShortStr(es[0].key).value, EncItem(es[0].value).value;
        var rest, last := EncEntries(es[1..]).value, EntryOctets(e);
        assert (k + v) + (rest + last) == (k + v + rest) + last;
      }
    }
  }

  function EntryOctets(e: Entry): bytes
    requires |e.key| <= 255 && EncItem(e.value).Ok?
  {
    [|e.key|] + e.key + EncItem(e.value).value
  }

  lemma LastEntry(e: Entry)
    ensures EncEntries([e]).Ok? <==> |e.key| <= 255 && EncItem(e.value).Ok?
    ensures EncEntries([e]).Ok? ==> EncEntries([e]).value == EntryOctets(e)
  {
    hide EncItem;
    assert EncEntries([e][1..]) == Ok([]);
    if |e.key| <= 255 { OneOctet(|e.key|); }
  }

  /** The coefficient of a decimal is written most significant digit first. */
  lemma {:induction false} DigitsHead(d: nat, digits: seq<nat>)
    ensures DigitsValue([d] + digits) == d * Pow10(|digits|) + DigitsValue(digits)
  {
    if digits == [] {
      assert [d] + digits == [d] && [d][..0] == [];
    } else {
      var init, last := digits[..|digits| - 1], digits[|digits| - 1];
      DigitsHead(d, init);
      assert ([d] + digits)[..|digits|] == [d] + init && ([d] + digits)[|digits|] == last;
      assert d * (10 * Pow10(|init|)) == 10 * (d * Pow10(|init|));
    }
  }

  function Pow10(n: nat): nat { if n == 0 then 1 else 10 * Pow10(n - 1) }

  /** The last time that can be converted is the last second of the year 9999. */
  lemma LastTime(rest: bytes)
    ensures ReadTime(Be(253_402_300_799, 8) + rest) == Ok((253_402_300_799, rest))
    ensures ReadTime(Be(253_402_300_800, 8) + rest) == Err(BadTime)
  {
    hide Be, UnBe, Pow256;
    Widths();
    UintRoundTrip(253_402_300_799, 8, rest);
    UintRoundTrip(253_402_300_800, 8, rest);
  }

  // ---------- data cut short, and types not known ----------

  /** A string that ends before its announced length is read as far as it goes. */
  lemma StringCutShort(s: bytes, n: nat)
    requires |s| <= n < 0x1_0000_0000
    ensures ReadStr(Be(n, 4) + s, 4) == Ok((s, []))
  {
    hide Be, UnBe, Pow256;
    Widths();
    UintRoundTrip(n, 4, s);
    assert Take(s, n) == s && Drop(s, n) == [];
  }

  /** A table that ends before its announced length is never read. */
  lemma TableCutShort(s: bytes, n: nat)
    requires |s| < n < 0x1_0000_0000
    ensures ReadTable(Be(n, 4) + s).Err?
  {
    hide Be, UnBe, Pow256;
    Widths();
    UintRoundTrip(n, 4, s);
    assert Take(s, n) == s;
    EntriesCutShort(s, n - |s|, None, map[]);
  }

  lemma {:induction false} EntriesCutShort(data: bytes, missing: nat, last: Option<Datum>, acc: Dictionary)
    requires missing > 0
    ensures ReadEntries(data, missing, last, acc).Err?
    decreases |data|
  {
    hide ReadEntry;
    var e := ReadEntry(data, last);
    if e.Ok? { EntriesCutShort(e.value.2, missing, Some(e.value.1), acc[e.value.0 := e.value.1]); }
  }

  /** A type letter that is none of the five repeats the value before, and is an error where there is none. */
  lemma UnknownType(t: byte, data: bytes, v: Datum)
    requires t !in ['S' as int, 'I' as int, 'D' as int, 'T' as int, 'F' as int]
    ensures ReadDatum([t], data, Some(v)) == Ok((v, data)) && ReadDatum([t], data, None) == Err(Unbound)
  {
    assert [t][0] == t;
  }
}
