/** The imperative writer and reader of AMQP fields, proved against the functions of `Fields`. */
module Serialization {
  import opened Common
  import opened Bits
  import opened Bytes
  import opened Tables
  import opened Fields

  class Writer {
    var out: bytes
    var bits: bytes
    var bitcount: nat

    function State(): WState
      reads this
    {
      WState(out, bits, bitcount)
    }

    ghost predicate Valid()
      reads this
    {
      WValid(State())
    }

    constructor ()
      ensures Valid() && State() == NOTHING_WRITTEN
    {
      out, bits, bitcount := [], [], 0;
    }

    method FlushBits()
      requires Valid()
      modifies this
      ensures Valid() && State() == Flush(old(State()))
    {
      if bits != [] {
        var i := 0;
        while i < |bits|
          invariant 0 <= i <= |bits| && bits == old(bits) && bitcount == old(bitcount)
          invariant out == old(out) + bits[..i]
        {
          out := out + [bits[i]];
          i := i + 1;
        }
        bits, bitcount := [], 0;
      }
    }

    method GetValue() returns (value: bytes)
      requires Valid()
      modifies this
      ensures Valid() && State() == Flush(old(State())) && value == out
    {
      FlushBits();
      value := out;
    }

    method Write(s: bytes)
      requires Valid()
      modifies this
      ensures Valid() && State() == Flush(old(State())).(out := Flush(old(State())).out + s)
    {
      FlushBits();
      out := out + s;
    }

    /** `after` is what writing `f` makes of `before`; on an error no written or pending octet changes. */
    static ghost predicate Wrote(before: WState, f: Field, after: WState, error: Option<Error>)
      requires WValid(before)
    {
      match PutField(before, f)
      case Ok(st) => error == None && after == st
      case Err(e) => error == Some(e) && Flush(after) == Flush(before)
    }

    method WriteBit(b: bool)
      requires Valid()
      modifies this
      ensures Valid() && Wrote(old(State()), Bit(b), State(), None)
    {
      var shift := bitcount % 8;
      var before := bits;
      if shift == 0 {
        bits := bits + [0];
      }
      var last := |bits| - 1;
      bits := bits[last := SetBit(bits[last], shift, b)];
      bitcount := bitcount + 1;
      assert bits == AppendBit(before, shift, b);
      assert State() == PutBit(old(State()), b);
    }

    method WriteOctet(n: int) returns (error: Option<Error>)
      requires Valid()
      modifies this
      ensures Valid() && Wrote(old(State()), Octet(n), State(), error)
    {
      Widths();
      if n < 0 || n > 255 { return Some(OutOfRange); }
      Write(Be(n, 1));
      error := None;
    }

    method WriteShort(n: int) returns (error: Option<Error>)
      requires Valid()
      modifies this
      ensures Valid() && Wrote(old(State()), Short(n), State(), error)
    {
      Widths();
      if n < 0 || n > 65535 { return Some(OutOfRange); }
      Write(Be(n, 2));
      error := None;
    }

    method WriteLong(n: int) returns (error: Option<Error>)
      requires Valid()
      modifies this
      ensures Valid() && Wrote(old(State()), Long(n), State(), error)
    {
      Widths();
      if n < 0 || n >= 0x1_0000_0000 { return Some(OutOfRange); }
      Write(Be(n, 4));
      error := None;
    }

    method WriteLongLong(n: int) returns (error: Option<Error>)
      requires Valid()
      modifies this
      ensures Valid() && Wrote(old(State()), LongLong(n), State(), error)
    {
      Widths();
      if n < 0 || n >= 0x1_0000_0000_0000_0000 { return Some(OutOfRange); }
      Write(Be(n, 8));
      error := None;
    }

    method WriteShortStr(s: bytes) returns (error: Option<Error>)
      requires Valid()
      modifies this
      ensures Valid() && Wrote(old(State()), ShortStr(s), State(), error)
    {
      FlushBits();
      if |s| > 255 { return Some(TooLong); }
      Widths();
      error := WriteOctet(|s|);
      out := out + s;
    }

    method WriteLongStr(s: bytes) returns (error: Option<Error>)
      requires Valid()
      modifies this
      ensures Valid() && Wrote(old(State()), LongStr(s), State(), error)
    {
      FlushBits();
      Widths();
      error := WriteLong(|s|);
      if error.Some? { return; }
      out := out + s;
    }

    /** The pending bits are not flushed first: `write_timestamp` writes to `out` directly. */
    method WriteTimestamp(n: int) returns (error: Option<Error>)
      requires Valid()
      modifies this
      ensures Valid() && Wrote(old(State()), Timestamp(n), State(), error)
    {
      if !Fits64(n) { return Some(OutOfRange); }
      out := out + Be(Signed64(n), 8);
      error := None;
    }

    /** The digit loop over a decimal's tuple, as `write_table` runs it. */
    static method CoefficientOf(negative: bool, digits: seq<nat>) returns (v: int)
      ensures v == Coefficient(negative, digits)
    {
      v := 0;
      for i := 0 to |digits|
        invariant v == DigitsValue(digits[..i])
      {
        v := v * 10 + digits[i];
        assert digits[..i + 1][..i] == digits[..i];
      }
      assert digits[..|digits|] == digits;
      if negative { v := -v; }
    }

    method WriteDecimal(negative: bool, digits: seq<nat>, exponent: int) returns (error: Option<Error>)
      requires Valid() && bits == [] && bitcount == 0
      modifies this
      ensures Valid()
      ensures match EncItem(Dec(negative, digits, exponent))
              case Ok(e) => error == None && State() == WState(old(out) + e[1..], [], 0)
              case Err(x) => error == Some(x)
    {
      Widths();
      var c := CoefficientOf(negative, digits);
      error := WriteOctet(-exponent);
      if error.Some? { return; }
      if !Fits32(c) { return Some(OutOfRange); }
      Write(Be(Signed32(c), 4));
      assert ([68] + Be(-exponent, 1) + Be(Signed32(c), 4))[1..] == Be(-exponent, 1) + Be(Signed32(c), 4);
    }

    /** Type octet and value of one entry, into a writer with no bits pending. */
    method WriteItem(v: Item) returns (error: Option<Error>)
      requires Valid() && bits == [] && bitcount == 0
      modifies this
      ensures EncItem(v).Ok? ==> error == None && State() == WState(old(out) + EncItem(v).value, [], 0)
      ensures EncItem(v).Err? ==> error == Some(EncItem(v).error)
      ensures Valid()
      decreases v, 0
    {
      hide EncItem, PutField;
      match v
      case Str(text) =>
        Write([83]);
        error := WriteLongStr(text);
        StrWritten(old(out), text);
      case Int(n) =>
        Write([73]);
        IntWritten(old(out), n);
        if !Fits32(n) { return Some(OutOfRange); }
        Write(Be(Signed32(n), 4));
        error := None;
      case Dec(negative, digits, exponent) =>
        Write([68]);
        error := WriteDecimal(negative, digits, exponent);
        DecWritten(old(out), v);
      case Time(seconds) =>
        Write([84]);
        error := WriteTimestamp(seconds);
        TimeWritten(old(out), seconds);
      case Dict(entries) =>
        Write([70]);
        error := WriteTable(entries);
        DictWritten(old(out), entries);
    }

    /** The value of an entry is written as a field of its own, behind its type octet. */
    static ghost predicate AsField(out: bytes, v: Item, octet: byte, f: Field) {
      var r := PutField(WState(out + [octet], [], 0), f);
      match EncItem(v)
      case Ok(e) => r == Ok(WState(out + e, [], 0))
      case Err(e) => r == Err(e)
    }

    static lemma StrWritten(out: bytes, text: bytes)
      ensures AsField(out, Str(text), 83, LongStr(text))
    {
      if EncLongStr(text).Ok? { Typed(out, 83, EncLongStr(text).value); }
    }

    static lemma TimeWritten(out: bytes, seconds: int)
      ensures AsField(out, Time(seconds), 84, Timestamp(seconds))
    {
      if Fits64(seconds) { Typed(out, 84, Be(Signed64(seconds), 8)); }
    }

    static lemma DictWritten(out: bytes, entries: Listing)
      ensures AsField(out, Dict(entries), 70, TableField(entries))
    {
      hide EncEntries;
      if EncTable(entries).Ok? { Typed(out, 70, EncTable(entries).value); }
    }

    static lemma IntWritten(out: bytes, n: int)
      ensures EncItem(Int(n)).Ok? <==> Fits32(n)
      ensures Fits32(n) ==> out + EncItem(Int(n)).value == out + [73] + Be(Signed32(n), 4)
      ensures !Fits32(n) ==> EncItem(Int(n)) == Err(OutOfRange)
    {
      if Fits32(n) { Typed(out, 73, Be(Signed32(n), 4)); }
    }

    static lemma DecWritten(out: bytes, v: Item)
      requires v.Dec?
      ensures EncItem(v).Ok? ==> EncItem(v).value != [] && out + EncItem(v).value == out + [68] + EncItem(v).value[1..]
    {
      if EncItem(v).Ok? {
        var e := EncItem(v).value;
        assert e == [68] + e[1..];
        Typed(out, 68, e[1..]);
      }
    }

    static lemma Typed(out: bytes, octet: byte, e: bytes)
      ensures out + ([octet] + e) == out + [octet] + e
    {
    }

    /** The entry loop of `write_table`, into the table's own writer. */
    method WriteEntries(d: Listing) returns (error: Option<Error>)
      requires Valid() && State() == NOTHING_WRITTEN
      modifies this
      ensures Valid()
      ensures match EncEntries(d)
              case Ok(e) => error == None && State() == WState(e, [], 0)
              case Err(x) => error == Some(x)
      decreases d, 1
    {
      ghost var goal := EncEntries(d);
      var i := 0;
      assert d[0..] == d;
      assert goal == Prefixed([], goal) by { if goal.Ok? { assert [] + goal.value == goal.value; } }
      while i < |d|
        invariant 0 <= i <= |d| && Valid() && bits == [] && bitcount == 0
        invariant goal == Prefixed(out, EncEntries(d[i..]))
      {
        ghost var done := out;
        assert d[i..] == [d[i]] + d[i + 1..];
        AfterEntry(done, d[i], d[i + 1..]);
        error := WriteShortStr(d[i].key);
        if error.Some? { return; }
        error := WriteItem(d[i].value);
        if error.Some? { return; }
        i := i + 1;
      }
      assert d[i..] == [] && out + [] == out;
      error := None;
    }

    /** A table is built in a writer of its own, then written behind its length. */
    method WriteTable(d: Listing) returns (error: Option<Error>)
      requires Valid()
      modifies this
      ensures Valid() && Wrote(old(State()), TableField(d), State(), error)
      decreases d, 2
    {
      hide EncEntries, EncTable;
      TableWritten(State(), d);
      FlushBits();
      var data := new Writer();
      error := data.WriteEntries(d);
      if error.Some? { return; }
      var body := data.GetValue();
      Widths();
      error := WriteLong(|body|);
      if error.Some? { return; }
      out := out + body;
    }

    static lemma TableWritten(before: WState, d: Listing)
      requires WValid(before)
      ensures EncEntries(d).Err? ==> PutField(before, TableField(d)) == Err(EncEntries(d).error)
      ensures EncEntries(d).Ok? && |EncEntries(d).value| < Pow256(4) ==>
                PutField(before, TableField(d))
                == Ok(WState(Flush(before).out + Be(|EncEntries(d).value|, 4) + EncEntries(d).value, [], 0))
      ensures EncEntries(d).Ok? && |EncEntries(d).value| >= Pow256(4) ==>
                PutField(before, TableField(d)) == Err(OutOfRange)
    {
      if EncEntries(d).Ok? {
        var e := EncEntries(d).value;
        assert Flush(before).out + (Be(|e|, 4) + e) == Flush(before).out + Be(|e|, 4) + e;
      }
    }

    static function EntryThen(done: bytes, e: Entry, rest: Listing): Result<bytes, Error> {
      var k :- EncShortStr(e.key);
      var v :- EncItem(e.value);
      Prefixed(done + k + v, EncEntries(rest))
    }

    static lemma AfterEntry(done: bytes, e: Entry, rest: Listing)
      ensures Prefixed(done, EncEntries([e] + rest)) == EntryThen(done, e, rest)
    {
      assert ([e] + rest)[1..] == rest;
      if EncShortStr(e.key).Ok? && EncItem(e.value).Ok? && EncEntries(rest).Ok? {
        var k, v, r := EncShortStr(e.key).value, EncItem(e.value).value, EncEntries(rest).value;
        assert done + (k + v + r) == done + k + v + r;
      }
    }
  }

  class Reader {
    const input: bytes
    var pos: nat
    var bits: nat
    var bitcount: nat

    ghost predicate Valid()
      reads this
    {
      pos <= |input|
    }

    function State(): RState
      requires pos <= |input|
      reads this
    {
      RState(input[pos..], bits, bitcount)
    }

    constructor (source: bytes)
      ensures Valid() && input == source && State() == Unread(source)
    {
      input, pos, bits, bitcount := source, 0, 0, 0;
    }

    /** The next `n` octets, or as many as there are; the bit buffers are reset. */
    method Read(n: nat) returns (s: bytes)
      requires Valid()
      modifies this
      ensures Valid() && s == Take(old(State()).rest, n)
      ensures State() == RState(Drop(old(State()).rest, n), 0, 0)
    {
      bits, bitcount := 0, 0;
      var stop := Min(pos + n, |input|);
      s := input[pos..stop];
      pos := stop;
    }

    method ReadBit() returns (r: Result<bool, Error>)
      requires Valid()
      modifies this
      ensures Valid()
      ensures match GetField(old(State()), KBit)
              case Ok((v, st)) => r.Ok? && v == Flag(r.value) && State() == st
              case Err(e) => r == Err(e)
    {
      if bitcount == 0 {
        if pos == |input| { return Err(Truncated); }
        bits, bitcount, pos := input[pos], 8, pos + 1;
      }
      r := Ok(And(bits, 1) == 1);
      bits, bitcount := Shr(bits, 1), bitcount - 1;
    }

    /** The unsigned big-endian integer in the next `w` octets. */
    method ReadNumber(w: nat) returns (r: Result<nat, Error>)
      requires Valid()
      modifies this
      ensures Valid()
      ensures match ReadUint(old(State()).rest, w)
              case Ok((n, rest)) => r == Ok(n) && State() == Unread(rest)
              case Err(e) => r == Err(e)
    {
      var s := Read(w);
      if |s| < w { return Err(Truncated); }
      r := Ok(UnBe(s));
    }

    /** A string behind a length of `w` octets. */
    method ReadString(w: nat) returns (r: Result<bytes, Error>)
      requires Valid()
      modifies this
      ensures Valid()
      ensures match ReadStr(old(State()).rest, w)
              case Ok((s, rest)) => r == Ok(s) && State() == Unread(rest)
              case Err(e) => r == Err(e)
    {
      var n :- ReadNumber(w);
      var s := Read(n);
      r := Ok(s);
    }

    /** A short string, decoded. */
    method ReadShortStr() returns (r: Result<bytes, Error>)
      requires Valid()
      modifies this
      ensures Valid()
      ensures match ReadText(old(State()).rest)
              case Ok((s, rest)) => r == Ok(s) && State() == Unread(rest)
              case Err(e) => r == Err(e)
    {
      var s :- ReadString(1);
      r := if Utf8(s) then Ok(s) else Err(BadText);
    }

    method ReadTimestamp() returns (r: Result<nat, Error>)
      requires Valid()
      modifies this
      ensures Valid()
      ensures match ReadTime(old(State()).rest)
              case Ok((n, rest)) => r == Ok(n) && State() == Unread(rest)
              case Err(e) => r == Err(e)
    {
      var n :- ReadNumber(8);
      r := if Datable(n) then Ok(n) else Err(BadTime);
    }

    method ReadValue(ftype: bytes, last: Option<Datum>) returns (r: Result<Datum, Error>)
      requires Valid() && bits == 0 && bitcount == 0
      modifies this
      ensures Valid()
      ensures match ReadDatum(ftype, old(State()).rest, last)
              case Ok((v, rest)) => r == Ok(v) && State() == Unread(rest)
              case Err(e) => r == Err(e)
      decreases |input| - pos, 1
    {
      if ftype == [83] {
        var s :- ReadString(4);
        r := Ok(Text(s));
      } else if ftype == [73] {
        var u :- ReadNumber(4);
        r := Ok(Whole(FromSigned32(u)));
      } else if ftype == [68] {
        var d :- ReadNumber(1);
        var u :- ReadNumber(4);
        r := Ok(Decimal(FromSigned32(u), d));
      } else if ftype == [84] {
        var t :- ReadTimestamp();
        r := Ok(Stamp(t));
      } else if ftype == [70] {
        var t :- ReadTableField();
        r := Ok(Table(t));
      } else if last.Some? {
        r := Ok(last.value);
      } else {
        r := Err(Unbound);
      }
    }

    method ReadNext(last: Option<Datum>) returns (r: Result<(bytes, Datum), Error>)
      requires Valid()
      modifies this
      ensures Valid()
      ensures match ReadEntry(old(State()).rest, last)
              case Ok((name, v, rest)) => r == Ok((name, v)) && State() == Unread(rest)
              case Err(e) => r == Err(e)
      decreases |input| - pos, 2
    {
      var name :- ReadShortStr();
      var ftype := Read(1);
      var v :- ReadValue(ftype, last);
      r := Ok((name, v));
    }

    /** The entry loop of `read_table`, in the reader of the table's own `n` announced octets. */
    method ReadAllEntries(n: nat) returns (r: Result<Dictionary, Error>)
      requires Valid() && pos == 0 && |input| <= n && bits == 0 && bitcount == 0
      modifies this
      ensures Valid() && r == ReadEntries(input, n - |input|, None, map[])
      decreases |input| - pos, 3
    {
      ghost var goal := ReadEntries(input, n - |input|, None, map[]);
      var result: Dictionary := map[];
      var val: Option<Datum> := None;
      assert input[0..] == input;
      while pos < n
        invariant Valid() && bits == 0 && bitcount == 0
        invariant goal == ReadEntries(input[pos..], n - |input|, val, result)
        decreases |input| - pos
      {
        ghost var before := pos;
        var entry :- ReadNext(val);
        val := Some(entry.1);
        result := result[entry.0 := entry.1];
        assert |input[pos..]| < |input[before..]|;
      }
      r := Ok(result);
    }

    method ReadTableField() returns (r: Result<Dictionary, Error>)
      requires Valid()
      modifies this
      ensures Valid()
      ensures match ReadTable(old(State()).rest)
              case Ok((t, rest)) => r == Ok(t) && State() == Unread(rest)
              case Err(e) => r == Err(e)
      decreases |input| - pos, 0
    {
      var n :- ReadNumber(4);
      var s := Read(n);
      var data := new Reader(s);
      r := data.ReadAllEntries(n);
    }
  }

  method WriteField(w: Writer, f: Field) returns (error: Option<Error>)
    requires w.Valid()
    modifies w
    ensures w.Valid() && Writer.Wrote(old(w.State()), f, w.State(), error)
  {
    match f
    case Bit(b) => w.WriteBit(b); error := None;
    case Octet(n) => error := w.WriteOctet(n);
    case Short(n) => error := w.WriteShort(n);
    case Long(n) => error := w.WriteLong(n);
    case LongLong(n) => error := w.WriteLongLong(n);
    case ShortStr(s) => error := w.WriteShortStr(s);
    case LongStr(s) => error := w.WriteLongStr(s);
    case TableField(es) => error := w.WriteTable(es);
    case Timestamp(n) => error := w.WriteTimestamp(n);
  }

  method ReadField(r: Reader, k: Kind) returns (v: Result<Value, Error>)
    requires r.Valid()
    modifies r
    ensures r.Valid()
    ensures match GetField(old(r.State()), k)
            case Ok((x, st)) => v == Ok(x) && r.State() == st
            case Err(e) => v == Err(e)
  {
    match k
    case KBit => var b :- r.ReadBit(); v := Ok(Flag(b));
    case KOctet => var n :- r.ReadNumber(1); v := Ok(Number(n));
    case KShort => var n :- r.ReadNumber(2); v := Ok(Number(n));
    case KLong => var n :- r.ReadNumber(4); v := Ok(Number(n));
    case KLongLong => var n :- r.ReadNumber(8); v := Ok(Number(n));
    case KShortStr => var s :- r.ReadShortStr(); v := Ok(Chars(s));
    case KLongStr => var s :- r.ReadString(4); v := Ok(Chars(s));
    case KTable => var t :- r.ReadTableField(); v := Ok(Map(t));
    case KTimestamp => var n :- r.ReadTimestamp(); v := Ok(Number(n));
  }

  /** Everything written through one writer. */
  method WriteFields(fs: seq<Field>) returns (r: Result<bytes, Error>)
    ensures r == Written(fs)
  {
    var w := new Writer();
    var i := 0;
    assert fs[0..] == fs;
    while i < |fs|
      invariant 0 <= i <= |fs| && fresh(w) && w.Valid()
      invariant PutAll(NOTHING_WRITTEN, fs) == PutAll(w.State(), fs[i..])
    {
      assert fs[i..][0] == fs[i] && fs[i..][1..] == fs[i + 1..];
      var error := WriteField(w, fs[i]);
      if error.Some? { return Err(error.value); }
      i := i + 1;
    }
    var data := w.GetValue();
    r := Ok(data);
  }

  /** Everything read through one reader; on success, `rest` is what it left. */
  method ReadFields(data: bytes, ks: seq<Kind>) returns (r: Result<seq<Value>, Error>, rest: bytes)
    ensures match GetAll(Unread(data), ks)
            case Ok((vs, end)) => r == Ok(vs) && rest == end.rest
            case Err(e) => r == Err(e)
  {
    hide GetField;
    var reader := new Reader(data);
    var values, i := [], 0;
    rest := data;
    ghost var goal := GetAll(Unread(data), ks);
    assert ks[0..] == ks;
    assert goal == PrependValues([], goal) by { if goal.Ok? { assert [] + goal.value.0 == goal.value.0; } }
    while i < |ks|
      invariant 0 <= i <= |ks| && fresh(reader) && reader.Valid()
      invariant goal == PrependValues(values, GetAll(reader.State(), ks[i..]))
    {
      assert ks[i..][0] == ks[i] && ks[i..][1..] == ks[i + 1..];
      GetAllStep(reader.State(), ks[i..]);
      var v := ReadField(reader, ks[i]);
      if v.Err? { return Err(v.error), rest; }
      PrependOne(values, v.value, GetAll(reader.State(), ks[i + 1..]));
      values := values + [v.value];
      i := i + 1;
    }
    rest := reader.input[reader.pos..];
    assert values + [] == values;
    r := Ok(values);
  }

  /** Writing fields and reading them back through the two objects, for layouts that are safe. */
  method WriteThenRead(fs: seq<Field>) returns (r: Result<seq<Value>, Error>)
    requires StampsAligned(fs)
    ensures r.Ok? <==> Encode(fs).Ok? && AllLegible(fs)
    ensures r.Ok? ==> Writable(fs) && r.value == ValuesOf(fs)
  {
    WriterEncodes([], fs);
    var data :- WriteFields(fs);
    FieldsRoundTrip(fs);
    var kinds := KindsOf(fs);
    var values, rest := ReadFields(data, kinds);
    r := values;
  }
}
