/**
  Sequences of typed fields: how the writer packs them, how the reader unpacks them, and when the
  two undo each other. Consecutive bits share octets; every other field starts on an octet.
 */
module Fields {
  import opened Common
  import opened Bits
  import opened Bytes
  import opened Tables

  datatype Field =
    | Bit(b: bool)
    | Octet(n: int)
    | Short(n: int)
    | Long(n: int)
    | LongLong(n: int)
    | ShortStr(s: bytes)
    | LongStr(s: bytes)
    | TableField(entries: Listing)
    | Timestamp(n: int)

  datatype Kind = KBit | KOctet | KShort | KLong | KLongLong | KShortStr | KLongStr | KTable | KTimestamp

  datatype Value = Flag(b: bool) | Number(n: int) | Chars(s: bytes) | Map(m: Dictionary)

  function KindOf(f: Field): Kind {
    match f
    case Bit(_) => KBit
    case Octet(_) => KOctet
    case Short(_) => KShort
    case Long(_) => KLong
    case LongLong(_) => KLongLong
    case ShortStr(_) => KShortStr
    case LongStr(_) => KLongStr
    case TableField(_) => KTable
    case Timestamp(_) => KTimestamp
  }

  function KindsOf(fs: seq<Field>): seq<Kind> { seq(|fs|, i requires 0 <= i < |fs| => KindOf(fs[i])) }

  // ---------- the wire form, read off the list of fields ----------

  function EncUint(n: int, w: nat): Result<bytes, Error> {
    if 0 <= n < Pow256(w) then Ok(Be(n, w)) else Err(OutOfRange)
  }

  /** The octets of a field that is not a bit. */
  function EncField(f: Field): Result<bytes, Error>
    requires !f.Bit?
  {
    match f
    case Octet(n) => EncUint(n, 1)
    case Short(n) => EncUint(n, 2)
    case Long(n) => EncUint(n, 4)
    case LongLong(n) => EncUint(n, 8)
    case ShortStr(s) => EncShortStr(s)
    case LongStr(s) => EncLongStr(s)
    case TableField(es) => EncTable(es)
    case Timestamp(n) => if Fits64(n) then Ok(Be(Signed64(n), 8)) else Err(OutOfRange)
  }

  /** The number whose binary digits are `bs`, least significant first. */
  function ByteOf(bs: seq<bool>): (r: nat)
    ensures r < Pow2(|bs|)
  {
    if bs == [] then 0 else (if bs[0] then 1 else 0) + 2 * ByteOf(bs[1..])
  }

  /** A run of bits, eight to an octet, least significant bit first. */
  function PackBits(bs: seq<bool>): bytes
  {
    if bs == [] then []
    else
      Pow2Mono(|Take(bs, 8)|, 8);
      [ByteOf(Take(bs, 8))] + PackBits(Drop(bs, 8))
  }

  /** The leading bits of a list of fields. */
  function BitRun(fs: seq<Field>): (bs: seq<bool>)
    ensures |bs| <= |fs| && (forall i :: 0 <= i < |bs| ==> fs[i] == Bit(bs[i]))
    ensures |bs| < |fs| ==> !fs[|bs|].Bit?
  {
    if fs == [] || !fs[0].Bit? then [] else [fs[0].b] + BitRun(fs[1..])
  }

  function Encode(fs: seq<Field>): Result<bytes, Error>
    decreases |fs|
  {
    if fs == [] then Ok([])
    else if fs[0].Bit? then
      var run := BitRun(fs);
      var rest :- Encode(fs[|run|..]);
      Ok(PackBits(run) + rest)
    else
      var e :- EncField(fs[0]);
      var rest :- Encode(fs[1..]);
      Ok(e + rest)
  }

  // ---------- the writer's state ----------

  datatype WState = WState(out: bytes, bits: bytes, bitcount: nat)

  ghost predicate WValid(st: WState) {
    && |st.bits| == (st.bitcount + 7) / 8
    && (st.bitcount % 8 != 0 ==> st.bits[|st.bits| - 1] < Pow2(st.bitcount % 8))
  }

  function Flush(st: WState): (r: WState) {
    if st.bits == [] then st else WState(st.out + st.bits, [], 0)
  }

  /** `octet | (b << shift)`, where no bit at or above `shift` is set yet. */
  function SetBit(octet: byte, shift: nat, b: bool): (r: byte)
    requires shift < 8 && octet < Pow2(shift)
    ensures r == octet + (if b then Pow2(shift) else 0) && r < Pow2(shift + 1)
  {
    SetBitIs(octet, shift, b);
    Or(octet, Shl(if b then 1 else 0, shift))
  }

  lemma SetBitIs(octet: byte, shift: nat, b: bool)
    requires shift < 8 && octet < Pow2(shift)
    ensures Or(octet, Shl(if b then 1 else 0, shift)) == octet + (if b then Pow2(shift) else 0)
    ensures octet + (if b then Pow2(shift) else 0) < Pow2(shift + 1) <= 256
  {
    hide Or;
    OrAboveAdds(octet, shift);
    OrZero(octet);
    Pow2Mono(shift + 1, 8);
    assert Pow2(8) == 256 && Pow2(shift + 1) == 2 * Pow2(shift);
    assert Shl(1, shift) == Pow2(shift) && Shl(0, shift) == 0;
  }

  /** Sets bit `shift` of the last octet, after beginning a new one when `shift` is zero. */
  function AppendBit(bits: bytes, shift: nat, b: bool): (r: bytes)
    requires shift < 8 && (shift != 0 ==> bits != [] && bits[|bits| - 1] < Pow2(shift))
    ensures |r| == |bits| + (if shift == 0 then 1 else 0)
    ensures r[|r| - 1] < Pow2(shift + 1)
  {
    var bs := if shift == 0 then bits + [0] else bits;
    bs[|bs| - 1 := SetBit(bs[|bs| - 1], shift, b)]
  }

  lemma NextMod8(n: nat)
    ensures (n + 1) % 8 == if n % 8 == 7 then 0 else n % 8 + 1
    ensures (n + 8) / 8 == (n + 7) / 8 + if n % 8 == 0 then 1 else 0
  {
  }

  function PutBit(st: WState, b: bool): (r: WState)
    requires WValid(st)
    ensures WValid(r)
  {
    NextMod8(st.bitcount);
    st.(bits := AppendBit(st.bits, st.bitcount % 8, b), bitcount := st.bitcount + 1)
  }

  /** A timestamp goes out at once; every other non-bit field first flushes the pending bits. */
  function PutField(st: WState, f: Field): (r: Result<WState, Error>)
    requires WValid(st)
    ensures r.Ok? ==> WValid(r.value)
  {
    if f.Bit? then Ok(PutBit(st, f.b))
    else
      var e :- EncField(f);
      var st' := if f.Timestamp? then st else Flush(st);
      Ok(st'.(out := st'.out + e))
  }

  function PutAll(st: WState, fs: seq<Field>): (r: Result<WState, Error>)
    requires WValid(st)
    ensures r.Ok? ==> WValid(r.value)
    decreases fs
  {
    if fs == [] then Ok(st)
    else
      var st' :- PutField(st, fs[0]);
      PutAll(st', fs[1..])
  }

  // ---------- the reader's state ----------

  datatype RState = RState(rest: bytes, bits: nat, bitcount: nat)

  function GetBit(st: RState): Result<(bool, RState), Error> {
    if st.bitcount == 0 && st.rest == [] then Err(Truncated)
    else
      var st' := if st.bitcount == 0 then RState(st.rest[1..], st.rest[0], 8) else st;
      Ok((And(st'.bits, 1) == 1, st'.(bits := Shr(st'.bits, 1), bitcount := st'.bitcount - 1)))
  }

  /** A field that is not a bit, read after the bit buffers are reset. */
  function GetAligned(rest: bytes, k: Kind): Result<(Value, bytes), Error>
    requires k != KBit
  {
    match k
    case KOctet => var (n, r) :- ReadUint(rest, 1); Ok((Number(n), r))
    case KShort => var (n, r) :- ReadUint(rest, 2); Ok((Number(n), r))
    case KLong => var (n, r) :- ReadUint(rest, 4); Ok((Number(n), r))
    case KLongLong => var (n, r) :- ReadUint(rest, 8); Ok((Number(n), r))
    case KShortStr => var (s, r) :- ReadText(rest); Ok((Chars(s), r))
    case KLongStr => var (s, r) :- ReadStr(rest, 4); Ok((Chars(s), r))
    case KTable => var (t, r) :- ReadTable(rest); Ok((Map(t), r))
    case KTimestamp => var (n, r) :- ReadTime(rest); Ok((Number(n), r))
  }

  function GetField(st: RState, k: Kind): Result<(Value, RState), Error> {
    if k == KBit then
      var (b, st') :- GetBit(st);
      Ok((Flag(b), st'))
    else
      var (v, rest) :- GetAligned(st.rest, k);
      Ok((v, RState(rest, 0, 0)))
  }

  function GetAll(st: RState, ks: seq<Kind>): Result<(seq<Value>, RState), Error>
    decreases ks
  {
    if ks == [] then Ok(([], st))
    else
      var (v, st') :- GetField(st, ks[0]);
      var (vs, st'') :- GetAll(st', ks[1..]);
      Ok(([v] + vs, st''))
  }

  /** Reading a list of kinds is reading the first and then the others. */
  lemma GetAllStep(st: RState, ks: seq<Kind>)
    requires ks != []
    ensures GetAll(st, ks) == match GetField(st, ks[0])
                              case Ok((v, st')) => PrependValues([v], GetAll(st', ks[1..]))
                              case Err(e) => Err(e)
  {
  }

  function PrependValues(vs: seq<Value>, r: Result<(seq<Value>, RState), Error>): Result<(seq<Value>, RState), Error> {
    match r
    case Ok((ws, end)) => Ok((vs + ws, end))
    case Err(e) => Err(e)
  }

  lemma PrependOne(vs: seq<Value>, v: Value, r: Result<(seq<Value>, RState), Error>)
    ensures PrependValues(vs, PrependValues([v], r)) == PrependValues(vs + [v], r)
  {
    if r.Ok? { assert vs + ([v] + r.value.0) == vs + [v] + r.value.0; }
  }

  // ---------- the writer produces the wire form ----------

  /** No timestamp right after a bit: the only field that does not flush pending bits. */
  predicate StampsAligned(fs: seq<Field>) {
    forall i :: 0 < i < |fs| && fs[i].Timestamp? ==> !fs[i - 1].Bit?
  }

  function Bools(bs: seq<bool>): seq<Field> { seq(|bs|, i requires 0 <= i < |bs| => Bit(bs[i])) }

  lemma {:induction false} ByteOfSnoc(bs: seq<bool>, b: bool)
    ensures ByteOf(bs + [b]) == ByteOf(bs) + if b then Pow2(|bs|) else 0
  {
    if bs == [] {
      assert (bs + [b])[1..] == [];
    } else {
      assert (bs + [b])[1..] == bs[1..] + [b];
      ByteOfSnoc(bs[1..], b);
    }
  }

  /** One more bit either begins an octet or is set in the last one. */
  ghost predicate SnocLaw(bs: seq<bool>, b: bool, k: nat)
    requires k < 8
  {
    var p := PackBits(bs);
    && (k != 0 ==> p != [] && p[|p| - 1] < Pow2(k))
    && PackBits(bs + [b]) == AppendBit(p, k, b)
  }

  lemma {:induction false} PackSnoc(bs: seq<bool>, b: bool, q: nat, k: nat)
    requires k < 8 && |bs| == 8 * q + k
    ensures SnocLaw(bs, b, k)
    decreases q
  {
    if q == 0 {
      PackSnocShort(bs, b);
    } else {
      PackSnoc(Drop(bs, 8), b, q - 1, k);
      PackSnocLong(bs, b, k);
    }
  }

  lemma PackSnocShort(bs: seq<bool>, b: bool)
    requires |bs| < 8
    ensures SnocLaw(bs, b, |bs|)
  {
    PackShort(bs);
    PackShort(bs + [b]);
    ByteOfSnoc(bs, b);
  }

  lemma PackSnocLong(bs: seq<bool>, b: bool, k: nat)
    requires |bs| >= 8 && k < 8 && SnocLaw(Drop(bs, 8), b, k)
    ensures SnocLaw(bs, b, k)
  {
    var rest := Drop(bs, 8);
    PackLong(bs);
    PackLong(bs + [b]);
    assert Take(bs + [b], 8) == Take(bs, 8) && Drop(bs + [b], 8) == rest + [b];
    AppendBitFrame(PackBits(bs)[0], PackBits(rest), k, b);
  }

  /** A run of n bits takes ceil(n / 8) octets. */
  lemma {:induction false} PackLength(bs: seq<bool>)
    ensures |PackBits(bs)| == (|bs| + 7) / 8
  {
    if bs != [] { PackLength(Drop(bs, 8)); }
  }

  lemma PackShort(bs: seq<bool>)
    requires |bs| <= 8
    ensures ByteOf(bs) < 256 && PackBits(bs) == if bs == [] then [] else [ByteOf(bs)]
  {
    Pow2Mono(|bs|, 8);
    assert Take(bs, 8) == bs && Drop(bs, 8) == [];
  }

  lemma PackLong(bs: seq<bool>)
    requires |bs| >= 8
    ensures ByteOf(Take(bs, 8)) < 256
    ensures PackBits(bs) == [ByteOf(Take(bs, 8))] + PackBits(Drop(bs, 8))
  {
  }

  lemma AppendBitFrame(octet: byte, p: bytes, k: nat, b: bool)
    requires k < 8 && (k != 0 ==> p != [] && p[|p| - 1] < Pow2(k))
    ensures AppendBit([octet] + p, k, b) == [octet] + AppendBit(p, k, b)
  {
    if k == 0 {
      assert [octet] + p + [0] == [octet] + (p + [0]);
    }
  }

  lemma {:induction false} PutAllAppend(st: WState, fs: seq<Field>, gs: seq<Field>)
    requires WValid(st)
    ensures var r := PutAll(st, fs);
      PutAll(st, fs + gs) == if r.Ok? then PutAll(r.value, gs) else r
    decreases fs
  {
    if fs == [] {
      assert fs + gs == gs;
    } else {
      assert (fs + gs)[1..] == fs[1..] + gs;
      if PutField(st, fs[0]).Ok? { PutAllAppend(PutField(st, fs[0]).value, fs[1..], gs); }
    }
  }

  /** From a clean state, a run of bits leaves exactly its packed octets pending. */
  lemma {:induction false} PutRun(out: bytes, bs: seq<bool>)
    ensures PutAll(WState(out, [], 0), Bools(bs)) == Ok(WState(out, PackBits(bs), |bs|))
    ensures WValid(WState(out, PackBits(bs), |bs|))
  {
    var st := WState(out, [], 0);
    if bs != [] {
      var init, b := bs[..|bs| - 1], bs[|bs| - 1];
      PutRun(out, init);
      assert Bools(bs) == Bools(init) + [Bit(b)] && bs == init + [b];
      PutAllAppend(st, Bools(init), [Bit(b)]);
      var mid := WState(out, PackBits(init), |init|);
      assert PutAll(mid, [Bit(b)]) == Ok(PutBit(mid, b)) by {
        assert [Bit(b)][1..] == [];
      }
      PackSnoc(init, b, |init| / 8, |init| % 8);
      PackLength(init);
    }
  }

  /** The field after a run of bits finds the run's octets already flushed. */
  lemma PutRunThen(out: bytes, run: seq<bool>, rest: seq<Field>)
    requires rest != [] && !rest[0].Bit? && !rest[0].Timestamp?
    ensures PutAll(WState(out, [], 0), Bools(run) + rest) == PutAll(WState(out + PackBits(run), [], 0), rest)
  {
    var mid := WState(out, PackBits(run), |run|);
    PutRun(out, run);
    PutAllAppend(WState(out, [], 0), Bools(run), rest);
    assert Flush(mid) == WState(out + PackBits(run), [], 0) by {
      if run == [] { assert out + PackBits(run) == out; }
    }
    assert PutField(mid, rest[0]) == PutField(Flush(mid), rest[0]);
  }

  /** `r` fails just when `e` does, and otherwise holds `out` followed by `e`. */
  ghost predicate Matches(out: bytes, r: Result<WState, Error>, e: Result<bytes, Error>) {
    && (r.Ok? <==> e.Ok?)
    && (r.Ok? ==> Flush(r.value).out == out + e.value)
  }

  function Prefixed(p: bytes, e: Result<bytes, Error>): Result<bytes, Error> {
    match e
    case Ok(b) => Ok(p + b)
    case Err(x) => Err(x)
  }

  lemma MatchesPrefixed(out: bytes, p: bytes, r: Result<WState, Error>, e: Result<bytes, Error>)
    requires Matches(out + p, r, e)
    ensures Matches(out, r, Prefixed(p, e))
  {
    if e.Ok? { assert (out + p) + e.value == out + (p + e.value); }
  }

  ghost predicate WrittenAs(out: bytes, fs: seq<Field>) {
    Matches(out, PutAll(WState(out, [], 0), fs), Encode(fs))
  }

  lemma EncodeRun(run: seq<bool>, rest: seq<Field>)
    requires run != [] && (rest == [] || !rest[0].Bit?)
    ensures Encode(Bools(run) + rest) ==
            Prefixed(PackBits(run), Encode(rest))
  {
    var fs := Bools(run) + rest;
    assert forall i :: 0 <= i < |run| ==> fs[i] == Bit(run[i]);
    assert rest != [] ==> fs[|run|] == rest[0];
    assert BitRun(fs) == run;
    assert fs[|run|..] == rest;
  }

  lemma WrittenAfterRun(out: bytes, run: seq<bool>, rest: seq<Field>)
    requires run != [] && rest != [] && !rest[0].Bit? && !rest[0].Timestamp?
    requires WrittenAs(out + PackBits(run), rest)
    ensures WrittenAs(out, Bools(run) + rest)
  {
    var r := PutAll(WState(out + PackBits(run), [], 0), rest);
    PutRunThen(out, run, rest);
    EncodeRun(run, rest);
    MatchesPrefixed(out, PackBits(run), r, Encode(rest));
  }

  lemma WrittenAfterField(out: bytes, fs: seq<Field>)
    requires fs != [] && !fs[0].Bit?
    requires EncField(fs[0]).Ok? ==> WrittenAs(out + EncField(fs[0]).value, fs[1..])
    ensures WrittenAs(out, fs)
  {
    if EncField(fs[0]).Ok? {
      var e := EncField(fs[0]).value;
      MatchesPrefixed(out, e, PutAll(WState(out + e, [], 0), fs[1..]), Encode(fs[1..]));
    }
  }

  /** The writer, fed any fields with aligned timestamps, holds exactly their wire form. */
  lemma {:induction false} WriterEncodes(out: bytes, fs: seq<Field>)
    requires StampsAligned(fs)
    ensures WrittenAs(out, fs)
    decreases |fs|
  {
    if fs == [] {
    } else if fs[0].Bit? {
      var run := BitRun(fs);
      var rest := fs[|run|..];
      assert fs == Bools(run) + rest;
      if rest == [] {
        PutRun(out, run);
        assert Bools(run) == fs;
        assert PackBits(run) + [] == PackBits(run);
      } else {
        assert !rest[0].Timestamp? by { assert rest[0] == fs[|run|] && fs[|run| - 1].Bit?; }
        WriterEncodes(out + PackBits(run), rest);
        WrittenAfterRun(out, run, rest);
      }
    } else {
      if EncField(fs[0]).Ok? { WriterEncodes(out + EncField(fs[0]).value, fs[1..]); }
      WrittenAfterField(out, fs);
    }
  }

  // ---------- the reader undoes the wire form ----------

  /** The value a field was written with. */
  function ValueOf(f: Field): Value
    requires f.Bit? || EncField(f).Ok?
  {
    match f
    case Bit(b) => Flag(b)
    case ShortStr(s) => Chars(s)
    case LongStr(s) => Chars(s)
    case TableField(es) => Map(AsMap(map[], es))
    case _ => Number(f.n)
  }

  /** A time the reader can convert, a short string it can decode, and a table of such. */
  predicate Legible(f: Field) {
    match f
    case ShortStr(s) => Utf8(s)
    case TableField(es) => LegibleListing(es)
    case Timestamp(n) => Datable(n)
    case _ => true
  }

  ghost predicate AllLegible(fs: seq<Field>) { forall i :: 0 <= i < |fs| ==> Legible(fs[i]) }

  ghost predicate Writable(fs: seq<Field>) {
    forall i :: 0 <= i < |fs| ==> fs[i].Bit? || EncField(fs[i]).Ok?
  }

  ghost function ValuesOf(fs: seq<Field>): seq<Value>
    requires Writable(fs)
  {
    seq(|fs|, i requires 0 <= i < |fs| => ValueOf(fs[i]))
  }

  /** A field comes back with the value written, or reading it fails. */
  lemma FieldReadsBack(f: Field, rest: bytes)
    requires !f.Bit? && EncField(f).Ok?
    ensures if Legible(f) then GetAligned(EncField(f).value + rest, KindOf(f)) == Ok((ValueOf(f), rest))
            else GetAligned(EncField(f).value + rest, KindOf(f)).Err?
  {
    hide Be, ReadUint, ReadStr, ReadText, ReadTime, ReadTable, EncTable, Pow256, Utf8, LegibleListing;
    Widths();
    match f
    case Octet(n) => UintRoundTrip(n, 1, rest);
    case Short(n) => UintRoundTrip(n, 2, rest);
    case Long(n) => UintRoundTrip(n, 4, rest);
    case LongLong(n) => UintRoundTrip(n, 8, rest);
    case ShortStr(s) => TextReadsBack(s, rest);
    case LongStr(s) => StrRoundTrip(s, 4, rest);
    case TableField(es) => TableReadsBack(es, rest);
    case Timestamp(n) => TimeReadsBack(n, rest);
  }

  lemma {:induction false} GetAllAppend(st: RState, ks: seq<Kind>, ls: seq<Kind>)
    requires GetAll(st, ks).Ok?
    ensures var (vs, mid) := GetAll(st, ks).value;
      GetAll(st, ks + ls) == match GetAll(mid, ls)
                             case Ok((ws, end)) => Ok((vs + ws, end))
                             case Err(e) => Err(e)
    decreases ks
  {
    if ks == [] {
      assert ks + ls == ls;
      if GetAll(st, ls).Ok? { assert [] + GetAll(st, ls).value.0 == GetAll(st, ls).value.0; }
    } else {
      assert (ks + ls)[1..] == ks[1..] + ls;
      var (v, st') := GetField(st, ks[0]).value;
      GetAllAppend(st', ks[1..], ls);
      var (ws, mid) := GetAll(st', ks[1..]).value;
      if GetAll(mid, ls).Ok? {
        assert [v] + (ws + GetAll(mid, ls).value.0) == ([v] + ws) + GetAll(mid, ls).value.0;
      }
    }
  }

  /**
    The reader is about to read the run `bs`: it holds the next `bitcount` of them in `bits` (fewer
    when the run ends inside the octet, whose high bits are then zero), and the rest is still packed.
   */
  ghost predicate HoldsRun(st: RState, bs: seq<bool>, tail: bytes) {
    && st.bitcount <= 8
    && st.bits == ByteOf(Take(bs, st.bitcount))
    && st.rest == PackBits(Drop(bs, st.bitcount)) + tail
  }

  lemma RefillBits(st: RState, bs: seq<bool>, tail: bytes)
    requires bs != [] && st.bitcount == 0 && HoldsRun(st, bs, tail)
    ensures st.rest != [] && HoldsRun(RState(st.rest[1..], st.rest[0], 8), bs, tail)
  {
    assert Drop(bs, 0) == bs;
    assert PackBits(bs) + tail == [ByteOf(Take(bs, 8))] + (PackBits(Drop(bs, 8)) + tail);
  }

  lemma GetBitStep(st: RState, bs: seq<bool>, tail: bytes)
    requires bs != [] && HoldsRun(st, bs, tail)
    ensures GetBit(st).Ok? && GetBit(st).value.0 == bs[0] && HoldsRun(GetBit(st).value.1, bs[1..], tail)
  {
    if st.bitcount == 0 { RefillBits(st, bs, tail); }
    var st' := if st.bitcount == 0 then RState(st.rest[1..], st.rest[0], 8) else st;
    var held := Take(bs, st'.bitcount);
    AndBit(st'.bits, 0);
    assert Pow2(0) == 1 && Pow2(1) == 2;
    assert held[1..] == Take(bs[1..], st'.bitcount - 1);
    assert Drop(bs, st'.bitcount) == Drop(bs[1..], st'.bitcount - 1);
  }

  lemma RunDone(st: RState, tail: bytes)
    requires HoldsRun(st, [], tail)
    ensures st.rest == tail
  {
  }

  lemma {:induction false} RunReadsBack(st: RState, bs: seq<bool>, tail: bytes)
    requires HoldsRun(st, bs, tail)
    ensures var r := GetAll(st, KindsOf(Bools(bs)));
      r.Ok? && r.value.0 == ValuesOf(Bools(bs)) && r.value.1.rest == tail
    decreases |bs|
  {
    hide HoldsRun, GetBit;
    if bs == [] {
      RunDone(st, tail);
    } else {
      GetBitStep(st, bs, tail);
      RunReadsBack(GetBit(st).value.1, bs[1..], tail);
      assert KindsOf(Bools(bs))[1..] == KindsOf(Bools(bs[1..]));
      assert ValuesOf(Bools(bs)) == [Flag(bs[0])] + ValuesOf(Bools(bs[1..]));
    }
  }

  /** Reading a run of bits and then whatever follows it. */
  lemma HoldsAll(st: RState, run: seq<bool>, tail: bytes)
    requires st == RState(PackBits(run) + tail, 0, 0)
    ensures HoldsRun(st, run, tail)
  {
    assert Take(run, 0) == [] && Drop(run, 0) == run;
  }

  lemma KindsAppend(run: seq<bool>, rest: seq<Field>)
    requires run != []
    ensures KindsOf(Bools(run) + rest) == KindsOf(Bools(run)) + KindsOf(rest)
    ensures KindsOf(Bools(run) + rest) != [] && KindsOf(Bools(run) + rest)[0] == KBit
  {
  }

  lemma ReadRunThen(st: RState, run: seq<bool>, rest: seq<Field>, tail: bytes) returns (mid: RState)
    requires st.bitcount == 0 && st.rest == PackBits(run) + tail && run != []
    ensures mid.rest == tail
    ensures GetAll(st, KindsOf(Bools(run) + rest)) == match GetAll(mid, KindsOf(rest))
                                                      case Ok((vs, end)) => Ok((ValuesOf(Bools(run)) + vs, end))
                                                      case Err(e) => Err(e)
  {
    var st0 := RState(st.rest, 0, 0);
    HoldsAll(st0, run, tail);
    hide HoldsRun, PackBits, ValuesOf;
    RunReadsBack(st0, run, tail);
    mid := GetAll(st0, KindsOf(Bools(run))).value.1;
    GetAllAppend(st0, KindsOf(Bools(run)), KindsOf(rest));
    var ks := KindsOf(Bools(run) + rest);
    KindsAppend(run, rest);
    hide KindsOf, GetBit;
    assert GetField(st, KBit) == GetField(st0, KBit);
    assert GetAll(st, ks) == GetAll(st0, ks);
  }

  /** Reading the kinds of `fs` gives their values and leaves just `tail`, or fails where one is not legible. */
  ghost predicate Decodes(st: RState, fs: seq<Field>, tail: bytes) {
    && Writable(fs)
    && var r := GetAll(st, KindsOf(fs));
       if AllLegible(fs) then r.Ok? && r.value.0 == ValuesOf(fs) && r.value.1.rest == tail else r.Err?
  }

  lemma FirstField(fs: seq<Field>)
    requires fs != []
    ensures Writable(fs) <==> (fs[0].Bit? || EncField(fs[0]).Ok?) && Writable(fs[1..])
    ensures AllLegible(fs) <==> Legible(fs[0]) && AllLegible(fs[1..])
    ensures KindsOf(fs)[0] == KindOf(fs[0]) && KindsOf(fs)[1..] == KindsOf(fs[1..])
    ensures Writable(fs) ==> ValuesOf(fs) == [ValueOf(fs[0])] + ValuesOf(fs[1..])
  {
    hide EncField, Legible, ValueOf, KindOf;
    assert forall i :: 1 <= i < |fs| ==> fs[i] == fs[1..][i - 1];
  }

  lemma DecodesField(st: RState, fs: seq<Field>, rest: bytes, tail: bytes)
    requires fs != [] && !fs[0].Bit? && EncField(fs[0]).Ok? && Decodes(RState(rest, 0, 0), fs[1..], tail)
    requires st.rest == EncField(fs[0]).value + rest
    ensures Decodes(st, fs, tail)
  {
    hide GetAligned, EncField, Legible;
    FirstField(fs);
    FieldReadsBack(fs[0], rest);
  }

  lemma DecodesRun(st: RState, run: seq<bool>, fs: seq<Field>, rest: bytes, tail: bytes) returns (mid: RState)
    requires st.bitcount == 0 && st.rest == PackBits(run) + rest && run != []
    ensures mid.rest == rest && (Decodes(mid, fs, tail) ==> Decodes(st, Bools(run) + fs, tail))
  {
    hide Legible;
    mid := ReadRunThen(st, run, fs, rest);
    if Decodes(mid, fs, tail) { WritableRun(run, fs); }
  }

  lemma WritableRun(run: seq<bool>, fs: seq<Field>)
    requires Writable(fs)
    ensures Writable(Bools(run) + fs) && ValuesOf(Bools(run) + fs) == ValuesOf(Bools(run)) + ValuesOf(fs)
    ensures AllLegible(Bools(run) + fs) <==> AllLegible(fs)
  {
    var all := Bools(run) + fs;
    assert forall i :: 0 <= i < |run| ==> all[i] == Bit(run[i]);
    assert forall i :: 0 <= i < |fs| ==> fs[i] == all[|run| + i];
  }

  /** Reading the wire form with the kinds written returns the values and leaves just what follows, or fails. */
  lemma {:induction false} ReaderDecodes(st: RState, fs: seq<Field>, tail: bytes)
    requires Encode(fs).Ok? && st.rest == Encode(fs).value + tail
    requires fs == [] || !fs[0].Bit? || st.bitcount == 0
    ensures Decodes(st, fs, tail)
    decreases |fs|
  {
    if fs == [] {
      assert st.rest == tail;
    } else if fs[0].Bit? {
      var run := BitRun(fs);
      var rest := fs[|run|..];
      assert fs == Bools(run) + rest;
      var data := Encode(rest).value + tail;
      assert st.rest == PackBits(run) + data;
      var mid := DecodesRun(st, run, rest, data, tail);
      ReaderDecodes(mid, rest, tail);
    } else {
      var data := Encode(fs[1..]).value + tail;
      assert st.rest == EncField(fs[0]).value + data;
      ReaderDecodes(RState(data, 0, 0), fs[1..], tail);
      DecodesField(st, fs, data, tail);
    }
  }

  // ---------- the round trip, and exactly when it holds ----------

  const NOTHING_WRITTEN := WState([], [], 0)

  /** `getvalue()`: everything written, the pending bits flushed. */
  function Written(fs: seq<Field>): Result<bytes, Error> {
    var st :- PutAll(NOTHING_WRITTEN, fs);
    Ok(Flush(st).out)
  }

  function Unread(data: bytes): RState { RState(data, 0, 0) }

  /** The fields come back with the values written, nothing left. */
  ghost predicate RoundTrips(fs: seq<Field>) {
    && Written(fs).Ok?
    && Writable(fs)
    && GetAll(Unread(Written(fs).value), KindsOf(fs)).Ok?
    && var (vs, end) := GetAll(Unread(Written(fs).value), KindsOf(fs)).value;
       vs == ValuesOf(fs) && end.rest == []
  }

  /** A list of writable fields with aligned timestamps is read back as written exactly when all are legible. */
  lemma FieldsRoundTrip(fs: seq<Field>)
    requires StampsAligned(fs) && Written(fs).Ok?
    ensures Encode(fs) == Written(fs) && Writable(fs)
    ensures RoundTrips(fs) <==> AllLegible(fs)
    ensures !AllLegible(fs) ==> GetAll(Unread(Written(fs).value), KindsOf(fs)).Err?
  {
    WriterEncodes([], fs);
    assert [] + Encode(fs).value == Encode(fs).value;
    assert Encode(fs).value + [] == Encode(fs).value;
    ReaderDecodes(Unread(Encode(fs).value), fs, []);
  }

  /** A timestamp before the epoch is written and cannot be read. */
  lemma EarlyStampLost(n: int)
    requires Tables.Fits64(n) && n < -1
    ensures Written([Timestamp(n)]).Ok? && !RoundTrips([Timestamp(n)])
  {
    var fs := [Timestamp(n)];
    assert PutField(NOTHING_WRITTEN, fs[0]).Ok? && PutAll(NOTHING_WRITTEN, fs).Ok?;
    assert fs[1..] == [] && StampsAligned(fs) && !Legible(fs[0]);
    FieldsRoundTrip(fs);
  }

  /** A writable field of each kind: set bits, and otherwise zeros and empty strings. */
  function Sample(k: Kind): Field {
    match k
    case KBit => Bit(true)
    case KOctet => Octet(0)
    case KShort => Short(0)
    case KLong => Long(0)
    case KLongLong => LongLong(0)
    case KShortStr => ShortStr([])
    case KLongStr => LongStr([])
    case KTable => TableField([])
    case KTimestamp => Timestamp(0)
  }

  ghost predicate Samples(fs: seq<Field>) { forall i :: 0 <= i < |fs| ==> fs[i] == Sample(KindOf(fs[i])) }

  lemma SampleWritable(k: Kind)
    ensures KindOf(Sample(k)) == k && (Sample(k).Bit? || EncField(Sample(k)).Ok?) && Legible(Sample(k))
  {
    Widths();
  }

  /** Writing only ever appends. */
  lemma {:induction false} OutGrows(st: WState, fs: seq<Field>)
    requires WValid(st) && Samples(fs)
    ensures PutAll(st, fs).Ok? && st.out <= Flush(PutAll(st, fs).value).out
    decreases fs
  {
    if fs != [] {
      SampleWritable(KindOf(fs[0]));
      OutGrows(PutField(st, fs[0]).value, fs[1..]);
    }
  }

  ghost predicate Misread(st: RState, fs: seq<Field>)
    requires Writable(fs)
  {
    GetAll(st, KindsOf(fs)).Ok? ==> GetAll(st, KindsOf(fs)).value.0 != ValuesOf(fs)
  }

  lemma SamplesEncode(fs: seq<Field>)
    requires Samples(fs)
    ensures Writable(fs) && AllLegible(fs)
  {
    forall i | 0 <= i < |fs| ensures (fs[i].Bit? || EncField(fs[i]).Ok?) && Legible(fs[i]) {
      SampleWritable(KindOf(fs[i]));
    }
  }

  /** `data` is what the reader still has to read of `fs`, written after `out` from a clean state. */
  ghost predicate Holds(out: bytes, fs: seq<Field>, data: bytes) {
    var r := PutAll(WState(out, [], 0), fs);
    r.Ok? && Flush(r.value).out == out + data
  }

  lemma CancelPrefix(out: bytes, e: bytes, data: bytes)
    requires out + e <= out + data
    ensures data == e + Drop(data, |e|)
  {
    assert forall i :: 0 <= i < |e| ==> data[i] == (out + data)[|out| + i] == (out + e)[|out| + i] == e[i];
  }

  lemma Assoc(a: bytes, b: bytes, c: bytes)
    ensures a + (b + c) == (a + b) + c
  {
  }

  lemma CancelValues(a: seq<Value>, b: seq<Value>, c: seq<Value>)
    ensures a + b == a + c ==> b == c
  {
    assert b == (a + b)[|a|..] && c == (a + c)[|a|..];
  }

  lemma ValuesAppend(a: seq<Field>, b: seq<Field>)
    requires Writable(a) && Writable(b) && Writable(a + b)
    ensures ValuesOf(a + b) == ValuesOf(a) + ValuesOf(b)
  {
    hide ValueOf;
  }

  lemma MisreadAfterRun(st: RState, run: seq<bool>, rest: seq<Field>, tail: bytes) returns (mid: RState)
    requires st.bitcount == 0 && st.rest == PackBits(run) + tail && run != []
    requires Writable(rest) && Writable(Bools(run) + rest)
    ensures mid.rest == tail && (Misread(mid, rest) ==> Misread(st, Bools(run) + rest))
  {
    mid := ReadRunThen(st, run, rest, tail);
    ValuesAppend(Bools(run), rest);
    hide GetAll, Writable, ValueOf, ValuesOf, KindsOf, PackBits;
    var us, ws := ValuesOf(Bools(run)), ValuesOf(rest);
    if GetAll(mid, KindsOf(rest)).Ok? { CancelValues(us, GetAll(mid, KindsOf(rest)).value.0, ws); }
  }

  lemma MisreadAfterField(st: RState, fs: seq<Field>, tail: bytes)
    requires fs != [] && !fs[0].Bit? && Writable(fs) && Writable(fs[1..]) && Legible(fs[0])
    requires st.rest == EncField(fs[0]).value + tail && Misread(RState(tail, 0, 0), fs[1..])
    ensures Misread(st, fs)
  {
    hide GetAligned, EncField, Legible;
    FieldReadsBack(fs[0], tail);
    FirstField(fs);
    var v, ws := ValueOf(fs[0]), ValuesOf(fs[1..]);
    assert ([v] + ws)[1..] == ws;
    var r := GetAll(RState(tail, 0, 0), KindsOf(fs[1..]));
    if r.Ok? { assert ([v] + r.value.0)[1..] == r.value.0; }
  }

  /** A timestamp overtakes the pending bits: the reader takes its first octet for the bits. */
  lemma StampOvertakes(out: bytes, run: seq<bool>, rest: seq<Field>, st: RState)
    requires run != [] && run[0] && rest != [] && rest[0] == Timestamp(0) && Samples(rest)
    requires Writable(Bools(run) + rest)
    requires st.bitcount == 0 && Holds(out, Bools(run) + rest, st.rest)
    ensures Misread(st, Bools(run) + rest)
  {
    hide GetAll, Misread, Writable, PackBits;
    PutRun(out, run);
    PutAllAppend(WState(out, [], 0), Bools(run), rest);
    var mid := WState(out, PackBits(run), |run|);
    var next := WState(out + Be(0, 8), PackBits(run), |run|);
    assert PutField(mid, rest[0]) == Ok(next);
    OutGrows(next, rest[1..]);
    CancelPrefix(out, Be(0, 8), st.rest);
    assert Be(0, 8)[0] == 0;
    ClearBitMisread(st, Bools(run) + rest);
  }

  /** Where a set bit is due, the reader finds a clear one. */
  lemma ClearBitMisread(st: RState, fs: seq<Field>)
    requires st.bitcount == 0 && st.rest != [] && st.rest[0] == 0
    requires fs != [] && fs[0] == Bit(true) && Writable(fs)
    ensures Misread(st, fs)
  {
    AndBit(0, 0);
    assert !GetBit(st).value.0;
    assert KindsOf(fs)[0] == KBit;
    assert ValuesOf(fs)[0] == Flag(true);
  }

  lemma {:induction false} MisalignedMisread(out: bytes, fs: seq<Field>, st: RState)
    requires Samples(fs) && !StampsAligned(fs)
    requires fs[0].Bit? ==> st.bitcount == 0
    requires Holds(out, fs, st.rest)
    ensures Writable(fs) && Misread(st, fs)
    decreases |fs|, 1
  {
    SamplesEncode(fs);
    if fs[0].Bit? {
      var run := BitRun(fs);
      assert fs[0] == Bit(run[0]) && fs == Bools(run) + fs[|run|..];
      MisalignedRun(out, run, fs[|run|..], st);
    } else {
      var bad :| 0 < bad < |fs| && fs[bad].Timestamp? && fs[bad - 1].Bit?;
      var e := EncField(fs[0]).value;
      SplitWritten(out, e, fs[1..], st.rest);
      assert fs[1..][bad - 1] == fs[bad] && fs[1..][bad - 2] == fs[bad - 1];
      MisalignedMisread(out + e, fs[1..], RState(Drop(st.rest, |e|), 0, 0));
      MisreadAfterField(st, fs, Drop(st.rest, |e|));
    }
  }

  lemma {:induction false} MisalignedRun(out: bytes, run: seq<bool>, rest: seq<Field>, st: RState)
    requires run != [] && run[0] && (rest == [] || !rest[0].Bit?)
    requires Samples(rest) && Writable(Bools(run) + rest) && !StampsAligned(Bools(run) + rest)
    requires st.bitcount == 0 && Holds(out, Bools(run) + rest, st.rest)
    ensures Misread(st, Bools(run) + rest)
    decreases |run| + |rest|, 0
  {
    var fs := Bools(run) + rest;
    var bad :| 0 < bad < |fs| && fs[bad].Timestamp? && fs[bad - 1].Bit?;
    assert bad >= |run| && rest != [] && fs[bad] == rest[bad - |run|];
    if rest[0].Timestamp? {
      assert rest[0] == Sample(KindOf(rest[0]));
      StampOvertakes(out, run, rest, st);
    } else {
      assert fs[bad - 1] == rest[bad - |run| - 1];
      PutRunThen(out, run, rest);
      SplitWritten(out, PackBits(run), rest, st.rest);
      SamplesEncode(rest);
      var mid := MisreadAfterRun(st, run, rest, Drop(st.rest, |PackBits(run)|));
      MisalignedMisread(out + PackBits(run), rest, mid);
    }
  }

  /** What follows `e` in the written data is what the remaining fields write after it. */
  lemma SplitWritten(out: bytes, e: bytes, rest: seq<Field>, data: bytes)
    requires Samples(rest) && PutAll(WState(out + e, [], 0), rest).Ok?
    requires Flush(PutAll(WState(out + e, [], 0), rest).value).out == out + data
    ensures data == e + Drop(data, |e|) && Holds(out + e, rest, Drop(data, |e|))
  {
    hide PutAll, Samples, Flush, Drop;
    OutGrows(WState(out + e, [], 0), rest);
    CancelPrefix(out, e, data);
    Assoc(out, e, Drop(data, |e|));
  }

  /**
    Exactly which layouts are safe: all writable, legible values of the kinds `ks` survive the round
    trip if and only if no timestamp directly follows a bit.
   */
  lemma SafeLayouts(ks: seq<Kind>)
    ensures (forall i :: 0 < i < |ks| && ks[i] == KTimestamp ==> ks[i - 1] != KBit)
            <==> (forall fs | KindsOf(fs) == ks && Written(fs).Ok? && AllLegible(fs) :: RoundTrips(fs))
  {
    hide Written, RoundTrips, Legible;
    if forall i :: 0 < i < |ks| && ks[i] == KTimestamp ==> ks[i - 1] != KBit {
      forall fs | KindsOf(fs) == ks && Written(fs).Ok? && AllLegible(fs)
        ensures RoundTrips(fs)
      {
        assert forall i :: 0 <= i < |fs| ==> KindsOf(fs)[i] == KindOf(fs[i]);
        FieldsRoundTrip(fs);
      }
    } else {
      var i :| 0 < i < |ks| && ks[i] == KTimestamp && ks[i - 1] == KBit;
      var fs := UnsafeLayout(ks, i);
    }
  }

  /** Values of a layout with a timestamp right behind a bit that do not come back. */
  lemma UnsafeLayout(ks: seq<Kind>, i: nat) returns (fs: seq<Field>)
    requires 0 < i < |ks| && ks[i] == KTimestamp && ks[i - 1] == KBit
    ensures KindsOf(fs) == ks && Written(fs).Ok? && AllLegible(fs) && !RoundTrips(fs)
  {
    fs := seq(|ks|, i requires 0 <= i < |ks| => Sample(ks[i]));
    forall k ensures KindOf(Sample(k)) == k { SampleWritable(k); }
    assert KindsOf(fs) == ks;
    assert fs[i].Timestamp? && fs[i - 1].Bit?;
    SamplesEncode(fs);
    OutGrows(NOTHING_WRITTEN, fs);
    assert [] + Written(fs).value == Written(fs).value;
    MisalignedMisread([], fs, Unread(Written(fs).value));
  }

  // ---------- the octets of a field ----------

  /** The first of eight bits is the least significant. */
  lemma {:induction false} PackedBit(bs: seq<bool>, i: nat)
    requires i < |bs|
    ensures i / 8 < |PackBits(bs)|
    ensures (PackBits(bs)[i / 8] / Pow2(i % 8)) % 2 == if bs[i] then 1 else 0
    decreases |bs|
  {
    PackLength(bs);
    if i < 8 {
      ByteBit(Take(bs, 8), i);
    } else {
      PackLong(bs);
      PackedBit(Drop(bs, 8), i - 8);
      assert (i - 8) / 8 == i / 8 - 1 && (i - 8) % 8 == i % 8 && Drop(bs, 8)[i - 8] == bs[i];
    }
  }

  lemma {:induction false} ByteBit(bs: seq<bool>, i: nat)
    requires i < |bs|
    ensures (ByteOf(bs) / Pow2(i)) % 2 == if bs[i] then 1 else 0
    decreases i
  {
    var low, rest := if bs[0] then 1 else 0, ByteOf(bs[1..]);
    if i == 0 {
      assert Pow2(0) == 1 && ByteOf(bs) == low + 2 * rest;
    } else {
      ByteBit(bs[1..], i - 1);
      DivDiv(ByteOf(bs), Pow2(i - 1));
      assert ByteOf(bs) / 2 == rest;
    }
  }

  /** Integers in network order, strings behind their length, and times in two's complement. */
  lemma FieldOctets(f: Field)
    requires !f.Bit?
    ensures f.Octet? ==> EncField(f) == if 0 <= f.n <= 255 then Ok([f.n]) else Err(OutOfRange)
    ensures f.Short? ==> EncField(f) == if 0 <= f.n <= 0xffff then Ok([f.n / 256, f.n % 256]) else Err(OutOfRange)
    ensures f.Long? ==> EncField(f) == if 0 <= f.n <= 0xffff_ffff then Ok(Be(f.n, 4)) else Err(OutOfRange)
    ensures f.LongLong? ==>
              EncField(f) == if 0 <= f.n <= 0xffff_ffff_ffff_ffff then Ok(Be(f.n, 8)) else Err(OutOfRange)
    ensures f.ShortStr? ==> EncField(f) == if |f.s| <= 255 then Ok([|f.s|] + f.s) else Err(TooLong)
    ensures f.LongStr? ==> EncField(f) == if |f.s| <= 0xffff_ffff then Ok(Be(|f.s|, 4) + f.s) else Err(OutOfRange)
    ensures f.Timestamp? && 0 <= f.n < 0x8000_0000_0000_0000 ==> EncField(f) == Ok(Be(f.n, 8))
    ensures f.Timestamp? && -0x8000_0000_0000_0000 <= f.n < 0 ==>
              EncField(f) == Ok(Be(0x1_0000_0000_0000_0000 + f.n, 8))
    ensures f.Timestamp? && !(-0x8000_0000_0000_0000 <= f.n < 0x8000_0000_0000_0000) ==>
              EncField(f) == Err(OutOfRange)
    ensures f.TableField? ==> EncField(f) == EncTable(f.entries)
  {
    hide Be, Pow256, EncTable;
    Widths();
    if f.Octet? && 0 <= f.n <= 255 { OneOctet(f.n); }
    if f.Short? && 0 <= f.n <= 0xffff { TwoOctets(f.n); }
    if f.ShortStr? && |f.s| <= 255 { OneOctet(|f.s|); }
  }

  lemma TwoOctets(n: nat)
    requires n <= 0xffff
    ensures Be(n, 2) == [n / 256, n % 256]
  {
    OneOctet(n / 256);
  }
}
