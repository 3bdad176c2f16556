/**
  The property list of a content header: flag words announcing which properties are present,
  then the present ones in schema order.
 */
module Properties {
  import opened Common
  import opened Bits
  import opened Bytes
  import opened Tables
  import opened Fields
  import Serialization

  datatype Slot = Slot(name: string, kind: Kind)

  type Schema = seq<Slot>

  const MESSAGE: Schema := [
    Slot("content_type", KShortStr), Slot("content_encoding", KShortStr), Slot("application_headers", KTable),
    Slot("delivery_mode", KOctet), Slot("priority", KOctet), Slot("correlation_id", KShortStr),
    Slot("reply_to", KShortStr), Slot("expiration", KShortStr), Slot("message_id", KShortStr),
    Slot("timestamp", KTimestamp), Slot("type", KShortStr), Slot("user_id", KShortStr),
    Slot("app_id", KShortStr), Slot("cluster_id", KShortStr)]

  datatype Failure = Field(error: Error) | NegativeShift

  function Lift<T>(r: Result<T, Error>): Result<T, Failure> {
    match r
    case Ok(v) => Ok(v)
    case Err(e) => Err(Field(e))
  }

  // ---------- writing ----------

  datatype Packing = Packing(shift: int, word: nat, words: seq<nat>, raw: WState)

  function PackSlot(st: Packing, slot: Slot, props: map<string, Fields.Field>): (r: Result<Packing, Failure>)
    requires WValid(st.raw)
    ensures r.Ok? ==> WValid(r.value.raw)
  {
    if slot.name !in props then Ok(st.(shift := st.shift - 1))
    else
      var st1 := if st.shift == 0 then Packing(15, 0, st.words + [st.word], st.raw) else st;
      if st1.shift < 0 then Err(NegativeShift)
      else
        var word := Or(st1.word, Shl(1, st1.shift));
        var raw :- if slot.kind == KBit then Ok(st1.raw) else Lift(PutField(st1.raw, props[slot.name]));
        Ok(Packing(st1.shift - 1, word, st1.words, raw))
  }

  function PackSlots(st: Packing, schema: Schema, props: map<string, Fields.Field>): Result<Packing, Failure>
    requires WValid(st.raw)
    decreases schema
  {
    if schema == [] then Ok(st)
    else
      var st' :- PackSlot(st, schema[0], props);
      PackSlots(st', schema[1..], props)
  }

  /** The flag words and then the values; every word is written as a 16-bit integer. */
  function Serialize(schema: Schema, props: map<string, Fields.Field>): Result<bytes, Failure> {
    var st :- PackSlots(Packing(15, 0, [], NOTHING_WRITTEN), schema, props);
    var words :- Lift(PutAll(NOTHING_WRITTEN, WordFields(st.words + [st.word])));
    Ok(Flush(words).out + Flush(st.raw).out)
  }

  function WordFields(words: seq<nat>): seq<Fields.Field> {
    seq(|words|, i requires 0 <= i < |words| => Short(words[i]))
  }

  // ---------- reading ----------

  /** 16-bit words up to and including the first whose low bit is clear. */
  function ReadWords(data: bytes): (r: Result<(seq<nat>, bytes), Error>)
    decreases |data|
  {
    var (w, rest) :- ReadUint(data, 2);
    if And(w, 1) == 0 then Ok(([w], rest))
    else
      var (ws, end) :- ReadWords(rest);
      Ok(([w] + ws, end))
  }

  datatype Loading = Loading(shift: nat, word: nat, words: seq<nat>, st: RState, found: map<string, Value>)

  function LoadSlot(l: Loading, slot: Slot): Result<Loading, Error>
    requires l.shift != 0 || l.words != []
  {
    var l1 := if l.shift == 0 then l.(word := l.words[0], words := l.words[1..], shift := 15) else l;
    if And(l1.word, Shl(1, l1.shift)) != 0 then
      var (v, st) :- GetField(l1.st, slot.kind);
      Ok(l1.(shift := l1.shift - 1, st := st, found := l1.found[slot.name := v]))
    else Ok(l1.(shift := l1.shift - 1))
  }

  function LoadSlots(l: Loading, schema: Schema): Result<map<string, Value>, Error>
    decreases schema
  {
    if schema == [] || (l.shift == 0 && l.words == []) then Ok(l.found)
    else
      var l' :- LoadSlot(l, schema[0]);
      LoadSlots(l', schema[1..])
  }

  function Load(schema: Schema, data: bytes): Result<map<string, Value>, Error> {
    var (words, rest) :- ReadWords(data);
    LoadSlots(Loading(0, 0, words, Unread(rest), map[]), schema)
  }

  // ---------- properties that fit their schema ----------

  /** Slots have distinct names, and every property present has a writable value of its slot's kind. */
  ghost predicate Fits(schema: Schema, props: map<string, Fields.Field>) {
    && (forall i, j :: 0 <= i < j < |schema| ==> schema[i].name != schema[j].name)
    && forall i :: 0 <= i < |schema| && schema[i].name in props ==>
         KindOf(props[schema[i].name]) == schema[i].kind && Encodable(props[schema[i].name])
  }

  predicate Encodable(f: Fields.Field) { f.Bit? || EncField(f).Ok? }

  /** `found` with every property of the schema that is present, as the reader should return it. */
  ghost function Collect(found: map<string, Value>, schema: Schema, props: map<string, Fields.Field>)
    : map<string, Value>
    requires AllEncodable(schema, props)
    decreases schema
  {
    if schema == [] then found
    else
      var n := schema[0].name;
      Collect(if n in props then found[n := ValueOf(props[n])] else found, schema[1..], props)
  }

  ghost predicate AllEncodable(schema: Schema, props: map<string, Fields.Field>) {
    forall i :: 0 <= i < |schema| && schema[i].name in props ==> Encodable(props[schema[i].name])
  }

  ghost function Expected(schema: Schema, props: map<string, Fields.Field>): map<string, Value>
    requires Fits(schema, props)
  {
    Collect(map[], schema, props)
  }

  /** `Expected` holds the value set for each property present, and nothing else. */
  lemma {:induction false} CollectLookup(found: map<string, Value>, schema: Schema, props: map<string, Fields.Field>,
                                         n: string)
    requires AllEncodable(schema, props)
    ensures var m := Collect(found, schema, props);
      && (n in m <==> n in found || (n in props && Named(schema, n)))
      && (n in props && Named(schema, n) ==> Encodable(props[n]) && m[n] == ValueOf(props[n]))
      && (n in found && !(n in props && Named(schema, n)) ==> m[n] == found[n])
    decreases schema
  {
    if schema != [] {
      var h := schema[0].name;
      if h in props { assert Encodable(props[h]); }
      CollectLookup(if h in props then found[h := ValueOf(props[h])] else found, schema[1..], props, n);
      if i: int :| 0 <= i < |schema| && schema[i].name == n {
        assert i > 0 ==> schema[1..][i - 1].name == n;
      }
      if i: int :| 0 <= i < |schema[1..]| && schema[1..][i].name == n {
        assert schema[i + 1].name == n;
      }
    }
  }

  ghost predicate Named(schema: Schema, n: string) { exists i :: 0 <= i < |schema| && schema[i].name == n }

  /** Every property present is legible to the reader. */
  ghost predicate AllLegible(schema: Schema, props: map<string, Fields.Field>) {
    forall i :: 0 <= i < |schema| && schema[i].name in props ==> Legible(props[schema[i].name])
  }

  ghost predicate RoundTrips(schema: Schema, props: map<string, Fields.Field>)
    requires Fits(schema, props)
  {
    && Serialize(schema, props).Ok?
    && Load(schema, Serialize(schema, props).value) == Ok(Expected(schema, props))
  }

  // ---------- the flag word of at most fifteen slots ----------

  function Bit2(b: bool, n: nat): nat { if b then Pow2(n) else 0 }

  /** The flags of `schema` when its first slot takes bit `shift`. */
  function FlagWord(schema: Schema, props: map<string, Fields.Field>, shift: nat): nat
    requires |schema| <= shift
    decreases schema
  {
    if schema == [] then 0
    else Bit2(schema[0].name in props, shift) + FlagWord(schema[1..], props, shift - 1)
  }

  lemma {:induction false} FlagWordBound(schema: Schema, props: map<string, Fields.Field>, shift: nat)
    requires |schema| <= shift
    ensures FlagWord(schema, props, shift) < Pow2(shift + 1) && FlagWord(schema, props, shift) % 2 == 0
    decreases schema
  {
    if schema != [] {
      FlagWordBound(schema[1..], props, shift - 1);
      assert Pow2(shift) % 2 == 0;
    }
  }

  /** The octets of the present values, in schema order; bits have none. */
  function Values(schema: Schema, props: map<string, Fields.Field>): bytes
    requires AllEncodable(schema, props)
    decreases schema
  {
    if schema == [] then []
    else
      var rest := Values(schema[1..], props);
      if HasValue(schema[0].name, props) then EncField(props[schema[0].name]).value + rest else rest
  }

  /** A property that is present with a value of its own, which a bit has not. */
  predicate HasValue(name: string, props: map<string, Fields.Field>) { name in props && !props[name].Bit? }

  ghost predicate NoBits(schema: Schema) { forall i :: 0 <= i < |schema| ==> schema[i].kind != KBit }

  /** No bit property is present. */
  ghost predicate NoBitSet(schema: Schema, props: map<string, Fields.Field>) {
    forall i :: 0 <= i < |schema| && schema[i].name in props ==> schema[i].kind != KBit
  }

  /** No table property is present behind a bit property that is. */
  ghost predicate TablesFirst(schema: Schema, props: map<string, Fields.Field>) {
    forall i, j | 0 <= i < j < |schema| && schema[i].name in props && schema[j].name in props ::
      schema[i].kind == KBit ==> schema[j].kind != KTable
  }

  lemma ShiftedHigh(high: nat, here: nat, p: nat, low: nat)
    ensures high * (2 * p) + (here * p + low) == (2 * high + here) * p + low
  {
  }

  /** Setting the flag of a slot whose bit and all lower ones are still clear. */
  lemma SetFlag(word: nat, shift: nat, high: nat)
    requires word == high * Pow2(shift + 1)
    ensures Or(word, Shl(1, shift)) == word + Pow2(shift)
    ensures word == (2 * high) * Pow2(shift) && word + Pow2(shift) == (2 * high + 1) * Pow2(shift)
  {
    ShiftedHigh(high, 1, Pow2(shift), 0);
    ShiftedHigh(high, 0, Pow2(shift), 0);
    ModUnique(word, Pow2(shift), 2 * high, 0);
    OrClearBit(word, shift);
  }

  lemma NextPower(n: nat)
    ensures Pow2(n + 1) == 2 * Pow2(n)
  {
  }

  lemma PackAbsentSlot(st: Packing, slot: Slot, props: map<string, Fields.Field>)
    requires WValid(st.raw) && slot.name !in props
    ensures PackSlot(st, slot, props) == Ok(st.(shift := st.shift - 1))
  {
  }

  /** A property that is present: its flag is set and its octets follow. */
  lemma PackPresent(st: Packing, slot: Slot, props: map<string, Fields.Field>, high: nat) returns (st': Packing)
    requires slot.name in props && !props[slot.name].Bit? && EncField(props[slot.name]).Ok? && slot.kind != KBit
    requires st.shift > 0 && st.word == high * Pow2(st.shift + 1) && st.raw == WState(st.raw.out, [], 0)
    ensures PackSlot(st, slot, props) == Ok(st')
    ensures st' == Packing(st.shift - 1, st.word + Pow2(st.shift), st.words,
                           WState(st.raw.out + EncField(props[slot.name]).value, [], 0))
    ensures st'.word == (2 * high + 1) * Pow2(st.shift)
  {
    hide Or, EncField;
    SetFlag(st.word, st.shift, high);
    st' := PackSlot(st, slot, props).value;
  }

  /** A bit that is present: its flag is set and nothing follows. */
  lemma PackPresentBit(st: Packing, slot: Slot, props: map<string, Fields.Field>, high: nat) returns (st': Packing)
    requires slot.name in props && slot.kind == KBit && WValid(st.raw)
    requires st.shift > 0 && st.word == high * Pow2(st.shift + 1)
    ensures PackSlot(st, slot, props) == Ok(st')
    ensures st' == st.(shift := st.shift - 1, word := st.word + Pow2(st.shift))
    ensures st'.word == (2 * high + 1) * Pow2(st.shift)
  {
    hide Or;
    SetFlag(st.word, st.shift, high);
    st' := PackSlot(st, slot, props).value;
  }

  /** The packing loop sets one flag bit for each property present and appends the values. */
  lemma {:induction false} PackShortSchema(st: Packing, schema: Schema, props: map<string, Fields.Field>, high: nat)
    requires Fits(schema, props) && |schema| <= st.shift
    requires st.word == high * Pow2(st.shift + 1) && st.raw == WState(st.raw.out, [], 0)
    ensures PackSlots(st, schema, props) ==
            Ok(Packing(st.shift - |schema|, st.word + FlagWord(schema, props, st.shift), st.words,
                       WState(st.raw.out + Values(schema, props), [], 0)))
    decreases schema
  {
    if schema == [] {
      assert st.raw.out + [] == st.raw.out;
    } else {
      hide PackSlot, Pow2, FlagWord, Values, Fits, Octets;
      FitsTail(schema, props);
      FirstOf(schema, props, st.shift);
      var st' := PackOne(st, schema[0], props, high);
      PackShortSchema(st', schema[1..], props, 2 * high + if schema[0].name in props then 1 else 0);
      Regroup(st.raw.out, Octets(schema[0].name, props), Values(schema[1..], props));
    }
  }

  /** The octets of one property; absent ones and bits have none. */
  function Octets(name: string, props: map<string, Fields.Field>): bytes
    requires name in props ==> Encodable(props[name])
  {
    if HasValue(name, props) then EncField(props[name]).value else []
  }

  /** One turn of the packing loop. */
  lemma PackOne(st: Packing, slot: Slot, props: map<string, Fields.Field>, high: nat) returns (st': Packing)
    requires slot.name in props ==> KindOf(props[slot.name]) == slot.kind && Encodable(props[slot.name])
    requires st.shift > 0 && st.word == high * Pow2(st.shift + 1) && st.raw == WState(st.raw.out, [], 0)
    ensures PackSlot(st, slot, props) == Ok(st')
    ensures var here := if slot.name in props then 1 else 0;
      st'.word == st.word + here * Pow2(st.shift) && st'.word == (2 * high + here) * Pow2(st.shift)
    ensures st'.shift == st.shift - 1 && st'.words == st.words
    ensures st'.raw == WState(st.raw.out + Octets(slot.name, props), [], 0)
  {
    hide EncField, PackSlot, Pow2;
    assert st.raw.out + [] == st.raw.out;
    if slot.name in props && slot.kind == KBit {
      st' := PackPresentBit(st, slot, props, high);
    } else if slot.name in props {
      st' := PackPresent(st, slot, props, high);
    } else {
      ShiftedHigh(high, 0, Pow2(st.shift), 0);
      NextPower(st.shift);
      PackAbsentSlot(st, slot, props);
      st' := st.(shift := st.shift - 1);
    }
  }

  lemma Regroup(a: bytes, b: bytes, c: bytes)
    ensures (a + b) + c == a + (b + c)
  {
  }

  /** The first slot's share of the flags and of the values. */
  lemma FirstOf(schema: Schema, props: map<string, Fields.Field>, shift: nat)
    requires schema != [] && |schema| <= shift && Fits(schema, props) && Fits(schema[1..], props)
    ensures FlagWord(schema, props, shift)
         == (if schema[0].name in props then 1 else 0) * Pow2(shift) + FlagWord(schema[1..], props, shift - 1)
    ensures schema[0].name in props ==>
              KindOf(props[schema[0].name]) == schema[0].kind && Encodable(props[schema[0].name])
    ensures Values(schema, props) == Octets(schema[0].name, props) + Values(schema[1..], props)
  {
    assert [] + Values(schema[1..], props) == Values(schema[1..], props);
  }

  lemma FitsTail(schema: Schema, props: map<string, Fields.Field>)
    requires Fits(schema, props) && schema != []
    ensures Fits(schema[1..], props) && (NoBitSet(schema, props) ==> NoBitSet(schema[1..], props))
    ensures TablesFirst(schema, props) ==> TablesFirst(schema[1..], props)
  {
    forall i | 0 <= i < |schema[1..]|
      ensures schema[1..][i] == schema[i + 1]
    {
    }
  }

  /** Testing a flag bit tells whether the next slot's property is present. */
  lemma FlagTest(schema: Schema, props: map<string, Fields.Field>, shift: nat, word: nat, high: nat)
    requires schema != [] && |schema| <= shift
    requires word == high * Pow2(shift + 1) + FlagWord(schema, props, shift)
    ensures And(word, Shl(1, shift)) != 0 <==> schema[0].name in props
    ensures word == (2 * high + if schema[0].name in props then 1 else 0) * Pow2(shift)
                    + FlagWord(schema[1..], props, shift - 1)
  {
    var here := if schema[0].name in props then 1 else 0;
    var low := FlagWord(schema[1..], props, shift - 1);
    FlagWordBound(schema[1..], props, shift - 1);
    assert FlagWord(schema, props, shift) == here * Pow2(shift) + low;
    hide FlagWord, Pow2, And;
    BitTest(word, shift, high, here, low);
  }

  lemma BitTest(word: nat, shift: nat, high: nat, here: nat, low: nat)
    requires here <= 1 && low < Pow2(shift) && word == high * Pow2(shift + 1) + (here * Pow2(shift) + low)
    ensures And(word, Shl(1, shift)) != 0 <==> here == 1
    ensures word == (2 * high + here) * Pow2(shift) + low
  {
    hide And;
    ShiftedHigh(high, here, Pow2(shift), low);
    ModUnique(word, Pow2(shift), 2 * high + here, low);
    AndBit(word, shift);
  }

  lemma FirstSlot(schema: Schema, props: map<string, Fields.Field>)
    requires schema != []
    ensures AllLegible(schema, props) <==>
              (schema[0].name in props ==> Legible(props[schema[0].name])) && AllLegible(schema[1..], props)
  {
    hide Legible;
    assert forall i :: 1 <= i < |schema| ==> schema[i] == schema[1..][i - 1];
  }

  /** The loading loop finds exactly the properties the packing loop announced, or fails at one it cannot read. */
  lemma {:induction false} LoadShortSchema(l: Loading, schema: Schema, props: map<string, Fields.Field>, high: nat,
                                           tail: bytes)
    requires Fits(schema, props) && NoBitSet(schema, props) && |schema| <= l.shift
    requires l.word == high * Pow2(l.shift + 1) + FlagWord(schema, props, l.shift)
    requires l.st.rest == Values(schema, props) + tail
    ensures if AllLegible(schema, props) then LoadSlots(l, schema) == Ok(Collect(l.found, schema, props))
            else LoadSlots(l, schema).Err?
    decreases schema
  {
    hide And, Pow2, FlagWord, GetAligned, EncField, Legible;
    if schema == [] {
    } else {
      FitsTail(schema, props);
      FirstSlot(schema, props);
      FlagTest(schema, props, l.shift, l.word, high);
      var n := schema[0].name;
      if n in props {
        var rest := Values(schema[1..], props) + tail;
        assert l.st.rest == EncField(props[n]).value + rest;
        FieldReadsBack(props[n], rest);
        var l' := l.(shift := l.shift - 1, st := RState(rest, 0, 0), found := l.found[n := ValueOf(props[n])]);
        LoadShortSchema(l', schema[1..], props, 2 * high + 1, tail);
      } else {
        LoadShortSchema(l.(shift := l.shift - 1), schema[1..], props, 2 * high, tail);
      }
    }
  }

  // ---------- schemas of any length ----------

  ghost predicate NonePast15(schema: Schema, props: map<string, Fields.Field>) {
    forall i :: 15 <= i < |schema| ==> schema[i].name !in props
  }

  lemma {:induction false} PackAbsent(st: Packing, schema: Schema, props: map<string, Fields.Field>)
    requires WValid(st.raw) && forall i :: 0 <= i < |schema| ==> schema[i].name !in props
    ensures PackSlots(st, schema, props) == Ok(st.(shift := st.shift - |schema|))
    decreases schema
  {
    if schema != [] { PackAbsent(st.(shift := st.shift - 1), schema[1..], props); }
  }

  lemma {:induction false} PackSplit(st: Packing, a: Schema, b: Schema, props: map<string, Fields.Field>)
    requires WValid(st.raw)
    ensures var r := PackSlots(st, a, props);
      r.Ok? ==> WValid(r.value.raw) && PackSlots(st, a + b, props) == PackSlots(r.value, b, props)
    ensures PackSlots(st, a, props).Err? ==> PackSlots(st, a + b, props) == PackSlots(st, a, props)
    decreases a
  {
    if a == [] {
      assert a + b == b;
    } else {
      assert (a + b)[1..] == a[1..] + b;
      if PackSlot(st, a[0], props).Ok? { PackSplit(PackSlot(st, a[0], props).value, a[1..], b, props); }
    }
  }

  /** The reader stops at the sixteenth slot: only one flag word was announced. */
  lemma {:induction false} LoadStops(l: Loading, a: Schema, b: Schema)
    requires l.words == [] && l.shift == |a|
    ensures LoadSlots(l, a + b) == LoadSlots(l, a)
    decreases a
  {
    if a == [] {
    } else {
      assert (a + b)[1..] == a[1..] + b;
      if LoadSlot(l, a[0]).Ok? { LoadStops(LoadSlot(l, a[0]).value, a[1..], b); }
    }
  }

  /** Only slots that are visited can be found. */
  lemma {:induction false} LoadedNames(l: Loading, schema: Schema, name: string)
    requires name !in l.found && forall i :: 0 <= i < |schema| ==> schema[i].name != name
    ensures LoadSlots(l, schema).Ok? ==> name !in LoadSlots(l, schema).value
    decreases schema
  {
    if schema != [] && !(l.shift == 0 && l.words == []) {
      if LoadSlot(l, schema[0]).Ok? { LoadedNames(LoadSlot(l, schema[0]).value, schema[1..], name); }
    }
  }

  /** The continuation bit is never set in any flag word, however long the schema. */
  lemma {:induction false} NoContinuation(st: Packing, schema: Schema, props: map<string, Fields.Field>)
    requires WValid(st.raw) && EvenWords(st)
    ensures var r := PackSlots(st, schema, props);
      r.Ok? ==> EvenWords(r.value) && |r.value.words| >= |st.words|
    decreases schema
  {
    if schema != [] {
      if schema[0].name in props && st.shift >= 0 {
        var word, shift := if st.shift == 0 then 0 else st.word, if st.shift == 0 then 15 else st.shift;
        OrEven(word, shift);
      }
      if PackSlot(st, schema[0], props).Ok? {
        NoContinuation(PackSlot(st, schema[0], props).value, schema[1..], props);
      }
    }
  }

  ghost predicate EvenWords(st: Packing) {
    st.word % 2 == 0 && forall w | w in st.words :: w % 2 == 0
  }

  lemma OrEven(a: nat, n: nat)
    requires a % 2 == 0 && n > 0
    ensures Or(a, Shl(1, n)) % 2 == 0
  {
    assert Shl(1, n) == Pow2(n) && Pow2(n) % 2 == 0;
  }

  /** One even word, written and read back. */
  lemma OneWord(w: nat, rest: bytes)
    requires w < 0x1_0000 && w % 2 == 0
    ensures PutAll(NOTHING_WRITTEN, WordFields([w])) == Ok(WState(Be(w, 2), [], 0))
    ensures ReadWords(Be(w, 2) + rest) == Ok(([w], rest))
  {
    Widths();
    assert WordFields([w]) == [Short(w)] && [Short(w)][1..] == [];
    assert [] + Be(w, 2) == Be(w, 2);
    UintRoundTrip(w, 2, rest);
    AndBit(w, 0);
    assert Pow2(0) == 1;
  }

  /** What is written when no property past the fifteenth slot is present. */
  lemma SerializeShort(schema: Schema, props: map<string, Fields.Field>)
    requires Fits(schema, props) && NonePast15(schema, props)
    ensures var a := Take(schema, 15);
      && Fits(a, props) && FlagWord(a, props, 15) < 0x1_0000 && FlagWord(a, props, 15) % 2 == 0
      && Serialize(schema, props) == Ok(Be(FlagWord(a, props, 15), 2) + Values(a, props))
  {
    var st := PackedShort(schema, props);
    hide PackSlots, PutAll, FlagWord, Values, WordFields;
    var a := Take(schema, 15);
    FlagWordBound(a, props, 15);
    assert Pow2(16) == 0x1_0000 by { assert Pow2(8) == 256; Pow2Add(8, 8); }
    OneWord(st.word, []);
    assert [] + [st.word] == [st.word] && Be(st.word, 2) + [] == Be(st.word, 2);
  }

  /** The packing loop reaches the end with the flags and values of the first fifteen slots. */
  lemma PackedShort(schema: Schema, props: map<string, Fields.Field>) returns (st: Packing)
    requires Fits(schema, props) && NonePast15(schema, props)
    ensures var a := Take(schema, 15);
      && Fits(a, props) && st.word == FlagWord(a, props, 15) && st.words == []
      && st.raw == WState(Values(a, props), [], 0)
      && PackSlots(Packing(15, 0, [], NOTHING_WRITTEN), schema, props) == Ok(st)
  {
    hide PackSlots, FlagWord, Pow2;
    var a, b := Take(schema, 15), Drop(schema, 15);
    var st0 := Packing(15, 0, [], NOTHING_WRITTEN);
    assert schema == a + b;
    PackShortSchema(st0, a, props, 0);
    PackSplit(st0, a, b, props);
    assert [] + Values(a, props) == Values(a, props);
    var mid := PackSlots(st0, a, props).value;
    forall i | 0 <= i < |b| ensures b[i].name !in props { assert b[i] == schema[i + 15]; }
    PackAbsent(mid, b, props);
    st := mid.(shift := mid.shift - |b|);
  }

  lemma LoadFromWord(schema: Schema, w: nat, values: bytes)
    requires w < 0x1_0000 && w % 2 == 0
    ensures Load(schema, Be(w, 2) + values) == LoadSlots(Loading(15, w, [], Unread(values), map[]), schema)
  {
    OneWord(w, values);
    LoadFirstWord(Loading(0, 0, [w], Unread(values), map[]), Loading(15, w, [], Unread(values), map[]), schema);
  }

  /** Loading `a + b` from one flag word and the values of `a`, when nothing of `b` is present. */
  lemma LoadOneWord(a: Schema, b: Schema, props: map<string, Fields.Field>)
    requires Fits(a, props) && NoBitSet(a, props) && |a| <= 15 && (b != [] ==> |a| == 15)
    ensures FlagWord(a, props, 15) % 2 == 0 && FlagWord(a, props, 15) < 0x1_0000
    ensures var r := Load(a + b, Be(FlagWord(a, props, 15), 2) + Values(a, props));
      if AllLegible(a, props) then r == Ok(Collect(map[], a, props)) else r.Err?
  {
    var w, vs := FlagWord(a, props, 15), Values(a, props);
    FlagWordBound(a, props, 15);
    assert Pow2(16) == 0x1_0000 by { assert Pow2(8) == 256; Pow2Add(8, 8); }
    LoadFromWord(a + b, w, vs);
    var l := Loading(15, w, [], Unread(vs), map[]);
    assert vs == vs + [];
    LoadShortSchema(l, a, props, 0, []);
    if b == [] { assert a + b == a; } else { LoadStops(l, a, b); }
  }

  /** With no property past the fifteenth slot, the properties come back as set, or reading them fails. */
  lemma PropertiesReadBack(schema: Schema, props: map<string, Fields.Field>)
    requires Fits(schema, props) && NoBitSet(schema, props) && NonePast15(schema, props)
    ensures Serialize(schema, props).Ok?
    ensures var r := Load(schema, Serialize(schema, props).value);
      if AllLegible(schema, props) then r == Ok(Expected(schema, props)) else r.Err?
  {
    hide Serialize, Load, Legible, FlagWord, Values;
    var a, b := Take(schema, 15), Drop(schema, 15);
    assert schema == a + b;
    SerializeShort(schema, props);
    LoadOneWord(a, b, props);
    CollectAbsent(map[], a, b, props);
    LegiblePrefix(a, b, props);
  }

  // ---------- a bit property is not written ----------

  /** A value that is read as it was written took the octets it was written in. */
  lemma SameSize(f: Fields.Field, rest: bytes)
    requires !f.Bit? && !f.TableField? && EncField(f).Ok? && GetAligned(rest, KindOf(f)).Ok?
    ensures GetAligned(rest, KindOf(f)).value.0 == ValueOf(f) ==>
              |rest| == |GetAligned(rest, KindOf(f)).value.1| + |EncField(f).value|
  {
    hide Be, UnBe, Pow256, ReadTable, EncTable, ReadUint, ReadStr, ReadText, ReadTime, Datable, Utf8;
    match f
    case Octet(n) =>
    case Short(n) =>
    case Long(n) =>
    case LongLong(n) =>
    case Timestamp(n) =>
    case ShortStr(t) => TextSize(t, rest);
    case LongStr(t) => StringSize(t, rest, 4);
  }

  lemma StringSize(t: bytes, rest: bytes, w: nat)
    ensures ReadStr(rest, w).Ok? && ReadStr(rest, w).value.0 == t ==> |rest| == |ReadStr(rest, w).value.1| + w + |t|
  {
  }

  lemma TextSize(t: bytes, rest: bytes)
    ensures ReadText(rest).Ok? && ReadText(rest).value.0 == t ==> |rest| == |ReadText(rest).value.1| + 1 + |t|
  {
    hide Utf8, ReadStr;
    StringSize(t, rest, 1);
  }

  /** What was found in one slot stays found. */
  lemma {:induction false} FoundStays(l: Loading, schema: Schema, name: string)
    requires name in l.found && forall i :: 0 <= i < |schema| ==> schema[i].name != name
    requires LoadSlots(l, schema).Ok?
    ensures name in LoadSlots(l, schema).value && LoadSlots(l, schema).value[name] == l.found[name]
    decreases schema
  {
    hide And, GetField;
    if schema != [] && !(l.shift == 0 && l.words == []) {
      FoundStays(LoadSlot(l, schema[0]).value, schema[1..], name);
    }
  }

  /** The loader found every property of the schema as it was set. */
  ghost predicate AllFound(schema: Schema, props: map<string, Fields.Field>, found: map<string, Value>)
    requires Fits(schema, props)
  {
    forall i :: 0 <= i < |schema| && schema[i].name in props ==>
                  schema[i].name in found && found[schema[i].name] == ValueOf(props[schema[i].name])
  }

  /** The octets that bits not written make the loader take from the values behind them. */
  ghost function Borrowed(schema: Schema, props: map<string, Fields.Field>, bitcount: nat): nat {
    if bitcount == 0 && !NoBitSet(schema, props) then 1 else 0
  }

  lemma BorrowedTail(schema: Schema, props: map<string, Fields.Field>)
    requires schema != []
    ensures NoBitSet(schema, props) <==>
            (schema[0].name in props ==> schema[0].kind != KBit) && NoBitSet(schema[1..], props)
  {
    assert forall i :: 1 <= i < |schema| ==> schema[i] == schema[1..][i - 1];
  }

  ghost predicate NoTableSet(schema: Schema, props: map<string, Fields.Field>) {
    forall i :: 0 <= i < |schema| && schema[i].name in props ==> schema[i].kind != KTable
  }

  /** Values found as they were set took at least the octets written, and one more where a bit is among them. */
  lemma {:induction false} LoadTakes(l: Loading, schema: Schema, props: map<string, Fields.Field>, high: nat)
    requires Fits(schema, props) && NoTableSet(schema, props) && |schema| <= l.shift
    requires l.word == high * Pow2(l.shift + 1) + FlagWord(schema, props, l.shift)
    requires LoadSlots(l, schema).Ok? && AllFound(schema, props, LoadSlots(l, schema).value)
    ensures |l.st.rest| >= |Values(schema, props)| + Borrowed(schema, props, l.st.bitcount)
    decreases schema
  {
    hide And, Pow2, FlagWord, GetAligned, EncField, NoBitSet;
    if schema == [] {
      assert NoBitSet(schema, props) by { NothingSet(props); }
    } else {
      FitsTail(schema, props);
      BorrowedTail(schema, props);
      FlagTest(schema, props, l.shift, l.word, high);
      var n, l' := schema[0].name, LoadSlot(l, schema[0]).value;
      AllFoundTail(schema, props, LoadSlots(l, schema).value);
      LoadTakes(l', schema[1..], props, 2 * high + if n in props then 1 else 0);
      if HasValue(n, props) {
        FoundStays(l', schema[1..], n);
        SameSize(props[n], l.st.rest);
      }
    }
  }

  lemma NothingSet(props: map<string, Fields.Field>)
    ensures NoBitSet([], props)
  {
  }

  lemma AllFoundTail(schema: Schema, props: map<string, Fields.Field>, found: map<string, Value>)
    requires Fits(schema, props) && schema != [] && AllFound(schema, props, found)
    ensures Fits(schema[1..], props) && AllFound(schema[1..], props, found)
    ensures NoTableSet(schema, props) ==> NoTableSet(schema[1..], props)
  {
    assert forall i :: 0 <= i < |schema[1..]| ==> schema[1..][i] == schema[i + 1];
  }

  /** With a bit among the properties and no table behind it, they are not all found as they were set. */
  lemma {:induction false} BitNotFound(l: Loading, schema: Schema, props: map<string, Fields.Field>, high: nat)
    requires Fits(schema, props) && TablesFirst(schema, props) && !NoBitSet(schema, props) && |schema| <= l.shift
    requires l.word == high * Pow2(l.shift + 1) + FlagWord(schema, props, l.shift)
    requires l.st == Unread(Values(schema, props))
    ensures LoadSlots(l, schema).Ok? ==> !AllFound(schema, props, LoadSlots(l, schema).value)
    decreases schema
  {
    hide And, Pow2, FlagWord, GetAligned, EncField, Legible;
    FitsTail(schema, props);
    BorrowedTail(schema, props);
    FlagTest(schema, props, l.shift, l.word, high);
    var n := schema[0].name;
    if LoadSlots(l, schema).Ok? && AllFound(schema, props, LoadSlots(l, schema).value) {
      AllFoundTail(schema, props, LoadSlots(l, schema).value);
      var l' := LoadSlot(l, schema[0]).value;
      if n !in props {
        BitNotFound(l', schema[1..], props, 2 * high);
      } else if schema[0].kind == KBit {
        assert NoTableSet(schema[1..], props) by {
          assert forall i :: 0 <= i < |schema[1..]| ==> schema[1..][i] == schema[i + 1];
        }
        LoadTakes(l', schema[1..], props, 2 * high + 1);
      } else {
        FieldReadsBack(props[n], Values(schema[1..], props));
        BitNotFound(l', schema[1..], props, 2 * high + 1);
      }
    }
  }

  /** Bits announced and not written: a set with one of them does not come back, where no table is behind it. */
  lemma BitSetLost(schema: Schema, props: map<string, Fields.Field>)
    requires Fits(schema, props) && TablesFirst(schema, props) && !NoBitSet(schema, props) && NonePast15(schema, props)
    ensures !RoundTrips(schema, props)
  {
    hide PackSlots, FlagWord, Values, LoadSlots, Serialize, Load;
    var a, b := Take(schema, 15), Drop(schema, 15);
    assert schema == a + b;
    SerializeShort(schema, props);
    var w, vs := FlagWord(a, props, 15), Values(a, props);
    LoadFromWord(schema, w, vs);
    var l := Loading(15, w, [], Unread(vs), map[]);
    Prefix15(a, b, props);
    if b != [] { LoadStops(l, a, b); } else { assert a == schema; }
    if RoundTrips(schema, props) {
      forall i | 0 <= i < |a| && a[i].name in props
        ensures a[i].name in Expected(schema, props)
        ensures Expected(schema, props)[a[i].name] == ValueOf(props[a[i].name])
      {
        assert schema[i] == a[i] && Named(schema, a[i].name);
        CollectLookup(map[], schema, props, a[i].name);
      }
      BitNotFound(l, a, props, 0);
    }
  }

  lemma Prefix15(a: Schema, b: Schema, props: map<string, Fields.Field>)
    requires Fits(a + b, props) && TablesFirst(a + b, props) && !NoBitSet(a + b, props)
    requires forall i :: 0 <= i < |b| ==> b[i].name !in props
    ensures Fits(a, props) && TablesFirst(a, props) && !NoBitSet(a, props)
  {
    assert forall i :: 0 <= i < |a| ==> a[i] == (a + b)[i];
    assert forall i :: 0 <= i < |b| ==> b[i] == (a + b)[|a| + i];
    var i :| 0 <= i < |a + b| && (a + b)[i].name in props && (a + b)[i].kind == KBit;
    assert i < |a|;
  }

  /**
    The properties come back exactly as set if and only if those present are legible, none of them lies
    past the fifteenth slot, and none is a bit; only for a table behind a bit it is not said that they do not.
   */
  lemma PropertiesRoundTrip(schema: Schema, props: map<string, Fields.Field>)
    requires Fits(schema, props)
    ensures NoBitSet(schema, props) ==> TablesFirst(schema, props)
    ensures TablesFirst(schema, props) ==>
              (RoundTrips(schema, props)
               <==> NonePast15(schema, props) && AllLegible(schema, props) && NoBitSet(schema, props))
    ensures RoundTrips(schema, props) ==> NonePast15(schema, props)
  {
    hide AllLegible, Fits, Load, Serialize;
    if !NonePast15(schema, props) {
      var i :| 15 <= i < |schema| && schema[i].name in props;
      if Serialize(schema, props).Ok? { Past15Lost(schema, props, i); }
    } else if NoBitSet(schema, props) {
      PropertiesReadBack(schema, props);
    } else if TablesFirst(schema, props) {
      BitSetLost(schema, props);
    }
  }

  lemma LegiblePrefix(a: Schema, b: Schema, props: map<string, Fields.Field>)
    requires forall i :: 0 <= i < |b| ==> b[i].name !in props
    ensures AllLegible(a + b, props) <==> AllLegible(a, props)
  {
    hide Legible;
    assert forall i :: 0 <= i < |a| ==> a[i] == (a + b)[i];
    assert forall i :: 0 <= i < |b| ==> b[i] == (a + b)[|a| + i];
  }

  lemma LoadFirstWord(l0: Loading, l: Loading, schema: Schema)
    requires |l0.words| == 1 && l0.shift == 0 && l == l0.(word := l0.words[0], words := [], shift := 15)
    ensures LoadSlots(l0, schema) == LoadSlots(l, schema)
  {
    assert l0.words[1..] == [];
  }

  lemma {:induction false} CollectAbsent(found: map<string, Value>, a: Schema, b: Schema,
                                         props: map<string, Fields.Field>)
    requires AllEncodable(a, props) && AllEncodable(a + b, props)
    requires forall i :: 0 <= i < |b| ==> b[i].name !in props
    ensures Collect(found, a + b, props) == Collect(found, a, props)
    decreases |a| + |b|
  {
    if a != [] {
      assert (a + b)[1..] == a[1..] + b;
      var n := a[0].name;
      CollectAbsent(if n in props then found[n := ValueOf(props[n])] else found, a[1..], b, props);
    } else if b != [] {
      assert a + b == b && [] + b[1..] == (a + b)[1..];
      CollectAbsent(found, [], b[1..], props);
    }
  }

  /** The words announced end at the first, so the sixteenth slot and later ones are never loaded. */
  lemma Past15Lost(schema: Schema, props: map<string, Fields.Field>, i: nat)
    requires Fits(schema, props) && 15 <= i < |schema| && schema[i].name in props
    requires Serialize(schema, props).Ok?
    ensures !RoundTrips(schema, props)
  {
    hide PackSlots, LoadSlots, ReadWords, Collect, PutAll, WordFields;
    var st0 := Packing(15, 0, [], NOTHING_WRITTEN);
    NoContinuation(st0, schema, props);
    var st := PackSlots(st0, schema, props).value;
    var words := st.words + [st.word];
    var data := Serialize(schema, props).value;
    assert words[0] % 2 == 0 by { if st.words != [] { assert words[0] in st.words; } }
    FirstWordOnly(words, Flush(st.raw).out);
    var (ws, rest) := ReadWords(data).value;
    var l0 := Loading(0, 0, ws, Unread(rest), map[]);
    var l := Loading(15, ws[0], [], Unread(rest), map[]);
    LoadFirstWord(l0, l, schema);
    var a := schema[..15];
    assert schema == a + schema[15..];
    LoadStops(l, a, schema[15..]);
    LoadedNames(l, a, schema[i].name);
    CollectLookup(map[], schema, props, schema[i].name);
  }

  lemma FirstWordOnly(words: seq<nat>, values: bytes)
    requires words != [] && words[0] % 2 == 0
    requires PutAll(NOTHING_WRITTEN, WordFields(words)).Ok?
    ensures var data := Flush(PutAll(NOTHING_WRITTEN, WordFields(words)).value).out + values;
      ReadWords(data).Ok? && |ReadWords(data).value.0| == 1
  {
    var fs := WordFields(words);
    Widths();
    var st1 := WState(Be(words[0], 2), [], 0);
    assert [] + Be(words[0], 2) == Be(words[0], 2);
    assert PutField(NOTHING_WRITTEN, fs[0]) == Ok(st1);
    var out := Flush(PutAll(st1, fs[1..]).value).out;
    OutOnlyGrows(st1, fs[1..]);
    assert (out + values)[..2] == Be(words[0], 2);
    BeRoundTrip(words[0], 2);
    AndBit(words[0], 0);
    assert Pow2(0) == 1;
  }

  lemma {:induction false} OutOnlyGrows(st: WState, fs: seq<Fields.Field>)
    requires WValid(st) && PutAll(st, fs).Ok?
    ensures st.out <= Flush(PutAll(st, fs).value).out
    decreases fs
  {
    if fs != [] { OutOnlyGrows(PutField(st, fs[0]).value, fs[1..]); }
  }

  lemma PackBitSlot(st: Packing, slot: Slot, props: map<string, Fields.Field>)
    requires st.shift > 0 && st.word == 0 && WValid(st.raw) && slot.kind == KBit && slot.name in props
    ensures PackSlot(st, slot, props) == Ok(st.(shift := st.shift - 1, word := Pow2(st.shift)))
  {
    OrZeroLeft(st.shift);
  }

  lemma {:induction false} PackLead(st: Packing, a: Schema, rest: Schema, props: map<string, Fields.Field>)
    requires WValid(st.raw) && forall i :: 0 <= i < |a| ==> a[i].name !in props
    ensures PackSlots(st, a + rest, props) == PackSlots(st.(shift := st.shift - |a|), rest, props)
    decreases a
  {
    if a == [] {
      assert a + rest == rest;
    } else {
      assert (a + rest)[1..] == a[1..] + rest;
      PackLead(st.(shift := st.shift - 1), a[1..], rest, props);
    }
  }

  lemma PackBitThenAbsent(st: Packing, slot: Slot, b: Schema, props: map<string, Fields.Field>)
    requires st.shift > 0 && st.word == 0 && WValid(st.raw) && slot.kind == KBit && slot.name in props
    requires forall i :: 0 <= i < |b| ==> b[i].name !in props
    ensures PackSlots(st, [slot] + b, props) == Ok(st.(shift := st.shift - 1 - |b|, word := Pow2(st.shift)))
  {
    var rest := [slot] + b;
    PackBitSlot(st, slot, props);
    assert rest[0] == slot && rest[1..] == b;
    PackAbsent(PackSlot(st, slot, props).value, b, props);
  }

  lemma SmallFlag(i: nat)
    requires i < 15
    ensures Pow2(15 - i) < 0x1_0000 && Pow2(15 - i) % 2 == 0
  {
    Pow2Mono(15 - i, 15);
    assert Pow2(15) == 0x8000 by { assert Pow2(7) == 128; Pow2Add(8, 7); assert Pow2(8) == 256; }
  }

  lemma SerializeOnlyBit(schema: Schema, i: nat)
    requires i < |schema| && i < 15 && schema[i].kind == KBit
    requires forall j, k :: 0 <= j < k < |schema| ==> schema[j].name != schema[k].name
    ensures Pow2(15 - i) < 0x1_0000 && Pow2(15 - i) % 2 == 0
    ensures Serialize(schema, map[schema[i].name := Bit(true)]) == Ok(Be(Pow2(15 - i), 2))
  {
    hide PackSlots, PutAll, WordFields, Pow2;
    var a, b, w := schema[..i], schema[i + 1..], Pow2(15 - i);
    assert schema == a + ([schema[i]] + b);
    var props := map[schema[i].name := Bit(true)];
    PackLead(Packing(15, 0, [], NOTHING_WRITTEN), a, [schema[i]] + b, props);
    PackBitThenAbsent(Packing(15 - i, 0, [], NOTHING_WRITTEN), schema[i], b, props);
    SmallFlag(i);
    OneWord(w, []);
    assert [] + [w] == [w] && Be(w, 2) + [] == Be(w, 2);
  }

  lemma OnlyBitUnreadable(schema: Schema, i: nat)
    requires i < |schema| && i < 15 && schema[i].kind == KBit
    requires Pow2(15 - i) < 0x1_0000 && Pow2(15 - i) % 2 == 0
    ensures Load(schema, Be(Pow2(15 - i), 2)).Err?
  {
    hide Pow2, Load, LoadSlots;
    var w := Pow2(15 - i);
    LoadFromWord(schema, w, []);
    assert Be(w, 2) + [] == Be(w, 2);
    LoadAbsentThenBit(Loading(15, w, [], Unread([]), map[]), schema, i);
  }

  /** A bit property is announced but never written, so alone it cannot be read. */
  lemma BitPropertyLost(schema: Schema, i: nat)
    requires i < |schema| && i < 15 && schema[i].kind == KBit
    requires forall j, k :: 0 <= j < k < |schema| ==> schema[j].name != schema[k].name
    ensures var props := map[schema[i].name := Bit(true)];
      Fits(schema, props) && AllLegible(schema, props) && !RoundTrips(schema, props)
  {
    SerializeOnlyBit(schema, i);
    OnlyBitUnreadable(schema, i);
  }

  lemma OrZeroLeft(n: nat)
    ensures Or(0, Shl(1, n)) == Pow2(n)
  {
    assert 0 / Pow2(n) == 0;
    OrClearBit(0, n);
  }

  lemma {:induction false} LoadAbsentThenBit(l: Loading, schema: Schema, i: nat)
    requires i < |schema| && schema[i].kind == KBit && i < l.shift && l.st == Unread([])
    requires l.word == Pow2(l.shift - i)
    ensures LoadSlots(l, schema).Err?
    decreases schema
  {
    AndBit(l.word, l.shift);
    if i == 0 {
      ModUnique(l.word, Pow2(l.shift), 1, 0);
    } else {
      Pow2Mono(l.shift - i, l.shift - 1);
      SmallDiv(l.word, Pow2(l.shift));
      LoadAbsentThenBit(l.(shift := l.shift - 1), schema[1..], i - 1);
    }
  }

  /** The schemas for which every set of legible properties survives: at most fifteen slots and no bits. */
  lemma SafeSchemas(schema: Schema)
    requires forall j, k :: 0 <= j < k < |schema| ==> schema[j].name != schema[k].name
    ensures (|schema| <= 15 && NoBits(schema))
            <==> (forall props | Fits(schema, props) && AllLegible(schema, props) :: RoundTrips(schema, props))
  {
    if i: int :| 0 <= i < |schema| && i < 15 && schema[i].kind == KBit {
      BitPropertyLost(schema, i);
    } else if |schema| > 15 {
      var f := Sample(schema[15].kind);
      SampleWritable(schema[15].kind);
      var props := map[schema[15].name := f];
      assert Fits(schema, props) && AllLegible(schema, props);
      if Serialize(schema, props).Ok? { Past15Lost(schema, props, 15); }
    } else {
      forall props | Fits(schema, props) && AllLegible(schema, props) ensures RoundTrips(schema, props) {
        assert NoBitSet(schema, props);
        PropertiesRoundTrip(schema, props);
      }
    }
  }

  /** A writable set of `Message` properties is read back exactly if and only if all are legible. */
  lemma MessageRoundTrip(props: map<string, Fields.Field>)
    requires Fits(MESSAGE, props)
    ensures RoundTrips(MESSAGE, props) <==> AllLegible(MESSAGE, props)
  {
    MessageHasNoBits(props);
    PropertiesRoundTrip(MESSAGE, props);
  }

  lemma MessageHasNoBits(props: map<string, Fields.Field>)
    ensures NoBits(MESSAGE) && NoBitSet(MESSAGE, props) && TablesFirst(MESSAGE, props) && NonePast15(MESSAGE, props)
  {
  }

  /** A message dated before the epoch loses its properties. */
  lemma EarlyMessageLost(n: int)
    requires Tables.Fits64(n) && n < -1
    ensures Fits(MESSAGE, map["timestamp" := Timestamp(n)]) && !RoundTrips(MESSAGE, map["timestamp" := Timestamp(n)])
  {
    var props := map["timestamp" := Timestamp(n)];
    assert MESSAGE[9] == Slot("timestamp", KTimestamp);
    assert !Legible(props[MESSAGE[9].name]);
    assert Fits(MESSAGE, props) by { OnlyStamp(n); }
    MessageRoundTrip(props);
  }

  lemma OnlyStamp(n: int)
    requires Tables.Fits64(n)
    ensures Fits(MESSAGE, map["timestamp" := Timestamp(n)])
  {
    MessageDistinct();
    StampSlot();
    hide MESSAGE;
    assert EncField(Timestamp(n)).Ok? && KindOf(Timestamp(n)) == KTimestamp;
    forall i | 0 <= i < |MESSAGE| && MESSAGE[i].name in map["timestamp" := Timestamp(n)] ensures i == 9 {
      assert i < 9 || i == 9 || 9 < i;
    }
  }

  lemma MessageDistinct()
    ensures forall i, j :: 0 <= i < j < |MESSAGE| ==> MESSAGE[i].name != MESSAGE[j].name
  {
  }

  lemma StampSlot()
    ensures |MESSAGE| == 14 && MESSAGE[9] == Slot("timestamp", KTimestamp)
  {
  }

  // ---------- the loops of the source ----------

  /** An AMQP content; the source keeps both maps in one attribute, `properties`. */
  class GenericContent {
    const schema: Schema
    var properties: map<string, Fields.Field>
    var received: map<string, Value>

    /** Only properties the schema names are kept. */
    constructor (schema: Schema, given: map<string, Fields.Field>)
      ensures this.schema == schema
      ensures forall n :: n in properties <==> n in given && Named(schema, n)
      ensures forall n :: n in properties ==> properties[n] == given[n]
    {
      var d: map<string, Fields.Field> := map[];
      for i := 0 to |schema|
        invariant forall n :: n in d <==> n in given && Named(schema[..i], n)
        invariant forall n :: n in d ==> d[n] == given[n]
      {
        assert forall n :: Named(schema[..i + 1], n) <==> Named(schema[..i], n) || n == schema[i].name by {
          NamedSnoc(schema, i);
        }
        if schema[i].name in given {
          d := d[schema[i].name := given[schema[i].name]];
        }
      }
      assert schema[..|schema|] == schema;
      this.schema, properties, received := schema, d, map[];
    }

    method SerializeProperties() returns (r: Result<bytes, Failure>)
      ensures r == Serialize(schema, properties)
    {
      hide Or, Shl, PutAll, WordFields;
      var shift, flagBits, flags := 15, 0, [];
      var raw := new Serialization.Writer();
      ghost var start := Packing(15, 0, [], NOTHING_WRITTEN);
      var i := 0;
      assert schema[0..] == schema;
      while i < |schema|
        invariant 0 <= i <= |schema| && fresh(raw) && raw.Valid()
        invariant PackSlots(start, schema, properties)
               == PackSlots(Packing(shift, flagBits, flags, raw.State()), schema[i..], properties)
      {
        var slot := schema[i];
        assert schema[i..][0] == slot && schema[i..][1..] == schema[i + 1..];
        if slot.name in properties {
          if shift == 0 {
            flags, flagBits, shift := flags + [flagBits], 0, 15;
          }
          if shift < 0 { return Err(NegativeShift); }
          flagBits := Or(flagBits, Shl(1, shift));
          if slot.kind != KBit {
            var error := Serialization.WriteField(raw, properties[slot.name]);
            if error.Some? { return Err(Field(error.value)); }
          }
        }
        shift := shift - 1;
        i := i + 1;
      }
      flags := flags + [flagBits];
      var words :- WriteWords(flags);
      var values := raw.GetValue();
      r := Ok(words + values);
    }

    static method WriteWords(flags: seq<nat>) returns (r: Result<bytes, Failure>)
      ensures r == match Lift(PutAll(NOTHING_WRITTEN, WordFields(flags)))
                   case Ok(st) => Ok(Flush(st).out)
                   case Err(e) => Err(e)
    {
      var result := new Serialization.Writer();
      var i := 0;
      assert flags[0..] == flags;
      while i < |flags|
        invariant 0 <= i <= |flags| && fresh(result) && result.Valid()
        invariant PutAll(NOTHING_WRITTEN, WordFields(flags)) == PutAll(result.State(), WordFields(flags[i..]))
      {
        assert WordFields(flags[i..])[0] == Short(flags[i]);
        assert WordFields(flags[i..])[1..] == WordFields(flags[i + 1..]);
        var error := result.WriteShort(flags[i]);
        if error.Some? { return Err(Field(error.value)); }
        i := i + 1;
      }
      var data := result.GetValue();
      r := Ok(data);
    }

    static method ReadFlagWords(reader: Serialization.Reader) returns (r: Result<seq<nat>, Error>)
      requires reader.Valid()
      modifies reader
      ensures reader.Valid()
      ensures match ReadWords(old(reader.State()).rest)
              case Ok((ws, rest)) => r == Ok(ws) && reader.State() == Unread(rest)
              case Err(e) => r == Err(e)
    {
      ghost var goal := ReadWords(reader.State().rest);
      var flags: seq<nat> := [];
      var more := true;
      if goal.Ok? { assert [] + goal.value.0 == goal.value.0; }
      while more
        invariant reader.Valid()
        invariant more ==> goal == PrependWords(flags, ReadWords(reader.State().rest))
        invariant !more ==> goal == Ok((flags, reader.State().rest)) && reader.State() == Unread(reader.State().rest)
        decreases |reader.State().rest|, more
      {
        ghost var done := flags;
        var w :- reader.ReadNumber(2);
        flags := flags + [w];
        AppendWord(done, w, ReadWords(reader.State().rest));
        more := And(w, 1) != 0;
      }
      r := Ok(flags);
    }

    static method LoadFound(schema: Schema, reader: Serialization.Reader, words: seq<nat>)
      returns (r: Result<map<string, Value>, Error>)
      requires reader.Valid()
      modifies reader
      ensures r == LoadSlots(Loading(0, 0, words, old(reader.State()), map[]), schema)
    {
      hide And, Shl, GetField, LoadSlots;
      var d: map<string, Value>, shift, flagBits, flags := map[], 0, 0, words;
      ghost var goal := LoadSlots(Loading(shift, flagBits, flags, reader.State(), d), schema);
      var i := 0;
      assert schema[0..] == schema;
      while i < |schema| && !(shift == 0 && flags == [])
        invariant 0 <= i <= |schema| && reader.Valid() && shift >= 0
        invariant goal == LoadSlots(Loading(shift, flagBits, flags, reader.State(), d), schema[i..])
        decreases |schema| - i
      {
        assert schema[i..][0] == schema[i] && schema[i..][1..] == schema[i + 1..];
        LoadStep(Loading(shift, flagBits, flags, reader.State(), d), schema[i..]);
        if shift == 0 {
          flagBits, flags, shift := flags[0], flags[1..], 15;
        }
        if And(flagBits, Shl(1, shift)) != 0 {
          var v :- Serialization.ReadField(reader, schema[i].kind);
          d := d[schema[i].name := v];
        }
        shift := shift - 1;
        i := i + 1;
      }
      LoadDone(Loading(shift, flagBits, flags, reader.State(), d), schema[i..]);
      r := Ok(d);
    }

    method LoadProperties(data: bytes) returns (error: Option<Error>)
      modifies this
      ensures properties == old(properties)
      ensures match Load(schema, data)
              case Ok(d) => error == None && received == d
              case Err(e) => error == Some(e) && received == old(received)
    {
      var reader := new Serialization.Reader(data);
      var words := ReadFlagWords(reader);
      if words.Err? { return Some(words.error); }
      var d := LoadFound(schema, reader, words.value);
      if d.Err? { return Some(d.error); }
      received := d.value;
      error := None;
    }
  }

  lemma LoadStep(l: Loading, schema: Schema)
    requires schema != [] && !(l.shift == 0 && l.words == [])
    ensures LoadSlot(l, schema[0]).Ok? ==> LoadSlots(l, schema) == LoadSlots(LoadSlot(l, schema[0]).value, schema[1..])
    ensures LoadSlot(l, schema[0]).Err? ==> LoadSlots(l, schema) == Err(LoadSlot(l, schema[0]).error)
  {
  }

  lemma LoadDone(l: Loading, schema: Schema)
    requires schema == [] || (l.shift == 0 && l.words == [])
    ensures LoadSlots(l, schema) == Ok(l.found)
  {
  }

  lemma NamedSnoc(schema: Schema, i: nat)
    requires i < |schema|
    ensures forall n :: Named(schema[..i + 1], n) <==> Named(schema[..i], n) || n == schema[i].name
  {
    forall n ensures Named(schema[..i + 1], n) <==> Named(schema[..i], n) || n == schema[i].name {
      var s0, s1 := schema[..i], schema[..i + 1];
      if Named(s0, n) {
        var j :| 0 <= j < |s0| && s0[j].name == n;
        assert s1[j].name == n;
      }
      if Named(s1, n) {
        var j :| 0 <= j < |s1| && s1[j].name == n;
        assert j < i ==> s0[j].name == n;
      }
      assert s1[i].name == schema[i].name;
    }
  }

  lemma AppendWord(ws: seq<nat>, w: nat, r: Result<(seq<nat>, bytes), Error>)
    ensures PrependWords(ws, PrependWords([w], r)) == PrependWords(ws + [w], r)
  {
    if r.Ok? { assert ws + ([w] + r.value.0) == ws + [w] + r.value.0; }
  }

  function PrependWords(ws: seq<nat>, r: Result<(seq<nat>, bytes), Error>): Result<(seq<nat>, bytes), Error> {
    match r
    case Ok((vs, rest)) => Ok((ws + vs, rest))
    case Err(e) => Err(e)
  }

  // ---------- the octets of a property list ----------

  /** Slot `i` has bit `15 - i` of the flag word. */
  lemma {:induction false} FlagBit(schema: Schema, props: map<string, Fields.Field>, shift: nat, i: nat)
    requires i < |schema| <= shift
    ensures (FlagWord(schema, props, shift) / Pow2(shift - i)) % 2 == if schema[i].name in props then 1 else 0
    decreases i
  {
    var low := FlagWord(schema[1..], props, shift - 1);
    FlagWordBound(schema[1..], props, shift - 1);
    var here := if schema[0].name in props then 1 else 0;
    assert FlagWord(schema, props, shift) == here * Pow2(shift) + low;
    hide FlagWord, Pow2;
    if i == 0 {
      ModUnique(FlagWord(schema, props, shift), Pow2(shift), here, low);
    } else {
      FlagBit(schema[1..], props, shift - 1, i - 1);
      HighBitApart(here, shift, shift - i, low);
    }
  }

  /** A bit above does not change the bits below. */
  lemma HighBitApart(here: nat, high: nat, k: nat, low: nat)
    requires k < high
    ensures ((here * Pow2(high) + low) / Pow2(k)) % 2 == (low / Pow2(k)) % 2
  {
    Pow2Add(high - k, k);
    var m, p := Pow2(k), Pow2(high - k - 1);
    assert Pow2(high - k) == 2 * p;
    hide Pow2;
    Scaled(here, p, m);
    AddedAbove(here * p, m, low);
  }

  lemma AddedAbove(a: nat, m: nat, low: nat)
    requires m > 0
    ensures ((2 * a * m + low) / m) % 2 == (low / m) % 2
  {
    var q, r := low / m, low % m;
    assert low == q * m + r;
    TwoFactors(a, q, m);
    ModUnique(2 * a * m + low, m, 2 * a + q, r);
  }

  lemma TwoFactors(a: nat, q: nat, m: nat)
    ensures (2 * a + q) * m == 2 * a * m + q * m
  {
  }

  lemma Scaled(a: nat, b: nat, m: nat)
    ensures a * (2 * b * m) == 2 * (a * b) * m
  {
    assert a * (2 * b * m) == (a * (2 * b)) * m;
  }

  /** The flag of each property of a message, as AMQP numbers them. */
  function MessageFlag(name: string): nat {
    match name
    case "content_type" => 0x8000
    case "content_encoding" => 0x4000
    case "application_headers" => 0x2000
    case "delivery_mode" => 0x1000
    case "priority" => 0x0800
    case "correlation_id" => 0x0400
    case "reply_to" => 0x0200
    case "expiration" => 0x0100
    case "message_id" => 0x0080
    case "timestamp" => 0x0040
    case "type" => 0x0020
    case "user_id" => 0x0010
    case "app_id" => 0x0008
    case "cluster_id" => 0x0004
    case _ => 0
  }

  /** A message with one property is that property's flag and value. */
  lemma MessageOctets(name: string, f: Fields.Field)
    requires Fits(MESSAGE, map[name := f]) && MessageFlag(name) != 0
    ensures !f.Bit? && EncField(f).Ok?
    ensures Serialize(MESSAGE, map[name := f]) == Ok(Be(MessageFlag(name), 2) + EncField(f).value)
  {
    hide FlagWord, Values, Serialize, Pow2, MessageFlag, EncField, KindOf;
    var i := SlotOf(name);
    var props := map[name := f];
    MessageHasNoBits(props);
    MessageDistinct();
    StampSlot();
    assert KindOf(f) == MESSAGE[i].kind && Encodable(f);
    assert !f.Bit? by { NoBitKind(f); }
    assert Take(MESSAGE, 15) == MESSAGE;
    SerializeShort(MESSAGE, props);
    OnlyOne(MESSAGE, i, f, 15);
  }

  lemma NoBitKind(f: Fields.Field)
    requires KindOf(f) != KBit
    ensures !f.Bit?
  {
  }

  lemma SlotOf(name: string) returns (i: nat)
    requires MessageFlag(name) != 0
    ensures i < |MESSAGE| && MESSAGE[i].name == name && MessageFlag(name) == Pow2(15 - i)
  {
    FlagPowers();
    match name
    case "content_type" => i := 0;
    case "content_encoding" => i := 1;
    case "application_headers" => i := 2;
    case "delivery_mode" => i := 3;
    case "priority" => i := 4;
    case "correlation_id" => i := 5;
    case "reply_to" => i := 6;
    case "expiration" => i := 7;
    case "message_id" => i := 8;
    case "timestamp" => i := 9;
    case "type" => i := 10;
    case "user_id" => i := 11;
    case "app_id" => i := 12;
    case "cluster_id" => i := 13;
  }

  lemma FlagPowers()
    ensures Pow2(15) == 0x8000 && Pow2(14) == 0x4000 && Pow2(13) == 0x2000 && Pow2(12) == 0x1000
    ensures Pow2(11) == 0x0800 && Pow2(10) == 0x0400 && Pow2(9) == 0x0200 && Pow2(8) == 0x0100
    ensures Pow2(7) == 0x0080 && Pow2(6) == 0x0040 && Pow2(5) == 0x0020 && Pow2(4) == 0x0010
    ensures Pow2(3) == 0x0008 && Pow2(2) == 0x0004
  {
    assert Pow2(3) == 8;
    Pow2Add(4, 4);
    Pow2Add(8, 4);
  }

  /** Flag word and values of one property alone. */
  lemma {:induction false} OnlyOne(schema: Schema, i: nat, f: Fields.Field, shift: nat)
    requires i < |schema| <= shift && !f.Bit? && EncField(f).Ok?
    requires forall j, k :: 0 <= j < k < |schema| ==> schema[j].name != schema[k].name
    ensures var props := map[schema[i].name := f];
      FlagWord(schema, props, shift) == Pow2(shift - i) && Values(schema, props) == EncField(f).value
    decreases i
  {
    var props := map[schema[i].name := f];
    if i == 0 {
      NothingThere(schema[1..], props, shift - 1);
    } else {
      OnlyOne(schema[1..], i - 1, f, shift - 1);
    }
  }

  lemma {:induction false} NothingThere(schema: Schema, props: map<string, Fields.Field>, shift: nat)
    requires |schema| <= shift && forall j :: 0 <= j < |schema| ==> schema[j].name !in props
    ensures FlagWord(schema, props, shift) == 0 && Values(schema, props) == []
    decreases schema
  {
    if schema != [] { NothingThere(schema[1..], props, shift - 1); }
  }

  /** A property alone past the fifteenth slot: a second word for the sixteenth, a negative shift for the others. */
  lemma OnlyPast15(schema: Schema, i: nat, f: Fields.Field)
    requires 15 <= i < |schema| && schema[i].kind != KBit && !f.Bit? && EncField(f).Ok?
    requires forall j, k :: 0 <= j < k < |schema| ==> schema[j].name != schema[k].name
    ensures Serialize(schema, map[schema[i].name := f])
         == if i == 15 then Ok([0, 0, 0x80, 0] + EncField(f).value) else Err(NegativeShift)
  {
    hide PackSlots, PutAll, Pow2, PutField;
    var props, slot := map[schema[i].name := f], schema[i];
    var a, b := schema[..i], schema[i + 1..];
    assert schema == a + ([slot] + b);
    PackLead(Packing(15, 0, [], NOTHING_WRITTEN), a, [slot] + b, props);
    var st := Packing(15 - i, 0, [], NOTHING_WRITTEN);
    assert ([slot] + b)[0] == slot && ([slot] + b)[1..] == b;
    if i == 15 {
      var next := PackSixteenth(slot, props);
      PackThen(st, slot, b, props, next);
      TwoWords();
      assert [0, 0, 0x80, 0] + EncField(f).value == [0, 0, 0x80, 0] + Flush(next.raw).out;
    } else {
      PackFails(st, slot, b, props);
    }
  }

  lemma PackSixteenth(slot: Slot, props: map<string, Fields.Field>) returns (next: Packing)
    requires slot.name in props && slot.kind != KBit
    requires !props[slot.name].Bit? && EncField(props[slot.name]).Ok?
    ensures next == Packing(14, 0x8000, [0], WState(EncField(props[slot.name]).value, [], 0))
    ensures PackSlot(Packing(0, 0, [], NOTHING_WRITTEN), slot, props) == Ok(next)
  {
    hide EncField, Pow2;
    var e := EncField(props[slot.name]).value;
    next := Packing(14, 0x8000, [0], WState(e, [], 0));
    OrZeroLeft(15);
    FlagPowers();
    assert [] + e == e && [] + [0] == [0];
  }

  lemma PackThen(st: Packing, slot: Slot, b: Schema, props: map<string, Fields.Field>, next: Packing)
    requires WValid(st.raw) && PackSlot(st, slot, props) == Ok(next)
    requires forall i :: 0 <= i < |b| ==> b[i].name !in props
    ensures PackSlots(st, [slot] + b, props) == Ok(next.(shift := next.shift - |b|))
  {
    hide PackSlot;
    assert ([slot] + b)[0] == slot && ([slot] + b)[1..] == b;
    PackAbsent(next, b, props);
  }

  lemma PackFails(st: Packing, slot: Slot, b: Schema, props: map<string, Fields.Field>)
    requires WValid(st.raw) && st.shift < 0 && slot.name in props
    ensures PackSlots(st, [slot] + b, props) == Err(NegativeShift)
  {
    assert ([slot] + b)[0] == slot;
  }

  lemma TwoWords()
    ensures PutAll(NOTHING_WRITTEN, WordFields([0] + [0x8000])) == Ok(WState([0, 0, 0x80, 0], [], 0))
  {
    hide Be;
    Widths();
    var fs := WordFields([0] + [0x8000]);
    Fields.TwoOctets(0);
    Fields.TwoOctets(0x8000);
    assert fs == [Short(0), Short(0x8000)] && fs[1..] == [Short(0x8000)] && fs[1..][1..] == [];
    var st := WState([0, 0], [], 0);
    assert PutField(NOTHING_WRITTEN, Short(0)) == Ok(st) by { assert [] + [0, 0] == [0, 0]; }
    assert PutField(st, Short(0x8000)) == Ok(WState([0, 0, 0x80, 0], [], 0)) by {
      assert [0, 0] + [0x80, 0] == [0, 0, 0x80, 0];
    }
    assert PutAll(st, fs[1..]) == Ok(WState([0, 0, 0x80, 0], [], 0));
  }
}
