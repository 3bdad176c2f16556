/** Characters and their encoding in UTF-8: which octet strings decode. */
module Characters {
  import opened Bytes

  /** The octets of the character with number `c`. */
  function EncodeChar(c: nat): (s: bytes)
    requires c < 0x11_0000
    ensures s != []
  {
    if c < 0x80 then [c]
    else if c < 0x800 then [0xc0 + c / 0x40, 0x80 + c % 0x40]
    else if c < 0x1_0000 then [0xe0 + c / 0x1000, 0x80 + c / 0x40 % 0x40, 0x80 + c % 0x40]
    else [0xf0 + c / 0x4_0000, 0x80 + c / 0x1000 % 0x40, 0x80 + c / 0x40 % 0x40, 0x80 + c % 0x40]
  }

  type Char = c: nat | c < 0x11_0000

  function EncodeText(cs: seq<Char>): bytes { if cs == [] then [] else EncodeChar(cs[0]) + EncodeText(cs[1..]) }

  /** The number of the character `s` begins with. */
  function CharAt(s: bytes): (c: Char)
    requires s != [] && CharLength(s) > 0
    ensures EncodeChar(c) == s[..CharLength(s)]
  {
    CharAtIs(s);
    CharNumber(s)
  }

  function CharNumber(s: bytes): int
    requires s != [] && CharLength(s) > 0
  {
    var n := CharLength(s);
    if n == 1 then s[0]
    else if n == 2 then 0x40 * (s[0] as int - 0xc0) + (s[1] as int - 0x80)
    else if n == 3 then 0x1000 * (s[0] as int - 0xe0) + 0x40 * (s[1] as int - 0x80) + (s[2] as int - 0x80)
    else 0x4_0000 * (s[0] as int - 0xf0) + 0x1000 * (s[1] as int - 0x80) + 0x40 * (s[2] as int - 0x80)
         + (s[3] as int - 0x80)
  }

  lemma SixBits(q: nat, r: nat)
    requires r < 0x40
    ensures (0x40 * q + r) / 0x40 == q && (0x40 * q + r) % 0x40 == r
  {
  }

  lemma CharAtIs(s: bytes)
    requires s != [] && CharLength(s) > 0
    ensures 0 <= CharNumber(s) < 0x11_0000 && EncodeChar(CharNumber(s)) == s[..CharLength(s)]
  {
    var n, c := CharLength(s), CharNumber(s);
    if n == 1 {
    } else if n == 2 {
      SixBits(s[0] - 0xc0, s[1] - 0x80);
    } else if n == 3 {
      var a, b, d := s[0] as int - 0xe0, s[1] as int - 0x80, s[2] as int - 0x80;
      SixBits(0x40 * a + b, d);
      SixBits(a, b);
      ThreeParts(a, b, d);
    } else {
      var a, b, d, e := s[0] as int - 0xf0, s[1] as int - 0x80, s[2] as int - 0x80, s[3] as int - 0x80;
      SixBits(0x1000 * a + 0x40 * b + d, e);
      SixBits(0x40 * a + b, d);
      SixBits(a, b);
      FourParts(a, b, d, e);
    }
  }

  lemma ThreeParts(a: nat, b: nat, d: nat)
    requires b < 0x40 && d < 0x40
    ensures (0x1000 * a + 0x40 * b + d) / 0x1000 == a && (0x1000 * a + 0x40 * b + d) / 0x40 == 0x40 * a + b
  {
  }

  lemma FourParts(a: nat, b: nat, d: nat, e: nat)
    requires b < 0x40 && d < 0x40 && e < 0x40
    ensures var c := 0x4_0000 * a + 0x1000 * b + 0x40 * d + e;
      c / 0x4_0000 == a && c / 0x1000 == 0x40 * a + b && c / 0x40 == 0x1000 * a + 0x40 * b + d
  {
  }

  lemma CharLengthIs(c: Char, rest: bytes)
    ensures CharLength(EncodeChar(c) + rest) == |EncodeChar(c)|
  {
  }

  lemma {:induction false} Decoded(s: bytes) returns (cs: seq<Char>)
    requires Utf8(s)
    ensures EncodeText(cs) == s
    decreases |s|
  {
    hide CharLength, EncodeChar, CharNumber;
    if s == [] {
      cs := [];
    } else {
      var n := CharLength(s);
      var rest := Decoded(s[n..]);
      cs := [CharAt(s)] + rest;
      assert cs[1..] == rest && s[..n] + s[n..] == s;
    }
  }

  lemma {:induction false} Encoded(cs: seq<Char>)
    ensures Utf8(EncodeText(cs))
  {
    hide CharLength, EncodeChar;
    if cs != [] {
      var head, rest := EncodeChar(cs[0]), EncodeText(cs[1..]);
      CharLengthIs(cs[0], rest);
      Encoded(cs[1..]);
      assert (head + rest)[|head|..] == rest;
    }
  }

  /** The texts accepted are the encodings of sequences of character numbers up to 0x10ffff. */
  lemma Utf8Exactly(s: bytes)
    ensures Utf8(s) <==> exists cs :: EncodeText(cs) == s
  {
    hide Utf8, EncodeText;
    if Utf8(s) { var cs := Decoded(s); }
    forall cs ensures Utf8(EncodeText(cs)) { Encoded(cs); }
  }
}
