/** Octets and the network-order integers of the wire format. */
module Bytes {
  type byte = b: int | 0 <= b < 256 witness 0
  type bytes = seq<byte>

  function Pow256(w: nat): (r: nat)
    ensures r > 0
  {
    if w == 0 then 1 else 256 * Pow256(w - 1)
  }

  /** The `w` octets of `n`, most significant first. */
  function Be(n: nat, w: nat): (r: bytes)
    ensures |r| == w
  {
    if w == 0 then [] else Be(n / 256, w - 1) + [n % 256]
  }

  /** The number a big-endian octet string denotes. */
  function UnBe(s: bytes): (r: nat)
  {
    if s == [] then 0 else UnBe(s[..|s| - 1]) * 256 + s[|s| - 1]
  }

  lemma {:induction false} BeRoundTrip(n: nat, w: nat)
    requires n < Pow256(w)
    ensures UnBe(Be(n, w)) == n
  {
    if w != 0 {
      BeRoundTrip(n / 256, w - 1);
      assert Be(n, w)[..w - 1] == Be(n / 256, w - 1);
    }
  }

  lemma {:induction false} UnBeBound(s: bytes)
    ensures UnBe(s) < Pow256(|s|)
  {
    if s != [] { UnBeBound(s[..|s| - 1]); }
  }

  lemma {:induction false} UnBeRoundTrip(s: bytes)
    ensures Be(UnBe(s), |s|) == s
  {
    if s != [] {
      UnBeRoundTrip(s[..|s| - 1]);
      assert s == s[..|s| - 1] + [s[|s| - 1]];
    }
  }

  /** A high and a low octet. */
  function Pair(high: nat, low: nat): nat { 0x100 * high + low }

  /** The first octet is the most significant. */
  lemma {:induction false} UnBeHead(d: byte, s: bytes)
    ensures UnBe([d] + s) == d * Pow256(|s|) + UnBe(s)
  {
    if s == [] {
      assert [d] + s == [d] && [d][..0] == [];
    } else {
      var init, last := s[..|s| - 1], s[|s| - 1];
      UnBeHead(d, init);
      assert ([d] + s)[..|s|] == [d] + init && ([d] + s)[|s|] == last;
      assert d * (256 * Pow256(|init|)) == 256 * (d * Pow256(|init|));
    }
  }

  /** Two octets are a high and a low one, four are two such pairs. */
  lemma NetworkOrder(s: bytes)
    ensures |s| == 1 ==> UnBe(s) == s[0]
    ensures |s| == 2 ==> UnBe(s) == Pair(s[0], s[1])
    ensures |s| == 4 ==> UnBe(s) == 0x1_0000 * Pair(s[0], s[1]) + Pair(s[2], s[3])
    ensures UnBe([1, 2]) == 0x0102 && UnBe([1, 2, 3, 4]) == 0x0102_0304
  {
    PairValue([1, 2]);
    FourValue([1, 2, 3, 4]);
    if |s| == 1 {
      assert s[..0] == [];
    } else if |s| == 2 {
      PairValue(s);
    } else if |s| == 4 {
      FourValue(s);
    }
  }

  lemma PairValue(s: bytes)
    requires |s| == 2
    ensures UnBe(s) == Pair(s[0], s[1])
  {
    var a := s[..1];
    assert a[..0] == [] && a[0] == s[0];
    assert UnBe(a) == s[0];
  }

  lemma FourValue(s: bytes)
    requires |s| == 4
    ensures UnBe(s) == 0x1_0000 * Pair(s[0], s[1]) + Pair(s[2], s[3])
  {
    PairValue(s[..2]);
    assert s[..3][..2] == s[..2];
    assert UnBe(s[..3]) == UnBe(s[..2]) * 256 + s[2];
  }

  lemma Widths()
    ensures Pow256(1) == 0x100 && Pow256(2) == 0x1_0000
    ensures Pow256(4) == 0x1_0000_0000 && Pow256(8) == 0x1_0000_0000_0000_0000
  {
    assert Pow256(3) == 0x100_0000;
    assert Pow256(5) == 0x100_0000_0000;
    assert Pow256(6) == 0x1_0000_0000_0000;
    assert Pow256(7) == 0x100_0000_0000_0000;
  }

  /** Two's complement of a signed 32-bit integer, as `pack('>i', n)` stores it. */
  function Signed32(n: int): nat
    requires -0x8000_0000 <= n < 0x8000_0000
  {
    if n >= 0 then n else n + 0x1_0000_0000
  }

  function FromSigned32(u: nat): int { if u < 0x8000_0000 then u else u - 0x1_0000_0000 }

  // ---------- UTF-8 ----------

  predicate Continues(s: bytes, i: nat) { i < |s| && 0x80 <= s[i] < 0xc0 }

  /** The length of the character `s` begins with; zero when no character is encoded there. */
  function CharLength(s: bytes): (n: nat)
    requires s != []
    ensures n <= |s|
  {
    if s[0] < 0x80 then 1
    else if 0xc2 <= s[0] < 0xe0 && Continues(s, 1) then 2
    else if 0xe0 <= s[0] < 0xf0 && Continues(s, 1) && Continues(s, 2) && (s[0] == 0xe0 ==> s[1] >= 0xa0) then 3
    else if 0xf0 <= s[0] < 0xf5 && Continues(s, 1) && Continues(s, 2) && Continues(s, 3)
            && (s[0] == 0xf0 ==> s[1] >= 0x90) && (s[0] == 0xf4 ==> s[1] < 0x90) then 4
    else 0
  }

  /** What `decode('utf-8')` accepts; in the interpreter of the source that includes surrogates. */
  predicate Utf8(s: bytes)
    decreases |s|
  {
    s == [] || (CharLength(s) > 0 && Utf8(s[CharLength(s)..]))
  }
}
