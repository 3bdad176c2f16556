/** Decimal and hexadecimal numerals, and joining and splitting text on a separator. */
module Numerals {
  import opened Common

  function Pow(b: nat, e: nat): nat { if e == 0 then 1 else b * Pow(b, e - 1) }

  function DigitChar(d: nat): char
    requires d < 16
  {
    "0123456789abcdef"[d]
  }

  /** The value of a digit in base 16 or less; none for other characters. */
  function DigitOf(c: char): Option<nat> {
    if '0' <= c <= '9' then Some((c - '0') as nat)
    else if 'a' <= c <= 'f' then Some((c - 'a') as nat + 10)
    else if 'A' <= c <= 'F' then Some((c - 'A') as nat + 10)
    else None
  }

  predicate IsDigit(c: char, base: nat) { DigitOf(c).Some? && DigitOf(c).value < base }

  predicate IsNumeral(s: string, base: nat) { forall i :: 0 <= i < |s| ==> IsDigit(s[i], base) }

  function Val(s: string, base: nat): nat {
    if s == [] then 0
    else Val(s[..|s| - 1], base) * base + if DigitOf(s[|s| - 1]).Some? then DigitOf(s[|s| - 1]).value else 0
  }

  /** The value of a plain numeral: digits and nothing else. */
  function ParseNat(s: string, base: nat): Option<nat> {
    if s != [] && IsNumeral(s, base) then Some(Val(s, base)) else None
  }

  /** How many digits `s` begins with. */
  function DigitCount(s: string, base: nat): (k: nat)
    ensures k <= |s| && IsNumeral(s[..k], base)
    ensures k < |s| ==> !IsDigit(s[k], base)
  {
    if s == "" || !IsDigit(s[0], base) then 0 else 1 + DigitCount(s[1..], base)
  }

  predicate IsSign(c: char) { c == '-' || c == '+' }

  function DropSign(s: string): string { if s != "" && IsSign(s[0]) then s[1..] else s }

  /** In base 16 a numeral may begin with `0x`. */
  function DropBase(s: string, base: nat): string {
    if base == 16 && |s| > 1 && s[0] == '0' && (s[1] == 'x' || s[1] == 'X') then s[2..] else s
  }

  /** A `long` may end with `L`. */
  function DropSuffix(s: string, long: bool): string {
    if long && s != "" && (s[0] == 'L' || s[0] == 'l') then s[1..] else s
  }

  /** The digits of a number, without the blanks, sign and base in front of them, and what follows. */
  function Body(s: string, base: nat): string { DropBase(LeftStrip(DropSign(LeftStrip(s))), base) }

  predicate IsNegative(s: string) { LeftStrip(s) != "" && LeftStrip(s)[0] == '-' }

  /** `int(s, base)` and `long(s, base)`; none is a `ValueError`. */
  function ParseInt(s: string, base: nat, long: bool): Option<int> {
    var body := Body(s, base);
    var k := DigitCount(body, base);
    if k == 0 || LeftStrip(DropSuffix(body[k..], long)) != "" then None
    else
      var v: int := Val(body[..k], base);
      Some(if IsNegative(s) then -v else v)
  }

  lemma {:induction false} LeftStripLength(s: string)
    ensures |LeftStrip(s)| <= |s|
  {
    if s != "" && IsSpace(s[0]) { LeftStripLength(s[1..]); }
  }

  lemma BodyLength(s: string, base: nat)
    ensures |Body(s, base)| <= |s|
  {
    LeftStripLength(s);
    LeftStripLength(DropSign(LeftStrip(s)));
  }

  lemma DigitPlain(c: char, base: nat)
    requires IsDigit(c, base) && base <= 16
    ensures !IsSpace(c) && !IsSign(c) && c != 'x' && c != 'X' && c != 'L' && c != 'l' && c != '.' && c != ':'
  {
  }

  lemma {:induction false} AllDigits(s: string, base: nat)
    requires IsNumeral(s, base)
    ensures DigitCount(s, base) == |s|
  {
    if s != "" { AllDigits(s[1..], base); }
  }

  /** A plain numeral is read as its value. */
  lemma PlainParses(s: string, base: nat, long: bool)
    requires ParseNat(s, base).Some? && base <= 16
    ensures ParseInt(s, base, long) == Some(ParseNat(s, base).value as int)
  {
    DigitPlain(s[0], base);
    if |s| > 1 { DigitPlain(s[1], base); }
    assert Body(s, base) == s;
    AllDigits(s, base);
    assert s[..|s|] == s && s[|s|..] == "";
  }

  /** Where `int` accepts a text, `long` reads the same number. */
  lemma LongAgrees(s: string, base: nat)
    ensures ParseInt(s, base, false).Some? ==> ParseInt(s, base, true) == ParseInt(s, base, false)
  {
    var body := Body(s, base);
    var rest := body[DigitCount(body, base)..];
    assert rest != "" && LeftStrip(rest) == "" ==> IsSpace(rest[0]);
  }

  lemma SignedParses(s: string, base: nat, long: bool)
    requires ParseNat(s, base).Some? && base <= 16
    ensures ParseInt("-" + s, base, long) == Some(-(ParseNat(s, base).value as int))
  {
    var text := "-" + s;
    DigitPlain(s[0], base);
    if |s| > 1 { DigitPlain(s[1], base); }
    assert LeftStrip(text) == text && DropSign(text) == s;
    assert Body(text, base) == s;
    AllDigits(s, base);
    assert s[..|s|] == s && s[|s|..] == "";
  }

  lemma {:induction false} PowMono(b: nat, m: nat, n: nat)
    requires b > 0 && m <= n
    ensures 0 < Pow(b, m) <= Pow(b, n)
    decreases n
  {
    if m < n {
      PowMono(b, m, n - 1);
      assert b * Pow(b, n - 1) >= Pow(b, n - 1);
    } else if n > 0 {
      PowMono(b, n - 1, n - 1);
    }
  }

  /** No more digits than characters. */
  lemma ParsedBound(s: string, base: nat, long: bool)
    requires base > 0
    ensures ParseInt(s, base, long).Some? ==> ParseInt(s, base, long).value < Pow(base, |s|)
  {
    var body := Body(s, base);
    var k := DigitCount(body, base);
    BodyLength(s, base);
    ValBound(body[..k], base);
    PowMono(base, k, |s|);
  }

  lemma {:induction false} LeftStripIn(s: string, c: char)
    requires c in LeftStrip(s)
    ensures c in s
  {
    if s != "" && IsSpace(s[0]) { LeftStripIn(s[1..], c); }
  }

  /** Without a minus sign a number is not negative. */
  lemma NoMinus(s: string, base: nat, long: bool)
    requires '-' !in s
    ensures ParseInt(s, base, long).Some? ==> ParseInt(s, base, long).value >= 0
  {
    if IsNegative(s) { LeftStripIn(s, '-'); }
  }

  /** `str(n)` or `hex(n)[2:]`: no leading zeros. */
  function Digits(n: nat, base: nat): (s: string)
    requires 2 <= base <= 16
    ensures s != []
    decreases n
  {
    if n < base then [DigitChar(n)]
    else
      Smaller(n, base);
      Digits(n / base, base) + [DigitChar(n % base)]
  }

  /** Which characters are digits, and of what value, in either case. */
  lemma DigitValues(c: char, base: nat)
    requires base <= 16
    ensures forall d: nat :: d < 16 ==>
      DigitOf("0123456789abcdef"[d]) == DigitOf("0123456789ABCDEF"[d]) == Some(d)
    ensures IsDigit(c, base) <==> c in "0123456789abcdef"[..base] || c in "0123456789ABCDEF"[..base]
  {
    var lower, upper := "0123456789abcdef", "0123456789ABCDEF";
    forall d: nat | d < 16 ensures DigitOf(lower[d]) == DigitOf(upper[d]) == Some(d) {
      DigitRoundTrip(d, 16);
      UpperDigit(d);
    }
    if IsDigit(c, base) {
      var d := DigitOf(c).value;
      DigitIs(c);
      assert lower[..base][d] == lower[d] && upper[..base][d] == upper[d];
    } else {
      forall i | 0 <= i < base ensures lower[..base][i] != c && upper[..base][i] != c {
        assert lower[..base][i] == lower[i] && upper[..base][i] == upper[i];
      }
    }
  }

  lemma UpperDigit(d: nat)
    requires d < 16
    ensures DigitOf("0123456789ABCDEF"[d]) == Some(d)
  {
    var c := "0123456789ABCDEF"[d];
    if d < 10 {
      assert c == ('0' as int + d) as char;
    } else {
      assert c == ('A' as int + (d - 10)) as char;
    }
  }

  lemma DigitIs(c: char)
    requires DigitOf(c).Some?
    ensures DigitOf(c).value < 16
    ensures c == "0123456789abcdef"[DigitOf(c).value] || c == "0123456789ABCDEF"[DigitOf(c).value]
  {
    var d := DigitOf(c).value;
    if '0' <= c <= '9' {
      assert "0123456789abcdef"[d] == ('0' as int + d) as char;
    } else if 'a' <= c <= 'f' {
      assert "0123456789abcdef"[d] == ('a' as int + (d - 10)) as char;
    } else {
      assert "0123456789ABCDEF"[d] == ('A' as int + (d - 10)) as char;
    }
  }

  /** A printed number is in lower case and does not begin with a zero, unless it is zero. */
  lemma {:induction false} DigitsForm(n: nat, base: nat)
    requires 2 <= base <= 16
    ensures forall i :: 0 <= i < |Digits(n, base)| ==> Digits(n, base)[i] in "0123456789abcdef"[..base]
    ensures n > 0 ==> Digits(n, base)[0] != '0'
    ensures Digits(0, base) == "0"
    decreases n
  {
    var lower := "0123456789abcdef";
    ZeroIs(base);
    if n < base {
      assert lower[..base][n] == DigitChar(n);
      DigitRoundTrip(n, base);
    } else {
      Smaller(n, base);
      QuotientPositive(n, base);
      DigitsForm(n / base, base);
      assert lower[..base][n % base] == DigitChar(n % base);
    }
  }

  lemma QuotientPositive(n: nat, base: nat)
    requires 2 <= base <= n
    ensures n / base > 0
  {
    DivMod(n, base);
  }

  lemma Smaller(n: nat, base: nat)
    requires 2 <= base <= n
    ensures n / base < n
  {
    var q := n / base;
    assert n == q * base + n % base;
    assert q * base >= 2 * q;
  }

  lemma DigitRoundTrip(d: nat, base: nat)
    requires d < base <= 16
    ensures DigitOf(DigitChar(d)) == Some(d) && IsDigit(DigitChar(d), base)
    ensures DigitChar(d) != ':' && DigitChar(d) != '.' && DigitChar(d) != 'x'
  {
    var c := DigitChar(d);
    if d < 10 {
      assert c == ('0' as int + d) as char;
    } else {
      assert c == ('a' as int + (d - 10)) as char;
    }
  }

  lemma {:induction false} DigitsRoundTrip(n: nat, base: nat)
    requires 2 <= base <= 16
    ensures IsNumeral(Digits(n, base), base) && Val(Digits(n, base), base) == n
    decreases n
  {
    if n < base {
      DigitRoundTrip(n, base);
      assert Val([], base) == 0;
    } else {
      Smaller(n, base);
      DigitsRoundTrip(n / base, base);
      DigitRoundTrip(n % base, base);
      OneMore(Digits(n / base, base), n % base, base);
      DivMod(n, base);
    }
  }

  lemma DivMod(n: nat, base: nat)
    requires base > 0
    ensures n == (n / base) * base + n % base
  {
  }

  lemma OneMore(init: string, d: nat, base: nat)
    requires d < 16 && DigitOf(DigitChar(d)) == Some(d)
    ensures Val(init + [DigitChar(d)], base) == Val(init, base) * base + d
  {
    var s := init + [DigitChar(d)];
    assert s[..|s| - 1] == init;
  }

  lemma {:induction false} DigitsLength(n: nat, base: nat, k: nat)
    requires 2 <= base <= 16 && k >= 1 && n < Pow(base, k)
    ensures |Digits(n, base)| <= k
    decreases k
  {
    if n >= base {
      assert k > 1 by { assert Pow(base, 1) == base; }
      Smaller(n, base);
      QuotientBound(n, base, Pow(base, k - 1));
      DigitsLength(n / base, base, k - 1);
    }
  }

  lemma QuotientBound(n: nat, base: nat, p: nat)
    requires base > 0 && n < base * p
    ensures n / base < p
  {
    DivMod(n, base);
    var q := n / base;
    assert q >= p ==> q * base >= p * base;
  }

  /** A numeral is `"0"` only for zero. */
  lemma ZeroDigits(n: nat, base: nat)
    requires 2 <= base <= 16
    ensures Digits(n, base) == "0" <==> n == 0
  {
    hide Digits, Val;
    DigitsRoundTrip(n, base);
    ZeroIs(base);
  }

  lemma ZeroIs(base: nat)
    requires 2 <= base <= 16
    ensures Digits(0, base) == "0" && Val("0", base) == 0
  {
    assert "0"[..0] == [] && DigitOf('0') == Some(0);
  }

  lemma {:induction false} ValAppend(a: string, b: string, base: nat)
    ensures Val(a + b, base) == Val(a, base) * Pow(base, |b|) + Val(b, base)
    decreases |b|
  {
    if b == [] {
      assert a + b == a;
    } else {
      var n := |b| - 1;
      assert (a + b)[..|a + b| - 1] == a + b[..n];
      ValAppend(a, b[..n], base);
      Distribute(Val(a, base), Pow(base, n), Val(b[..n], base), base);
    }
  }

  lemma Distribute(a: nat, p: nat, v: nat, base: nat)
    ensures (a * p + v) * base == a * (base * p) + v * base
  {
  }

  lemma {:induction false} ValBound(s: string, base: nat)
    requires base > 0 && IsNumeral(s, base)
    ensures Val(s, base) < Pow(base, |s|)
  {
    if s != [] {
      ValBound(s[..|s| - 1], base);
      BoundStep(Val(s[..|s| - 1], base), Pow(base, |s| - 1), DigitOf(s[|s| - 1]).value, base);
    }
  }

  lemma BoundStep(v: nat, p: nat, d: nat, base: nat)
    requires v < p && d < base
    ensures v * base + d < base * p
  {
    assert v * base <= (p - 1) * base;
  }

  lemma {:induction false} PowAdd(b: nat, m: nat, n: nat)
    ensures Pow(b, m + n) == Pow(b, m) * Pow(b, n)
  {
    if m != 0 {
      PowAdd(b, m - 1, n);
      assert Pow(b, m + n) == b * Pow(b, m - 1 + n);
      assert b * (Pow(b, m - 1) * Pow(b, n)) == (b * Pow(b, m - 1)) * Pow(b, n);
    }
  }

  function Zeros(n: nat): string { seq(n, _ => '0') }

  lemma {:induction false} ValZeros(n: nat, base: nat)
    ensures Val(Zeros(n), base) == 0
  {
    if n > 0 {
      assert Zeros(n)[..n - 1] == Zeros(n - 1);
      ValZeros(n - 1, base);
    }
  }

  /** Leading zeros do not change a numeral's value. */
  lemma PaddedValue(n: nat, s: string, base: nat)
    requires base > 0 && IsNumeral(s, base)
    ensures IsNumeral(Zeros(n) + s, base) && Val(Zeros(n) + s, base) == Val(s, base)
  {
    ValAppend(Zeros(n), s, base);
    ValZeros(n, base);
    assert DigitOf('0') == Some(0);
  }

  // ---------- separators ----------

  function Index(s: string, c: char): (i: nat)
    ensures i <= |s| && (i < |s| ==> s[i] == c) && forall j :: 0 <= j < i ==> s[j] != c
  {
    if s == [] || s[0] == c then 0 else 1 + Index(s[1..], c)
  }

  predicate Has(s: string, c: char) { Index(s, c) < |s| }

  lemma IndexIs(s: string, c: char, i: nat)
    requires i <= |s| && (i < |s| ==> s[i] == c) && forall j :: 0 <= j < i ==> s[j] != c
    ensures Index(s, c) == i
  {
  }

  /** `sep.join(parts)`. */
  function Join(parts: seq<string>, sep: char): string {
    if parts == [] then []
    else if |parts| == 1 then parts[0]
    else parts[0] + [sep] + Join(parts[1..], sep)
  }

  /** `s.split(sep)`. */
  function Split(s: string, sep: char): seq<string>
    decreases |s|
  {
    var i := Index(s, sep);
    if i == |s| then [s] else [s[..i]] + Split(s[i + 1..], sep)
  }

  ghost predicate Free(parts: seq<string>, sep: char) {
    forall i, j :: 0 <= i < |parts| && 0 <= j < |parts[i]| ==> parts[i][j] != sep
  }

  lemma {:induction false} SplitJoin(parts: seq<string>, sep: char)
    requires parts != [] && Free(parts, sep)
    ensures Split(Join(parts, sep), sep) == parts
    decreases parts
  {
    var s := Join(parts, sep);
    hide Index;
    IndexIs(s, sep, |parts[0]|);
    if |parts| > 1 {
      var rest := parts[1..];
      assert s[..|parts[0]|] == parts[0] && s[|parts[0]| + 1..] == Join(rest, sep);
      SplitJoin(rest, sep);
      assert parts == [parts[0]] + rest;
    }
  }

  lemma {:induction false} SplitFree(s: string, sep: char)
    ensures Split(s, sep) != [] && Free(Split(s, sep), sep)
    decreases |s|
  {
    var i := Index(s, sep);
    if i < |s| { SplitFree(s[i + 1..], sep); }
  }

  lemma {:induction false} JoinAppend(a: seq<string>, b: seq<string>, sep: char)
    requires a != [] && b != []
    ensures Join(a + b, sep) == Join(a, sep) + [sep] + Join(b, sep)
    decreases a
  {
    if |a| == 1 {
      assert (a + b)[1..] == b;
    } else {
      assert (a + b)[1..] == a[1..] + b;
      JoinAppend(a[1..], b, sep);
      assert a[0] + [sep] + (Join(a[1..], sep) + [sep] + Join(b, sep))
             == (a[0] + [sep] + Join(a[1..], sep)) + [sep] + Join(b, sep);
    }
  }

  lemma {:induction false} JoinLacks(parts: seq<string>, sep: char, c: char)
    requires c != sep && Free(parts, c)
    ensures forall i :: 0 <= i < |Join(parts, sep)| ==> Join(parts, sep)[i] != c
    decreases parts
  {
    if |parts| > 1 { JoinLacks(parts[1..], sep, c); }
  }
}
