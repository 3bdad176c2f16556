/** Result types and sequence helpers shared by every component. */
module Common {

  datatype Option<+T> = None | Some(value: T)

  /** A value, or the exception the source raises instead. */
  datatype Result<+T, +E> = Ok(value: T) | Err(error: E) {
    predicate IsFailure() { Err? }

    function PropagateFailure<U>(): Result<U, E>
      requires Err?
    {
      Err(error)
    }

    function Extract(): T
      requires Ok?
    {
      value
    }
  }

  function Min(a: int, b: int): int { if a <= b then a else b }

  function Max(a: int, b: int): int { if a <= b then b else a }

  /** What a stream read of `n` units yields: fewer than `n` at the end of the data. */
  function Take<T>(s: seq<T>, n: nat): seq<T> { s[..Min(n, |s|)] }

  function Drop<T>(s: seq<T>, n: nat): seq<T> { s[Min(n, |s|)..] }

  /** The concatenation of all parts, in order. */
  function Flatten<T>(parts: seq<seq<T>>): seq<T>
  {
    if parts == [] then [] else parts[0] + Flatten(parts[1..])
  }

  lemma {:induction false} FlattenAppend<T>(a: seq<seq<T>>, b: seq<seq<T>>)
    ensures Flatten(a + b) == Flatten(a) + Flatten(b)
  {
    if a == [] {
      assert a + b == b;
    } else {
      assert (a + b)[1..] == a[1..] + b;
      FlattenAppend(a[1..], b);
    }
  }

  ghost predicate Distinct<T>(s: seq<T>) {
    forall i, j :: 0 <= i < j < |s| ==> s[i] != s[j]
  }

  // ---------- blanks ----------

  predicate IsSpace(c: char) { c in " \t\n\r\U{00000B}\U{00000C}" }

  function LeftStrip(s: string): string { if s != "" && IsSpace(s[0]) then LeftStrip(s[1..]) else s }

  function RightStrip(s: string): string {
    if s != "" && IsSpace(s[|s| - 1]) then RightStrip(s[..|s| - 1]) else s
  }

  function Strip(s: string): string { RightStrip(LeftStrip(s)) }

  /** Stripping takes the blanks off both ends and nothing else. */
  lemma {:induction false} StripEnds(a: string, core: string, b: string)
    requires forall i :: 0 <= i < |a| ==> a[i] in " \t\n\r\U{00000B}\U{00000C}"
    requires forall i :: 0 <= i < |b| ==> b[i] in " \t\n\r\U{00000B}\U{00000C}"
    requires core != "" && core[0] !in " \t\n\r\U{00000B}\U{00000C}"
    requires core[|core| - 1] !in " \t\n\r\U{00000B}\U{00000C}"
    ensures Strip(a + core + b) == core
    decreases |a| + |b|
  {
    var s := a + core + b;
    if a != "" {
      assert s[1..] == a[1..] + core + b;
      StripEnds(a[1..], core, b);
    } else {
      assert LeftStrip(s) == s;
      if b == "" {
        assert s == core;
      } else {
        assert s[..|s| - 1] == a + core + b[..|b| - 1];
        assert LeftStrip(s[..|s| - 1]) == s[..|s| - 1];
        StripEnds(a, core, b[..|b| - 1]);
      }
    }
  }
}
