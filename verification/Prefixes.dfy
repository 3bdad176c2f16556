/** The shortest unique prefix of every flag name, found by looking at sorted neighbours only. */
module Prefixes {
  import opened Common

  // ---------- names in order ----------

  /** Python's order on strings. */
  predicate LexLe(a: string, b: string) {
    a == [] || (b != [] && (a[0] < b[0] || (a[0] == b[0] && LexLe(a[1..], b[1..]))))
  }

  ghost predicate Sorted(s: seq<string>) { forall i, j :: 0 <= i < j < |s| ==> LexLe(s[i], s[j]) }

  function Insert(x: string, s: seq<string>): seq<string> {
    if s == [] || LexLe(x, s[0]) then [x] + s else [s[0]] + Insert(x, s[1..])
  }

  /** `list.sort()` */
  function Sort(s: seq<string>): seq<string> {
    if s == [] then [] else Insert(s[0], Sort(s[1..]))
  }

  lemma {:induction false} LexTotal(a: string, b: string)
    ensures LexLe(a, b) || LexLe(b, a)
  {
    if a != [] && b != [] { LexTotal(a[1..], b[1..]); }
  }

  lemma {:induction false} LexTrans(a: string, b: string, c: string)
    requires LexLe(a, b) && LexLe(b, c)
    ensures LexLe(a, c)
  {
    if a != [] && a[0] == b[0] == c[0] { LexTrans(a[1..], b[1..], c[1..]); }
  }

  lemma {:induction false} InsertAdds(x: string, s: seq<string>)
    ensures multiset(Insert(x, s)) == multiset(s) + multiset{x}
  {
    if s != [] && !LexLe(x, s[0]) {
      InsertAdds(x, s[1..]);
      assert s == [s[0]] + s[1..];
    }
  }

  lemma SameElements(s: seq<string>, t: seq<string>)
    requires multiset(s) == multiset(t)
    ensures forall y :: y in s <==> y in t
  {
    assert forall y :: y in s <==> y in multiset(s);
    assert forall y :: y in t <==> y in multiset(t);
  }

  lemma {:induction false} InsertSorted(x: string, s: seq<string>)
    requires Sorted(s)
    ensures Sorted(Insert(x, s))
  {
    if s == [] {
    } else if LexLe(x, s[0]) {
      forall j | 0 <= j < |s| ensures LexLe(x, s[j]) {
        if j > 0 { LexTrans(x, s[0], s[j]); }
      }
    } else {
      LexTotal(x, s[0]);
      InsertSorted(x, s[1..]);
      InsertAdds(x, s[1..]);
      var t := Insert(x, s[1..]);
      SameElements(t, s[1..] + [x]);
      forall j | 0 <= j < |t| ensures LexLe(s[0], t[j]) {
        assert t[j] in t;
      }
    }
  }

  lemma {:induction false} SortIs(s: seq<string>)
    ensures Sorted(Sort(s)) && multiset(Sort(s)) == multiset(s)
  {
    if s != [] {
      SortIs(s[1..]);
      InsertSorted(s[0], Sort(s[1..]));
      InsertAdds(s[0], Sort(s[1..]));
      assert s == [s[0]] + s[1..];
    }
  }

  // ---------- how many names start with a prefix ----------

  function Starting(s: seq<string>, p: string): nat {
    if s == [] then 0 else (if p <= s[0] then 1 else 0) + Starting(s[1..], p)
  }

  lemma {:induction false} StartingInsert(x: string, s: seq<string>, p: string)
    ensures Starting(Insert(x, s), p) == Starting([x] + s, p)
  {
    assert ([x] + s)[1..] == s;
    if s != [] && !LexLe(x, s[0]) {
      StartingInsert(x, s[1..], p);
      assert ([x] + s[1..])[1..] == s[1..];
    }
  }

  lemma {:induction false} StartingSort(s: seq<string>, p: string)
    ensures Starting(Sort(s), p) == Starting(s, p)
  {
    if s != [] {
      StartingSort(s[1..], p);
      StartingInsert(s[0], Sort(s[1..]), p);
      assert ([s[0]] + Sort(s[1..]))[1..] == Sort(s[1..]);
    }
  }

  /** Several names start with `p` exactly when one other than the `i`-th does. */
  lemma {:induction false} StartingOther(s: seq<string>, p: string, i: nat)
    requires i < |s| && p <= s[i]
    ensures Starting(s, p) > 1 <==> exists j :: 0 <= j < |s| && j != i && p <= s[j]
    decreases s
  {
    if i == 0 {
      StartingSome(s[1..], p);
      assert forall j :: 1 <= j < |s| ==> s[j] == s[1..][j - 1];
      if exists j :: 0 <= j < |s[1..]| && p <= s[1..][j] {
        var j :| 0 <= j < |s[1..]| && p <= s[1..][j];
        assert p <= s[j + 1];
      }
    } else if p <= s[0] {
      StartingSome(s[1..], p);
      assert s[1..][i - 1] == s[i];
    } else {
      StartingOther(s[1..], p, i - 1);
      if exists j :: 0 <= j < |s[1..]| && j != i - 1 && p <= s[1..][j] {
        var j :| 0 <= j < |s[1..]| && j != i - 1 && p <= s[1..][j];
        assert p <= s[j + 1];
      }
      if exists j :: 0 <= j < |s| && j != i && p <= s[j] {
        var j :| 0 <= j < |s| && j != i && p <= s[j];
        assert p <= s[1..][j - 1];
      }
    }
  }

  lemma {:induction false} StartingSome(s: seq<string>, p: string)
    ensures Starting(s, p) > 0 <==> exists j :: 0 <= j < |s| && p <= s[j]
  {
    if s != [] {
      StartingSome(s[1..], p);
      if exists j :: 0 <= j < |s[1..]| && p <= s[1..][j] {
        var j :| 0 <= j < |s[1..]| && p <= s[1..][j];
        assert p <= s[j + 1];
      }
      if exists j :: 0 < j < |s| && p <= s[j] {
        var j :| 0 < j < |s| && p <= s[j];
        assert p <= s[1..][j - 1];
      }
    }
  }

  // ---------- common prefixes ----------

  /** The length of the longest common prefix. */
  function Lcp(a: string, b: string): (n: nat)
    ensures n <= |a| && n <= |b| && a[..n] == b[..n]
    ensures n < |a| && n < |b| ==> a[n] != b[n]
  {
    if a == [] || b == [] || a[0] != b[0] then 0 else 1 + Lcp(a[1..], b[1..])
  }

  lemma {:induction false} PrefixLcp(a: string, b: string, k: nat)
    requires k <= |a|
    ensures a[..k] <= b <==> k <= Lcp(a, b)
  {
    if k > 0 {
      assert a[..k] == [a[0]] + a[1..][..k - 1];
      if b != [] && a[0] == b[0] {
        PrefixLcp(a[1..], b[1..], k - 1);
        assert b == [b[0]] + b[1..];
      }
    }
  }

  lemma {:induction false} LcpSymmetric(a: string, b: string)
    ensures Lcp(a, b) == Lcp(b, a)
  {
    if a != [] && b != [] && a[0] == b[0] { LcpSymmetric(a[1..], b[1..]); }
  }

  /** In sorted order a name further away shares no more than one in between. */
  lemma {:induction false} LcpBetween(a: string, b: string, c: string)
    requires LexLe(a, b) && LexLe(b, c)
    ensures Lcp(a, c) <= Lcp(a, b) && Lcp(a, c) <= Lcp(b, c)
  {
    if a != [] && c != [] && a[0] == c[0] { LcpBetween(a[1..], b[1..], c[1..]); }
  }

  /** What a name shares with its neighbours in sorted order; nothing at either end. */
  function Before(s: seq<string>, i: nat): nat
    requires i < |s|
  {
    if i == 0 then 0 else Lcp(s[i - 1], s[i])
  }

  function After(s: seq<string>, i: nat): nat
    requires i < |s|
  {
    if i == |s| - 1 then 0 else Lcp(s[i], s[i + 1])
  }

  /** Neighbours suffice: a non-empty prefix starts another name exactly when it starts a neighbour. */
  lemma NeighboursSuffice(s: seq<string>, i: nat, k: nat)
    requires Sorted(s) && i < |s| && 0 < k <= |s[i]|
    ensures Starting(s, s[i][..k]) > 1 <==> k <= Max(Before(s, i), After(s, i))
  {
    var p := s[i][..k];
    StartingOther(s, p, i);
    if exists j :: 0 <= j < |s| && j != i && p <= s[j] {
      var j :| 0 <= j < |s| && j != i && p <= s[j];
      PrefixLcp(s[i], s[j], k);
      LcpSymmetric(s[i], s[j]);
      if j < i - 1 { LcpBetween(s[j], s[i - 1], s[i]); }
      if j > i + 1 { LcpBetween(s[i], s[i + 1], s[j]); }
    }
    if i > 0 {
      PrefixLcp(s[i], s[i - 1], k);
      LcpSymmetric(s[i], s[i - 1]);
    }
    if i < |s| - 1 { PrefixLcp(s[i], s[i + 1], k); }
  }

  // ---------- shortest unique prefixes ----------

  /**
    The shortest non-empty prefix that starts no other name; the whole name when it is itself a prefix of,
    or equal to, another.
   */
  ghost predicate IsShortest(names: seq<string>, c: string, p: string) {
    && p <= c
    && (Starting(names, c) > 1 ==> p == c)
    && (Starting(names, c) == 1 ==> p != "" && Starting(names, p) == 1)
    && forall k :: 0 < k < |p| ==> Starting(names, c[..k]) > 1
  }

  function ShortestAt(s: seq<string>, i: nat): string
    requires i < |s|
  {
    Take(s[i], Max(Before(s, i), After(s, i)) + 1)
  }

  lemma {:induction false} StartingSelf(s: seq<string>, i: nat, p: string)
    requires i < |s| && p <= s[i]
    ensures Starting(s, p) >= 1
  {
    if i > 0 { StartingSelf(s[1..], i - 1, p); }
  }

  lemma ShortestAtIs(s: seq<string>, i: nat)
    requires Sorted(s) && i < |s| && s[i] != ""
    ensures IsShortest(s, s[i], ShortestAt(s, i))
  {
    var c, p := s[i], ShortestAt(s, i);
    assert c[..|c|] == c && p == c[..|p|];
    NeighboursSuffice(s, i, |c|);
    NeighboursSuffice(s, i, |p|);
    StartingSelf(s, i, p);
    StartingSelf(s, i, c);
    forall k | 0 < k < |p| ensures Starting(s, c[..k]) > 1 { NeighboursSuffice(s, i, k); }
  }

  lemma SameForSorted(names: seq<string>, c: string, p: string)
    ensures IsShortest(Sort(names), c, p) <==> IsShortest(names, c, p)
  {
    StartingSort(names, c);
    StartingSort(names, p);
    forall k | 0 < k < |p| && k <= |c| ensures Starting(Sort(names), c[..k]) == Starting(names, c[..k]) {
      StartingSort(names, c[..k]);
    }
  }

  // ---------- the method ----------

  datatype Flag = Flag(name: string, boolean: bool)

  /** Every flag name, and the `no` form of the boolean ones. */
  function Names(flags: seq<Flag>): seq<string>
    decreases flags
  {
    if flags == [] then []
    else
      var f := flags[|flags| - 1];
      Names(flags[..|flags| - 1]) + if f.boolean then [f.name, "no" + f.name] else [f.name]
  }

  /** The inner loop: how far the name agrees with the next one, and whether it ends there. */
  method Compare(curr: string, next: Option<string>) returns (i: nat, broke: bool)
    requires curr != ""
    ensures broke ==> i == if next == None then 0 else Lcp(curr, next.value)
    ensures broke ==> i < |curr|
    ensures !broke ==> next.Some? && i == |curr| - 1 && curr <= next.value
  {
    i := 0;
    while i < |curr|
      invariant i <= |curr|
      invariant i > 0 ==> next.Some? && i <= |next.value| && curr[..i] == next.value[..i]
    {
      if next == None { return i, true; }
      if i >= |next.value| || curr[i] != next.value[i] {
        LcpIs(curr, next.value, i);
        return i, true;
      }
      i := i + 1;
    }
    assert curr[..|curr|] == curr;
    i, broke := |curr| - 1, false;
  }

  lemma {:induction false} LcpIs(a: string, b: string, n: nat)
    requires n <= |a| && n <= |b| && a[..n] == b[..n] && (n < |a| && n < |b| ==> a[n] != b[n])
    ensures Lcp(a, b) == n
  {
    if n > 0 {
      assert a[0] == a[..n][0] == b[..n][0];
      assert a[1..][..n - 1] == a[..n][1..] && b[1..][..n - 1] == b[..n][1..];
      LcpIs(a[1..], b[1..], n - 1);
    }
  }

  /** One turn of the outer loop: what the previous turn left in `prevIdx` is used, and left for the next. */
  method ShortestFor(sorted: seq<string>, i: nat, prevIdx: nat) returns (p: string, idx: nat)
    requires i < |sorted| && sorted[i] != "" && prevIdx == Before(sorted, i)
    ensures p == ShortestAt(sorted, i) && (i + 1 < |sorted| ==> idx == Before(sorted, i + 1))
  {
    var curr := sorted[i];
    var next := if i == |sorted| - 1 then None else Some(sorted[i + 1]);
    var k, broke := Compare(curr, next);
    if broke {
      p, idx := Take(curr, Max(prevIdx, k) + 1), k;
    } else {
      PrefixLcp(curr, next.value, |curr|);
      assert curr[..|curr|] == curr;
      p, idx := curr, k + 1;
    }
  }

  method FromSorted(sorted: seq<string>) returns (shortest: map<string, string>)
    requires Sorted(sorted) && "" !in sorted
    ensures forall c :: c in shortest <==> c in sorted
    ensures forall c | c in shortest :: IsShortest(sorted, c, shortest[c])
  {
    hide IsShortest, Before, ShortestAt;
    shortest := map[];
    var prevIdx := 0;
    FirstAlone(sorted);
    for i := 0 to |sorted|
      invariant forall c :: c in shortest <==> c in sorted[..i]
      invariant forall c | c in shortest :: IsShortest(sorted, c, shortest[c])
      invariant i < |sorted| ==> prevIdx == Before(sorted, i)
    {
      assert sorted[i] in sorted;
      var p, idx := ShortestFor(sorted, i, prevIdx);
      ShortestAtIs(sorted, i);
      shortest := shortest[sorted[i] := p];
      prevIdx := idx;
      assert sorted[..i + 1] == sorted[..i] + [sorted[i]];
    }
    assert sorted[..|sorted|] == sorted;
  }

  lemma FirstAlone(s: seq<string>)
    ensures s != [] ==> Before(s, 0) == 0
  {
  }

  /** None is the error of an empty name: the inner loop then leaves its index without a value. */
  method ShortestUniquePrefixes(flags: seq<Flag>) returns (r: Option<map<string, string>>)
    ensures r == None <==> "" in Names(flags)
    ensures r.Some? ==> (forall c :: c in r.value <==> c in Names(flags))
    ensures r.Some? ==> forall c | c in Names(flags) :: IsShortest(Names(flags), c, r.value[c])
  {
    hide IsShortest;
    var names := ListNames(flags);
    var sorted := Sort(names);
    SortIs(names);
    SameElements(sorted, names);
    if sorted != [] && sorted[0] == "" {
      assert sorted[0] in sorted;
      return None;
    }
    NoneEmpty(sorted);
    var shortest := FromSorted(sorted);
    forall c | c in names ensures IsShortest(names, c, shortest[c]) { SameForSorted(names, c, shortest[c]); }
    r := Some(shortest);
  }

  /** An input of that kind: a single flag without a name. */
  method EmptyNameFails() returns (r: Option<map<string, string>>)
    ensures r == None
  {
    var flags := [Flag("", false)];
    assert flags[..0] == [] && Names(flags) == [""];
    r := ShortestUniquePrefixes(flags);
  }

  /** The names are those of the flags, and behind `no` those of the boolean ones. */
  lemma {:induction false} NamesAre(flags: seq<Flag>, n: string)
    ensures n in Names(flags) <==> exists f :: f in flags && (n == f.name || (f.boolean && n == ['n', 'o'] + f.name))
    decreases flags
  {
    if flags != [] {
      var init, last := flags[..|flags| - 1], flags[|flags| - 1];
      NamesAre(init, n);
      assert flags == init + [last];
      assert last in flags;
    }
  }

  /** None, one, or at least two of the names start with `p`. */
  lemma {:induction false} StartingMeans(s: seq<string>, p: string)
    ensures Starting(s, p) == 0 <==> forall i :: 0 <= i < |s| ==> !(p <= s[i])
    ensures Starting(s, p) > 1 <==> exists i, j :: 0 <= i < j < |s| && p <= s[i] && p <= s[j]
  {
    if s != [] {
      var rest := s[1..];
      StartingMeans(rest, p);
      assert forall i :: 0 <= i < |rest| ==> rest[i] == s[i + 1];
      if Starting(rest, p) > 1 {
        var i, j :| 0 <= i < j < |rest| && p <= rest[i] && p <= rest[j];
        assert p <= s[i + 1] && p <= s[j + 1];
      } else if Starting(s, p) > 1 {
        var j :| 0 <= j < |rest| && p <= rest[j];
        assert p <= s[0] && p <= s[j + 1];
      }
      if exists i, j :: 0 <= i < j < |s| && p <= s[i] && p <= s[j] {
        var i, j :| 0 <= i < j < |s| && p <= s[i] && p <= s[j];
        assert p <= rest[j - 1] && (i > 0 ==> p <= rest[i - 1]);
      }
      if Starting(s, p) != 0 {
        assert p <= s[0] || exists i :: 0 <= i < |rest| && p <= rest[i];
      }
    }
  }

  lemma NoneEmpty(s: seq<string>)
    requires Sorted(s) && (s != [] ==> s[0] != "")
    ensures "" !in s
  {
    forall i | 0 <= i < |s| ensures s[i] != "" {
      if i > 0 { assert LexLe(s[0], s[i]); }
    }
  }

  method ListNames(flags: seq<Flag>) returns (names: seq<string>)
    ensures names == Names(flags)
  {
    names := [];
    for i := 0 to |flags|
      invariant names == Names(flags[..i])
    {
      assert flags[..i + 1][..i] == flags[..i];
      names := names + [flags[i].name];
      if flags[i].boolean { names := names + ["no" + flags[i].name]; }
    }
    assert flags[..|flags|] == flags;
  }
}
