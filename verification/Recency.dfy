/** Key/value pairs in order of use: what a least-recently-used cache is meant to hold. */
module Recency {
  import opened Common

  /** The pairs whose key is not `k`. */
  function Without<K(==), V>(s: seq<(K, V)>, k: K): seq<(K, V)>
  {
    if s == [] then [] else (if s[0].0 == k then [] else [s[0]]) + Without(s[1..], k)
  }

  function Lookup<K(==), V>(s: seq<(K, V)>, k: K): Option<V>
  {
    if s == [] then None else if s[0].0 == k then Some(s[0].1) else Lookup(s[1..], k)
  }

  /** A use of `k` with value `v` moves it to the front. */
  function Use<K(==), V>(s: seq<(K, V)>, k: K, v: V): seq<(K, V)> { [(k, v)] + Without(s, k) }

  /** All keys ever used, the most recently used first, each with its last value. */
  function Recent<K(==), V>(history: seq<(K, V)>): seq<(K, V)>
  {
    if history == [] then [] else Use(Recent(history[1..]), history[0].0, history[0].1)
  }

  ghost predicate DistinctKeys<K, V>(s: seq<(K, V)>) {
    forall i, j :: 0 <= i < j < |s| ==> s[i].0 != s[j].0
  }

  lemma {:induction false} WithoutKeys<K, V>(s: seq<(K, V)>, k: K)
    ensures forall j :: 0 <= j < |Without(s, k)| ==> Without(s, k)[j] in s && Without(s, k)[j].0 != k
    ensures DistinctKeys(s) ==> DistinctKeys(Without(s, k))
  {
    if s != [] {
      WithoutKeys(s[1..], k);
      var rest := Without(s[1..], k);
      if DistinctKeys(s) {
        forall j | 0 <= j < |rest| ensures s[0].0 != rest[j].0 {
          var i :| 0 <= i < |s[1..]| && s[1..][i] == rest[j];
          assert s[i + 1] == rest[j];
        }
      }
    }
  }

  lemma {:induction false} RecentDistinct<K, V>(history: seq<(K, V)>)
    ensures DistinctKeys(Recent(history))
  {
    if history != [] {
      RecentDistinct(history[1..]);
      WithoutKeys(Recent(history[1..]), history[0].0);
    }
  }

  /** When `k` was last used: the index of its first pair, a history beginning with the latest use. */
  function LastUse<K(==), V>(history: seq<(K, V)>, k: K): (i: nat)
    ensures i <= |history| && forall j :: 0 <= j < i ==> history[j].0 != k
    ensures i < |history| ==> history[i].0 == k
  {
    if history == [] || history[0].0 == k then 0 else 1 + LastUse(history[1..], k)
  }

  /** Each pair is the last use of its key, and later uses come first. */
  ghost predicate ByLastUse<K, V>(s: seq<(K, V)>, history: seq<(K, V)>) {
    && (forall i :: 0 <= i < |s| ==>
          LastUse(history, s[i].0) < |history| && s[i] == history[LastUse(history, s[i].0)])
    && (forall i, j :: 0 <= i < j < |s| ==> LastUse(history, s[i].0) < LastUse(history, s[j].0))
  }

  ghost predicate LastOfItsKey<K, V>(x: (K, V), history: seq<(K, V)>) {
    LastUse(history, x.0) < |history| && x == history[LastUse(history, x.0)]
  }

  lemma FirstInOrder<K, V>(x: (K, V), s: seq<(K, V)>, history: seq<(K, V)>)
    requires ByLastUse(s, history) && LastOfItsKey(x, history)
    requires forall j :: 0 <= j < |s| ==> LastUse(history, x.0) < LastUse(history, s[j].0)
    ensures ByLastUse([x] + s, history)
  {
    hide LastUse;
  }

  lemma RestInOrder<K, V>(s: seq<(K, V)>, history: seq<(K, V)>)
    requires s != [] && ByLastUse(s, history)
    ensures ByLastUse(s[1..], history) && LastOfItsKey(s[0], history)
    ensures forall x | x in s[1..] :: LastUse(history, s[0].0) < LastUse(history, x.0)
  {
    hide LastUse;
  }

  lemma {:induction false} WithoutInOrder<K, V>(s: seq<(K, V)>, history: seq<(K, V)>, k: K)
    requires ByLastUse(s, history)
    ensures ByLastUse(Without(s, k), history)
    ensures forall x | x in s :: x.0 == k || x in Without(s, k)
  {
    hide LastUse, ByLastUse, LastOfItsKey;
    if s != [] {
      var rest := Without(s[1..], k);
      RestInOrder(s, history);
      WithoutInOrder(s[1..], history, k);
      WithoutKeys(s[1..], k);
      if s[0].0 != k {
        FirstInOrder(s[0], rest, history);
      } else {
        assert [] + rest == rest;
      }
      assert forall x :: x in s <==> x == s[0] || x in s[1..];
    } else {
      NothingInOrder(history);
    }
  }

  lemma NothingInOrder<K, V>(history: seq<(K, V)>)
    ensures ByLastUse([], history)
  {
  }

  /** A use of another key makes all uses of these keys one step older. */
  lemma OlderInOrder<K, V>(s: seq<(K, V)>, history: seq<(K, V)>)
    requires history != [] && ByLastUse(s, history[1..]) && forall j :: 0 <= j < |s| ==> s[j].0 != history[0].0
    ensures ByLastUse(s, history)
    ensures forall j :: 0 <= j < |s| ==> LastUse(history, s[j].0) > 0
  {
    forall j | 0 <= j < |s| ensures LastUse(history, s[j].0) == 1 + LastUse(history[1..], s[j].0) {}
    hide LastUse;
  }

  /** The recency order, told by the history alone: every key used, by its last use, with its last value. */
  lemma {:induction false} RecentByLastUse<K, V>(history: seq<(K, V)>)
    ensures ByLastUse(Recent(history), history)
    ensures forall x | x in history :: exists y :: y in Recent(history) && y.0 == x.0
  {
    hide ByLastUse;
    if history != [] {
      var older, k := history[1..], history[0].0;
      var s := Without(Recent(older), k);
      RecentByLastUse(older);
      WithoutInOrder(Recent(older), older, k);
      WithoutKeys(Recent(older), k);
      OlderInOrder(s, history);
      FirstInOrder(history[0], s, history);
      assert Recent(history) == [history[0]] + s;
      forall x | x in history ensures exists y :: y in Recent(history) && y.0 == x.0 {
        if x.0 == k {
          assert history[0] == Recent(history)[0];
        } else {
          assert x in older;
          var y :| y in Recent(older) && y.0 == x.0;
          assert y in s;
        }
      }
    } else {
      NothingInOrder(history);
    }
  }

  lemma {:induction false} WithoutAbsent<K, V>(s: seq<(K, V)>, k: K)
    requires forall i :: 0 <= i < |s| ==> s[i].0 != k
    ensures Without(s, k) == s
  {
    if s != [] { WithoutAbsent(s[1..], k); }
  }

  lemma {:induction false} WithoutAt<K, V>(s: seq<(K, V)>, i: nat)
    requires i < |s| && DistinctKeys(s)
    ensures Without(s, s[i].0) == s[..i] + s[i + 1..] && Lookup(s, s[i].0) == Some(s[i].1)
  {
    if i == 0 {
      WithoutAbsent(s[1..], s[0].0);
    } else {
      WithoutAt(s[1..], i - 1);
      assert s[1..][..i - 1] + s[1..][i..] == s[1..i] + s[i + 1..];
      assert [s[0]] + (s[1..i] + s[i + 1..]) == s[..i] + s[i + 1..];
    }
  }

  lemma {:induction false} LookupAbsent<K, V>(s: seq<(K, V)>, k: K)
    ensures Lookup(s, k) == None <==> forall i :: 0 <= i < |s| ==> s[i].0 != k
  {
    if s != [] {
      LookupAbsent(s[1..], k);
      assert (forall i :: 0 <= i < |s| ==> s[i].0 != k) ==> forall i :: 0 <= i < |s[1..]| ==> s[1..][i].0 != k;
    }
  }

  /** Dropping what lies past the capacity first does not change what a use leaves within it. */
  lemma {:induction false} TakeThenWithout<K, V>(s: seq<(K, V)>, k: K, n: nat)
    requires DistinctKeys(s)
    ensures Take(Without(Take(s, n + 1), k), n) == Take(Without(s, k), n)
  {
    if s != [] {
      if s[0].0 == k {
        WithoutAbsent(s[1..], k);
        WithoutAbsent(Take(s, n + 1)[1..], k);
      } else if n > 0 {
        TakeThenWithout(s[1..], k, n - 1);
        TakeTail(s, n);
        TakeCons(s[0], Without(s[1..], k), n);
        TakeCons(s[0], Without(Take(s[1..], n), k), n);
      }
    }
  }

  lemma TakeTail<T>(s: seq<T>, n: nat)
    requires s != []
    ensures Take(s, n + 1) != [] && Take(s, n + 1)[0] == s[0] && Take(s, n + 1)[1..] == Take(s[1..], n)
  {
    assert s == [s[0]] + s[1..];
    TakeCons(s[0], s[1..], n + 1);
    assert ([s[0]] + Take(s[1..], n))[1..] == Take(s[1..], n);
  }

  lemma TakeCons<T>(x: T, s: seq<T>, n: nat)
    requires n > 0
    ensures Take([x] + s, n) == [x] + Take(s, n - 1)
  {
  }

  /**
    A cache that holds the `capacity` most recently used keys still does after one more use, when
    it moves the key used to the front and drops what no longer fits.
   */
  lemma UseKeepsRecent<K, V>(held: seq<(K, V)>, history: seq<(K, V)>, capacity: nat, k: K, v: V)
    requires held == Take(Recent(history), capacity)
    ensures Take(Use(held, k, v), capacity) == Take(Recent([(k, v)] + history), capacity)
  {
    RecentDistinct(history);
    assert ([(k, v)] + history)[1..] == history;
    if capacity > 0 {
      TakeThenWithout(Recent(history), k, capacity - 1);
      TakeCons((k, v), Without(held, k), capacity);
      TakeCons((k, v), Without(Recent(history), k), capacity);
    }
  }
}
