/** Order-free facts about lists: distinct keys, totals, and what a permutation leaves alone.
    The validators walk their lists once with a mutable set and a running budget; these
    are the notions their verdicts are stated in. */
module Lists {
  import opened Wrappers

  function KeySet<T, K(==)>(key: T -> K, s: seq<T>): set<K> {
    if s == [] then {} else KeySet(key, s[..|s| - 1]) + {key(s[|s| - 1])}
  }

  /** No two elements have the same key; see DistinctMeans. */
  predicate Distinct<T, K(==)>(key: T -> K, s: seq<T>) {
    s == [] || (Distinct(key, s[..|s| - 1]) && key(s[|s| - 1]) !in KeySet(key, s[..|s| - 1]))
  }

  function Total<T>(size: T -> nat, s: seq<T>): nat {
    if s == [] then 0 else Total(size, s[..|s| - 1]) + size(s[|s| - 1])
  }

  lemma {:induction false} KeySetMeans<T, K>(key: T -> K, s: seq<T>, k: K)
    ensures k in KeySet(key, s) <==> exists i :: 0 <= i < |s| && key(s[i]) == k
  {
    if s != [] {
      var n := |s| - 1;
      KeySetMeans(key, s[..n], k);
      if k in KeySet(key, s[..n]) {
        var i :| 0 <= i < n && key(s[..n][i]) == k;
        assert key(s[i]) == k;
      }
      if i :| 0 <= i < |s| && key(s[i]) == k {
        assert i == n || key(s[..n][i]) == k;
      }
    }
  }

  lemma {:induction false} DistinctMeans<T, K>(key: T -> K, s: seq<T>)
    ensures Distinct(key, s) <==> forall i, j :: 0 <= i < j < |s| ==> key(s[i]) != key(s[j])
  {
    if s != [] {
      var n := |s| - 1;
      DistinctMeans(key, s[..n]);
      KeySetMeans(key, s[..n], key(s[n]));
      assert forall i :: 0 <= i < n ==> s[..n][i] == s[i];
      if !Distinct(key, s[..n]) {
        var i, j :| 0 <= i < j < n && key(s[..n][i]) == key(s[..n][j]);
        assert key(s[i]) == key(s[j]);
      } else if !Distinct(key, s) {
        var i :| 0 <= i < n && key(s[..n][i]) == key(s[n]);
        assert key(s[i]) == key(s[n]);
      }
    }
  }

  /** Extending a list by one element, as a validator's loop does. */
  lemma ExtendKeys<T, K>(key: T -> K, s: seq<T>, n: nat)
    requires n < |s|
    ensures KeySet(key, s[..n + 1]) == KeySet(key, s[..n]) + {key(s[n])}
    ensures Distinct(key, s[..n + 1]) <==> Distinct(key, s[..n]) && key(s[n]) !in KeySet(key, s[..n])
  {
    assert s[..n + 1][..n] == s[..n];
  }

  lemma ExtendTotal<T>(size: T -> nat, s: seq<T>, n: nat)
    requires n < |s|
    ensures Total(size, s[..n + 1]) == Total(size, s[..n]) + size(s[n])
  {
    assert s[..n + 1][..n] == s[..n];
  }

  /** A repeated key in a prefix is one of the list. */
  lemma {:induction false} DistinctPrefix<T, K>(key: T -> K, s: seq<T>, n: nat)
    requires n <= |s|
    ensures Distinct(key, s) ==> Distinct(key, s[..n])
    decreases |s| - n
  {
    if n == |s| {
      assert s[..n] == s;
    } else {
      ExtendKeys(key, s, n);
      DistinctPrefix(key, s, n + 1);
    }
  }

  /** A prefix weighs no more than the list. */
  lemma {:induction false} PrefixTotal<T>(size: T -> nat, s: seq<T>, n: nat)
    requires n <= |s|
    ensures Total(size, s[..n]) <= Total(size, s)
    decreases |s| - n
  {
    if n == |s| {
      assert s[..n] == s;
    } else {
      ExtendTotal(size, s, n);
      PrefixTotal(size, s, n + 1);
    }
  }

  function Without<T>(s: seq<T>, k: nat): seq<T>
    requires k < |s|
  {
    s[..k] + s[k + 1..]
  }

  lemma WithoutInit<T>(s: seq<T>, k: nat)
    requires k < |s| - 1
    ensures var n := |s| - 1;
            Without(s, k) == Without(s[..n], k) + [s[n]]
  {}

  lemma {:induction false} TotalWithout<T>(size: T -> nat, s: seq<T>, k: nat)
    requires k < |s|
    ensures Total(size, s) == Total(size, Without(s, k)) + size(s[k])
  {
    var n := |s| - 1;
    if k == n {
      assert Without(s, k) == s[..n];
    } else {
      TotalWithout(size, s[..n], k);
      WithoutInit(s, k);
      assert Without(s, k)[..n - 1] == Without(s[..n], k);
    }
  }

  lemma WithoutMultiset<T>(s: seq<T>, k: nat)
    requires k < |s|
    ensures multiset(Without(s, k)) == multiset(s) - multiset{s[k]}
  {
    assert s == s[..k] + [s[k]] + s[k + 1..];
  }

  /** A total does not depend on the order of the list. */
  lemma {:induction false} TotalPermuted<T>(size: T -> nat, s: seq<T>, t: seq<T>)
    requires multiset(s) == multiset(t)
    ensures Total(size, s) == Total(size, t)
    decreases |s|
  {
    assert |s| == |multiset(s)| == |multiset(t)| == |t|;
    if s != [] {
      var n := |s| - 1;
      assert s[n] in multiset(t);
      var k :| 0 <= k < |t| && t[k] == s[n];
      TotalWithout(size, t, k);
      WithoutMultiset(t, k);
      WithoutMultiset(s, n);
      assert Without(s, n) == s[..n];
      TotalPermuted(size, s[..n], Without(t, k));
    }
  }

  lemma PlaceIn<T>(s: seq<T>, x: T) returns (k: nat)
    requires x in multiset(s)
    ensures k < |s| && s[k] == x
  {
    assert x in s;
    k :| 0 <= k < |s| && s[k] == x;
  }

  /** Two places of a list have two different counterparts in any permutation of it. */
  lemma TwoPlaces<T>(s: seq<T>, t: seq<T>, i: nat, j: nat) returns (a: nat, b: nat)
    requires multiset(s) == multiset(t)
    requires i < j < |t|
    ensures a != b && a < |s| && b < |s|
    ensures s[a] == t[i] && s[b] == t[j]
  {
    b := PlaceIn(s, t[j]);
    WithoutMultiset(s, b);
    WithoutMultiset(t, j);
    assert Without(t, j)[i] in multiset(Without(t, j));
    var c := PlaceIn(Without(s, b), t[i]);
    a := if c < b then c else c + 1;
  }

  /** Nor does it matter to whether keys are distinct. */
  lemma DistinctPermuted<T, K>(key: T -> K, s: seq<T>, t: seq<T>)
    requires multiset(s) == multiset(t)
    requires Distinct(key, s)
    ensures Distinct(key, t)
  {
    DistinctMeans(key, s);
    DistinctMeans(key, t);
    forall i, j | 0 <= i < j < |t|
      ensures key(t[i]) != key(t[j])
    {
      var a, b := TwoPlaces(s, t, i, j);
      var lo, hi := if a < b then a else b, if a < b then b else a;
      assert key(s[lo]) != key(s[hi]);
    }
  }

  lemma SameMembers<T>(s: seq<T>, t: seq<T>)
    requires multiset(s) == multiset(t)
    ensures forall x :: x in s <==> x in t
    ensures |s| == |t|
  {
    assert |s| == |multiset(s)| == |multiset(t)| == |t|;
    forall x
      ensures x in s <==> x in t
    {
      assert x in s <==> x in multiset(s);
      assert x in t <==> x in multiset(t);
    }
  }

  /** A list whose elements are valid and have distinct keys stays one in any order. */
  lemma AcceptedInAnyOrder<T, K>(valid: T -> bool, key: T -> K, s: seq<T>, t: seq<T>)
    requires multiset(s) == multiset(t)
    ensures (forall x :: x in s ==> valid(x)) && Distinct(key, s) <==>
            (forall x :: x in t ==> valid(x)) && Distinct(key, t)
  {
    SameMembers(s, t);
    if Distinct(key, s) {
      DistinctPermuted(key, s, t);
    }
    if Distinct(key, t) {
      DistinctPermuted(key, t, s);
    }
  }

  /** The first n elements satisfy `p`: what a loop that returns at the first failure has learnt. */
  predicate UpTo<T>(p: T -> bool, s: seq<T>, n: nat)
    requires n <= |s|
  {
    n == 0 || (UpTo(p, s, n - 1) && p(s[n - 1]))
  }

  lemma {:induction false} UpToMeans<T>(p: T -> bool, s: seq<T>, n: nat)
    requires n <= |s|
    ensures UpTo(p, s, n) <==> forall x :: x in s[..n] ==> p(x)
  {
    if n > 0 {
      UpToMeans(p, s, n - 1);
      assert s[..n] == s[..n - 1] + [s[n - 1]];
    }
  }

  lemma {:induction false} UpToPrefix<T>(p: T -> bool, s: seq<T>, n: nat)
    requires n <= |s|
    ensures UpTo(p, s[..n], n) <==> UpTo(p, s, n)
  {
    UpToMeans(p, s, n);
    UpToMeans(p, s[..n], n);
    assert s[..n][..n] == s[..n];
  }

  function Map<T, U>(f: T -> U, s: seq<T>): (r: seq<U>)
    ensures |r| == |s|
    ensures forall i :: 0 <= i < |s| ==> r[i] == f(s[i])
  {
    if s == [] then [] else [f(s[0])] + Map(f, s[1..])
  }

  /** Mapping with a function that fixes every element changes nothing. */
  lemma MapFixes<T>(f: T -> T, s: seq<T>)
    requires forall x :: x in s ==> f(x) == x
    ensures Map(f, s) == s
  {}

  /** The keys of a mapped list are distinct exactly when the keys it maps to are. */
  lemma MapKeys<T, U, K>(f: T -> U, key: U -> K, given: T -> K, s: seq<T>)
    requires forall x :: x in s ==> key(f(x)) == given(x)
    ensures Distinct(key, Map(f, s)) <==> Distinct(given, s)
  {
    DistinctMeans(given, s);
    DistinctMeans(key, Map(f, s));
    forall i | 0 <= i < |s|
      ensures key(Map(f, s)[i]) == given(s[i])
    {
      assert s[i] in s;
    }
  }

  lemma MapKeepsKeys<T, K>(f: T -> T, key: T -> K, s: seq<T>)
    requires forall x :: x in s ==> key(f(x)) == key(x)
    ensures Distinct(key, Map(f, s)) <==> Distinct(key, s)
  {
    MapKeys(f, key, key, s);
  }

  lemma MapMembers<T, U>(f: T -> U, s: seq<T>)
    ensures forall x :: x in s ==> f(x) in Map(f, s)
    ensures forall y :: y in Map(f, s) ==> exists x :: x in s && f(x) == y
  {
    forall x | x in s
      ensures f(x) in Map(f, s)
    {
      var i :| 0 <= i < |s| && s[i] == x;
      assert Map(f, s)[i] == f(x);
    }
    forall y | y in Map(f, s)
      ensures exists x :: x in s && f(x) == y
    {
      var i :| 0 <= i < |s| && Map(f, s)[i] == y;
      assert s[i] in s && f(s[i]) == y;
    }
  }

  /** Replacing an element by one with its key keeps keys distinct, and keeps what all elements satisfy
      exactly when the new one satisfies it. */
  lemma Replaced<T, K>(key: T -> K, p: T -> bool, s: seq<T>, i: nat, x: T)
    requires i < |s| && key(x) == key(s[i])
    requires Distinct(key, s) && forall y :: y in s ==> p(y)
    ensures Distinct(key, s[i := x])
    ensures (forall y :: y in s[i := x] ==> p(y)) <==> p(x)
  {
    DistinctMeans(key, s);
    DistinctMeans(key, s[i := x]);
    assert s[i := x][i] == x;
  }

  /** What those elements give that give anything. */
  function Collect<T, U>(f: T -> Option<U>, s: seq<T>): (r: seq<U>)
    ensures |r| <= |s|
  {
    if s == [] then [] else
    var last, rest := f(s[|s| - 1]), Collect(f, s[..|s| - 1]);
    if last.None? then rest else rest + [last.value]
  }

  lemma {:induction false} CollectMembers<T, U>(f: T -> Option<U>, s: seq<T>, y: U)
    requires y in Collect(f, s)
    ensures exists x :: x in s && f(x) == Some(y)
  {
    var n := |s| - 1;
    if y in Collect(f, s[..n]) {
      CollectMembers(f, s[..n], y);
      var x :| x in s[..n] && f(x) == Some(y);
      assert x in s;
    } else {
      assert s[n] in s;
    }
  }

  /** Two elements with different names give things with different keys. */
  predicate GivesApart<T, U, N(==), K(==)>(f: T -> Option<U>, name: T -> N, key: U -> K, x: T, y: T) {
    f(x).Some? && f(y).Some? && key(f(x).value) == key(f(y).value) ==> name(x) == name(y)
  }

  lemma {:induction false} CollectDistinct<T, U, N, K>(f: T -> Option<U>, name: T -> N, key: U -> K, s: seq<T>)
    requires Distinct(name, s)
    requires forall x, y :: x in s && y in s ==> GivesApart(f, name, key, x, y)
    ensures Distinct(key, Collect(f, s))
  {
    if s != [] {
      var n := |s| - 1;
      var rest := Collect(f, s[..n]);
      assert forall x :: x in s[..n] ==> x in s;
      CollectDistinct(f, name, key, s[..n]);
      if f(s[n]).Some? {
        var last := f(s[n]).value;
        KeySetMeans(key, rest, key(last));
        if key(last) in KeySet(key, rest) {
          var i :| 0 <= i < |rest| && key(rest[i]) == key(last);
          CollectMembers(f, s[..n], rest[i]);
          var x :| x in s[..n] && f(x) == Some(rest[i]);
          assert GivesApart(f, name, key, x, s[n]);
          var j :| 0 <= j < n && s[..n][j] == x;
          KeySetMeans(name, s[..n], name(s[n]));
        }
        assert Collect(f, s)[..|rest|] == rest;
      }
    }
  }

  lemma DistinctConcat<T, K>(key: T -> K, a: seq<T>, b: seq<T>)
    requires Distinct(key, a) && Distinct(key, b)
    requires forall x, y :: x in a && y in b ==> key(x) != key(y)
    ensures Distinct(key, a + b)
  {
    DistinctMeans(key, a);
    DistinctMeans(key, b);
    DistinctMeans(key, a + b);
  }
}
