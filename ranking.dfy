/**
 * Python's stable `sorted(..., key=...)` and `collections.Counter`
 * (insertion-ordered keys, `c[k] += w`, `Counter(list)` and
 * `most_common(n)`), which every stage of the recommender ranks with.
 */
module Ranking {
  import opened Collections

  /** A sort key compared lexicographically, like a Python pair of ints. */
  type Key = (int, int)

  predicate KeyLe(a: Key, b: Key)
  {
    a.0 < b.0 || (a.0 == b.0 && a.1 <= b.1)
  }

  ghost predicate SortedBy<T>(s: seq<T>, key: T -> Key)
  {
    forall i, j :: 0 <= i < j < |s| ==> KeyLe(key(s[i]), key(s[j]))
  }

  /** `x` placed in front of the first element whose key is not smaller. */
  function Insert<T>(x: T, s: seq<T>, key: T -> Key): (r: seq<T>)
    ensures multiset(r) == multiset(s) + multiset{x}
  {
    if s == [] || KeyLe(key(x), key(s[0])) then [x] + s
    else
      assert s == [s[0]] + s[1..];
      [s[0]] + Insert(x, s[1..], key)
  }

  lemma {:induction false} InsertSorted<T>(x: T, s: seq<T>, key: T -> Key)
    requires SortedBy(s, key)
    ensures SortedBy(Insert(x, s, key), key)
  {
    if s != [] && !KeyLe(key(x), key(s[0])) {
      var tail := s[1..];
      assert SortedBy(tail, key) by {
        forall i, j | 0 <= i < j < |tail|
          ensures KeyLe(key(tail[i]), key(tail[j]))
        {
          assert tail[i] == s[i + 1] && tail[j] == s[j + 1];
        }
      }
      assert forall i :: 0 <= i < |tail| ==> KeyLe(key(s[0]), key(tail[i])) by {
        forall i | 0 <= i < |tail|
          ensures KeyLe(key(s[0]), key(tail[i]))
        {
          assert tail[i] == s[i + 1];
        }
      }
      var t := Insert(x, tail, key);
      InsertSorted(x, tail, key);
      InsertBound(key(s[0]), x, tail, key);
      var r := [s[0]] + t;
      assert Insert(x, s, key) == r;
      forall i, j | 0 <= i < j < |r|
        ensures KeyLe(key(r[i]), key(r[j]))
      {
        assert r[j] == t[j - 1];
        if i > 0 {
          assert r[i] == t[i - 1];
        }
      }
    }
  }

  /** Inserting an element no smaller than a bound keeps every element no smaller than it. */
  lemma {:induction false} InsertBound<T>(b: Key, x: T, s: seq<T>, key: T -> Key)
    requires KeyLe(b, key(x))
    requires forall i :: 0 <= i < |s| ==> KeyLe(b, key(s[i]))
    ensures forall i :: 0 <= i < |Insert(x, s, key)| ==> KeyLe(b, key(Insert(x, s, key)[i]))
  {
    if s != [] && !KeyLe(key(x), key(s[0])) {
      var t := Insert(x, s[1..], key);
      assert forall i :: 0 <= i < |s[1..]| ==> s[1..][i] == s[i + 1];
      InsertBound(b, x, s[1..], key);
      assert Insert(x, s, key) == [s[0]] + t;
    }
  }

  /**
   * Python's `sorted(s, key=key)`: an insertion sort. Placing each element
   * in front of the first element with a key not smaller keeps equal keys
   * in their original order.
   */
  function SortBy<T>(s: seq<T>, key: T -> Key): (r: seq<T>)
    ensures multiset(r) == multiset(s)
    ensures SortedBy(r, key)
  {
    if s == [] then []
    else
      assert s == [s[0]] + s[1..];
      InsertSorted(s[0], SortBy(s[1..], key), key);
      Insert(s[0], SortBy(s[1..], key), key)
  }

  /** The elements of `s` whose key is `k`, in order. */
  function WithKey<T>(s: seq<T>, key: T -> Key, k: Key): seq<T>
  {
    if s == [] then [] else (if key(s[0]) == k then [s[0]] else []) + WithKey(s[1..], key, k)
  }

  lemma {:induction false} InsertWithKey<T>(x: T, s: seq<T>, key: T -> Key, k: Key)
    ensures WithKey(Insert(x, s, key), key, k) == (if key(x) == k then [x] else []) + WithKey(s, key, k)
  {
    var hx := if key(x) == k then [x] else [];
    if s == [] || KeyLe(key(x), key(s[0])) {
      assert ([x] + s)[0] == x && ([x] + s)[1..] == s;
    } else {
      var t := Insert(x, s[1..], key);
      var hs := if key(s[0]) == k then [s[0]] else [];
      var rest := WithKey(s[1..], key, k);
      assert ([s[0]] + t)[0] == s[0] && ([s[0]] + t)[1..] == t;
      calc {
        WithKey(Insert(x, s, key), key, k);
        WithKey([s[0]] + t, key, k);
        hs + WithKey(t, key, k);
        { InsertWithKey(x, s[1..], key, k); }
        hs + (hx + rest);
        { assert hx == [] || hs == []; }
        hx + (hs + rest);
        hx + WithKey(s, key, k);
      }
    }
  }

  /** `SortBy` is stable: for every key, the elements with that key keep their relative order. */
  lemma {:induction false} SortByStable<T>(s: seq<T>, key: T -> Key, k: Key)
    ensures WithKey(SortBy(s, key), key, k) == WithKey(s, key, k)
  {
    if s != [] {
      SortByStable(s[1..], key, k);
      InsertWithKey(s[0], SortBy(s[1..], key), key, k);
    }
  }

  lemma SortByMembers<T>(s: seq<T>, key: T -> Key)
    ensures |SortBy(s, key)| == |s|
    ensures forall y :: y in SortBy(s, key) <==> y in s
  {
    var r := SortBy(s, key);
    assert |r| == |multiset(r)| == |multiset(s)| == |s|;
    assert forall y :: y in r <==> y in multiset(r);
  }

  /**
   * A Python `Counter`: its keys in insertion order and their values.
   * `Valid` ties the two together.
   */
  datatype Counter<K(==)> = Counter(keys: seq<K>, score: map<K, int>)

  ghost predicate Valid<K>(c: Counter<K>)
  {
    && NoDup(c.keys)
    && (forall i :: 0 <= i < |c.keys| ==> c.keys[i] in c.score)
    && (forall k :: k in c.score ==> k in c.keys)
  }

  /** `c[k] += w`: a missing key is appended with value `w`. */
  function Add<K(==)>(c: Counter<K>, k: K, w: int): Counter<K>
  {
    if k in c.score then Counter(c.keys, c.score[k := c.score[k] + w])
    else Counter(c.keys + [k], c.score[k := w])
  }

  /** The keys of a sequence of (key, weight) pairs. */
  function Firsts<K>(ps: seq<(K, int)>): (r: seq<K>)
  {
    if ps == [] then [] else Firsts(ps[..|ps| - 1]) + [ps[|ps| - 1].0]
  }

  /** The sum of the weights paired with `k`. */
  function SumFor<K(==)>(ps: seq<(K, int)>, k: K): int
  {
    if ps == [] then 0
    else SumFor(ps[..|ps| - 1], k) + (if ps[|ps| - 1].0 == k then ps[|ps| - 1].1 else 0)
  }

  lemma {:induction false} SumForAppend<K>(a: seq<(K, int)>, b: seq<(K, int)>, k: K)
    ensures SumFor(a + b, k) == SumFor(a, k) + SumFor(b, k)
    decreases |b|
  {
    if b == [] {
      assert a + b == a;
    } else {
      assert (a + b)[..|a + b| - 1] == a + b[..|b| - 1];
      SumForAppend(a, b[..|b| - 1], k);
    }
  }

  /** A fresh `Counter` after `c[k] += w` for every pair `(k, w)` of `ps`, in order. */
  function Tally<K(==)>(ps: seq<(K, int)>): (c: Counter<K>)
  {
    if ps == [] then Counter([], map[])
    else Add(Tally(ps[..|ps| - 1]), ps[|ps| - 1].0, ps[|ps| - 1].1)
  }

  /**
   * The counter a run of `c[k] += w` produces: its keys are the pairs' keys
   * in order of first occurrence, and each key's value is the sum of the
   * weights paired with it.
   */
  lemma {:induction false} TallySpec<K>(ps: seq<(K, int)>)
    ensures Valid(Tally(ps))
    ensures Tally(ps).keys == Distinct(Firsts(ps))
    ensures forall k :: k in Tally(ps).score ==> Tally(ps).score[k] == SumFor(ps, k)
    ensures forall k :: k !in Tally(ps).score ==> SumFor(ps, k) == 0
  {
    if ps != [] {
      var p := ps[..|ps| - 1];
      var last := ps[|ps| - 1];
      TallySpec(p);
      var c := Tally(p);
      DistinctSnoc(Firsts(p), last.0);
      AddSpec(c, last.0, last.1);
      assert Tally(ps) == Add(c, last.0, last.1);
      assert Firsts(ps) == Firsts(p) + [last.0];
      forall k | k in Tally(ps).score
        ensures Tally(ps).score[k] == SumFor(ps, k)
      {
        assert SumFor(ps, k) == SumFor(p, k) + (if k == last.0 then last.1 else 0);
      }
      forall k | k !in Tally(ps).score
        ensures SumFor(ps, k) == 0
      {
        assert SumFor(ps, k) == SumFor(p, k) + (if k == last.0 then last.1 else 0);
      }
    }
  }

  lemma DistinctSnoc<K>(f: seq<K>, x: K)
    ensures Distinct(f + [x]) == if x in Distinct(f) then Distinct(f) else Distinct(f) + [x]
  {
    assert (f + [x])[..|f|] == f;
  }

  lemma AddSpec<K>(c: Counter<K>, k: K, w: int)
    requires Valid(c)
    ensures Valid(Add(c, k, w))
    ensures Add(c, k, w).keys == if k in c.keys then c.keys else c.keys + [k]
    ensures forall j :: j in Add(c, k, w).score <==> j in c.score || j == k
    ensures forall j :: j in Add(c, k, w).score ==>
      Add(c, k, w).score[j] == (if j in c.score then c.score[j] else 0) + (if j == k then w else 0)
  {
  }

  /** `Counter(xs)`: every element counted once per occurrence. */
  function CountOf<K(==)>(xs: seq<K>): Counter<K>
  {
    Tally(Ones(xs))
  }

  function Ones<K>(xs: seq<K>): (ps: seq<(K, int)>)
    ensures |ps| == |xs|
    ensures forall i :: 0 <= i < |xs| ==> ps[i] == (xs[i], 1)
  {
    seq(|xs|, i requires 0 <= i < |xs| => (xs[i], 1))
  }

  /** A `Counter` built from a list: keys in order of first occurrence, values the occurrence counts. */
  lemma {:induction false} CountOfSpec<K>(xs: seq<K>)
    ensures Valid(CountOf(xs))
    ensures CountOf(xs).keys == Distinct(xs)
    ensures forall k :: k in CountOf(xs).score ==> CountOf(xs).score[k] == Occurrences(xs, k)
    decreases |xs|
  {
    TallySpec(Ones(xs));
    FirstsIndex(Ones(xs));
    assert Firsts(Ones(xs)) == xs;
    OnesSum(xs);
    forall k | k in CountOf(xs).score
      ensures CountOf(xs).score[k] == Occurrences(xs, k)
    {
      assert CountOf(xs).score[k] == SumFor(Ones(xs), k);
    }
  }

  lemma {:induction false} OnesSum<K>(xs: seq<K>)
    ensures forall k :: SumFor(Ones(xs), k) == Occurrences(xs, k)
    decreases |xs|
  {
    if xs != [] {
      OnesSum(xs[..|xs| - 1]);
      assert Ones(xs)[..|xs| - 1] == Ones(xs[..|xs| - 1]);
    }
  }

  /** The (key, value) items of a counter, in key insertion order. */
  function Items<K(==)>(c: Counter<K>): (r: seq<(K, int)>)
    requires Valid(c)
    ensures |r| == |c.keys|
    ensures forall i :: 0 <= i < |r| ==> r[i] == (c.keys[i], c.score[c.keys[i]])
  {
    seq(|c.keys|, i requires 0 <= i < |c.keys| && c.keys[i] in c.score => (c.keys[i], c.score[c.keys[i]]))
  }

  /** Descending by value: the key Python's `most_common` sorts by. */
  function ByCount<K>(e: (K, int)): Key
  {
    (-e.1, 0)
  }

  /** All items, largest value first, equal values in key insertion order. */
  function Ranked<K(==)>(c: Counter<K>): seq<(K, int)>
    requires Valid(c)
  {
    SortBy(Items(c), ByCount)
  }

  function KeyOf<K>(e: (K, int)): K
  {
    e.0
  }

  /** The ranking holds exactly the counter's items. */
  lemma RankedMembers<K>(c: Counter<K>)
    requires Valid(c)
    ensures |Ranked(c)| == |c.keys|
    ensures multiset(Ranked(c)) == multiset(Items(c))
  {
    SortByMembers(Items(c), ByCount);
  }

  lemma RankedValues<K>(c: Counter<K>)
    requires Valid(c)
    ensures forall i :: 0 <= i < |Ranked(c)| ==> Ranked(c)[i].0 in c.score && Ranked(c)[i].1 == c.score[Ranked(c)[i].0]
  {
    var items := Items(c);
    var all := Ranked(c);
    RankedMembers(c);
    forall i | 0 <= i < |all|
      ensures all[i].0 in c.score && all[i].1 == c.score[all[i].0]
    {
      assert all[i] in multiset(all);
      assert all[i] in items;
    }
  }

  /** Every item of the counter has a place in the ranking. */
  lemma RankedPosition<K>(c: Counter<K>, k: K) returns (m: nat)
    requires Valid(c) && k in c.score
    ensures m < |Ranked(c)| && Ranked(c)[m] == (k, c.score[k])
  {
    var items := Items(c);
    RankedMembers(c);
    var a :| 0 <= a < |c.keys| && c.keys[a] == k;
    assert items[a] in multiset(Ranked(c));
    m :| 0 <= m < |Ranked(c)| && Ranked(c)[m] == items[a];
  }

  lemma RankedDistinct<K>(c: Counter<K>)
    requires Valid(c)
    ensures forall i, j :: 0 <= i < j < |Ranked(c)| ==> Ranked(c)[i].0 != Ranked(c)[j].0
  {
    var items := Items(c);
    assert forall i, j :: 0 <= i < j < |items| ==> KeyOf(items[i]) != KeyOf(items[j]);
    PermutationKeepsDistinctImages(items, Ranked(c), KeyOf);
  }

  lemma RankedSorted<K>(c: Counter<K>)
    requires Valid(c)
    ensures forall i, j :: 0 <= i < j < |Ranked(c)| ==> Ranked(c)[i].1 >= Ranked(c)[j].1
  {
    var all := Ranked(c);
    forall i, j | 0 <= i < j < |all|
      ensures all[i].1 >= all[j].1
    {
      assert KeyLe(ByCount(all[i]), ByCount(all[j]));
    }
  }

  /** `c.most_common(n)`: equal to `sorted(c.items(), key=value, reverse=True)[:n]`. */
  function MostCommon<K(==)>(c: Counter<K>, n: nat): (r: seq<(K, int)>)
    requires Valid(c)
    ensures |r| == Min(n, |c.keys|)
    ensures forall i, j :: 0 <= i < j < |r| ==> r[i].1 >= r[j].1
    ensures forall i :: 0 <= i < |r| ==> r[i].0 in c.score && r[i].1 == c.score[r[i].0]
    ensures forall i, j :: 0 <= i < j < |r| ==> r[i].0 != r[j].0
    ensures forall k, i :: k in c.score && 0 <= i < |r| && k !in Firsts(r) ==> c.score[k] <= r[i].1
  {
    RankedMembers(c);
    RankedValues(c);
    RankedDistinct(c);
    RankedSorted(c);
    var r := Take(Ranked(c), n);
    TopDominates(c, r);
    r
  }

  lemma TopDominates<K>(c: Counter<K>, r: seq<(K, int)>)
    requires Valid(c)
    requires |r| <= |Ranked(c)| && r == Ranked(c)[..|r|]
    ensures forall k, i :: k in c.score && 0 <= i < |r| && k !in Firsts(r) ==> c.score[k] <= r[i].1
  {
    var all := Ranked(c);
    RankedValues(c);
    RankedSorted(c);
    PrefixFirsts(all, r);
    forall k, i | k in c.score && 0 <= i < |r| && k !in Firsts(r)
      ensures c.score[k] <= r[i].1
    {
      var m := RankedPosition(c, k);
      assert m >= |r|;
      assert all[i].1 >= all[m].1;
    }
  }

  lemma PrefixFirsts<K>(all: seq<(K, int)>, r: seq<(K, int)>)
    requires |r| <= |all| && r == all[..|r|]
    ensures forall j :: 0 <= j < |r| ==> all[j].0 in Firsts(r)
  {
    FirstsIndex(r);
    forall j | 0 <= j < |r|
      ensures all[j].0 in Firsts(r)
    {
      assert Firsts(r)[j] == all[j].0;
    }
  }

  lemma {:induction false} FirstsIndex<K>(ps: seq<(K, int)>)
    ensures |Firsts(ps)| == |ps|
    ensures forall i :: 0 <= i < |ps| ==> Firsts(ps)[i] == ps[i].0
  {
    if ps != [] {
      FirstsIndex(ps[..|ps| - 1]);
    }
  }

  /**
   * Ties in `MostCommon` are broken by insertion order: for every value,
   * the ranked items with that value are the counter's keys with that value
   * in their insertion order, and `MostCommon` is a prefix of the ranking.
   */
  lemma RankedTies<K>(c: Counter<K>, n: nat, v: int)
    requires Valid(c)
    ensures WithKey(Ranked(c), ByCount, (-v, 0)) == WithKey(Items(c), ByCount, (-v, 0))
    ensures MostCommon(c, n) == Ranked(c)[..|MostCommon(c, n)|]
  {
    SortByStable(Items(c), ByCount, (-v, 0));
    SortByMembers(Items(c), ByCount);
  }

  /**
   * A counter whose values are a reference score `f` (zero off the keys)
   * ranks by `f`: each listed entry carries its `f` score, and no unlisted
   * key scores more than a listed one.
   */
  lemma TopByScore<K>(c: Counter<K>, n: nat, f: K -> nat)
    requires Valid(c)
    requires forall k :: k in c.score ==> c.score[k] == f(k)
    requires forall k :: k !in c.score ==> f(k) == 0
    ensures forall i :: 0 <= i < |MostCommon(c, n)| ==> MostCommon(c, n)[i].1 == f(MostCommon(c, n)[i].0)
    ensures forall k, i :: 0 <= i < |MostCommon(c, n)| && k !in Firsts(MostCommon(c, n)) ==> f(k) <= MostCommon(c, n)[i].1
  {
    var top := MostCommon(c, n);
    forall k, i | 0 <= i < |top| && k !in Firsts(top)
      ensures f(k) <= top[i].1
    {
      if k in c.score {
        assert c.score[k] <= top[i].1;
      } else {
        assert top[i].0 in c.score;
      }
    }
  }

  /** A list element missing from its tally occurs nowhere in the list. */
  lemma CountOfAbsent<K>(xs: seq<K>)
    ensures forall k :: k !in CountOf(xs).score ==> Occurrences(xs, k) == 0
  {
    CountOfSpec(xs);
    forall k | k !in CountOf(xs).score
      ensures Occurrences(xs, k) == 0
    {
      if Occurrences(xs, k) > 0 {
        var j := OccurrencesIndex(xs, k);
        DistinctCovers(xs);
      }
    }
  }

  /**
   * `Counter(xs).most_common(n)`: at most `n` distinct elements of `xs` with
   * their occurrence counts, most frequent first, and no element left out
   * occurring more often than a listed one.
   */
  lemma MostFrequent<K>(xs: seq<K>, n: nat)
    ensures Valid(CountOf(xs))
    ensures var top := MostCommon(CountOf(xs), n);
      && |top| <= n
      && (forall i :: 0 <= i < |top| ==> top[i].1 == Occurrences(xs, top[i].0) > 0)
      && (forall i, j :: 0 <= i < j < |top| ==> top[i].1 >= top[j].1)
      && (forall i, j :: 0 <= i < j < |top| ==> top[i].0 != top[j].0)
      && (forall k, i :: 0 <= i < |top| && k !in Firsts(top) ==> Occurrences(xs, k) <= top[i].1)
  {
    CountOfSpec(xs);
    CountOfAbsent(xs);
    var c := CountOf(xs);
    TopByScore(c, n, k => Occurrences(xs, k));
    var top := MostCommon(c, n);
    forall i | 0 <= i < |top|
      ensures Occurrences(xs, top[i].0) > 0
    {
      CountOfPositive(xs, top[i].0);
    }
  }

  /** Every key of `Counter(xs)` occurs in `xs`. */
  lemma CountOfPositive<K>(xs: seq<K>, k: K)
    requires k in CountOf(xs).score
    ensures Occurrences(xs, k) > 0
  {
    CountOfSpec(xs);
    DistinctWithin(xs);
    assert k in Distinct(xs);
    var m :| 0 <= m < |Distinct(xs)| && Distinct(xs)[m] == k;
    assert k in xs;
    var j :| 0 <= j < |xs| && xs[j] == k;
    OccurrencesPositive(xs, j);
  }
}
