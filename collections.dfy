/** Sequence helpers shared by the profile builder, the recommender and the comparison engine. */
module Collections {

  /** A value that may be absent: a missing CSV cell or a missing JSON key. */
  datatype Option<T> = None | Some(value: T)

  function Min(a: int, b: int): int
  {
    if a <= b then a else b
  }

  /** Python's `s[:n]` for a non-negative `n`. */
  function Take<T>(s: seq<T>, n: nat): (r: seq<T>)
    ensures |r| == Min(n, |s|)
    ensures r == s[..|r|]
  {
    if |s| <= n then s else s[..n]
  }

  ghost predicate NoDup<T>(s: seq<T>)
  {
    forall i, j :: 0 <= i < j < |s| ==> s[i] != s[j]
  }

  /** The elements of `s` in order of first occurrence, each once: the key order of a Python dict filled from `s`. */
  function Distinct<T(==)>(s: seq<T>): (r: seq<T>)
    ensures NoDup(r)
    decreases |s|
  {
    if s == [] then []
    else
      var p := Distinct(s[..|s| - 1]);
      if s[|s| - 1] in p then p else p + [s[|s| - 1]]
  }

  /** Every element kept by `Distinct` comes from `s`. */
  lemma {:induction false} DistinctWithin<T>(s: seq<T>)
    ensures forall i :: 0 <= i < |Distinct(s)| ==> Distinct(s)[i] in s
    decreases |s|
  {
    if s != [] {
      var s' := s[..|s| - 1];
      DistinctWithin(s');
      assert s == s' + [s[|s| - 1]];
    }
  }

  /** Every element of `s` is kept by `Distinct`. */
  lemma {:induction false} DistinctCovers<T>(s: seq<T>)
    ensures forall i :: 0 <= i < |s| ==> s[i] in Distinct(s)
    decreases |s|
  {
    if s != [] {
      var s' := s[..|s| - 1];
      DistinctCovers(s');
      assert s == s' + [s[|s| - 1]];
      forall i | 0 <= i < |s|
        ensures s[i] in Distinct(s)
      {
        if i < |s'| {
          assert s[i] == s'[i];
        }
      }
    }
  }

  /** How often `x` occurs in `s`. */
  function Occurrences<T(==)>(s: seq<T>, x: T): nat
    decreases |s|
  {
    if s == [] then 0
    else Occurrences(s[..|s| - 1], x) + (if s[|s| - 1] == x then 1 else 0)
  }

  lemma {:induction false} OccurrencesAppend<T>(a: seq<T>, b: seq<T>, x: T)
    ensures Occurrences(a + b, x) == Occurrences(a, x) + Occurrences(b, x)
    decreases |b|
  {
    if b == [] {
      assert a + b == a;
    } else {
      assert (a + b)[..|a + b| - 1] == a + b[..|b| - 1];
      OccurrencesAppend(a, b[..|b| - 1], x);
    }
  }

  /** A position at which `x` occurs. */
  lemma {:induction false} OccurrencesIndex<T>(s: seq<T>, x: T) returns (j: nat)
    requires Occurrences(s, x) > 0
    ensures j < |s| && s[j] == x
  {
    if s[|s| - 1] == x {
      j := |s| - 1;
    } else {
      j := OccurrencesIndex(s[..|s| - 1], x);
    }
  }

  /** An element at some position occurs at least once. */
  lemma {:induction false} OccurrencesPositive<T>(s: seq<T>, j: nat)
    requires j < |s|
    ensures Occurrences(s, s[j]) > 0
  {
    if j < |s| - 1 {
      OccurrencesPositive(s[..|s| - 1], j);
    }
  }

  /**
   * `a` can be obtained from `b` by deleting elements. Matching the last
   * elements greedily is complete, so this characterises subsequences.
   */
  ghost predicate IsSubseq<T>(a: seq<T>, b: seq<T>)
    decreases |b|
  {
    if a == [] then true
    else if b == [] then false
    else if a[|a| - 1] == b[|b| - 1] then IsSubseq(a[..|a| - 1], b[..|b| - 1])
    else IsSubseq(a, b[..|b| - 1])
  }

  lemma {:induction false} SubseqAppendRight<T>(a: seq<T>, b: seq<T>, x: T)
    requires IsSubseq(a, b)
    ensures IsSubseq(a, b + [x])
    decreases |b|, 1
  {
    assert (b + [x])[..|b|] == b;
    if a != [] && a[|a| - 1] == x {
      SubseqDropLast(a, b);
    }
  }

  lemma {:induction false} SubseqDropLast<T>(a: seq<T>, b: seq<T>)
    requires a != [] && IsSubseq(a, b)
    ensures IsSubseq(a[..|a| - 1], b)
    decreases |b|, 0
  {
    var b' := b[..|b| - 1];
    assert b == b' + [b[|b| - 1]];
    if a[|a| - 1] == b[|b| - 1] {
      SubseqAppendRight(a[..|a| - 1], b', b[|b| - 1]);
    } else {
      SubseqDropLast(a, b');
      SubseqAppendRight(a[..|a| - 1], b', b[|b| - 1]);
    }
  }

  lemma SubseqAppendBoth<T>(a: seq<T>, b: seq<T>, x: T)
    requires IsSubseq(a, b)
    ensures IsSubseq(a + [x], b + [x])
  {
    assert (a + [x])[..|a|] == a;
    assert (b + [x])[..|b|] == b;
  }

  lemma {:induction false} SubseqMembers<T>(a: seq<T>, b: seq<T>)
    requires IsSubseq(a, b)
    ensures forall i :: 0 <= i < |a| ==> a[i] in b
    decreases |b|
  {
    if a != [] {
      var b' := b[..|b| - 1];
      assert b == b' + [b[|b| - 1]];
      if a[|a| - 1] == b[|b| - 1] {
        SubseqMembers(a[..|a| - 1], b');
        assert a == a[..|a| - 1] + [a[|a| - 1]];
      } else {
        SubseqMembers(a, b');
      }
    }
  }

  /** The position in `b` of the `i`th element of a subsequence `a` of `b`. */
  lemma {:induction false} SubseqFrom<T>(a: seq<T>, b: seq<T>, i: nat) returns (j: nat)
    requires IsSubseq(a, b) && i < |a|
    ensures j < |b| && b[j] == a[i]
    decreases |b|
  {
    var b' := b[..|b| - 1];
    if a[|a| - 1] == b[|b| - 1] {
      if i == |a| - 1 {
        j := |b| - 1;
      } else {
        j := SubseqFrom(a[..|a| - 1], b', i);
      }
    } else {
      j := SubseqFrom(a, b', i);
    }
  }

  lemma {:induction false} NoDupCounts<T>(s: seq<T>)
    requires NoDup(s)
    ensures forall x :: multiset(s)[x] <= 1
  {
    if s != [] {
      assert s == [s[0]] + s[1..];
      NoDupCounts(s[1..]);
      assert s[0] !in s[1..];
    }
  }

  /** A list has no more distinct values than elements. */
  lemma DistinctNoLonger<T>(s: seq<T>)
    ensures |Distinct(s)| <= |s|
  {
    NoDupCounts(Distinct(s));
    DistinctWithin(s);
    DistinctSubset(Distinct(s), s);
  }

  /** A list without repetitions whose elements all occur in `s` is no longer than `s`. */
  lemma {:induction false} DistinctSubset<T>(d: seq<T>, s: seq<T>)
    requires NoDup(d)
    requires forall i :: 0 <= i < |d| ==> d[i] in s
    ensures |d| <= |s|
  {
    var sd := set i | 0 <= i < |d| :: d[i];
    var ss := set i | 0 <= i < |s| :: s[i];
    assert sd <= ss;
    SetCardLe(sd, ss);
    DistinctCard(d);
    ImageCard(s);
  }

  lemma SetCardLe<T>(a: set<T>, b: set<T>)
    requires a <= b
    ensures |a| <= |b|
  {
    assert b == a + (b - a);
  }

  lemma {:induction false} DistinctCard<T>(d: seq<T>)
    requires NoDup(d)
    ensures |set i | 0 <= i < |d| :: d[i]| == |d|
  {
    if d != [] {
      var pre := d[..|d| - 1];
      DistinctCard(pre);
      assert (set i | 0 <= i < |d| :: d[i]) == (set i | 0 <= i < |pre| :: pre[i]) + {d[|d| - 1]};
      assert d[|d| - 1] !in (set i | 0 <= i < |pre| :: pre[i]);
    }
  }

  /** The set of the elements of a list has at most as many elements as the list. */
  lemma {:induction false} ImageCard<T>(s: seq<T>)
    ensures |set i | 0 <= i < |s| :: s[i]| <= |s|
  {
    if s != [] {
      var pre := s[..|s| - 1];
      ImageCard(pre);
      assert (set i | 0 <= i < |s| :: s[i]) == (set i | 0 <= i < |pre| :: pre[i]) + {s[|s| - 1]};
    }
  }

  lemma RepeatCounts<T>(t: seq<T>, i: int, j: int)
    requires 0 <= i < j < |t| && t[i] == t[j]
    ensures multiset(t)[t[i]] >= 2
  {
    assert t == t[..j] + t[j..];
    assert t[i] in t[..j];
    assert t[j] in t[j..];
  }

  /** A permutation of a sequence whose elements have distinct images under `f` again has distinct images. */
  lemma PermutationKeepsDistinctImages<T, U>(s: seq<T>, t: seq<T>, f: T -> U)
    requires multiset(s) == multiset(t)
    requires forall i, j :: 0 <= i < j < |s| ==> f(s[i]) != f(s[j])
    ensures forall i, j :: 0 <= i < j < |t| ==> f(t[i]) != f(t[j])
  {
    assert NoDup(s);
    NoDupCounts(s);
    forall i, j | 0 <= i < j < |t|
      ensures f(t[i]) != f(t[j])
    {
      if t[i] == t[j] {
        RepeatCounts(t, i, j);
        assert false;
      }
      assert t[i] in multiset(s) && t[j] in multiset(s);
      var a :| 0 <= a < |s| && s[a] == t[i];
      var b :| 0 <= b < |s| && s[b] == t[j];
      assert a != b;
    }
  }
}
