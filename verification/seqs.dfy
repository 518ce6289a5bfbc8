/** Sequence helpers used for database tables modelled as sequences of rows:
    filtering (what a queryset `filter` or a cascading `delete` does) and
    uniqueness of a key over the rows (what a UniqueConstraint promises). */
module Seqs {

  /** The rows of `xs` that satisfy `p`, in their original order. */
  function Filter<T(!new)>(xs: seq<T>, p: T -> bool): (r: seq<T>)
    ensures |r| <= |xs|
    ensures forall x :: x in r <==> x in xs && p(x)
    decreases |xs|
  {
    if |xs| == 0 then []
    else if p(xs[0]) then [xs[0]] + Filter(xs[1..], p)
    else Filter(xs[1..], p)
  }

  /** The elements of a sequence, as a set. */
  function Elements<T(!new)>(xs: seq<T>): (r: set<T>)
    ensures forall x :: x in r <==> x in xs
  {
    set x | x in xs
  }

  /** No two rows of `xs` share a key. */
  ghost predicate InjectiveOn<T, K>(xs: seq<T>, key: T -> K) {
    forall i, j :: 0 <= i < j < |xs| ==> key(xs[i]) != key(xs[j])
  }

  /** No row of `xs` occurs twice. */
  ghost predicate Distinct<T>(xs: seq<T>) {
    forall i, j :: 0 <= i < j < |xs| ==> xs[i] != xs[j]
  }

  /** The keys of the rows of `xs`. */
  ghost function KeySet<T, K>(xs: seq<T>, key: T -> K): set<K> {
    set x | x in xs :: key(x)
  }

  lemma {:induction false} FilterIdempotent<T(!new)>(xs: seq<T>, p: T -> bool)
    ensures Filter(Filter(xs, p), p) == Filter(xs, p)
    decreases |xs|
  {
    if |xs| > 0 {
      FilterIdempotent(xs[1..], p);
    }
  }

  /** Filtering an appended row filters the two parts separately. */
  lemma {:induction false} FilterAppend<T(!new)>(xs: seq<T>, x: T, p: T -> bool)
    ensures Filter(xs + [x], p) == Filter(xs, p) + (if p(x) then [x] else [])
    decreases |xs|
  {
    if |xs| > 0 {
      assert (xs + [x])[1..] == xs[1..] + [x];
      FilterAppend(xs[1..], x, p);
    }
  }

  /** How many times `x` occurs in `xs`. */
  function Occurrences<T(==)>(xs: seq<T>, x: T): (n: nat)
    ensures n <= |xs|
    ensures n > 0 <==> x in xs
    decreases |xs|
  {
    if |xs| == 0 then 0
    else (if xs[0] == x then 1 else 0) + Occurrences(xs[1..], x)
  }

  /** In a sequence without repetitions every element occurs exactly once. */
  lemma {:induction false} DistinctOccurrences<T>(xs: seq<T>, x: T)
    requires Distinct(xs)
    ensures Occurrences(xs, x) == if x in xs then 1 else 0
    decreases |xs|
  {
    if |xs| > 0 {
      var tail := xs[1..];
      assert Distinct(tail) by {
        forall i, j | 0 <= i < j < |tail| ensures tail[i] != tail[j] {
          assert tail[i] == xs[i + 1] && tail[j] == xs[j + 1];
        }
      }
      DistinctOccurrences(tail, x);
      if xs[0] == x {
        assert x !in tail by {
          forall k | 0 <= k < |tail| ensures tail[k] != x {
            assert tail[k] == xs[k + 1];
          }
        }
      }
    }
  }

  /** `n` copies of `x`. */
  function Repeat<T>(x: T, n: nat): (r: seq<T>)
    ensures |r| == n
    ensures forall i :: 0 <= i < n ==> r[i] == x
  {
    seq(n, i => x)
  }

  /** Filtering a concatenation filters the two parts separately. */
  lemma {:induction false} FilterConcat<T(!new)>(xs: seq<T>, ys: seq<T>, p: T -> bool)
    ensures Filter(xs + ys, p) == Filter(xs, p) + Filter(ys, p)
    decreases |xs|
  {
    if |xs| > 0 {
      assert (xs + ys)[1..] == xs[1..] + ys;
      FilterConcat(xs[1..], ys, p);
    } else {
      assert xs + ys == ys;
    }
  }

  /** Filtering with a predicate no row satisfies leaves nothing. */
  lemma FilterNone<T(!new)>(xs: seq<T>, p: T -> bool)
    requires forall x :: x in xs ==> !p(x)
    ensures Filter(xs, p) == []
  {
    var r := Filter(xs, p);
    assert forall i :: 0 <= i < |r| ==> r[i] in r;
  }

  /** Filtering with a predicate every row satisfies changes nothing. */
  lemma {:induction false} FilterAll<T(!new)>(xs: seq<T>, p: T -> bool)
    requires forall x :: x in xs ==> p(x)
    ensures Filter(xs, p) == xs
    decreases |xs|
  {
    if |xs| > 0 {
      FilterAll(xs[1..], p);
      assert xs == [xs[0]] + xs[1..];
    }
  }

  /** Filtering never creates two rows with the same key. */
  lemma {:induction false} FilterKeepsInjective<T(!new), K>(xs: seq<T>, p: T -> bool, key: T -> K)
    requires InjectiveOn(xs, key)
    ensures InjectiveOn(Filter(xs, p), key)
    decreases |xs|
  {
    if |xs| > 0 {
      var tail := xs[1..];
      assert InjectiveOn(tail, key) by {
        forall i, j | 0 <= i < j < |tail| ensures key(tail[i]) != key(tail[j]) {
          assert tail[i] == xs[i + 1] && tail[j] == xs[j + 1];
        }
      }
      FilterKeepsInjective(tail, p, key);
      var ft := Filter(tail, p);
      if p(xs[0]) {
        var r := [xs[0]] + ft;
        assert r == Filter(xs, p);
        forall i, j | 0 <= i < j < |r| ensures key(r[i]) != key(r[j]) {
          if i == 0 {
            assert r[j] in tail;
            var k :| 0 <= k < |tail| && tail[k] == r[j];
            assert xs[k + 1] == r[j];
          } else {
            assert r[i] == ft[i - 1] && r[j] == ft[j - 1];
          }
        }
      }
    }
  }

  /** Filtering never duplicates a row. */
  lemma FilterKeepsDistinct<T(!new)>(xs: seq<T>, p: T -> bool)
    requires Distinct(xs)
    ensures Distinct(Filter(xs, p))
  {
    var id := (x: T) => x;
    assert InjectiveOn(xs, id);
    FilterKeepsInjective(xs, p, id);
    var r := Filter(xs, p);
    assert forall i, j :: 0 <= i < j < |r| ==> id(r[i]) != id(r[j]);
  }

  /** A distinct sequence has as many elements as its set of elements. */
  lemma {:induction false} DistinctCardinality<T(!new)>(xs: seq<T>)
    requires Distinct(xs)
    ensures |Elements(xs)| == |xs|
    decreases |xs|
  {
    if |xs| > 0 {
      var tail := xs[1..];
      assert Distinct(tail) by {
        forall i, j | 0 <= i < j < |tail| ensures tail[i] != tail[j] {
          assert tail[i] == xs[i + 1] && tail[j] == xs[j + 1];
        }
      }
      DistinctCardinality(tail);
      assert xs[0] !in tail by {
        forall k | 0 <= k < |tail| ensures tail[k] != xs[0] {
          assert tail[k] == xs[k + 1];
        }
      }
      assert Elements(xs) == {xs[0]} + Elements(tail) by {
        assert xs == [xs[0]] + tail;
      }
    }
  }

  /** Injectivity of a key is exactly "as many keys as rows". */
  lemma {:induction false} InjectiveIffKeyCount<T, K>(xs: seq<T>, key: T -> K)
    ensures |KeySet(xs, key)| <= |xs|
    ensures InjectiveOn(xs, key) <==> |KeySet(xs, key)| == |xs|
    decreases |xs|
  {
    if |xs| == 0 {
      assert KeySet(xs, key) == {};
    } else {
      var tail := xs[1..];
      InjectiveIffKeyCount(tail, key);
      assert xs == [xs[0]] + tail;
      assert KeySet(xs, key) == {key(xs[0])} + KeySet(tail, key);
      var tailInj := InjectiveOn(tail, key);
      assert tailInj <== InjectiveOn(xs, key) by {
        if InjectiveOn(xs, key) {
          forall i, j | 0 <= i < j < |tail| ensures key(tail[i]) != key(tail[j]) {
            assert tail[i] == xs[i + 1] && tail[j] == xs[j + 1];
          }
        }
      }
      if key(xs[0]) in KeySet(tail, key) {
        var y :| y in tail && key(y) == key(xs[0]);
        var k :| 0 <= k < |tail| && tail[k] == y;
        assert xs[k + 1] == y;
        assert !InjectiveOn(xs, key);
      } else {
        assert InjectiveOn(xs, key) <== tailInj by {
          if tailInj {
            forall i, j | 0 <= i < j < |xs| ensures key(xs[i]) != key(xs[j]) {
              if i == 0 {
                assert xs[j] == tail[j - 1];
                assert key(xs[j]) in KeySet(tail, key);
              } else {
                assert xs[i] == tail[i - 1] && xs[j] == tail[j - 1];
              }
            }
          }
        }
      }
    }
  }

  /** Reordering rows (a sort) keeps a key unique. */
  lemma PermutationKeepsInjective<T, K>(xs: seq<T>, ys: seq<T>, key: T -> K)
    requires multiset(xs) == multiset(ys)
    requires InjectiveOn(xs, key)
    ensures InjectiveOn(ys, key)
  {
    assert |xs| == |multiset(xs)| == |multiset(ys)| == |ys|;
    assert KeySet(xs, key) == KeySet(ys, key) by {
      forall x ensures x in xs <==> x in ys {
        assert x in xs <==> x in multiset(xs);
        assert x in ys <==> x in multiset(ys);
      }
    }
    InjectiveIffKeyCount(xs, key);
    InjectiveIffKeyCount(ys, key);
  }

  /** Rows with pairwise distinct keys are as many as the keys they cover. */
  lemma CountByKeys<T, K>(xs: seq<T>, key: T -> K, keys: set<K>)
    requires InjectiveOn(xs, key)
    requires forall x :: x in xs ==> key(x) in keys
    requires forall k :: k in keys ==> exists x :: x in xs && key(x) == k
    ensures |xs| == |keys|
  {
    InjectiveIffKeyCount(xs, key);
    assert KeySet(xs, key) == keys;
  }
}
