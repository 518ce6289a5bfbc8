/** Ordering of query results. Every `order_by` and default `ordering` of the
    store sorts on at most a number and a name, so one key type covers them:
    `('-pub_date', 'name')` is rank = -pub_date, `('name',)` and
    `('username',)` use rank 0. */
module Sorting {
  import opened Text

  datatype SortKey = SortKey(rank: int, name: string)

  predicate KeyLe(a: SortKey, b: SortKey) {
    a.rank < b.rank || (a.rank == b.rank && StrLe(a.name, b.name))
  }

  lemma KeyLeTotal(a: SortKey, b: SortKey)
    ensures KeyLe(a, b) || KeyLe(b, a)
  {
    StrLeTotal(a.name, b.name);
  }

  lemma KeyLeTransitive(a: SortKey, b: SortKey, c: SortKey)
    requires KeyLe(a, b) && KeyLe(b, c)
    ensures KeyLe(a, c)
  {
    if a.rank == b.rank == c.rank {
      StrLeTransitive(a.name, b.name, c.name);
    }
  }

  ghost predicate SortedBy<T>(xs: seq<T>, key: T -> SortKey) {
    forall i, j :: 0 <= i < j < |xs| ==> KeyLe(key(xs[i]), key(xs[j]))
  }

  /** `x` inserted into a sorted sequence, before the first row it does not follow. */
  function Insert<T>(x: T, xs: seq<T>, key: T -> SortKey): (r: seq<T>)
    requires SortedBy(xs, key)
    ensures SortedBy(r, key)
    ensures multiset(r) == multiset(xs) + multiset{x}
    decreases |xs|
  {
    if |xs| == 0 then [x]
    else if KeyLe(key(x), key(xs[0])) then
      PrependBeforeHead(x, xs, key);
      [x] + xs
    else
      var rest := Insert(x, xs[1..], key);
      KeyLeTotal(key(x), key(xs[0]));
      PrependHeadBeforeRest(x, xs, rest, key);
      [xs[0]] + rest
  }

  /** A row no greater than the head of a sorted sequence may lead it. */
  lemma PrependBeforeHead<T>(x: T, xs: seq<T>, key: T -> SortKey)
    requires SortedBy(xs, key) && |xs| > 0
    requires KeyLe(key(x), key(xs[0]))
    ensures SortedBy([x] + xs, key)
    ensures multiset([x] + xs) == multiset(xs) + multiset{x}
  {
    var r := [x] + xs;
    forall i, j | 0 <= i < j < |r| ensures KeyLe(key(r[i]), key(r[j])) {
      if i == 0 {
        if j > 1 {
          KeyLeTransitive(key(x), key(xs[0]), key(xs[j - 1]));
        }
      } else {
        assert r[i] == xs[i - 1] && r[j] == xs[j - 1];
      }
    }
  }

  /** The head of a sorted sequence may lead any sorted rearrangement of its
      tail together with a row that follows the head. */
  lemma PrependHeadBeforeRest<T>(x: T, xs: seq<T>, rest: seq<T>, key: T -> SortKey)
    requires SortedBy(xs, key) && |xs| > 0
    requires KeyLe(key(xs[0]), key(x))
    requires SortedBy(rest, key)
    requires multiset(rest) == multiset(xs[1..]) + multiset{x}
    ensures SortedBy([xs[0]] + rest, key)
    ensures multiset([xs[0]] + rest) == multiset(xs) + multiset{x}
  {
    var r := [xs[0]] + rest;
    forall j | 0 <= j < |rest| ensures KeyLe(key(xs[0]), key(rest[j])) {
      assert rest[j] in multiset(rest);
      if rest[j] != x {
        assert rest[j] in multiset(xs[1..]);
        var k :| 0 <= k < |xs[1..]| && xs[1..][k] == rest[j];
        assert xs[k + 1] == rest[j];
      }
    }
    forall i, j | 0 <= i < j < |r| ensures KeyLe(key(r[i]), key(r[j])) {
      if i == 0 {
        assert r[j] == rest[j - 1];
      } else {
        assert r[i] == rest[i - 1] && r[j] == rest[j - 1];
      }
    }
    assert xs == [xs[0]] + xs[1..];
  }

  /** A reordering of `xs` sorted by `key` (insertion sort). */
  function Sort<T>(xs: seq<T>, key: T -> SortKey): (r: seq<T>)
    ensures SortedBy(r, key)
    ensures multiset(r) == multiset(xs)
    ensures |r| == |xs|
    decreases |xs|
  {
    if |xs| == 0 then []
    else
      assert xs == [xs[0]] + xs[1..];
      var r := Insert(xs[0], Sort(xs[1..], key), key);
      assert |r| == |multiset(r)|;
      r
  }

  /** Sorting neither adds nor drops rows. */
  lemma SortSameElements<T>(xs: seq<T>, key: T -> SortKey)
    ensures forall x :: x in Sort(xs, key) <==> x in xs
  {
    var r := Sort(xs, key);
    forall x ensures x in r <==> x in xs {
      assert x in r <==> x in multiset(r);
      assert x in xs <==> x in multiset(xs);
    }
  }
}
