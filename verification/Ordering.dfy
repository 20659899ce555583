/** Lexicographic order on identifiers and sorting by identifier. Comparing code points orders
    UTF-8 text exactly as comparing its bytes does. */
module Ordering {

  predicate Less(a: string, b: string) {
    |b| > 0 && (|a| == 0 || a[0] < b[0] || (a[0] == b[0] && Less(a[1..], b[1..])))
  }

  lemma Irreflexive(a: string)
    ensures !Less(a, a)
  {
  }

  lemma Total(a: string, b: string)
    ensures a == b || Less(a, b) || Less(b, a)
  {
    if |a| > 0 && |b| > 0 && a[0] == b[0] {
      Total(a[1..], b[1..]);
      assert a == [a[0]] + a[1..] && b == [b[0]] + b[1..];
    }
  }

  lemma Transitive(a: string, b: string, c: string)
    requires Less(a, b) && Less(b, c)
    ensures Less(a, c)
  {
  }

  lemma Asymmetric(a: string, b: string)
    requires Less(a, b)
    ensures !Less(b, a)
  {
    if Less(b, a) {
      Transitive(a, b, a);
      Irreflexive(a);
    }
  }

  /** Strictly increasing keys: sorted and without duplicates. */
  ghost predicate Increasing<T>(xs: seq<T>, key: T -> string) {
    forall i, j {:trigger Less(key(xs[i]), key(xs[j]))} :: 0 <= i < j < |xs| ==> Less(key(xs[i]), key(xs[j]))
  }

  lemma InOrder<T>(xs: seq<T>, key: T -> string, i: nat, j: nat)
    requires Increasing(xs, key) && i < j < |xs|
    ensures Less(key(xs[i]), key(xs[j]))
  {
  }

  ghost predicate DistinctKeys<T>(xs: seq<T>, key: T -> string) {
    forall i, j :: 0 <= i < j < |xs| ==> key(xs[i]) != key(xs[j])
  }

  function Insert<T>(x: T, xs: seq<T>, key: T -> string): (r: seq<T>)
    ensures multiset(r) == multiset{x} + multiset(xs)
  {
    if |xs| == 0 then [x]
    else if Less(key(xs[0]), key(x)) then
      assert xs == [xs[0]] + xs[1..];
      [xs[0]] + Insert(x, xs[1..], key)
    else [x] + xs
  }

  function Sort<T>(xs: seq<T>, key: T -> string): (r: seq<T>)
    ensures multiset(r) == multiset(xs)
  {
    if |xs| == 0 then []
    else
      assert xs == [xs[0]] + xs[1..];
      Insert(xs[0], Sort(xs[1..], key), key)
  }

  lemma InMultiset<T>(xs: seq<T>, x: T)
    ensures x in xs <==> x in multiset(xs)
  {
  }

  lemma {:induction false} InsertIncreasing<T>(x: T, xs: seq<T>, key: T -> string)
    requires Increasing(xs, key) && forall y :: y in xs ==> key(y) != key(x)
    ensures Increasing(Insert(x, xs, key), key)
  {
    var r := Insert(x, xs, key);
    if |xs| == 0 {
    } else if Less(key(xs[0]), key(x)) {
      var tail := Insert(x, xs[1..], key);
      InsertIncreasing(x, xs[1..], key);
      forall j | 0 <= j < |tail| ensures Less(key(xs[0]), key(tail[j])) {
        assert tail[j] in multiset(tail);
        assert tail[j] == x || tail[j] in xs[1..];
      }
    } else {
      Total(key(x), key(xs[0]));
      forall j | 0 <= j < |xs| ensures Less(key(x), key(xs[j])) {
        if j > 0 {
          Transitive(key(x), key(xs[0]), key(xs[j]));
        }
      }
    }
  }

  lemma {:induction false} SortIncreasing<T>(xs: seq<T>, key: T -> string)
    requires DistinctKeys(xs, key)
    ensures Increasing(Sort(xs, key), key)
  {
    if |xs| > 0 {
      var tail := xs[1..];
      SortIncreasing(tail, key);
      forall y | y in Sort(tail, key) ensures key(y) != key(xs[0]) {
        InMultiset(Sort(tail, key), y);
        InMultiset(tail, y);
        var j :| 0 <= j < |tail| && tail[j] == y;
        assert xs[j + 1] == y;
      }
      InsertIncreasing(xs[0], Sort(tail, key), key);
    }
  }

  /** Sorting by distinct keys: increasing, and the same elements. */
  lemma Sorted<T>(xs: seq<T>, key: T -> string)
    requires DistinctKeys(xs, key)
    ensures Increasing(Sort(xs, key), key)
    ensures forall x :: x in Sort(xs, key) <==> x in xs
  {
    SortIncreasing(xs, key);
    forall x ensures x in Sort(xs, key) <==> x in xs {
      InMultiset(Sort(xs, key), x);
      InMultiset(xs, x);
    }
  }

  /** Two strictly increasing sequences with the same elements are equal. */
  lemma {:induction false} IncreasingUnique<T>(xs: seq<T>, ys: seq<T>, key: T -> string)
    requires Increasing(xs, key) && Increasing(ys, key)
    requires forall x :: x in xs <==> x in ys
    ensures xs == ys
  {
    if |xs| > 0 { assert xs[0] in xs; }
    if |ys| > 0 { assert ys[0] in ys; }
    if |xs| > 0 && |ys| > 0 {
      var i :| 0 <= i < |ys| && ys[i] == xs[0];
      var j :| 0 <= j < |xs| && xs[j] == ys[0];
      if i > 0 && j > 0 {
        Transitive(key(xs[0]), key(ys[0]), key(xs[0]));
        Irreflexive(key(xs[0]));
      }
      assert xs[0] == ys[0];
      forall x ensures x in xs[1..] <==> x in ys[1..] {
        Irreflexive(key(xs[0]));
        assert x in xs[1..] <==> x in xs && x != xs[0];
        assert x in ys[1..] <==> x in ys && x != ys[0];
      }
      IncreasingUnique(xs[1..], ys[1..], key);
      assert xs == [xs[0]] + xs[1..] && ys == [ys[0]] + ys[1..];
    }
  }
}
