/** The order an SQL `ORDER BY` gives a result: sorted by a total preorder
    on the rows. Rows that compare equal keep their input order, which is
    one of the orders the database may return. */
module Sorting {

  /** `le(a, b)`: `a` may come before `b`. Every two rows are comparable and
      the relation is transitive. */
  ghost predicate TotalPreorder<T(!new)>(le: (T, T) -> bool)
  {
    (forall a, b :: le(a, b) || le(b, a)) &&
    (forall a, b, c :: le(a, b) && le(b, c) ==> le(a, c))
  }

  predicate SortedBy<T>(xs: seq<T>, le: (T, T) -> bool)
  {
    forall i, j :: 0 <= i < j < |xs| ==> le(xs[i], xs[j])
  }

  /** Insert `x` before the first row it may precede. */
  function Insert<T>(x: T, xs: seq<T>, le: (T, T) -> bool): (r: seq<T>)
    ensures |r| == |xs| + 1
  {
    if xs == [] then [x]
    else if le(x, xs[0]) then [x] + xs
    else [xs[0]] + Insert(x, xs[1..], le)
  }

  /** Insertion sort. */
  function SortBy<T>(xs: seq<T>, le: (T, T) -> bool): (r: seq<T>)
    ensures |r| == |xs|
  {
    if xs == [] then [] else Insert(xs[0], SortBy(xs[1..], le), le)
  }

  lemma {:induction false} InsertPermutes<T>(x: T, xs: seq<T>, le: (T, T) -> bool)
    ensures multiset(Insert(x, xs, le)) == multiset(xs) + multiset{x}
  {
    if xs != [] && !le(x, xs[0]) {
      var rest := Insert(x, xs[1..], le);
      InsertPermutes(x, xs[1..], le);
      assert Insert(x, xs, le) == [xs[0]] + rest;
      assert xs == [xs[0]] + xs[1..];
      calc {
        multiset(Insert(x, xs, le));
        multiset([xs[0]]) + multiset(rest);
        multiset([xs[0]]) + multiset(xs[1..]) + multiset{x};
        multiset(xs) + multiset{x};
      }
    }
  }

  lemma {:induction false} InsertSorted<T(!new)>(x: T, xs: seq<T>, le: (T, T) -> bool)
    requires TotalPreorder(le) && SortedBy(xs, le)
    ensures SortedBy(Insert(x, xs, le), le)
  {
    if xs != [] && !le(x, xs[0]) {
      var rest := Insert(x, xs[1..], le);
      InsertSorted(x, xs[1..], le);
      InsertPermutes(x, xs[1..], le);
      assert le(xs[0], x);
      forall j | 0 <= j < |rest|
        ensures le(xs[0], rest[j])
      {
        assert rest[j] in multiset(rest);
        assert rest[j] in multiset(xs[1..]) + multiset{x};
        if rest[j] != x {
          assert rest[j] in xs[1..];
          var k :| 0 <= k < |xs[1..]| && xs[1..][k] == rest[j];
          assert xs[k + 1] == rest[j];
        }
      }
      assert Insert(x, xs, le) == [xs[0]] + rest;
    } else if xs != [] {
      forall j | 1 <= j < |xs| + 1
        ensures le(x, ([x] + xs)[j])
      {
        assert ([x] + xs)[j] == xs[j - 1];
      }
    }
  }

  /** The sorted rows are the input rows, each as often. */
  lemma {:induction false} SortPermutes<T>(xs: seq<T>, le: (T, T) -> bool)
    ensures multiset(SortBy(xs, le)) == multiset(xs)
  {
    if xs != [] {
      SortPermutes(xs[1..], le);
      InsertPermutes(xs[0], SortBy(xs[1..], le), le);
      assert xs == [xs[0]] + xs[1..];
    }
  }

  /** The rows come out in order. */
  lemma {:induction false} SortSorted<T(!new)>(xs: seq<T>, le: (T, T) -> bool)
    requires TotalPreorder(le)
    ensures SortedBy(SortBy(xs, le), le)
  {
    if xs != [] {
      SortSorted(xs[1..], le);
      InsertSorted(xs[0], SortBy(xs[1..], le), le);
    }
  }

  /** `LIMIT limit OFFSET offset` on a result. */
  function Window<T>(xs: seq<T>, offset: nat, limit: nat): (r: seq<T>)
    ensures |r| <= limit
    ensures offset <= |xs| ==> r == xs[offset..if offset + limit <= |xs| then offset + limit else |xs|]
    ensures offset > |xs| ==> r == []
  {
    if offset >= |xs| then []
    else xs[offset..if offset + limit <= |xs| then offset + limit else |xs|]
  }

  /** A window of a sorted result is sorted and holds only rows of it. */
  lemma WindowSorted<T>(xs: seq<T>, offset: nat, limit: nat, le: (T, T) -> bool)
    requires SortedBy(xs, le)
    ensures SortedBy(Window(xs, offset, limit), le)
    ensures forall x :: x in Window(xs, offset, limit) ==> x in xs
  {
    var w := Window(xs, offset, limit);
    if offset < |xs| {
      forall i, j | 0 <= i < j < |w|
        ensures le(w[i], w[j])
      {
        assert w[i] == xs[offset + i] && w[j] == xs[offset + j];
      }
      forall x | x in w
        ensures x in xs
      {
        var k :| 0 <= k < |w| && w[k] == x;
        assert xs[offset + k] == x;
      }
    }
  }
}
