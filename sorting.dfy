/**
  The three pieces the record store's SELECT statements are built from,
  as functions on an in-memory table: ORDER BY a text column (ascending or
  descending), WHERE column IN (...), and LIMIT n.

  SQLite leaves the order of rows with equal sort keys unspecified; the
  model fixes one (insertion sort) and everything proved about it holds of
  any order that is sorted and a permutation of the table.
*/
module Sorting {
  import opened Collation

  datatype Direction = Ascending | Descending

  /** a may come before b under the given direction. */
  predicate InOrder(dir: Direction, a: string, b: string) {
    match dir
    case Ascending => Le(a, b)
    case Descending => Le(b, a)
  }

  lemma InOrderTotal(dir: Direction, a: string, b: string)
    ensures InOrder(dir, a, b) || InOrder(dir, b, a)
  {
    LeTotal(a, b);
  }

  lemma InOrderTransitive(dir: Direction, a: string, b: string, c: string)
    requires InOrder(dir, a, b) && InOrder(dir, b, c)
    ensures InOrder(dir, a, c)
  {
    match dir
    case Ascending => LeTransitive(a, b, c);
    case Descending => LeTransitive(c, b, a);
  }

  ghost predicate SortedBy<T>(s: seq<T>, key: T -> string, dir: Direction) {
    forall i, j :: 0 <= i < j < |s| ==> InOrder(dir, key(s[i]), key(s[j]))
  }

  /** Insert x into s in front of the first element it may precede. */
  function Insert<T>(x: T, s: seq<T>, key: T -> string, dir: Direction): (r: seq<T>)
    ensures multiset(r) == multiset(s) + multiset{x}
  {
    if s == [] then [x]
    else if InOrder(dir, key(x), key(s[0])) then [x] + s
    else
      assert s == [s[0]] + s[1..];
      [s[0]] + Insert(x, s[1..], key, dir)
  }

  lemma {:induction false} InsertSorted<T>(x: T, s: seq<T>, key: T -> string, dir: Direction)
    requires SortedBy(s, key, dir)
    ensures SortedBy(Insert(x, s, key, dir), key, dir)
  {
    if s == [] {
    } else if InOrder(dir, key(x), key(s[0])) {
      forall j | 0 < j < |s| ensures InOrder(dir, key(x), key(s[j])) {
        InOrderTransitive(dir, key(x), key(s[0]), key(s[j]));
      }
    } else {
      var rest := Insert(x, s[1..], key, dir);
      InsertSorted(x, s[1..], key, dir);
      InOrderTotal(dir, key(x), key(s[0]));
      forall j | 0 <= j < |rest| ensures InOrder(dir, key(s[0]), key(rest[j])) {
        var y := rest[j];
        assert y in multiset(rest);
        if y != x {
          assert y in multiset(s[1..]);
          var m :| 0 <= m < |s[1..]| && s[1..][m] == y;
          assert s[m + 1] == y;
        }
      }
    }
  }

  /** ORDER BY key, in the given direction. */
  function SortBy<T>(s: seq<T>, key: T -> string, dir: Direction): (r: seq<T>)
    ensures multiset(r) == multiset(s)
    ensures |r| == |s|
  {
    if s == [] then []
    else
      assert s == [s[0]] + s[1..];
      var r := Insert(s[0], SortBy(s[1..], key, dir), key, dir);
      assert |r| == |multiset(r)|;
      r
  }

  lemma {:induction false} SortBySorted<T>(s: seq<T>, key: T -> string, dir: Direction)
    ensures SortedBy(SortBy(s, key, dir), key, dir)
  {
    if s != [] {
      SortBySorted(s[1..], key, dir);
      InsertSorted(s[0], SortBy(s[1..], key, dir), key, dir);
    }
  }

  /** WHERE keep(row): the rows that pass, in their original order. Each
      row that passes keeps its multiplicity; the others are gone. */
  function KeepIf<T(!new)>(s: seq<T>, keep: T -> bool): (r: seq<T>)
    ensures forall x :: multiset(r)[x] == if keep(x) then multiset(s)[x] else 0
  {
    if s == [] then []
    else
      assert s == [s[0]] + s[1..];
      (if keep(s[0]) then [s[0]] else []) + KeepIf(s[1..], keep)
  }

  /** LIMIT n. */
  function Take<T>(s: seq<T>, n: nat): (r: seq<T>)
    ensures |r| == if |s| < n then |s| else n
    ensures multiset(r) <= multiset(s)
  {
    if |s| <= n then s
    else
      assert s == s[..n] + s[n..];
      s[..n]
  }

  /** The first n rows of a sorted table are the top n: every row that was
      cut off sorts at or after every row that was kept. */
  lemma TakeOfSortedIsTop<T>(s: seq<T>, n: nat, key: T -> string, dir: Direction)
    requires SortedBy(s, key, dir)
    ensures forall x, y :: x in multiset(s) - multiset(Take(s, n)) && y in Take(s, n) ==>
              InOrder(dir, key(y), key(x))
  {
    if |s| > n {
      var head, tail := s[..n], s[n..];
      assert Take(s, n) == head;
      CutOffIsTail(s, n);
      forall x, y | x in multiset(tail) && y in head ensures InOrder(dir, key(y), key(x)) {
        var j :| 0 <= j < |tail| && tail[j] == x;
        var i :| 0 <= i < |head| && head[i] == y;
        assert s[i] == y && s[n + j] == x;
      }
    }
  }

  /** The first n rows of a sorted table are still sorted. */
  lemma TakeOfSortedIsSorted<T>(s: seq<T>, n: nat, key: T -> string, dir: Direction)
    requires SortedBy(s, key, dir)
    ensures SortedBy(Take(s, n), key, dir)
  {
    var r := Take(s, n);
    if |s| > n {
      assert r == s[..n];
      forall i, j | 0 <= i < j < |r| ensures InOrder(dir, key(r[i]), key(r[j])) {
        assert r[i] == s[i] && r[j] == s[j];
      }
    }
  }

  /** What LIMIT n cuts off is the rest of the table after the first n. */
  lemma CutOffIsTail<T>(s: seq<T>, n: nat)
    requires n <= |s|
    ensures multiset(s) - multiset(s[..n]) == multiset(s[n..])
  {
    assert s == s[..n] + s[n..];
  }
}
