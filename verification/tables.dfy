/**
 * Tables: the generic vocabulary for a relational table kept as a sequence
 * of rows in insertion order. A key function picks a column out of a row;
 * `DistinctBy` is a primary-key or unique constraint, `Find` is a lookup by
 * that column, `Filter` is a WHERE clause and `SortBy` an ORDER BY.
 */
module Tables {

  datatype Option<T> = None | Some(value: T)

  /** No two rows agree on `key` (a primary key or a `unique=True` column). */
  ghost predicate DistinctBy<T, K>(s: seq<T>, key: T -> K)
  {
    forall i, j :: 0 <= i < j < |s| ==> key(s[i]) != key(s[j])
  }

  /** The values the column `key` takes in the table. */
  ghost function KeySet<T, K>(s: seq<T>, key: T -> K): set<K>
  {
    set x | x in s :: key(x)
  }

  /** The position of the first row whose `key` column equals `k`. */
  function Find<T, K(==)>(s: seq<T>, key: T -> K, k: K): (r: Option<nat>)
    ensures r.Some? ==> r.value < |s| && key(s[r.value]) == k
    ensures r.Some? ==> forall i :: 0 <= i < r.value ==> key(s[i]) != k
    ensures r.None? <==> k !in KeySet(s, key)
  {
    if s == [] then None
    else if key(s[0]) == k then Some(0)
    else
      match Find(s[1..], key, k)
      case None =>
        assert forall x :: x in s ==> x == s[0] || x in s[1..];
        None
      case Some(i) => Some(i + 1)
  }

  /** Under a unique constraint the lookup finds exactly the row that holds the key. */
  lemma FindUnique<T, K>(s: seq<T>, key: T -> K, i: nat)
    requires DistinctBy(s, key) && i < |s|
    ensures Find(s, key, key(s[i])) == Some(i)
  {
    assert s[i] in s;
  }

  /** The rows that satisfy `keep`, in their original order. */
  function Filter<T(!new)>(s: seq<T>, keep: T -> bool): (r: seq<T>)
    ensures |r| <= |s|
    ensures forall x {:trigger multiset(r)[x]} :: multiset(r)[x] == if keep(x) then multiset(s)[x] else 0
    ensures forall x :: x in r <==> x in s && keep(x)
  {
    if s == [] then []
    else
      assert s == [s[0]] + s[1..];
      (if keep(s[0]) then [s[0]] else []) + Filter(s[1..], keep)
  }

  lemma {:induction false} FilterAppend<T(!new)>(a: seq<T>, b: seq<T>, keep: T -> bool)
    ensures Filter(a + b, keep) == Filter(a, keep) + Filter(b, keep)
  {
    if a != [] {
      assert (a + b)[0] == a[0];
      assert (a + b)[1..] == a[1..] + b;
      FilterAppend(a[1..], b, keep);
      assert Filter(a + b, keep) == (if keep(a[0]) then [a[0]] else []) + Filter(a[1..] + b, keep);
    } else {
      assert a + b == b;
    }
  }

  /** Filtering keeps a unique constraint. */
  lemma {:induction false} FilterKeepsDistinct<T(!new), K>(s: seq<T>, keep: T -> bool, key: T -> K)
    requires DistinctBy(s, key)
    ensures DistinctBy(Filter(s, keep), key)
  {
    if s != [] {
      var tail := Filter(s[1..], keep);
      FilterKeepsDistinct(s[1..], keep, key);
      if keep(s[0]) {
        var r := [s[0]] + tail;
        assert Filter(s, keep) == r;
        forall i, j | 0 <= i < j < |r| ensures key(r[i]) != key(r[j]) {
          if i == 0 {
            assert r[j] == tail[j - 1];
            assert tail[j - 1] in s[1..];
            var k :| 0 <= k < |s[1..]| && s[1..][k] == tail[j - 1];
            assert s[k + 1] == r[j];
          } else {
            assert r[i] == tail[i - 1] && r[j] == tail[j - 1];
          }
        }
      }
    }
  }

  /** Rows in ascending order of `key` (duplicates allowed). */
  ghost predicate SortedBy<T>(s: seq<T>, key: T -> int)
  {
    forall i, j :: 0 <= i < j < |s| ==> key(s[i]) <= key(s[j])
  }

  /** In a sorted table the first row has the least key. */
  lemma HeadIsLeast<T>(s: seq<T>, key: T -> int)
    requires SortedBy(s, key) && s != []
    ensures forall y :: y in multiset(s) ==> key(s[0]) <= key(y)
  {
    forall y | y in multiset(s) ensures key(s[0]) <= key(y) {
      var k :| 0 <= k < |s| && s[k] == y;
    }
  }

  /** A row no greater than every row of a sorted table can go in front of it. */
  lemma PrependSorted<T>(h: T, t: seq<T>, key: T -> int)
    requires SortedBy(t, key)
    requires forall y :: y in multiset(t) ==> key(h) <= key(y)
    ensures SortedBy([h] + t, key)
  {
    var r := [h] + t;
    forall i, j | 0 <= i < j < |r| ensures key(r[i]) <= key(r[j]) {
      assert r[j] == t[j - 1];
      assert t[j - 1] in multiset(t);
      if i > 0 {
        assert r[i] == t[i - 1];
      }
    }
  }

  /** Inserts `x` before the first row whose key is not smaller, so equal keys keep their order. */
  function InsertBy<T>(x: T, s: seq<T>, key: T -> int): (r: seq<T>)
    requires SortedBy(s, key)
    ensures SortedBy(r, key)
    ensures multiset(r) == multiset(s) + multiset{x}
  {
    if s == [] then
      [x]
    else if key(x) <= key(s[0]) then
      HeadIsLeast(s, key);
      PrependSorted(x, s, key);
      [x] + s
    else
      assert s == [s[0]] + s[1..];
      var tail := InsertBy(x, s[1..], key);
      HeadIsLeast(s, key);
      PrependSorted(s[0], tail, key);
      [s[0]] + tail
  }

  /** A stable insertion sort on `key`: ORDER BY key, ties in table order. */
  function SortBy<T>(s: seq<T>, key: T -> int): (r: seq<T>)
    ensures SortedBy(r, key)
    ensures multiset(r) == multiset(s)
  {
    if s == [] then []
    else
      assert s == [s[0]] + s[1..];
      InsertBy(s[0], SortBy(s[1..], key), key)
  }
}
