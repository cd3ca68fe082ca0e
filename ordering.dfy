/**
 * `OrderBy` / `OrderByDescending` over a key. Every key the services sort by
 * (a title, an enum value, a nullable date, a timestamp, a name) is encoded as
 * a sequence of integers compared lexicographically, so one sort serves all.
 */
module Ordering {

  /** Lexicographic order on integer sequences; a proper prefix comes first. */
  predicate LexLe(a: seq<int>, b: seq<int>)
  {
    |a| == 0 || (|b| > 0 && (a[0] < b[0] || (a[0] == b[0] && LexLe(a[1..], b[1..]))))
  }

  lemma {:induction false} LexLeTotal(a: seq<int>, b: seq<int>)
    ensures LexLe(a, b) || LexLe(b, a)
  {
    if |a| > 0 && |b| > 0 && a[0] == b[0] {
      LexLeTotal(a[1..], b[1..]);
    }
  }

  lemma {:induction false} LexLeTransitive(a: seq<int>, b: seq<int>, c: seq<int>)
    requires LexLe(a, b) && LexLe(b, c)
    ensures LexLe(a, c)
  {
    if |a| > 0 && a[0] == b[0] && b[0] == c[0] {
      LexLeTransitive(a[1..], b[1..], c[1..]);
    }
  }

  lemma {:induction false} LexLeAntisymmetric(a: seq<int>, b: seq<int>)
    requires LexLe(a, b) && LexLe(b, a)
    ensures a == b
  {
    if |a| > 0 {
      LexLeAntisymmetric(a[1..], b[1..]);
      assert a == [a[0]] + a[1..] && b == [b[0]] + b[1..];
    }
  }

  /** `x` may precede `y` in the requested direction. */
  predicate InOrder<T>(key: T -> seq<int>, descending: bool, x: T, y: T)
  {
    if descending then LexLe(key(y), key(x)) else LexLe(key(x), key(y))
  }

  predicate Sorted<T>(key: T -> seq<int>, descending: bool, s: seq<T>)
  {
    forall i, j :: 0 <= i < j < |s| ==> InOrder(key, descending, s[i], s[j])
  }

  function Insert<T>(key: T -> seq<int>, descending: bool, x: T, s: seq<T>): (r: seq<T>)
    ensures multiset(r) == multiset(s) + multiset{x}
    ensures |r| == |s| + 1
  {
    if |s| == 0 then [x]
    else if InOrder(key, descending, x, s[0]) then [x] + s
    else
      assert s == [s[0]] + s[1..];
      [s[0]] + Insert(key, descending, x, s[1..])
  }

  /** The sorted arrangement the query returns (stable: equal keys keep their order). */
  function SortBy<T>(key: T -> seq<int>, descending: bool, s: seq<T>): (r: seq<T>)
    ensures multiset(r) == multiset(s)
    ensures |r| == |s|
  {
    if |s| == 0 then []
    else
      assert s == [s[0]] + s[1..];
      Insert(key, descending, s[0], SortBy(key, descending, s[1..]))
  }

  lemma InOrderTotal<T>(key: T -> seq<int>, descending: bool, x: T, y: T)
    ensures InOrder(key, descending, x, y) || InOrder(key, descending, y, x)
  {
    LexLeTotal(key(x), key(y));
  }

  lemma InOrderTransitive<T>(key: T -> seq<int>, descending: bool, x: T, y: T, z: T)
    requires InOrder(key, descending, x, y) && InOrder(key, descending, y, z)
    ensures InOrder(key, descending, x, z)
  {
    if descending {
      LexLeTransitive(key(z), key(y), key(x));
    } else {
      LexLeTransitive(key(x), key(y), key(z));
    }
  }

  lemma {:induction false} InsertSorted<T>(key: T -> seq<int>, descending: bool, x: T, s: seq<T>)
    requires Sorted(key, descending, s)
    ensures Sorted(key, descending, Insert(key, descending, x, s))
  {
    var r := Insert(key, descending, x, s);
    if |s| == 0 {
    } else if InOrder(key, descending, x, s[0]) {
      forall i, j | 0 <= i < j < |r| ensures InOrder(key, descending, r[i], r[j]) {
        if i == 0 && j > 1 {
          InOrderTransitive(key, descending, x, s[0], s[j - 1]);
        }
      }
    } else {
      var tail := Insert(key, descending, x, s[1..]);
      InsertSorted(key, descending, x, s[1..]);
      InOrderTotal(key, descending, x, s[0]);
      forall k | 0 <= k < |tail| ensures InOrder(key, descending, s[0], tail[k]) {
        assert tail[k] in multiset(tail);
        assert tail[k] == x || tail[k] in multiset(s[1..]);
        if tail[k] != x {
          var m :| 0 <= m < |s[1..]| && s[1..][m] == tail[k];
          assert s[m + 1] == tail[k];
        }
      }
      assert r == [s[0]] + tail;
    }
  }

  lemma {:induction false} SortBySorted<T>(key: T -> seq<int>, descending: bool, s: seq<T>)
    ensures Sorted(key, descending, SortBy(key, descending, s))
  {
    if |s| > 0 {
      SortBySorted(key, descending, s[1..]);
      InsertSorted(key, descending, s[0], SortBy(key, descending, s[1..]));
    }
  }

  /** A string compared ordinally, character code by character code. */
  function StringKey(s: string): (k: seq<int>)
    ensures |k| == |s| && forall i :: 0 <= i < |s| ==> k[i] == s[i] as int
  {
    seq(|s|, i requires 0 <= i < |s| => s[i] as int)
  }

  /** A contiguous slice of a sorted sequence is sorted. */
  lemma SortedSlice<T>(key: T -> seq<int>, descending: bool, s: seq<T>, lo: nat, hi: nat)
    requires Sorted(key, descending, s) && lo <= hi <= |s|
    ensures Sorted(key, descending, s[lo..hi])
  {
    forall i, j | 0 <= i < j < hi - lo ensures InOrder(key, descending, s[lo..hi][i], s[lo..hi][j]) {
      assert s[lo..hi][i] == s[lo + i] && s[lo..hi][j] == s[lo + j];
    }
  }
}
