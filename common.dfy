/**
 * Query primitives shared by the services: the nullable result of
 * `FirstOrDefault`/`FindAsync` (Option), the first row a predicate selects,
 * `Where` as an order-preserving filter, and counting by filter length.
 */
module Common {

  datatype Option<+T> = None | Some(value: T)

  /** `FirstOrDefault(p)`: the position of the first element satisfying `p`. */
  function FirstIndex<T>(s: seq<T>, p: T -> bool): (r: Option<nat>)
    ensures r.Some? ==> r.value < |s| && p(s[r.value])
    ensures r.Some? ==> forall j :: 0 <= j < r.value ==> !p(s[j])
    ensures r.None? <==> forall j :: 0 <= j < |s| ==> !p(s[j])
  {
    if |s| == 0 then None
    else if p(s[0]) then Some(0)
    else match FirstIndex(s[1..], p)
      case None => None
      case Some(k) => Some(k + 1)
  }

  /** `Where(p)`: the elements satisfying `p`, in their original order. */
  function Filter<T>(s: seq<T>, p: T -> bool): (r: seq<T>)
    ensures |r| <= |s|
    ensures forall i :: 0 <= i < |r| ==> r[i] in s && p(r[i])
    ensures forall i :: 0 <= i < |s| && p(s[i]) ==> s[i] in r
    ensures multiset(r) <= multiset(s)
  {
    if |s| == 0 then []
    else
      assert s == [s[0]] + s[1..];
      if p(s[0]) then [s[0]] + Filter(s[1..], p) else Filter(s[1..], p)
  }

  /** `Any(p)` */
  predicate AnyMatch<T>(s: seq<T>, p: T -> bool)
  {
    exists i :: 0 <= i < |s| && p(s[i])
  }

  /** The intersection of two selections. */
  function And<T>(p: T -> bool, q: T -> bool): T -> bool
  {
    x => p(x) && q(x)
  }

  /** Chained `Where` calls select exactly what one `Where` on the conjunction selects. */
  lemma {:induction false} FilterFilter<T>(s: seq<T>, p: T -> bool, q: T -> bool)
    ensures Filter(Filter(s, p), q) == Filter(s, And(p, q))
  {
    if |s| > 0 {
      FilterFilter(s[1..], p, q);
      if p(s[0]) {
        assert Filter(s, p) == [s[0]] + Filter(s[1..], p);
        assert (Filter(s, p))[1..] == Filter(s[1..], p);
      }
    }
  }

  /** A filter with a weaker predicate selects at least as many elements. */
  lemma {:induction false} FilterCountMonotone<T>(s: seq<T>, p: T -> bool, q: T -> bool)
    requires forall x :: p(x) ==> q(x)
    ensures |Filter(s, p)| <= |Filter(s, q)|
  {
    if |s| > 0 {
      FilterCountMonotone(s[1..], p, q);
    }
  }

  /** The elements satisfying `p` and those not satisfying it add up to the whole sequence. */
  lemma {:induction false} FilterPartition<T>(s: seq<T>, p: T -> bool, q: T -> bool)
    requires forall x :: q(x) <==> !p(x)
    ensures |Filter(s, p)| + |Filter(s, q)| == |s|
  {
    if |s| > 0 {
      FilterPartition(s[1..], p, q);
    }
  }

  /** Filtering keeps every element when the predicate holds throughout. */
  lemma {:induction false} FilterAll<T>(s: seq<T>, p: T -> bool)
    requires forall i :: 0 <= i < |s| ==> p(s[i])
    ensures Filter(s, p) == s
  {
    if |s| > 0 {
      FilterAll(s[1..], p);
    }
  }

  /** Filtering with extensionally equal predicates gives the same result. */
  lemma {:induction false} FilterCongruent<T>(s: seq<T>, p: T -> bool, q: T -> bool)
    requires forall x :: p(x) == q(x)
    ensures Filter(s, p) == Filter(s, q)
  {
    if |s| > 0 {
      FilterCongruent(s[1..], p, q);
    }
  }

  /** The union of two selections. */
  function Or<T>(p: T -> bool, q: T -> bool): T -> bool
  {
    x => p(x) || q(x)
  }

  /** Disjoint selections add up to the selection of their union. */
  lemma {:induction false} FilterDisjointSum<T>(s: seq<T>, p: T -> bool, q: T -> bool)
    requires forall x :: !(p(x) && q(x))
    ensures |Filter(s, p)| + |Filter(s, q)| == |Filter(s, Or(p, q))|
  {
    if |s| > 0 {
      FilterDisjointSum(s[1..], p, q);
    }
  }

  /** Every predicate of the list holds of `x`. */
  predicate AllHold<T>(ps: seq<T -> bool>, x: T)
  {
    forall i :: 0 <= i < |ps| ==> ps[i](x)
  }

  /** A chain of `Where` calls, applied in the order given. */
  function FilterEach<T>(s: seq<T>, ps: seq<T -> bool>): (r: seq<T>)
    ensures |r| <= |s|
    decreases |ps|
  {
    if |ps| == 0 then s else FilterEach(Filter(s, ps[0]), ps[1..])
  }

  /** A chain of `Where` calls selects what one `Where` on the conjunction of their predicates selects. */
  lemma {:induction false} FilterEachIsConjunction<T>(s: seq<T>, ps: seq<T -> bool>)
    ensures FilterEach(s, ps) == Filter(s, x => AllHold(ps, x))
    decreases |ps|
  {
    var all := x => AllHold(ps, x);
    if |ps| == 0 {
      FilterAll(s, all);
    } else {
      var head, rest := ps[0], x => AllHold(ps[1..], x);
      FilterEachIsConjunction(Filter(s, head), ps[1..]);
      FilterFilter(s, head, rest);
      forall x ensures And(head, rest)(x) == all(x) {
        AllHoldSplit(ps, x);
      }
      FilterCongruent(s, And(head, rest), all);
    }
  }

  lemma AllHoldSplit<T>(ps: seq<T -> bool>, x: T)
    requires |ps| > 0
    ensures AllHold(ps, x) == (ps[0](x) && AllHold(ps[1..], x))
  {
    if ps[0](x) && AllHold(ps[1..], x) {
      forall i | 0 <= i < |ps| ensures ps[i](x) {
        if i > 0 {
          assert ps[1..][i - 1] == ps[i];
        }
      }
    }
  }
}
