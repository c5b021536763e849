/**
 * Small building blocks shared by every component model: an optional value
 * (JavaScript's `undefined`/`null` next to a value), order-preserving filters
 * and counts (`Array.prototype.filter(...).length`), and prefixes
 * (`Array.prototype.slice(0, n)`).
 */
module Common {

  datatype Option<+T> = None | Some(value: T) {
    /** `x ?? d` */
    function GetOr(default: T): T {
      match this
      case Some(v) => v
      case None => default
    }
  }

  /** A nullable id, such as a selected hospital, is truthy: present and not `""`. */
  predicate Chosen(sel: Option<string>) {
    sel.Some? && sel.value != ""
  }

  /** 1 when `b` holds, else 0. */
  function Indicator(b: bool): nat {
    if b then 1 else 0
  }

  /** The elements of `s` that satisfy `p`, in their original order. */
  function Filter<T(!new)>(s: seq<T>, p: T -> bool): (r: seq<T>)
    ensures |r| <= |s|
    ensures forall x :: x in r <==> x in s && p(x)
    ensures forall i :: 0 <= i < |r| ==> p(r[i])
    decreases |s|
  {
    if |s| == 0 then []
    else
      assert s == s[..|s| - 1] + [s[|s| - 1]];
      Filter(s[..|s| - 1], p) + (if p(s[|s| - 1]) then [s[|s| - 1]] else [])
  }

  /** `s.slice(0, n)` */
  function Take<T>(s: seq<T>, n: nat): (r: seq<T>)
    ensures |r| == if |s| < n then |s| else n
    ensures forall i :: 0 <= i < |r| ==> r[i] == s[i]
  {
    if |s| <= n then s else s[..n]
  }

  lemma {:induction false} FilterAppend<T(!new)>(a: seq<T>, b: seq<T>, p: T -> bool)
    ensures Filter(a + b, p) == Filter(a, p) + Filter(b, p)
    decreases |b|
  {
    if |b| == 0 {
      assert a + b == a;
    } else {
      var b' := b[..|b| - 1];
      assert (a + b)[..|a + b| - 1] == a + b';
      assert (a + b)[|a + b| - 1] == b[|b| - 1];
      FilterAppend(a, b', p);
    }
  }

  /** Filtering with a predicate that holds nowhere on `s` keeps nothing. */
  lemma {:induction false} FilterKeepsNone<T(!new)>(s: seq<T>, p: T -> bool)
    requires forall i :: 0 <= i < |s| ==> !p(s[i])
    ensures Filter(s, p) == []
    decreases |s|
  {
    if |s| > 0 {
      FilterKeepsNone(s[..|s| - 1], p);
    }
  }

  /**
   * When no element satisfies two of three predicates, the three filtered
   * lists together are no longer than the input.
   */
  lemma {:induction false} ExclusiveCountsBounded<T(!new)>(s: seq<T>, p: T -> bool, q: T -> bool, r: T -> bool)
    requires forall x :: x in s ==> Indicator(p(x)) + Indicator(q(x)) + Indicator(r(x)) <= 1
    ensures |Filter(s, p)| + |Filter(s, q)| + |Filter(s, r)| <= |s|
    decreases |s|
  {
    if |s| > 0 {
      var x := s[|s| - 1];
      assert x in s;
      assert forall y :: y in s[..|s| - 1] ==> y in s;
      ExclusiveCountsBounded(s[..|s| - 1], p, q, r);
    }
  }

  /**
   * When every element satisfies exactly one of three predicates, the three
   * filtered lists together are exactly as long as the input.
   */
  lemma {:induction false} PartitionCounts<T(!new)>(s: seq<T>, p: T -> bool, q: T -> bool, r: T -> bool)
    requires forall x :: x in s ==> Indicator(p(x)) + Indicator(q(x)) + Indicator(r(x)) == 1
    ensures |Filter(s, p)| + |Filter(s, q)| + |Filter(s, r)| == |s|
    decreases |s|
  {
    if |s| > 0 {
      var x := s[|s| - 1];
      assert x in s;
      assert forall y :: y in s[..|s| - 1] ==> y in s;
      PartitionCounts(s[..|s| - 1], p, q, r);
    }
  }
}
