/**
 * Insertion-ordered keys. A JavaScript object with string keys and a Python
 * dict enumerate their entries in insertion order: assigning to a new key
 * appends it, assigning to an existing key keeps its place, deleting removes
 * it. The model pairs each such map with a `seq` of its keys in that order.
 * Also `Array.prototype.filter` and the way its complementary uses partition
 * a list.
 */
module Ordered {

  predicate NoDup<K(==,!new)>(s: seq<K>)
  {
    forall i, j :: 0 <= i < j < |s| ==> s[i] != s[j]
  }

  /** `order` lists every key of `keys` exactly once. */
  predicate Enumerates<K(==,!new)>(order: seq<K>, keys: set<K>)
  {
    NoDup(order) && (forall k :: k in order ==> k in keys) && (forall k :: k in keys ==> k in order)
  }

  /** The key order after assigning to key `k`. */
  function Put<K(==,!new)>(order: seq<K>, k: K): (r: seq<K>)
    ensures forall x :: x in r <==> x in order || x == k
    ensures NoDup(order) ==> NoDup(r)
    ensures k in order ==> r == order
    ensures k !in order ==> r == order + [k]
  {
    if k in order then order else order + [k]
  }

  /** The key order after deleting key `k`. */
  function Drop<K(==,!new)>(order: seq<K>, k: K): (r: seq<K>)
    ensures forall x :: x in r <==> x in order && x != k
    ensures NoDup(order) ==> NoDup(r)
    ensures |r| <= |order|
  {
    if |order| == 0 then []
    else
      var rest := Drop(order[1..], k);
      assert NoDup(order) ==> order[0] !in order[1..];
      if order[0] == k then rest else [order[0]] + rest
  }

  /** `s.filter(p)`: the elements satisfying `p`, in their original order. */
  function Filter<T(!new)>(s: seq<T>, p: T -> bool): (r: seq<T>)
    ensures |r| <= |s|
    ensures forall x :: x in r <==> x in s && p(x)
    ensures forall i :: 0 <= i < |r| ==> p(r[i])
    ensures multiset(r) <= multiset(s)
  {
    if |s| == 0 then []
    else
      var rest := Filter(s[1..], p);
      assert s == [s[0]] + s[1..];
      if p(s[0]) then [s[0]] + rest else rest
  }

  /** Filtering with `p` and with its negation splits `s` between the two results. */
  lemma {:induction false} FilterSplits<T(!new)>(s: seq<T>, p: T -> bool, q: T -> bool)
    requires forall x :: q(x) == !p(x)
    ensures multiset(Filter(s, p)) + multiset(Filter(s, q)) == multiset(s)
  {
    if |s| > 0 {
      FilterSplits(s[1..], p, q);
      assert s == [s[0]] + s[1..];
    }
  }

  /** Filtering with `p` and then with `q` keeps the elements that pass both, in order. */
  lemma {:induction false} FilterTwice<T(!new)>(s: seq<T>, p: T -> bool, q: T -> bool, pq: T -> bool)
    requires forall x :: pq(x) == (p(x) && q(x))
    ensures Filter(Filter(s, p), q) == Filter(s, pq)
  {
    if |s| > 0 {
      FilterTwice(s[1..], p, q, pq);
      if p(s[0]) {
        assert Filter(s, p) == [s[0]] + Filter(s[1..], p);
        assert Filter(s, p)[1..] == Filter(s[1..], p);
      }
    }
  }

  /** Filters with tests that agree on every element give the same result. */
  lemma {:induction false} FilterExt<T(!new)>(s: seq<T>, p: T -> bool, q: T -> bool)
    requires forall x :: p(x) == q(x)
    ensures Filter(s, p) == Filter(s, q)
  {
    if |s| > 0 {
      FilterExt(s[1..], p, q);
    }
  }
}
