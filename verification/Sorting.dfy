/**
 Sorting places by key, as the standard libraries do: stably. An order of
 places is what sorts several arrays together; that it lists each place once
 is what keeps their entries whole.
 */
module Sorting {
  /** `order` lists all of `keys` by key, and equal keys in the order they came. */
  ghost predicate StableOrder(order: seq<nat>, keys: seq<nat>)
  {
    && |order| == |keys|
    && (forall a :: 0 <= a < |order| ==> order[a] < |keys|)
    && Sorted(order, keys)
    && multiset(order) == multiset(Upto(|keys|))
  }

  ghost predicate Sorted(order: seq<nat>, keys: seq<nat>)
  {
    forall a, b :: 0 <= a < b < |order| && order[a] < |keys| && order[b] < |keys| ==> Before(order[a], order[b], keys)
  }

  predicate Before(i: nat, j: nat, keys: seq<nat>)
    requires i < |keys| && j < |keys|
  {
    keys[i] < keys[j] || (keys[i] == keys[j] && i < j)
  }

  function Upto(n: nat): (s: seq<nat>)
    ensures |s| == n && forall i :: 0 <= i < n ==> s[i] == i
  {
    if n == 0 then [] else Upto(n - 1) + [n - 1]
  }

  /** A stable sort of the places by key (the standard library's `sort_by_key`). */
  method SortByKey(keys: seq<nat>) returns (order: seq<nat>)
    ensures StableOrder(order, keys)
  {
    hide SortedTo;
    order := [];
    NoneSorted(keys);
    var n: nat := 0;
    while n < |keys|
      invariant n <= |keys| && SortedTo(order, keys, n)
    {
      SortedPlaces(order, keys, n);
      var at := Slot(order, keys, n);
      InsertStep(order, keys, at, n);
      order := order[..at] + [n] + order[at..];
      n := n + 1;
    }
    SortedPlaces(order, keys, n);
  }

  /** `order` lists the first `n` places, stably sorted. */
  ghost predicate SortedTo(order: seq<nat>, keys: seq<nat>, n: nat)
  {
    && |order| == n && Sorted(order, keys)
    && (forall a :: 0 <= a < |order| ==> order[a] < n)
    && multiset(order) == multiset(Upto(n))
  }

  lemma SortedPlaces(order: seq<nat>, keys: seq<nat>, n: nat)
    requires n <= |keys| && SortedTo(order, keys, n)
    ensures forall a :: 0 <= a < |order| ==> order[a] < n
    ensures n == |keys| ==> StableOrder(order, keys)
  {}

  lemma InsertStep(order: seq<nat>, keys: seq<nat>, at: nat, n: nat)
    requires n < |keys| && SortedTo(order, keys, n) && at <= |order|
    requires forall a :: at <= a < |order| ==> keys[n] < keys[order[a]]
    requires at > 0 ==> keys[order[at - 1]] <= keys[n]
    ensures SortedTo(order[..at] + [n] + order[at..], keys, n + 1)
  {
    hide Sorted;
    InsertSorted(order, keys, at, n);
    InsertCounts(order, at, n);
    assert multiset(Upto(n + 1)) == multiset(Upto(n)) + multiset{n};
  }

  /** Where in the order place `n` goes. */
  method Slot(order: seq<nat>, keys: seq<nat>, n: nat) returns (at: nat)
    requires n < |keys| && forall a :: 0 <= a < |order| ==> order[a] < n
    ensures at <= |order| && (at > 0 ==> keys[order[at - 1]] <= keys[n])
    ensures forall a :: at <= a < |order| ==> keys[n] < keys[order[a]]
  {
    at := |order|;
    while at > 0 && keys[n] < keys[order[at - 1]]
      invariant at <= |order|
      invariant forall a :: at <= a < |order| ==> keys[n] < keys[order[a]]
    {
      at := at - 1;
    }
  }

  lemma NoneSorted(keys: seq<nat>)
    ensures SortedTo([], keys, 0)
  {}

  lemma InsertCounts(order: seq<nat>, at: nat, n: nat)
    requires at <= |order|
    ensures multiset(order[..at] + [n] + order[at..]) == multiset(order) + multiset{n}
  {
    assert order == order[..at] + order[at..];
  }

  lemma InsertSorted(order: seq<nat>, keys: seq<nat>, at: nat, n: nat)
    requires at <= |order| && n < |keys| && Sorted(order, keys)
    requires forall a :: 0 <= a < |order| ==> order[a] < n
    requires forall a :: at <= a < |order| ==> keys[n] < keys[order[a]]
    requires at > 0 ==> keys[order[at - 1]] <= keys[n]
    ensures Sorted(order[..at] + [n] + order[at..], keys)
  {
    var o := order[..at] + [n] + order[at..];
    assert forall a :: 0 <= a < |o| ==> o[a] == if a < at then order[a] else if a == at then n else order[a - 1];
    forall a, b | 0 <= a < b < |o| && o[a] < |keys| && o[b] < |keys|
      ensures Before(o[a], o[b], keys)
    {
      if b == at {
        BeforeNew(order, keys, at, n, a);
      } else if a != at {
        assert Before(order[if a < at then a else a - 1], order[if b < at then b else b - 1], keys);
      }
    }
  }

  lemma BeforeNew(order: seq<nat>, keys: seq<nat>, at: nat, n: nat, a: nat)
    requires a < at <= |order| && n < |keys| && Sorted(order, keys)
    requires forall a :: 0 <= a < |order| ==> order[a] < n
    requires keys[order[at - 1]] <= keys[n]
    ensures Before(order[a], n, keys)
  {
    if a < at - 1 {
      assert Before(order[a], order[at - 1], keys);
    }
  }

  /** `order` lists each place below `n` once. */
  ghost predicate Permutes(order: seq<nat>, n: nat)
  {
    && |order| == n && (forall a :: 0 <= a < n ==> order[a] < n && order[a] in order)
    && (forall a, b :: 0 <= a < b < n ==> order[a] != order[b])
    && forall i :: 0 <= i < n ==> i in order
  }

  /** The elements of `es` in the order of the places listed. */
  function Picked<T>(es: seq<T>, order: seq<nat>): (r: seq<T>)
    requires forall a :: 0 <= a < |order| ==> order[a] < |es|
    ensures |r| == |order|
  {
    seq(|order|, j requires 0 <= j < |order| => es[order[j]])
  }

  lemma PickedAt<T>(es: seq<T>, order: seq<nat>, m: nat)
    requires (forall a :: 0 <= a < |order| ==> order[a] < |es|) && m < |order|
    ensures Picked(es, order)[m] == es[order[m]]
  {}

  lemma PlaceOf(order: seq<nat>, i: nat) returns (a: nat)
    requires i in order
    ensures a < |order| && order[a] == i
  {
    a :| 0 <= a < |order| && order[a] == i;
  }

  lemma PermutesPlaces(order: seq<nat>, n: nat)
    requires Permutes(order, n)
    ensures |order| == n && (forall a :: 0 <= a < n ==> order[a] < n)
    ensures forall i :: 0 <= i < n ==> i in order
    ensures forall a, b :: 0 <= a < b < n ==> order[a] != order[b]
  {}

  lemma UptoPermutes<T>(es: seq<T>)
    ensures Permutes(Upto(|es|), |es|) && Picked(es, Upto(|es|)) == es
  {
    var u := Upto(|es|);
    forall i | 0 <= i < |es|
      ensures i in u
    {
      assert u[i] == i;
    }
  }

  lemma {:induction false} UptoOnce(n: nat, x: nat)
    ensures multiset(Upto(n))[x] == if x < n then 1 else 0
  {
    if n > 0 {
      var last: nat := n - 1;
      UptoOnce(last, x);
      assert Upto(n) == Upto(last) + [last];
    }
  }

  lemma CountedTwice(order: seq<nat>, a: nat, b: nat)
    requires a < b < |order|
    ensures multiset(order)[order[a]] == 1 ==> order[a] != order[b]
  {
    assert order == order[..b] + order[b..];
    assert order[a] in order[..b] && order[b] in order[b..];
  }

  lemma StablePermutes(order: seq<nat>, keys: seq<nat>)
    requires StableOrder(order, keys)
    ensures Permutes(order, |keys|)
  {
    hide Sorted;
    forall a, b | 0 <= a < b < |order|
      ensures order[a] != order[b]
    {
      UptoOnce(|keys|, order[a]);
      CountedTwice(order, a, b);
    }
    forall i | 0 <= i < |keys|
      ensures i in order
    {
      UptoOnce(|keys|, i);
      assert i in multiset(order);
    }
  }

  /** What is listed once each is all there was. */
  lemma PickedAll<T>(es: seq<T>, order: seq<nat>)
    requires Permutes(order, |es|)
    ensures forall x :: x in Picked(es, order) <==> x in es
  {
    forall x | x in es
      ensures x in Picked(es, order)
    {
      var i: int :| 0 <= i < |es| && es[i] == x;
      var a := PlaceOf(order, i);
      assert Picked(es, order)[a] == x;
    }
  }

  /** `es` in the order of their keys. */
  method SortBy<T>(es: seq<T>, keys: seq<nat>) returns (sorted: seq<T>, ghost order: seq<nat>)
    requires |es| == |keys|
    ensures StableOrder(order, keys) && Permutes(order, |es|) && sorted == Picked(es, order)
    ensures forall x :: x in sorted <==> x in es
  {
    hide StableOrder, Permutes, Picked;
    var places := SortByKey(keys);
    order := places;
    StablePermutes(places, keys);
    PermutesPlaces(places, |es|);
    PickedAll(es, places);
    sorted := Picked(es, places);
  }

  /** Keys in the sorted order do not step down, and equal ones keep their places' order. */
  lemma SortedAt(order: seq<nat>, keys: seq<nat>, i: nat, j: nat)
    requires StableOrder(order, keys) && i < j < |order|
    ensures order[i] < |keys| && order[j] < |keys|
    ensures keys[order[i]] < keys[order[j]] || (keys[order[i]] == keys[order[j]] && order[i] < order[j])
  {
    assert Before(order[i], order[j], keys);
  }
}
