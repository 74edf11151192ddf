/** A stable descending sort followed by keeping first occurrences and cutting: what comes out. */
module Ranking {
  import opened Common

  /** `i` is to stand before `j`: by higher key, and by earlier place among equal keys. */
  predicate Ahead(keys: seq<real>, i: nat, j: nat)
    requires i < |keys| && j < |keys|
  {
    keys[i] > keys[j] || (keys[i] == keys[j] && i < j)
  }

  ghost predicate InRange(keys: seq<real>, order: seq<nat>) { forall a | 0 <= a < |order| :: order[a] < |keys| }

  ghost predicate Ordered(keys: seq<real>, order: seq<nat>)
    requires InRange(keys, order)
  {
    forall a, b | 0 <= a < b < |order| :: Ahead(keys, order[a], order[b])
  }

  // ---------------------------------------------------------------- the sort

  /** Puts a later place behind every place with at least its key. */
  function Insert(keys: seq<real>, order: seq<nat>, i: nat): seq<nat>
    requires i < |keys| && InRange(keys, order)
  {
    if order == [] then [i]
    else
      var last := |order| - 1;
      if keys[order[last]] >= keys[i] then order + [i] else Insert(keys, order[..last], i) + [order[last]]
  }

  /** The places of a list in the order in which a stable sort on descending keys puts them. */
  function StableOrder(keys: seq<real>): (order: seq<nat>)
    ensures |order| == |keys| && InRange(keys, order)
  {
    if keys == [] then []
    else
      var n := |keys| - 1;
      var order := StableOrder(keys[..n]);
      InsertKeeps(keys, order, n);
      Insert(keys, order, n)
  }

  lemma {:induction false} InsertKeeps(keys: seq<real>, order: seq<nat>, i: nat)
    requires i < |keys| && InRange(keys, order)
    ensures InRange(keys, Insert(keys, order, i))
    ensures multiset(Insert(keys, order, i)) == multiset(order) + multiset{i}
    ensures |Insert(keys, order, i)| == |order| + 1
  {
    if order != [] {
      var last := |order| - 1;
      InsertKeeps(keys, order[..last], i);
      assert order == order[..last] + [order[last]];
    }
  }

  lemma {:induction false} InsertOrders(keys: seq<real>, order: seq<nat>, i: nat)
    requires i < |keys| && InRange(keys, order) && Ordered(keys, order)
    requires forall a | 0 <= a < |order| :: order[a] < i
    ensures InRange(keys, Insert(keys, order, i)) && Ordered(keys, Insert(keys, order, i))
  {
    InsertKeeps(keys, order, i);
    if order != [] {
      var last := |order| - 1;
      if keys[order[last]] < keys[i] {
        var front := Insert(keys, order[..last], i);
        InsertOrders(keys, order[..last], i);
        InsertKeeps(keys, order[..last], i);
        forall a | 0 <= a < |front| ensures Ahead(keys, front[a], order[last]) {
          assert front[a] in multiset(front);
          assert front[a] == i || front[a] in order[..last];
        }
      }
    }
  }

  /** Every place is there, and each stands ahead of all that follow it. */
  lemma {:induction false} StableOrderSorts(keys: seq<real>)
    ensures Ordered(keys, StableOrder(keys))
    ensures forall i: nat | i < |keys| :: i in StableOrder(keys)
  {
    if keys != [] {
      var n := |keys| - 1;
      var order := StableOrder(keys[..n]);
      StableOrderSorts(keys[..n]);
      forall a, b | 0 <= a < b < n ensures Ahead(keys, order[a], order[b]) {
        assert Ahead(keys[..n], order[a], order[b]);
      }
      InsertOrders(keys, order, n);
      InsertKeeps(keys, order, n);
      forall i: nat | i < |keys| ensures i in Insert(keys, order, n) {
        assert i < n ==> i in order;
        assert i in multiset(Insert(keys, order, n));
      }
    }
  }

  lemma PlaceOf(keys: seq<real>, i: nat) returns (a: nat)
    requires i < |keys|
    ensures a < |keys| && StableOrder(keys)[a] == i
  {
    StableOrderSorts(keys);
    assert i in StableOrder(keys);
    a :| 0 <= a < |keys| && StableOrder(keys)[a] == i;
  }

  // ---------------------------------------------------------------- first occurrences

  /** The places at which something is seen for the first time. */
  function FirstPlaces<T(==)>(s: seq<T>): seq<nat> {
    if s == [] then []
    else
      var n := |s| - 1;
      if s[n] in s[..n] then FirstPlaces(s[..n]) else FirstPlaces(s[..n]) + [n]
  }

  predicate IsFirst<T(==)>(s: seq<T>, i: nat)
    requires i < |s|
  {
    s[i] !in s[..i]
  }

  lemma {:induction false} FirstPlacesMembers<T>(s: seq<T>)
    ensures forall a | 0 <= a < |FirstPlaces(s)| :: FirstPlaces(s)[a] < |s| && IsFirst(s, FirstPlaces(s)[a])
    ensures forall a, b | 0 <= a < b < |FirstPlaces(s)| :: FirstPlaces(s)[a] < FirstPlaces(s)[b]
    ensures forall i | 0 <= i < |s| && IsFirst(s, i) :: i in FirstPlaces(s)
  {
    if s != [] {
      var n := |s| - 1;
      FirstPlacesMembers(s[..n]);
      forall i | 0 <= i < n ensures s[..n][..i] == s[..i] {}
      forall i | 0 <= i < |s| && IsFirst(s, i) ensures i in FirstPlaces(s) {
        assert i < n ==> IsFirst(s[..n], i);
      }
      forall a | 0 <= a < |FirstPlaces(s[..n])| ensures IsFirst(s, FirstPlaces(s[..n])[a]) {
        assert IsFirst(s[..n], FirstPlaces(s[..n])[a]);
      }
    }
  }

  lemma {:induction false} FirstPlacesCount<T>(s: seq<T>)
    ensures |FirstPlaces(s)| == |set x | x in s|
  {
    if s == [] {
      assert (set x | x in s) == {};
    } else {
      var n := |s| - 1;
      FirstPlacesCount(s[..n]);
      assert s == s[..n] + [s[n]];
      assert (set x | x in s) == (set x | x in s[..n]) + {s[n]};
      assert s[n] in s[..n] ==> (set x | x in s) == set x | x in s[..n];
    }
  }

  lemma {:induction false} FirstPlacesOfPrefix<T>(s: seq<T>, i: nat)
    requires i <= |s|
    ensures FirstPlaces(s[..i]) <= FirstPlaces(s)
  {
    if i == |s| {
      assert s[..i] == s;
    } else {
      FirstPlacesOfPrefix(s[..|s| - 1], i);
      assert s[..|s| - 1][..i] == s[..i];
    }
  }

  // ---------------------------------------------------------------- the cut ranking

  /** `chosen` are the first places of the best `k` items, and of one at least: best first. */
  ghost predicate Top<T>(keys: seq<real>, items: seq<T>, k: int, chosen: seq<nat>)
    requires |keys| == |items|
  {
    && |chosen| == Min(Max(k, 1), |set x | x in items|)
    && InRange(keys, chosen)
    && Ordered(keys, chosen)
    && (forall a | 0 <= a < |chosen| :: IsFirst(items, chosen[a]))
    && (forall i, a | 0 <= i < |items| && IsFirst(items, i) && i !in chosen && 0 <= a < |chosen| ::
          Ahead(keys, chosen[a], i))
  }

  ghost predicate EqualItemsEqualKeys<T>(keys: seq<real>, items: seq<T>)
    requires |keys| == |items|
  {
    forall i, j | 0 <= i < |items| && 0 <= j < |items| && items[i] == items[j] :: keys[i] == keys[j]
  }

  function Permuted<T>(items: seq<T>, order: seq<nat>): (r: seq<T>)
    requires forall a | 0 <= a < |order| :: order[a] < |items|
    ensures |r| == |order| && forall a | 0 <= a < |r| :: r[a] == items[order[a]]
  {
    seq(|order|, a requires 0 <= a < |order| => items[order[a]])
  }

  /** A place seen first after the sort was the first of its item before it too. */
  lemma FirstAfterSortIsFirst<T>(keys: seq<real>, items: seq<T>, a: nat)
    requires |keys| == |items| && EqualItemsEqualKeys(keys, items) && a < |items|
    requires IsFirst(Permuted(items, StableOrder(keys)), a)
    ensures IsFirst(items, StableOrder(keys)[a])
  {
    var order := StableOrder(keys);
    var sorted := Permuted(items, order);
    StableOrderSorts(keys);
    forall i: nat | i < order[a] ensures items[i] != items[order[a]] {
      var b := PlaceOf(keys, i);
      assert a < b ==> Ahead(keys, order[a], order[b]);
      assert b < a ==> sorted[..a][b] != sorted[a];
    }
  }

  /** Sorting, keeping first occurrences and cutting gives the top. */
  lemma SortedFirstsAreTop<T>(keys: seq<real>, items: seq<T>, k: int, firsts: seq<nat>, chosen: seq<nat>)
    requires |keys| == |items| && EqualItemsEqualKeys(keys, items)
    requires firsts == FirstPlaces(Permuted(items, StableOrder(keys)))
    requires |chosen| == Min(Max(k, 1), |firsts|)
    requires forall a | 0 <= a < |chosen| :: firsts[a] < |keys| && chosen[a] == StableOrder(keys)[firsts[a]]
    ensures Top(keys, items, k, chosen)
  {
    var order := StableOrder(keys);
    FirstPlacesMembers(Permuted(items, order));
    FirstPlacesCount(Permuted(items, order));
    SameItems(keys, items);
    assert Ordered(keys, chosen) by {
      StableOrderSorts(keys);
    }
    forall a | 0 <= a < |chosen| ensures IsFirst(items, chosen[a]) {
      FirstAfterSortIsFirst(keys, items, firsts[a]);
    }
    forall i: nat, a | i < |items| && IsFirst(items, i) && i !in chosen && 0 <= a < |chosen|
      ensures Ahead(keys, chosen[a], i)
    {
      OmittedStandsBehind(keys, items, firsts, chosen, i, a);
    }
  }

  lemma OmittedStandsBehind<T>(keys: seq<real>, items: seq<T>, firsts: seq<nat>, chosen: seq<nat>, i: nat, a: nat)
    requires |keys| == |items| && EqualItemsEqualKeys(keys, items)
    requires firsts == FirstPlaces(Permuted(items, StableOrder(keys)))
    requires |chosen| <= |firsts|
    requires forall a | 0 <= a < |chosen| :: firsts[a] < |keys| && chosen[a] == StableOrder(keys)[firsts[a]]
    requires i < |items| && IsFirst(items, i) && i !in chosen && a < |chosen|
    ensures Ahead(keys, chosen[a], i)
  {
    var order := StableOrder(keys);
    var b := FirstPlaceAfterSort(keys, items, i);
    FirstPlacesMembers(Permuted(items, order));
    assert b in firsts;
    var c :| 0 <= c < |firsts| && firsts[c] == b;
    assert forall d | 0 <= d < |chosen| :: chosen[d] != i;
    StableOrderSorts(keys);
    assert Ahead(keys, order[firsts[a]], order[b]);
  }

  lemma SameItems<T>(keys: seq<real>, items: seq<T>)
    requires |keys| == |items|
    ensures (set x | x in Permuted(items, StableOrder(keys))) == (set x | x in items)
  {
    var sorted := Permuted(items, StableOrder(keys));
    forall i: nat | i < |items| ensures items[i] in sorted {
      var a := PlaceOf(keys, i);
      assert sorted[a] == items[i];
    }
  }

  lemma FirstPlaceAfterSort<T>(keys: seq<real>, items: seq<T>, i: nat) returns (b: nat)
    requires |keys| == |items| && i < |items| && IsFirst(items, i) && EqualItemsEqualKeys(keys, items)
    ensures b < |items| && StableOrder(keys)[b] == i && IsFirst(Permuted(items, StableOrder(keys)), b)
  {
    var order := StableOrder(keys);
    var sorted := Permuted(items, order);
    StableOrderSorts(keys);
    b := PlaceOf(keys, i);
    forall c | 0 <= c < b ensures sorted[c] != sorted[b] {
      assert Ahead(keys, order[c], order[b]);
      assert order[c] < i ==> items[..i][order[c]] != items[i];
    }
  }

  /** There is only one top: the ranking leaves nothing open. */
  lemma {:induction false} TopIsUnique<T>(keys: seq<real>, items: seq<T>, k: int, c: seq<nat>, d: seq<nat>)
    requires |keys| == |items| && Top(keys, items, k, c) && Top(keys, items, k, d)
    ensures c == d
  {
    for a := 0 to |c|
      invariant c[..a] == d[..a]
    {
      TopNext(keys, items, k, c, d, a);
      assert c[..a + 1] == c[..a] + [c[a]] && d[..a + 1] == d[..a] + [d[a]];
    }
  }

  lemma TopNext<T>(keys: seq<real>, items: seq<T>, k: int, c: seq<nat>, d: seq<nat>, a: nat)
    requires |keys| == |items| && Top(keys, items, k, c) && Top(keys, items, k, d)
    requires a < |c| && c[..a] == d[..a]
    ensures c[a] == d[a]
  {
    NoneBefore(keys, items, k, c, d, a);
    NoneBefore(keys, items, k, d, c, a);
  }

  lemma NoneBefore<T>(keys: seq<real>, items: seq<T>, k: int, c: seq<nat>, d: seq<nat>, a: nat)
    requires |keys| == |items| && Top(keys, items, k, c) && Top(keys, items, k, d)
    requires a < |c| && c[..a] == d[..a]
    ensures c[a] == d[a] || Ahead(keys, c[a], d[a])
  {
    forall b | 0 <= b < a ensures c[b] != d[a] {
      assert c[b] == c[..a][b] == d[b];
      assert Ahead(keys, d[b], d[a]);
    }
  }
}
