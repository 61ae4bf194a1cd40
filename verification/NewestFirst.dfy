/** The stable sort by creation time, newest first, that listings and indexes are ordered with. */
module NewestFirst {

  predicate Sorted<T(!new)>(items: seq<T>, at: T -> nat) {
    forall i, j :: 0 <= i < j < |items| ==> at(items[i]) >= at(items[j])
  }

  function Insert<T>(item: T, items: seq<T>, at: T -> nat): seq<T> {
    if items == [] || at(item) >= at(items[0]) then [item] + items
    else [items[0]] + Insert(item, items[1..], at)
  }

  function Sort<T>(items: seq<T>, at: T -> nat): seq<T> {
    if items == [] then [] else Insert(items[0], Sort(items[1..], at), at)
  }

  /** The items created at `time`, in order. */
  function From<T>(items: seq<T>, at: T -> nat, time: nat): seq<T> {
    if items == [] then []
    else (if at(items[0]) == time then [items[0]] else []) + From(items[1..], at, time)
  }

  lemma {:induction false} InsertKeepsItems<T>(item: T, items: seq<T>, at: T -> nat)
    ensures multiset(Insert(item, items, at)) == multiset(items) + multiset{item}
  {
    if items != [] && at(item) < at(items[0]) {
      InsertKeepsItems(item, items[1..], at);
      assert items == [items[0]] + items[1..];
    }
  }

  lemma {:induction false} InsertKeepsOrder<T(!new)>(item: T, items: seq<T>, at: T -> nat, time: nat)
    ensures From(Insert(item, items, at), at, time) == From([item] + items, at, time)
  {
    assert ([item] + items)[1..] == items;
    if items != [] && at(item) < at(items[0]) {
      var rest := Insert(item, items[1..], at);
      InsertKeepsOrder(item, items[1..], at, time);
      assert ([items[0]] + rest)[1..] == rest && ([item] + items[1..])[1..] == items[1..];
    }
  }

  lemma {:induction false} InsertSorts<T(!new)>(item: T, items: seq<T>, at: T -> nat)
    requires Sorted(items, at)
    ensures Sorted(Insert(item, items, at), at)
    ensures forall k :: 0 <= k < |Insert(item, items, at)| ==>
      Insert(item, items, at)[k] == item || Insert(item, items, at)[k] in items
  {
    if items != [] && at(item) < at(items[0]) {
      InsertSorts(item, items[1..], at);
    }
  }

  /** Sorting orders, keeps every item, and keeps items of the same time in their order. */
  lemma {:induction false} SortSorts<T(!new)>(items: seq<T>, at: T -> nat)
    ensures Sorted(Sort(items, at), at)
    ensures multiset(Sort(items, at)) == multiset(items)
    ensures forall time :: From(Sort(items, at), at, time) == From(items, at, time)
    ensures |Sort(items, at)| == |items|
  {
    hide Insert, Sorted;
    if items == [] {
      EmptySorted(items, at);
    } else {
      var rest := Sort(items[1..], at);
      SortSorts(items[1..], at);
      InsertSorts(items[0], rest, at);
      InsertKeepsItems(items[0], rest, at);
      assert items == [items[0]] + items[1..];
      SameSize(Sort(items, at), items);
      forall time
        ensures From(Sort(items, at), at, time) == From(items, at, time)
      {
        InsertKeepsOrder(items[0], rest, at, time);
        assert ([items[0]] + rest)[1..] == rest;
      }
    }
  }

  lemma EmptySorted<T(!new)>(items: seq<T>, at: T -> nat)
    requires items == []
    ensures Sorted(items, at)
  {
  }

  lemma SameSize<T>(a: seq<T>, b: seq<T>)
    requires multiset(a) == multiset(b)
    ensures |a| == |b|
  {
    assert |multiset(a)| == |a| && |multiset(b)| == |b|;
  }

  // Where an item stands after sorting

  /** How many items are newer than `time`. */
  function Newer<T>(items: seq<T>, at: T -> nat, time: nat): nat {
    if items == [] then 0 else (if at(items[0]) > time then 1 else 0) + Newer(items[1..], at, time)
  }

  /** How many items are exactly as old as `time`. */
  function AsOld<T>(items: seq<T>, at: T -> nat, time: nat): nat {
    if items == [] then 0 else (if at(items[0]) == time then 1 else 0) + AsOld(items[1..], at, time)
  }

  /** The newer items come before item `k`, and those as old that stand before it already. */
  function Place<T>(items: seq<T>, at: T -> nat, k: nat): nat
    requires k < |items|
  {
    Newer(items, at, at(items[k])) + AsOld(items[..k], at, at(items[k]))
  }

  lemma {:induction false} InsertPlaces<T(!new)>(item: T, items: seq<T>, at: T -> nat, q: nat)
    requires Sorted(items, at)
    ensures |Insert(item, items, at)| == |items| + 1
    ensures Newer(items, at, at(item)) <= |items|
    ensures Insert(item, items, at)[Newer(items, at, at(item))] == item
    ensures q < |items| ==>
      Insert(item, items, at)[if at(items[q]) <= at(item) then q + 1 else q] == items[q]
  {
    if items != [] && at(item) < at(items[0]) {
      InsertPlaces(item, items[1..], at, if q > 0 then q - 1 else 0);
      assert items == [items[0]] + items[1..];
      if 0 < q < |items| {
        assert items[q] == items[1..][q - 1];
      }
    } else {
      NoneNewer(items, at, at(item));
    }
  }

  lemma {:induction false} NoneNewer<T(!new)>(items: seq<T>, at: T -> nat, time: nat)
    requires Sorted(items, at) && (items == [] || at(items[0]) <= time)
    ensures Newer(items, at, time) == 0
  {
    if items != [] {
      NoneNewer(items[1..], at, time);
    }
  }

  lemma {:induction false} SameNewer<T(!new)>(items: seq<T>, at: T -> nat, time: nat)
    ensures Newer(Sort(items, at), at, time) == Newer(items, at, time)
  {
    if items != [] {
      SameNewer(items[1..], at, time);
      InsertNewer(items[0], Sort(items[1..], at), at, time);
    }
  }

  lemma {:induction false} InsertNewer<T(!new)>(item: T, items: seq<T>, at: T -> nat, time: nat)
    ensures Newer(Insert(item, items, at), at, time) == Newer(items, at, time) + if at(item) > time then 1 else 0
  {
    if items == [] || at(item) >= at(items[0]) {
      assert ([item] + items)[1..] == items;
    } else {
      InsertNewer(item, items[1..], at, time);
      assert ([items[0]] + Insert(item, items[1..], at))[1..] == Insert(item, items[1..], at);
    }
  }

  lemma PlaceStep<T(!new)>(items: seq<T>, at: T -> nat, k: nat)
    requires k < |items|
    ensures k == 0 ==> Place(items, at, k) == Newer(items[1..], at, at(items[0]))
    ensures k > 0 ==>
      Place(items, at, k) == Place(items[1..], at, k - 1) + if at(items[0]) >= at(items[k]) then 1 else 0
  {
    if k > 0 {
      assert items[..k][1..] == items[1..][..k - 1];
    }
  }

  /** Every item stands at its place. */
  lemma {:induction false} SortPlaces<T(!new)>(items: seq<T>, at: T -> nat, k: nat)
    requires k < |items|
    ensures Place(items, at, k) < |Sort(items, at)| && Sort(items, at)[Place(items, at, k)] == items[k]
  {
    var rest, time := items[1..], at(items[k]);
    SortSorts(rest, at);
    PlaceStep(items, at, k);
    hide Sorted, Insert, Place, Newer, From;
    if k == 0 {
      SameNewer(rest, at, time);
      InsertPlaces(items[0], Sort(rest, at), at, 0);
    } else {
      SortPlaces(rest, at, k - 1);
      InsertPlaces(items[0], Sort(rest, at), at, Place(rest, at, k - 1));
    }
  }

  predicate AllTimesDiffer<T(!new)>(items: seq<T>, at: T -> nat) {
    forall i, j :: 0 <= i < j < |items| ==> at(items[i]) != at(items[j])
  }

  /** Two sorted lists of the same items, all of different times, are the same list. */
  lemma {:induction false} SortedIsUnique<T(!new)>(a: seq<T>, b: seq<T>, at: T -> nat)
    requires Sorted(a, at) && Sorted(b, at) && AllTimesDiffer(b, at)
    requires multiset(a) == multiset(b)
    ensures a == b
    decreases |a|
  {
    hide Sorted, AllTimesDiffer;
    SameSize(a, b);
    if a != [] {
      SameHead(a, b, at);
      Tails(a, at);
      Tails(b, at);
      SortedIsUnique(a[1..], b[1..], at);
      assert a == [a[0]] + a[1..];
      assert b == [b[0]] + b[1..];
    }
  }

  lemma Tails<T(!new)>(a: seq<T>, at: T -> nat)
    requires a != [] && Sorted(a, at)
    ensures Sorted(a[1..], at) && (AllTimesDiffer(a, at) ==> AllTimesDiffer(a[1..], at))
    ensures multiset(a[1..]) == multiset(a) - multiset{a[0]}
  {
    assert a == [a[0]] + a[1..];
  }

  lemma SameHead<T(!new)>(a: seq<T>, b: seq<T>, at: T -> nat)
    requires Sorted(a, at) && Sorted(b, at) && AllTimesDiffer(b, at)
    requires multiset(a) == multiset(b) && a != [] && b != []
    ensures a[0] == b[0]
  {
    assert a[0] in multiset(b) && b[0] in multiset(a);
    assert a[0] in b && b[0] in a;
    assert at(b[0]) >= at(a[0]) && at(a[0]) >= at(b[0]);
  }

  ghost predicate SameByTime<T(!new)>(a: seq<T>, b: seq<T>, at: T -> nat) {
    forall time :: From(a, at, time) == From(b, at, time)
  }

  /** A sorted list is determined by the items of each time, in order. */
  lemma {:induction false} SortedByTimes<T(!new)>(a: seq<T>, b: seq<T>, at: T -> nat)
    requires Sorted(a, at) && Sorted(b, at) && SameByTime(a, b, at)
    ensures a == b
    decreases |a|
  {
    hide Sorted, SameByTime, AllTimesDiffer;
    SameEmpty(a, b, at);
    if a != [] {
      FirstByTime(a, b, at);
      TailByTime(a, b, at);
      Tails(a, at);
      Tails(b, at);
      SortedByTimes(a[1..], b[1..], at);
      SameWhole(a, b);
    }
  }

  lemma SameWhole<T>(a: seq<T>, b: seq<T>)
    requires a != [] && b != [] && a[0] == b[0] && a[1..] == b[1..]
    ensures a == b
  {
    assert a == [a[0]] + a[1..];
    assert b == [b[0]] + b[1..];
  }

  lemma HeadFrom<T>(items: seq<T>, at: T -> nat)
    requires items != []
    ensures var same := From(items, at, at(items[0])); same != [] && same[0] == items[0]
  {
  }

  lemma SameEmpty<T(!new)>(a: seq<T>, b: seq<T>, at: T -> nat)
    requires SameByTime(a, b, at)
    ensures a == [] <==> b == []
  {
    if a != [] {
      assert From(a, at, at(a[0])) != [];
    }
    if b != [] {
      assert From(b, at, at(b[0])) != [];
    }
  }

  lemma FirstByTime<T(!new)>(a: seq<T>, b: seq<T>, at: T -> nat)
    requires Sorted(a, at) && Sorted(b, at) && SameByTime(a, b, at) && a != [] && b != []
    ensures a[0] == b[0]
  {
    assert From(a, at, at(a[0])) == From(b, at, at(a[0]));
    assert From(a, at, at(b[0])) == From(b, at, at(b[0]));
    HeadFrom(a, at);
    HeadFrom(b, at);
    NonemptyFrom(b, at, at(a[0]));
    NonemptyFrom(a, at, at(b[0]));
  }

  lemma TailByTime<T(!new)>(a: seq<T>, b: seq<T>, at: T -> nat)
    requires SameByTime(a, b, at) && a != [] && b != [] && a[0] == b[0]
    ensures SameByTime(a[1..], b[1..], at)
  {
    forall time
      ensures From(a[1..], at, time) == From(b[1..], at, time)
    {
      TailFrom(a, at, time);
      TailFrom(b, at, time);
      assert From(a, at, time) == From(b, at, time);
    }
  }

  lemma TailFrom<T(!new)>(items: seq<T>, at: T -> nat, time: nat)
    requires items != []
    ensures From(items[1..], at, time)
         == if at(items[0]) == time then From(items, at, time)[1..] else From(items, at, time)
  {
  }

  lemma {:induction false} NonemptyFrom<T(!new)>(items: seq<T>, at: T -> nat, time: nat)
    requires Sorted(items, at) && From(items, at, time) != []
    ensures items != [] && at(items[0]) >= time
  {
    if at(items[0]) < time {
      NonemptyFrom(items[1..], at, time);
    }
  }
}
