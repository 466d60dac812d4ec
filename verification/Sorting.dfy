/**
 The stable sort used wherever the pool ranks addresses.

 Every comparator in the payout code is lexicographic over a few numbers, so a
 ranked item carries its comparator as four keys, smallest first (a descending
 key is stored negated), and beside them the satoshis being ranked.
 */
module Sorting {

  datatype Keyed = Keyed(item: string, k0: real, k1: real, k2: real, k3: real, sats: int)

  predicate Leq(a: Keyed, b: Keyed)
  {
    a.k0 < b.k0 || (a.k0 == b.k0 &&
    (a.k1 < b.k1 || (a.k1 == b.k1 &&
    (a.k2 < b.k2 || (a.k2 == b.k2 && a.k3 <= b.k3)))))
  }

  ghost predicate Sorted(s: seq<Keyed>)
  {
    forall i, j :: 0 <= i < j < |s| ==> Leq(s[i], s[j])
  }

  function Insert(x: Keyed, s: seq<Keyed>): seq<Keyed>
  {
    if s == [] || Leq(x, s[0]) then [x] + s else [s[0]] + Insert(x, s[1..])
  }

  function Sort(s: seq<Keyed>): seq<Keyed>
  {
    if s == [] then [] else Insert(s[0], Sort(s[1..]))
  }

  lemma {:induction false} InsertKeepsBag(x: Keyed, s: seq<Keyed>)
    ensures |Insert(x, s)| == |s| + 1
    ensures multiset(Insert(x, s)) == multiset(s) + multiset{x}
  {
    if s == [] || Leq(x, s[0]) {
    } else {
      InsertKeepsBag(x, s[1..]);
      assert s == [s[0]] + s[1..];
    }
  }

  lemma {:induction false} SortKeepsBag(s: seq<Keyed>)
    ensures |Sort(s)| == |s|
    ensures multiset(Sort(s)) == multiset(s)
  {
    if s != [] {
      SortKeepsBag(s[1..]);
      InsertKeepsBag(s[0], Sort(s[1..]));
      assert s == [s[0]] + s[1..];
    }
  }

  lemma {:induction false} InsertKeepsOrder(x: Keyed, s: seq<Keyed>)
    requires Sorted(s)
    ensures Sorted(Insert(x, s))
  {
    if s == [] || Leq(x, s[0]) {
    } else {
      InsertKeepsOrder(x, s[1..]);
      InsertKeepsBag(x, s[1..]);
      var r := Insert(x, s[1..]);
      forall j | 0 <= j < |r|
        ensures Leq(s[0], r[j])
      {
        assert r[j] in multiset(r);
        assert multiset(r) == multiset(s[1..]) + multiset{x};
        assert r[j] == x || r[j] in s[1..];
      }
    }
  }

  lemma {:induction false} SortSorts(s: seq<Keyed>)
    ensures Sorted(Sort(s))
  {
    if s != [] {
      SortSorts(s[1..]);
      InsertKeepsOrder(s[0], Sort(s[1..]));
    }
  }

  function Items(s: seq<Keyed>): (r: seq<string>)
    ensures |r| == |s|
    ensures forall i :: 0 <= i < |s| ==> r[i] == s[i].item
  {
    if s == [] then [] else [s[0].item] + Items(s[1..])
  }

  lemma {:induction false} InsertKeepsItems(x: Keyed, s: seq<Keyed>)
    ensures multiset(Items(Insert(x, s))) == multiset(Items(s)) + multiset{x.item}
  {
    if s == [] || Leq(x, s[0]) {
      assert ([x] + s)[1..] == s;
    } else {
      InsertKeepsItems(x, s[1..]);
      var rest := Insert(x, s[1..]);
      assert ([s[0]] + rest)[1..] == rest;
    }
  }

  /** Sorting lists the same items, each as often as before. */
  lemma {:induction false} SortKeepsItems(s: seq<Keyed>)
    ensures multiset(Items(Sort(s))) == multiset(Items(s))
  {
    if s != [] {
      SortKeepsItems(s[1..]);
      InsertKeepsItems(s[0], Sort(s[1..]));
    }
  }
}
