/**
 Largest-remainder apportionment of whole satoshis
 (src/ORM/payout-snapshot/payout-distribution.ts, `allocateIntegerSats`).

 Weights are exact reals. `collate` stands for the position `localeCompare` gives
 an address; it need not tell every two addresses apart.
 */
module LargestRemainder {
  import opened Sequences
  import opened Sorting

  datatype Target = Target(item: string, weight: real)

  type Collation = string -> real

  function Get(m: map<string, int>, a: string): int
  {
    if a in m then m[a] else 0
  }

  function Sum(items: seq<string>, m: map<string, int>): int
  {
    if items == [] then 0 else Get(m, items[0]) + Sum(items[1..], m)
  }

  function Names(ts: seq<Target>): (r: seq<string>)
    ensures |r| == |ts|
    ensures forall i :: 0 <= i < |ts| ==> r[i] == ts[i].item
  {
    if ts == [] then [] else [ts[0].item] + Names(ts[1..])
  }

  function WeightSum(ts: seq<Target>): real
  {
    if ts == [] then 0.0
    else (if ts[0].weight > 0.0 then ts[0].weight else 0.0) + WeightSum(ts[1..])
  }

  // ---- quota of one target ----

  function Quota(weight: real, amount: int, total: real): real
    requires total > 0.0
  {
    weight * (amount as real) / total
  }

  /** Within less than a satoshi of the share of `amount` that `part` has in `whole`. */
  predicate NearShare(sats: int, part: real, whole: real, amount: int)
    requires whole > 0.0
  {
    part * amount as real / whole - 1.0 < sats as real < part * amount as real / whole + 1.0
  }

  lemma QuotaIsShare(sats: int, weight: real, amount: int, total: real)
    requires total > 0.0
    ensures NearShare(sats, weight, total, amount)
      <==> Quota(weight, amount, total) - 1.0 < sats as real < Quota(weight, amount, total) + 1.0
  {
  }

  function Whole(weight: real, amount: int, total: real): int
    requires total > 0.0
  {
    Quota(weight, amount, total).Floor
  }

  function Fraction(weight: real, amount: int, total: real): (f: real)
    requires total > 0.0
    ensures 0.0 <= f < 1.0
  {
    Quota(weight, amount, total) - Whole(weight, amount, total) as real
  }

  /** The comparator of the residual pass: fraction and weight descending, then address. */
  function KeyOf(t: Target, amount: int, total: real, collate: Collation): Keyed
    requires total > 0.0
  {
    Keyed(t.item, -Fraction(t.weight, amount, total), -t.weight, collate(t.item), 0.0,
      Whole(t.weight, amount, total))
  }

  function Keys(ts: seq<Target>, amount: int, total: real, collate: Collation): seq<Keyed>
    requires total > 0.0
  {
    if ts == [] then []
    else if ts[0].weight > 0.0
    then [KeyOf(ts[0], amount, total, collate)] + Keys(ts[1..], amount, total, collate)
    else Keys(ts[1..], amount, total, collate)
  }

  function WholeSum(ks: seq<Keyed>): int
  {
    if ks == [] then 0 else ks[0].sats + WholeSum(ks[1..])
  }

  /** Whole quotas in ranked order, with one extra satoshi for the first `residual`. */
  function Shares(ks: seq<Keyed>, residual: int): map<string, int>
  {
    if ks == [] then map[]
    else Shares(ks[1..], residual - 1)[ks[0].item := ks[0].sats + (if residual > 0 then 1 else 0)]
  }

  function Ranked(ts: seq<Target>, amount: int, total: real, collate: Collation): seq<Keyed>
    requires total > 0.0
  {
    Sort(Keys(ts, amount, total, collate))
  }

  function Residual(ts: seq<Target>, amount: int, total: real, collate: Collation): int
    requires total > 0.0
  {
    amount - WholeSum(Ranked(ts, amount, total, collate))
  }

  function Allocate(ts: seq<Target>, amount: int, total: real, collate: Collation): map<string, int>
  {
    if amount <= 0 || total <= 0.0 then map[]
    else Shares(Ranked(ts, amount, total, collate), Residual(ts, amount, total, collate))
  }

  // ---- sums do not depend on the order of ranking ----

  lemma {:induction false} InsertKeepsWholeSum(x: Keyed, s: seq<Keyed>)
    ensures WholeSum(Insert(x, s)) == x.sats + WholeSum(s)
  {
    if s == [] || Leq(x, s[0]) {
      assert ([x] + s)[1..] == s;
    } else {
      InsertKeepsWholeSum(x, s[1..]);
      var rest := Insert(x, s[1..]);
      assert ([s[0]] + rest)[1..] == rest;
    }
  }

  lemma {:induction false} SortKeepsWholeSum(s: seq<Keyed>)
    ensures WholeSum(Sort(s)) == WholeSum(s)
  {
    if s != [] {
      SortKeepsWholeSum(s[1..]);
      InsertKeepsWholeSum(s[0], Sort(s[1..]));
    }
  }

  lemma {:induction false} InsertKeepsSum(x: Keyed, s: seq<Keyed>, m: map<string, int>)
    ensures Sum(Items(Insert(x, s)), m) == Get(m, x.item) + Sum(Items(s), m)
  {
    if s == [] || Leq(x, s[0]) {
      assert ([x] + s)[1..] == s;
      assert ([x.item] + Items(s))[1..] == Items(s);
    } else {
      InsertKeepsSum(x, s[1..], m);
      var rest := Insert(x, s[1..]);
      assert ([s[0]] + rest)[1..] == rest;
      assert ([s[0].item] + Items(rest))[1..] == Items(rest);
      assert ([s[0].item] + Items(s[1..]))[1..] == Items(s[1..]);
    }
  }

  lemma {:induction false} SortKeepsSum(s: seq<Keyed>, m: map<string, int>)
    ensures Sum(Items(Sort(s)), m) == Sum(Items(s), m)
  {
    if s != [] {
      SortKeepsSum(s[1..], m);
      InsertKeepsSum(s[0], Sort(s[1..]), m);
      assert ([s[0].item] + Items(s[1..]))[1..] == Items(s[1..]);
    }
  }

  // ---- what the ranked keys hold ----

  ghost predicate KeyFrom(k: Keyed, amount: int, total: real, collate: Collation)
    requires total > 0.0
  {
    -k.k1 > 0.0 && k == KeyOf(Target(k.item, -k.k1), amount, total, collate)
  }

  ghost predicate KeysFrom(ks: seq<Keyed>, amount: int, total: real, collate: Collation)
    requires total > 0.0
  {
    forall i :: 0 <= i < |ks| ==> KeyFrom(ks[i], amount, total, collate)
  }

  lemma {:induction false} KeysAreFrom(ts: seq<Target>, amount: int, total: real, collate: Collation)
    requires total > 0.0
    ensures KeysFrom(Keys(ts, amount, total, collate), amount, total, collate)
  {
    if ts != [] {
      KeysAreFrom(ts[1..], amount, total, collate);
      if ts[0].weight > 0.0 {
        assert Target(ts[0].item, ts[0].weight) == ts[0];
        assert KeyFrom(KeyOf(ts[0], amount, total, collate), amount, total, collate);
      }
    }
  }

  lemma {:induction false} KeysComeFromTargets(ts: seq<Target>, amount: int, total: real, collate: Collation, k: Keyed)
    requires total > 0.0
    requires k in Keys(ts, amount, total, collate)
    ensures Target(k.item, -k.k1) in ts
  {
    if ts[0].weight > 0.0 && k == KeyOf(ts[0], amount, total, collate) {
      assert Target(k.item, -k.k1) == ts[0];
    } else {
      KeysComeFromTargets(ts[1..], amount, total, collate, k);
    }
  }

  lemma {:induction false} PositiveTargetsHaveKeys(
      ts: seq<Target>, amount: int, total: real, collate: Collation, t: Target)
    requires total > 0.0
    requires t in ts && t.weight > 0.0
    ensures KeyOf(t, amount, total, collate) in Keys(ts, amount, total, collate)
  {
    if t != ts[0] {
      PositiveTargetsHaveKeys(ts[1..], amount, total, collate, t);
    }
  }

  lemma {:induction false} KeysAreDistinct(ts: seq<Target>, amount: int, total: real, collate: Collation)
    requires total > 0.0
    requires Distinct(Names(ts))
    ensures Distinct(Items(Keys(ts, amount, total, collate)))
  {
    if ts != [] {
      var rest := Keys(ts[1..], amount, total, collate);
      assert Names(ts)[1..] == Names(ts[1..]);
      KeysAreDistinct(ts[1..], amount, total, collate);
      if ts[0].weight > 0.0 {
        forall i | 0 <= i < |rest| ensures Items(rest)[i] != ts[0].item {
          KeysComeFromTargets(ts[1..], amount, total, collate, rest[i]);
          var j :| 0 <= j < |ts[1..]| && ts[1..][j] == Target(rest[i].item, -rest[i].k1);
          assert Names(ts)[j + 1] == rest[i].item;
        }
        var ks := [KeyOf(ts[0], amount, total, collate)] + rest;
        assert ks[1..] == rest;
        assert Items(ks) == [ts[0].item] + Items(rest);
      }
    }
  }

  lemma RankedAreFrom(ts: seq<Target>, amount: int, total: real, collate: Collation)
    requires total > 0.0
    ensures Sorted(Ranked(ts, amount, total, collate))
    ensures KeysFrom(Ranked(ts, amount, total, collate), amount, total, collate)
  {
    var keys := Keys(ts, amount, total, collate);
    var ks := Sort(keys);
    KeysAreFrom(ts, amount, total, collate);
    SortSorts(keys);
    forall i | 0 <= i < |ks| ensures KeyFrom(ks[i], amount, total, collate) {
      SortKeepsMember(keys, ks[i]);
    }
  }

  lemma RankedAreDistinct(ts: seq<Target>, amount: int, total: real, collate: Collation)
    requires total > 0.0
    requires Distinct(Names(ts))
    ensures Distinct(Items(Ranked(ts, amount, total, collate)))
  {
    var keys := Keys(ts, amount, total, collate);
    KeysAreDistinct(ts, amount, total, collate);
    SortKeepsItems(keys);
    DistinctBag(Items(keys), Items(Sort(keys)));
  }

  lemma SortKeepsMember(s: seq<Keyed>, k: Keyed)
    ensures k in s <==> k in Sort(s)
  {
    SortKeepsBag(s);
    assert k in s <==> k in multiset(s);
    assert k in Sort(s) <==> k in multiset(Sort(s));
  }

  // ---- the residual is exactly covered by one pass over the fractions ----

  function FractionSum(ks: seq<Keyed>): real
  {
    if ks == [] then 0.0 else -ks[0].k0 + FractionSum(ks[1..])
  }

  function KeyWeights(ks: seq<Keyed>): real
  {
    if ks == [] then 0.0 else -ks[0].k1 + KeyWeights(ks[1..])
  }

  lemma QuotaAdds(x: real, y: real, amount: int, total: real)
    requires total > 0.0
    ensures Quota(x + y, amount, total) == Quota(x, amount, total) + Quota(y, amount, total)
  {
  }

  lemma WholeQuota(amount: int, total: real)
    requires total > 0.0
    ensures Quota(total, amount, total) == amount as real
  {
  }

  lemma QuotaIsMonotone(x: real, y: real, amount: int, total: real)
    requires total > 0.0 && amount > 0
    requires x > y
    ensures Quota(x, amount, total) > Quota(y, amount, total)
  {
    var a := amount as real;
    assert x * a > y * a;
    DivideKeepsOrder(x * a, y * a, total);
  }

  lemma DivideKeepsOrder(x: real, y: real, d: real)
    requires d > 0.0 && x > y
    ensures x / d > y / d
  {
    assert (x - y) / d > 0.0;
  }

  lemma {:induction false} KeysSplitTheirQuota(ks: seq<Keyed>, amount: int, total: real, collate: Collation)
    requires total > 0.0
    requires KeysFrom(ks, amount, total, collate)
    ensures WholeSum(ks) as real + FractionSum(ks) == Quota(KeyWeights(ks), amount, total)
  {
    if ks != [] {
      assert KeyFrom(ks[0], amount, total, collate);
      KeysSplitTheirQuota(ks[1..], amount, total, collate);
      QuotaAdds(-ks[0].k1, KeyWeights(ks[1..]), amount, total);
    }
  }

  lemma {:induction false} InsertKeepsWeights(x: Keyed, s: seq<Keyed>)
    ensures KeyWeights(Insert(x, s)) == -x.k1 + KeyWeights(s)
  {
    if s == [] || Leq(x, s[0]) {
      assert ([x] + s)[1..] == s;
    } else {
      InsertKeepsWeights(x, s[1..]);
      var rest := Insert(x, s[1..]);
      assert ([s[0]] + rest)[1..] == rest;
    }
  }

  lemma {:induction false} SortKeepsWeights(s: seq<Keyed>)
    ensures KeyWeights(Sort(s)) == KeyWeights(s)
  {
    if s != [] {
      SortKeepsWeights(s[1..]);
      InsertKeepsWeights(s[0], Sort(s[1..]));
    }
  }

  lemma {:induction false} KeysWeighAsTargets(ts: seq<Target>, amount: int, total: real, collate: Collation)
    requires total > 0.0
    ensures KeyWeights(Keys(ts, amount, total, collate)) == WeightSum(ts)
  {
    if ts != [] {
      KeysWeighAsTargets(ts[1..], amount, total, collate);
      var rest := Keys(ts[1..], amount, total, collate);
      assert ([KeyOf(ts[0], amount, total, collate)] + rest)[1..] == rest;
    }
  }

  /** Fractions sorted in descending order: their sum bounds how many are positive. */
  lemma {:induction false} FractionsCover(ks: seq<Keyed>, n: int)
    requires Sorted(ks)
    requires forall i :: 0 <= i < |ks| ==> 0.0 <= -ks[i].k0 < 1.0
    requires FractionSum(ks) == n as real
    ensures 0 <= n <= |ks|
    ensures forall i :: 0 <= i < n ==> -ks[i].k0 > 0.0
  {
    FractionSumBounds(ks);
    if i :| 0 <= i < n && -ks[i].k0 <= 0.0 {
      FractionSumSplits(ks, i);
      FractionSumBounds(ks[..i]);
      forall j | 0 <= j < |ks[i..]| ensures -ks[i..][j].k0 == 0.0 {
        if j > 0 { assert Leq(ks[i], ks[i + j]); }
      }
      FractionSumZero(ks[i..]);
      assert false;
    }
  }

  lemma {:induction false} FractionSumBounds(ks: seq<Keyed>)
    requires forall i :: 0 <= i < |ks| ==> 0.0 <= -ks[i].k0 < 1.0
    ensures 0.0 <= FractionSum(ks) <= |ks| as real
    ensures ks != [] ==> FractionSum(ks) < |ks| as real
  {
    if ks != [] { FractionSumBounds(ks[1..]); }
  }

  lemma {:induction false} FractionSumZero(ks: seq<Keyed>)
    requires forall i :: 0 <= i < |ks| ==> -ks[i].k0 == 0.0
    ensures FractionSum(ks) == 0.0
  {
    if ks != [] { FractionSumZero(ks[1..]); }
  }

  lemma {:induction false} FractionSumSplits(ks: seq<Keyed>, i: nat)
    requires i <= |ks|
    ensures FractionSum(ks) == FractionSum(ks[..i]) + FractionSum(ks[i..])
  {
    if i == 0 {
      assert ks[0..] == ks;
    } else {
      FractionSumSplits(ks[1..], i - 1);
      assert ks[..i][1..] == ks[1..][..i-1];
      assert ks[1..][i-1..] == ks[i..];
    }
  }

  lemma ResidualIsFractions(ts: seq<Target>, amount: int, total: real, collate: Collation)
    requires total > 0.0
    requires total == WeightSum(ts)
    ensures FractionSum(Ranked(ts, amount, total, collate)) == Residual(ts, amount, total, collate) as real
  {
    RankedAreFrom(ts, amount, total, collate);
    KeysSplitTheirQuota(Ranked(ts, amount, total, collate), amount, total, collate);
    SortKeepsWeights(Keys(ts, amount, total, collate));
    KeysWeighAsTargets(ts, amount, total, collate);
    WholeQuota(amount, total);
  }

  lemma KeyFraction(ks: seq<Keyed>, amount: int, total: real, collate: Collation)
    requires total > 0.0
    requires KeysFrom(ks, amount, total, collate)
    ensures forall i :: 0 <= i < |ks| ==>
      0.0 <= -ks[i].k0 < 1.0 && -ks[i].k0 == Fraction(-ks[i].k1, amount, total)
  {
    forall i | 0 <= i < |ks|
      ensures 0.0 <= -ks[i].k0 < 1.0 && -ks[i].k0 == Fraction(-ks[i].k1, amount, total)
    {
      assert KeyFrom(ks[i], amount, total, collate);
    }
  }

  /** With the total equal to the positive weights, the residual never outlasts one pass,
      and reaches only targets whose quota is not whole. */
  lemma ResidualFits(ts: seq<Target>, amount: int, total: real, collate: Collation)
    requires amount > 0 && total > 0.0
    requires total == WeightSum(ts)
    ensures var ks := Ranked(ts, amount, total, collate);
      var r := Residual(ts, amount, total, collate);
      && 0 <= r <= |ks|
      && forall i :: 0 <= i < r ==> Fraction(-ks[i].k1, amount, total) > 0.0
  {
    var ks := Ranked(ts, amount, total, collate);
    RankedAreFrom(ts, amount, total, collate);
    KeyFraction(ks, amount, total, collate);
    ResidualIsFractions(ts, amount, total, collate);
    FractionsCover(ks, Residual(ts, amount, total, collate));
  }

  // ---- what each target receives ----

  lemma {:induction false} ShareAt(ks: seq<Keyed>, residual: int, i: nat)
    requires i < |ks|
    requires Distinct(Items(ks))
    ensures Get(Shares(ks, residual), ks[i].item) == ks[i].sats + (if i < residual then 1 else 0)
  {
    if i > 0 {
      assert Items(ks)[1..] == Items(ks[1..]);
      ShareAt(ks[1..], residual - 1, i - 1);
      assert Items(ks)[0] != Items(ks)[i];
    }
  }

  lemma {:induction false} SharesCover(ks: seq<Keyed>, residual: int)
    ensures Shares(ks, residual).Keys == set k | k in ks :: k.item
  {
    if ks != [] {
      SharesCover(ks[1..], residual - 1);
      assert ks == [ks[0]] + ks[1..];
    }
  }

  lemma {:induction false} SumFrame(items: seq<string>, m: map<string, int>, a: string, v: int)
    requires a !in items
    ensures Sum(items, m[a := v]) == Sum(items, m)
  {
    if items != [] {
      SumFrame(items[1..], m, a, v);
    }
  }

  lemma {:induction false} ShareSum(ks: seq<Keyed>, residual: int)
    requires Distinct(Items(ks))
    requires residual <= |ks|
    ensures Sum(Items(ks), Shares(ks, residual)) == WholeSum(ks) + (if residual > 0 then residual else 0)
  {
    if ks != [] {
      var rest := Shares(ks[1..], residual - 1);
      assert Items(ks)[1..] == Items(ks[1..]);
      ShareSum(ks[1..], residual - 1);
      assert ks[0].item !in Items(ks[1..]) by {
        forall j | 0 <= j < |ks[1..]| ensures Items(ks[1..])[j] != ks[0].item {
          assert Items(ks)[0] != Items(ks)[j + 1];
        }
      }
      SumFrame(Items(ks[1..]), rest, ks[0].item, Get(Shares(ks, residual), ks[0].item));
    }
  }

  /** Targets of no positive weight add nothing to the allocated sum. */
  lemma {:induction false} SumOverKeys(
      ts: seq<Target>, amount: int, total: real, collate: Collation, m: map<string, int>)
    requires total > 0.0
    requires forall t :: t in ts && t.weight <= 0.0 ==> Get(m, t.item) == 0
    ensures Sum(Names(ts), m) == Sum(Items(Keys(ts, amount, total, collate)), m)
  {
    if ts != [] {
      SumOverKeys(ts[1..], amount, total, collate, m);
      var rest := Keys(ts[1..], amount, total, collate);
      assert Names(ts)[1..] == Names(ts[1..]);
      if ts[0].weight > 0.0 {
        assert ([KeyOf(ts[0], amount, total, collate)] + rest)[1..] == rest;
        assert ([ts[0].item] + Items(rest))[1..] == Items(rest);
      }
    }
  }

  /** Only positive targets are in the result at all. */
  lemma AllocatedNames(ts: seq<Target>, amount: int, total: real, collate: Collation, a: string)
    requires a in Allocate(ts, amount, total, collate)
    ensures a in Names(ts)
  {
    var ks := Ranked(ts, amount, total, collate);
    SharesCover(ks, Residual(ts, amount, total, collate));
    var k :| k in ks && k.item == a;
    SortKeepsMember(Keys(ts, amount, total, collate), k);
    KeysComeFromTargets(ts, amount, total, collate, k);
    NameListed(ts, Target(k.item, -k.k1));
  }

  // ---- sums over lists of names ----

  lemma {:induction false} SumZero(items: seq<string>, m: map<string, int>)
    requires forall a :: a in items ==> Get(m, a) == 0
    ensures Sum(items, m) == 0
  {
    if items != [] { SumZero(items[1..], m); }
  }

  lemma {:induction false} SumNonNegative(items: seq<string>, m: map<string, int>)
    requires forall a :: a in items ==> Get(m, a) >= 0
    ensures Sum(items, m) >= 0
  {
    if items != [] { SumNonNegative(items[1..], m); }
  }

  lemma {:induction false} SumAgree(items: seq<string>, m: map<string, int>, n: map<string, int>)
    requires forall a :: a in items ==> Get(m, a) == Get(n, a)
    ensures Sum(items, m) == Sum(items, n)
  {
    if items != [] { SumAgree(items[1..], m, n); }
  }

  lemma {:induction false} SumAdd(items: seq<string>, m: map<string, int>, n: map<string, int>, p: map<string, int>)
    requires forall a :: a in items ==> Get(p, a) == Get(m, a) + Get(n, a)
    ensures Sum(items, p) == Sum(items, m) + Sum(items, n)
  {
    if items != [] { SumAdd(items[1..], m, n, p); }
  }

  lemma {:induction false} SumRemove(items: seq<string>, i: nat, m: map<string, int>)
    requires i < |items|
    ensures Sum(items, m) == Get(m, items[i]) + Sum(items[..i] + items[i+1..], m)
  {
    if i == 0 {
      assert items[..0] + items[1..] == items[1..];
    } else {
      SumRemove(items[1..], i - 1, m);
      var rest := items[..i] + items[i+1..];
      assert rest[1..] == items[1..][..i-1] + items[1..][i..];
    }
  }

  lemma SomeName(items: seq<string>) returns (a: string)
    requires items != []
    ensures a in items
  {
    a := items[0];
  }

  /** Two duplicate-free lists of the same names have the same sum. */
  lemma {:induction false} SumOfSameNames(s: seq<string>, t: seq<string>, m: map<string, int>)
    requires Distinct(s) && Distinct(t)
    requires forall a :: a in s <==> a in t
    ensures Sum(s, m) == Sum(t, m)
  {
    if s == [] {
      if t != [] {
        var a := SomeName(t);
        assert false;
      }
    } else {
      assert s[0] in s;
      var i :| 0 <= i < |t| && t[i] == s[0];
      var rest := t[..i] + t[i+1..];
      SumRemove(t, i, m);
      forall a ensures a in s[1..] <==> a in rest {
        if a in s[1..] { assert a in s; assert a != s[0]; var j :| 0 <= j < |t| && t[j] == a; assert j != i; }
        if a in rest { assert a in t; assert a != s[0]; assert a in s; }
      }
      SumOfSameNames(s[1..], rest, m);
    }
  }

  // ---- main results ----

  /** Nothing is lost and nothing is invented: the allocations add up to the amount. */
  lemma AllocationIsExact(ts: seq<Target>, amount: int, total: real, collate: Collation)
    requires Distinct(Names(ts))
    requires total == WeightSum(ts)
    ensures Sum(Names(ts), Allocate(ts, amount, total, collate))
         == if amount > 0 && total > 0.0 then amount else 0
  {
    var m := Allocate(ts, amount, total, collate);
    if amount <= 0 || total <= 0.0 {
      SumZero(Names(ts), m);
    } else {
      var keys := Keys(ts, amount, total, collate);
      var ks := Ranked(ts, amount, total, collate);
      var r := Residual(ts, amount, total, collate);
      RankedAreDistinct(ts, amount, total, collate);
      ResidualFits(ts, amount, total, collate);
      ShareSum(ks, r);
      forall t | t in ts && t.weight <= 0.0 ensures Get(m, t.item) == 0 {
        OnlyPositiveReceive(ts, amount, total, collate, t);
      }
      SumOverKeys(ts, amount, total, collate, m);
      SortKeepsSum(keys, m);
    }
  }

  lemma {:induction false} KeysArePositive(ts: seq<Target>, amount: int, total: real, collate: Collation, k: Keyed)
    requires total > 0.0
    requires k in Keys(ts, amount, total, collate)
    ensures -k.k1 > 0.0
  {
    if k in Keys(ts[1..], amount, total, collate) {
      KeysArePositive(ts[1..], amount, total, collate, k);
    }
  }

  lemma OneTargetPerName(ts: seq<Target>, t: Target, u: Target)
    requires Distinct(Names(ts))
    requires t in ts && u in ts && t.item == u.item
    ensures t == u
  {
    var i :| 0 <= i < |ts| && ts[i] == t;
    var j :| 0 <= j < |ts| && ts[j] == u;
    var names := Names(ts);
    assert names[i] == t.item && names[j] == u.item;
    assert i == j;
  }

  lemma OnlyPositiveReceive(ts: seq<Target>, amount: int, total: real, collate: Collation, t: Target)
    requires Distinct(Names(ts))
    requires amount > 0 && total > 0.0
    requires t in ts && t.weight <= 0.0
    ensures t.item !in Allocate(ts, amount, total, collate)
  {
    var ks := Ranked(ts, amount, total, collate);
    SharesCover(ks, Residual(ts, amount, total, collate));
    if k :| k in ks && k.item == t.item {
      SortKeepsMember(Keys(ts, amount, total, collate), k);
      KeysComeFromTargets(ts, amount, total, collate, k);
      KeysArePositive(ts, amount, total, collate, k);
      OneTargetPerName(ts, t, Target(k.item, -k.k1));
      assert false;
    }
  }

  /** The rank at which a positive target stands in the residual pass. */
  lemma RankOf(ts: seq<Target>, amount: int, total: real, collate: Collation, t: Target) returns (i: nat)
    requires Distinct(Names(ts))
    requires amount > 0 && total > 0.0
    requires t in ts && t.weight > 0.0
    ensures var ks := Ranked(ts, amount, total, collate);
      && i < |ks|
      && ks[i] == KeyOf(t, amount, total, collate)
      && Get(Allocate(ts, amount, total, collate), t.item)
         == Whole(t.weight, amount, total) + (if i < Residual(ts, amount, total, collate) then 1 else 0)
  {
    var ks := Ranked(ts, amount, total, collate);
    RankedAreDistinct(ts, amount, total, collate);
    PositiveTargetsHaveKeys(ts, amount, total, collate, t);
    SortKeepsMember(Keys(ts, amount, total, collate), KeyOf(t, amount, total, collate));
    i :| 0 <= i < |ks| && ks[i] == KeyOf(t, amount, total, collate);
    ShareAt(ks, Residual(ts, amount, total, collate), i);
  }

  /** The quota rule: every target gets its exact quota rounded down or up. */
  lemma AllocationStaysInQuota(ts: seq<Target>, amount: int, total: real, collate: Collation, t: Target)
    requires Distinct(Names(ts))
    requires amount > 0 && total > 0.0 && total == WeightSum(ts)
    requires t in ts && t.weight > 0.0
    ensures var got := Get(Allocate(ts, amount, total, collate), t.item);
      var quota := Quota(t.weight, amount, total);
      && quota - 1.0 < got as real < quota + 1.0
      && (got == quota.Floor || got == quota.Floor + 1)
      && got >= 0
  {
    var i := RankOf(ts, amount, total, collate, t);
    ResidualFits(ts, amount, total, collate);
    QuotaIsMonotone(t.weight, 0.0, amount, total);
  }

  /** A larger weight never receives less than a smaller one. */
  lemma AllocationIsMonotone(ts: seq<Target>, amount: int, total: real, collate: Collation, t: Target, u: Target)
    requires Distinct(Names(ts))
    requires amount > 0 && total > 0.0
    requires t in ts && u in ts && t.weight > u.weight > 0.0
    ensures Get(Allocate(ts, amount, total, collate), t.item) >= Get(Allocate(ts, amount, total, collate), u.item)
  {
    var i := RankOf(ts, amount, total, collate, t);
    var j := RankOf(ts, amount, total, collate, u);
    RankedAreFrom(ts, amount, total, collate);
    var qt, qu := Quota(t.weight, amount, total), Quota(u.weight, amount, total);
    QuotaIsMonotone(t.weight, u.weight, amount, total);
    if qt.Floor == qu.Floor && j <= i {
      var ks := Ranked(ts, amount, total, collate);
      assert i != j;
      assert Leq(ks[j], ks[i]);
    }
  }

  /** The extra satoshi goes by fraction, then weight, then address order. */
  lemma ExtraGoesByRank(ts: seq<Target>, amount: int, total: real, collate: Collation, t: Target, u: Target)
    requires Distinct(Names(ts))
    requires amount > 0 && total > 0.0
    requires t in ts && u in ts && t.weight > 0.0 && u.weight > 0.0
    requires Get(Allocate(ts, amount, total, collate), t.item) > Whole(t.weight, amount, total)
    requires Get(Allocate(ts, amount, total, collate), u.item) == Whole(u.weight, amount, total)
    ensures Leq(KeyOf(t, amount, total, collate), KeyOf(u, amount, total, collate))
  {
    var i := RankOf(ts, amount, total, collate, t);
    var j := RankOf(ts, amount, total, collate, u);
    RankedAreFrom(ts, amount, total, collate);
  }

  /** An allocation read off its defining properties alone, with no ranking or sorting. */
  ghost predicate IsApportionment(ts: seq<Target>, amount: int, total: real, collate: Collation, m: map<string, int>)
    requires total > 0.0
  {
    && Sum(Names(ts), m) == amount
    && (forall t :: t in ts && t.weight <= 0.0 ==> Get(m, t.item) == 0)
    && (forall t :: t in ts && t.weight > 0.0 ==> 0 <= Get(m, t.item) - Whole(t.weight, amount, total) <= 1)
    && (forall t, u :: t in ts && u in ts && t.weight > 0.0 && u.weight > 0.0
          && Get(m, t.item) > Whole(t.weight, amount, total) && Get(m, u.item) == Whole(u.weight, amount, total)
          ==> Leq(KeyOf(t, amount, total, collate), KeyOf(u, amount, total, collate)))
  }

  lemma {:induction false} NoGainWithoutLoss(ts: seq<Target>, m: map<string, int>, n: map<string, int>, x: Target)
    requires x in ts && Get(m, x.item) > Get(n, x.item)
    requires Sum(Names(ts), m) <= Sum(Names(ts), n)
    ensures exists y :: y in ts && Get(m, y.item) < Get(n, y.item)
  {
    if Get(m, ts[0].item) < Get(n, ts[0].item) {
      assert ts[0] in ts;
    } else {
      assert Names(ts)[1..] == Names(ts[1..]);
      if x in ts[1..] {
        NoGainWithoutLoss(ts[1..], m, n, x);
      } else {
        LossBehindDeficit(ts[1..], m, n);
      }
      var y :| y in ts[1..] && Get(m, y.item) < Get(n, y.item);
      assert y in ts;
    }
  }

  lemma {:induction false} LossBehindDeficit(ts: seq<Target>, m: map<string, int>, n: map<string, int>)
    requires Sum(Names(ts), m) < Sum(Names(ts), n)
    ensures exists y :: y in ts && Get(m, y.item) < Get(n, y.item)
  {
    if Get(m, ts[0].item) < Get(n, ts[0].item) {
      assert ts[0] in ts;
    } else {
      assert Names(ts)[1..] == Names(ts[1..]);
      LossBehindDeficit(ts[1..], m, n);
      var y :| y in ts[1..] && Get(m, y.item) < Get(n, y.item);
      assert y in ts;
    }
  }

  lemma AllocationIsApportionment(ts: seq<Target>, amount: int, total: real, collate: Collation)
    requires Distinct(Names(ts))
    requires amount > 0 && total > 0.0 && total == WeightSum(ts)
    ensures IsApportionment(ts, amount, total, collate, Allocate(ts, amount, total, collate))
  {
    var m := Allocate(ts, amount, total, collate);
    AllocationIsExact(ts, amount, total, collate);
    forall t | t in ts && t.weight <= 0.0 ensures Get(m, t.item) == 0 {
      OnlyPositiveReceive(ts, amount, total, collate, t);
    }
    forall t | t in ts && t.weight > 0.0
      ensures 0 <= Get(m, t.item) - Whole(t.weight, amount, total) <= 1
    {
      var i := RankOf(ts, amount, total, collate, t);
    }
    forall t, u | t in ts && u in ts && t.weight > 0.0 && u.weight > 0.0
          && Get(m, t.item) > Whole(t.weight, amount, total) && Get(m, u.item) == Whole(u.weight, amount, total)
      ensures Leq(KeyOf(t, amount, total, collate), KeyOf(u, amount, total, collate))
    {
      ExtraGoesByRank(ts, amount, total, collate, t, u);
    }
  }

  /** When address order tells the targets apart, those properties leave one allocation only. */
  lemma ApportionmentIsUnique(ts: seq<Target>, amount: int, total: real, collate: Collation,
                              m: map<string, int>, n: map<string, int>, t: Target)
    requires Distinct(Names(ts))
    requires total > 0.0
    requires forall a, b :: a in Names(ts) && b in Names(ts) && collate(a) == collate(b) ==> a == b
    requires IsApportionment(ts, amount, total, collate, m)
    requires IsApportionment(ts, amount, total, collate, n)
    requires t in ts
    ensures Get(m, t.item) <= Get(n, t.item)
  {
    if Get(m, t.item) > Get(n, t.item) {
      NoGainWithoutLoss(ts, m, n, t);
      var u :| u in ts && Get(m, u.item) < Get(n, u.item);
      assert Leq(KeyOf(t, amount, total, collate), KeyOf(u, amount, total, collate));
      assert Leq(KeyOf(u, amount, total, collate), KeyOf(t, amount, total, collate));
      NameListed(ts, t);
      NameListed(ts, u);
      assert false;
    }
  }

  lemma NameListed(ts: seq<Target>, t: Target)
    requires t in ts
    ensures t.item in Names(ts)
  {
    var i :| 0 <= i < |ts| && ts[i] == t;
    assert Names(ts)[i] == t.item;
  }

  // ---- the loops of allocateIntegerSats ----

  lemma {:induction false} KeysAppend(ts: seq<Target>, t: Target, amount: int, total: real, collate: Collation)
    requires total > 0.0
    ensures Keys(ts + [t], amount, total, collate)
         == Keys(ts, amount, total, collate)
            + (if t.weight > 0.0 then [KeyOf(t, amount, total, collate)] else [])
  {
    if ts == [] {
      assert [t][1..] == [];
    } else {
      assert (ts + [t])[1..] == ts[1..] + [t];
      KeysAppend(ts[1..], t, amount, total, collate);
    }
  }

  lemma {:induction false} WholeSumAppend(ks: seq<Keyed>, k: Keyed)
    ensures WholeSum(ks + [k]) == WholeSum(ks) + k.sats
  {
    if ks == [] {
      assert [k][1..] == [];
    } else {
      assert (ks + [k])[1..] == ks[1..] + [k];
      WholeSumAppend(ks[1..], k);
    }
  }

  /** `m` gives every ranked item its whole quota and one more to the first `extra`. */
  ghost predicate HandedOut(m: map<string, int>, ks: seq<Keyed>, extra: int)
  {
    && (m.Keys == set k | k in ks :: k.item)
    && forall i :: 0 <= i < |ks| ==> m[ks[i].item] == ks[i].sats + (if i < extra then 1 else 0)
  }

  lemma HandedOutAppend(m: map<string, int>, ks: seq<Keyed>, k: Keyed)
    requires HandedOut(m, ks, 0)
    requires forall x :: x in ks ==> x.item != k.item
    ensures HandedOut(m[k.item := k.sats], ks + [k], 0)
  {
    assert forall x :: x in ks + [k] <==> x in ks || x == k;
  }

  lemma HandedOutSort(m: map<string, int>, ks: seq<Keyed>)
    requires HandedOut(m, ks, 0)
    ensures HandedOut(m, Sort(ks), 0)
  {
    var s := Sort(ks);
    forall k ensures k in ks <==> k in s { SortKeepsMember(ks, k); }
    forall i | 0 <= i < |s| ensures m[s[i].item] == s[i].sats {
      assert s[i] in s;
      assert s[i] in ks;
      var j :| 0 <= j < |ks| && ks[j] == s[i];
    }
  }

  lemma HandedOutIsShares(m: map<string, int>, ks: seq<Keyed>, extra: int)
    requires Distinct(Items(ks))
    requires HandedOut(m, ks, extra)
    ensures m == Shares(ks, extra)
  {
    SharesCover(ks, extra);
    var spec := Shares(ks, extra);
    forall a | a in spec ensures m[a] == spec[a] {
      var k :| k in ks && k.item == a;
      var i :| 0 <= i < |ks| && ks[i] == k;
      ShareAt(ks, extra, i);
    }
  }

  lemma NewName(ts: seq<Target>, i: nat, amount: int, total: real, collate: Collation)
    requires Distinct(Names(ts)) && i < |ts| && total > 0.0
    ensures forall k :: k in Keys(ts[..i], amount, total, collate) ==> k.item != ts[i].item
  {
    forall k | k in Keys(ts[..i], amount, total, collate) ensures k.item != ts[i].item {
      KeysComeFromTargets(ts[..i], amount, total, collate, k);
      var j :| 0 <= j < i && ts[j] == Target(k.item, -k.k1);
      assert Names(ts)[j] != Names(ts)[i];
    }
  }

  /** First half of allocateIntegerSats: floor every positive quota. */
  method FloorQuotas(targets: seq<Target>, amountSats: int, totalWeight: real, collate: Collation)
    returns (result: map<string, int>, fractions: seq<Keyed>, handedOut: int)
    requires Distinct(Names(targets))
    requires totalWeight > 0.0
    ensures fractions == Keys(targets, amountSats, totalWeight, collate)
    ensures handedOut == WholeSum(fractions)
    ensures HandedOut(result, fractions, 0)
  {
    result, fractions, handedOut := map[], [], 0;
    for i := 0 to |targets|
      invariant fractions == Keys(targets[..i], amountSats, totalWeight, collate)
      invariant handedOut == WholeSum(fractions)
      invariant HandedOut(result, fractions, 0)
    {
      var target := targets[i];
      assert targets[..i + 1] == targets[..i] + [target];
      KeysAppend(targets[..i], target, amountSats, totalWeight, collate);
      if target.weight > 0.0 {
        var key := KeyOf(target, amountSats, totalWeight, collate);
        WholeSumAppend(fractions, key);
        NewName(targets, i, amountSats, totalWeight, collate);
        HandedOutAppend(result, fractions, key);
        handedOut := handedOut + key.sats;
        result := result[target.item := key.sats];
        fractions := fractions + [key];
      }
    }
    assert targets[..|targets|] == targets;
  }

  /** Second half: one extra satoshi each, in ranked order, until the residual is spent. */
  method HandOutResidual(wholes: map<string, int>, fractions: seq<Keyed>, residualSats: int)
    returns (result: map<string, int>)
    requires Distinct(Items(fractions))
    requires HandedOut(wholes, fractions, 0)
    ensures HandedOut(result, fractions, residualSats)
  {
    result := wholes;
    var residual := residualSats;
    var n := 0;
    while n < |fractions| && residual > 0
      invariant 0 <= n <= |fractions|
      invariant residual == residualSats - n
      invariant n > 0 ==> n <= residualSats
      invariant HandedOut(result, fractions, n)
    {
      var item := fractions[n].item;
      forall i | 0 <= i < |fractions| && i != n ensures fractions[i].item != item {
        assert Items(fractions)[i] != Items(fractions)[n];
      }
      result := result[item := result[item] + 1];
      residual := residual - 1;
      n := n + 1;
    }
  }

  method AllocateIntegerSats(targets: seq<Target>, amountSats: int, totalWeight: real, collate: Collation)
    returns (result: map<string, int>)
    requires Distinct(Names(targets))
    ensures result == Allocate(targets, amountSats, totalWeight, collate)
  {
    if amountSats <= 0 || totalWeight <= 0.0 {
      return map[];
    }
    var wholes, keys, handedOut := FloorQuotas(targets, amountSats, totalWeight, collate);
    var fractions := Sort(keys);
    SortKeepsWholeSum(keys);
    RankedAreDistinct(targets, amountSats, totalWeight, collate);
    HandedOutSort(wholes, keys);
    result := HandOutResidual(wholes, fractions, amountSats - handedOut);
    HandedOutIsShares(result, fractions, amountSats - handedOut);
  }
}
