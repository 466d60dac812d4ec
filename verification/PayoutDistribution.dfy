/**
 The split of one coinbase reward
 (src/ORM/payout-snapshot/payout-distribution.ts), stage by stage, as functions
 of the row table, and what every stage conserves.
 PayoutComputation.dfy holds the loops that update the rows in place.
 */
module PayoutDistribution {
  import opened Sequences
  import opened Sorting
  import opened LargestRemainder

  const DEFAULT_COINBASE_WEIGHT_BUDGET := 50_000
  const DUST_LIMIT_SATS := 546
  const COINBASE_BASE_WEIGHT := 328
  const COINBASE_WITNESS_COMMITMENT_WEIGHT := 188
  const BUDGET_SAFETY_MARGIN_WEIGHT := 200

  /** Address collation and the weight of an output paying an address. */
  datatype Env = Env(collate: Collation, weightOf: string -> nat)

  datatype Row = Row(
    work: real, fairSats: int, balanceBefore: int,
    payout: int, balanceAfter: int, included: bool)
  {
    function TargetSats(): int { fairSats + balanceBefore }

    /** Pay exactly `sats`; the rest of the target stays on the balance. */
    function Pay(sats: int): Row { this.(payout := sats, balanceAfter := TargetSats() - sats) }

    /** Pay `sats` on top, charged to the balance. */
    function PayMore(sats: int): Row { this.(payout := payout + sats, balanceAfter := balanceAfter - sats) }

    predicate Balanced() { payout + balanceAfter == fairSats + balanceBefore }
  }

  type Rows = map<string, Row>

  // ---- filters over the row table ----

  datatype Choice = Owed | Working | Included | Payable(minSats: int) | Listed

  predicate Chosen(c: Choice, r: Row)
  {
    match c
    case Owed => r.TargetSats() > 0
    case Working => r.work > 0.0
    case Included => r.included
    case Payable(minSats) => r.payout > 0 && (r.work > 0.0 || r.payout >= minSats)
    case Listed => r.included || r.balanceBefore != r.balanceAfter || r.balanceAfter != 0
  }

  function Select(c: Choice, order: seq<string>, rows: Rows): seq<string>
  {
    if order == [] then []
    else if order[0] in rows && Chosen(c, rows[order[0]])
    then [order[0]] + Select(c, order[1..], rows)
    else Select(c, order[1..], rows)
  }

  lemma {:induction false} SelectMember(c: Choice, order: seq<string>, rows: Rows, a: string)
    ensures a in Select(c, order, rows) <==> a in order && a in rows && Chosen(c, rows[a])
  {
    if order != [] { SelectMember(c, order[1..], rows, a); }
  }

  lemma {:induction false} SelectDistinct(c: Choice, order: seq<string>, rows: Rows)
    requires Distinct(order)
    ensures Distinct(Select(c, order, rows))
  {
    if order != [] {
      SelectDistinct(c, order[1..], rows);
      SelectMember(c, order[1..], rows, order[0]);
      assert forall i :: 0 <= i < |order[1..]| ==> order[1..][i] == order[i + 1];
    }
  }

  /** Summing over the chosen rows is summing over all rows, if the others contribute zero. */
  lemma {:induction false} SelectSum(c: Choice, order: seq<string>, rows: Rows, m: map<string, int>)
    requires forall a :: a in order && !(a in rows && Chosen(c, rows[a])) ==> Get(m, a) == 0
    ensures Sum(Select(c, order, rows), m) == Sum(order, m)
  {
    if order != [] {
      SelectSum(c, order[1..], rows, m);
      var rest := Select(c, order[1..], rows);
      assert ([order[0]] + rest)[1..] == rest;
    }
  }

  // ---- columns of the row table ----

  function Targets(rows: Rows): map<string, int> { map a | a in rows :: rows[a].TargetSats() }

  function Payouts(rows: Rows): map<string, int> { map a | a in rows :: rows[a].payout }

  function Fair(rows: Rows): map<string, int> { map a | a in rows :: rows[a].fairSats }

  function Works(rows: Rows): map<string, real> { map a | a in rows :: rows[a].work }

  function InReals(m: map<string, int>): map<string, real> { map a | a in m :: m[a] as real }

  // ---- weighted targets ----

  function Weight(weights: map<string, real>, a: string): real
  {
    if a in weights then weights[a] else 0.0
  }

  function Weighted(items: seq<string>, weights: map<string, real>): seq<Target>
  {
    if items == [] then [] else [Target(items[0], Weight(weights, items[0]))] + Weighted(items[1..], weights)
  }

  function WeightedSum(items: seq<string>, weights: map<string, real>): real
  {
    if items == [] then 0.0 else Weight(weights, items[0]) + WeightedSum(items[1..], weights)
  }

  lemma {:induction false} WeightedAre(items: seq<string>, weights: map<string, real>)
    ensures Names(Weighted(items, weights)) == items
    ensures (forall a :: a in items ==> Weight(weights, a) >= 0.0)
        ==> WeightSum(Weighted(items, weights)) == WeightedSum(items, weights)
  {
    if items != [] {
      WeightedAre(items[1..], weights);
      var rest := Weighted(items[1..], weights);
      assert ([Target(items[0], Weight(weights, items[0]))] + rest)[1..] == rest;
    }
  }

  lemma {:induction false} WeightedMember(items: seq<string>, weights: map<string, real>, a: string)
    requires a in items
    ensures Target(a, Weight(weights, a)) in Weighted(items, weights)
  {
    if a != items[0] { WeightedMember(items[1..], weights, a); }
  }

  lemma {:induction false} WeightedInReals(items: seq<string>, m: map<string, int>)
    ensures WeightedSum(items, InReals(m)) == Sum(items, m) as real
  {
    if items != [] { WeightedInReals(items[1..], m); }
  }

  lemma {:induction false} WeightedPositive(items: seq<string>, weights: map<string, real>)
    requires forall a :: a in items ==> Weight(weights, a) > 0.0
    ensures WeightedSum(items, weights) >= 0.0
    ensures items != [] ==> WeightedSum(items, weights) > 0.0
  {
    if items != [] { WeightedPositive(items[1..], weights); }
  }

  /** Apportion `amount` over `items` by weights that are all positive. */
  function Apportion(items: seq<string>, weights: map<string, real>, amount: int, collate: Collation): map<string, int>
  {
    Allocate(Weighted(items, weights), amount, WeightedSum(items, weights), collate)
  }

  /** The apportionment pays the whole amount out, to the listed rows only, and takes nothing from any. */
  lemma ApportionFacts(items: seq<string>, weights: map<string, real>, amount: int, collate: Collation)
    requires Distinct(items)
    requires forall a :: a in items ==> Weight(weights, a) > 0.0
    ensures var m := Apportion(items, weights, amount, collate);
      && (forall a :: a in m ==> a in items)
      && (forall a :: Get(m, a) >= 0)
      && Sum(items, m) == (if amount > 0 && items != [] then amount else 0)
  {
    var ts := Weighted(items, weights);
    var total := WeightedSum(items, weights);
    var m := Allocate(ts, amount, total, collate);
    WeightedAre(items, weights);
    WeightedPositive(items, weights);
    AllocationIsExact(ts, amount, total, collate);
    forall a | a in m ensures a in items && m[a] >= 0 {
      AllocatedNames(ts, amount, total, collate, a);
      WeightedMember(items, weights, a);
      AllocationStaysInQuota(ts, amount, total, collate, Target(a, Weight(weights, a)));
    }
  }

  // ---- stage 1: what each row should be paid ----

  function Planned(order: seq<string>, rows: Rows, reward: int, totalWork: real, collate: Collation): map<string, int>
  {
    var owed := Select(Owed, order, rows);
    var totalOwed := Sum(owed, Targets(rows));
    if totalOwed <= 0 then
      Allocate(Weighted(Select(Working, order, rows), Works(rows)), reward, totalWork, collate)
    else if totalOwed <= reward then
      var extra := Apportion(Select(Working, owed, rows), Works(rows), reward - totalOwed, collate);
      map a | a in owed :: Get(Targets(rows), a) + Get(extra, a)
    else
      Allocate(Weighted(owed, InReals(Targets(rows))), reward, totalOwed as real, collate)
  }

  function PayRows(rows: Rows, planned: map<string, int>): Rows
  {
    map a | a in rows :: rows[a].Pay(Get(planned, a))
  }

  // ---- stage 2: fit the outputs into the weight budget ----

  function RowKey(a: string, r: Row, collate: Collation): Keyed
  {
    Keyed(a, if r.included then 0.0 else 1.0, -(r.payout as real), -(r.TargetSats() as real), collate(a), r.payout)
  }

  function RowKeys(items: seq<string>, rows: Rows, collate: Collation): seq<Keyed>
  {
    if items == [] then []
    else (if items[0] in rows then [RowKey(items[0], rows[items[0]], collate)] else [])
         + RowKeys(items[1..], rows, collate)
  }

  /** Included rows first, then by payout, target (both descending) and address. */
  function Ranking(items: seq<string>, rows: Rows, collate: Collation): seq<string>
  {
    Items(Sort(RowKeys(items, rows, collate)))
  }

  /** The rows taken, in rank order: each one that still fits when its turn comes. */
  function Fit(ranked: seq<string>, used: int, budget: int, weightOf: string -> nat): seq<string>
  {
    if ranked == [] then []
    else if used + weightOf(ranked[0]) > budget then Fit(ranked[1..], used, budget, weightOf)
    else [ranked[0]] + Fit(ranked[1..], used + weightOf(ranked[0]), budget, weightOf)
  }

  function FitRows(rows: Rows, fit: seq<string>): Rows
  {
    map a | a in rows ::
      if a in fit then rows[a].Pay(rows[a].payout).(included := true)
      else if rows[a].payout > 0 then rows[a].Pay(0)
      else rows[a]
  }

  // ---- stage 3: what did not fit goes to the kept workers ----

  /** The included rows that have work of their own. */
  function KeptWorkers(order: seq<string>, rows: Rows): seq<string>
  {
    Select(Working, Select(Included, order, rows), rows)
  }

  function Bonus(order: seq<string>, rows: Rows, reward: int, collate: Collation): map<string, int>
  {
    var remainder := reward - Sum(Select(Included, order, rows), Payouts(rows));
    Apportion(KeptWorkers(order, rows), Works(rows), remainder, collate)
  }

  function PayBonus(rows: Rows, kept: seq<string>, bonus: map<string, int>): Rows
  {
    map a | a in rows :: if a in kept then rows[a].PayMore(Get(bonus, a)) else rows[a]
  }

  function Redistributed(order: seq<string>, rows: Rows, reward: int, collate: Collation): Rows
  {
    PayBonus(rows, KeptWorkers(order, rows), Bonus(order, rows, reward, collate))
  }

  // ---- the table invariants ----

  ghost predicate Table(order: seq<string>, rows: Rows)
  {
    && Distinct(order)
    && forall a :: a in order <==> a in rows
  }

  ghost predicate AllBalanced(rows: Rows)
  {
    forall a :: a in rows ==> rows[a].Balanced()
  }

  /** Rows as they are first built: nothing paid yet. */
  ghost predicate Unpaid(rows: Rows)
  {
    forall a :: a in rows ==> rows[a] == rows[a].Pay(0) && !rows[a].included
  }

  // ---- stage 1 facts ----

  lemma PlannedFacts(order: seq<string>, rows: Rows, reward: int, totalWork: real, collate: Collation)
    requires Table(order, rows)
    requires totalWork == WeightedSum(Select(Working, order, rows), Works(rows))
    ensures var p := Planned(order, rows, reward, totalWork, collate);
      && (forall a :: a in p ==> a in rows)
      && (forall a :: Get(p, a) >= 0)
      && Sum(order, p) <= (if reward > 0 then reward else 0)
  {
    var owed := Select(Owed, order, rows);
    var totalOwed := Sum(owed, Targets(rows));
    var p := Planned(order, rows, reward, totalWork, collate);
    forall a ensures a in owed <==> a in rows && Chosen(Owed, rows[a]) { SelectMember(Owed, order, rows, a); }
    SelectDistinct(Owed, order, rows);
    if totalOwed <= 0 {
      PlannedByWork(order, rows, reward, collate);
    } else if totalOwed <= reward {
      PlannedInFull(order, rows, owed, reward - totalOwed, collate);
      SelectSum(Owed, order, rows, p);
    } else {
      WeightedInReals(owed, Targets(rows));
      ApportionFacts(owed, InReals(Targets(rows)), reward, collate);
      SelectSum(Owed, order, rows, p);
    }
  }

  lemma PlannedByWork(order: seq<string>, rows: Rows, reward: int, collate: Collation)
    requires Table(order, rows)
    ensures var p := Apportion(Select(Working, order, rows), Works(rows), reward, collate);
      && (forall a :: a in p ==> a in rows)
      && (forall a :: Get(p, a) >= 0)
      && Sum(order, p) <= (if reward > 0 then reward else 0)
  {
    var active := Select(Working, order, rows);
    var p := Apportion(active, Works(rows), reward, collate);
    forall a ensures a in active <==> a in rows && Chosen(Working, rows[a]) { SelectMember(Working, order, rows, a); }
    SelectDistinct(Working, order, rows);
    ApportionFacts(active, Works(rows), reward, collate);
    SelectSum(Working, order, rows, p);
  }

  lemma PlannedInFull(order: seq<string>, rows: Rows, owed: seq<string>, surplus: int, collate: Collation)
    requires Table(order, rows)
    requires owed == Select(Owed, order, rows) && Distinct(owed)
    requires forall a :: a in owed <==> a in rows && Chosen(Owed, rows[a])
    ensures var extra := Apportion(Select(Working, owed, rows), Works(rows), surplus, collate);
      var p := map a | a in owed :: Get(Targets(rows), a) + Get(extra, a);
      && (forall a :: Get(p, a) >= 0)
      && Sum(owed, p) <= Sum(owed, Targets(rows)) + (if surplus > 0 then surplus else 0)
  {
    var active := Select(Working, owed, rows);
    var extra := Apportion(active, Works(rows), surplus, collate);
    forall a ensures a in active <==> a in owed && Chosen(Working, rows[a]) { SelectMember(Working, owed, rows, a); }
    SelectDistinct(Working, owed, rows);
    ApportionFacts(active, Works(rows), surplus, collate);
    SelectSum(Working, owed, rows, extra);
    var p := map a | a in owed :: Get(Targets(rows), a) + Get(extra, a);
    SumAdd(owed, Targets(rows), extra, p);
  }

  lemma ApportionQuota(items: seq<string>, weights: map<string, real>, amount: int, collate: Collation, a: string)
    requires Distinct(items) && a in items && amount > 0
    requires forall b :: b in items ==> Weight(weights, b) > 0.0
    ensures WeightedSum(items, weights) > 0.0
    ensures var quota := Quota(Weight(weights, a), amount, WeightedSum(items, weights));
      quota - 1.0 < Get(Apportion(items, weights, amount, collate), a) as real < quota + 1.0
  {
    WeightedAre(items, weights);
    WeightedPositive(items, weights);
    WeightedMember(items, weights, a);
    AllocationStaysInQuota(Weighted(items, weights), amount, WeightedSum(items, weights), collate,
                           Target(a, Weight(weights, a)));
  }

  /** When the reward covers all that is owed, no row keeps a positive balance, and
      a row without work of its own is paid exactly what it is owed. */
  lemma CoveredIsPaidInFull(order: seq<string>, rows: Rows, reward: int, totalWork: real, collate: Collation, a: string)
    requires Table(order, rows) && a in rows
    requires 0 < Sum(Select(Owed, order, rows), Targets(rows)) <= reward
    ensures var r := PayRows(rows, Planned(order, rows, reward, totalWork, collate))[a];
      && r.balanceAfter <= 0
      && (r.work <= 0.0 ==> r.payout == if r.TargetSats() > 0 then r.TargetSats() else 0)
  {
    var owed := Select(Owed, order, rows);
    var active := Select(Working, owed, rows);
    SelectMember(Owed, order, rows, a);
    SelectDistinct(Owed, order, rows);
    SelectDistinct(Working, owed, rows);
    forall b ensures b in active <==> b in owed && b in rows && Chosen(Working, rows[b]) {
      SelectMember(Working, owed, rows, b);
    }
    ApportionFacts(active, Works(rows), reward - Sum(owed, Targets(rows)), collate);
  }

  /** When it does not, the whole reward is paid, each row in proportion to what it is
      owed, and none beyond it. */
  lemma ShortIsShared(order: seq<string>, rows: Rows, reward: int, totalWork: real, collate: Collation, a: string)
    requires Table(order, rows) && a in rows
    requires 0 < reward < Sum(Select(Owed, order, rows), Targets(rows))
    ensures var p := Planned(order, rows, reward, totalWork, collate);
      var owed := Sum(Select(Owed, order, rows), Targets(rows));
      var r := PayRows(rows, p)[a];
      && Sum(order, p) == reward
      && (r.TargetSats() <= 0 ==> r.payout == 0)
      && (r.TargetSats() > 0 ==>
            var quota := Quota(r.TargetSats() as real, reward, owed as real);
            0 <= r.payout <= r.TargetSats() && quota - 1.0 < r.payout as real < quota + 1.0)
  {
    var owed := Select(Owed, order, rows);
    var p := Planned(order, rows, reward, totalWork, collate);
    WeightedInReals(owed, Targets(rows));
    OwedShares(order, rows, reward, collate);
    SelectMember(Owed, order, rows, a);
    if rows[a].TargetSats() > 0 {
      OwedShare(order, rows, reward, collate, a);
    }
  }

  lemma OwedShares(order: seq<string>, rows: Rows, reward: int, collate: Collation)
    requires Table(order, rows) && reward > 0
    ensures var owed := Select(Owed, order, rows);
      var p := Apportion(owed, InReals(Targets(rows)), reward, collate);
      && Distinct(owed)
      && (forall b :: b in owed <==> b in rows && rows[b].TargetSats() > 0)
      && (forall b :: b in p ==> b in owed)
      && (owed != [] ==> Sum(order, p) == reward)
  {
    var owed := Select(Owed, order, rows);
    forall b ensures b in owed <==> b in rows && Chosen(Owed, rows[b]) { SelectMember(Owed, order, rows, b); }
    SelectDistinct(Owed, order, rows);
    ApportionFacts(owed, InReals(Targets(rows)), reward, collate);
    SelectSum(Owed, order, rows, Apportion(owed, InReals(Targets(rows)), reward, collate));
  }

  lemma OwedShare(order: seq<string>, rows: Rows, reward: int, collate: Collation, a: string)
    requires Table(order, rows) && a in rows && rows[a].TargetSats() > 0
    requires 0 < reward < Sum(Select(Owed, order, rows), Targets(rows))
    ensures var owed := Select(Owed, order, rows);
      var got := Get(Apportion(owed, InReals(Targets(rows)), reward, collate), a);
      var quota := Quota(rows[a].TargetSats() as real, reward, Sum(owed, Targets(rows)) as real);
      0 <= got <= rows[a].TargetSats() && quota - 1.0 < got as real < quota + 1.0
  {
    var owed := Select(Owed, order, rows);
    var weights := InReals(Targets(rows));
    OwedShares(order, rows, reward, collate);
    WeightedInReals(owed, Targets(rows));
    ApportionFacts(owed, weights, reward, collate);
    ApportionQuota(owed, weights, reward, collate, a);
    PartIsLess(rows[a].TargetSats() as real, reward, Sum(owed, Targets(rows)) as real);
  }

  lemma PartIsLess(weight: real, amount: int, total: real)
    requires weight > 0.0 && 0 < amount && amount as real < total
    ensures Quota(weight, amount, total) < weight
  {
    var a := amount as real;
    assert weight * a < weight * total;
    DivideKeepsOrder(weight * total, weight * a, total);
    assert weight * total / total == weight;
  }

  /** When nothing is owed to anybody, the reward goes to the working rows by their work. */
  lemma NothingOwedPaysWork(order: seq<string>, rows: Rows, reward: int, totalWork: real, collate: Collation, a: string)
    requires Table(order, rows) && a in rows
    requires totalWork == WeightedSum(Select(Working, order, rows), Works(rows))
    requires reward > 0 && Sum(Select(Owed, order, rows), Targets(rows)) <= 0
    ensures var r := PayRows(rows, Planned(order, rows, reward, totalWork, collate))[a];
      && (r.work <= 0.0 ==> r.payout == 0)
      && (r.work > 0.0 ==> totalWork > 0.0)
      && (r.work > 0.0 ==>
            Quota(r.work, reward, totalWork) - 1.0 < r.payout as real < Quota(r.work, reward, totalWork) + 1.0)
  {
    var active := Select(Working, order, rows);
    forall b ensures b in active <==> b in rows && Chosen(Working, rows[b]) { SelectMember(Working, order, rows, b); }
    SelectDistinct(Working, order, rows);
    ApportionFacts(active, Works(rows), reward, collate);
    if rows[a].work > 0.0 { ApportionQuota(active, Works(rows), reward, collate, a); }
  }

  lemma PayRowsFacts(order: seq<string>, rows: Rows, planned: map<string, int>)
    requires forall a :: a in planned ==> a in rows
    ensures AllBalanced(PayRows(rows, planned))
    ensures Sum(order, Payouts(PayRows(rows, planned))) == Sum(order, planned)
  {
    SumAgree(order, Payouts(PayRows(rows, planned)), planned);
  }

  // ---- stage 2 facts ----

  lemma {:induction false} RowKeysAre(items: seq<string>, rows: Rows, collate: Collation)
    requires forall a :: a in items ==> a in rows
    ensures Items(RowKeys(items, rows, collate)) == items
    ensures forall k :: k in RowKeys(items, rows, collate) ==>
      k.item in rows && k == RowKey(k.item, rows[k.item], collate)
  {
    if items != [] {
      RowKeysAre(items[1..], rows, collate);
      var rest := RowKeys(items[1..], rows, collate);
      assert ([RowKey(items[0], rows[items[0]], collate)] + rest)[1..] == rest;
    }
  }

  /** Ranking reorders the rows, losing and repeating none, best rank first. */
  lemma RankingFacts(items: seq<string>, rows: Rows, collate: Collation)
    requires Distinct(items)
    requires forall a :: a in items ==> a in rows
    ensures var r := Ranking(items, rows, collate);
      && Distinct(r)
      && (forall a :: a in r <==> a in items)
      && forall i, j :: 0 <= i < j < |r| ==> Leq(RowKey(r[i], rows[r[i]], collate), RowKey(r[j], rows[r[j]], collate))
  {
    var keys := RowKeys(items, rows, collate);
    var sorted := Sort(keys);
    var r := Ranking(items, rows, collate);
    RowKeysAre(items, rows, collate);
    SortKeepsItems(keys);
    SortSorts(keys);
    DistinctBag(items, r);
    forall a ensures a in r <==> a in items {
      assert a in r <==> a in multiset(r);
      assert a in items <==> a in multiset(items);
    }
    forall i | 0 <= i < |r| ensures r[i] in rows && sorted[i] == RowKey(r[i], rows[r[i]], collate) {
      SortKeepsMember(keys, sorted[i]);
    }
  }

  lemma {:induction false} FitMember(ranked: seq<string>, used: int, budget: int, weightOf: string -> nat, a: string)
    requires a in Fit(ranked, used, budget, weightOf)
    ensures a in ranked
  {
    if used + weightOf(ranked[0]) > budget {
      FitMember(ranked[1..], used, budget, weightOf, a);
    } else if a != ranked[0] {
      FitMember(ranked[1..], used + weightOf(ranked[0]), budget, weightOf, a);
    }
  }

  lemma {:induction false} FitDistinct(ranked: seq<string>, used: int, budget: int, weightOf: string -> nat)
    requires Distinct(ranked)
    ensures Distinct(Fit(ranked, used, budget, weightOf))
  {
    if ranked != [] {
      assert forall i :: 0 <= i < |ranked[1..]| ==> ranked[1..][i] == ranked[i + 1];
      FitDistinct(ranked[1..], used, budget, weightOf);
      var u := used + weightOf(ranked[0]);
      FitDistinct(ranked[1..], u, budget, weightOf);
      if ranked[0] in Fit(ranked[1..], u, budget, weightOf) {
        FitMember(ranked[1..], u, budget, weightOf, ranked[0]);
      }
    }
  }

  function WeightOfAll(items: seq<string>, weightOf: string -> nat): nat
  {
    if items == [] then 0 else weightOf(items[0]) + WeightOfAll(items[1..], weightOf)
  }

  /** The rows taken fit the budget together. */
  lemma {:induction false} FitWithinBudget(ranked: seq<string>, used: int, budget: int, weightOf: string -> nat)
    ensures var fit := Fit(ranked, used, budget, weightOf);
      fit != [] ==> used + WeightOfAll(fit, weightOf) <= budget
  {
    if ranked != [] {
      if used + weightOf(ranked[0]) > budget {
        FitWithinBudget(ranked[1..], used, budget, weightOf);
      } else {
        var rest := Fit(ranked[1..], used + weightOf(ranked[0]), budget, weightOf);
        FitWithinBudget(ranked[1..], used + weightOf(ranked[0]), budget, weightOf);
        assert ([ranked[0]] + rest)[1..] == rest;
      }
    }
  }

  /** A row is taken exactly when it fits beside the rows taken before it in rank order. */
  lemma {:induction false} FitIsGreedy(ranked: seq<string>, used: int, budget: int, weightOf: string -> nat, i: nat)
    requires Distinct(ranked) && i < |ranked|
    ensures Fit(ranked[..i], used, budget, weightOf) <= Fit(ranked, used, budget, weightOf)
    ensures ranked[i] in Fit(ranked, used, budget, weightOf)
       <==> used + WeightOfAll(Fit(ranked[..i], used, budget, weightOf), weightOf) + weightOf(ranked[i]) <= budget
  {
    var rest := ranked[1..];
    assert forall k :: 0 <= k < |rest| ==> rest[k] == ranked[k + 1];
    var u := if used + weightOf(ranked[0]) > budget then used else used + weightOf(ranked[0]);
    if i == 0 {
      if ranked[0] in Fit(rest, u, budget, weightOf) {
        FitMember(rest, u, budget, weightOf, ranked[0]);
      }
    } else {
      FitIsGreedy(rest, u, budget, weightOf, i - 1);
      assert ranked[..i][1..] == rest[..i-1];
      var before := Fit(rest[..i-1], u, budget, weightOf);
      assert ([ranked[0]] + before)[1..] == before;
    }
  }

  /** What included rows are paid; pending rows count zero. */
  function PaidOut(rows: Rows): map<string, int>
  {
    map a | a in rows :: if rows[a].included then rows[a].payout else 0
  }

  lemma FitRowsFacts(order: seq<string>, rows: Rows, fit: seq<string>)
    requires Table(order, rows)
    requires AllBalanced(rows)
    requires forall a :: a in rows ==> rows[a].payout >= 0 && !rows[a].included
    ensures var r := FitRows(rows, fit);
      && Table(order, r)
      && AllBalanced(r)
      && (forall a :: a in r ==> r[a].payout >= 0)
      && (forall a :: a in r && !r[a].included ==> r[a].payout == 0)
      && Sum(order, PaidOut(r)) <= Sum(order, Payouts(rows))
  {
    FittedPayLess(order, rows, fit);
  }

  lemma FittedPayLess(order: seq<string>, rows: Rows, fit: seq<string>)
    requires forall a :: a in rows ==> rows[a].payout >= 0
    ensures Sum(order, PaidOut(FitRows(rows, fit))) <= Sum(order, Payouts(rows))
  {
    var r := FitRows(rows, fit);
    var dropped := map a | a in rows :: rows[a].payout - Get(PaidOut(r), a);
    SumAdd(order, PaidOut(r), dropped, Payouts(rows));
    SumNonNegative(order, dropped);
  }

  // ---- stage 3 facts ----

  lemma PaidOutIsIncluded(order: seq<string>, rows: Rows)
    requires Table(order, rows)
    ensures Sum(Select(Included, order, rows), Payouts(rows)) == Sum(order, PaidOut(rows))
  {
    var included := Select(Included, order, rows);
    forall a | a in included ensures Get(Payouts(rows), a) == Get(PaidOut(rows), a) {
      SelectMember(Included, order, rows, a);
    }
    SumAgree(included, Payouts(rows), PaidOut(rows));
    SelectSum(Included, order, rows, PaidOut(rows));
  }

  ghost predicate SomeWorkerIncluded(rows: Rows)
  {
    exists a :: a in rows && rows[a].included && rows[a].work > 0.0
  }

  /** Redistribution only adds to included rows that have work, charged to their balance. */
  ghost predicate OnlyRaises(before: Rows, after: Rows)
  {
    && before.Keys == after.Keys
    && forall a :: a in before ==>
      && after[a] == before[a].PayMore(after[a].payout - before[a].payout)
      && after[a].payout >= before[a].payout
      && (after[a] != before[a] ==> before[a].included && before[a].work > 0.0)
  }

  lemma BonusShares(order: seq<string>, rows: Rows, reward: int, collate: Collation)
    requires Table(order, rows)
    ensures var kept, bonus := KeptWorkers(order, rows), Bonus(order, rows, reward, collate);
      var remainder := reward - Sum(Select(Included, order, rows), Payouts(rows));
      && (forall a :: a in bonus ==> a in kept)
      && (forall a :: Get(bonus, a) >= 0)
      && Sum(kept, bonus) == (if remainder > 0 && kept != [] then remainder else 0)
  {
    KeptAre(order, rows);
    var remainder := reward - Sum(Select(Included, order, rows), Payouts(rows));
    ApportionFacts(KeptWorkers(order, rows), Works(rows), remainder, collate);
  }

  lemma BonusFacts(order: seq<string>, rows: Rows, reward: int, collate: Collation)
    requires Table(order, rows)
    ensures var bonus := Bonus(order, rows, reward, collate);
      var remainder := reward - Sum(order, PaidOut(rows));
      && (forall a :: a in bonus ==> a in KeptWorkers(order, rows))
      && (forall a :: Get(bonus, a) >= 0)
      && Sum(order, bonus) == (if remainder > 0 && SomeWorkerIncluded(rows) then remainder else 0)
  {
    var kept, bonus := KeptWorkers(order, rows), Bonus(order, rows, reward, collate);
    BonusShares(order, rows, reward, collate);
    PaidOutIsIncluded(order, rows);
    KeptAre(order, rows);
    SomeKept(kept, rows);
    SumOverKept(order, Select(Included, order, rows), kept, rows, bonus);
  }

  lemma BonusPaid(order: seq<string>, rows: Rows, kept: seq<string>, bonus: map<string, int>)
    requires Table(order, rows)
    requires forall a :: a in kept ==> a in rows && rows[a].included && rows[a].work > 0.0
    requires forall a :: a in bonus ==> a in kept
    requires forall a :: Get(bonus, a) >= 0
    ensures var r := PayBonus(rows, kept, bonus);
      && OnlyRaises(rows, r)
      && (AllBalanced(rows) ==> AllBalanced(r))
      && Sum(order, PaidOut(r)) == Sum(order, PaidOut(rows)) + Sum(order, bonus)
  {
    BonusRaises(rows, kept, bonus);
    SumAdd(order, PaidOut(rows), bonus, PaidOut(PayBonus(rows, kept, bonus)));
  }

  lemma BonusRaises(rows: Rows, kept: seq<string>, bonus: map<string, int>)
    requires forall a :: a in kept ==> a in rows && rows[a].included && rows[a].work > 0.0
    requires forall a :: a in bonus ==> a in kept
    requires forall a :: Get(bonus, a) >= 0
    ensures var r := PayBonus(rows, kept, bonus);
      && OnlyRaises(rows, r)
      && (AllBalanced(rows) ==> AllBalanced(r))
      && forall a :: Get(PaidOut(r), a) == Get(PaidOut(rows), a) + Get(bonus, a)
  {
  }

  lemma RedistributedFacts(order: seq<string>, rows: Rows, reward: int, collate: Collation)
    requires Table(order, rows)
    requires AllBalanced(rows)
    requires forall a :: a in rows ==> rows[a].payout >= 0
    requires Sum(order, PaidOut(rows)) <= (if reward > 0 then reward else 0)
    ensures var r := Redistributed(order, rows, reward, collate);
      && OnlyRaises(rows, r)
      && AllBalanced(r)
      && Sum(order, PaidOut(r)) ==
           (if SomeWorkerIncluded(rows) && reward > 0 then reward else Sum(order, PaidOut(rows)))
  {
    KeptAre(order, rows);
    BonusFacts(order, rows, reward, collate);
    SumNonNegative(order, PaidOut(rows));
    BonusPaid(order, rows, KeptWorkers(order, rows), Bonus(order, rows, reward, collate));
  }

  lemma KeptAre(order: seq<string>, rows: Rows)
    requires Table(order, rows)
    ensures var kept := KeptWorkers(order, rows);
      && Distinct(kept)
      && forall a :: a in kept <==> a in rows && rows[a].included && rows[a].work > 0.0
  {
    var included := Select(Included, order, rows);
    SelectDistinct(Included, order, rows);
    SelectDistinct(Working, included, rows);
    forall a ensures a in KeptWorkers(order, rows) <==> a in rows && rows[a].included && rows[a].work > 0.0 {
      SelectMember(Included, order, rows, a);
      SelectMember(Working, included, rows, a);
    }
  }

  lemma SomeKept(kept: seq<string>, rows: Rows)
    requires forall a :: a in kept <==> a in rows && rows[a].included && rows[a].work > 0.0
    ensures kept != [] <==> SomeWorkerIncluded(rows)
  {
    if kept != [] { assert kept[0] in kept; }
  }

  lemma SumOverKept(order: seq<string>, included: seq<string>, kept: seq<string>, rows: Rows, m: map<string, int>)
    requires included == Select(Included, order, rows) && kept == Select(Working, included, rows)
    requires forall a :: a in m ==> a in kept
    ensures Sum(order, m) == Sum(kept, m)
  {
    forall a | a in m ensures a in included && a in rows && Chosen(Included, rows[a]) && Chosen(Working, rows[a]) {
      SelectMember(Working, included, rows, a);
      SelectMember(Included, order, rows, a);
    }
    SelectSum(Working, included, rows, m);
    SelectSum(Included, order, rows, m);
  }
}
