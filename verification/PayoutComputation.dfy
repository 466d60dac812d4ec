/**
 The loops of `buildPayoutDistribution`, which fill a table of rows and then
 update its rows in place stage by stage
 (src/ORM/payout-snapshot/payout-distribution.ts). Each one is proved to compute
 the function of the same stage in PayoutDistribution.dfy or PayoutResult.dfy.
 */
module PayoutComputation {
  import opened Sequences
  import opened LargestRemainder
  import opened PayoutDistribution
  import opened PayoutResult

  class Computation {
    var order: seq<string>
    var rows: Rows
    const env: Env

    ghost predicate Valid()
      reads this
    {
      Table(order, rows)
    }

    constructor (env: Env, order: seq<string>, rows: Rows)
      requires Table(order, rows)
      ensures Valid()
      ensures this.env == env && this.order == order && this.rows == rows
    {
      this.env, this.order, this.rows := env, order, rows;
    }

    /** Pay each listed row its amount; the rest of its target stays on the balance. */
    method PayEach(items: seq<string>, sats: map<string, int>)
      requires Valid() && Distinct(items)
      requires forall a :: a in items ==> a in rows
      modifies this`rows
      ensures Valid()
      ensures rows == map a | a in old(rows) :: if a in items then old(rows)[a].Pay(Get(sats, a)) else old(rows)[a]
    {
      ghost var before := rows;
      for i := 0 to |items|
        invariant rows.Keys == before.Keys
        invariant forall a :: a in before ==>
          rows[a] == if a in items[..i] then before[a].Pay(Get(sats, a)) else before[a]
      {
        var a := items[i];
        rows := rows[a := rows[a].Pay(Get(sats, a))];
      }
    }

    /** Pay each listed row more, charged to its balance. */
    method PayMoreEach(items: seq<string>, extra: map<string, int>)
      requires Valid() && Distinct(items)
      requires forall a :: a in items ==> a in rows
      modifies this`rows
      ensures Valid()
      ensures rows == PayBonus(old(rows), items, extra)
    {
      ghost var before := rows;
      for i := 0 to |items|
        invariant rows.Keys == before.Keys
        invariant forall a :: a in before ==>
          rows[a] == if a in items[..i] then before[a].PayMore(Get(extra, a)) else before[a]
      {
        var a := items[i];
        rows := rows[a := rows[a].PayMore(Get(extra, a))];
      }
    }

    /** Nothing is owed: the reward goes out by work. */
    method PayByWork(minerRewardSats: int, totalWork: real)
      requires Valid() && Unpaid(rows)
      modifies this`rows
      ensures Valid()
      ensures rows == PayRows(old(rows),
        Allocate(Weighted(Select(Working, order, old(rows)), Works(old(rows))),
          minerRewardSats, totalWork, env.collate))
    {
      var activeRows := Select(Working, order, rows);
      SelectedRows(Working, order, rows);
      WeightedAre(activeRows, Works(rows));
      var allocations :=
        AllocateIntegerSats(Weighted(activeRows, Works(rows)), minerRewardSats, totalWork, env.collate);
      OnlyListedReceive(activeRows, Works(rows), minerRewardSats, totalWork, env.collate);
      PaidAsPlanned(rows, activeRows, allocations);
      PayEach(activeRows, allocations);
    }

    /** The reward covers what is owed: pay it, and spread the surplus by work. */
    method PayInFull(positiveTargets: seq<string>, surplus: int)
      requires Valid() && Unpaid(rows)
      requires positiveTargets == Select(Owed, order, rows)
      modifies this`rows
      ensures Valid()
      ensures var extra :=
          Apportion(Select(Working, positiveTargets, old(rows)), Works(old(rows)), surplus, env.collate);
        rows == PayRows(old(rows), map a | a in positiveTargets :: Get(Targets(old(rows)), a) + Get(extra, a))
    {
      ghost var before := rows;
      SelectedRows(Owed, order, rows);
      PayEach(positiveTargets, Targets(rows));
      ghost var paid := rows;
      var activeRows := Select(Working, positiveTargets, rows);
      SameChoice(positiveTargets, before, rows);
      SelectedRows(Working, positiveTargets, rows);
      SameWeights(activeRows, before, rows);
      var activeWeight := WeightedSum(activeRows, Works(rows));
      ghost var spec := Apportion(activeRows, Works(before), surplus, env.collate);
      OnlyListedReceive(activeRows, Works(before), surplus, activeWeight, env.collate);
      if surplus <= 0 {
        NoBonus(paid, activeRows);
        PaidWithExtra(before, paid, paid, positiveTargets, activeRows, spec);
        return;
      }
      WeightedAre(activeRows, Works(rows));
      var extra := AllocateIntegerSats(Weighted(activeRows, Works(rows)), surplus, activeWeight, env.collate);
      PayMoreEach(activeRows, extra);
      PaidWithExtra(before, paid, rows, positiveTargets, activeRows, spec);
    }

    /** More is owed than there is: share the reward in proportion to what is owed. */
    method PayCapped(positiveTargets: seq<string>, minerRewardSats: int, totalPositiveTarget: int)
      requires Valid() && Unpaid(rows)
      requires positiveTargets == Select(Owed, order, rows)
      modifies this`rows
      ensures Valid()
      ensures rows == PayRows(old(rows),
        Allocate(Weighted(positiveTargets, InReals(Targets(old(rows)))), minerRewardSats,
                 totalPositiveTarget as real, env.collate))
    {
      SelectedRows(Owed, order, rows);
      var weights := InReals(Targets(rows));
      WeightedAre(positiveTargets, weights);
      var capped := AllocateIntegerSats(
        Weighted(positiveTargets, weights), minerRewardSats, totalPositiveTarget as real, env.collate);
      OnlyListedReceive(positiveTargets, weights, minerRewardSats, totalPositiveTarget as real, env.collate);
      PaidAsPlanned(rows, positiveTargets, capped);
      PayEach(positiveTargets, capped);
    }

    method AllocatePayoutTargets(minerRewardSats: int, totalWork: real)
      requires Valid() && Unpaid(rows)
      modifies this`rows
      ensures Valid()
      ensures rows == PayRows(old(rows), Planned(order, old(rows), minerRewardSats, totalWork, env.collate))
    {
      var positiveTargets := Select(Owed, order, rows);
      var totalPositiveTarget := Sum(positiveTargets, Targets(rows));
      PlannedIs(order, rows, minerRewardSats, totalWork, env.collate);
      if totalPositiveTarget <= 0 {
        PayByWork(minerRewardSats, totalWork);
      } else if totalPositiveTarget <= minerRewardSats {
        PayInFull(positiveTargets, minerRewardSats - totalPositiveTarget);
      } else {
        PayCapped(positiveTargets, minerRewardSats, totalPositiveTarget);
      }
    }

    /** Walk the competing rows in rank order, placing each one that still fits. */
    method PlaceOutputs(eligible: seq<string>, baseWeight: int, effectiveBudget: int)
      requires Valid() && Distinct(eligible)
      requires forall a :: a in eligible ==> a in rows
      modifies this`rows
      ensures Valid()
      ensures rows == Placed(old(rows), eligible, Fit(eligible, baseWeight, effectiveBudget, env.weightOf))
    {
      ghost var before := rows;
      var usedWeight := baseWeight;
      for i := 0 to |eligible|
        invariant usedWeight == baseWeight
          + WeightOfAll(Fit(eligible[..i], baseWeight, effectiveBudget, env.weightOf), env.weightOf)
        invariant rows == Placed(before, eligible[..i], Fit(eligible[..i], baseWeight, effectiveBudget, env.weightOf))
      {
        var a := eligible[i];
        var row := rows[a];
        NextOf(eligible, i);
        PlacedNext(before, eligible[..i], a, baseWeight, effectiveBudget, env.weightOf);
        if usedWeight + env.weightOf(a) > effectiveBudget {
          rows := rows[a := row.(balanceAfter := row.TargetSats())];
        } else {
          rows := rows[a := row.(included := true, balanceAfter := row.TargetSats() - row.payout)];
          usedWeight := usedWeight + env.weightOf(a);
        }
      }
      assert eligible[..|eligible|] == eligible;
    }

    /** Take back the planned payout of every row that was not placed. */
    method ClearUnplaced()
      requires Valid()
      modifies this`rows
      ensures Valid()
      ensures rows == map a | a in old(rows) ::
        if !old(rows)[a].included && old(rows)[a].payout > 0 then old(rows)[a].Pay(0) else old(rows)[a]
    {
      ghost var before := rows;
      for i := 0 to |order|
        invariant rows.Keys == before.Keys
        invariant forall a :: a in before ==>
          rows[a] == if a in order[..i] && !before[a].included && before[a].payout > 0 then before[a].Pay(0)
                     else before[a]
      {
        var a := order[i];
        var row := rows[a];
        if !row.included && row.payout > 0 {
          rows := rows[a := row.(payout := 0, balanceAfter := row.TargetSats())];
        }
      }
      assert order[..|order|] == order;
    }

    method FitOutputs(minOutputSats: int, baseWeight: int, effectiveBudget: int)
      requires Valid()
      requires forall a :: a in rows ==> !rows[a].included
      modifies this`rows
      ensures Valid()
      ensures var ranked := Ranking(Select(Payable(minOutputSats), order, old(rows)), old(rows), env.collate);
        rows == FitRows(old(rows), Fit(ranked, baseWeight, effectiveBudget, env.weightOf))
    {
      ghost var before := rows;
      SelectedRows(Payable(minOutputSats), order, rows);
      RankingFacts(Select(Payable(minOutputSats), order, rows), rows, env.collate);
      var eligible := Ranking(Select(Payable(minOutputSats), order, rows), rows, env.collate);
      PlaceOutputs(eligible, baseWeight, effectiveBudget);
      ClearUnplaced();
      PlacedAndCleared(before, rows, eligible, Fit(eligible, baseWeight, effectiveBudget, env.weightOf));
    }

    method RedistributeUnfitMinerPayouts(minerRewardSats: int)
      requires Valid()
      modifies this`rows
      ensures Valid()
      ensures rows == Redistributed(order, old(rows), minerRewardSats, env.collate)
    {
      var remainder := minerRewardSats - Sum(Select(Included, order, rows), Payouts(rows));
      var keptActive := KeptWorkers(order, rows);
      var keptDifficulty := WeightedSum(keptActive, Works(rows));
      ghost var spec := Redistributed(order, rows, minerRewardSats, env.collate);
      RedistributedIs(order, rows, minerRewardSats, env.collate, keptActive, remainder, keptDifficulty);
      if remainder > 0 && keptDifficulty > 0.0 {
        PayKept(keptActive, remainder, keptDifficulty);
      }
      assert rows == spec;
    }

    method PayKept(keptActive: seq<string>, remainder: int, keptDifficulty: real)
      requires Valid() && keptActive == KeptWorkers(order, rows)
      modifies this`rows
      ensures Valid()
      ensures rows == PayBonus(old(rows), keptActive,
        Allocate(Weighted(keptActive, Works(old(rows))), remainder, keptDifficulty, env.collate))
    {
      KeptAre(order, rows);
      WeightedAre(keptActive, Works(rows));
      var bonus := AllocateIntegerSats(Weighted(keptActive, Works(rows)), remainder, keptDifficulty, env.collate);
      PayMoreEach(keptActive, bonus);
    }
  }

  /** The rows once the ranked ones had their turn. */
  function Placed(rows: Rows, ranked: seq<string>, fit: seq<string>): Rows
  {
    map a | a in rows ::
      if a in fit then rows[a].Pay(rows[a].payout).(included := true)
      else if a in ranked then rows[a].(balanceAfter := rows[a].TargetSats())
      else rows[a]
  }

  lemma NextOf(s: seq<string>, i: nat)
    requires Distinct(s) && i < |s|
    ensures s[..i + 1] == s[..i] + [s[i]] && s[i] !in s[..i]
  {
  }

  /** What one more row, in rank order, does to the rows placed and to the weight used. */
  lemma PlacedNext(
      rows: Rows, done: seq<string>, a: string, used: int, budget: int, weightOf: string -> nat)
    requires a in rows && a !in done
    ensures var fit, next := Fit(done, used, budget, weightOf), Fit(done + [a], used, budget, weightOf);
      var row, placed := rows[a], Placed(rows, done, fit);
      var weight := used + WeightOfAll(fit, weightOf);
      && placed[a] == row
      && if weight + weightOf(a) > budget
         then
           && used + WeightOfAll(next, weightOf) == weight
           && Placed(rows, done + [a], next) == placed[a := row.(balanceAfter := row.TargetSats())]
         else
           && used + WeightOfAll(next, weightOf) == weight + weightOf(a)
           && Placed(rows, done + [a], next)
             == placed[a := row.(included := true, balanceAfter := row.TargetSats() - row.payout)]
  {
    var fit := Fit(done, used, budget, weightOf);
    FitAppend(done, a, used, budget, weightOf);
    WeightAppend(fit, a, weightOf);
    if a in fit { FitMember(done, used, budget, weightOf, a); }
    PlacedOneMore(rows, done, fit, a);
  }

  lemma PlacedOneMore(rows: Rows, ranked: seq<string>, fit: seq<string>, a: string)
    requires a in rows && a !in ranked && a !in fit
    ensures var row, placed := rows[a], Placed(rows, ranked, fit);
      && placed[a] == row
      && Placed(rows, ranked + [a], fit) == placed[a := row.(balanceAfter := row.TargetSats())]
      && Placed(rows, ranked + [a], fit + [a]) == placed[a := row.Pay(row.payout).(included := true)]
  {
  }

  lemma PlacedAndCleared(before: Rows, after: Rows, ranked: seq<string>, fit: seq<string>)
    requires forall a :: a in before ==> !before[a].included
    requires forall a :: a in ranked ==> a in before && before[a].payout > 0
    requires var placed := Placed(before, ranked, fit);
      after == map a | a in placed ::
        if !placed[a].included && placed[a].payout > 0 then placed[a].Pay(0) else placed[a]
    ensures after == FitRows(before, fit)
  {
  }

  /** Paying the rows that receive something is paying every row as planned. */
  lemma PaidAsPlanned(rows: Rows, items: seq<string>, planned: map<string, int>)
    requires Unpaid(rows)
    requires forall a :: a in planned ==> a in items
    ensures PayRows(rows, planned)
         == map a | a in rows :: if a in items then rows[a].Pay(Get(planned, a)) else rows[a]
  {
  }

  lemma PlannedIs(order: seq<string>, rows: Rows, reward: int, totalWork: real, collate: Collation)
    ensures var owed := Select(Owed, order, rows);
      var total := Sum(owed, Targets(rows));
      Planned(order, rows, reward, totalWork, collate) ==
        if total <= 0 then Allocate(Weighted(Select(Working, order, rows), Works(rows)), reward, totalWork, collate)
        else if total <= reward then
          var extra := Apportion(Select(Working, owed, rows), Works(rows), reward - total, collate);
          map a | a in owed :: Get(Targets(rows), a) + Get(extra, a)
        else Allocate(Weighted(owed, InReals(Targets(rows))), reward, total as real, collate)
  {
  }

  lemma PaidWithExtra(
      before: Rows, paid: Rows, after: Rows, owed: seq<string>, active: seq<string>, extra: map<string, int>)
    requires Unpaid(before)
    requires forall a :: a in active ==> a in owed
    requires forall a :: a in extra ==> a in active
    requires paid == map a | a in before ::
      if a in owed then before[a].Pay(Get(Targets(before), a)) else before[a]
    requires after == PayBonus(paid, active, extra)
    ensures after == PayRows(before, map a | a in owed :: Get(Targets(before), a) + Get(extra, a))
  {
  }

  lemma RedistributedIs(order: seq<string>, rows: Rows, reward: int, collate: Collation,
                        kept: seq<string>, remainder: int, total: real)
    requires kept == KeptWorkers(order, rows) && total == WeightedSum(kept, Works(rows))
    requires remainder == reward - Sum(Select(Included, order, rows), Payouts(rows))
    ensures Redistributed(order, rows, reward, collate) ==
      if remainder > 0 && total > 0.0
      then PayBonus(rows, kept, Allocate(Weighted(kept, Works(rows)), remainder, total, collate))
      else rows
  {
    NoBonus(rows, kept);
  }

  lemma NoBonus(rows: Rows, kept: seq<string>)
    ensures PayBonus(rows, kept, map[]) == rows
  {
  }

  lemma SelectedRows(c: Choice, order: seq<string>, rows: Rows)
    requires Distinct(order)
    ensures Distinct(Select(c, order, rows))
    ensures forall a :: a in Select(c, order, rows) <==> a in order && a in rows && Chosen(c, rows[a])
  {
    SelectDistinct(c, order, rows);
    forall a ensures a in Select(c, order, rows) <==> a in order && a in rows && Chosen(c, rows[a]) {
      SelectMember(c, order, rows, a);
    }
  }

  lemma OnlyListedReceive(items: seq<string>, weights: map<string, real>, amount: int, total: real, collate: Collation)
    ensures forall a :: a in Allocate(Weighted(items, weights), amount, total, collate) ==> a in items
  {
    WeightedAre(items, weights);
    forall a | a in Allocate(Weighted(items, weights), amount, total, collate) ensures a in items {
      AllocatedNames(Weighted(items, weights), amount, total, collate, a);
    }
  }

  lemma {:induction false} SameChoice(items: seq<string>, rows: Rows, rows': Rows)
    requires forall a :: a in items ==> a in rows && a in rows' && rows[a].work == rows'[a].work
    ensures Select(Working, items, rows) == Select(Working, items, rows')
  {
    if items != [] { SameChoice(items[1..], rows, rows'); }
  }

  lemma {:induction false} SameWeights(items: seq<string>, rows: Rows, rows': Rows)
    requires forall a :: a in items ==> a in rows && a in rows' && rows[a].work == rows'[a].work
    ensures Weighted(items, Works(rows)) == Weighted(items, Works(rows'))
    ensures WeightedSum(items, Works(rows)) == WeightedSum(items, Works(rows'))
  {
    if items != [] { SameWeights(items[1..], rows, rows'); }
  }

  lemma {:induction false} WeightAppend(items: seq<string>, a: string, weightOf: string -> nat)
    ensures WeightOfAll(items + [a], weightOf) == WeightOfAll(items, weightOf) + weightOf(a)
  {
    if items == [] {
      assert [a][1..] == [];
    } else {
      assert (items + [a])[1..] == items[1..] + [a];
      WeightAppend(items[1..], a, weightOf);
    }
  }

  lemma {:induction false} FitAppend(ranked: seq<string>, a: string, used: int, budget: int, weightOf: string -> nat)
    ensures var fit := Fit(ranked, used, budget, weightOf);
      Fit(ranked + [a], used, budget, weightOf)
        == if used + WeightOfAll(fit, weightOf) + weightOf(a) > budget then fit else fit + [a]
  {
    if ranked == [] {
      assert [] + [a] == [a];
      assert [a][1..] == [];
    } else {
      assert (ranked + [a])[1..] == ranked[1..] + [a];
      var u := if used + weightOf(ranked[0]) > budget then used else used + weightOf(ranked[0]);
      FitAppend(ranked[1..], a, u, budget, weightOf);
      var rest := Fit(ranked[1..], u, budget, weightOf);
      assert ([ranked[0]] + rest)[1..] == rest;
      assert [ranked[0]] + rest + [a] == [ranked[0]] + (rest + [a]);
    }
  }

  // ---- the input tables ----

  method SumWorkByAddress(addressWork: seq<Work>) returns (workByAddress: Dict<real>)
    ensures workByAddress == WorkTable(addressWork)
  {
    workByAddress := Dict([], map[]);
    for i := 0 to |addressWork|
      invariant workByAddress == WorkTable(addressWork[..i])
    {
      var work := addressWork[i];
      assert addressWork[..i + 1][..i] == addressWork[..i];
      if work.address == "" || work.credited <= 0.0 {
        continue;
      }
      var existing := if work.address in workByAddress.values then workByAddress.values[work.address] else 0.0;
      workByAddress := workByAddress.Put(work.address, existing + work.credited);
    }
    assert addressWork[..|addressWork|] == addressWork;
  }

  method IndexBalances(balances: seq<Balance>) returns (balanceByAddress: Dict<int>)
    ensures balanceByAddress == BalanceTable(balances)
  {
    balanceByAddress := Dict([], map[]);
    for i := 0 to |balances|
      invariant balanceByAddress == BalanceTable(balances[..i])
    {
      var balance := balances[i];
      assert balances[..i + 1][..i] == balances[..i];
      if balance.address != "" && balance.sats != 0 {
        balanceByAddress := balanceByAddress.Put(balance.address, balance.sats);
      }
    }
    assert balances[..|balances|] == balances;
  }

  method BuildRows(order: seq<string>, work: map<string, real>, balances: map<string, int>, fair: map<string, int>)
    returns (rows: Rows)
    requires Distinct(order)
    requires forall a :: a in order <==> a in work || a in balances
    ensures rows == map a | a in work.Keys + balances.Keys ::
      FirstRow(Weight(work, a), Get(fair, a), Get(balances, a))
  {
    rows := map[];
    for i := 0 to |order|
      invariant forall a :: a in rows <==> a in order[..i]
      invariant forall a :: a in rows ==> rows[a] == FirstRow(Weight(work, a), Get(fair, a), Get(balances, a))
    {
      var a := order[i];
      rows := rows[a := FirstRow(Weight(work, a), Get(fair, a), Get(balances, a))];
    }
  }

  /** The filled row table, before anything is planned. */
  method FillTable(input: Input, env: Env) returns (c: Computation)
    requires !Worthless(input)
    ensures fresh(c) && c.Valid() && c.env == env
    ensures c.order == Order(input) && c.rows == InitialRows(input, env)
  {
    var workByAddress := SumWorkByAddress(input.addressWork);
    var balanceByAddress := IndexBalances(input.balances);
    WorkTableValid(input.addressWork);
    var totalWork := WeightedSum(workByAddress.order, workByAddress.values);
    WeightedAre(workByAddress.order, workByAddress.values);
    var fair := AllocateIntegerSats(
      Weighted(workByAddress.order, workByAddress.values), MinerReward(input), totalWork, env.collate);
    InitialTable(input, env);
    assert forall a :: a in Order(input) <==> a in workByAddress.values || a in balanceByAddress.values;
    var rows := BuildRows(Order(input), workByAddress.values, balanceByAddress.values, fair);
    c := new Computation(env, Order(input), rows);
  }

  /** The three mutation stages, one after the other. */
  method RunStages(c: Computation, input: Input, env: Env)
    requires c.Valid() && c.env == env
    requires c.order == Order(input) && c.rows == InitialRows(input, env)
    modifies c`rows
    ensures c.Valid() && c.order == Order(input) && c.rows == FinalRows(input, env)
  {
    InitialTable(input, env);
    c.AllocatePayoutTargets(MinerReward(input), TotalWork(input));
    PlannedRowsFacts(input, env);
    c.FitOutputs(MinOutputSats(input), BaseWeight(input, env), EffectiveBudget(input));
    c.RedistributeUnfitMinerPayouts(MinerReward(input));
  }

  method BuildPayoutDistribution(input: Input, env: Env) returns (result: Result)
    ensures result == Distribute(input, env)
  {
    var feeSats := FeeSats(input);
    if CoinbaseSats(input) <= 0 || TotalWork(input) <= 0.0 {
      return Result([], [], 0, 0, CoinbaseSats(input), feeSats);
    }
    var c := FillTable(input, env);
    RunStages(c, input, env);
    var names := Ranking(Select(Listed, c.order, c.rows), c.rows, env.collate);
    assert ToEntries(names, c.rows) == MinerEntries(input, env);
    var entries := Numbered(WithFee(ToEntries(names, c.rows), input.feeAddress, feeSats), 1);
    assert entries == Entries(input, env);
    var outputs := Outputs(entries);
    var distributed := PayoutTotal(outputs);
    result := Result(entries, outputs, |c.order|, distributed, CoinbaseSats(input) - distributed, feeSats);
  }
}
