/**
 The rules of the distribution in satoshis and weight units
 (src/ORM/payout-snapshot/payout-distribution.ts): who stands before whom, who may have an
 output, who is left out, and by what the leftovers are shared. Nothing here speaks of sort keys
 or of the constants' names.
 */
module PayoutRules {
  import opened Sequences
  import opened Sorting
  import opened LargestRemainder
  import opened PayoutDistribution
  import opened PayoutResult

  // ---- the order ----

  /** `x` may stand before `y`: included rows first; then the larger payout, the larger target,
      the smaller address. */
  predicate StandsBefore(a: string, x: Row, b: string, y: Row, collate: Collation)
  {
    if x.included != y.included then x.included
    else if x.payout != y.payout then x.payout > y.payout
    else if x.fairSats + x.balanceBefore != y.fairSats + y.balanceBefore
    then x.fairSats + x.balanceBefore > y.fairSats + y.balanceBefore
    else collate(a) <= collate(b)
  }

  lemma RankingOrder(items: seq<string>, rows: Rows, collate: Collation, i: nat, j: nat)
    requires Distinct(items) && forall a :: a in items ==> a in rows
    requires i < j < |Ranking(items, rows, collate)|
    ensures var r := Ranking(items, rows, collate);
      r[i] in rows && r[j] in rows && StandsBefore(r[i], rows[r[i]], r[j], rows[r[j]], collate)
  {
    RankingFacts(items, rows, collate);
    var r := Ranking(items, rows, collate);
    assert r[i] in items && r[j] in items;
    KeysOrder(r[i], rows[r[i]], r[j], rows[r[j]], collate);
  }

  lemma KeysOrder(a: string, x: Row, b: string, y: Row, collate: Collation)
    requires Leq(RowKey(a, x, collate), RowKey(b, y, collate))
    ensures StandsBefore(a, x, b, y, collate)
  {
  }

  // ---- who competes, and who is left out ----

  function AtLeast(low: int, sats: int): int { if sats > low then sats else low }

  /** Paid something, and either working or paid the minimum, which is never below 546. */
  predicate MayHaveOutput(input: Input, r: Row)
  {
    r.payout > 0 && (r.work > 0.0 || r.payout >= AtLeast(546, input.minOutput))
  }

  function Budget(input: Input): int
  {
    (if input.weightBudget > 0 then input.weightBudget else 50_000) - 200
  }

  function WeightWithFee(input: Input, env: Env): int
  {
    328 + 188 + (if FeeSats(input) > 0 then env.weightOf(input.feeAddress) else 0)
  }

  /** The rows ahead of one: each has an output and is planned at least as much; with them in
      the coinbase, one more output of this weight is over the budget. */
  ghost predicate CrowdedOut(input: Input, env: Env, a: string, ahead: seq<string>)
    requires a in PlannedRows(input, env)
  {
    && Distinct(ahead)
    && (forall b :: b in ahead ==>
          && b in FinalRows(input, env) && FinalRows(input, env)[b].included
          && b in PlannedRows(input, env) && PlannedRows(input, env)[b].payout >= PlannedRows(input, env)[a].payout)
    && WeightWithFee(input, env) + WeightOfAll(ahead, env.weightOf) + env.weightOf(a) > Budget(input)
  }

  lemma PlannedAndFinal(input: Input, env: Env, a: string)
    requires a in FinalRows(input, env)
    ensures a in PlannedRows(input, env)
  {
    PlannedRowsFacts(input, env);
    FinalRowsFacts(input, env);
    assert a in Order(input);
  }

  lemma WeightsAre(input: Input, env: Env)
    ensures BaseWeight(input, env) == WeightWithFee(input, env) && EffectiveBudget(input) == Budget(input)
  {
  }

  lemma EligibleMeans(input: Input, env: Env, a: string)
    ensures a in Eligible(input, env)
      <==> a in PlannedRows(input, env) && MayHaveOutput(input, PlannedRows(input, env)[a])
  {
    EligibleFacts(input, env);
  }

  lemma CrowdedOutAt(input: Input, env: Env, i: nat)
    requires i < |Eligible(input, env)| && Eligible(input, env)[i] in PlannedRows(input, env)
    requires Eligible(input, env)[i] in FinalRows(input, env)
    requires !FinalRows(input, env)[Eligible(input, env)[i]].included
    ensures CrowdedOut(input, env, Eligible(input, env)[i], Ahead(input, env, i))
  {
    AheadIsBetter(input, env, i);
    IncludedIffItFits(input, env, i);
    WeightsAre(input, env);
  }

  /** Only rows that may have an output get one; and such a row is left out only where better
      paid rows, or as well paid ones, have used up the weight. */
  lemma LeftOutOnlyByWeight(input: Input, env: Env, a: string) returns (ahead: seq<string>)
    requires a in FinalRows(input, env)
    ensures a in PlannedRows(input, env)
    ensures FinalRows(input, env)[a].included ==> MayHaveOutput(input, PlannedRows(input, env)[a])
    ensures !FinalRows(input, env)[a].included && MayHaveOutput(input, PlannedRows(input, env)[a]) ==>
      CrowdedOut(input, env, a, ahead)
  {
    PlannedAndFinal(input, env, a);
    IncludedAreFitted(input, env, a);
    EligibleMeans(input, env, a);
    ahead := [];
    if !FinalRows(input, env)[a].included && a in Eligible(input, env) {
      var i :| 0 <= i < |Eligible(input, env)| && Eligible(input, env)[i] == a;
      ahead := Ahead(input, env, i);
      CrowdedOutAt(input, env, i);
    }
  }

  lemma AheadIsBetter(input: Input, env: Env, i: nat)
    requires i < |Eligible(input, env)|
    ensures Distinct(Ahead(input, env, i)) && Eligible(input, env)[i] in PlannedRows(input, env)
    ensures forall b :: b in Ahead(input, env, i) ==>
      && b in FinalRows(input, env) && FinalRows(input, env)[b].included && b in PlannedRows(input, env)
      && PlannedRows(input, env)[b].payout >= PlannedRows(input, env)[Eligible(input, env)[i]].payout
  {
    var eligible, rows := Eligible(input, env), PlannedRows(input, env);
    EligibleFacts(input, env);
    assert eligible[i] in eligible;
    FittedAreIncluded(input, env);
    IncludedIffItFits(input, env, i);
    var ahead := Ahead(input, env, i);
    forall j, k | 0 <= j < k < |eligible[..i]| ensures eligible[..i][j] != eligible[..i][k] {
      assert eligible[j] != eligible[k];
    }
    FitDistinct(eligible[..i], BaseWeight(input, env), EffectiveBudget(input), env.weightOf);
    forall b | b in ahead
      ensures b in FinalRows(input, env) && FinalRows(input, env)[b].included && b in rows
      ensures rows[b].payout >= rows[eligible[i]].payout
    {
      FitMember(eligible[..i], BaseWeight(input, env), EffectiveBudget(input), env.weightOf, b);
      var j :| 0 <= j < i && eligible[..i][j] == b;
      assert b in Fitted(input, env);
      EligibleOrder(input, env, j, i);
    }
  }

  lemma EligibleOrder(input: Input, env: Env, j: nat, i: nat)
    requires j < i < |Eligible(input, env)|
    ensures var rows, e := PlannedRows(input, env), Eligible(input, env);
      e[j] in rows && e[i] in rows && rows[e[j]].payout >= rows[e[i]].payout
  {
    var rows := PlannedRows(input, env);
    var payable := Select(Payable(MinOutputSats(input)), Order(input), rows);
    PlannedRowsFacts(input, env);
    SelectDistinct(Payable(MinOutputSats(input)), Order(input), rows);
    forall a | a in payable ensures a in rows { SelectMember(Payable(MinOutputSats(input)), Order(input), rows, a); }
    RankingOrder(payable, rows, env.collate, j, i);
    var e := Eligible(input, env);
    assert e[j] in e && e[i] in e;
    EligibleFacts(input, env);
  }

  // ---- by what the leftovers are shared ----

  /** What the work of the rows listed adds up to. */
  function WorkOf(names: seq<string>, rows: Rows): real
  {
    if names == [] then 0.0
    else (if names[0] in rows then rows[names[0]].work else 0.0) + WorkOf(names[1..], rows)
  }

  lemma {:induction false} WorkOfIs(names: seq<string>, rows: Rows)
    ensures WorkOf(names, rows) == WeightedSum(names, Works(rows))
  {
    if names != [] { WorkOfIs(names[1..], rows); }
  }

  predicate OwedWorker(r: Row) { r.fairSats + r.balanceBefore > 0 && r.work > 0.0 }

  predicate PaidWorker(r: Row) { r.included && r.work > 0.0 }

  ghost predicate ListsOwedWorkers(names: seq<string>, rows: Rows)
  {
    Distinct(names) && forall a :: a in names <==> a in rows && OwedWorker(rows[a])
  }

  ghost predicate ListsPaidWorkers(names: seq<string>, rows: Rows)
  {
    Distinct(names) && forall a :: a in names <==> a in rows && PaidWorker(rows[a])
  }

  lemma OwedWorkersAre(order: seq<string>, rows: Rows)
    requires Table(order, rows)
    ensures ListsOwedWorkers(Select(Working, Select(Owed, order, rows), rows), rows)
  {
    var owed := Select(Owed, order, rows);
    var workers := Select(Working, owed, rows);
    SelectDistinct(Owed, order, rows);
    SelectDistinct(Working, owed, rows);
    forall b ensures b in workers <==> b in rows && OwedWorker(rows[b]) {
      SelectMember(Owed, order, rows, b);
      SelectMember(Working, owed, rows, b);
    }
  }

  lemma ShareOf(names: seq<string>, rows: Rows, amount: int, collate: Collation, a: string)
    requires Distinct(names) && a in names && amount > 0
    requires forall b :: b in names ==> b in rows && rows[b].work > 0.0
    ensures WorkOf(names, rows) > 0.0
    ensures NearShare(Get(Apportion(names, Works(rows), amount, collate), a), rows[a].work, WorkOf(names, rows), amount)
  {
    WorkOfIs(names, rows);
    var works := Works(rows);
    assert forall b :: b in names ==> Weight(works, b) == rows[b].work;
    ApportionQuota(names, works, amount, collate, a);
    QuotaIsShare(Get(Apportion(names, works, amount, collate), a), rows[a].work, amount, WorkOf(names, rows));
  }

  lemma CoveredPayout(order: seq<string>, rows: Rows, reward: int, totalWork: real, collate: Collation, a: string)
    returns (extra: int)
    requires a in rows && rows[a].fairSats + rows[a].balanceBefore > 0 && Table(order, rows)
    requires 0 < Sum(Select(Owed, order, rows), Targets(rows)) <= reward
    ensures var owed := Select(Owed, order, rows);
      var surplus := reward - Sum(owed, Targets(rows));
      extra == Get(Apportion(Select(Working, owed, rows), Works(rows), surplus, collate), a)
    ensures PayRows(rows, Planned(order, rows, reward, totalWork, collate))[a].payout
        == rows[a].fairSats + rows[a].balanceBefore + extra
  {
    var owed, targets := Select(Owed, order, rows), Targets(rows);
    var extras := Apportion(Select(Working, owed, rows), Works(rows), reward - Sum(owed, targets), collate);
    extra := Get(extras, a);
    SelectMember(Owed, order, rows, a);
    var planned := Planned(order, rows, reward, totalWork, collate);
    assert planned == map b | b in owed :: Get(targets, b) + Get(extras, b);
    assert Get(planned, a) == Get(targets, a) + extra;
  }

  /** Where the reward covers all debts, a row that is owed something and works is paid what it
      is owed and a share, by its work, of what the debts leave. */
  lemma SurplusByWork(order: seq<string>, rows: Rows, reward: int, totalWork: real, collate: Collation, a: string)
    returns (workers: seq<string>)
    requires Table(order, rows) && a in rows && OwedWorker(rows[a])
    requires 0 < Sum(Select(Owed, order, rows), Targets(rows)) < reward
    ensures ListsOwedWorkers(workers, rows) && WorkOf(workers, rows) > 0.0
    ensures var r := PayRows(rows, Planned(order, rows, reward, totalWork, collate))[a];
      var surplus := reward - Sum(Select(Owed, order, rows), Targets(rows));
      NearShare(r.payout - (r.fairSats + r.balanceBefore), r.work, WorkOf(workers, rows), surplus)
  {
    workers := Select(Working, Select(Owed, order, rows), rows);
    OwedWorkersAre(order, rows);
    var surplus := reward - Sum(Select(Owed, order, rows), Targets(rows));
    var extra := CoveredPayout(order, rows, reward, totalWork, collate, a);
    ShareOf(workers, rows, surplus, collate, a);
    assert extra == Get(Apportion(workers, Works(rows), surplus, collate), a);
  }

  lemma BonusPayout(order: seq<string>, rows: Rows, reward: int, collate: Collation, a: string) returns (bonus: int)
    requires Table(order, rows) && a in rows && PaidWorker(rows[a])
    ensures var remainder := reward - Sum(order, PaidOut(rows));
      bonus == Get(Apportion(KeptWorkers(order, rows), Works(rows), remainder, collate), a)
    ensures var r := Redistributed(order, rows, reward, collate);
      a in r && r[a].payout == rows[a].payout + bonus
  {
    KeptAre(order, rows);
    PaidOutIsIncluded(order, rows);
    bonus := Get(Apportion(KeptWorkers(order, rows), Works(rows), reward - Sum(order, PaidOut(rows)), collate), a);
  }

  /** What the outputs leave of the reward is shared among the paid workers by their work. */
  lemma BonusByWork(order: seq<string>, rows: Rows, reward: int, collate: Collation, a: string)
    returns (workers: seq<string>)
    requires Table(order, rows) && a in rows && PaidWorker(rows[a])
    requires Sum(order, PaidOut(rows)) < reward
    ensures ListsPaidWorkers(workers, rows) && WorkOf(workers, rows) > 0.0
    ensures var r, remainder := Redistributed(order, rows, reward, collate), reward - Sum(order, PaidOut(rows));
      a in r && NearShare(r[a].payout - rows[a].payout, rows[a].work, WorkOf(workers, rows), remainder)
  {
    workers := KeptWorkers(order, rows);
    var remainder := reward - Sum(order, PaidOut(rows));
    KeptAre(order, rows);
    var bonus := BonusPayout(order, rows, reward, collate, a);
    ShareOf(workers, rows, remainder, collate, a);
    assert bonus == Get(Apportion(workers, Works(rows), remainder, collate), a);
  }

  // ---- the result ----

  /** The address was credited work, or has a balance. */
  ghost predicate Named(input: Input, a: string)
  {
    && a != ""
    && ((exists w :: w in input.addressWork && w.address == a && w.credited > 0.0)
        || (exists b :: b in input.balances && b.address == a && b.sats != 0))
  }

  lemma {:induction false} WorkIsNamed(ws: seq<Work>, a: string)
    ensures a in WorkTable(ws).values <==> a != "" && exists w :: w in ws && w.address == a && w.credited > 0.0
  {
    if ws != [] {
      WorkIsNamed(ws[..|ws|-1], a);
      assert ws == ws[..|ws|-1] + [ws[|ws|-1]];
    }
  }

  lemma {:induction false} BalanceIsNamed(bs: seq<Balance>, a: string)
    ensures a in BalanceTable(bs).values <==> a != "" && exists b :: b in bs && b.address == a && b.sats != 0
  {
    if bs != [] {
      BalanceIsNamed(bs[..|bs|-1], a);
      assert bs == bs[..|bs|-1] + [bs[|bs|-1]];
    }
  }

  /** A distribution considers each named address once; its outputs are the included entries in
      their order; what it does not distribute of the coinbase is unallocated. Without work or
      coinbase nothing is distributed. */
  lemma ResultIs(input: Input, env: Env) returns (names: seq<string>)
    ensures Distinct(names) && forall a :: a in names <==> Named(input, a)
    ensures var r, coinbase := Distribute(input, env), AtLeast(0, input.coinbaseValue);
      && r.feeSats == FeeSats(input) && r.distributed + r.unallocated == coinbase
      && (coinbase == 0 || TotalWork(input) <= 0.0 ==>
            r.entries == [] && r.payoutOutputs == [] && r.distributed == 0 && r.consideredAddressCount == 0)
      && (coinbase > 0 && TotalWork(input) > 0.0 ==>
            r.consideredAddressCount == |names| && r.distributed == PayoutTotal(r.payoutOutputs))
    ensures var r := Distribute(input, env);
      && (forall e :: e in r.payoutOutputs <==> e in r.entries && e.included)
      && (forall i, j :: 0 <= i < j < |r.payoutOutputs| ==> r.payoutOutputs[i].rank < r.payoutOutputs[j].rank)
  {
    names := Order(input);
    InitialTable(input, env);
    forall a ensures a in names <==> Named(input, a) {
      WorkIsNamed(input.addressWork, a);
      BalanceIsNamed(input.balances, a);
    }
    if !Worthless(input) { OutputsAre(WithFee(MinerEntries(input, env), input.feeAddress, FeeSats(input)), 1); }
  }

  lemma {:induction false} OutputsAre(es: seq<Entry>, rank: nat)
    ensures var outs := Outputs(Numbered(es, rank));
      && (forall e :: e in outs <==> e in Numbered(es, rank) && e.included)
      && (forall e :: e in Numbered(es, rank) ==> e.rank >= rank)
      && (forall i, j :: 0 <= i < j < |outs| ==> outs[i].rank < outs[j].rank)
  {
    if es != [] { OutputsAre(es[1..], rank + 1); }
  }

  // ---- the fee ----

  /** The fee is the whole satoshis in the configured percentage of the coinbase, if there is an
      address for it and it is no less than the minimum, and otherwise nothing. */
  lemma FeeIs(input: Input)
    ensures FeeSats(input) != 0 ==>
      && input.feeAddress != "" && input.feePercent > 0.0 && FeeSats(input) >= AtLeast(546, input.minOutput)
      && FeeSats(input) as real <= CoinbaseSats(input) as real * input.feePercent / 100.0 < FeeSats(input) as real + 1.0
    ensures FeeSats(input) == 0 && input.feeAddress != "" && input.feePercent > 0.0 ==>
      CoinbaseSats(input) as real * input.feePercent / 100.0 < AtLeast(546, input.minOutput) as real
  {
    var percent, coinbase := input.feePercent, CoinbaseSats(input);
    if percent > 0.0 {
      PercentOf(percent, coinbase as real);
    } else {
      assert WantedFeeSats(0.0, coinbase) == 0;
    }
  }

  lemma PercentOf(percent: real, amount: real)
    ensures percent / 100.0 * amount == amount * percent / 100.0
  {
  }

  /** The entry of an address that is paid as a miner and is paid the fee as well. */
  predicate CarriesFee(input: Input, env: Env, e: Entry)
  {
    && e.address == input.feeAddress && e.included && e.address in FinalRows(input, env)
    && e.payout == FinalRows(input, env)[e.address].payout + FeeSats(input)
    && e.gross == FinalRows(input, env)[e.address].fairSats + FeeSats(input)
  }

  lemma FeeIsAdded(input: Input, env: Env) returns (e: Entry)
    requires !Worthless(input) && FeeSats(input) > 0
    requires PaysAddress(MinerEntries(input, env), input.feeAddress)
    ensures e in Distribute(input, env).entries && CarriesFee(input, env, e)
  {
    var miners, fee, sats := MinerEntries(input, env), input.feeAddress, FeeSats(input);
    var rows := FinalRows(input, env);
    var m := FeeAdded(miners, fee, sats);
    EntriesOfRows(Ranking(Select(Listed, Order(input), rows), rows, env.collate), rows, m);
    var raised := m.(payout := m.payout + sats, gross := m.gross + sats);
    var r := NumberedHas(AddFee(miners, fee, sats), 1, raised);
    e := raised.(rank := r);
  }

  /** A fee whose address gets no output as a miner stands first, as an entry of its own; one
      whose address does is added to what that entry is paid and credited. */
  lemma FeeStands(input: Input, env: Env) returns (e: Entry)
    requires !Worthless(input) && FeeSats(input) > 0
    ensures e in Distribute(input, env).entries
    ensures FeeAddressFits(input, env) ==> CarriesFee(input, env, e)
    ensures !FeeAddressFits(input, env) ==>
      && e == Entry(input.feeAddress, 0.0, FeeSats(input), FeeSats(input), 0, 0, true, 1)
      && Distribute(input, env).entries[0] == e
  {
    FeeAddressFitsIff(input, env);
    PaysAddressIff(input, env);
    if PaysAddress(MinerEntries(input, env), input.feeAddress) {
      e := FeeIsAdded(input, env);
    } else {
      e := Distribute(input, env).entries[0];
    }
  }

  lemma {:induction false} FeeAdded(es: seq<Entry>, address: string, sats: int) returns (e: Entry)
    requires PaysAddress(es, address)
    ensures e in es && e.address == address && e.included
    ensures e.(payout := e.payout + sats, gross := e.gross + sats) in AddFee(es, address, sats)
  {
    if es[0].address == address && es[0].included {
      e := es[0];
    } else {
      e := FeeAdded(es[1..], address, sats);
    }
  }

  lemma {:induction false} NumberedHas(es: seq<Entry>, rank: nat, e: Entry) returns (r: nat)
    requires e in es
    ensures e.(rank := r) in Numbered(es, rank)
  {
    if e == es[0] {
      r := rank;
    } else {
      r := NumberedHas(es[1..], rank + 1, e);
    }
  }

  // ---- the entries ----

  /** The miners' entries: one for every address that has an output or whose balance changes or
      stays open, carrying its row, and in the order of the ranking. */
  lemma MinerEntriesAre(input: Input, env: Env, a: string)
    requires a in FinalRows(input, env)
    ensures var r := FinalRows(input, env)[a];
      HasEntry(MinerEntries(input, env), a) <==> r.included || r.balanceBefore != r.balanceAfter || r.balanceAfter != 0
    ensures var r := FinalRows(input, env)[a];
      forall e :: e in MinerEntries(input, env) && e.address == a ==>
        e == Entry(a, r.work, r.fairSats, r.payout, r.balanceBefore, r.balanceAfter, r.included, 0)
  {
    FinalRowsFacts(input, env);
    EntriesOfTable(Order(input), FinalRows(input, env), env.collate, a);
  }

  lemma EntriesOfTable(order: seq<string>, rows: Rows, collate: Collation, a: string)
    requires Table(order, rows) && a in rows
    ensures var r, es := rows[a], ToEntries(Ranking(Select(Listed, order, rows), rows, collate), rows);
      && (HasEntry(es, a) <==> r.included || r.balanceBefore != r.balanceAfter || r.balanceAfter != 0)
      && forall e :: e in es && e.address == a ==>
           e == Entry(a, r.work, r.fairSats, r.payout, r.balanceBefore, r.balanceAfter, r.included, 0)
  {
    ListedNames(order, rows, collate);
    EntriesAre(Ranking(Select(Listed, order, rows), rows, collate), rows, a);
  }

  ghost predicate HasEntry(es: seq<Entry>, a: string)
  {
    exists e :: e in es && e.address == a
  }

  lemma EntriesAre(names: seq<string>, rows: Rows, a: string)
    requires forall b :: b in names ==> b in rows
    ensures HasEntry(ToEntries(names, rows), a) <==> a in names
    ensures forall e :: e in ToEntries(names, rows) && e.address == a ==>
      var r := rows[a];
      e == Entry(a, r.work, r.fairSats, r.payout, r.balanceBefore, r.balanceAfter, r.included, 0)
  {
    var es := ToEntries(names, rows);
    forall e | e in es ensures e.address in names && e == ToEntry(e.address, rows[e.address]) {
      EntriesOfRows(names, rows, e);
    }
    AddressesOfRows(names, rows);
    if a in names {
      var i :| 0 <= i < |names| && names[i] == a;
      assert es[i] in es && es[i].address == Addresses(es)[i];
    }
  }

  lemma MinerEntriesOrder(input: Input, env: Env, i: nat, j: nat)
    requires i < j < |MinerEntries(input, env)|
    ensures var rows, x, y := FinalRows(input, env), MinerEntries(input, env)[i], MinerEntries(input, env)[j];
      x.address in rows && y.address in rows
      && StandsBefore(x.address, rows[x.address], y.address, rows[y.address], env.collate)
  {
    var rows, es := FinalRows(input, env), MinerEntries(input, env);
    var listed := Select(Listed, Order(input), rows);
    FinalRowsFacts(input, env);
    ListedNames(Order(input), rows, env.collate);
    AddressesOfRows(Ranking(listed, rows, env.collate), rows);
    RankingOrder(listed, rows, env.collate, i, j);
    assert es[i].address == Addresses(es)[i] && es[j].address == Addresses(es)[j];
  }
}
