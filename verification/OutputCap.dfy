/**
 The cap on the number of coinbase outputs
 (src/ORM/payout-snapshot/payout-snapshot.service.ts, `limitCoinbaseOutputs`):
 included entries past the cap lose their output, and what they would have been
 paid goes to the kept entries that have work.
 */
module OutputCap {
  import opened Sequences
  import opened Sorting
  import opened LargestRemainder
  import opened PayoutDistribution
  import opened PayoutResult

  /** The output taken away, the amount back on the balance. */
  function Demoted(e: Entry): Entry
  {
    e.(payout := 0, balanceAfter := e.balanceAfter + e.payout, included := false)
  }

  function Raised(e: Entry, sats: int): Entry
  {
    e.(payout := e.payout + sats, balanceAfter := e.balanceAfter - sats)
  }

  function IncludedCount(es: seq<Entry>): nat
  {
    if es == [] then 0 else (if es[0].included then 1 else 0) + IncludedCount(es[1..])
  }

  /** Keep the output of the first `limit` included entries. */
  function Capped(es: seq<Entry>, limit: int): (r: seq<Entry>)
    ensures |r| == |es|
  {
    if es == [] then []
    else if !es[0].included then [es[0]] + Capped(es[1..], limit)
    else if limit > 0 then [es[0]] + Capped(es[1..], limit - 1)
    else [Demoted(es[0])] + Capped(es[1..], limit)
  }

  function RemovedSats(es: seq<Entry>, limit: int): int
  {
    if es == [] then 0
    else if !es[0].included then RemovedSats(es[1..], limit)
    else if limit > 0 then RemovedSats(es[1..], limit - 1)
    else es[0].payout + RemovedSats(es[1..], limit)
  }

  predicate Keeps(e: Entry) { e.included && e.work > 0.0 }

  /** The kept entries with work, as apportionment targets. */
  function KeptTargets(es: seq<Entry>): seq<Target>
  {
    if es == [] then []
    else if Keeps(es[0]) then [Target(es[0].address, es[0].work)] + KeptTargets(es[1..])
    else KeptTargets(es[1..])
  }

  function GiveExtra(es: seq<Entry>, extra: map<string, int>): (r: seq<Entry>)
    ensures |r| == |es|
  {
    if es == [] then []
    else [if Keeps(es[0]) then Raised(es[0], Get(extra, es[0].address)) else es[0]] + GiveExtra(es[1..], extra)
  }

  function Limited(es: seq<Entry>, limit: int, collate: Collation): seq<Entry>
  {
    var capped := Capped(es, limit);
    var kept := KeptTargets(capped);
    GiveExtra(capped, Allocate(kept, RemovedSats(es, limit), WeightSum(kept), collate))
  }

  // ---- what the cap does ----

  lemma {:induction false} CappedAddresses(es: seq<Entry>, limit: nat)
    ensures Addresses(Capped(es, limit)) == Addresses(es)
    ensures IncludedCount(Capped(es, limit)) == (if IncludedCount(es) < limit then IncludedCount(es) else limit)
  {
    if es != [] {
      var rest := if es[0].included && limit > 0 then limit - 1 else limit;
      CappedAddresses(es[1..], rest);
      assert Capped(es, limit)[1..] == Capped(es[1..], rest);
    }
  }

  /** `moved` satoshis pass from the payouts to the balances, credits unchanged. */
  ghost predicate Moved(before: Totals, after: Totals, moved: int)
  {
    && after.paid == before.paid - moved
    && after.gross == before.gross
    && after.shift == before.shift + moved
  }

  lemma MovedCons(e: Entry, es: seq<Entry>, e': Entry, es': seq<Entry>, x: int, y: int)
    requires Moved(TallyOne(e), TallyOne(e'), x)
    requires Moved(Tally(es), Tally(es'), y)
    ensures Moved(Tally([e] + es), Tally([e'] + es'), x + y)
  {
    TallyCons(e, es);
    TallyCons(e', es');
  }

  lemma {:induction false} CappedTally(es: seq<Entry>, limit: nat)
    ensures Moved(Tally(es), Tally(Capped(es, limit)), RemovedSats(es, limit))
  {
    if es != [] {
      var first, tail := es[0], es[1..];
      var rest := if first.included && limit > 0 then limit - 1 else limit;
      CappedTally(tail, rest);
      assert es == [first] + tail;
      if first.included && limit == 0 {
        MovedCons(first, tail, Demoted(first), Capped(tail, rest), first.payout, RemovedSats(tail, rest));
      } else {
        MovedCons(first, tail, first, Capped(tail, rest), 0, RemovedSats(tail, rest));
      }
    }
  }

  /** Entry by entry: kept as it was, or demoted, the latter exactly for an included
      entry behind `limit` others. */
  lemma {:induction false} CappedAt(es: seq<Entry>, limit: nat, i: nat)
    requires i < |es|
    ensures Capped(es, limit)[i] ==
      if es[i].included && IncludedCount(es[..i]) >= limit then Demoted(es[i]) else es[i]
  {
    if i > 0 {
      assert es[..i][1..] == es[1..][..i-1];
      CappedAt(es[1..], if es[0].included && limit > 0 then limit - 1 else limit, i - 1);
    }
  }

  lemma {:induction false} GiveExtraAt(es: seq<Entry>, extra: map<string, int>, i: nat)
    requires i < |es|
    ensures GiveExtra(es, extra)[i] == if Keeps(es[i]) then Raised(es[i], Get(extra, es[i].address)) else es[i]
  {
    if i > 0 { GiveExtraAt(es[1..], extra, i - 1); }
  }

  lemma {:induction false} GiveExtraAddresses(es: seq<Entry>, extra: map<string, int>)
    ensures Addresses(GiveExtra(es, extra)) == Addresses(es)
    ensures IncludedCount(GiveExtra(es, extra)) == IncludedCount(es)
  {
    if es != [] {
      GiveExtraAddresses(es[1..], extra);
      assert GiveExtra(es, extra)[1..] == GiveExtra(es[1..], extra);
    }
  }

  lemma {:induction false} GiveExtraTally(es: seq<Entry>, extra: map<string, int>)
    ensures Moved(Tally(es), Tally(GiveExtra(es, extra)), -Sum(Names(KeptTargets(es)), extra))
  {
    if es != [] {
      var first, tail := es[0], es[1..];
      GiveExtraTally(tail, extra);
      assert es == [first] + tail;
      var given := Sum(Names(KeptTargets(tail)), extra);
      if Keeps(first) {
        var sats := Get(extra, first.address);
        KeptSum(first, tail, extra);
        MovedCons(first, tail, Raised(first, sats), GiveExtra(tail, extra), -sats, -given);
      } else {
        MovedCons(first, tail, first, GiveExtra(tail, extra), 0, -given);
      }
    }
  }

  lemma KeptSum(e: Entry, es: seq<Entry>, extra: map<string, int>)
    requires Keeps(e)
    ensures Sum(Names(KeptTargets([e] + es)), extra) == Get(extra, e.address) + Sum(Names(KeptTargets(es)), extra)
  {
    var rest := KeptTargets(es);
    assert ([e] + es)[1..] == es;
    assert ([Target(e.address, e.work)] + rest)[1..] == rest;
    assert ([e.address] + Names(rest))[1..] == Names(rest);
  }

  lemma {:induction false} KeptTargetsAre(es: seq<Entry>)
    ensures forall t :: t in KeptTargets(es) ==> t.weight > 0.0 && t.item in Addresses(Outputs(es))
    ensures Distinct(Addresses(Outputs(es))) ==> Distinct(Names(KeptTargets(es)))
    ensures WeightSum(KeptTargets(es)) >= 0.0
    ensures KeptTargets(es) != [] ==> WeightSum(KeptTargets(es)) > 0.0
  {
    if es != [] {
      KeptTargetsAre(es[1..]);
      var rest := KeptTargets(es[1..]);
      var outs := Outputs(es[1..]);
      if es[0].included {
        assert ([es[0]] + outs)[1..] == outs;
        DistinctEntry(es[0], outs);
        if Keeps(es[0]) {
          TargetCons(Target(es[0].address, es[0].work), rest, Addresses(outs));
          assert KeptTargets(es) == [Target(es[0].address, es[0].work)] + rest;
        }
      }
    }
  }

  lemma TargetCons(t: Target, rest: seq<Target>, names: seq<string>)
    requires t.weight > 0.0 && forall u :: u in rest ==> u.item in names
    ensures WeightSum([t] + rest) == t.weight + WeightSum(rest)
    ensures t.item !in names && Distinct(Names(rest)) ==> Distinct(Names([t] + rest))
  {
    var ts := [t] + rest;
    assert ts[1..] == rest;
    assert Names(ts) == [t.item] + Names(rest);
    DistinctCons(t.item, Names(rest));
    forall i | 0 <= i < |rest| ensures Names(rest)[i] in names { assert rest[i] in rest; }
  }

  lemma {:induction false} OutputsOfCapped(es: seq<Entry>, limit: nat)
    ensures Outputs(Capped(es, limit)) <= Outputs(es)
    ensures limit == 0 ==> Outputs(Capped(es, limit)) == []
  {
    if es != [] {
      var rest := Capped(es[1..], if es[0].included && limit > 0 then limit - 1 else limit);
      var capped := Capped(es, limit);
      assert capped[1..] == rest;
      OutputsOfCapped(es[1..], if es[0].included && limit > 0 then limit - 1 else limit);
    }
  }

  lemma DistinctPrefix(s: seq<Entry>, t: seq<Entry>)
    requires s <= t
    requires Distinct(Addresses(t))
    ensures Distinct(Addresses(s))
  {
    forall i, j | 0 <= i < j < |s| ensures Addresses(s)[i] != Addresses(s)[j] {
      assert Addresses(t)[i] != Addresses(t)[j];
    }
  }

  /** What the kept workers are given: all that was removed, if there are any. */
  lemma ExtraIsRemoved(es: seq<Entry>, limit: nat, collate: Collation)
    requires Distinct(Addresses(Outputs(es)))
    ensures var kept := KeptTargets(Capped(es, limit));
      var removed := RemovedSats(es, limit);
      Sum(Names(kept), Allocate(kept, removed, WeightSum(kept), collate))
        == if removed > 0 && kept != [] then removed else 0
  {
    var capped := Capped(es, limit);
    OutputsOfCapped(es, limit);
    DistinctPrefix(Outputs(capped), Outputs(es));
    KeptTargetsAre(capped);
    AllocationIsExact(KeptTargets(capped), RemovedSats(es, limit), WeightSum(KeptTargets(capped)), collate);
  }

  /** What the work behind the outputs adds up to. */
  function WorkBehind(es: seq<Entry>): real
  {
    if es == [] then 0.0 else (if es[0].included && es[0].work > 0.0 then es[0].work else 0.0) + WorkBehind(es[1..])
  }

  lemma {:induction false} TargetsWeighWork(es: seq<Entry>)
    ensures WeightSum(KeptTargets(es)) == WorkBehind(es)
    ensures forall e :: e in es && e.included && e.work > 0.0 ==> Target(e.address, e.work) in KeptTargets(es)
  {
    if es != [] {
      TargetsWeighWork(es[1..]);
      var rest := KeptTargets(es[1..]);
      if Keeps(es[0]) {
        assert ([Target(es[0].address, es[0].work)] + rest)[1..] == rest;
      }
    }
  }

  /** What the cap takes from the outputs behind it is shared among the working entries it
      keeps, by their work, to less than a satoshi each. */
  lemma RemovedByWork(es: seq<Entry>, limit: nat, collate: Collation, i: nat)
    requires Distinct(Addresses(Outputs(es))) && i < |es| == |Limited(es, limit, collate)|
    requires es[i].included && es[i].work > 0.0 && IncludedCount(es[..i]) < limit && RemovedSats(es, limit) > 0
    ensures WorkBehind(Capped(es, limit)) > 0.0
    ensures NearShare(Limited(es, limit, collate)[i].payout - es[i].payout, es[i].work,
                      WorkBehind(Capped(es, limit)), RemovedSats(es, limit))
  {
    var capped, removed := Capped(es, limit), RemovedSats(es, limit);
    CappedAt(es, limit, i);
    assert capped[i] == es[i] && capped[i] in capped;
    KeptAreDistinct(es, limit);
    ExtraByWork(capped, removed, collate, es[i]);
    var kept := KeptTargets(capped);
    var extra := Allocate(kept, removed, WeightSum(kept), collate);
    GiveExtraAt(capped, extra, i);
    assert Limited(es, limit, collate) == GiveExtra(capped, extra);
  }

  lemma ExtraByWork(es: seq<Entry>, amount: int, collate: Collation, e: Entry)
    requires e in es && e.included && e.work > 0.0 && amount > 0 && Distinct(Names(KeptTargets(es)))
    ensures WorkBehind(es) > 0.0
    ensures var kept := KeptTargets(es);
      NearShare(Get(Allocate(kept, amount, WeightSum(kept), collate), e.address), e.work, WorkBehind(es), amount)
  {
    var kept, t := KeptTargets(es), Target(e.address, e.work);
    var total := WeightSum(kept);
    TargetsWeighWork(es);
    KeptTargetsAre(es);
    assert t in kept;
    AllocationStaysInQuota(kept, amount, total, collate, t);
    QuotaIsShare(Get(Allocate(kept, amount, total, collate), e.address), e.work, amount, total);
  }

  /** The cap keeps every address's entry, leaves at most `limit` outputs, and never
      changes what is credited. As long as one kept entry has work the total paid out
      is unchanged; otherwise exactly the removed satoshis go unpaid. */
  lemma LimitConserves(es: seq<Entry>, limit: nat, collate: Collation)
    requires Distinct(Addresses(Outputs(es)))
    requires RemovedSats(es, limit) >= 0
    ensures var r := Limited(es, limit, collate);
      && Addresses(r) == Addresses(es)
      && IncludedCount(r) == (if IncludedCount(es) < limit then IncludedCount(es) else limit)
      && Tally(r).gross == Tally(es).gross
      && Tally(r).paid + Tally(r).shift == Tally(es).paid + Tally(es).shift
      && Tally(r).paid ==
           (if KeptTargets(Capped(es, limit)) != [] then Tally(es).paid else Tally(es).paid - RemovedSats(es, limit))
  {
    var capped := Capped(es, limit);
    var kept := KeptTargets(capped);
    var extra := Allocate(kept, RemovedSats(es, limit), WeightSum(kept), collate);
    ExtraIsRemoved(es, limit, collate);
    CappedAddresses(es, limit);
    CappedTally(es, limit);
    GiveExtraAddresses(capped, extra);
    GiveExtraTally(capped, extra);
  }

  lemma {:induction false} CapOfNone(es: seq<Entry>)
    ensures KeptTargets(Capped(es, 0)) == [] && RemovedSats(es, 0) == Tally(es).paid
  {
    if es != [] {
      CapOfNone(es[1..]);
      TallyCons(es[0], es[1..]);
      assert es == [es[0]] + es[1..];
      assert Capped(es, 0)[1..] == Capped(es[1..], 0);
    }
  }

  /** A cap of one kept for an entry without work: everything behind it goes unpaid. */
  lemma CapKeepsFirst(es: seq<Entry>)
    requires es != [] && es[0].included && es[0].work <= 0.0
    ensures KeptTargets(Capped(es, 1)) == [] && RemovedSats(es, 1) == Tally(es).paid - es[0].payout
  {
    CapOfNone(es[1..]);
    TallyCons(es[0], es[1..]);
    assert es == [es[0]] + es[1..];
    assert Capped(es, 1)[1..] == Capped(es[1..], 0);
  }

  lemma CapConserves(input: Input, env: Env, limit: nat)
    ensures var es := Distribute(input, env).entries;
      var r := Limited(es, limit, env.collate);
      && Addresses(r) == Addresses(es)
      && IncludedCount(r) == (if IncludedCount(es) < limit then IncludedCount(es) else limit)
      && Tally(r).paid + Tally(r).shift == Tally(es).paid + Tally(es).shift
      && Tally(r).paid ==
           (if KeptTargets(Capped(es, limit)) != [] then Tally(es).paid else Tally(es).paid - RemovedSats(es, limit))
  {
    var es := Distribute(input, env).entries;
    forall e | e in es ensures e.payout >= 0 { EntriesPayNonNegative(input, env, e); }
    OneOutputPerAddress(input, env);
    RemovedNotNegative(es, limit);
    LimitConserves(es, limit, env.collate);
  }

  lemma WorkerPaysWhole(input: Input, env: Env)
    requires !Worthless(input) && SomeWorkerIncluded(FinalRows(input, env))
    ensures Tally(Distribute(input, env).entries).paid == CoinbaseSats(input)
  {
    EntryTotals(input, env);
    var a :| a in FinalRows(input, env) && FinalRows(input, env)[a].included && FinalRows(input, env)[a].work > 0.0;
    WorkingRowTakesAll(input, env, a);
  }

  /** A pool with a fee and a cap of one output: the fee stands first and has no work, so
      all the miners were to be paid goes unpaid, whoever they are. */
  lemma CapWithoutWorkers(input: Input, env: Env)
    requires FeeAddressApart(input) && FeeSats(input) > 0 && !Worthless(input)
    ensures var es := Distribute(input, env).entries;
      && Tally(Limited(es, 1, env.collate)).paid == FeeSats(input)
      && Tally(Limited(es, 1, env.collate)).shift == Tally(es).gross - FeeSats(input)
      && (SomeWorkerIncluded(FinalRows(input, env)) ==> Tally(es).paid == CoinbaseSats(input))
  {
    FeeStandsFirst(input, env);
    CapKeepsFirst(Distribute(input, env).entries);
    CapConserves(input, env, 1);
    EntryTotals(input, env);
    if SomeWorkerIncluded(FinalRows(input, env)) { WorkerPaysWhole(input, env); }
  }

  lemma {:induction false} RemovedNotNegative(es: seq<Entry>, limit: nat)
    requires forall e :: e in es ==> e.payout >= 0
    ensures RemovedSats(es, limit) >= 0
  {
    if es != [] { RemovedNotNegative(es[1..], if es[0].included && limit > 0 then limit - 1 else limit); }
  }

  // ---- one miner and a fee ----

  /** An input with a single address, which has work and is owed nothing from before. */
  predicate OnlyMiner(input: Input, m: string)
  {
    && Order(input) == [m] && m in WorkTable(input.addressWork).values && BalanceTable(input.balances).values == map[]
    && !Worthless(input) && MinerReward(input) > 0
  }

  lemma OneName(m: string, sats: map<string, int>, c: Choice, rows: Rows)
    ensures Sum([m], sats) == Get(sats, m)
    ensures m in rows && Chosen(c, rows[m]) ==> Select(c, [m], rows) == [m]
  {
    assert [m][1..] == [];
  }

  lemma OnlyMinerFair(input: Input, env: Env, m: string)
    requires OnlyMiner(input, m)
    ensures var rows := InitialRows(input, env);
      && m in rows && rows[m].TargetSats() == MinerReward(input) && rows[m].work > 0.0
      && Sum(Select(Owed, [m], rows), Targets(rows)) == MinerReward(input)
  {
    var rows := InitialRows(input, env);
    InitialTable(input, env);
    FairTotal(input, env);
    OneName(m, Fair(rows), Owed, rows);
    WorkTableValid(input.addressWork);
    OneName(m, Targets(rows), Owed, rows);
  }

  lemma OnlyMinerPlanned(input: Input, env: Env, m: string)
    requires OnlyMiner(input, m)
    ensures var rows := PlannedRows(input, env);
      m in rows && rows[m].work > 0.0 && rows[m].payout > 0
  {
    OnlyMinerFair(input, env, m);
    InitialTable(input, env);
    var rows := InitialRows(input, env);
    CoveredIsPaidInFull(Order(input), rows, MinerReward(input), TotalWork(input), env.collate, m);
    PlannedRowsFacts(input, env);
    PlannedKeepsDues(input, env, m);
  }

  lemma PlannedKeepsDues(input: Input, env: Env, a: string)
    requires a in InitialRows(input, env)
    ensures a in PlannedRows(input, env)
    ensures PlannedRows(input, env)[a].TargetSats() == InitialRows(input, env)[a].TargetSats()
    ensures PlannedRows(input, env)[a].work == InitialRows(input, env)[a].work
  {
  }

  lemma FirstMembers(first: string, rest: seq<string>)
    ensures first in [first] + rest
    ensures rest == [] || (rest[0] in rest && rest[0] in [first] + rest)
  {
    assert rest == [] || ([first] + rest)[1] == rest[0];
  }

  lemma OneNameLeft(s: seq<string>, m: string)
    requires Distinct(s) && m in s && forall a :: a in s ==> a == m
    ensures s == [m]
  {
    var first, rest := s[0], s[1..];
    assert s == [first] + rest;
    DistinctCons(first, rest);
    FirstMembers(first, rest);
  }

  /** Such a miner is paid in the coinbase if and only if its output fits. */
  lemma OnlyMinerIncludedIff(input: Input, env: Env, m: string)
    requires OnlyMiner(input, m)
    ensures m in FinalRows(input, env)
    ensures SomeWorkerIncluded(FinalRows(input, env))
            <==> BaseWeight(input, env) + env.weightOf(m) <= EffectiveBudget(input)
  {
    OnlyMinerCompetes(input, env, m);
    IncludedIffItFits(input, env, 0);
    assert Ahead(input, env, 0) == [];
    FinalRowsFacts(input, env);
    DuesKept(input, env);
    OnlyMinerFair(input, env, m);
    var rows := FinalRows(input, env);
    assert forall a :: a in rows ==> a in Order(input);
  }

  lemma OnlyMinerCompetes(input: Input, env: Env, m: string)
    requires OnlyMiner(input, m)
    ensures Eligible(input, env) == [m]
  {
    OnlyMinerPlanned(input, env, m);
    EligibleFacts(input, env);
    PlannedRowsFacts(input, env);
    var eligible := Eligible(input, env);
    forall a | a in eligible ensures a == m { assert a in Order(input); }
    OneNameLeft(eligible, m);
  }

  const ONE_MINER := Input([Work("miner", 1.0)], [], 100_000, "fee", 10.0, 546, 26_000)

  lemma OneMinerTables()
    ensures OnlyMiner(ONE_MINER, "miner") && FeeAddressApart(ONE_MINER) && FeeSats(ONE_MINER) == 10_000
  {
    assert ONE_MINER.addressWork[..0] == [];
    assert WorkTable(ONE_MINER.addressWork) == Dict(["miner"], map["miner" := 1.0]);
    assert BalanceTable(ONE_MINER.balances) == Dict([], map[]);
    assert ["miner"] + [] == ["miner"];
    assert ["miner"][1..] == [];
    assert TotalWork(ONE_MINER) == 1.0;
    assert "miner"[0] == 'm' && "fee"[0] == 'f';
  }

  /** The default budget easily takes the miner's output; a cap of one then keeps 90,000 of
      the coinbase's 100,000 satoshis from being paid out. */
  lemma CapExample(env: Env)
    requires env.weightOf("fee") <= 1000 && env.weightOf("miner") <= 1000
    ensures var es := Distribute(ONE_MINER, env).entries;
      Tally(es).paid == 100_000 && Tally(Limited(es, 1, env.collate)).paid == 10_000
  {
    OneMinerTables();
    OnlyMinerIncludedIff(ONE_MINER, env, "miner");
    CapWithoutWorkers(ONE_MINER, env);
  }

  /** Every entry stays balanced; a demoted entry is paid nothing and a kept one no
      less than before. */
  lemma LimitBalances(es: seq<Entry>, limit: nat, collate: Collation, i: nat)
    requires i < |es| && es[i].Balanced()
    requires Distinct(Addresses(Outputs(es)))
    ensures |Limited(es, limit, collate)| == |es|
    ensures var e := Limited(es, limit, collate)[i];
      && e.Balanced()
      && e.address == es[i].address && e.gross == es[i].gross && e.balanceBefore == es[i].balanceBefore
      && e.work == es[i].work
      && e.included == (es[i].included && IncludedCount(es[..i]) < limit)
      && (es[i].included && !e.included ==> e.payout == 0)
      && (!es[i].included ==> e == es[i])
      && (e.included ==> e.payout >= es[i].payout)
  {
    var capped := Capped(es, limit);
    var kept := KeptTargets(capped);
    var extra := Allocate(kept, RemovedSats(es, limit), WeightSum(kept), collate);
    CappedAt(es, limit, i);
    GiveExtraAt(capped, extra, i);
    OutputsOfCapped(es, limit);
    DistinctPrefix(Outputs(capped), Outputs(es));
    KeptTargetsAre(capped);
    ExtraNotNegative(kept, RemovedSats(es, limit), collate, es[i].address);
  }

  lemma ExtraNotNegative(kept: seq<Target>, amount: int, collate: Collation, a: string)
    requires Distinct(Names(kept))
    requires forall t :: t in kept ==> t.weight > 0.0
    requires WeightSum(kept) >= 0.0
    ensures Get(Allocate(kept, amount, WeightSum(kept), collate), a) >= 0
  {
    var m := Allocate(kept, amount, WeightSum(kept), collate);
    if a in m {
      AllocatedNames(kept, amount, WeightSum(kept), collate, a);
      var i :| 0 <= i < |kept| && Names(kept)[i] == a;
      assert kept[i] in kept;
      AllocationStaysInQuota(kept, amount, WeightSum(kept), collate, kept[i]);
    }
  }

  // ---- the loops of limitCoinbaseOutputs ----

  lemma {:induction false} CappedAppend(es: seq<Entry>, e: Entry, limit: nat)
    ensures Capped(es + [e], limit)
         == Capped(es, limit) + [if e.included && IncludedCount(es) >= limit then Demoted(e) else e]
    ensures RemovedSats(es + [e], limit)
         == RemovedSats(es, limit) + (if e.included && IncludedCount(es) >= limit then e.payout else 0)
    ensures IncludedCount(es + [e]) == IncludedCount(es) + (if e.included then 1 else 0)
  {
    if es == [] {
      assert es + [e] == [e] && [e][1..] == [];
    } else {
      assert (es + [e])[1..] == es[1..] + [e];
      CappedAppend(es[1..], e, if es[0].included && limit > 0 then limit - 1 else limit);
    }
  }

  /** Count the included entries, demoting those past the cap. */
  method CapEntries(entries: seq<Entry>, maxCoinbaseOutputs: nat)
    returns (limitedEntries: seq<Entry>, removedPayoutSats: int)
    ensures limitedEntries == Capped(entries, maxCoinbaseOutputs)
    ensures removedPayoutSats == RemovedSats(entries, maxCoinbaseOutputs)
  {
    var included := 0;
    limitedEntries, removedPayoutSats := [], 0;
    for i := 0 to |entries|
      invariant included == IncludedCount(entries[..i])
      invariant limitedEntries == Capped(entries[..i], maxCoinbaseOutputs)
      invariant removedPayoutSats == RemovedSats(entries[..i], maxCoinbaseOutputs)
    {
      var entry := entries[i];
      CappedAppend(entries[..i], entry, maxCoinbaseOutputs);
      assert entries[..i + 1] == entries[..i] + [entry];
      if !entry.included {
        limitedEntries := limitedEntries + [entry];
        continue;
      }
      included := included + 1;
      if included <= maxCoinbaseOutputs {
        limitedEntries := limitedEntries + [entry];
        continue;
      }
      removedPayoutSats := removedPayoutSats + entry.payout;
      limitedEntries := limitedEntries + [Demoted(entry)];
    }
    assert entries[..|entries|] == entries;
  }

  /** Raise the kept entry of one address. */
  function RaiseEntry(es: seq<Entry>, address: string, sats: int): seq<Entry>
  {
    if es == [] then []
    else if es[0].address == address && Keeps(es[0]) then [Raised(es[0], sats)] + es[1..]
    else [es[0]] + RaiseEntry(es[1..], address, sats)
  }

  lemma {:induction false} GiveExtraFrame(es: seq<Entry>, extra: map<string, int>, address: string, sats: int)
    requires forall e :: e in es && Keeps(e) ==> e.address != address
    ensures GiveExtra(es, extra[address := sats]) == GiveExtra(es, extra)
  {
    if es != [] { GiveExtraFrame(es[1..], extra, address, sats); }
  }

  lemma {:induction false} RaiseOne(es: seq<Entry>, extra: map<string, int>, address: string, sats: int)
    requires Distinct(Names(KeptTargets(es)))
    requires address !in extra
    ensures RaiseEntry(GiveExtra(es, extra), address, sats) == GiveExtra(es, extra[address := sats])
  {
    if es != [] {
      var r := GiveExtra(es, extra);
      assert r[1..] == GiveExtra(es[1..], extra);
      var rest := KeptTargets(es[1..]);
      if Keeps(es[0]) {
        var ts := [Target(es[0].address, es[0].work)] + rest;
        assert ts[1..] == rest;
        assert Names(ts) == [es[0].address] + Names(rest);
        DistinctCons(es[0].address, Names(rest));
        if es[0].address == address {
          OthersDiffer(es[1..], address);
          GiveExtraFrame(es[1..], extra, address, sats);
          assert Get(extra, address) == 0;
        } else {
          RaiseOne(es[1..], extra, address, sats);
        }
      } else {
        RaiseOne(es[1..], extra, address, sats);
      }
    }
  }

  lemma {:induction false} OthersDiffer(es: seq<Entry>, address: string)
    requires address !in Names(KeptTargets(es))
    ensures forall e :: e in es && Keeps(e) ==> e.address != address
  {
    if es != [] { OthersDiffer(es[1..], address); }
  }

  lemma {:induction false} GiveNothing(es: seq<Entry>)
    ensures GiveExtra(es, map[]) == es
  {
    if es != [] {
      GiveNothing(es[1..]);
      assert Raised(es[0], 0) == es[0];
    }
  }

  /** Hand the removed satoshis to the kept entries, in ranked order. */
  method GiveRemoved(capped: seq<Entry>, ranked: seq<Keyed>, residualSats: int) returns (limitedEntries: seq<Entry>)
    requires Distinct(Names(KeptTargets(capped)))
    requires Distinct(Items(ranked))
    ensures limitedEntries == GiveExtra(capped, Shares(ranked, residualSats))
  {
    limitedEntries := capped;
    GiveNothing(capped);
    var residual := residualSats;
    ghost var extra: map<string, int> := map[];
    for n := 0 to |ranked|
      invariant residual ==
          (if residualSats <= 0 then residualSats else if n < residualSats then residualSats - n else 0)
      invariant HandedOut(extra, ranked[..n], residualSats)
      invariant limitedEntries == GiveExtra(capped, extra)
    {
      var allocation := ranked[n];
      var sats := allocation.sats + (if residual > 0 then 1 else 0);
      if residual > 0 {
        residual := residual - 1;
      }
      assert allocation.item !in extra by {
        forall k | 0 <= k < n ensures ranked[k].item != allocation.item {
          assert Items(ranked)[k] != Items(ranked)[n];
        }
      }
      RaiseOne(capped, extra, allocation.item, sats);
      HandedOutNext(extra, ranked, n, residualSats, sats);
      limitedEntries := RaiseEntry(limitedEntries, allocation.item, sats);
      extra := extra[allocation.item := sats];
    }
    assert ranked[..|ranked|] == ranked;
    HandedOutIsShares(extra, ranked, residualSats);
  }

  lemma HandedOutNext(m: map<string, int>, ks: seq<Keyed>, n: nat, extra: int, sats: int)
    requires n < |ks| && HandedOut(m, ks[..n], extra)
    requires ks[n].item !in m
    requires sats == ks[n].sats + (if n < extra then 1 else 0)
    ensures HandedOut(m[ks[n].item := sats], ks[..n + 1], extra)
  {
    assert forall k :: k in ks[..n + 1] <==> k in ks[..n] || k == ks[n];
    forall i | 0 <= i < n ensures ks[i].item != ks[n].item { assert ks[i] in ks[..n]; }
  }

  lemma KeptAreDistinct(es: seq<Entry>, limit: nat)
    requires Distinct(Addresses(Outputs(es)))
    ensures Distinct(Names(KeptTargets(Capped(es, limit))))
  {
    OutputsOfCapped(es, limit);
    DistinctPrefix(Outputs(Capped(es, limit)), Outputs(es));
    KeptTargetsAre(Capped(es, limit));
  }

  method LimitCoinbaseOutputs(entries: seq<Entry>, maxCoinbaseOutputs: nat, collate: Collation)
    returns (limitedEntries: seq<Entry>)
    requires Distinct(Addresses(Outputs(entries)))
    ensures limitedEntries == Limited(entries, maxCoinbaseOutputs, collate)
  {
    var capped, removedPayoutSats := CapEntries(entries, maxCoinbaseOutputs);
    var keptActive := KeptTargets(capped);
    var keptDifficulty := WeightSum(keptActive);
    GiveNothing(capped);
    if removedPayoutSats <= 0 || keptDifficulty <= 0.0 {
      return capped;
    }
    KeptAreDistinct(entries, maxCoinbaseOutputs);
    RankedAreDistinct(keptActive, removedPayoutSats, keptDifficulty, collate);
    var allocations := Ranked(keptActive, removedPayoutSats, keptDifficulty, collate);
    limitedEntries := GiveRemoved(capped, allocations, removedPayoutSats - WholeSum(allocations));
  }
}
