/**
 What the coinbase built from a stored payout snapshot pays: the included entries, read back
 by rank as amounts (src/ORM/payout-snapshot/payout-snapshot.service.ts), become the outputs
 of the job's coinbase and of the validators' copies (CoinbaseOutputs.dfy).
 */
module SnapshotCoinbase {
  import opened Bytes
  import opened Sequences
  import opened PayoutDistribution
  import opened PayoutResult
  import opened OutputCap
  import opened PayoutLedger
  import CoinbaseOutputs
  import LargestRemainder

  type ScriptMap = CoinbaseOutputs.ScriptMap

  function AsPayout(e: Entry, coinbaseValue: int): CoinbaseOutputs.Payout
  {
    var percent := if coinbaseValue > 0 then e.payout as real / coinbaseValue as real * 100.0 else 0.0;
    CoinbaseOutputs.Payout(e.address, Some(percent), Some(e.payout))
  }

  function AsPayouts(outs: seq<Entry>, coinbaseValue: int): (r: seq<CoinbaseOutputs.Payout>)
    ensures |r| == |outs|
  {
    if outs == [] then [] else [AsPayout(outs[0], coinbaseValue)] + AsPayouts(outs[1..], coinbaseValue)
  }

  /** The payout list of a snapshot with these entries. */
  function PayoutsOf(es: seq<Entry>, coinbaseValue: int): seq<CoinbaseOutputs.Payout>
  {
    AsPayouts(Outputs(es), coinbaseValue)
  }

  /** The outputs of a coinbase that pays the snapshot, without the commitment. */
  function CoinbaseOf(script: ScriptMap, es: seq<Entry>, coinbaseValue: int): seq<CoinbaseOutputs.Output>
  {
    CoinbaseOutputs.PayoutOutputs(script, PayoutsOf(es, coinbaseValue), coinbaseValue, coinbaseValue)
  }

  // ---- the list ----

  lemma {:induction false} OutputsIncluded(es: seq<Entry>)
    ensures forall e :: e in Outputs(es) <==> e in es && e.included
  {
    if es != [] {
      OutputsIncluded(es[1..]);
      assert es == [es[0]] + es[1..];
    }
  }

  lemma {:induction false} PayoutAt(outs: seq<Entry>, coinbaseValue: int, i: nat)
    requires i < |outs|
    ensures AsPayouts(outs, coinbaseValue)[i] == AsPayout(outs[i], coinbaseValue)
  {
    if i > 0 { PayoutAt(outs[1..], coinbaseValue, i - 1); }
  }

  /** The amounts of the list add up to what the snapshot records as paid. */
  lemma {:induction false} ListTotal(script: ScriptMap, es: seq<Entry>, coinbaseValue: int)
    ensures CoinbaseOutputs.Total(CoinbaseOutputs.Listed(script, PayoutsOf(es, coinbaseValue), coinbaseValue))
        == Tally(es).paid
  {
    if es != [] {
      ListTotal(script, es[1..], coinbaseValue);
      if es[0].included {
        var outs := Outputs(es[1..]);
        assert ([es[0]] + outs)[1..] == outs;
        ListCons(script, AsPayout(es[0], coinbaseValue), AsPayouts(outs, coinbaseValue), coinbaseValue);
      }
    }
  }

  lemma ListCons(script: ScriptMap, p: CoinbaseOutputs.Payout, ps: seq<CoinbaseOutputs.Payout>, base: int)
    ensures CoinbaseOutputs.Total(CoinbaseOutputs.Listed(script, [p] + ps, base)) ==
      CoinbaseOutputs.Amount(p, base) + CoinbaseOutputs.Total(CoinbaseOutputs.Listed(script, ps, base))
  {
    assert ([p] + ps)[1..] == ps;
    var o := CoinbaseOutputs.Output(CoinbaseOutputs.Amount(p, base), script(p.address));
    var rest := CoinbaseOutputs.Listed(script, ps, base);
    assert ([o] + rest)[1..] == rest;
  }

  // ---- entries that become outputs are paid ----

  /** Every included entry of a snapshot is paid at least a satoshi. */
  lemma IncludedArePaid(c: Config, q: Request, open: seq<Balance>, e: Entry)
    requires e in SnapshotEntries(c, q, open) && e.included
    ensures e.payout > 0
  {
    var input := InputOf(c, q, open);
    var es := Distribute(input, c.env).entries;
    var i :| 0 <= i < |SnapshotEntries(c, q, open)| && SnapshotEntries(c, q, open)[i] == e;
    LimitedLength(es, c.maxOutputs, c.env.collate);
    OneOutputPerAddress(input, c.env);
    EntriesConserve(input, c.env, es[i]);
    LimitBalances(es, c.maxOutputs, c.env.collate, i);
    EntriesPayNonNegative(input, c.env, es[i]);
  }

  lemma {:induction false} NumberedAt(es: seq<Entry>, rank: nat, i: nat)
    requires i < |es|
    ensures |Numbered(es, rank)| == |es| && Numbered(es, rank)[i] == es[i].(rank := rank + i)
  {
    if i > 0 {
      NumberedAt(es[1..], rank + 1, i - 1);
    } else if |es| > 1 {
      NumberedAt(es[1..], rank + 1, 0);
    }
  }

  /** Reading the entries back by rank gives them in the order of the distribution. */
  lemma RanksFollowOrder(c: Config, q: Request, open: seq<Balance>, i: nat)
    requires i < |SnapshotEntries(c, q, open)|
    ensures SnapshotEntries(c, q, open)[i].rank == i + 1
  {
    var input := InputOf(c, q, open);
    var es := Distribute(input, c.env).entries;
    LimitedLength(es, c.maxOutputs, c.env.collate);
    var before := WithFee(MinerEntries(input, c.env), input.feeAddress, FeeSats(input));
    NumberedLength(before, 1);
    NumberedAt(before, 1, i);
    LimitedRank(es, c.maxOutputs, c.env.collate, i);
  }

  lemma {:induction false} NumberedLength(es: seq<Entry>, rank: nat)
    ensures |Numbered(es, rank)| == |es|
  {
    if es != [] { NumberedLength(es[1..], rank + 1); }
  }

  lemma LimitedRank(es: seq<Entry>, limit: nat, collate: string -> real, i: nat)
    requires i < |es| == |Limited(es, limit, collate)|
    ensures Limited(es, limit, collate)[i].rank == es[i].rank
  {
    var capped := Capped(es, limit);
    var kept := KeptTargets(capped);
    CappedAt(es, limit, i);
    var extra := LargestRemainder.Allocate(kept, RemovedSats(es, limit), LargestRemainder.WeightSum(kept), collate);
    GiveExtraAt(capped, extra, i);
  }

  // ---- what the coinbase pays ----

  ghost predicate PaysAsRecorded(script: ScriptMap, es: seq<Entry>, coinbaseValue: int)
  {
    var outs, paid := CoinbaseOf(script, es, coinbaseValue), Outputs(es);
    |outs| == |paid| && forall i :: 0 <= i < |paid| ==>
      outs[i] == CoinbaseOutputs.Output(paid[i].payout, script(paid[i].address))
  }

  /** The coinbase pays every address what the snapshot records if and only if the snapshot
      records the whole coinbase as paid. */
  lemma PaysAsRecordedIff(script: ScriptMap, es: seq<Entry>, coinbaseValue: int)
    requires Outputs(es) != []
    ensures PaysAsRecorded(script, es, coinbaseValue) <==> Tally(es).paid == coinbaseValue
  {
    var paid, payouts, outs := Outputs(es), PayoutsOf(es, coinbaseValue), CoinbaseOf(script, es, coinbaseValue);
    ListTotal(script, es, coinbaseValue);
    forall i | 0 <= i < |paid|
      ensures outs[i].script == script(paid[i].address)
      ensures outs[i].value == paid[i].payout + (if i == 0 then coinbaseValue - Tally(es).paid else 0)
    {
      PayoutAt(paid, coinbaseValue, i);
      CoinbaseOutputs.OutputAt(script, payouts, coinbaseValue, coinbaseValue, i);
    }
    if Tally(es).paid != coinbaseValue {
      assert outs[0].value != paid[0].payout;
    }
  }

  /** With a working miner among its outputs, a snapshot's coinbase pays each included
      address exactly what the snapshot records, and nobody else. */
  lemma WorkerSnapshotPaysAsRecorded(c: Config, q: Request, open: seq<Balance>, script: ScriptMap, e: Entry)
    requires e in SnapshotEntries(c, q, open) && Keeps(e)
    ensures PaysAsRecorded(script, SnapshotEntries(c, q, open), q.coinbaseValue)
  {
    var es := SnapshotEntries(c, q, open);
    OutputsIncluded(es);
    SnapshotPaysWholeCoinbase(c, q, open, e);
    PaysAsRecordedIff(script, es, q.coinbaseValue);
  }

  lemma FirstKept(es: seq<Entry>, collate: string -> real)
    requires es != [] && es[0].included && es[0].work <= 0.0
    ensures Limited(es, 1, collate) != [] && Limited(es, 1, collate)[0] == es[0]
  {
    var capped := Capped(es, 1);
    var kept := KeptTargets(capped);
    var extra := LargestRemainder.Allocate(kept, RemovedSats(es, 1), LargestRemainder.WeightSum(kept), collate);
    CappedAt(es, 1, 0);
    GiveExtraAt(capped, extra, 0);
  }

  /** A pool with a fee and a cap of one output: the coinbase pays the whole reward to the fee
      address, while the snapshot records the fee alone as paid and the rest as still owed. */
  lemma FeeTakesCoinbase(c: Config, q: Request, script: ScriptMap)
    requires PaysOnlyFee(c, q)
    ensures var es := SnapshotEntries(c, q, []);
      && CoinbaseOf(script, es, q.coinbaseValue) == [CoinbaseOutputs.Output(q.coinbaseValue, script(c.feeAddress))]
      && Tally(es).paid == FeeSats(InputOf(c, q, [])) < q.coinbaseValue
  {
    FeeAloneIsPaid(c, q);
    SingleOutput(script, SnapshotEntries(c, q, []), q.coinbaseValue);
  }

  lemma FeeAloneIsPaid(c: Config, q: Request)
    requires PaysOnlyFee(c, q)
    ensures var es := SnapshotEntries(c, q, []);
      && |Outputs(es)| == 1 && Outputs(es)[0].address == c.feeAddress
      && Tally(es).paid == FeeSats(InputOf(c, q, [])) < q.coinbaseValue
  {
    var input := InputOf(c, q, []);
    CapWithoutWorkers(input, c.env);
    FeeStandsFirst(input, c.env);
    CapConserves(input, c.env, 1);
    FirstKept(Distribute(input, c.env).entries, c.env.collate);
    OutputsPay(SnapshotEntries(c, q, []));
  }

  /** Whoever is paid alone is paid the whole coinbase. */
  lemma SingleOutput(script: ScriptMap, es: seq<Entry>, coinbaseValue: int)
    requires |Outputs(es)| == 1
    ensures CoinbaseOf(script, es, coinbaseValue)
        == [CoinbaseOutputs.Output(coinbaseValue, script(Outputs(es)[0].address))]
  {
    var paid := Outputs(es)[0];
    OutputsPay(es);
    assert Outputs(es)[1..] == [];
    assert PayoutTotal(Outputs(es)) == paid.payout;
    ListTotal(script, es, coinbaseValue);
    PayoutAt(Outputs(es), coinbaseValue, 0);
    CoinbaseOutputs.OutputAt(script, PayoutsOf(es, coinbaseValue), coinbaseValue, coinbaseValue, 0);
  }

  // ---- what the validators say of it ----

  lemma {:induction false} OutputsPay(es: seq<Entry>)
    ensures |Outputs(es)| == IncludedCount(es) && PayoutTotal(Outputs(es)) == Tally(es).paid
  {
    TallyNumbered(es, 1);
    if es != [] {
      OutputsPay(es[1..]);
      var outs := Outputs(es[1..]);
      assert ([es[0]] + outs)[1..] == outs;
    }
  }

  /** A fee above the coinbase leaves nothing for the miners: only the fee entry is included. */
  lemma OversizedFeeStandsAlone(input: Input, env: Env, e: Entry)
    requires FeeSats(input) > CoinbaseSats(input)
    requires e in Distribute(input, env).entries && e.included
    ensures e.address == input.feeAddress
  {
    var miners, fee := MinerEntries(input, env), input.feeAddress;
    var rows := FinalRows(input, env);
    FinalRowsFacts(input, env);
    forall m | m in miners ensures !m.included { MinerWaits(input, env, m); }
    NumberedMember(WithFee(miners, fee, FeeSats(input)), 1, e);
    var k :| e.(rank := k) in WithFee(miners, fee, FeeSats(input));
    assert !PaysAddress(miners, fee);
  }

  lemma MinerWaits(input: Input, env: Env, m: Entry)
    requires FeeSats(input) > CoinbaseSats(input) && m in MinerEntries(input, env)
    ensures !m.included
  {
    var rows := FinalRows(input, env);
    FinalRowsFacts(input, env);
    EntriesOfRows(Ranking(Select(Listed, Order(input), rows), rows, env.collate), rows, m);
    if m.included { IncludedNeedsReward(input, env, m.address); }
  }

  lemma SharedAddress(es: seq<Entry>, a: string)
    requires |es| > 1 && forall e :: e in es ==> e.address == a
    ensures !Distinct(Addresses(es))
  {
    assert es[0] in es && es[1] in es;
    assert Addresses(es)[0] == Addresses(es)[1];
  }

  lemma OversizedFeeOneOutput(input: Input, env: Env)
    requires FeeSats(input) > CoinbaseSats(input)
    ensures IncludedCount(Distribute(input, env).entries) <= 1
  {
    var es := Distribute(input, env).entries;
    OutputsIncluded(es);
    OutputsPay(es);
    forall e | e in Outputs(es) ensures e.address == input.feeAddress { OversizedFeeStandsAlone(input, env, e); }
    OneOutputPerAddress(input, env);
    if |Outputs(es)| > 1 { SharedAddress(Outputs(es), input.feeAddress); }
  }

  /** The recorded payouts behind the first output never use up the coinbase. */
  lemma OthersLeaveSomething(c: Config, q: Request, open: seq<Balance>)
    requires Outputs(SnapshotEntries(c, q, open)) != []
    ensures var es := SnapshotEntries(c, q, open);
      Tally(es).paid - Outputs(es)[0].payout < q.coinbaseValue
  {
    var input := InputOf(c, q, open);
    var dist, es := Distribute(input, c.env).entries, SnapshotEntries(c, q, open);
    OutputsIncluded(es);
    OutputsPay(es);
    IncludedArePaid(c, q, open, Outputs(es)[0]);
    CapConserves(input, c.env, c.maxOutputs);
    if FeeSats(input) > CoinbaseSats(input) {
      OversizedFeeOneOutput(input, c.env);
      assert Outputs(es)[1..] == [];
    } else {
      DistributedWithinCoinbase(input, c.env);
      EntryTotals(input, c.env);
      forall e | e in dist ensures e.payout >= 0 { EntriesPayNonNegative(input, c.env, e); }
      RemovedNotNegative(dist, c.maxOutputs);
    }
  }

  /** The coinbase built from any snapshot that can be stored passes both validators if and
      only if no paid address has a script that looks like a commitment. */
  lemma SnapshotCoinbasePassesIff(c: Config, q: Request, open: seq<Balance>, script: ScriptMap, witnessRoot: bytes)
    requires Outputs(SnapshotEntries(c, q, open)) != [] && q.coinbaseValue >= 0
    ensures
      var es := SnapshotEntries(c, q, open);
      var outs := CoinbaseOf(script, es, q.coinbaseValue) + [CoinbaseOutputs.CommitmentOutput(witnessRoot)];
      CoinbaseOutputs.MatchesPayouts(script, PayoutsOf(es, q.coinbaseValue), q.coinbaseValue, outs)
      <==> forall e :: e in es && e.included ==> !CoinbaseOutputs.IsWitnessCommitment(script(e.address))
  {
    var es := SnapshotEntries(c, q, open);
    var paid, payouts, outs := Outputs(es), PayoutsOf(es, q.coinbaseValue), CoinbaseOf(script, es, q.coinbaseValue);
    OutputsIncluded(es);
    ListTotal(script, es, q.coinbaseValue);
    OthersLeaveSomething(c, q, open);
    CoinbaseOutputs.OwnCoinbasePasses(script, payouts, q.coinbaseValue, witnessRoot);
    forall i | 0 <= i < |paid|
      ensures paid[i] in es && outs[i].value > 0 && outs[i].script == script(paid[i].address)
    {
      assert paid[i] in paid;
      IncludedArePaid(c, q, open, paid[i]);
      PayoutAt(paid, q.coinbaseValue, i);
      CoinbaseOutputs.OutputAt(script, payouts, q.coinbaseValue, q.coinbaseValue, i);
    }
    ScriptsDecide(script, es, paid, outs);
  }

  lemma ScriptsDecide(script: ScriptMap, es: seq<Entry>, paid: seq<Entry>, outs: seq<CoinbaseOutputs.Output>)
    requires |outs| == |paid| && forall e :: e in paid <==> e in es && e.included
    requires forall i :: 0 <= i < |paid| ==> outs[i].value > 0 && outs[i].script == script(paid[i].address)
    ensures (forall o :: o in outs ==> CoinbaseOutputs.Compared(o))
      <==> forall e :: e in es && e.included ==> !CoinbaseOutputs.IsWitnessCommitment(script(e.address))
  {
    if forall o :: o in outs ==> CoinbaseOutputs.Compared(o) {
      forall e | e in es && e.included ensures !CoinbaseOutputs.IsWitnessCommitment(script(e.address)) {
        assert e in paid;
        var i :| 0 <= i < |paid| && paid[i] == e;
        assert outs[i] in outs;
      }
    } else {
      var i :| 0 <= i < |outs| && !CoinbaseOutputs.Compared(outs[i]);
      assert paid[i] in paid;
    }
  }
}
