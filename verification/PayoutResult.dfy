/**
 `buildPayoutDistribution` as a whole
 (src/ORM/payout-snapshot/payout-distribution.ts): the input tables, the payout
 entries, the fee, and what the finished distribution conserves.
 */
module PayoutResult {
  import opened Sequences
  import opened LargestRemainder
  import opened PayoutDistribution

  datatype Work = Work(address: string, credited: real)
  datatype Balance = Balance(address: string, sats: int)

  datatype Input = Input(
    addressWork: seq<Work>, balances: seq<Balance>, coinbaseValue: int,
    feeAddress: string, feePercent: real, minOutput: int, weightBudget: int)

  datatype Entry = Entry(
    address: string, work: real, gross: int, payout: int,
    balanceBefore: int, balanceAfter: int, included: bool, rank: nat)
  {
    predicate Balanced() { payout + balanceAfter == gross + balanceBefore }
  }

  datatype Result = Result(
    entries: seq<Entry>, payoutOutputs: seq<Entry>, consideredAddressCount: nat,
    distributed: int, unallocated: int, feeSats: int)

  // ---- insertion-ordered dictionaries ----

  datatype Dict<V> = Dict(order: seq<string>, values: map<string, V>)
  {
    function Put(key: string, value: V): Dict<V>
    {
      Dict(if key in values then order else order + [key], values[key := value])
    }

    ghost predicate Valid()
    {
      && Distinct(order)
      && forall a :: a in order <==> a in values
    }
  }

  function AddWork(d: Dict<real>, w: Work): Dict<real>
  {
    if w.address == "" || w.credited <= 0.0 then d
    else d.Put(w.address, Weight(d.values, w.address) + w.credited)
  }

  function WorkTable(ws: seq<Work>): Dict<real>
  {
    if ws == [] then Dict([], map[]) else AddWork(WorkTable(ws[..|ws|-1]), ws[|ws|-1])
  }

  function AddBalance(d: Dict<int>, b: Balance): Dict<int>
  {
    if b.address == "" || b.sats == 0 then d else d.Put(b.address, b.sats)
  }

  function BalanceTable(bs: seq<Balance>): Dict<int>
  {
    if bs == [] then Dict([], map[]) else AddBalance(BalanceTable(bs[..|bs|-1]), bs[|bs|-1])
  }

  lemma {:induction false} WorkTableValid(ws: seq<Work>)
    ensures WorkTable(ws).Valid()
    ensures forall a :: a in WorkTable(ws).values ==> WorkTable(ws).values[a] > 0.0
  {
    if ws != [] { WorkTableValid(ws[..|ws|-1]); }
  }

  lemma {:induction false} BalanceTableValid(bs: seq<Balance>)
    ensures BalanceTable(bs).Valid()
    ensures forall a :: a in BalanceTable(bs).values ==> BalanceTable(bs).values[a] != 0
  {
    if bs != [] { BalanceTableValid(bs[..|bs|-1]); }
  }

  // ---- input figures ----

  function CoinbaseSats(input: Input): nat
  {
    if input.coinbaseValue > 0 then input.coinbaseValue else 0
  }

  function MinOutputSats(input: Input): int
  {
    if input.minOutput > DUST_LIMIT_SATS then input.minOutput else DUST_LIMIT_SATS
  }

  function WeightBudget(input: Input): int
  {
    if input.weightBudget > 0 then input.weightBudget else DEFAULT_COINBASE_WEIGHT_BUDGET
  }

  function EffectiveBudget(input: Input): int
  {
    WeightBudget(input) - BUDGET_SAFETY_MARGIN_WEIGHT
  }

  function WantedFeeSats(percent: real, coinbase: nat): int
  {
    (percent / 100.0 * coinbase as real).Floor
  }

  function FeeSats(input: Input): int
  {
    var percent := if input.feePercent > 0.0 then input.feePercent else 0.0;
    var wanted := WantedFeeSats(percent, CoinbaseSats(input));
    if input.feeAddress != "" && wanted >= MinOutputSats(input) then wanted else 0
  }

  function MinerReward(input: Input): int
  {
    CoinbaseSats(input) - FeeSats(input)
  }

  function TotalWork(input: Input): real
  {
    var work := WorkTable(input.addressWork);
    WeightedSum(work.order, work.values)
  }

  // ---- the row table ----

  function NotIn(order: seq<string>, m: map<string, real>): seq<string>
  {
    if order == [] then []
    else (if order[0] in m then [] else [order[0]]) + NotIn(order[1..], m)
  }

  function Order(input: Input): seq<string>
  {
    var work := WorkTable(input.addressWork);
    work.order + NotIn(BalanceTable(input.balances).order, work.values)
  }

  function FirstRow(work: real, fairSats: int, balance: int): Row
  {
    Row(work, fairSats, balance, 0, fairSats + balance, false)
  }

  function InitialRows(input: Input, env: Env): Rows
  {
    var work := WorkTable(input.addressWork);
    var balances := BalanceTable(input.balances).values;
    var fair := Allocate(Weighted(work.order, work.values), MinerReward(input), TotalWork(input), env.collate);
    map a | a in work.values.Keys + balances.Keys ::
      FirstRow(Weight(work.values, a), Get(fair, a), Get(balances, a))
  }

  function PlannedRows(input: Input, env: Env): Rows
  {
    var rows := InitialRows(input, env);
    PayRows(rows, Planned(Order(input), rows, MinerReward(input), TotalWork(input), env.collate))
  }

  /** Weight taken before any miner output is placed. */
  function BaseWeight(input: Input, env: Env): int
  {
    COINBASE_BASE_WEIGHT + COINBASE_WITNESS_COMMITMENT_WEIGHT
    + (if FeeSats(input) > 0 then env.weightOf(input.feeAddress) else 0)
  }

  /** The rows competing for an output, best first. */
  function Eligible(input: Input, env: Env): seq<string>
  {
    var rows := PlannedRows(input, env);
    Ranking(Select(Payable(MinOutputSats(input)), Order(input), rows), rows, env.collate)
  }

  function Fitted(input: Input, env: Env): seq<string>
  {
    Fit(Eligible(input, env), BaseWeight(input, env), EffectiveBudget(input), env.weightOf)
  }

  function FinalRows(input: Input, env: Env): Rows
  {
    Redistributed(Order(input), FitRows(PlannedRows(input, env), Fitted(input, env)), MinerReward(input), env.collate)
  }

  // ---- the entries ----

  function ToEntry(a: string, r: Row): Entry
  {
    Entry(a, r.work, r.fairSats, r.payout, r.balanceBefore, r.balanceAfter, r.included, 0)
  }

  function ToEntries(names: seq<string>, rows: Rows): seq<Entry>
  {
    if names == [] then []
    else if names[0] in rows then [ToEntry(names[0], rows[names[0]])] + ToEntries(names[1..], rows)
    else ToEntries(names[1..], rows)
  }

  function FeeEntry(address: string, sats: int): Entry
  {
    Entry(address, 0.0, sats, sats, 0, 0, true, 1)
  }

  predicate PaysAddress(es: seq<Entry>, address: string)
  {
    exists e :: e in es && e.address == address && e.included
  }

  /** Add the fee to the first included entry of its address. */
  function AddFee(es: seq<Entry>, address: string, sats: int): seq<Entry>
  {
    if es == [] then []
    else if es[0].address == address && es[0].included
    then [es[0].(payout := es[0].payout + sats, gross := es[0].gross + sats)] + es[1..]
    else [es[0]] + AddFee(es[1..], address, sats)
  }

  function MergeFee(es: seq<Entry>, address: string, sats: int): seq<Entry>
  {
    if PaysAddress(es, address) then AddFee(es, address, sats) else [FeeEntry(address, sats)] + es
  }

  function Numbered(es: seq<Entry>, rank: nat): seq<Entry>
  {
    if es == [] then [] else [es[0].(rank := rank)] + Numbered(es[1..], rank + 1)
  }

  function Outputs(es: seq<Entry>): seq<Entry>
  {
    if es == [] then []
    else if es[0].included then [es[0]] + Outputs(es[1..])
    else Outputs(es[1..])
  }

  function PayoutTotal(es: seq<Entry>): int
  {
    if es == [] then 0 else es[0].payout + PayoutTotal(es[1..])
  }

  function MinerEntries(input: Input, env: Env): seq<Entry>
  {
    var rows := FinalRows(input, env);
    ToEntries(Ranking(Select(Listed, Order(input), rows), rows, env.collate), rows)
  }

  function WithFee(miners: seq<Entry>, address: string, sats: int): seq<Entry>
  {
    if sats > 0 then MergeFee(miners, address, sats) else miners
  }

  function Entries(input: Input, env: Env): seq<Entry>
  {
    Numbered(WithFee(MinerEntries(input, env), input.feeAddress, FeeSats(input)), 1)
  }

  predicate Worthless(input: Input)
  {
    CoinbaseSats(input) <= 0 || TotalWork(input) <= 0.0
  }

  function Distribute(input: Input, env: Env): Result
  {
    if Worthless(input) then Result([], [], 0, 0, CoinbaseSats(input), FeeSats(input))
    else
      var entries := Entries(input, env);
      var outputs := Outputs(entries);
      var distributed := PayoutTotal(outputs);
      Result(entries, outputs, |Order(input)|, distributed, CoinbaseSats(input) - distributed, FeeSats(input))
  }

  // ---- the row table is well formed and the fair shares add up ----

  lemma {:induction false} NotInFacts(order: seq<string>, m: map<string, real>)
    ensures forall a :: a in NotIn(order, m) <==> a in order && a !in m
    ensures Distinct(order) ==> Distinct(NotIn(order, m))
  {
    if order != [] {
      NotInFacts(order[1..], m);
      assert forall i :: 0 <= i < |order[1..]| ==> order[1..][i] == order[i + 1];
    }
  }

  lemma InitialTable(input: Input, env: Env)
    ensures Table(Order(input), InitialRows(input, env))
    ensures Unpaid(InitialRows(input, env))
    ensures AllBalanced(InitialRows(input, env))
  {
    var work := WorkTable(input.addressWork);
    var balances := BalanceTable(input.balances);
    WorkTableValid(input.addressWork);
    BalanceTableValid(input.balances);
    NotInFacts(balances.order, work.values);
    var rest := NotIn(balances.order, work.values);
    forall i, j | 0 <= i < j < |work.order + rest| ensures (work.order + rest)[i] != (work.order + rest)[j] {
      if i < |work.order| <= j { assert work.order[i] in work.order; assert rest[j - |work.order|] in rest; }
    }
  }

  lemma {:induction false} SelectAppend(c: Choice, s: seq<string>, t: seq<string>, rows: Rows)
    ensures Select(c, s + t, rows) == Select(c, s, rows) + Select(c, t, rows)
  {
    if s == [] {
      assert s + t == t;
    } else {
      assert (s + t)[1..] == s[1..] + t;
      SelectAppend(c, s[1..], t, rows);
    }
  }

  lemma {:induction false} SelectAll(c: Choice, s: seq<string>, rows: Rows)
    requires forall a :: a in s ==> a in rows && Chosen(c, rows[a])
    ensures Select(c, s, rows) == s
  {
    if s != [] { SelectAll(c, s[1..], rows); }
  }

  lemma {:induction false} SelectNone(c: Choice, s: seq<string>, rows: Rows)
    requires forall a :: a in s ==> a in rows && !Chosen(c, rows[a])
    ensures Select(c, s, rows) == []
  {
    if s != [] { SelectNone(c, s[1..], rows); }
  }

  lemma {:induction false} WeightedSumAgree(items: seq<string>, m: map<string, real>, n: map<string, real>)
    requires forall a :: a in items ==> Weight(m, a) == Weight(n, a)
    ensures WeightedSum(items, m) == WeightedSum(items, n)
  {
    if items != [] { WeightedSumAgree(items[1..], m, n); }
  }

  /** The total work is the work of the rows that have any. */
  lemma TotalWorkIsRowWork(input: Input, env: Env)
    ensures var rows := InitialRows(input, env);
      TotalWork(input) == WeightedSum(Select(Working, Order(input), rows), Works(rows))
  {
    var work := WorkTable(input.addressWork);
    var rows := InitialRows(input, env);
    var rest := NotIn(BalanceTable(input.balances).order, work.values);
    WorkTableValid(input.addressWork);
    BalanceTableValid(input.balances);
    NotInFacts(BalanceTable(input.balances).order, work.values);
    SelectAppend(Working, work.order, rest, rows);
    SelectAll(Working, work.order, rows);
    SelectNone(Working, rest, rows);
    assert work.order + [] == work.order;
    WeightedSumAgree(work.order, work.values, Works(rows));
  }

  lemma FairTotal(input: Input, env: Env)
    requires !Worthless(input)
    ensures Sum(Order(input), Fair(InitialRows(input, env)))
         == if MinerReward(input) > 0 then MinerReward(input) else 0
  {
    var work := WorkTable(input.addressWork);
    var rows := InitialRows(input, env);
    var fair := Apportion(work.order, work.values, MinerReward(input), env.collate);
    WorkTableValid(input.addressWork);
    InitialTable(input, env);
    ApportionFacts(work.order, work.values, MinerReward(input), env.collate);
    SumAgree(Order(input), Fair(rows), fair);
    SumAppend(work.order, NotIn(BalanceTable(input.balances).order, work.values), fair);
    NotInFacts(BalanceTable(input.balances).order, work.values);
    SumZero(NotIn(BalanceTable(input.balances).order, work.values), fair);
    assert work.order == [] ==> TotalWork(input) == 0.0;
  }

  lemma {:induction false} SumAppend(s: seq<string>, t: seq<string>, m: map<string, int>)
    ensures Sum(s + t, m) == Sum(s, m) + Sum(t, m)
  {
    if s == [] {
      assert s + t == t;
    } else {
      assert (s + t)[1..] == s[1..] + t;
      SumAppend(s[1..], t, m);
    }
  }

  // ---- through the stages ----

  lemma PlannedRowsFacts(input: Input, env: Env)
    ensures var rows := PlannedRows(input, env);
      && Table(Order(input), rows)
      && AllBalanced(rows)
      && (forall a :: a in rows ==> rows[a].payout >= 0 && !rows[a].included)
      && Sum(Order(input), Payouts(rows)) <= (if MinerReward(input) > 0 then MinerReward(input) else 0)
  {
    var rows := InitialRows(input, env);
    InitialTable(input, env);
    TotalWorkIsRowWork(input, env);
    var planned := Planned(Order(input), rows, MinerReward(input), TotalWork(input), env.collate);
    PlannedFacts(Order(input), rows, MinerReward(input), TotalWork(input), env.collate);
    PayRowsFacts(Order(input), rows, planned);
  }

  lemma FinalRowsFacts(input: Input, env: Env)
    ensures var rows := FinalRows(input, env);
      && Table(Order(input), rows)
      && AllBalanced(rows)
      && (forall a :: a in rows && !rows[a].included ==> rows[a].payout == 0)
      && OnlyRaises(FitRows(PlannedRows(input, env), Fitted(input, env)), rows)
      && Sum(Order(input), PaidOut(rows)) <= (if MinerReward(input) > 0 then MinerReward(input) else 0)
      && (SomeWorkerIncluded(rows) && MinerReward(input) > 0 ==>
            Sum(Order(input), PaidOut(rows)) == MinerReward(input))
  {
    var order := Order(input);
    var planned := PlannedRows(input, env);
    var fit := FitRows(planned, Fitted(input, env));
    PlannedRowsFacts(input, env);
    FitRowsFacts(order, planned, Fitted(input, env));
    RedistributedFacts(order, fit, MinerReward(input), env.collate);
    var rows := FinalRows(input, env);
    forall a | a in rows && !rows[a].included ensures rows[a].payout == 0 { assert rows[a] == fit[a]; }
    if SomeWorkerIncluded(rows) {
      var a :| a in rows && rows[a].included && rows[a].work > 0.0;
      assert fit[a].included && fit[a].work > 0.0;
    }
  }

  /** The same addresses with the same work, fair share and opening balance. */
  ghost predicate SameDues(rows: Rows, rows': Rows)
  {
    && rows.Keys == rows'.Keys
    && forall a :: a in rows ==>
      && rows[a].fairSats == rows'[a].fairSats
      && rows[a].balanceBefore == rows'[a].balanceBefore && rows[a].work == rows'[a].work
  }

  lemma StageDues(rows: Rows, planned: map<string, int>, fit: seq<string>)
    ensures SameDues(rows, PayRows(rows, planned))
    ensures SameDues(rows, FitRows(rows, fit))
  {
  }

  /** No stage touches a fair share or an opening balance. */
  lemma DuesKept(input: Input, env: Env)
    ensures SameDues(InitialRows(input, env), FinalRows(input, env))
  {
    var rows := InitialRows(input, env);
    var planned := PlannedRows(input, env);
    StageDues(rows, Planned(Order(input), rows, MinerReward(input), TotalWork(input), env.collate), []);
    StageDues(planned, map[], Fitted(input, env));
    FinalRowsFacts(input, env);
    RaisesDues(FitRows(planned, Fitted(input, env)), FinalRows(input, env));
  }

  lemma RaisesDues(rows: Rows, rows': Rows)
    requires OnlyRaises(rows, rows')
    ensures SameDues(rows, rows')
  {
  }

  // ---- totals of entry lists ----

  datatype Totals = Totals(paid: int, gross: int, shift: int)
  {
    function Plus(t: Totals): Totals { Totals(paid + t.paid, gross + t.gross, shift + t.shift) }
  }

  function TallyOne(e: Entry): Totals
  {
    Totals(if e.included then e.payout else 0, e.gross, e.balanceAfter - e.balanceBefore)
  }

  /** What a list of entries pays out, credits, and moves on the balances. */
  function Tally(es: seq<Entry>): Totals
  {
    if es == [] then Totals(0, 0, 0) else TallyOne(es[0]).Plus(Tally(es[1..]))
  }

  function Shifts(rows: Rows): map<string, int> { map a | a in rows :: rows[a].balanceAfter - rows[a].balanceBefore }

  lemma {:induction false} TallyOfRows(names: seq<string>, rows: Rows)
    ensures Tally(ToEntries(names, rows))
        == Totals(Sum(names, PaidOut(rows)), Sum(names, Fair(rows)), Sum(names, Shifts(rows)))
  {
    if names != [] {
      TallyOfRows(names[1..], rows);
      TallyOfRow(names[0], rows);
      if names[0] in rows {
        TallyCons(ToEntry(names[0], rows[names[0]]), ToEntries(names[1..], rows));
      }
    }
  }

  lemma TallyCons(e: Entry, es: seq<Entry>)
    ensures Tally([e] + es) == TallyOne(e).Plus(Tally(es))
  {
    assert ([e] + es)[1..] == es;
  }

  lemma TallyOfRow(a: string, rows: Rows)
    ensures Totals(Get(PaidOut(rows), a), Get(Fair(rows), a), Get(Shifts(rows), a))
         == if a in rows then TallyOne(ToEntry(a, rows[a])) else Totals(0, 0, 0)
  {
  }

  lemma {:induction false} TallyNumbered(es: seq<Entry>, rank: nat)
    ensures Tally(Numbered(es, rank)) == Tally(es)
    ensures PayoutTotal(Outputs(es)) == Tally(es).paid
  {
    if es != [] {
      TallyNumbered(es[1..], rank + 1);
      var rest := Numbered(es[1..], rank + 1);
      assert ([es[0].(rank := rank)] + rest)[1..] == rest;
      var outs := Outputs(es[1..]);
      assert ([es[0]] + outs)[1..] == outs;
    }
  }

  lemma {:induction false} TallyAddFee(es: seq<Entry>, address: string, sats: int)
    requires PaysAddress(es, address)
    ensures Tally(AddFee(es, address, sats)) == Tally(es).Plus(Totals(sats, sats, 0))
  {
    if es[0].address == address && es[0].included {
      var first := es[0].(payout := es[0].payout + sats, gross := es[0].gross + sats);
      assert ([first] + es[1..])[1..] == es[1..];
    } else {
      TallyAddFee(es[1..], address, sats);
      var rest := AddFee(es[1..], address, sats);
      assert ([es[0]] + rest)[1..] == rest;
    }
  }

  lemma TallyMergeFee(es: seq<Entry>, address: string, sats: int)
    ensures Tally(MergeFee(es, address, sats)) == Tally(es).Plus(Totals(sats, sats, 0))
  {
    if PaysAddress(es, address) {
      TallyAddFee(es, address, sats);
    } else {
      assert ([FeeEntry(address, sats)] + es)[1..] == es;
    }
  }

  /** The listed rows carry every satoshi of the table. */
  lemma MinerTally(input: Input, env: Env)
    ensures var rows := FinalRows(input, env);
      var order := Order(input);
      Tally(MinerEntries(input, env))
        == Totals(Sum(order, PaidOut(rows)), Sum(order, Fair(rows)), Sum(order, Shifts(rows)))
  {
    var rows := FinalRows(input, env);
    var order := Order(input);
    FinalRowsFacts(input, env);
    TallyOfRows(Ranking(Select(Listed, order, rows), rows, env.collate), rows);
    UnlistedAreZero(rows);
    SumOverListed(order, rows, env.collate, PaidOut(rows));
    SumOverListed(order, rows, env.collate, Fair(rows));
    SumOverListed(order, rows, env.collate, Shifts(rows));
  }

  lemma UnlistedAreZero(rows: Rows)
    requires AllBalanced(rows)
    requires forall a :: a in rows && !rows[a].included ==> rows[a].payout == 0
    ensures forall a :: a in rows && !Chosen(Listed, rows[a]) ==>
      Get(PaidOut(rows), a) == 0 && Get(Fair(rows), a) == 0 && Get(Shifts(rows), a) == 0
  {
    forall a | a in rows && !Chosen(Listed, rows[a])
      ensures Get(PaidOut(rows), a) == 0 && Get(Fair(rows), a) == 0 && Get(Shifts(rows), a) == 0
    {
      assert rows[a].Balanced();
    }
  }

  lemma SumOverListed(order: seq<string>, rows: Rows, collate: Collation, m: map<string, int>)
    requires Table(order, rows)
    requires forall a :: a in rows && !Chosen(Listed, rows[a]) ==> Get(m, a) == 0
    ensures Sum(Ranking(Select(Listed, order, rows), rows, collate), m) == Sum(order, m)
  {
    ListedNames(order, rows, collate);
    SumOfSameNames(Ranking(Select(Listed, order, rows), rows, collate), Select(Listed, order, rows), m);
    SelectSum(Listed, order, rows, m);
  }

  lemma ListedNames(order: seq<string>, rows: Rows, collate: Collation)
    requires Table(order, rows)
    ensures var listed := Select(Listed, order, rows);
      var names := Ranking(listed, rows, collate);
      && Distinct(listed) && Distinct(names)
      && (forall a :: a in names <==> a in listed)
      && (forall a :: a in listed <==> a in rows && Chosen(Listed, rows[a]))
  {
    var listed := Select(Listed, order, rows);
    SelectDistinct(Listed, order, rows);
    forall a ensures a in listed <==> a in rows && Chosen(Listed, rows[a]) { SelectMember(Listed, order, rows, a); }
    RankingFacts(listed, rows, collate);
  }

  // ---- main results ----

  lemma {:induction false} EntriesOfRows(names: seq<string>, rows: Rows, e: Entry)
    requires e in ToEntries(names, rows)
    ensures e.address in names && e.address in rows && e == ToEntry(e.address, rows[e.address])
  {
    if names[0] in rows && e == ToEntry(names[0], rows[names[0]]) {
    } else {
      EntriesOfRows(names[1..], rows, e);
    }
  }

  lemma {:induction false} NumberedMember(es: seq<Entry>, rank: nat, e: Entry)
    requires e in Numbered(es, rank)
    ensures exists r :: es != [] && e.(rank := r) in es
  {
    if e == es[0].(rank := rank) {
      assert e.(rank := es[0].rank) in es;
    } else {
      NumberedMember(es[1..], rank + 1, e);
      var r :| e.(rank := r) in es[1..];
      assert e.(rank := r) in es;
    }
  }

  lemma {:induction false} AddFeeMember(es: seq<Entry>, address: string, sats: int, e: Entry)
    requires e in AddFee(es, address, sats)
    ensures e in es
        || (e.included && e.address == address && e.(payout := e.payout - sats, gross := e.gross - sats) in es)
  {
    if es[0].address == address && es[0].included {
      var first := es[0].(payout := es[0].payout + sats, gross := es[0].gross + sats);
      if e == first {
        assert e.(payout := e.payout - sats, gross := e.gross - sats) == es[0];
      }
    } else if e != es[0] {
      AddFeeMember(es[1..], address, sats, e);
    }
  }

  /** Every entry of every distribution is balanced: what an address is credited and what
      it was owed is what it is paid and what stays on its balance. Pending entries are
      paid nothing. */
  lemma EntriesConserve(input: Input, env: Env, e: Entry)
    requires e in Distribute(input, env).entries
    ensures e.Balanced()
    ensures !e.included ==> e.payout == 0
  {
    var miners := MinerEntries(input, env);
    forall m | m in miners ensures m.Balanced() && (!m.included ==> m.payout == 0) {
      var rows := FinalRows(input, env);
      FinalRowsFacts(input, env);
      EntriesOfRows(Ranking(Select(Listed, Order(input), rows), rows, env.collate), rows, m);
      assert rows[m.address].Balanced();
    }
    var merged := WithFee(miners, input.feeAddress, FeeSats(input));
    NumberedMember(merged, 1, e);
    var r :| e.(rank := r) in merged;
    var m := e.(rank := r);
    if FeeSats(input) > 0 && PaysAddress(miners, input.feeAddress) {
      AddFeeMember(miners, input.feeAddress, FeeSats(input), m);
    }
  }

  lemma RowTotals(input: Input, env: Env)
    requires !Worthless(input)
    ensures var rows := FinalRows(input, env);
      var order := Order(input);
      && Sum(order, Fair(rows)) == (if MinerReward(input) > 0 then MinerReward(input) else 0)
      && Sum(order, Shifts(rows)) == Sum(order, Fair(rows)) - Sum(order, PaidOut(rows))
  {
    var rows := FinalRows(input, env);
    var order := Order(input);
    FairTotal(input, env);
    DuesKept(input, env);
    InitialTable(input, env);
    SumAgree(order, Fair(rows), Fair(InitialRows(input, env)));
    FinalRowsFacts(input, env);
    ShiftBalances(rows);
    SumAdd(order, PaidOut(rows), Shifts(rows), Fair(rows));
  }

  lemma ShiftBalances(rows: Rows)
    requires AllBalanced(rows)
    requires forall a :: a in rows && !rows[a].included ==> rows[a].payout == 0
    ensures forall a :: Get(Fair(rows), a) == Get(PaidOut(rows), a) + Get(Shifts(rows), a)
  {
    forall a ensures Get(Fair(rows), a) == Get(PaidOut(rows), a) + Get(Shifts(rows), a) {
      if a in rows { assert rows[a].Balanced(); }
    }
  }

  /** The totals of a distribution. */
  lemma EntryTotals(input: Input, env: Env)
    requires !Worthless(input)
    ensures var r := Distribute(input, env);
      && r.distributed == Sum(Order(input), PaidOut(FinalRows(input, env))) + FeeSats(input)
      && Tally(r.entries).paid == r.distributed
      && Tally(r.entries).gross == (if MinerReward(input) > 0 then MinerReward(input) else 0) + FeeSats(input)
      && Tally(r.entries).shift == Tally(r.entries).gross - r.distributed
  {
    MinerTally(input, env);
    RowTotals(input, env);
    FeeIsNotNegative(input);
    MergedTally(MinerEntries(input, env), input.feeAddress, FeeSats(input));
    TallyNumbered(Entries(input, env), 1);
  }

  lemma MergedTally(miners: seq<Entry>, address: string, sats: nat)
    ensures Tally(Numbered(WithFee(miners, address, sats), 1)) == Tally(miners).Plus(Totals(sats, sats, 0))
  {
    TallyMergeFee(miners, address, sats);
    TallyNumbered(WithFee(miners, address, sats), 1);
  }

  lemma FeeIsNotNegative(input: Input)
    ensures FeeSats(input) >= 0
  {
  }

  lemma WantedFeeWithinCoinbase(percent: real, coinbase: nat)
    requires 0.0 <= percent <= 100.0
    ensures WantedFeeSats(percent, coinbase) <= coinbase
  {
    ScaleDown(percent / 100.0, coinbase as real);
    var wanted := WantedFeeSats(percent, coinbase);
    assert wanted as real <= percent / 100.0 * coinbase as real;
  }

  lemma ScaleDown(f: real, c: real)
    requires 0.0 <= f <= 1.0 && c >= 0.0
    ensures f * c <= c
  {
  }

  lemma FeeWithinCoinbase(input: Input)
    requires input.feePercent <= 100.0
    ensures FeeSats(input) <= CoinbaseSats(input)
  {
    WantedFeeWithinCoinbase(if input.feePercent > 0.0 then input.feePercent else 0.0, CoinbaseSats(input));
  }

  /** A distribution never hands out more than the coinbase, exactly as long as the
      fee itself does not exceed it; a fee of at most 100 percent never does. */
  lemma DistributedWithinCoinbase(input: Input, env: Env)
    ensures var r := Distribute(input, env);
      && r.distributed + r.unallocated == CoinbaseSats(input)
      && (r.distributed <= CoinbaseSats(input) <==> Worthless(input) || r.feeSats <= CoinbaseSats(input))
      && (input.feePercent <= 100.0 ==> r.feeSats <= CoinbaseSats(input))
  {
    if !Worthless(input) {
      EntryTotals(input, env);
      FinalRowsFacts(input, env);
      PaidOutNotNegative(input, env);
    }
    if input.feePercent <= 100.0 { FeeWithinCoinbase(input); }
  }

  lemma PaidOutNotNegative(input: Input, env: Env)
    ensures Sum(Order(input), PaidOut(FinalRows(input, env))) >= 0
  {
    var planned := PlannedRows(input, env);
    var fit := FitRows(planned, Fitted(input, env));
    PlannedRowsFacts(input, env);
    FitRowsFacts(Order(input), planned, Fitted(input, env));
    FinalRowsFacts(input, env);
    RaisedPaidOut(Order(input), fit, FinalRows(input, env));
  }

  lemma RaisedPaidOut(order: seq<string>, rows: Rows, rows': Rows)
    requires OnlyRaises(rows, rows')
    requires forall a :: a in rows ==> rows[a].payout >= 0
    ensures Sum(order, PaidOut(rows')) >= 0
  {
    SumNonNegative(order, PaidOut(rows'));
  }

  /** A fee above 100 percent does break it. */
  lemma FeeAboveCoinbase(env: Env)
    ensures var input := Input([Work("miner", 1.0)], [], 1000, "fee", 200.0, 546, 50_000);
      Distribute(input, env).distributed > CoinbaseSats(input)
  {
    var input := Input([Work("miner", 1.0)], [], 1000, "fee", 200.0, 546, 50_000);
    assert input.addressWork[..0] == [];
    assert WorkTable(input.addressWork) == AddWork(WorkTable([]), Work("miner", 1.0));
    assert TotalWork(input) == 1.0;
    DistributedWithinCoinbase(input, env);
  }

  /** If any miner with work is paid in this coinbase, the whole reward is handed out
      and the balances only change hands. */
  lemma WorkingRowPaysAll(input: Input, env: Env, e: Entry)
    requires e in Distribute(input, env).entries
    requires e.included && e.work > 0.0
    ensures var r := Distribute(input, env);
      && r.distributed == CoinbaseSats(input)
      && r.unallocated == 0
      && Tally(r.entries).shift == 0
  {
    var a := EntryRow(input, env, e);
    WorkingRowTakesAll(input, env, a);
    EntryTotals(input, env);
    DistributedWithinCoinbase(input, env);
  }

  lemma WorkingRowTakesAll(input: Input, env: Env, a: string)
    requires !Worthless(input)
    requires a in FinalRows(input, env) && FinalRows(input, env)[a].included && FinalRows(input, env)[a].work > 0.0
    ensures MinerReward(input) > 0
    ensures Sum(Order(input), PaidOut(FinalRows(input, env))) == MinerReward(input)
  {
    FinalRowsFacts(input, env);
    IncludedNeedsReward(input, env, a);
  }

  lemma IncludedAreFitted(input: Input, env: Env, a: string)
    requires a in FinalRows(input, env)
    ensures FinalRows(input, env)[a].included <==> a in Fitted(input, env)
    ensures a in Fitted(input, env) ==> a in Eligible(input, env)
  {
    var planned := PlannedRows(input, env);
    PlannedRowsFacts(input, env);
    FinalRowsFacts(input, env);
    RaisedIncluded(planned, Fitted(input, env), FinalRows(input, env), a);
    if a in Fitted(input, env) {
      FitMember(Eligible(input, env), BaseWeight(input, env), EffectiveBudget(input),
                env.weightOf, a);
    }
  }

  lemma RaisedIncluded(rows: Rows, fit: seq<string>, rows': Rows, a: string)
    requires OnlyRaises(FitRows(rows, fit), rows')
    requires forall b :: b in rows ==> !rows[b].included
    requires a in rows'
    ensures rows'[a].included <==> a in fit
  {
  }

  /** The competing rows: planned a payout, and either working or worth an output. */
  lemma EligibleFacts(input: Input, env: Env)
    ensures Distinct(Eligible(input, env))
    ensures forall a :: a in Eligible(input, env) <==>
      a in PlannedRows(input, env) && Chosen(Payable(MinOutputSats(input)), PlannedRows(input, env)[a])
  {
    var rows := PlannedRows(input, env);
    var payable := Select(Payable(MinOutputSats(input)), Order(input), rows);
    PlannedRowsFacts(input, env);
    SelectDistinct(Payable(MinOutputSats(input)), Order(input), rows);
    forall a ensures a in payable <==> a in rows && Chosen(Payable(MinOutputSats(input)), rows[a]) {
      SelectMember(Payable(MinOutputSats(input)), Order(input), rows, a);
    }
    RankingFacts(payable, rows, env.collate);
  }

  lemma IncludedNeedsReward(input: Input, env: Env, a: string)
    requires a in FinalRows(input, env) && FinalRows(input, env)[a].included
    ensures MinerReward(input) > 0
  {
    var rows := PlannedRows(input, env);
    IncludedAreFitted(input, env, a);
    EligibleFacts(input, env);
    PlannedRowsFacts(input, env);
    SumAtLeast(Order(input), Payouts(rows), a);
  }

  lemma {:induction false} SumAtLeast(items: seq<string>, m: map<string, int>, a: string)
    requires a in items
    requires forall b :: b in items ==> Get(m, b) >= 0
    ensures Sum(items, m) >= Get(m, a)
  {
    if a == items[0] {
      SumNonNegative(items[1..], m);
    } else {
      SumAtLeast(items[1..], m, a);
    }
  }

  /** The row behind an entry that has work. */
  lemma EntryRow(input: Input, env: Env, e: Entry) returns (a: string)
    requires e in Entries(input, env) && e.work > 0.0
    ensures a in FinalRows(input, env)
    ensures var r := FinalRows(input, env)[a];
      a == e.address && r.work == e.work && r.included == e.included
  {
    var miners := MinerEntries(input, env);
    var rows := FinalRows(input, env);
    NumberedMember(WithFee(miners, input.feeAddress, FeeSats(input)), 1, e);
    var k :| e.(rank := k) in WithFee(miners, input.feeAddress, FeeSats(input));
    var m := MinerBehind(miners, input.feeAddress, FeeSats(input), e.(rank := k));
    EntriesOfRows(Ranking(Select(Listed, Order(input), rows), rows, env.collate), rows, m);
    a := m.address;
  }

  lemma MinerBehind(miners: seq<Entry>, address: string, sats: int, e: Entry) returns (m: Entry)
    requires e in WithFee(miners, address, sats)
    requires e.work > 0.0
    ensures m in miners && m.address == e.address && m.work == e.work && m.included == e.included
  {
    if e in miners {
      m := e;
    } else if PaysAddress(miners, address) {
      AddFeeMember(miners, address, sats, e);
      m := e.(payout := e.payout - sats, gross := e.gross - sats);
    } else {
      assert false;
    }
  }

  // ---- weight budget ----

  /** Weight of the included entries. */
  function OutputWeight(es: seq<Entry>, weightOf: string -> nat): nat
  {
    if es == [] then 0
    else (if es[0].included then weightOf(es[0].address) else 0) + OutputWeight(es[1..], weightOf)
  }

  function IncludedWeights(rows: Rows, weightOf: string -> nat): map<string, int>
  {
    map a | a in rows :: if rows[a].included then weightOf(a) else 0
  }

  lemma {:induction false} WeightOfRows(names: seq<string>, rows: Rows, weightOf: string -> nat)
    ensures OutputWeight(ToEntries(names, rows), weightOf) == Sum(names, IncludedWeights(rows, weightOf))
  {
    if names != [] {
      WeightOfRows(names[1..], rows, weightOf);
      if names[0] in rows {
        var rest := ToEntries(names[1..], rows);
        assert ([ToEntry(names[0], rows[names[0]])] + rest)[1..] == rest;
      }
    }
  }

  lemma {:induction false} WeightNumbered(es: seq<Entry>, rank: nat, weightOf: string -> nat)
    ensures OutputWeight(Numbered(es, rank), weightOf) == OutputWeight(es, weightOf)
    ensures OutputWeight(Outputs(es), weightOf) == OutputWeight(es, weightOf)
  {
    if es != [] {
      WeightNumbered(es[1..], rank + 1, weightOf);
      var rest := Numbered(es[1..], rank + 1);
      assert ([es[0].(rank := rank)] + rest)[1..] == rest;
      var outs := Outputs(es[1..]);
      assert ([es[0]] + outs)[1..] == outs;
    }
  }

  lemma {:induction false} WeightAddFee(es: seq<Entry>, address: string, sats: int, weightOf: string -> nat)
    ensures OutputWeight(AddFee(es, address, sats), weightOf) == OutputWeight(es, weightOf)
  {
    if es != [] {
      if es[0].address == address && es[0].included {
        var first := es[0].(payout := es[0].payout + sats, gross := es[0].gross + sats);
        assert ([first] + es[1..])[1..] == es[1..];
      } else {
        WeightAddFee(es[1..], address, sats, weightOf);
        var rest := AddFee(es[1..], address, sats);
        assert ([es[0]] + rest)[1..] == rest;
      }
    }
  }

  lemma WeightWithFee(es: seq<Entry>, address: string, sats: int, weightOf: string -> nat)
    ensures OutputWeight(WithFee(es, address, sats), weightOf)
         <= OutputWeight(es, weightOf) + (if sats > 0 then weightOf(address) else 0)
  {
    WeightAddFee(es, address, sats, weightOf);
    assert ([FeeEntry(address, sats)] + es)[1..] == es;
  }

  lemma {:induction false} WeightOfNames(items: seq<string>, rows: Rows, weightOf: string -> nat)
    requires forall a :: a in items ==> a in rows && rows[a].included
    ensures WeightOfAll(items, weightOf) == Sum(items, IncludedWeights(rows, weightOf))
  {
    if items != [] { WeightOfNames(items[1..], rows, weightOf); }
  }

  lemma RowsWeight(order: seq<string>, rows: Rows, fitted: seq<string>, env: Env)
    requires Table(order, rows) && Distinct(fitted)
    requires forall a :: a in fitted <==> a in rows && rows[a].included
    ensures OutputWeight(ToEntries(Ranking(Select(Listed, order, rows), rows, env.collate), rows), env.weightOf)
         == WeightOfAll(fitted, env.weightOf)
  {
    var weights := IncludedWeights(rows, env.weightOf);
    WeightOfRows(Ranking(Select(Listed, order, rows), rows, env.collate), rows, env.weightOf);
    SumOverListed(order, rows, env.collate, weights);
    var included := Select(Included, order, rows);
    SelectSum(Included, order, rows, weights);
    SelectDistinct(Included, order, rows);
    forall a ensures a in included <==> a in fitted { SelectMember(Included, order, rows, a); }
    SumOfSameNames(included, fitted, weights);
    WeightOfNames(fitted, rows, env.weightOf);
  }

  lemma FittedAreIncluded(input: Input, env: Env)
    ensures Distinct(Fitted(input, env))
    ensures forall a :: a in Fitted(input, env) <==> a in FinalRows(input, env) && FinalRows(input, env)[a].included
  {
    EligibleFacts(input, env);
    FitDistinct(Eligible(input, env), BaseWeight(input, env), EffectiveBudget(input), env.weightOf);
    forall a ensures a in Fitted(input, env) <==> a in FinalRows(input, env) && FinalRows(input, env)[a].included {
      if a in Fitted(input, env) { FittedIsRow(input, env, a); }
      if a in FinalRows(input, env) { IncludedAreFitted(input, env, a); }
    }
  }

  lemma FittedIsRow(input: Input, env: Env, a: string)
    requires a in Fitted(input, env)
    ensures a in FinalRows(input, env)
  {
    FitMember(Eligible(input, env), BaseWeight(input, env), EffectiveBudget(input), env.weightOf, a);
    EligibleFacts(input, env);
    FinalRowsFacts(input, env);
    PlannedRowsFacts(input, env);
  }

  lemma EntriesWeight(miners: seq<Entry>, address: string, sats: int, weightOf: string -> nat)
    ensures OutputWeight(Outputs(Numbered(WithFee(miners, address, sats), 1)), weightOf)
         <= OutputWeight(miners, weightOf) + (if sats > 0 then weightOf(address) else 0)
  {
    var es := WithFee(miners, address, sats);
    WeightWithFee(miners, address, sats, weightOf);
    WeightNumbered(es, 1, weightOf);
    WeightNumbered(Numbered(es, 1), 1, weightOf);
  }

  /** With any miner paid, the transaction base, the commitment and all payout outputs
      stay within the weight budget less its safety margin. */
  lemma OutputsWithinBudget(input: Input, env: Env)
    requires !Worthless(input)
    requires exists a :: a in FinalRows(input, env) && FinalRows(input, env)[a].included
    ensures COINBASE_BASE_WEIGHT + COINBASE_WITNESS_COMMITMENT_WEIGHT
            + OutputWeight(Distribute(input, env).payoutOutputs, env.weightOf)
         <= EffectiveBudget(input)
  {
    FittedAreIncluded(input, env);
    FinalRowsFacts(input, env);
    RowsWeight(Order(input), FinalRows(input, env), Fitted(input, env), env);
    EntriesWeight(MinerEntries(input, env), input.feeAddress, FeeSats(input), env.weightOf);
    FitWithinBudget(Eligible(input, env), BaseWeight(input, env), EffectiveBudget(input), env.weightOf);
  }

  /** The rows already placed when the row ranked `i` has its turn. */
  function Ahead(input: Input, env: Env, i: nat): seq<string>
    requires i <= |Eligible(input, env)|
  {
    Fit(Eligible(input, env)[..i], BaseWeight(input, env), EffectiveBudget(input), env.weightOf)
  }

  /** A competing row is included exactly when it fits beside the rows included before it. */
  lemma IncludedIffItFits(input: Input, env: Env, i: nat)
    requires i < |Eligible(input, env)|
    ensures var a := Eligible(input, env)[i];
      && a in FinalRows(input, env)
      && Ahead(input, env, i) <= Fitted(input, env)
      && (FinalRows(input, env)[a].included <==>
            BaseWeight(input, env) + WeightOfAll(Ahead(input, env, i), env.weightOf) + env.weightOf(a)
              <= EffectiveBudget(input))
  {
    EligibleAreRows(input, env, i);
    FittedAreIncluded(input, env);
    EligibleFacts(input, env);
    FitIsGreedy(Eligible(input, env), BaseWeight(input, env), EffectiveBudget(input), env.weightOf, i);
  }

  lemma EligibleAreRows(input: Input, env: Env, i: nat)
    requires i < |Eligible(input, env)|
    ensures Eligible(input, env)[i] in FinalRows(input, env)
  {
    var a := Eligible(input, env)[i];
    EligibleFacts(input, env);
    assert a in Eligible(input, env);
    PlannedRowsFacts(input, env);
    FinalRowsFacts(input, env);
  }

  // ---- one entry per address ----

  function Addresses(es: seq<Entry>): (r: seq<string>)
    ensures |r| == |es|
    ensures forall i :: 0 <= i < |es| ==> r[i] == es[i].address
  {
    seq(|es|, i requires 0 <= i < |es| => es[i].address)
  }

  lemma {:induction false} AddressesOfRows(names: seq<string>, rows: Rows)
    requires forall a :: a in names ==> a in rows
    ensures Addresses(ToEntries(names, rows)) == names
  {
    if names != [] {
      AddressesOfRows(names[1..], rows);
      var rest := ToEntries(names[1..], rows);
      assert ([ToEntry(names[0], rows[names[0]])] + rest)[1..] == rest;
    }
  }

  lemma {:induction false} AddressesNumbered(es: seq<Entry>, rank: nat)
    ensures Addresses(Numbered(es, rank)) == Addresses(es)
  {
    if es != [] {
      AddressesNumbered(es[1..], rank + 1);
      var rest := Numbered(es[1..], rank + 1);
      assert ([es[0].(rank := rank)] + rest)[1..] == rest;
    }
  }

  lemma {:induction false} AddressesAddFee(es: seq<Entry>, address: string, sats: int)
    ensures Addresses(AddFee(es, address, sats)) == Addresses(es)
  {
    if es != [] {
      if es[0].address == address && es[0].included {
        var first := es[0].(payout := es[0].payout + sats, gross := es[0].gross + sats);
        assert ([first] + es[1..])[1..] == es[1..];
      } else {
        AddressesAddFee(es[1..], address, sats);
        var rest := AddFee(es[1..], address, sats);
        assert ([es[0]] + rest)[1..] == rest;
      }
    }
  }

  lemma MinerAddresses(input: Input, env: Env)
    ensures Distinct(Addresses(MinerEntries(input, env)))
    ensures forall a :: a in Addresses(MinerEntries(input, env)) <==>
      a in FinalRows(input, env) && Chosen(Listed, FinalRows(input, env)[a])
  {
    var rows := FinalRows(input, env);
    FinalRowsFacts(input, env);
    ListedNames(Order(input), rows, env.collate);
    AddressesOfRows(Ranking(Select(Listed, Order(input), rows), rows, env.collate), rows);
  }

  lemma DistinctEntry(e: Entry, es: seq<Entry>)
    ensures Addresses([e] + es) == [e.address] + Addresses(es)
    ensures Distinct(Addresses([e] + es)) <==> e.address !in Addresses(es) && Distinct(Addresses(es))
  {
    assert Addresses([e] + es) == [e.address] + Addresses(es);
    DistinctCons(e.address, Addresses(es));
  }

  /** The fee address already stands in the table as an unpaid, listed row. */
  predicate FeeAddressPending(input: Input, env: Env)
  {
    var rows := FinalRows(input, env);
    && FeeSats(input) > 0
    && input.feeAddress in rows
    && !rows[input.feeAddress].included
    && Chosen(Listed, rows[input.feeAddress])
  }

  /** Each address gets one entry, except that a fee address with a pending row gets two. */
  lemma OneEntryPerAddress(input: Input, env: Env)
    requires !Worthless(input)
    ensures Distinct(Addresses(Distribute(input, env).entries)) <==> !FeeAddressPending(input, env)
  {
    var miners := MinerEntries(input, env);
    var fee := input.feeAddress;
    AddressesNumbered(WithFee(miners, fee, FeeSats(input)), 1);
    MinerAddresses(input, env);
    if FeeSats(input) > 0 {
      PaysAddressIff(input, env);
      if PaysAddress(miners, fee) {
        AddressesAddFee(miners, fee, FeeSats(input));
      } else {
        DistinctEntry(FeeEntry(fee, FeeSats(input)), miners);
      }
    }
  }

  /** What an address is credited for its work, before any fee. */
  function FairSats(input: Input, env: Env, a: string): int
  {
    var work := WorkTable(input.addressWork);
    Get(Allocate(Weighted(work.order, work.values), MinerReward(input), TotalWork(input), env.collate), a)
  }

  /** The fee address stands in the balance table or is credited for work of its own. */
  predicate FeeAddressOwed(input: Input, env: Env)
  {
    input.feeAddress in BalanceTable(input.balances).values || FairSats(input, env, input.feeAddress) != 0
  }

  /** It competes for an output, and fits beside the rows that come before it. */
  ghost predicate FeeAddressFits(input: Input, env: Env)
  {
    exists i :: 0 <= i < |Eligible(input, env)| && Eligible(input, env)[i] == input.feeAddress
      && BaseWeight(input, env) + WeightOfAll(Ahead(input, env, i), env.weightOf) + env.weightOf(input.feeAddress)
        <= EffectiveBudget(input)
  }

  /** A row that is left out keeps all it is due on its balance. */
  lemma LeftOutRow(input: Input, env: Env, a: string)
    requires a in FinalRows(input, env) && !FinalRows(input, env)[a].included
    ensures a in InitialRows(input, env)
    ensures var r := FinalRows(input, env)[a];
      && r.balanceBefore == Get(BalanceTable(input.balances).values, a)
      && r.balanceAfter == FairSats(input, env, a) + r.balanceBefore
  {
    FinalRowsFacts(input, env);
    DuesKept(input, env);
  }

  lemma FeeAddressFitsIff(input: Input, env: Env)
    ensures FeeAddressFits(input, env)
      <==> input.feeAddress in FinalRows(input, env) && FinalRows(input, env)[input.feeAddress].included
  {
    var fee := input.feeAddress;
    if FeeAddressFits(input, env) {
      var i :| 0 <= i < |Eligible(input, env)| && Eligible(input, env)[i] == fee
        && BaseWeight(input, env) + WeightOfAll(Ahead(input, env, i), env.weightOf) + env.weightOf(fee)
          <= EffectiveBudget(input);
      IncludedIffItFits(input, env, i);
    }
    if fee in FinalRows(input, env) && FinalRows(input, env)[fee].included {
      IncludedAreFitted(input, env, fee);
      var i :| 0 <= i < |Eligible(input, env)| && Eligible(input, env)[i] == fee;
      IncludedIffItFits(input, env, i);
    }
  }

  lemma FeeAddressPendingIff(input: Input, env: Env)
    ensures FeeAddressPending(input, env)
      <==> FeeSats(input) > 0 && FeeAddressOwed(input, env) && !FeeAddressFits(input, env)
  {
    var fee := input.feeAddress;
    FeeAddressFitsIff(input, env);
    BalanceTableValid(input.balances);
    DuesKept(input, env);
    if fee in FinalRows(input, env) {
      if !FinalRows(input, env)[fee].included { LeftOutRow(input, env, fee); }
    } else {
      NoShareWithoutRow(input, env, fee);
    }
  }

  lemma NoShareWithoutRow(input: Input, env: Env, a: string)
    requires a !in InitialRows(input, env)
    ensures FairSats(input, env, a) == 0 && a !in BalanceTable(input.balances).values
  {
    var work := WorkTable(input.addressWork);
    WorkTableValid(input.addressWork);
    WeightedAre(work.order, work.values);
    if FairSats(input, env, a) != 0 {
      AllocatedNames(Weighted(work.order, work.values), MinerReward(input), TotalWork(input), env.collate, a);
    }
  }

  /** Spelled out by balance, work and fit: two entries share an address exactly when a fee is
      paid to an address that has a balance or is credited for work of its own, and that gets no
      output as a miner. */
  lemma OneEntryPerAddressIff(input: Input, env: Env)
    requires !Worthless(input)
    ensures Distinct(Addresses(Distribute(input, env).entries))
      <==> FeeSats(input) <= 0 || !FeeAddressOwed(input, env) || FeeAddressFits(input, env)
  {
    OneEntryPerAddress(input, env);
    FeeAddressPendingIff(input, env);
  }

  /** A fee address that neither mined nor is owed anything. */
  predicate FeeAddressApart(input: Input)
  {
    input.feeAddress !in WorkTable(input.addressWork).values && input.feeAddress !in BalanceTable(input.balances).values
  }

  lemma ApartHasNoRow(input: Input, env: Env)
    requires FeeAddressApart(input)
    ensures input.feeAddress !in FinalRows(input, env)
    ensures !PaysAddress(MinerEntries(input, env), input.feeAddress) && !FeeAddressPending(input, env)
  {
    DuesKept(input, env);
    PaysAddressIff(input, env);
  }

  /** On the input alone: a fee address apart from the miners leaves one entry an address. */
  lemma FeeApartOneEntryPerAddress(input: Input, env: Env)
    requires FeeAddressApart(input)
    ensures Distinct(Addresses(Distribute(input, env).entries))
  {
    ApartHasNoRow(input, env);
    if !Worthless(input) {
      OneEntryPerAddress(input, env);
    }
  }

  /** A fee paid to such an address is the first entry. */
  lemma FeeStandsFirst(input: Input, env: Env)
    requires FeeAddressApart(input) && FeeSats(input) > 0 && !Worthless(input)
    ensures Distribute(input, env).entries != []
    ensures Distribute(input, env).entries[0] == FeeEntry(input.feeAddress, FeeSats(input))
  {
    ApartHasNoRow(input, env);
  }

  lemma NothingFits(input: Input, env: Env, a: string)
    requires BaseWeight(input, env) > EffectiveBudget(input)
    requires a in FinalRows(input, env)
    ensures !FinalRows(input, env)[a].included
  {
    FitWithinBudget(Eligible(input, env), BaseWeight(input, env), EffectiveBudget(input), env.weightOf);
    IncludedAreFitted(input, env, a);
  }

  lemma BalanceOpensRow(input: Input, env: Env, a: string)
    requires a in BalanceTable(input.balances).values
    ensures a in FinalRows(input, env)
    ensures FinalRows(input, env)[a].balanceBefore == BalanceTable(input.balances).values[a]
  {
    DuesKept(input, env);
    InitialOpening(input, env, a);
  }

  /** A pool whose fee address is still owed 100 satoshis of its own, under a weight budget
      too small for any miner output: the fee address gets two entries. */
  lemma PendingFeeAddressTwice(env: Env)
    ensures var input := Input([Work("miner", 1.0)], [Balance("fee", 100)], 100_000, "fee", 10.0, 546, 300);
      FeeAddressPending(input, env) && !Distinct(Addresses(Distribute(input, env).entries))
  {
    var input := Input([Work("miner", 1.0)], [Balance("fee", 100)], 100_000, "fee", 10.0, 546, 300);
    assert BalanceTable(input.balances) == Dict(["fee"], map["fee" := 100]) by {
      assert input.balances[..0] == [];
    }
    assert FeeSats(input) == 10_000;
    BalanceOpensRow(input, env, "fee");
    NothingFits(input, env, "fee");
    assert FeeAddressPending(input, env);
    OneWorkerTotal();
    OneEntryPerAddress(input, env);
  }

  lemma OneWorkerTotal()
    ensures var work := WorkTable([Work("miner", 1.0)]); WeightedSum(work.order, work.values) == 1.0
  {
    assert [Work("miner", 1.0)][..0] == [];
    assert WorkTable([Work("miner", 1.0)]) == Dict(["miner"], map["miner" := 1.0]);
    assert ["miner"][1..] == [];
  }

  lemma PaysAddressIff(input: Input, env: Env)
    ensures PaysAddress(MinerEntries(input, env), input.feeAddress)
      <==> input.feeAddress in FinalRows(input, env) && FinalRows(input, env)[input.feeAddress].included
  {
    var rows := FinalRows(input, env);
    FinalRowsFacts(input, env);
    ListedNames(Order(input), rows, env.collate);
    RowsPay(Ranking(Select(Listed, Order(input), rows), rows, env.collate), rows, input.feeAddress);
  }

  lemma RowsPay(names: seq<string>, rows: Rows, address: string)
    requires forall a :: a in names <==> a in rows && Chosen(Listed, rows[a])
    ensures PaysAddress(ToEntries(names, rows), address) <==> address in rows && rows[address].included
  {
    var es := ToEntries(names, rows);
    if PaysAddress(es, address) {
      var e :| e in es && e.address == address && e.included;
      EntriesOfRows(names, rows, e);
    }
    if address in rows && rows[address].included {
      AddressesOfRows(names, rows);
      var i :| 0 <= i < |names| && names[i] == address;
      EntriesOfRows(names, rows, es[i]);
      assert es[i] in es;
    }
  }

  lemma {:induction false} OutputAddresses(es: seq<Entry>)
    ensures forall a :: a in Addresses(Outputs(es)) <==> PaysAddress(es, a)
    ensures Distinct(Addresses(es)) ==> Distinct(Addresses(Outputs(es)))
  {
    if es != [] {
      var outs := Outputs(es[1..]);
      OutputAddresses(es[1..]);
      assert ([es[0]] + outs)[1..] == outs;
      assert es == [es[0]] + es[1..];
      DistinctEntry(es[0], es[1..]);
      DistinctEntry(es[0], outs);
      forall a ensures a in Addresses(Outputs(es)) <==> PaysAddress(es, a) {
        OutputAddressesStep(es, a);
      }
    }
  }

  lemma OutputAddressesStep(es: seq<Entry>, a: string)
    requires es != []
    requires a in Addresses(Outputs(es[1..])) <==> PaysAddress(es[1..], a)
    ensures a in Addresses(Outputs(es)) <==> PaysAddress(es, a)
  {
    var outs := Outputs(es[1..]);
    assert ([es[0]] + outs)[1..] == outs;
    if PaysAddress(es[1..], a) {
      var e :| e in es[1..] && e.address == a && e.included;
      assert e in es;
    }
    if es[0].included && es[0].address == a { assert es[0] in es; }
  }

  lemma {:induction false} OutputsNumbered(es: seq<Entry>, rank: nat)
    ensures Addresses(Outputs(Numbered(es, rank))) == Addresses(Outputs(es))
  {
    if es != [] {
      OutputsNumbered(es[1..], rank + 1);
      var rest := Numbered(es[1..], rank + 1);
      assert ([es[0].(rank := rank)] + rest)[1..] == rest;
    }
  }

  lemma {:induction false} OutputsAddFee(es: seq<Entry>, address: string, sats: int)
    ensures Addresses(Outputs(AddFee(es, address, sats))) == Addresses(Outputs(es))
  {
    if es != [] {
      if es[0].address == address && es[0].included {
        var first := es[0].(payout := es[0].payout + sats, gross := es[0].gross + sats);
        assert ([first] + es[1..])[1..] == es[1..];
      } else {
        OutputsAddFee(es[1..], address, sats);
        var rest := AddFee(es[1..], address, sats);
        assert ([es[0]] + rest)[1..] == rest;
      }
    }
  }

  /** No address gets two coinbase outputs, even when it has two entries. */
  lemma OneOutputPerAddress(input: Input, env: Env)
    ensures Distinct(Addresses(Outputs(Distribute(input, env).entries)))
  {
    if !Worthless(input) {
      var miners := MinerEntries(input, env);
      var fee := input.feeAddress;
      MinerAddresses(input, env);
      OutputAddresses(miners);
      OutputsNumbered(WithFee(miners, fee, FeeSats(input)), 1);
      if FeeSats(input) > 0 {
        if PaysAddress(miners, fee) {
          OutputsAddFee(miners, fee, FeeSats(input));
        } else {
          var outs := Outputs(miners);
          assert ([FeeEntry(fee, FeeSats(input))] + miners)[1..] == miners;
          DistinctEntry(FeeEntry(fee, FeeSats(input)), outs);
        }
      }
    }
  }

  /** Each entry opens with the balance the input lists for its address, unless it is the
      second entry of a pending fee address. */
  lemma EntriesOpenWithBalances(input: Input, env: Env, e: Entry)
    requires e in Distribute(input, env).entries
    requires !FeeAddressPending(input, env)
    ensures e.address != ""
    ensures e.balanceBefore == Get(BalanceTable(input.balances).values, e.address)
  {
    var miners := MinerEntries(input, env);
    var rows := FinalRows(input, env);
    var fee := input.feeAddress;
    NamesNotEmpty(input, env);
    DuesKept(input, env);
    FinalRowsFacts(input, env);
    forall m | m in miners
      ensures m.address != "" && m.balanceBefore == Get(BalanceTable(input.balances).values, m.address)
    {
      EntriesOfRows(Ranking(Select(Listed, Order(input), rows), rows, env.collate), rows, m);
    }
    NumberedMember(WithFee(miners, fee, FeeSats(input)), 1, e);
    var k :| e.(rank := k) in WithFee(miners, fee, FeeSats(input));
    FeeKeepsOpening(miners, fee, FeeSats(input), e.(rank := k));
    PaysAddressIff(input, env);
    if !(exists m :: m in miners && m.address == e.address && m.balanceBefore == e.balanceBefore) {
      UnlistedHasNoBalance(input, env);
    }
  }

  lemma FeeKeepsOpening(miners: seq<Entry>, fee: string, sats: int, e: Entry)
    requires e in WithFee(miners, fee, sats)
    ensures (exists m :: m in miners && m.address == e.address && m.balanceBefore == e.balanceBefore)
         || (sats > 0 && !PaysAddress(miners, fee) && e == FeeEntry(fee, sats))
  {
    if e !in miners && sats > 0 && PaysAddress(miners, fee) {
      AddFeeMember(miners, fee, sats, e);
      assert e.(payout := e.payout - sats, gross := e.gross - sats) in miners;
    }
  }

  lemma UnlistedHasNoBalance(input: Input, env: Env)
    requires FeeSats(input) > 0 && !FeeAddressPending(input, env)
    requires input.feeAddress in FinalRows(input, env) ==> !FinalRows(input, env)[input.feeAddress].included
    ensures Get(BalanceTable(input.balances).values, input.feeAddress) == 0
    ensures input.feeAddress != ""
  {
    DuesKept(input, env);
    UnlistedOpensAtZero(InitialRows(input, env), FinalRows(input, env), input.feeAddress);
    InitialOpening(input, env, input.feeAddress);
  }

  lemma UnlistedOpensAtZero(rows: Rows, rows': Rows, a: string)
    requires SameDues(rows, rows')
    requires a in rows' ==> !Chosen(Listed, rows'[a])
    ensures a in rows ==> rows[a].balanceBefore == 0
  {
  }

  lemma InitialOpening(input: Input, env: Env, a: string)
    ensures Get(BalanceTable(input.balances).values, a)
         == if a in InitialRows(input, env) then InitialRows(input, env)[a].balanceBefore else 0
  {
  }

  lemma {:induction false} WorkNamesNotEmpty(ws: seq<Work>)
    ensures "" !in WorkTable(ws).values
  {
    if ws != [] { WorkNamesNotEmpty(ws[..|ws|-1]); }
  }

  lemma {:induction false} BalanceNamesNotEmpty(bs: seq<Balance>)
    ensures "" !in BalanceTable(bs).values
  {
    if bs != [] { BalanceNamesNotEmpty(bs[..|bs|-1]); }
  }

  lemma NamesNotEmpty(input: Input, env: Env)
    ensures "" !in InitialRows(input, env)
  {
    WorkNamesNotEmpty(input.addressWork);
    BalanceNamesNotEmpty(input.balances);
  }

  /** No entry is paid a negative amount, and no output is empty. */
  lemma EntriesPayNonNegative(input: Input, env: Env, e: Entry)
    requires e in Distribute(input, env).entries
    ensures e.payout >= 0
    ensures e.included ==> e.payout > 0
  {
    var miners := MinerEntries(input, env);
    var rows := FinalRows(input, env);
    var names := Ranking(Select(Listed, Order(input), rows), rows, env.collate);
    FinalRowsNonNegative(input, env);
    forall m | m in miners ensures PaidWell(m.payout, m.included) { EntriesOfRows(names, rows, m); }
    NumberedMember(WithFee(miners, input.feeAddress, FeeSats(input)), 1, e);
    var k :| e.(rank := k) in WithFee(miners, input.feeAddress, FeeSats(input));
    FeeIsNotNegative(input);
    FeeRaises(miners, input.feeAddress, FeeSats(input), e.(rank := k));
  }

  predicate PaidWell(payout: int, included: bool)
  {
    payout >= 0 && (included ==> payout > 0)
  }

  lemma FeeRaises(miners: seq<Entry>, fee: string, sats: nat, e: Entry)
    requires forall m :: m in miners ==> PaidWell(m.payout, m.included)
    requires e in WithFee(miners, fee, sats)
    ensures PaidWell(e.payout, e.included)
  {
    if e !in miners && PaysAddress(miners, fee) {
      AddFeeMember(miners, fee, sats, e);
    }
  }

  lemma FinalRowsNonNegative(input: Input, env: Env)
    ensures var rows := FinalRows(input, env);
      forall a :: a in rows ==> PaidWell(rows[a].payout, rows[a].included)
  {
    var planned, fit := PlannedRows(input, env), Fitted(input, env);
    PlannedRowsFacts(input, env);
    EligibleFacts(input, env);
    forall a | a in fit ensures a in planned && planned[a].payout > 0 {
      FitMember(Eligible(input, env), BaseWeight(input, env), EffectiveBudget(input), env.weightOf, a);
    }
    FitRowsFacts(Order(input), planned, fit);
    FinalRowsFacts(input, env);
    RaisedNonNegative(planned, fit, FinalRows(input, env));
  }

  lemma RaisedNonNegative(planned: Rows, fit: seq<string>, rows: Rows)
    requires OnlyRaises(FitRows(planned, fit), rows)
    requires forall a :: a in planned ==> planned[a].payout >= 0 && !planned[a].included
    requires forall a :: a in fit && a in planned ==> planned[a].payout > 0
    ensures forall a :: a in rows ==> PaidWell(rows[a].payout, rows[a].included)
  {
    forall a | a in rows ensures PaidWell(rows[a].payout, rows[a].included) {
      assert a in planned;
    }
  }
}
