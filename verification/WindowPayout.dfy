/**
 From shares to credit (src/ORM/payout-snapshot/payout-snapshot.service.ts): the work of the
 addresses in the window, as the query returns it, is what the distribution apportions by.
 */
module WindowPayout {
  import opened Bytes
  import opened Sequences
  import opened LargestRemainder
  import opened PayoutDistribution
  import opened PayoutResult
  import opened PayoutLedger
  import OutputCap
  import PplnsWindow
  import RollupRuns
  import ShareRollup
  import Tallies

  type AddressWork = seq<Tallies.Tally<string>>

  /** The rows of the address-work query as the distribution takes them. */
  function AsWork(work: AddressWork): (r: seq<Work>)
    ensures |r| == |work|
  {
    seq(|work|, i requires 0 <= i < |work| => Work(work[i].key, work[i].difficulty))
  }

  ghost predicate AllPositive(work: AddressWork)
  {
    forall t :: t in work ==> t.difficulty > 0.0
  }

  lemma {:induction false} OfAppend(work: AddressWork, t: Tallies.Tally<string>, a: string)
    ensures Tallies.Of(work + [t], a) == Tallies.Of(work, a) + (if t.key == a then t.difficulty else 0.0)
    ensures Tallies.Total(work + [t]) == Tallies.Total(work) + t.difficulty
  {
    if work == [] {
      assert work + [t] == [t] && [t][1..] == [];
    } else {
      assert (work + [t])[1..] == work[1..] + [t];
      OfAppend(work[1..], t, a);
    }
  }

  lemma {:induction false} UpdatedSum(items: seq<string>, m: map<string, real>, k: string, v: real)
    requires Distinct(items)
    ensures WeightedSum(items, m[k := v]) == WeightedSum(items, m) + (if k in items then v - Weight(m, k) else 0.0)
  {
    if items != [] {
      DistinctCons(items[0], items[1..]);
      assert items == [items[0]] + items[1..];
      UpdatedSum(items[1..], m, k, v);
    }
  }

  lemma {:induction false} SumAppendOne(items: seq<string>, k: string, m: map<string, real>)
    ensures WeightedSum(items + [k], m) == WeightedSum(items, m) + Weight(m, k)
  {
    if items == [] {
      assert items + [k] == [k] && [k][1..] == [];
    } else {
      assert (items + [k])[1..] == items[1..] + [k];
      SumAppendOne(items[1..], k, m);
    }
  }

  lemma PutSum(d: Dict<real>, k: string, v: real)
    requires d.Valid()
    ensures WeightedSum(d.Put(k, v).order, d.Put(k, v).values)
        == WeightedSum(d.order, d.values) - Weight(d.values, k) + v
  {
    UpdatedSum(d.order, d.values, k, v);
    if k !in d.values { SumAppendOne(d.order, k, d.values[k := v]); }
  }

  lemma AddWorkFacts(d: Dict<real>, w: Work, a: string)
    requires d.Valid() && w.credited > 0.0
    ensures var r := AddWork(d, w);
      && Weight(r.values, a) == Weight(d.values, a) + (if w.address == a != "" then w.credited else 0.0)
      && WeightedSum(r.order, r.values)
         == WeightedSum(d.order, d.values) + (if w.address == "" then 0.0 else w.credited)
  {
    PutSum(d, w.address, Weight(d.values, w.address) + w.credited);
  }

  lemma TableStep(before: AddressWork, t: Tallies.Tally<string>)
    ensures WorkTable(AsWork(before + [t])) == AddWork(WorkTable(AsWork(before)), Work(t.key, t.difficulty))
    ensures WorkTable(AsWork(before)).Valid()
  {
    WorkTableValid(AsWork(before));
    assert AsWork(before + [t])[..|before|] == AsWork(before);
  }

  /** The table of work holds every named address with its whole work, and together all the
      work that is under a name. */
  lemma {:induction false} TableOfWork(work: AddressWork, a: string)
    requires AllPositive(work)
    ensures var d := WorkTable(AsWork(work));
      && Weight(d.values, a) == (if a == "" then 0.0 else Tallies.Of(work, a))
      && WeightedSum(d.order, d.values) == Tallies.Total(work) - Tallies.Of(work, "")
    decreases |work|
  {
    if work != [] {
      var before, t := work[..|work| - 1], work[|work| - 1];
      assert work == before + [t] && t in work;
      TableOfWork(before, a);
      OfAppend(before, t, a);
      OfAppend(before, t, "");
      TableStep(before, t);
      AddWorkFacts(WorkTable(AsWork(before)), Work(t.key, t.difficulty), a);
    }
  }

  // ---- the window behind a snapshot ----

  datatype Policy = Policy(enabled: bool, bootstrapWindow: bool, windowFactor: real)

  datatype NewTemplate = NewTemplate(blockHeight: int, coinbaseValue: int, networkDifficulty: real)

  /** Until enough blocks have been paid for, the window is shorter than configured. */
  function EffectiveWindowFactor(p: Policy, paidBlocks: nat): real
  {
    var grown := (paidBlocks + 1) as real;
    if !p.bootstrapWindow || p.windowFactor < grown then p.windowFactor else grown
  }

  function PaidBlocks(history: map<(int, string), HistoryRow>): nat
  {
    |set key | key in history :: key.0|
  }

  function WindowTarget(p: Policy, t: NewTemplate, paidBlocks: nat): real
  {
    t.networkDifficulty * EffectiveWindowFactor(p, paidBlocks)
  }

  function WindowFor(
      p: Policy, t: NewTemplate, paidBlocks: nat, batches: seq<RollupRuns.Batch>)
    : Option<PplnsWindow.Window>
  {
    PplnsWindow.GetPplnsWindow(batches, WindowTarget(p, t, paidBlocks))
  }

  /** What a template asks a snapshot for, if it asks at all. */
  function RequestFor(p: Policy, t: NewTemplate, paidBlocks: nat, batches: seq<RollupRuns.Batch>): Option<Request>
  {
    if !p.enabled || t.coinbaseValue <= 0 || t.networkDifficulty <= 0.0 then None
    else
      var w :- WindowFor(p, t, paidBlocks, batches);
      if w.total <= 0.0 then None
      else Some(Request(t.blockHeight, t.coinbaseValue, w.end, AsWork(PplnsWindow.GetAddressWork(batches, w))))
  }

  /** The window opens with one network difficulty and gains one with every block paid for,
      until it is as long as configured; without the bootstrap it is so from the start. */
  lemma WindowGrows(p: Policy, t: NewTemplate, paidBlocks: nat)
    requires p.windowFactor > 0.0 && t.networkDifficulty > 0.0
    ensures var target, next := WindowTarget(p, t, paidBlocks), WindowTarget(p, t, paidBlocks + 1);
      var one, full := t.networkDifficulty, t.networkDifficulty * p.windowFactor;
      && target <= full
      && (!p.bootstrapWindow ==> target == full)
      && (p.bootstrapWindow && target < full ==> next == (if full < target + one then full else target + one))
      && (p.bootstrapWindow && paidBlocks == 0 ==> target == (if full < one then full else one))
  {
    var n, f, g := t.networkDifficulty, p.windowFactor, (paidBlocks + 1) as real;
    assert (paidBlocks + 2) as real == g + 1.0 && (paidBlocks == 0 ==> g == 1.0);
    OneMore(n, f, g, n * f, n * g, n * (g + 1.0));
  }

  lemma OneMore(n: real, f: real, g: real, nf: real, ng: real, more: real)
    requires n > 0.0 && nf == n * f && ng == n * g && more == n * (g + 1.0)
    ensures more == ng + n && (g == 1.0 ==> ng == n)
    ensures (f < g <==> nf < ng) && (f < g + 1.0 <==> nf < more)
  {
    TimesKeepsOrder(n, f, g, nf, ng);
    TimesKeepsOrder(n, f, g + 1.0, nf, more);
  }

  lemma TimesKeepsOrder(n: real, x: real, y: real, nx: real, ny: real)
    requires n > 0.0 && nx == n * x && ny == n * y
    ensures nx < ny <==> x < y
  {
    assert ny - nx == n * (y - x);
    if x < y { assert n * (y - x) > 0.0; } else { assert n * (x - y) >= 0.0; }
  }

  /** A finalisation pays for exactly one more block. */
  lemma FinalizationPaysForOne(b: Book, id: nat, height: int)
    requires FinalizeOutcome(b, id, height) == Finalized
    ensures PaidBlocks(FinalizeStep(b, id, height).history) == PaidBlocks(b.history) + 1
  {
    var before, after := b.history, FinalizeStep(b, id, height).history;
    HistoryFacts(before, height, id, b.snapshots[id].entries);
    var heights := set key | key in before :: key.0;
    assert height !in heights;
    forall h ensures h in (set key | key in after :: key.0) <==> h in heights + {height} {
      if h in heights {
        var key :| key in before && key.0 == h;
        assert key in after;
      } else if h == height {
        var key :| key in after && key.0 == height;
      }
    }
    assert (set key | key in after :: key.0) == heights + {height};
  }

  /** What the shares of one address in a window are worth. */
  function Own(t: ShareRollup.Table, w: PplnsWindow.Window, a: string): real
  {
    ShareRollup.DifficultyOf(t, a, w.start, w.end + 1)
  }

  /** For every state of the batches that a punctual run reaches: the distribution apportions
      by exactly the difficulty of every address's own shares between the window's bounds, and
      its total is that of all shares there, but for shares without an address. */
  lemma WorkIsOwnShares(
      cfg: ShareRollup.Config, s: RollupRuns.State, target: real, w: PplnsWindow.Window, a: string)
    requires RollupRuns.Inv(cfg, s) && PplnsWindow.SharesWeighty(s.table)
    requires PplnsWindow.GetPplnsWindow(s.batches, target) == Some(w)
    ensures var d := WorkTable(AsWork(PplnsWindow.GetAddressWork(s.batches, w)));
      && (a != "" ==> Weight(d.values, a) == Own(s.table, w, a))
      && WeightedSum(d.order, d.values) == w.total - Own(s.table, w, "")
      && w.total == ShareRollup.Difficulty(s.table, w.start, w.end + 1)
  {
    var work := PplnsWindow.GetAddressWork(s.batches, w);
    PplnsWindow.WindowIsShares(cfg, s, target, w, work, a);
    PplnsWindow.WindowIsShares(cfg, s, target, w, work, "");
    TableOfWork(work, a);
  }

  // ---- what a snapshot credits ----

  /** The entry of an address with work, the fee's own address apart, is its row. */
  lemma WorkerEntry(input: Input, env: Env, e: Entry)
    requires e in Distribute(input, env).entries && e.work > 0.0 && e.address != input.feeAddress
    ensures e.address in InitialRows(input, env)
    ensures var r := InitialRows(input, env)[e.address];
      e.work == r.work && e.gross == r.fairSats
  {
    var miners, rows := MinerEntries(input, env), FinalRows(input, env);
    NumberedMember(WithFee(miners, input.feeAddress, FeeSats(input)), 1, e);
    var k :| e.(rank := k) in WithFee(miners, input.feeAddress, FeeSats(input));
    NotTheFee(miners, input.feeAddress, FeeSats(input), e.(rank := k));
    EntriesOfRows(Ranking(Select(Listed, Order(input), rows), rows, env.collate), rows, e.(rank := k));
    DuesKept(input, env);
  }

  lemma NotTheFee(miners: seq<Entry>, fee: string, sats: int, e: Entry)
    requires e in WithFee(miners, fee, sats) && e.address != fee
    ensures e in miners
  {
    if sats > 0 && PaysAddress(miners, fee) { AddFeeMember(miners, fee, sats, e); }
  }

  /** A row's fair share is its quota of the reward by work, to less than a satoshi. */
  lemma FairInQuota(input: Input, env: Env, a: string)
    requires !Worthless(input) && MinerReward(input) > 0
    requires a in InitialRows(input, env) && InitialRows(input, env)[a].work > 0.0
    ensures var r := InitialRows(input, env)[a];
      TotalWork(input) > 0.0 && NearShare(r.fairSats, r.work, TotalWork(input), MinerReward(input))
  {
    var d := WorkTable(input.addressWork);
    WorkTableValid(input.addressWork);
    WeightedAre(d.order, d.values);
    WeightedMember(d.order, d.values, a);
    var ts := Weighted(d.order, d.values);
    AllocationStaysInQuota(ts, MinerReward(input), TotalWork(input), env.collate, Target(a, d.values[a]));
    var r := InitialRows(input, env)[a];
    QuotaIsShare(r.fairSats, r.work, MinerReward(input), TotalWork(input));
  }

  lemma CreditInQuota(c: Config, q: Request, open: seq<Balance>, e: Entry)
    requires MinerReward(InputOf(c, q, open)) > 0
    requires e in SnapshotEntries(c, q, open) && e.work > 0.0 && e.address != c.feeAddress
    ensures e.address != "" && e.work == Weight(WorkTable(q.addressWork).values, e.address)
    ensures var total := TotalWork(InputOf(c, q, open));
      total > 0.0 && NearShare(e.gross, e.work, total, MinerReward(InputOf(c, q, open)))
  {
    var input := InputOf(c, q, open);
    var d := SnapshotRow(c, q, open, e);
    WorkerEntry(input, c.env, d);
    FairInQuota(input, c.env, e.address);
    NamesNotEmpty(input, c.env);
  }

  /** The distribution weighs an address by `own` out of `all`. */
  predicate Weighs(q: Request, a: string, own: real, all: real)
  {
    var d := WorkTable(q.addressWork);
    (a != "" ==> Weight(d.values, a) == own) && WeightedSum(d.order, d.values) == all
  }

  /** An entry is credited its quota of the miners' reward, to less than a satoshi. */
  predicate Credited(c: Config, q: Request, e: Entry, own: real, all: real)
  {
    e.work == own && all > 0.0 && NearShare(e.gross, own, all, MinerReward(InputOf(c, q, [])))
  }

  /** From shares to credit, end to end: in every snapshot that a template asks for over the
      batches of the rollup, each working address but the fee's is credited its quota of the
      miners' reward by the difficulty of its own shares in the window, to less than a satoshi. */
  lemma CreditFollowsShares(
      cfg: ShareRollup.Config, s: RollupRuns.State, p: Policy, t: NewTemplate, paidBlocks: nat,
      c: Config, q: Request, open: seq<Balance>, e: Entry)
    requires RollupRuns.Inv(cfg, s) && PplnsWindow.SharesWeighty(s.table)
    requires RequestFor(p, t, paidBlocks, s.batches) == Some(q) && MinerReward(InputOf(c, q, open)) > 0
    requires e in SnapshotEntries(c, q, open) && e.work > 0.0 && e.address != c.feeAddress
    ensures var w := WindowFor(p, t, paidBlocks, s.batches).value;
      Credited(c, q, e, Own(s.table, w, e.address), w.total - Own(s.table, w, ""))
  {
    var own, all := WorkOfTemplate(cfg, s, p, t, paidBlocks, q, e.address);
    CreditByWork(c, q, open, e, own, all);
  }

  lemma CreditByWork(c: Config, q: Request, open: seq<Balance>, e: Entry, own: real, all: real)
    requires MinerReward(InputOf(c, q, open)) > 0
    requires e in SnapshotEntries(c, q, open) && e.work > 0.0 && e.address != c.feeAddress
    requires Weighs(q, e.address, own, all)
    ensures Credited(c, q, e, own, all)
  {
    CreditInQuota(c, q, open, e);
  }

  lemma WorkOfTemplate(
      cfg: ShareRollup.Config, s: RollupRuns.State, p: Policy, t: NewTemplate, paidBlocks: nat, q: Request, a: string)
    returns (own: real, all: real)
    requires RollupRuns.Inv(cfg, s) && PplnsWindow.SharesWeighty(s.table)
    requires RequestFor(p, t, paidBlocks, s.batches) == Some(q)
    ensures WindowFor(p, t, paidBlocks, s.batches).Some? && Weighs(q, a, own, all)
    ensures var w := WindowFor(p, t, paidBlocks, s.batches).value;
      own == Own(s.table, w, a) && all == w.total - Own(s.table, w, "")
  {
    var w := WindowOfRequest(p, t, paidBlocks, s.batches, q);
    own, all := Own(s.table, w, a), w.total - Own(s.table, w, "");
    WorkOfRequest(cfg, s, WindowTarget(p, t, paidBlocks), w, q, a);
  }

  /** A template asks for its own height and value, for the end of the shortest run of newest
      batches that reaches its target; and only with payouts enabled, a value, a network
      difficulty and work. */
  lemma WindowOfRequest(p: Policy, t: NewTemplate, paidBlocks: nat, batches: seq<RollupRuns.Batch>, q: Request)
    returns (w: PplnsWindow.Window)
    requires RequestFor(p, t, paidBlocks, batches) == Some(q)
    ensures WindowFor(p, t, paidBlocks, batches) == Some(w)
    ensures p.enabled && t.coinbaseValue > 0 && t.networkDifficulty > 0.0 && w.total > 0.0
    ensures q.blockHeight == t.blockHeight && q.coinbaseValue == t.coinbaseValue && q.windowEnd == w.end
    ensures q.addressWork == AsWork(PplnsWindow.GetAddressWork(batches, w))
  {
    w := WindowFor(p, t, paidBlocks, batches).value;
  }

  lemma WorkOfRequest(
      cfg: ShareRollup.Config, s: RollupRuns.State, target: real, w: PplnsWindow.Window, q: Request, a: string)
    requires RollupRuns.Inv(cfg, s) && PplnsWindow.SharesWeighty(s.table)
    requires PplnsWindow.GetPplnsWindow(s.batches, target) == Some(w)
    requires q.addressWork == AsWork(PplnsWindow.GetAddressWork(s.batches, w))
    ensures a != "" ==> Weight(WorkTable(q.addressWork).values, a) == Own(s.table, w, a)
    ensures WeightedSum(WorkTable(q.addressWork).order, WorkTable(q.addressWork).values)
        == w.total - Own(s.table, w, "")
  {
    WorkIsOwnShares(cfg, s, target, w, a);
  }

  lemma SnapshotRow(c: Config, q: Request, open: seq<Balance>, e: Entry) returns (d: Entry)
    requires e in SnapshotEntries(c, q, open)
    ensures d in Distribute(InputOf(c, q, open), c.env).entries
    ensures d.address == e.address && d.work == e.work && d.gross == e.gross
  {
    var input := InputOf(c, q, open);
    var es := Distribute(input, c.env).entries;
    var i :| 0 <= i < |SnapshotEntries(c, q, open)| && SnapshotEntries(c, q, open)[i] == e;
    LimitedLength(es, c.maxOutputs, c.env.collate);
    OneOutputPerAddress(input, c.env);
    EntriesConserve(input, c.env, es[i]);
    OutputCap.LimitBalances(es, c.maxOutputs, c.env.collate, i);
    d := es[i];
  }
}
