/**
 The payout ledger over whole runs
 (src/ORM/payout-snapshot/payout-snapshot.service.ts): snapshots are created from
 the open balances, and a found block commits one of them to the per-address
 balances. PayoutService.dfy holds the statements that write the tables.
 */
module PayoutLedger {
  import opened Sequences
  import opened LargestRemainder
  import opened PayoutDistribution
  import opened PayoutResult
  import opened OutputCap

  datatype Config = Config(
    env: Env, feeAddress: string, feePercent: real, minOutput: int, weightBudget: int, maxOutputs: nat)

  datatype Snapshot = Snapshot(blockHeight: int, coinbaseValue: int, windowEnd: int, entries: seq<Entry>)
  datatype Account = Account(balance: int, totalPaid: int)
  datatype HistoryRow = HistoryRow(snapshotId: nat, paidSats: int, balanceAfter: int)

  /** The tables payout_snapshot (with its entries), payout_balance and payout_history. */
  datatype Book = Book(
    snapshots: map<nat, Snapshot>, nextId: nat,
    accounts: map<string, Account>, history: map<(int, string), HistoryRow>)

  const EMPTY_BOOK := Book(map[], 0, map[], map[])

  datatype Creation = Created(id: nat) | Existing(id: nat) | NoSnapshot | Violation
  datatype Finalization = Finalized | MissingSnapshot | AlreadyFinalized | Disabled

  // ---- creating a snapshot ----

  datatype Request = Request(blockHeight: int, coinbaseValue: int, windowEnd: int, addressWork: seq<Work>)

  function InputOf(c: Config, q: Request, open: seq<Balance>): Input
  {
    Input(q.addressWork, open, q.coinbaseValue, c.feeAddress, c.feePercent, c.minOutput, c.weightBudget)
  }

  function SnapshotEntries(c: Config, q: Request, open: seq<Balance>): seq<Entry>
  {
    Limited(Distribute(InputOf(c, q, open), c.env).entries, c.maxOutputs, c.env.collate)
  }

  /** The row getExistingSnapshot looks for. */
  predicate Reusable(s: Snapshot, q: Request)
  {
    s.blockHeight == q.blockHeight && s.coinbaseValue == q.coinbaseValue && s.windowEnd == q.windowEnd
  }

  predicate HasReusable(b: Book, q: Request)
  {
    exists id :: id in b.snapshots && Reusable(b.snapshots[id], q)
  }

  predicate NoneIncluded(es: seq<Entry>)
  {
    forall e :: e in es ==> !e.included
  }

  function Stored(q: Request, es: seq<Entry>): Snapshot
  {
    Snapshot(q.blockHeight, q.coinbaseValue, q.windowEnd, es)
  }

  /** Insert the snapshot and its entries in one transaction: a second entry of the same
      address violates the unique index and rolls everything but the id back. */
  function Store(b: Book, q: Request, entries: seq<Entry>): Book
  {
    if NoneIncluded(entries) then b
    else if !Distinct(Addresses(entries)) then b.(nextId := b.nextId + 1)
    else b.(snapshots := b.snapshots[b.nextId := Stored(q, entries)], nextId := b.nextId + 1)
  }

  predicate NothingToCreate(b: Book, q: Request)
  {
    q.coinbaseValue <= 0 || HasReusable(b, q) || q.addressWork == []
  }

  function CreateStep(c: Config, b: Book, q: Request, open: seq<Balance>): Book
  {
    if NothingToCreate(b, q) then b else Store(b, q, SnapshotEntries(c, q, open))
  }

  // ---- finalising a snapshot ----

  function BalanceOf(accounts: map<string, Account>, a: string): int
  {
    if a in accounts then accounts[a].balance else 0
  }

  function PaidOf(accounts: map<string, Account>, a: string): int
  {
    if a in accounts then accounts[a].totalPaid else 0
  }

  function Upsert(accounts: map<string, Account>, e: Entry): map<string, Account>
  {
    accounts[e.address := Account(e.balanceAfter, PaidOf(accounts, e.address) + (if e.included then e.payout else 0))]
  }

  function ApplyEntries(accounts: map<string, Account>, es: seq<Entry>): map<string, Account>
  {
    if es == [] then accounts else Upsert(ApplyEntries(accounts, es[..|es|-1]), es[|es|-1])
  }

  function AddHistory(history: map<(int, string), HistoryRow>, height: int, id: nat, es: seq<Entry>)
    : map<(int, string), HistoryRow>
  {
    if es == [] then history
    else
      var before := AddHistory(history, height, id, es[..|es|-1]);
      var e := es[|es|-1];
      if (height, e.address) in before then before
      else before[(height, e.address) := HistoryRow(id, e.payout, e.balanceAfter)]
  }

  predicate HeightInHistory(history: map<(int, string), HistoryRow>, height: int)
  {
    exists key :: key in history && key.0 == height
  }

  function FinalizeOutcome(b: Book, id: nat, height: int): Finalization
  {
    if id !in b.snapshots then MissingSnapshot
    else if HeightInHistory(b.history, height) then AlreadyFinalized
    else if b.snapshots[id].entries == [] then MissingSnapshot
    else Finalized
  }

  function FinalizeStep(b: Book, id: nat, height: int): Book
  {
    if FinalizeOutcome(b, id, height) != Finalized then b
    else
      var es := b.snapshots[id].entries;
      b.(accounts := ApplyEntries(b.accounts, es), history := AddHistory(b.history, height, id, es))
  }

  // ---- what the balance query returns ----

  /** The rows of payout_balance with a non-zero balance, in any order. */
  ghost predicate ListsOpen(accounts: map<string, Account>, open: seq<Balance>)
  {
    && (forall i, j :: 0 <= i < j < |open| ==> open[i].address != open[j].address)
    && (forall x :: x in open ==> x.sats != 0 && x.sats == BalanceOf(accounts, x.address))
    && (forall a :: BalanceOf(accounts, a) != 0 ==> Balance(a, BalanceOf(accounts, a)) in open)
  }

  // ---- what a creation answers ----

  /** The snapshot was taken for this height, this coinbase value and this end of the window. */
  predicate TakenFor(s: Snapshot, height: int, value: int, windowEnd: int)
  {
    s.blockHeight == height && s.coinbaseValue == value && s.windowEnd == windowEnd
  }

  predicate SomeTakenFor(snapshots: map<nat, Snapshot>, height: int, value: int, windowEnd: int)
  {
    exists id :: id in snapshots && TakenFor(snapshots[id], height, value, windowEnd)
  }

  /** A request that some stored snapshot was taken for changes nothing. Any other, if it has
      work and value, and some entry to pay, and no address twice, is stored under the next id,
      with its height, value, window end and entries; and nothing else is touched. */
  lemma CreationMeans(c: Config, b: Book, q: Request, open: seq<Balance>)
    ensures var es := SnapshotEntries(c, q, open);
      var b' := CreateStep(c, b, q, open);
      var taken := SomeTakenFor(b.snapshots, q.blockHeight, q.coinbaseValue, q.windowEnd);
      && (taken || q.coinbaseValue <= 0 || q.addressWork == [] || (forall e :: e in es ==> !e.included) ==> b' == b)
      && (!taken && q.coinbaseValue > 0 && q.addressWork != [] && (exists e :: e in es && e.included) ==>
            && b'.nextId == b.nextId + 1 && b'.accounts == b.accounts && b'.history == b.history
            && b'.snapshots == if Distinct(Addresses(es))
                 then b.snapshots[b.nextId := Snapshot(q.blockHeight, q.coinbaseValue, q.windowEnd, es)]
                 else b.snapshots)
  {
    ReusableMeans(b, q);
    StoreMeans(b, q, SnapshotEntries(c, q, open));
  }

  lemma ReusableMeans(b: Book, q: Request)
    ensures HasReusable(b, q) <==> SomeTakenFor(b.snapshots, q.blockHeight, q.coinbaseValue, q.windowEnd)
  {
    forall s: Snapshot ensures Reusable(s, q) <==> TakenFor(s, q.blockHeight, q.coinbaseValue, q.windowEnd) {}
  }

  lemma StoreMeans(b: Book, q: Request, es: seq<Entry>)
    ensures (forall e :: e in es ==> !e.included) ==> Store(b, q, es) == b
    ensures (exists e :: e in es && e.included) ==>
      && Store(b, q, es).nextId == b.nextId + 1
      && Store(b, q, es).accounts == b.accounts && Store(b, q, es).history == b.history
      && Store(b, q, es).snapshots == if Distinct(Addresses(es))
          then b.snapshots[b.nextId := Snapshot(q.blockHeight, q.coinbaseValue, q.windowEnd, es)]
          else b.snapshots
  {
  }

  // ---- invariants ----

  ghost predicate EntriesOk(es: seq<Entry>)
  {
    && Distinct(Addresses(es))
    && forall e :: e in es ==> e.Balanced() && (!e.included ==> e.payout == 0)
  }

  ghost predicate WellFormed(b: Book)
  {
    && (forall id :: id in b.snapshots ==>
          id < b.nextId && b.snapshots[id].entries != [] && EntriesOk(b.snapshots[id].entries))
  }

  /** The snapshot was computed from the balances that stand now. */
  ghost predicate Fresh(b: Book, id: nat)
    requires id in b.snapshots
  {
    forall e :: e in b.snapshots[id].entries ==> e.balanceBefore == BalanceOf(b.accounts, e.address)
  }

  function GrossOf(es: seq<Entry>, a: string): int
  {
    if es == [] then 0 else GrossOf(es[..|es|-1], a) + (if es[|es|-1].address == a then es[|es|-1].gross else 0)
  }

  /** What address `a` was credited by the finalised snapshots, in the order of finalisation. */
  function CreditedTo(snapshots: map<nat, Snapshot>, finals: seq<nat>, a: string): int
  {
    if finals == [] then 0
    else
      var id := finals[|finals|-1];
      CreditedTo(snapshots, finals[..|finals|-1], a)
      + (if id in snapshots then GrossOf(snapshots[id].entries, a) else 0)
  }

  /** Everything credited so far was either paid or still stands on the balance. */
  ghost predicate Settled(b: Book, finals: seq<nat>)
  {
    forall a :: BalanceOf(b.accounts, a) + PaidOf(b.accounts, a) == CreditedTo(b.snapshots, finals, a)
  }

  // ---- one finalisation ----

  lemma {:induction false} ApplyMissing(accounts: map<string, Account>, es: seq<Entry>, a: string)
    requires forall e :: e in es ==> e.address != a
    ensures BalanceOf(ApplyEntries(accounts, es), a) == BalanceOf(accounts, a)
    ensures PaidOf(ApplyEntries(accounts, es), a) == PaidOf(accounts, a)
    ensures GrossOf(es, a) == 0
  {
    if es != [] {
      assert es[|es|-1] in es;
      ApplyMissing(accounts, es[..|es|-1], a);
    }
  }

  lemma {:induction false} ApplyPresent(accounts: map<string, Account>, es: seq<Entry>, i: nat)
    requires Distinct(Addresses(es)) && i < |es|
    ensures var a := es[i].address;
      && BalanceOf(ApplyEntries(accounts, es), a) == es[i].balanceAfter
      && PaidOf(ApplyEntries(accounts, es), a) == PaidOf(accounts, a) + (if es[i].included then es[i].payout else 0)
      && GrossOf(es, a) == es[i].gross
  {
    if i == |es| - 1 {
      ApplyMissing(accounts, es[..|es|-1], es[i].address);
    } else {
      ApplyPresent(accounts, es[..|es|-1], i);
    }
  }

  /** How far one finalisation moves an address off the ledger identity: exactly by the
      gap between the opening balance the snapshot assumed and the balance that stood. */
  lemma FinalizationDrift(b: Book, id: nat, a: string, e: Entry)
    requires WellFormed(b) && id in b.snapshots && e in b.snapshots[id].entries && e.address == a
    ensures var accounts := ApplyEntries(b.accounts, b.snapshots[id].entries);
      BalanceOf(accounts, a) + PaidOf(accounts, a)
        == BalanceOf(b.accounts, a) + PaidOf(b.accounts, a) + GrossOf(b.snapshots[id].entries, a)
           + (e.balanceBefore - BalanceOf(b.accounts, a))
  {
    var es := b.snapshots[id].entries;
    var i :| 0 <= i < |es| && es[i] == e;
    ApplyPresent(b.accounts, es, i);
    assert e.Balanced();
  }

  lemma {:induction false} HistoryMissing(
      history: map<(int, string), HistoryRow>, height: int, id: nat, es: seq<Entry>, key: (int, string))
    requires key.0 != height || forall e :: e in es ==> e.address != key.1
    ensures var after := AddHistory(history, height, id, es);
      (key in after <==> key in history) && (key in history ==> after[key] == history[key])
  {
    if es != [] {
      assert es[|es|-1] in es;
      HistoryMissing(history, height, id, es[..|es|-1], key);
    }
  }

  lemma {:induction false} HistoryPresent(
      history: map<(int, string), HistoryRow>, height: int, id: nat, es: seq<Entry>, i: nat)
    requires Distinct(Addresses(es)) && i < |es| && (height, es[i].address) !in history
    ensures var after, key := AddHistory(history, height, id, es), (height, es[i].address);
      key in after && after[key] == HistoryRow(id, es[i].payout, es[i].balanceAfter)
  {
    var before := es[..|es|-1];
    if i == |es| - 1 {
      forall e | e in before ensures e.address != es[i].address {
        var j :| 0 <= j < |before| && before[j] == e;
        assert Addresses(es)[j] != Addresses(es)[i];
      }
      HistoryMissing(history, height, id, before, (height, es[i].address));
    } else {
      forall j, k | 0 <= j < k < |before| ensures Addresses(before)[j] != Addresses(before)[k] {
        assert Addresses(es)[j] != Addresses(es)[k];
      }
      HistoryPresent(history, height, id, before, i);
    }
  }

  /** What one finalisation writes: each entry's closing balance and, if it was included, its
      payout on top of what its address was paid before; one history row an entry; and nothing
      for anybody else. */
  lemma FinalizationWrites(b: Book, id: nat, height: int, i: nat)
    requires WellFormed(b) && FinalizeOutcome(b, id, height) == Finalized && i < |b.snapshots[id].entries|
    ensures var e, b' := b.snapshots[id].entries[i], FinalizeStep(b, id, height);
      && BalanceOf(b'.accounts, e.address) == e.balanceAfter
      && PaidOf(b'.accounts, e.address) == PaidOf(b.accounts, e.address) + (if e.included then e.payout else 0)
      && (height, e.address) in b'.history
      && b'.history[(height, e.address)] == HistoryRow(id, e.payout, e.balanceAfter)
      && b'.snapshots == b.snapshots && b'.nextId == b.nextId
  {
    var es := b.snapshots[id].entries;
    ApplyPresent(b.accounts, es, i);
    assert forall key :: key in b.history ==> key.0 != height;
    HistoryPresent(b.history, height, id, es, i);
  }

  lemma FinalizationLeavesOthers(b: Book, id: nat, height: int, a: string)
    requires FinalizeOutcome(b, id, height) == Finalized
    requires forall e :: e in b.snapshots[id].entries ==> e.address != a
    ensures var b' := FinalizeStep(b, id, height);
      && BalanceOf(b'.accounts, a) == BalanceOf(b.accounts, a) && PaidOf(b'.accounts, a) == PaidOf(b.accounts, a)
      && forall h :: (h, a) in b'.history <==> (h, a) in b.history
  {
    ApplyMissing(b.accounts, b.snapshots[id].entries, a);
    forall h ensures (h, a) in FinalizeStep(b, id, height).history <==> (h, a) in b.history {
      HistoryMissing(b.history, height, id, b.snapshots[id].entries, (h, a));
    }
  }

  /** An unknown snapshot is missing; a known one is refused at a height that has history, and is
      missing if it has no entry to write. */
  lemma FinalizationRefused(b: Book, id: nat, height: int)
    ensures FinalizeOutcome(b, id, height) == AlreadyFinalized
      <==> id in b.snapshots && exists a :: (height, a) in b.history
    ensures FinalizeOutcome(b, id, height) == MissingSnapshot
      <==> id !in b.snapshots || (b.snapshots[id].entries == [] && forall a :: (height, a) !in b.history)
    ensures FinalizeOutcome(b, id, height) != Finalized ==> FinalizeStep(b, id, height) == b
  {
    if HeightInHistory(b.history, height) {
      var key :| key in b.history && key.0 == height;
      assert (height, key.1) in b.history;
    }
  }

  lemma CreditedAppend(snapshots: map<nat, Snapshot>, finals: seq<nat>, id: nat, a: string)
    requires id in snapshots
    ensures CreditedTo(snapshots, finals + [id], a)
        == CreditedTo(snapshots, finals, a) + GrossOf(snapshots[id].entries, a)
  {
    assert (finals + [id])[..|finals|] == finals;
  }

  /** A finalisation keeps every address settled if and only if the snapshot is fresh. */
  lemma FinalizationKeepsLedgerIffFresh(b: Book, finals: seq<nat>, id: nat, height: int)
    requires WellFormed(b) && Settled(b, finals)
    requires FinalizeOutcome(b, id, height) == Finalized
    ensures Settled(FinalizeStep(b, id, height), finals + [id]) <==> Fresh(b, id)
  {
    var es := b.snapshots[id].entries;
    var b' := FinalizeStep(b, id, height);
    forall a ensures CreditedTo(b'.snapshots, finals + [id], a) == CreditedTo(b.snapshots, finals, a) + GrossOf(es, a) {
      CreditedAppend(b.snapshots, finals, id, a);
    }
    if Fresh(b, id) {
      forall a
        ensures BalanceOf(b'.accounts, a) + PaidOf(b'.accounts, a) == CreditedTo(b'.snapshots, finals + [id], a) {
        if e :| e in es && e.address == a {
          FinalizationDrift(b, id, a, e);
        } else {
          ApplyMissing(b.accounts, es, a);
        }
      }
    } else {
      var e :| e in es && e.balanceBefore != BalanceOf(b.accounts, e.address);
      FinalizationDrift(b, id, e.address, e);
    }
  }

  /** Finalising at a height leaves history rows of that height, and of no other new one. */
  lemma {:induction false} HistoryFacts(history: map<(int, string), HistoryRow>, height: int, id: nat, es: seq<Entry>)
    ensures var h := AddHistory(history, height, id, es);
      && (forall key :: key in history ==> key in h && h[key] == history[key])
      && (forall key :: key in h && key !in history ==> key.0 == height)
      && (es != [] ==> HeightInHistory(h, height))
  {
    if es != [] {
      HistoryFacts(history, height, id, es[..|es|-1]);
      assert (height, es[|es|-1].address) in AddHistory(history, height, id, es);
    }
  }

  // ---- one creation ----

  lemma {:induction false} BalanceAbsent(open: seq<Balance>, a: string)
    requires forall i :: 0 <= i < |open| ==> open[i].address != a
    ensures a !in BalanceTable(open).values
  {
    if open != [] { BalanceAbsent(open[..|open|-1], a); }
  }

  lemma {:induction false} BalanceListed(open: seq<Balance>, i: nat)
    requires i < |open| && open[i].address != "" && open[i].sats != 0
    requires forall j :: i < j < |open| ==> open[j].address != open[i].address
    ensures Get(BalanceTable(open).values, open[i].address) == open[i].sats
  {
    if i < |open| - 1 { BalanceListed(open[..|open|-1], i); }
  }

  /** The balances handed to the distribution are the ones that stand. */
  lemma OpenBalancesAreRead(accounts: map<string, Account>, open: seq<Balance>, a: string)
    requires ListsOpen(accounts, open) && a != ""
    ensures Get(BalanceTable(open).values, a) == BalanceOf(accounts, a)
  {
    if BalanceOf(accounts, a) == 0 {
      forall i | 0 <= i < |open| ensures open[i].address != a { assert open[i] in open; }
      BalanceAbsent(open, a);
    } else {
      var i :| 0 <= i < |open| && open[i] == Balance(a, BalanceOf(accounts, a));
      BalanceListed(open, i);
    }
  }

  lemma LimitedEntry(c: Config, q: Request, open: seq<Balance>, i: nat) returns (d: Entry)
    requires i < |SnapshotEntries(c, q, open)|
    ensures d in Distribute(InputOf(c, q, open), c.env).entries
    ensures var e := SnapshotEntries(c, q, open)[i];
      && e.address == d.address && e.balanceBefore == d.balanceBefore
      && e.Balanced() && (!e.included ==> e.payout == 0)
  {
    var input := InputOf(c, q, open);
    var es := Distribute(input, c.env).entries;
    OneOutputPerAddress(input, c.env);
    LimitedLength(es, c.maxOutputs, c.env.collate);
    d := es[i];
    EntriesConserve(input, c.env, d);
    LimitBalances(es, c.maxOutputs, c.env.collate, i);
  }

  lemma LimitedLength(es: seq<Entry>, limit: nat, collate: Collation)
    ensures |Limited(es, limit, collate)| == |es|
  {
  }

  /** A snapshot that gets stored has one balanced entry per address, and opens every one
      with the balance that stands. */
  lemma CreatedSnapshotIsFresh(c: Config, b: Book, q: Request, open: seq<Balance>)
    requires ListsOpen(b.accounts, open)
    requires Distinct(Addresses(SnapshotEntries(c, q, open)))
    ensures EntriesOk(SnapshotEntries(c, q, open))
    ensures forall e :: e in SnapshotEntries(c, q, open) ==> e.balanceBefore == BalanceOf(b.accounts, e.address)
  {
    var input := InputOf(c, q, open);
    var es := SnapshotEntries(c, q, open);
    forall e | e in es
      ensures e.Balanced() && (!e.included ==> e.payout == 0) && e.balanceBefore == BalanceOf(b.accounts, e.address)
    {
      var i :| 0 <= i < |es| && es[i] == e;
      var d := LimitedEntry(c, q, open, i);
      UniqueMeansNotPending(c, q, open);
      EntriesOpenWithBalances(input, c.env, d);
      OpenBalancesAreRead(b.accounts, open, d.address);
    }
  }

  lemma UniqueMeansNotPending(c: Config, q: Request, open: seq<Balance>)
    requires Distinct(Addresses(SnapshotEntries(c, q, open)))
    requires SnapshotEntries(c, q, open) != []
    ensures !FeeAddressPending(InputOf(c, q, open), c.env)
  {
    var input := InputOf(c, q, open);
    var es := Distribute(input, c.env).entries;
    LimitedLength(es, c.maxOutputs, c.env.collate);
    SameAddresses(es, c.maxOutputs, c.env.collate);
    OneEntryPerAddress(input, c.env);
  }

  lemma SameAddresses(es: seq<Entry>, limit: nat, collate: Collation)
    requires Distinct(Addresses(Limited(es, limit, collate)))
    ensures Distinct(Addresses(es))
  {
    var capped := Capped(es, limit);
    var kept := KeptTargets(capped);
    CappedAddresses(es, limit);
    GiveExtraAddresses(capped, Allocate(kept, RemovedSats(es, limit), WeightSum(kept), collate));
  }

  lemma {:induction false} SomeTarget(es: seq<Entry>, e: Entry)
    requires e in es && Keeps(e)
    ensures KeptTargets(es) != []
  {
    if e != es[0] { SomeTarget(es[1..], e); }
  }

  /** A stored snapshot has at most the configured number of coinbase outputs, and as soon
      as one of them pays a working miner they pay out the whole coinbase, leaving the sum
      of the balances where it was. */
  lemma SnapshotPaysWholeCoinbase(c: Config, q: Request, open: seq<Balance>, e: Entry)
    requires e in SnapshotEntries(c, q, open) && Keeps(e)
    ensures var es := SnapshotEntries(c, q, open);
      && IncludedCount(es) <= c.maxOutputs
      && Tally(es).paid == q.coinbaseValue
      && Tally(es).shift == 0
  {
    var input := InputOf(c, q, open);
    var dist := Distribute(input, c.env).entries;
    CapConserves(input, c.env, c.maxOutputs);
    var i := KeptBefore(dist, c.maxOutputs, c.env.collate, e);
    SomeTarget(Capped(dist, c.maxOutputs), Capped(dist, c.maxOutputs)[i]);
    CappedAt(dist, c.maxOutputs, i);
    WorkingRowPaysAll(input, c.env, dist[i]);
    EntryTotals(input, c.env);
  }

  /** An entry kept by the cap was an included entry of the distribution. */
  lemma KeptBefore(es: seq<Entry>, limit: nat, collate: Collation, e: Entry) returns (i: nat)
    requires e in Limited(es, limit, collate) && Keeps(e)
    ensures i < |es| && Keeps(es[i]) && Keeps(Capped(es, limit)[i])
  {
    var capped := Capped(es, limit);
    var kept := KeptTargets(capped);
    var extra := Allocate(kept, RemovedSats(es, limit), WeightSum(kept), collate);
    i :| 0 <= i < |es| && GiveExtra(capped, extra)[i] == e;
    GiveExtraAt(capped, extra, i);
    CappedAt(es, limit, i);
  }

  // ---- whole runs ----

  datatype Event =
    | Create(request: Request, open: seq<Balance>)
    | BlockFound(id: nat, height: int)

  /** A run in progress: the tables, the snapshots and heights finalised so far, and how
      many finalisations each snapshot had behind it when it was created. */
  datatype Run = Run(book: Book, finals: seq<nat>, heights: seq<int>, born: map<nat, nat>)

  const START := Run(EMPTY_BOOK, [], [], map[])

  /** The run with new tables; a snapshot that was added is born now. */
  function WithBook(r: Run, book: Book): Run
  {
    Run(book, r.finals, r.heights,
        if r.book.nextId in book.snapshots then r.born[r.book.nextId := |r.finals|] else r.born)
  }

  function Step(c: Config, r: Run, ev: Event): Run
  {
    match ev
    case Create(q, open) =>
      WithBook(r, CreateStep(c, r.book, q, open))
    case BlockFound(id, height) =>
      if FinalizeOutcome(r.book, id, height) == Finalized
      then Run(FinalizeStep(r.book, id, height), r.finals + [id], r.heights + [height], r.born)
      else r
  }

  function Execute(c: Config, events: seq<Event>): Run
  {
    if events == [] then START else Step(c, Execute(c, events[..|events|-1]), events[|events|-1])
  }

  /** Every creation reads the balances that stand, in whatever order. */
  ghost predicate ReadsBalances(c: Config, events: seq<Event>)
  {
    events != [] ==>
      && ReadsBalances(c, events[..|events|-1])
      && (events[|events|-1].Create? ==>
            ListsOpen(Execute(c, events[..|events|-1]).book.accounts, events[|events|-1].open))
  }

  /** No finalisation falls between a snapshot's creation and its own. */
  ghost predicate Undisturbed(c: Config, events: seq<Event>)
  {
    events != [] ==>
      var r := Execute(c, events[..|events|-1]);
      var ev := events[|events|-1];
      && Undisturbed(c, events[..|events|-1])
      && (ev.BlockFound? && FinalizeOutcome(r.book, ev.id, ev.height) == Finalized ==>
            ev.id in r.born && r.born[ev.id] == |r.finals|)
  }

  /** What holds after every step, disturbed or not. */
  ghost predicate RunOk(r: Run)
  {
    && WellFormed(r.book)
    && r.born.Keys == r.book.snapshots.Keys
    && (forall id :: id in r.born && r.born[id] == |r.finals| ==> Fresh(r.book, id))
    && (forall id :: id in r.born ==> r.born[id] <= |r.finals|)
    && (forall id :: id in r.finals ==> id in r.book.snapshots)
    && (forall h :: h in r.heights <==> HeightInHistory(r.book.history, h))
    && Distinct(r.heights)
  }

  lemma StoreKeepsRun(r: Run, q: Request, es: seq<Entry>)
    requires RunOk(r)
    requires Distinct(Addresses(es)) ==> EntriesOk(es)
    requires Distinct(Addresses(es)) ==>
        forall e :: e in es ==> e.balanceBefore == BalanceOf(r.book.accounts, e.address)
    ensures RunOk(WithBook(r, Store(r.book, q, es)))
  {
    if !NoneIncluded(es) && Distinct(Addresses(es)) {
      StoredKeepsRun(r, Stored(q, es));
    }
  }

  lemma StoredKeepsRun(r: Run, sn: Snapshot)
    requires RunOk(r) && sn.entries != [] && EntriesOk(sn.entries)
    requires forall e :: e in sn.entries ==> e.balanceBefore == BalanceOf(r.book.accounts, e.address)
    ensures var b := r.book;
      RunOk(WithBook(r, b.(snapshots := b.snapshots[b.nextId := sn], nextId := b.nextId + 1)))
  {
    var b := r.book;
    var book := b.(snapshots := b.snapshots[b.nextId := sn], nextId := b.nextId + 1);
    var r' := WithBook(r, book);
    forall k | k in r'.born && r'.born[k] == |r.finals| ensures Fresh(book, k) {
      if k in r.born { assert Fresh(r.book, k); }
    }
  }

  lemma CreateKeepsRun(c: Config, r: Run, q: Request, open: seq<Balance>)
    requires RunOk(r) && ListsOpen(r.book.accounts, open)
    ensures RunOk(Step(c, r, Create(q, open)))
  {
    var es := SnapshotEntries(c, q, open);
    if Distinct(Addresses(es)) {
      CreatedSnapshotIsFresh(c, r.book, q, open);
    }
    StoreKeepsRun(r, q, es);
  }

  lemma FinalizeKeepsRun(c: Config, r: Run, id: nat, height: int)
    requires RunOk(r)
    ensures RunOk(Step(c, r, BlockFound(id, height)))
  {
    if FinalizeOutcome(r.book, id, height) == Finalized {
      var es := r.book.snapshots[id].entries;
      HistoryFacts(r.book.history, height, id, es);
      var r' := Step(c, r, BlockFound(id, height));
      forall h ensures h in r'.heights <==> HeightInHistory(r'.book.history, h) {
        if h in r.heights { var key :| key in r.book.history && key.0 == h; assert key in r'.book.history; }
      }
    }
  }

  lemma {:induction false} RunsAreOk(c: Config, events: seq<Event>)
    requires ReadsBalances(c, events)
    ensures RunOk(Execute(c, events))
  {
    if events != [] {
      var before, ev := events[..|events|-1], events[|events|-1];
      RunsAreOk(c, before);
      match ev
      case Create(q, open) => CreateKeepsRun(c, Execute(c, before), q, open);
      case BlockFound(id, height) => FinalizeKeepsRun(c, Execute(c, before), id, height);
    }
  }

  /** Later snapshots do not change what earlier finalisations credited. */
  ghost predicate EachTakenOnce(b: Book)
  {
    && (forall id :: id in b.snapshots ==> id < b.nextId)
    && forall i, j :: i in b.snapshots && j in b.snapshots
         && TakenFor(b.snapshots[i], b.snapshots[j].blockHeight, b.snapshots[j].coinbaseValue, b.snapshots[j].windowEnd)
         ==> i == j
  }

  /** Whatever the run, no two snapshots were taken for one height, value and end of the window:
      so there is only one that a template can be given again. */
  lemma {:induction false} TakenOnce(c: Config, events: seq<Event>)
    ensures EachTakenOnce(Execute(c, events).book)
  {
    if events != [] {
      var r, ev := Execute(c, events[..|events|-1]), events[|events|-1];
      TakenOnce(c, events[..|events|-1]);
      if ev.Create? { CreationKeepsOnce(c, r.book, ev.request, ev.open); }
    }
  }

  lemma CreationKeepsOnce(c: Config, b: Book, q: Request, open: seq<Balance>)
    requires EachTakenOnce(b)
    ensures EachTakenOnce(CreateStep(c, b, q, open))
  {
    CreationMeans(c, b, q, open);
    var b' := CreateStep(c, b, q, open);
    if b' != b {
      assert forall id :: id in b.snapshots ==> b'.snapshots[id] == b.snapshots[id];
      assert !SomeTakenFor(b.snapshots, q.blockHeight, q.coinbaseValue, q.windowEnd);
    }
  }

  lemma {:induction false} CreditedStays(s: map<nat, Snapshot>, t: map<nat, Snapshot>, finals: seq<nat>, a: string)
    requires forall id :: id in s ==> id in t && t[id] == s[id]
    requires forall id :: id in finals ==> id in s
    ensures CreditedTo(t, finals, a) == CreditedTo(s, finals, a)
  {
    if finals != [] {
      assert finals[|finals|-1] in finals;
      CreditedStays(s, t, finals[..|finals|-1], a);
    }
  }

  /** Storing a snapshot changes no balance and no stored snapshot. */
  lemma StoreKeepsSettled(b: Book, q: Request, es: seq<Entry>, finals: seq<nat>)
    requires WellFormed(b) && Settled(b, finals)
    requires forall id :: id in finals ==> id in b.snapshots
    ensures Settled(Store(b, q, es), finals)
  {
    var b' := Store(b, q, es);
    forall a ensures CreditedTo(b'.snapshots, finals, a) == CreditedTo(b.snapshots, finals, a) {
      CreditedStays(b.snapshots, b'.snapshots, finals, a);
    }
  }

  /** The ledger over whole runs: as long as no finalisation falls between a snapshot's
      creation and its own, every address has been paid, or still holds, exactly what the
      finalised snapshots credited it; and no height is ever finalised twice. */
  lemma {:induction false} LedgerHoldsOverRuns(c: Config, events: seq<Event>)
    requires ReadsBalances(c, events) && Undisturbed(c, events)
    ensures var r := Execute(c, events);
      && Settled(r.book, r.finals)
      && Distinct(r.heights)
      && |r.heights| == |r.finals|
  {
    RunsAreOk(c, events);
    if events != [] {
      var before, ev := events[..|events|-1], events[|events|-1];
      var r := Execute(c, before);
      LedgerHoldsOverRuns(c, before);
      RunsAreOk(c, before);
      match ev
      case Create(q, open) =>
        StoreKeepsSettled(r.book, q, SnapshotEntries(c, q, open), r.finals);
      case BlockFound(id, height) =>
        if FinalizeOutcome(r.book, id, height) == Finalized {
          FinalizationKeepsLedgerIffFresh(r.book, r.finals, id, height);
        }
    }
  }

  // ---- a run that loses credit ----

  lemma {:induction false} ShiftWitness(es: seq<Entry>) returns (e: Entry)
    requires Tally(es).shift != 0
    ensures e in es && e.balanceAfter != e.balanceBefore
  {
    TallyCons(es[0], es[1..]);
    assert es == [es[0]] + es[1..];
    if es[0].balanceAfter != es[0].balanceBefore {
      e := es[0];
    } else {
      e := ShiftWitness(es[1..]);
    }
  }

  lemma {:induction false} CountWitness(es: seq<Entry>)
    requires IncludedCount(es) > 0
    ensures !NoneIncluded(es)
  {
    if es[0].included { assert es[0] in es; } else { CountWitness(es[1..]); }
  }

  /** A pool with a fee and a cap of one output: nothing but the fee is paid, and the
      miners' credit stays on their balances. */
  ghost predicate PaysOnlyFee(c: Config, q: Request)
  {
    var input := InputOf(c, q, []);
    && c.maxOutputs == 1 && q.coinbaseValue > 0 && q.addressWork != []
    && !Worthless(input) && FeeAddressApart(input) && 0 < FeeSats(input) < CoinbaseSats(input)
  }

  lemma FeeOnlyShifts(c: Config, q: Request) returns (e: Entry)
    requires PaysOnlyFee(c, q)
    ensures var es := SnapshotEntries(c, q, []);
      !NoneIncluded(es) && e in es && e.balanceAfter != e.balanceBefore
  {
    var input := InputOf(c, q, []);
    var es := SnapshotEntries(c, q, []);
    CapWithoutWorkers(input, c.env);
    FeeStandsFirst(input, c.env);
    CapConserves(input, c.env, 1);
    CountWitness(es);
    EntryTotals(input, c.env);
    e := ShiftWitness(es);
  }

  lemma FeeOnlyAddresses(c: Config, q: Request)
    requires PaysOnlyFee(c, q)
    ensures Distinct(Addresses(SnapshotEntries(c, q, [])))
  {
    CapConserves(InputOf(c, q, []), c.env, 1);
    FeeApartOneEntryPerAddress(InputOf(c, q, []), c.env);
  }

  lemma FeeOnlySnapshot(c: Config, q: Request) returns (e: Entry)
    requires PaysOnlyFee(c, q)
    ensures var es := SnapshotEntries(c, q, []);
      && !NoneIncluded(es) && EntriesOk(es)
      && (forall d :: d in es ==> d.balanceBefore == 0)
      && e in es && e.balanceAfter != 0
  {
    e := FeeOnlyShifts(c, q);
    FeeOnlyAddresses(c, q);
    CreatedSnapshotIsFresh(c, EMPTY_BOOK, q, []);
  }

  lemma OneCreated(c: Config, b: Book, q: Request, es: seq<Entry>)
    requires b.accounts == map[] && q.coinbaseValue > 0 && q.addressWork != [] && !HasReusable(b, q)
    requires es == SnapshotEntries(c, q, []) && !NoneIncluded(es) && Distinct(Addresses(es))
    ensures CreateStep(c, b, q, [])
         == b.(snapshots := b.snapshots[b.nextId := Stored(q, es)], nextId := b.nextId + 1)
  {
  }

  lemma TwoCreated(c: Config, p: Request, q: Request)
    requires PaysOnlyFee(c, p) && q.addressWork == p.addressWork && q.coinbaseValue == p.coinbaseValue
    requires !Reusable(Stored(p, []), q)
    ensures var es := SnapshotEntries(c, p, []);
      var r := Step(c, Step(c, START, Create(p, [])), Create(q, []));
      && r.book == Book(map[0 := Stored(p, es), 1 := Stored(q, es)], 2, map[], map[])
      && r.finals == [] && r.heights == [] && Step(c, START, Create(p, [])).book.accounts == map[]
  {
    var es := SnapshotEntries(c, p, []);
    var _ := FeeOnlySnapshot(c, p);
    assert InputOf(c, q, []) == InputOf(c, p, []);
    OneCreated(c, EMPTY_BOOK, p, es);
    var b := Book(map[0 := Stored(p, es)], 1, map[], map[]);
    assert CreateStep(c, EMPTY_BOOK, p, []) == b;
    assert !HasReusable(b, q);
    OneCreated(c, b, q, es);
  }

  lemma BothFinalised(b: Book, p: Request, q: Request, es: seq<Entry>, e: Entry, g: int, h: int)
    requires b == Book(map[0 := Stored(p, es), 1 := Stored(q, es)], 2, map[], map[]) && EntriesOk(es)
    requires (forall d :: d in es ==> d.balanceBefore == 0) && e in es && e.balanceAfter != 0 && g != h
    ensures FinalizeOutcome(b, 0, g) == Finalized && FinalizeOutcome(FinalizeStep(b, 0, g), 1, h) == Finalized
    ensures !Settled(FinalizeStep(FinalizeStep(b, 0, g), 1, h), [0, 1])
  {
    var b1 := FinalizeStep(b, 0, g);
    assert WellFormed(b) && Fresh(b, 0);
    FinalizationKeepsLedgerIffFresh(b, [], 0, g);
    assert [] + [0] == [0] && [0] + [1] == [0, 1];
    HistoryFacts(b.history, g, 0, es);
    AfterFirst(b, es, e, g);
    FinalizationKeepsLedgerIffFresh(b1, [0], 1, h);
  }

  lemma AfterFirst(b: Book, es: seq<Entry>, e: Entry, g: int)
    requires b.snapshots.Keys == {0, 1} && b.snapshots[0].entries == es == b.snapshots[1].entries
    requires Distinct(Addresses(es)) && e in es && e.balanceBefore == 0 != e.balanceAfter
    requires FinalizeOutcome(b, 0, g) == Finalized
    ensures !Fresh(FinalizeStep(b, 0, g), 1)
  {
    var i :| 0 <= i < |es| && es[i] == e;
    ApplyPresent(b.accounts, es, i);
  }

  function StaleRun(p: Request, q: Request, g: int, h: int): seq<Event>
  {
    [Create(p, []), Create(q, []), BlockFound(0, g), BlockFound(1, h)]
  }

  lemma ExecuteNext(c: Config, events: seq<Event>, ev: Event)
    ensures Execute(c, events + [ev]) == Step(c, Execute(c, events), ev)
  {
    assert (events + [ev])[..|events|] == events;
  }

  lemma ExecuteFour(c: Config, a: Event, b: Event, d: Event, e: Event)
    ensures Execute(c, [a, b, d, e]) == Step(c, Step(c, Step(c, Step(c, START, a), b), d), e)
    ensures Execute(c, [a]) == Step(c, START, a)
  {
    ExecuteNext(c, [], a);
    ExecuteNext(c, [a], b);
    ExecuteNext(c, [a, b], d);
    ExecuteNext(c, [a, b, d], e);
    assert [] + [a] == [a] && [a] + [b] == [a, b] && [a, b] + [d] == [a, b, d] && [a, b, d] + [e] == [a, b, d, e];
  }

  lemma ReadsNothing(c: Config, p: Request, q: Request, d: Event, e: Event)
    requires d.BlockFound? && e.BlockFound?
    requires Execute(c, [Create(p, [])]).book.accounts == map[]
    ensures ReadsBalances(c, [Create(p, []), Create(q, []), d, e])
  {
    var a, b := Create(p, []), Create(q, []);
    assert [a][..0] == [] && [a, b][..1] == [a] && [a, b, d][..2] == [a, b] && [a, b, d, e][..3] == [a, b, d];
    assert ReadsBalances(c, [a]);
    assert ReadsBalances(c, [a, b]);
    assert ReadsBalances(c, [a, b, d]);
  }

  lemma StepsFinalise(c: Config, r: Run, g: int, h: int)
    requires r.finals == []
    requires FinalizeOutcome(r.book, 0, g) == Finalized
      && FinalizeOutcome(FinalizeStep(r.book, 0, g), 1, h) == Finalized
    ensures var r' := Step(c, Step(c, r, BlockFound(0, g)), BlockFound(1, h));
      r'.book == FinalizeStep(FinalizeStep(r.book, 0, g), 1, h) && r'.finals == [0, 1]
  {
    assert [] + [0] == [0] && [0] + [1] == [0, 1];
  }

  /** From empty tables: two snapshots taken one after the other from the same balances, and
      a block found on each. The second finalisation overwrites balances the first left. */
  lemma TwoSnapshotsLoseCredit(c: Config, p: Request, q: Request, g: int, h: int)
    requires PaysOnlyFee(c, p) && q.addressWork == p.addressWork && q.coinbaseValue == p.coinbaseValue
    requires !Reusable(Stored(p, []), q) && g != h
    ensures var r := Execute(c, StaleRun(p, q, g, h));
      ReadsBalances(c, StaleRun(p, q, g, h)) && r.finals == [0, 1] && !Settled(r.book, r.finals)
  {
    var e := FeeOnlySnapshot(c, p);
    TwoCreated(c, p, q);
    ExecuteFour(c, Create(p, []), Create(q, []), BlockFound(0, g), BlockFound(1, h));
    ReadsNothing(c, p, q, BlockFound(0, g), BlockFound(1, h));
    var r := Step(c, Step(c, START, Create(p, [])), Create(q, []));
    BothFinalised(r.book, p, q, SnapshotEntries(c, p, []), e, g, h);
    StepsFinalise(c, r, g, h);
  }

  /** Such a run, in numbers: a single miner, a ten percent fee, a cap of one output. */
  lemma StaleSnapshotLosesCredit(env: Env)
    ensures var c := Config(env, "fee", 10.0, 546, 26_000, 1);
      var p, q := Request(1, 100_000, 10, [Work("miner", 1.0)]), Request(2, 100_000, 20, [Work("miner", 1.0)]);
      var r := Execute(c, StaleRun(p, q, 1, 2));
      ReadsBalances(c, StaleRun(p, q, 1, 2)) && r.finals == [0, 1] && !Settled(r.book, r.finals)
  {
    var c := Config(env, "fee", 10.0, 546, 26_000, 1);
    var p, q := Request(1, 100_000, 10, [Work("miner", 1.0)]), Request(2, 100_000, 20, [Work("miner", 1.0)]);
    OneMinerTables();
    assert InputOf(c, p, []) == ONE_MINER;
    TwoSnapshotsLoseCredit(c, p, q, 1, 2);
  }

  /** Whatever the run, a height with history rows is never finalised again. */
  lemma FinalizedHeightIsClosed(b: Book, id: nat, id': nat, height: int)
    requires FinalizeOutcome(b, id, height) == Finalized
    ensures var b' := FinalizeStep(b, id, height);
      FinalizeOutcome(b', id', height) != Finalized && FinalizeStep(b', id', height) == b'
  {
    HistoryFacts(b.history, height, id, b.snapshots[id].entries);
  }
}
