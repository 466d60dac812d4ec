/**
 The statements by which the payout snapshot service writes its tables
 (src/ORM/payout-snapshot/payout-snapshot.service.ts). A database transaction is one
 method call; PayoutLedger.dfy says what whole runs of these calls keep.
 */
module PayoutService {
  import opened Bytes
  import opened Sequences
  import opened PayoutResult
  import opened OutputCap
  import opened PayoutLedger
  import opened WindowPayout
  import RollupRuns
  import PayoutComputation

  /** What the caller may conclude from the answer: an existing snapshot was taken for exactly
      what was asked, and wherever there is one it is the answer; a created one is the only new
      row, taken for exactly that; and nothing else leaves a new snapshot behind. */
  ghost predicate Answers(b: Book, b': Book, outcome: Creation, height: int, value: int, windowEnd: int)
  {
    && (outcome.Existing? ==>
          b' == b && outcome.id in b.snapshots && TakenFor(b.snapshots[outcome.id], height, value, windowEnd))
    && (SomeTakenFor(b.snapshots, height, value, windowEnd) && value > 0 ==> outcome.Existing?)
    && (outcome.Created? ==>
          && outcome.id == b.nextId && outcome.id in b'.snapshots
          && TakenFor(b'.snapshots[outcome.id], height, value, windowEnd))
    && (!outcome.Created? ==> b'.snapshots == b.snapshots)
  }

  class PayoutSnapshotService {
    const config: Config
    const policy: Policy
    var snapshots: map<nat, Snapshot>
    var nextId: nat
    var accounts: map<string, Account>
    var history: map<(int, string), HistoryRow>

    function Tables(): Book
      reads this
    {
      Book(snapshots, nextId, accounts, history)
    }

    constructor (config: Config, policy: Policy)
      ensures this.config == config && this.policy == policy && Tables() == EMPTY_BOOK
    {
      this.config, this.policy := config, policy;
      snapshots, nextId, accounts, history := map[], 0, map[], map[];
    }

    /** The open balances, in whatever order the query returns them. */
    method GetOpenBalances() returns (open: seq<Balance>)
      ensures ListsOpen(accounts, open)
    {
      open := [];
      var left := accounts.Keys;
      while left != {}
        invariant left <= accounts.Keys
        invariant forall i, j :: 0 <= i < j < |open| ==> open[i].address != open[j].address
        invariant forall x :: x in open ==>
          x.address in accounts && x.address !in left && x.sats != 0 && x.sats == accounts[x.address].balance
        invariant forall a :: a in accounts && a !in left && accounts[a].balance != 0 ==>
          Balance(a, accounts[a].balance) in open
        decreases left
      {
        var a :| a in left;
        left := left - {a};
        if accounts[a].balance != 0 {
          open := open + [Balance(a, accounts[a].balance)];
        }
      }
    }

    method BuildEntries(request: Request, balances: seq<Balance>) returns (entries: seq<Entry>)
      ensures entries == SnapshotEntries(config, request, balances)
    {
      var distribution := PayoutComputation.BuildPayoutDistribution(InputOf(config, request, balances), config.env);
      OneOutputPerAddress(InputOf(config, request, balances), config.env);
      entries := LimitCoinbaseOutputs(distribution.entries, config.maxOutputs, config.env.collate);
    }

    /** Insert the snapshot and its entries; a repeated address rolls the insertion back. */
    method InsertSnapshot(request: Request, entries: seq<Entry>) returns (outcome: Creation)
      requires !NoneIncluded(entries)
      modifies this`snapshots, this`nextId
      ensures Tables() == Store(old(Tables()), request, entries)
      ensures outcome == if Distinct(Addresses(entries)) then Created(old(nextId)) else Violation
    {
      var id := nextId;
      nextId := nextId + 1;
      if !Distinct(Addresses(entries)) {
        return Violation;
      }
      snapshots := snapshots[id := Snapshot(request.blockHeight, request.coinbaseValue, request.windowEnd, entries)];
      outcome := Created(id);
    }

    /** A snapshot over the batches that stand, for a template: one already taken for its
        height, value and window, a new one taken for them, or none. */
    method CreateSnapshotForTemplate(template: NewTemplate, batches: seq<RollupRuns.Batch>)
      returns (outcome: Creation, ghost open: seq<Balance>)
      modifies this`snapshots, this`nextId
      ensures ListsOpen(old(accounts), open)
      ensures match RequestFor(policy, template, PaidBlocks(old(history)), batches)
        case None => outcome == NoSnapshot && Tables() == old(Tables())
        case Some(request) =>
          && Tables() == CreateStep(config, old(Tables()), request, open)
          && Answers(old(Tables()), Tables(), outcome, template.blockHeight, template.coinbaseValue, request.windowEnd)
    {
      var balances := GetOpenBalances();
      open := balances;
      var request := RequestFor(policy, template, PaidBlocks(history), batches);
      if request.None? {
        return NoSnapshot, open;
      }
      ghost var _ := WindowOfRequest(policy, template, PaidBlocks(history), batches, request.value);
      outcome := CreateSnapshot(request.value, balances);
    }

    method CreateSnapshot(request: Request, balances: seq<Balance>) returns (outcome: Creation)
      modifies this`snapshots, this`nextId
      ensures Tables() == CreateStep(config, old(Tables()), request, balances)
      ensures Answers(
        old(Tables()), Tables(), outcome, request.blockHeight, request.coinbaseValue, request.windowEnd)
    {
      if request.coinbaseValue <= 0 {
        return NoSnapshot;
      }
      if id :| id in snapshots && Reusable(snapshots[id], request) {
        return Existing(id);
      }
      if request.addressWork == [] {
        return NoSnapshot;
      }
      var entries := BuildEntries(request, balances);
      if NoneIncluded(entries) {
        return NoSnapshot;
      }
      outcome := InsertSnapshot(request, entries);
    }

    /** Only an accepted block with a snapshot is finalised. */
    method FinalizeSnapshotForBlock(
        payoutSnapshotId: Option<nat>, blockHeight: int, submissionResult: Option<string>, payoutMode: Option<string>)
      returns (outcome: Finalization)
      modifies this`accounts, this`history
      ensures outcome.Disabled? <==> !policy.enabled
      ensures
        if policy.enabled && payoutMode in {None, Some("pplns")} && submissionResult in {None, Some("SUCCESS!")}
           && payoutSnapshotId.Some?
        then
          && outcome == FinalizeOutcome(old(Tables()), payoutSnapshotId.value, blockHeight)
          && Tables() == FinalizeStep(old(Tables()), payoutSnapshotId.value, blockHeight)
        else outcome != Finalized && Tables() == old(Tables())
    {
      if !policy.enabled {
        return Disabled;
      }
      if payoutMode.Some? && payoutMode.value != "pplns" {
        return MissingSnapshot;
      }
      if submissionResult.Some? && submissionResult.value != "SUCCESS!" {
        return MissingSnapshot;
      }
      if payoutSnapshotId.None? {
        return MissingSnapshot;
      }
      outcome := FinalizeSnapshot(payoutSnapshotId.value, blockHeight);
    }

    method FinalizeSnapshot(payoutSnapshotId: nat, blockHeight: int) returns (outcome: Finalization)
      modifies this`accounts, this`history
      ensures outcome == FinalizeOutcome(old(Tables()), payoutSnapshotId, blockHeight)
      ensures Tables() == FinalizeStep(old(Tables()), payoutSnapshotId, blockHeight)
    {
      if payoutSnapshotId !in snapshots {
        return MissingSnapshot;
      }
      if HeightInHistory(history, blockHeight) {
        return AlreadyFinalized;
      }
      var entries := snapshots[payoutSnapshotId].entries;
      if entries == [] {
        return MissingSnapshot;
      }
      ApplyEach(payoutSnapshotId, blockHeight, entries);
      return Finalized;
    }

    /** Write each entry to its balance and its history row. */
    method ApplyEach(payoutSnapshotId: nat, blockHeight: int, entries: seq<Entry>)
      modifies this`accounts, this`history
      ensures accounts == ApplyEntries(old(accounts), entries)
      ensures history == AddHistory(old(history), blockHeight, payoutSnapshotId, entries)
    {
      for i := 0 to |entries|
        invariant accounts == ApplyEntries(old(accounts), entries[..i])
        invariant history == AddHistory(old(history), blockHeight, payoutSnapshotId, entries[..i])
      {
        var entry := entries[i];
        AppliedNext(old(accounts), old(history), blockHeight, payoutSnapshotId, entries, i);
        var paid := if entry.included then entry.payout else 0;
        if entry.address in accounts {
          accounts := accounts[entry.address := Account(entry.balanceAfter, accounts[entry.address].totalPaid + paid)];
        } else {
          accounts := accounts[entry.address := Account(entry.balanceAfter, paid)];
        }
        if (blockHeight, entry.address) !in history {
          history := history[(blockHeight, entry.address) :=
            HistoryRow(payoutSnapshotId, entry.payout, entry.balanceAfter)];
        }
      }
      assert entries[..|entries|] == entries;
    }
  }

  lemma AppliedNext(
      accounts: map<string, Account>, history: map<(int, string), HistoryRow>, height: int, id: nat,
      es: seq<Entry>, i: nat)
    requires i < |es|
    ensures ApplyEntries(accounts, es[..i + 1]) == Upsert(ApplyEntries(accounts, es[..i]), es[i])
    ensures var before := AddHistory(history, height, id, es[..i]);
      AddHistory(history, height, id, es[..i + 1]) ==
        if (height, es[i].address) in before then before
        else before[(height, es[i].address) := HistoryRow(id, es[i].payout, es[i].balanceAfter)]
  {
    assert es[..i + 1][..i] == es[..i];
  }
}
