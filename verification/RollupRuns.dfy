/**
 Runs of share arrivals and rollups (src/ORM/share-accounting/share-accounting.service.ts):
 what every step keeps, and exactly which arrivals break it.
 */
module RollupRuns {
  import opened Bytes
  import opened ShareRollup
  import opened Tallies

  datatype Batch = Batch(
      start: nat, end: nat, count: nat, difficulty: real, finalizedAt: int, rows: seq<Tally<GroupKey>>)

  datatype Phase = Idle | Chosen(now: int, start: nat, end: nat) | Totalled(batch: Batch)

  datatype State = State(table: Table, batches: seq<Batch>, phase: Phase)

  datatype Event =
    | Arrive(index: nat, share: Share)
    | Begin(now: int)
    | InsertBatch
    | InsertSummary
    | Abort

  /** The largest end index of a finalised batch, or zero. */
  function Last(batches: seq<Batch>): nat
  {
    if batches == [] then 0
    else
      var rest := Last(batches[..|batches| - 1]);
      if batches[|batches| - 1].end > rest then batches[|batches| - 1].end else rest
  }

  function Step(cfg: Config, s: State, e: Event): State
  {
    match e
    case Arrive(i, share) => if At(s.table, i).Some? then s else s.(table := Put(s.table, i, share))
    case Begin(now) =>
      if s.phase != Idle then s
      else
        var bounded := Bounded(cfg, s.table, Last(s.batches), now);
        if bounded == [] then s else s.(phase := Chosen(now, bounded[0], bounded[|bounded| - 1]))
    case InsertBatch =>
      if !s.phase.Chosen? then s
      else
        var p := s.phase;
        var count := Number(s.table, p.start, p.end + 1);
        if count == 0 then s.(phase := Idle)
        else s.(phase := Totalled(Batch(p.start, p.end, count, Difficulty(s.table, p.start, p.end + 1), p.now, [])))
    case InsertSummary =>
      if !s.phase.Totalled? then s
      else
        var b := s.phase.batch;
        s.(batches := s.batches + [b.(rows := Rows(s.table, b.start, b.end + 1))], phase := Idle)
    case Abort => s.(phase := Idle)
  }

  function Run(cfg: Config, s: State, events: seq<Event>): State
    decreases |events|
  {
    if events == [] then s else Run(cfg, Step(cfg, s, events[0]), events[1..])
  }

  const START := State([], [], Idle)

  // ---- the invariant ----

  ghost predicate Totals(t: Table, b: Batch)
  {
    b.start <= b.end && b.count == Number(t, b.start, b.end + 1) && b.difficulty == Difficulty(t, b.start, b.end + 1)
  }

  /** A finalised batch: its totals and its rows are those of its range, and every share in
      it was old enough when it was closed. */
  ghost predicate Exact(cfg: Config, t: Table, b: Batch)
  {
    && Totals(t, b) && b.rows == Rows(t, b.start, b.end + 1)
    && forall i: nat :: b.start <= i <= b.end ==> !Unstable(cfg, t, b.finalizedAt, i)
  }

  ghost predicate Ordered(batches: seq<Batch>)
  {
    && (forall k :: 0 <= k < |batches| ==> 0 < batches[k].start <= batches[k].end)
    && (forall j, k :: 0 <= j < k < |batches| ==> batches[j].end < batches[k].start)
  }

  predicate Within(b: Batch, i: nat) { b.start <= i <= b.end }

  ghost predicate Covered(batches: seq<Batch>, i: nat)
  {
    exists k :: 0 <= k < |batches| && Within(batches[k], i)
  }

  ghost predicate NoGaps(t: Table, batches: seq<Batch>)
  {
    forall i: nat :: i <= Last(batches) && Counts(t, i) ==> Covered(batches, i)
  }

  /** Nothing waiting below the end of a chosen range but what is in it, all old enough. */
  ghost predicate RangeOk(cfg: Config, t: Table, last: nat, now: int, start: nat, end: nat)
  {
    && last < start <= end && Counts(t, start)
    && forall i: nat :: last < i <= end && Counts(t, i) ==> start <= i && !Unstable(cfg, t, now, i)
  }

  ghost predicate PhaseOk(cfg: Config, s: State)
  {
    match s.phase
    case Idle => true
    case Chosen(now, start, end) => RangeOk(cfg, s.table, Last(s.batches), now, start, end)
    case Totalled(b) =>
      RangeOk(cfg, s.table, Last(s.batches), b.finalizedAt, b.start, b.end) && Totals(s.table, b)
  }

  /** The accounts: disjoint increasing ranges, exact batches, and every counting share up to
      the last end index inside one of them. */
  ghost predicate AccountsOk(cfg: Config, t: Table, batches: seq<Batch>)
  {
    && Ordered(batches)
    && (forall k :: 0 <= k < |batches| ==> Exact(cfg, t, batches[k]))
    && NoGaps(t, batches)
  }

  ghost predicate Inv(cfg: Config, s: State)
  {
    AccountsOk(cfg, s.table, s.batches) && PhaseOk(cfg, s)
  }

  lemma {:induction false} LastIs(batches: seq<Batch>)
    requires Ordered(batches)
    ensures Last(batches) == if batches == [] then 0 else batches[|batches| - 1].end
    ensures forall k :: 0 <= k < |batches| ==> batches[k].end <= Last(batches)
  {
    if batches != [] {
      LastIs(batches[..|batches| - 1]);
    }
  }

  /** A counted share is in one batch only. */
  lemma CoveredOnce(batches: seq<Batch>, i: nat, j: nat)
    requires Ordered(batches) && j < |batches| && Within(batches[j], i)
    ensures forall k :: 0 <= k < |batches| && k != j ==> !Within(batches[k], i)
  {
    forall k | 0 <= k < |batches| && k != j ensures !Within(batches[k], i) {
      if k < j {
        assert batches[k].end < batches[j].start;
      } else {
        assert batches[j].end < batches[k].start;
      }
    }
  }

  // ---- arrivals ----

  /** The arrivals that come too late for the rollup at hand. */
  predicate Late(cfg: Config, s: State, i: nat, share: Share)
  {
    share.pplns && match s.phase
      case Idle => i <= Last(s.batches)
      case Chosen(now, start, end) => i < start || (i <= end && share.acceptedAt > now - cfg.safetyLag)
      case Totalled(b) => i <= b.end
  }

  lemma PutKeepsExact(cfg: Config, t: Table, b: Batch, i: nat, share: Share)
    requires At(t, i).None? && b.start <= b.end && (i < b.start || i > b.end || !share.pplns)
    ensures Exact(cfg, Put(t, i, share), b) <==> Exact(cfg, t, b)
    ensures Totals(Put(t, i, share), b) <==> Totals(t, b)
  {
    var u := Put(t, i, share);
    SumsIgnoreOthers(t, u, b.start, b.end + 1);
    assert forall k :: b.start <= k <= b.end ==>
      (Unstable(cfg, u, b.finalizedAt, k) <==> Unstable(cfg, t, b.finalizedAt, k));
  }

  ghost predicate SameCounts(t: Table, u: Table, lo: nat, hi: nat)
  {
    forall i :: lo <= i < hi ==> (Counts(t, i) <==> Counts(u, i)) && (Counts(t, i) ==> At(t, i) == At(u, i))
  }

  lemma {:induction false} SumsIgnoreOthers(t: Table, u: Table, lo: nat, hi: nat)
    requires SameCounts(t, u, lo, hi)
    ensures Number(t, lo, hi) == Number(u, lo, hi) && Difficulty(t, lo, hi) == Difficulty(u, lo, hi)
    ensures Rows(t, lo, hi) == Rows(u, lo, hi)
    decreases hi
  {
    if hi > lo { SumsIgnoreOthers(t, u, lo, hi - 1); }
  }

  lemma PutBreaksTotals(t: Table, b: Batch, i: nat, share: Share)
    requires At(t, i).None? && share.pplns && Within(b, i) && Totals(t, b)
    ensures !Totals(Put(t, i, share), b)
  {
    PutCounts(t, i, share, b.start, b.end + 1);
  }

  lemma PutKeepsRange(cfg: Config, t: Table, i: nat, share: Share, last: nat, now: int, start: nat, end: nat)
    requires RangeOk(cfg, t, last, now, start, end) && At(t, i).None?
    requires share.pplns ==> i >= start && (i <= end ==> share.acceptedAt <= now - cfg.safetyLag)
    ensures RangeOk(cfg, Put(t, i, share), last, now, start, end)
  {
    var u := Put(t, i, share);
    forall k: nat | last < k <= end && Counts(u, k) ensures start <= k && !Unstable(cfg, u, now, k) {
      if k != i {
        assert Counts(t, k);
        assert !Unstable(cfg, t, now, k);
      }
    }
  }

  lemma PunctualKeeps(cfg: Config, s: State, i: nat, share: Share)
    requires Inv(cfg, s) && At(s.table, i).None? && !Late(cfg, s, i, share)
    ensures Inv(cfg, Step(cfg, s, Arrive(i, share)))
  {
    var s' := Step(cfg, s, Arrive(i, share));
    LastIs(s.batches);
    if share.pplns { PunctualIsAbove(cfg, s, i, share); }
    forall k | 0 <= k < |s.batches| ensures Exact(cfg, s'.table, s.batches[k]) {
      PutKeepsExact(cfg, s.table, s.batches[k], i, share);
    }
    PunctualKeepsPhase(cfg, s, i, share);
  }

  lemma PunctualIsAbove(cfg: Config, s: State, i: nat, share: Share)
    requires Inv(cfg, s) && share.pplns && !Late(cfg, s, i, share)
    ensures i > Last(s.batches)
  {
  }

  lemma PunctualKeepsPhase(cfg: Config, s: State, i: nat, share: Share)
    requires Inv(cfg, s) && At(s.table, i).None? && !Late(cfg, s, i, share)
    ensures PhaseOk(cfg, Step(cfg, s, Arrive(i, share)))
  {
    match s.phase
    case Idle =>
    case Chosen(now, start, end) => PutKeepsRange(cfg, s.table, i, share, Last(s.batches), now, start, end);
    case Totalled(b) =>
      PutKeepsRange(cfg, s.table, i, share, Last(s.batches), b.finalizedAt, b.start, b.end);
      PutKeepsExact(cfg, s.table, b, i, share);
  }

  // ---- rollups ----

  lemma BeginKeeps(cfg: Config, s: State, now: int)
    requires Inv(cfg, s)
    ensures Inv(cfg, Step(cfg, s, Begin(now)))
  {
    var last := Last(s.batches);
    var bounded := Bounded(cfg, s.table, last, now);
    if s.phase == Idle && bounded != [] {
      var start, end := bounded[0], bounded[|bounded| - 1];
      BoundedIsStablePrefix(cfg, s.table, last, now);
      assert bounded[0] in bounded;
      ChosenRange(cfg, s.table, last, now, bounded[0]);
      forall i | last < i <= end && Counts(s.table, i) ensures start <= i && !Unstable(cfg, s.table, now, i) {
        ChosenRange(cfg, s.table, last, now, i);
      }
      assert RangeOk(cfg, s.table, last, now, start, end);
    }
  }

  /** Nothing that counts lies between the two indices. */
  ghost predicate NextCounting(t: Table, from: nat, i: nat)
  {
    from < i && Counts(t, i) && forall k :: from < k < i ==> !Counts(t, k)
  }

  predicate OldEnough(cfg: Config, t: Table, now: int, i: nat)
  {
    At(t, i).Some? && At(t, i).value.acceptedAt <= now - cfg.safetyLag
  }

  lemma ChosenEnd(cfg: Config, t: Table, last: nat, now: int)
    requires Bounded(cfg, t, last, now) != []
    ensures var b := Bounded(cfg, t, last, now);
      && last < b[|b| - 1] && Number(t, last + 1, b[|b| - 1] + 1) == |b|
      && (|b| == cfg.maxShares
          || forall i: nat :: NextCounting(t, b[|b| - 1], i) ==> !OldEnough(cfg, t, now, i))
  {
    var b, waiting := Bounded(cfg, t, last, now), Waiting(t, last, |t|);
    var end := b[|b| - 1];
    WaitingIs(t, last, |t|);
    BoundedIsStablePrefix(cfg, t, last, now);
    BoundedIsLongest(cfg, t, last, now);
    assert end in b;
    EndCounts(t, last, b, waiting);
    forall i: nat | NextCounting(t, end, i) && |b| < cfg.maxShares ensures !OldEnough(cfg, t, now, i) {
      NextIsNextWaiting(t, last, b, waiting, i);
    }
  }

  lemma EndCounts(t: Table, last: nat, b: seq<nat>, waiting: seq<nat>)
    requires waiting == Waiting(t, last, |t|) && [] < b <= waiting && Ascending(waiting)
    requires last < b[|b| - 1] < |t|
    ensures Number(t, last + 1, b[|b| - 1] + 1) == |b|
  {
    var end := b[|b| - 1];
    WaitingIs(t, last, end + 1);
    WaitingIs(t, last, |t|);
    WaitingUpTo(t, last, end + 1, |t|);
    var w := Waiting(t, last, end + 1);
    assert end in waiting && end in w;
    var k :| 0 <= k < |w| && w[k] == end;
    assert waiting[k] == end && waiting[|b| - 1] == end;
    assert k == |b| - 1;
    assert w[|w| - 1] in w;
    assert k == |w| - 1;
  }

  lemma NextIsNextWaiting(t: Table, last: nat, b: seq<nat>, waiting: seq<nat>, i: nat)
    requires waiting == Waiting(t, last, |t|) && [] < b <= waiting && Ascending(waiting)
    requires last < b[|b| - 1] && NextCounting(t, b[|b| - 1], i)
    ensures |b| < |waiting| && waiting[|b|] == i
  {
    WaitingIs(t, last, |t|);
    assert i in waiting;
    var k :| 0 <= k < |waiting| && waiting[k] == i;
    assert forall m :: 0 <= m < |b| ==> waiting[m] <= waiting[|b| - 1];
    assert waiting[|b|] in waiting && waiting[|b| - 1] < waiting[|b|];
  }

  /** A begun range starts at the oldest waiting share and goes on as long as it may: all of its
      shares are old enough, they are at most what a batch may hold, and if they are fewer, the
      next counting share is too young. None begins only if there is no waiting share, or the
      first is too young, or batches may hold nothing. */
  lemma BegunRange(cfg: Config, s: State, now: int)
    requires s.phase == Idle
    ensures var s', last := Step(cfg, s, Begin(now)), Last(s.batches);
      && s'.table == s.table && s'.batches == s.batches
      && (s'.phase == Idle ==>
            cfg.maxShares == 0 || forall i: nat :: NextCounting(s.table, last, i) ==> !OldEnough(cfg, s.table, now, i))
      && (s'.phase != Idle ==>
            && s'.phase.Chosen? && s'.phase.now == now
            && NextCounting(s.table, last, s'.phase.start) && s'.phase.start <= s'.phase.end
            && (forall i: nat :: last < i <= s'.phase.end && Counts(s.table, i) ==> OldEnough(cfg, s.table, now, i))
            && Number(s.table, last + 1, s'.phase.end + 1) <= cfg.maxShares
            && (Number(s.table, last + 1, s'.phase.end + 1) < cfg.maxShares ==>
                  forall i: nat :: NextCounting(s.table, s'.phase.end, i) ==> !OldEnough(cfg, s.table, now, i)))
  {
    var t, last := s.table, Last(s.batches);
    var b := Bounded(cfg, t, last, now);
    if b == [] {
      NothingBegins(cfg, t, last, now);
    } else {
      BoundedIsStablePrefix(cfg, t, last, now);
      assert b[0] in b;
      forall i: nat | last < i <= b[|b| - 1] && Counts(t, i) ensures b[0] <= i && OldEnough(cfg, t, now, i) {
        ChosenRange(cfg, t, last, now, i);
      }
      ChosenRange(cfg, t, last, now, b[0]);
      ChosenEnd(cfg, t, last, now);
    }
  }

  lemma NothingBegins(cfg: Config, t: Table, last: nat, now: int)
    requires Bounded(cfg, t, last, now) == []
    ensures cfg.maxShares == 0 || forall i: nat :: NextCounting(t, last, i) ==> !OldEnough(cfg, t, now, i)
  {
    BoundedIsLongest(cfg, t, last, now);
    WaitingIs(t, last, |t|);
    var waiting := Waiting(t, last, |t|);
    forall i: nat | cfg.maxShares > 0 && NextCounting(t, last, i) ensures !OldEnough(cfg, t, now, i) {
      assert i in waiting;
      var k :| 0 <= k < |waiting| && waiting[k] == i;
      assert waiting[0] in waiting;
    }
  }

  lemma OrderedAppend(batches: seq<Batch>, b: Batch)
    requires Ordered(batches) && Last(batches) < b.start <= b.end
    ensures Ordered(batches + [b]) && Last(batches + [b]) == b.end
  {
    LastIs(batches);
    assert (batches + [b])[..|batches|] == batches;
  }

  lemma NoGapsAppend(cfg: Config, t: Table, batches: seq<Batch>, b: Batch)
    requires Ordered(batches) && NoGaps(t, batches) && RangeOk(cfg, t, Last(batches), b.finalizedAt, b.start, b.end)
    ensures NoGaps(t, batches + [b])
  {
    OrderedAppend(batches, b);
    var all := batches + [b];
    forall i: nat | i <= b.end && Counts(t, i) ensures Covered(all, i) {
      if i <= Last(batches) {
        var k :| 0 <= k < |batches| && Within(batches[k], i);
        assert Within(all[k], i);
      } else {
        assert Within(all[|batches|], i);
      }
    }
  }

  lemma SummaryKeeps(cfg: Config, s: State)
    requires Inv(cfg, s)
    ensures Inv(cfg, Step(cfg, s, InsertSummary))
  {
    if s.phase.Totalled? {
      var b := s.phase.batch.(rows := Rows(s.table, s.phase.batch.start, s.phase.batch.end + 1));
      OrderedAppend(s.batches, b);
      NoGapsAppend(cfg, s.table, s.batches, b);
      ClosedIsExact(cfg, s.table, Last(s.batches), b);
    }
  }

  lemma ClosedIsExact(cfg: Config, t: Table, last: nat, b: Batch)
    requires RangeOk(cfg, t, last, b.finalizedAt, b.start, b.end) && Totals(t, b)
    requires b.rows == Rows(t, b.start, b.end + 1)
    ensures Exact(cfg, t, b)
  {
    forall i: nat | b.start <= i <= b.end ensures !Unstable(cfg, t, b.finalizedAt, i) {
      assert Counts(t, i) ==> !Unstable(cfg, t, b.finalizedAt, i);
    }
  }

  lemma StepKeeps(cfg: Config, s: State, e: Event)
    requires Inv(cfg, s)
    requires e.Arrive? && At(s.table, e.index).None? ==> !Late(cfg, s, e.index, e.share)
    ensures Inv(cfg, Step(cfg, s, e))
  {
    match e
    case Arrive(i, share) => if At(s.table, i).None? { PunctualKeeps(cfg, s, i, share); }
    case Begin(now) => BeginKeeps(cfg, s, now);
    case InsertBatch =>
    case InsertSummary => SummaryKeeps(cfg, s);
    case Abort =>
  }

  // ---- exactly which arrivals the accounts survive ----

  /** What the open rollup, if any, commits. */
  function Commit(cfg: Config, s: State): State
  {
    Step(cfg, Step(cfg, s, InsertBatch), InsertSummary)
  }

  lemma LateInClosed(cfg: Config, t: Table, batches: seq<Batch>, i: nat, share: Share, more: seq<Batch>)
    requires AccountsOk(cfg, t, batches) && At(t, i).None? && share.pplns && i <= Last(batches)
    requires forall b :: b in more ==> b.start > Last(batches)
    requires Last(batches + more) >= Last(batches)
    ensures !AccountsOk(cfg, Put(t, i, share), batches + more)
  {
    var u, all := Put(t, i, share), batches + more;
    assert Counts(u, i);
    if k :| 0 <= k < |batches| && Within(batches[k], i) {
      PutBreaksTotals(t, batches[k], i, share);
      assert all[k] == batches[k] && !Exact(cfg, u, all[k]);
    } else {
      forall k | 0 <= k < |all| ensures !Within(all[k], i) {
        if k >= |batches| { assert all[k] == more[k - |batches|]; }
      }
      assert !Covered(all, i);
    }
  }

  lemma LateInOpen(cfg: Config, t: Table, batches: seq<Batch>, i: nat, b: Batch)
    requires Ordered(batches) && Last(batches) < i <= b.end && Last(batches) < b.start <= b.end
    requires Counts(t, i) && (i < b.start || !Exact(cfg, t, b))
    ensures !AccountsOk(cfg, t, batches + [b])
  {
    LastIs(batches);
    OrderedAppend(batches, b);
    var all := batches + [b];
    assert all[|batches|] == b;
    if i < b.start {
      forall k | 0 <= k < |all| ensures !Within(all[k], i) {
        if k < |batches| { assert all[k] == batches[k]; }
      }
      assert !Covered(all, i);
    }
  }

  lemma CommitOpen(cfg: Config, s: State, i: nat, share: Share) returns (b: Batch)
    requires Inv(cfg, s) && At(s.table, i).None? && Late(cfg, s, i, share) && s.phase != Idle
    ensures Commit(cfg, Step(cfg, s, Arrive(i, share))).table == Put(s.table, i, share)
    ensures Commit(cfg, Step(cfg, s, Arrive(i, share))).batches == s.batches + [b]
    ensures Last(s.batches) < b.start <= b.end
    ensures i > Last(s.batches) ==> i <= b.end && (i < b.start || !Exact(cfg, Put(s.table, i, share), b))
  {
    var u := Put(s.table, i, share);
    match s.phase
    case Chosen(now, start, end) =>
      assert Counts(u, start);
      NumberOfOne(u, start, start, end + 1);
      b := Batch(start, end, Number(u, start, end + 1), Difficulty(u, start, end + 1), now, Rows(u, start, end + 1));
      if start <= i <= end { assert Unstable(cfg, u, now, i); }
    case Totalled(c) =>
      b := c.(rows := Rows(u, c.start, c.end + 1));
      if Within(c, i) { PutBreaksTotals(s.table, c, i, share); }
  }

  lemma {:induction false} NumberOfOne(t: Table, i: nat, lo: nat, hi: nat)
    requires lo <= i < hi && Counts(t, i)
    ensures Number(t, lo, hi) > 0
    decreases hi
  {
    if i < hi - 1 { NumberOfOne(t, i, lo, hi - 1); }
  }

  /** The accounts that the rollup at hand commits after an arrival are exact if and only if
      the arrival was not late. */
  lemma ArrivalKeepsIff(cfg: Config, s: State, i: nat, share: Share)
    requires Inv(cfg, s) && At(s.table, i).None?
    ensures
      var end := Commit(cfg, Step(cfg, s, Arrive(i, share)));
      AccountsOk(cfg, end.table, end.batches) <==> !Late(cfg, s, i, share)
  {
    var arrived := Step(cfg, s, Arrive(i, share));
    if !Late(cfg, s, i, share) {
      PunctualKeeps(cfg, s, i, share);
      StepKeeps(cfg, arrived, InsertBatch);
      StepKeeps(cfg, Step(cfg, arrived, InsertBatch), InsertSummary);
    } else if s.phase == Idle {
      assert s.batches + [] == s.batches;
      LateInClosed(cfg, s.table, s.batches, i, share, []);
    } else {
      var b := CommitOpen(cfg, s, i, share);
      OrderedAppend(s.batches, b);
      if i <= Last(s.batches) {
        LateInClosed(cfg, s.table, s.batches, i, share, [b]);
      } else {
        LateInOpen(cfg, arrived.table, s.batches, i, b);
      }
    }
  }

  /** No share of a run becomes visible after the rollup it belonged to. */
  ghost predicate Punctual(cfg: Config, s: State, events: seq<Event>)
    decreases |events|
  {
    events == [] || (
      (events[0].Arrive? && At(s.table, events[0].index).None? ==> !Late(cfg, s, events[0].index, events[0].share))
      && Punctual(cfg, Step(cfg, s, events[0]), events[1..]))
  }

  /** In every punctual run, however arrivals and rollup steps interleave, batch ranges stay
      disjoint and increasing, every counting share up to the last end index is in exactly
      one batch, no batch holds a share younger than the lag, and totals and rows are exact. */
  lemma {:induction false} PunctualRunIsExact(cfg: Config, s: State, events: seq<Event>)
    requires Inv(cfg, s) && Punctual(cfg, s, events)
    ensures Inv(cfg, Run(cfg, s, events))
    decreases |events|
  {
    if events != [] {
      StepKeeps(cfg, s, events[0]);
      PunctualRunIsExact(cfg, Step(cfg, s, events[0]), events[1..]);
    }
  }

  lemma FreshRunIsExact(cfg: Config, events: seq<Event>)
    requires Punctual(cfg, START, events)
    ensures Inv(cfg, Run(cfg, START, events))
  {
    assert forall i :: !Counts(START.table, i);
    PunctualRunIsExact(cfg, START, events);
  }

  // ---- conservation ----

  function SumCounts(batches: seq<Batch>): nat
  {
    if batches == [] then 0 else SumCounts(batches[..|batches| - 1]) + batches[|batches| - 1].count
  }

  function SumDifficulty(batches: seq<Batch>): real
  {
    if batches == [] then 0.0 else SumDifficulty(batches[..|batches| - 1]) + batches[|batches| - 1].difficulty
  }

  lemma OutsideAll(batches: seq<Batch>, i: nat)
    requires batches != [] && Ordered(batches)
    requires i < batches[|batches| - 1].start && (|batches| > 1 ==> i > batches[|batches| - 2].end)
    ensures !Covered(batches, i)
  {
    var n := |batches| - 1;
    forall k | 0 <= k < |batches| ensures !Within(batches[k], i) {
      assert k < n - 1 ==> batches[k].end < batches[n - 1].start;
    }
  }

  lemma GapIsEmpty(t: Table, batches: seq<Batch>)
    requires batches != [] && Ordered(batches) && NoGaps(t, batches)
    ensures
      var before := batches[..|batches| - 1];
      var from := if before == [] then 0 else Last(before) + 1;
      from <= batches[|batches| - 1].start && Empty(t, from, batches[|batches| - 1].start)
  {
    var n := |batches| - 1;
    var before := batches[..n];
    LastIs(batches);
    LastIs(before);
    forall i: nat | (if before == [] then 0 else Last(before) + 1) <= i < batches[n].start ensures !Counts(t, i) {
      OutsideAll(batches, i);
    }
  }

  lemma FewerBatches(t: Table, batches: seq<Batch>)
    requires batches != [] && Ordered(batches) && NoGaps(t, batches)
    ensures |batches| == 1 || (Ordered(batches[..|batches| - 1]) && NoGaps(t, batches[..|batches| - 1]))
  {
    var n := |batches| - 1;
    var before := batches[..n];
    LastIs(batches);
    LastIs(before);
    if n > 0 {
      assert before[n - 1] == batches[n - 1];
      forall i: nat | i <= Last(before) && Counts(t, i) ensures Covered(before, i) {
        var k :| 0 <= k < |batches| && Within(batches[k], i);
        assert Within(before[k], i);
      }
    }
  }

  /** The batches together hold every counting share up to the last end index, and all of
      its credited difficulty. */
  lemma {:induction false} BatchesConserve(t: Table, batches: seq<Batch>)
    requires Ordered(batches) && NoGaps(t, batches)
    requires forall k :: 0 <= k < |batches| ==> Totals(t, batches[k])
    ensures batches != [] ==> SumCounts(batches) == Number(t, 0, Last(batches) + 1)
    ensures batches != [] ==> SumDifficulty(batches) == Difficulty(t, 0, Last(batches) + 1)
    decreases |batches|
  {
    if batches != [] {
      var n := |batches| - 1;
      var before, b := batches[..n], batches[n];
      var from := if before == [] then 0 else Last(before) + 1;
      LastIs(batches);
      GapIsEmpty(t, batches);
      EmptySums(t, "", from, b.start);
      SumsSplit(t, "", 0, from, b.end + 1);
      SumsSplit(t, "", from, b.start, b.end + 1);
      FewerBatches(t, batches);
      if n > 0 {
        BatchesConserve(t, before);
      }
    }
  }

  // ---- a late share is lost for good ----

  function CountsUpTo(batches: seq<Batch>, bound: nat): nat
  {
    if batches == [] then 0
    else
      CountsUpTo(batches[..|batches| - 1], bound)
      + (if batches[|batches| - 1].end <= bound then batches[|batches| - 1].count else 0)
  }

  lemma {:induction false} AllUpTo(batches: seq<Batch>, bound: nat)
    requires forall k :: 0 <= k < |batches| ==> batches[k].end <= bound
    ensures CountsUpTo(batches, bound) == SumCounts(batches)
  {
    if batches != [] { AllUpTo(batches[..|batches| - 1], bound); }
  }

  lemma {:induction false} NumberGrows(t: Table, i: nat, share: Share, lo: nat, hi: nat)
    requires At(t, i).None?
    ensures Number(Put(t, i, share), lo, hi) >= Number(t, lo, hi)
    decreases hi
  {
    if hi > lo { NumberGrows(t, i, share, lo, hi - 1); }
  }

  /** Some counting share at or below `bound` is in no batch that ends there. */
  ghost predicate Short(s: State, bound: nat)
  {
    && bound <= Last(s.batches) && (s.phase.Chosen? ==> s.phase.start > bound && s.phase.start <= s.phase.end)
    && (s.phase.Totalled? ==> s.phase.batch.end > bound)
    && Number(s.table, 0, bound + 1) > CountsUpTo(s.batches, bound)
  }

  lemma ShortBegin(cfg: Config, s: State, now: int, bound: nat)
    requires Short(s, bound)
    ensures Short(Step(cfg, s, Begin(now)), bound)
  {
    var last := Last(s.batches);
    var bounded := Bounded(cfg, s.table, last, now);
    if bounded != [] {
      BoundedIsStablePrefix(cfg, s.table, last, now);
      assert bounded[0] in bounded;
      ChosenRange(cfg, s.table, last, now, bounded[0]);
    }
  }

  lemma ShortSummary(cfg: Config, s: State, bound: nat)
    requires Short(s, bound)
    ensures Short(Step(cfg, s, InsertSummary), bound)
  {
    if s.phase.Totalled? {
      var b := s.phase.batch.(rows := Rows(s.table, s.phase.batch.start, s.phase.batch.end + 1));
      var all := s.batches + [b];
      assert all[..|s.batches|] == s.batches && all[|s.batches|] == b;
      assert CountsUpTo(all, bound) == CountsUpTo(s.batches, bound);
    }
  }

  lemma ShortStays(cfg: Config, s: State, e: Event, bound: nat)
    requires Short(s, bound)
    ensures Short(Step(cfg, s, e), bound)
  {
    match e
    case Arrive(i, share) => if At(s.table, i).None? { NumberGrows(s.table, i, share, 0, bound + 1); }
    case Begin(now) => ShortBegin(cfg, s, now, bound);
    case InsertBatch =>
    case InsertSummary => ShortSummary(cfg, s, bound);
    case Abort =>
  }

  /** A counting share that arrives at or below the last end index is missing from the
      batches up to there in every later state, whatever happens next. */
  lemma {:induction false} LateShareIsLost(cfg: Config, s: State, i: nat, share: Share, events: seq<Event>)
    requires Inv(cfg, s) && s.phase == Idle && s.batches != []
    requires At(s.table, i).None? && share.pplns && i <= Last(s.batches)
    ensures Short(Run(cfg, Step(cfg, s, Arrive(i, share)), events), Last(s.batches))
  {
    var bound := Last(s.batches);
    LastIs(s.batches);
    BatchesConserve(s.table, s.batches);
    AllUpTo(s.batches, bound);
    PutCounts(s.table, i, share, 0, bound + 1);
    ShortForever(cfg, Step(cfg, s, Arrive(i, share)), events, bound);
  }

  lemma {:induction false} ShortForever(cfg: Config, s: State, events: seq<Event>, bound: nat)
    requires Short(s, bound)
    ensures Short(Run(cfg, s, events), bound)
    decreases |events|
  {
    if events != [] {
      ShortStays(cfg, s, events[0], bound);
      ShortForever(cfg, Step(cfg, s, events[0]), events[1..], bound);
    }
  }

  /** Share 2 is rolled up alone; share 1 then appears, and the two visible shares face a
      count of one. */
  lemma LateShareExample(cfg: Config, share: Share)
    requires cfg.maxShares >= 1 && share.pplns
    ensures
      var end := Run(cfg, START, [
        Arrive(2, share), Begin(share.acceptedAt + cfg.safetyLag), InsertBatch, InsertSummary, Arrive(1, share)]);
      && SumCounts(end.batches) == 1 && Number(end.table, 0, Last(end.batches) + 1) == 2
      && !AccountsOk(cfg, end.table, end.batches)
  {
    var now := share.acceptedAt + cfg.safetyLag;
    var e := [Arrive(2, share), Begin(now), InsertBatch, InsertSummary, Arrive(1, share)];
    var t := Put([], 2, share);
    var s1 := Step(cfg, START, e[0]);
    assert s1 == State(t, [], Idle);
    OneWaiting(cfg, t, now);
    var s2 := Step(cfg, s1, e[1]);
    assert s2 == State(t, [], Chosen(now, 2, 2));
    assert Number(t, 2, 3) == 1;
    var b := Batch(2, 2, 1, Difficulty(t, 2, 3), now, []);
    var s3 := Step(cfg, s2, e[2]);
    assert s3 == State(t, [], Totalled(b));
    var b' := b.(rows := Rows(t, 2, 3));
    var s4 := Step(cfg, s3, e[3]);
    assert s4 == State(t, [b'], Idle);
    var u := Put(t, 1, share);
    var s5 := Step(cfg, s4, e[4]);
    assert s5 == State(u, [b'], Idle);
    FiveSteps(cfg, START, e[0], e[1], e[2], e[3], e[4]);
    assert [b'][..0] == [];
    assert Last([b']) == 2 && SumCounts([b']) == 1;
    assert Number(u, 0, 3) == 2 by {
      assert Number(u, 0, 1) == 0;
      assert Number(u, 0, 2) == 1;
    }
    assert Counts(u, 1) && !Covered([b'], 1);
  }

  lemma OneWaiting(cfg: Config, t: Table, now: int)
    requires cfg.maxShares >= 1 && |t| == 3 && Counts(t, 2) && !Counts(t, 1) && !Unstable(cfg, t, now, 2)
    ensures Bounded(cfg, t, 0, now) == [2]
  {
    assert Waiting(t, 0, 1) == [];
    assert Waiting(t, 0, 2) == [];
    assert Waiting(t, 0, 3) == [2];
    assert [2][1..] == [];
    assert FirstUnstable(cfg, t, now, [2]) == None;
    assert UpTo([2], None) == [2];
  }

  lemma FiveSteps(cfg: Config, s: State, a: Event, b: Event, c: Event, d: Event, e: Event)
    ensures Run(cfg, s, [a, b, c, d, e]) == Step(cfg, Step(cfg, Step(cfg, Step(cfg, Step(cfg, s, a), b), c), d), e)
  {
    assert [a, b, c, d, e][1..] == [b, c, d, e] && [b, c, d, e][1..] == [c, d, e];
    assert [c, d, e][1..] == [d, e] && [d, e][1..] == [e] && [e][1..] == [];
    var s1 := Step(cfg, s, a);
    var s2 := Step(cfg, s1, b);
    var s3 := Step(cfg, s2, c);
    var s4 := Step(cfg, s3, d);
    assert Run(cfg, s4, [e]) == Step(cfg, s4, e);
    assert Run(cfg, s3, [d, e]) == Run(cfg, s4, [e]);
    assert Run(cfg, s2, [c, d, e]) == Run(cfg, s3, [d, e]);
    assert Run(cfg, s1, [b, c, d, e]) == Run(cfg, s2, [c, d, e]);
  }
}
