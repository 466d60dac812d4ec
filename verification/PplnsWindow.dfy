/**
 The window of batches a payout is computed from, and the work of every address in it
 (src/ORM/payout-snapshot/payout-snapshot.service.ts).
 */
module PplnsWindow {
  import opened Bytes
  import opened RollupRuns
  import opened ShareRollup
  import opened Tallies

  // ---- the window query ----

  /** Difficulty of the batches that end later, as the ordered running sum computes it. */
  function Newer(batches: seq<Batch>, end: nat): real
  {
    if batches == [] then 0.0
    else (if batches[0].end > end then batches[0].difficulty else 0.0) + Newer(batches[1..], end)
  }

  function Select(all: seq<Batch>, batches: seq<Batch>, target: real): seq<Batch>
  {
    if batches == [] then []
    else if Newer(all, batches[0].end) < target then [batches[0]] + Select(all, batches[1..], target)
    else Select(all, batches[1..], target)
  }

  function Selected(batches: seq<Batch>, target: real): seq<Batch>
  {
    Select(batches, batches, target)
  }

  function TotalOf(batches: seq<Batch>): real
  {
    if batches == [] then 0.0 else batches[0].difficulty + TotalOf(batches[1..])
  }

  function FirstStart(batches: seq<Batch>): nat
    requires batches != []
  {
    if |batches| == 1 then batches[0].start
    else if batches[0].start < FirstStart(batches[1..]) then batches[0].start
    else FirstStart(batches[1..])
  }

  function LastEnd(batches: seq<Batch>): nat
    requires batches != []
  {
    if |batches| == 1 then batches[0].end
    else if batches[0].end > LastEnd(batches[1..]) then batches[0].end
    else LastEnd(batches[1..])
  }

  datatype Window = Window(start: nat, end: nat, total: real)

  function GetPplnsWindow(batches: seq<Batch>, target: real): Option<Window>
  {
    var selected := Selected(batches, target);
    if selected == [] then None else Some(Window(FirstStart(selected), LastEnd(selected), TotalOf(selected)))
  }

  // ---- the selected batches are the shortest newest-first run that reaches the target ----

  ghost predicate Weighty(batches: seq<Batch>)
  {
    forall b :: b in batches ==> b.difficulty >= 0.0
  }

  lemma {:induction false} NewerIsTail(batches: seq<Batch>, k: nat)
    requires Ordered(batches) && k < |batches|
    ensures Newer(batches, batches[k].end) == TotalOf(batches[k + 1..])
  {
    if k == 0 {
      AllNewer(batches[1..], batches[0].end);
    } else {
      assert batches[0].end < batches[k].start;
      NewerIsTail(batches[1..], k - 1);
      assert batches[1..][k..] == batches[k + 1..];
    }
  }

  lemma {:induction false} AllNewer(batches: seq<Batch>, end: nat)
    requires forall k :: 0 <= k < |batches| ==> batches[k].end > end
    ensures Newer(batches, end) == TotalOf(batches)
  {
    if batches != [] { AllNewer(batches[1..], end); }
  }

  lemma {:induction false} TailShrinks(batches: seq<Batch>, j: nat, k: nat)
    requires Weighty(batches) && j <= k <= |batches|
    ensures TotalOf(batches[k..]) <= TotalOf(batches[j..])
    decreases k - j
  {
    if j < k {
      TailShrinks(batches, j + 1, k);
      assert batches[j..][1..] == batches[j + 1..];
      assert batches[j] in batches;
    }
  }

  /** Where the window begins: the oldest batch whose newer ones do not reach the target. */
  function Cut(batches: seq<Batch>, target: real, k: nat): (m: nat)
    requires k <= |batches|
    ensures k <= m <= |batches|
    decreases |batches| - k
  {
    if k == |batches| then k
    else if TotalOf(batches[k + 1..]) < target then k
    else Cut(batches, target, k + 1)
  }

  lemma {:induction false} CutIs(batches: seq<Batch>, target: real, k: nat)
    requires k <= |batches|
    ensures
      var m := Cut(batches, target, k);
      && (m < |batches| ==> TotalOf(batches[m + 1..]) < target)
      && (m > k ==> TotalOf(batches[m..]) >= target)
    decreases |batches| - k
  {
    if k < |batches| {
      var newer := TotalOf(batches[k + 1..]);
      if newer < target {
        assert Cut(batches, target, k) == k;
      } else {
        assert Cut(batches, target, k) == Cut(batches, target, k + 1);
        CutIs(batches, target, k + 1);
      }
    }
  }

  lemma CutStays(batches: seq<Batch>, target: real, k: nat)
    requires Weighty(batches) && k < |batches| && TotalOf(batches[k + 1..]) < target
    ensures Cut(batches, target, k + 1) == k + 1
  {
    if k + 1 < |batches| { TailShrinks(batches, k + 1, k + 2); }
  }

  lemma SelectStep(all: seq<Batch>, b: Batch, rest: seq<Batch>, target: real)
    ensures Select(all, [b] + rest, target) ==
      if Newer(all, b.end) < target then [b] + Select(all, rest, target) else Select(all, rest, target)
  {
    assert ([b] + rest)[1..] == rest;
  }

  lemma {:induction false} SelectIsTail(batches: seq<Batch>, target: real, k: nat)
    requires Ordered(batches) && Weighty(batches) && k <= |batches|
    ensures Select(batches, batches[k..], target) == batches[Cut(batches, target, k)..]
    decreases |batches| - k
  {
    if k < |batches| {
      var b, rest := batches[k], batches[k + 1..];
      assert batches[k..] == [b] + rest;
      SelectStep(batches, b, rest, target);
      NewerIsTail(batches, k);
      SelectIsTail(batches, target, k + 1);
      if TotalOf(rest) < target {
        CutStays(batches, target, k);
      }
    }
  }

  /** The selected batches are the newest ones, just enough of them: without the oldest the
      target is not reached; with it, it is, unless every batch there is was taken. */
  lemma WindowIsShortest(batches: seq<Batch>, target: real)
    requires Ordered(batches) && Weighty(batches)
    ensures
      var m := Cut(batches, target, 0);
      && Selected(batches, target) == batches[m..]
      && (m < |batches| ==> TotalOf(batches[m + 1..]) < target)
      && (TotalOf(batches[m..]) >= target || m == 0)
  {
    SelectIsTail(batches, target, 0);
    assert batches[0..] == batches;
    CutIs(batches, target, 0);
  }

  lemma {:induction false} WindowEnds(batches: seq<Batch>)
    requires Ordered(batches) && batches != []
    ensures FirstStart(batches) == batches[0].start && LastEnd(batches) == batches[|batches| - 1].end
  {
    if |batches| > 1 {
      WindowEnds(batches[1..]);
      assert batches[0].end < batches[1].start;
      assert batches[0].end < batches[|batches| - 1].start;
    }
  }

  // ---- the work of every address ----

  /** The batches the index filter lets through. */
  function InWindow(batches: seq<Batch>, w: Window): seq<Batch>
  {
    if batches == [] then []
    else if w.start <= batches[0].end <= w.end then [batches[0]] + InWindow(batches[1..], w)
    else InWindow(batches[1..], w)
  }

  function AddRows(work: seq<Tally<string>>, rows: seq<Tally<GroupKey>>): seq<Tally<string>>
    decreases |rows|
  {
    if rows == [] then work
    else AddRows(Add(work, rows[0].key.address, rows[0].difficulty, rows[0].count), rows[1..])
  }

  function Grouped(work: seq<Tally<string>>, batches: seq<Batch>): seq<Tally<string>>
    decreases |batches|
  {
    if batches == [] then work else Grouped(AddRows(work, batches[0].rows), batches[1..])
  }

  function GetAddressWork(batches: seq<Batch>, w: Window): seq<Tally<string>>
  {
    Positive(Grouped([], InWindow(batches, w)))
  }

  lemma PassesFilter(batches: seq<Batch>, m: nat, k: nat, w: Window)
    requires Ordered(batches) && m < |batches| && k < |batches|
    requires w.start == batches[m].start && w.end == batches[|batches| - 1].end
    ensures w.start <= batches[k].end <= w.end <==> k >= m
  {
    assert k == |batches| - 1 || batches[k].end < batches[|batches| - 1].start;
    if k < m {
      assert batches[k].end < batches[m].start;
    } else {
      assert m == k || batches[m].end < batches[k].start;
    }
  }

  lemma InWindowStep(b: Batch, rest: seq<Batch>, w: Window)
    ensures InWindow([b] + rest, w) == if w.start <= b.end <= w.end then [b] + InWindow(rest, w) else InWindow(rest, w)
  {
    assert ([b] + rest)[1..] == rest;
  }

  lemma {:induction false} FilterIsTail(batches: seq<Batch>, m: nat, k: nat, w: Window)
    requires Ordered(batches) && m < |batches| && k <= |batches|
    requires w.start == batches[m].start && w.end == batches[|batches| - 1].end
    ensures InWindow(batches[k..], w) == batches[if k < m then m else k..]
    decreases |batches| - k
  {
    if k < |batches| {
      var b, rest := batches[k], batches[k + 1..];
      assert batches[k..] == [b] + rest;
      InWindowStep(b, rest, w);
      PassesFilter(batches, m, k, w);
      FilterIsTail(batches, m, k + 1, w);
    }
  }

  lemma Bounds(batches: seq<Batch>, m: nat, w: Window)
    requires Ordered(batches) && m < |batches|
    requires w == Window(FirstStart(batches[m..]), LastEnd(batches[m..]), TotalOf(batches[m..]))
    ensures w.start == batches[m].start && w.end == batches[|batches| - 1].end
  {
    OrderedTail(batches, m);
    WindowEnds(batches[m..]);
  }

  lemma OrderedTail(batches: seq<Batch>, m: nat)
    requires Ordered(batches) && m < |batches|
    ensures Ordered(batches[m..])
    ensures batches[m..][0] == batches[m] && batches[m..][|batches[m..]| - 1] == batches[|batches| - 1]
  {
    var tail := batches[m..];
    forall j, k | 0 <= j < k < |tail| ensures tail[j].end < tail[k].start {
      assert batches[m + j].end < batches[m + k].start;
    }
  }

  lemma FilterIsWhole(batches: seq<Batch>, m: nat, w: Window)
    requires Ordered(batches) && m < |batches|
    requires w.start == batches[m].start && w.end == batches[|batches| - 1].end
    ensures InWindow(batches, w) == batches[m..]
  {
    FilterIsTail(batches, m, 0, w);
    assert batches[0..] == batches;
  }

  /** The window's bounds and total are those of its batches, from the m-th on, and the
      filter on index bounds picks exactly these. */
  lemma FilterSelectsWindow(batches: seq<Batch>, target: real, w: Window) returns (m: nat, tail: seq<Batch>)
    requires Ordered(batches) && Weighty(batches) && GetPplnsWindow(batches, target) == Some(w)
    ensures m < |batches| && w.start == batches[m].start && w.end == batches[|batches| - 1].end
    ensures tail == batches[m..] && w.total == TotalOf(tail)
    ensures Selected(batches, target) == tail && InWindow(batches, w) == tail
  {
    m := Cut(batches, target, 0);
    tail := batches[m..];
    WindowIsShortest(batches, target);
    assert m < |batches|;
    Bounds(batches, m, w);
    FilterIsWhole(batches, m, w);
  }

  function RowsTotal(batches: seq<Batch>): real
  {
    if batches == [] then 0.0 else Total(batches[0].rows) + RowsTotal(batches[1..])
  }

  function RowsFor(batches: seq<Batch>, address: string): real
  {
    if batches == [] then 0.0 else AddressTotal(batches[0].rows, address) + RowsFor(batches[1..], address)
  }

  lemma {:induction false} AddRowsSums(work: seq<Tally<string>>, rows: seq<Tally<GroupKey>>, address: string)
    requires DistinctKeys(work) && NonNegative(work) && NonNegative(rows)
    ensures Total(AddRows(work, rows)) == Total(work) + Total(rows)
    ensures Of(AddRows(work, rows), address) == Of(work, address) + AddressTotal(rows, address)
    ensures DistinctKeys(AddRows(work, rows)) && NonNegative(AddRows(work, rows))
    decreases |rows|
  {
    if rows != [] {
      var r := rows[0];
      assert r in rows;
      AddSums(work, r.key.address, r.difficulty, r.count, address);
      AddDistinct(work, r.key.address, r.difficulty, r.count);
      AddNonNegative(work, r.key.address, r.difficulty, r.count);
      AddRowsSums(Add(work, r.key.address, r.difficulty, r.count), rows[1..], address);
    }
  }

  ghost predicate RowsNonNegative(batches: seq<Batch>)
  {
    forall k :: 0 <= k < |batches| ==> NonNegative(batches[k].rows)
  }

  lemma {:induction false} GroupedSums(work: seq<Tally<string>>, batches: seq<Batch>, address: string)
    requires DistinctKeys(work) && NonNegative(work) && RowsNonNegative(batches)
    ensures Total(Grouped(work, batches)) == Total(work) + RowsTotal(batches)
    ensures Of(Grouped(work, batches), address) == Of(work, address) + RowsFor(batches, address)
    ensures DistinctKeys(Grouped(work, batches)) && NonNegative(Grouped(work, batches))
    decreases |batches|
  {
    if batches != [] {
      AddRowsSums(work, batches[0].rows, address);
      GroupedSums(AddRows(work, batches[0].rows), batches[1..], address);
    }
  }

  // ---- back to the shares ----

  ghost predicate SharesWeighty(t: Table)
  {
    forall i: nat :: Counts(t, i) ==> At(t, i).value.difficulty >= 0.0
  }

  lemma {:induction false} RowsAreWeighty(t: Table, lo: nat, hi: nat)
    requires SharesWeighty(t)
    ensures NonNegative(Rows(t, lo, hi)) && Difficulty(t, lo, hi) >= 0.0
    decreases hi
  {
    if hi > lo {
      RowsAreWeighty(t, lo, hi - 1);
      if Counts(t, hi - 1) {
        var s := At(t, hi - 1).value;
        AddNonNegative(Rows(t, lo, hi - 1), s.key, s.difficulty, 1);
      }
    }
  }

  lemma BatchesAreWeighty(cfg: Config, s: State)
    requires Inv(cfg, s) && SharesWeighty(s.table)
    ensures Ordered(s.batches) && Weighty(s.batches) && RowsNonNegative(s.batches)
  {
    forall k | 0 <= k < |s.batches|
      ensures s.batches[k].difficulty >= 0.0 && NonNegative(s.batches[k].rows)
    {
      assert Exact(cfg, s.table, s.batches[k]);
      RowsAreWeighty(s.table, s.batches[k].start, s.batches[k].end + 1);
    }
  }

  lemma SumsAroundGap(t: Table, address: string, start: nat, gap: nat, next: nat, end: nat)
    requires start <= gap <= next <= end && Empty(t, gap, next)
    ensures Difficulty(t, start, end) == Difficulty(t, start, gap) + Difficulty(t, next, end)
    ensures DifficultyOf(t, address, start, end)
        == DifficultyOf(t, address, start, gap) + DifficultyOf(t, address, next, end)
  {
    EmptySums(t, address, gap, next);
    SumsSplit(t, address, start, gap, end);
    SumsSplit(t, address, gap, next, end);
  }

  ghost predicate HoldsShares(t: Table, tail: seq<Batch>, address: string, from: nat, end: nat)
  {
    && TotalOf(tail) == Difficulty(t, from, end) && RowsTotal(tail) == Difficulty(t, from, end)
    && RowsFor(tail, address) == DifficultyOf(t, address, from, end)
  }

  lemma HoldsOneMore(t: Table, b: Batch, rest: seq<Batch>, address: string, next: nat, end: nat)
    requires Totals(t, b) && b.rows == Rows(t, b.start, b.end + 1)
    requires b.end < next <= end && Empty(t, b.end + 1, next) && HoldsShares(t, rest, address, next, end)
    ensures HoldsShares(t, [b] + rest, address, b.start, end)
  {
    RowsSumUp(t, address, b.start, b.end + 1);
    SumsAroundGap(t, address, b.start, b.end + 1, next, end);
    assert ([b] + rest)[1..] == rest;
  }

  lemma HoldsOne(t: Table, b: Batch, address: string)
    requires Totals(t, b) && b.rows == Rows(t, b.start, b.end + 1)
    ensures HoldsShares(t, [b], address, b.start, b.end + 1)
  {
    RowsSumUp(t, address, b.start, b.end + 1);
    assert [b][1..] == [];
  }

  lemma BatchFacts(cfg: Config, s: State, m: nat)
    requires Inv(cfg, s) && m < |s.batches|
    ensures Totals(s.table, s.batches[m])
      && s.batches[m].rows == Rows(s.table, s.batches[m].start, s.batches[m].end + 1)
    ensures m + 1 < |s.batches| ==> s.batches[m].end < s.batches[m + 1].start <= s.batches[|s.batches| - 1].end
  {
    assert Exact(cfg, s.table, s.batches[m]);
    var last := |s.batches| - 1;
    assert m + 1 < last ==> s.batches[m + 1].end < s.batches[last].start;
  }

  /** A run of batches, from the m-th on, holds exactly the counting shares of its index
      range: in all, and address by address. */
  lemma {:induction false} TailIsShares(cfg: Config, s: State, m: nat, address: string)
    requires Inv(cfg, s) && m < |s.batches|
    ensures HoldsShares(s.table, s.batches[m..], address, s.batches[m].start, s.batches[|s.batches| - 1].end + 1)
    decreases |s.batches| - m
  {
    var t, b, last := s.table, s.batches[m], |s.batches| - 1;
    BatchFacts(cfg, s, m);
    if m == last {
      HoldsOne(t, b, address);
      assert s.batches[m..] == [b];
    } else {
      var rest := s.batches[m + 1..];
      TailIsShares(cfg, s, m + 1, address);
      BetweenIsEmpty(cfg, s, m);
      HoldsOneMore(t, b, rest, address, s.batches[m + 1].start, s.batches[last].end + 1);
      assert s.batches[m..] == [b] + rest;
    }
  }

  lemma BetweenIsEmpty(cfg: Config, s: State, m: nat)
    requires Inv(cfg, s) && m + 1 < |s.batches|
    ensures Empty(s.table, s.batches[m].end + 1, s.batches[m + 1].start)
  {
    LastIs(s.batches);
    forall i: nat | s.batches[m].end + 1 <= i < s.batches[m + 1].start ensures !Counts(s.table, i) {
      forall k | 0 <= k < |s.batches| ensures !Within(s.batches[k], i) {
        assert k < m ==> s.batches[k].end < s.batches[m].start;
        assert k > m + 1 ==> s.batches[m + 1].end < s.batches[k].start;
      }
      assert !Covered(s.batches, i);
      assert s.batches[m + 1].start <= s.batches[m + 1].end <= Last(s.batches);
    }
  }

  ghost predicate WorkIsShares(t: Table, w: Window, work: seq<Tally<string>>, address: string)
  {
    && w.total == Difficulty(t, w.start, w.end + 1) && Total(work) == w.total
    && Of(work, address) == DifficultyOf(t, address, w.start, w.end + 1) && DistinctKeys(work)
  }

  lemma WorkFromBatches(t: Table, w: Window, tail: seq<Batch>, work: seq<Tally<string>>, address: string)
    requires work == Positive(Grouped([], tail)) && RowsNonNegative(tail) && w.total == TotalOf(tail)
    requires HoldsShares(t, tail, address, w.start, w.end + 1)
    ensures WorkIsShares(t, w, work, address)
  {
    WorkOfBatches(tail, address);
  }

  lemma TailRows(batches: seq<Batch>, m: nat)
    requires RowsNonNegative(batches) && m <= |batches|
    ensures RowsNonNegative(batches[m..])
  {
  }

  /** What a window needs to know of the batches and their table. */
  ghost predicate Backed(t: Table, batches: seq<Batch>, address: string)
  {
    && Ordered(batches) && Weighty(batches) && RowsNonNegative(batches)
    && forall m :: 0 <= m < |batches| ==> Tail(t, batches, m, address)
  }

  ghost predicate Tail(t: Table, batches: seq<Batch>, m: nat, address: string)
    requires m < |batches|
  {
    HoldsShares(t, batches[m..], address, batches[m].start, batches[|batches| - 1].end + 1)
  }

  lemma BatchesAreBacked(cfg: Config, s: State, address: string)
    requires Inv(cfg, s) && SharesWeighty(s.table)
    ensures Backed(s.table, s.batches, address)
  {
    BatchesAreWeighty(cfg, s);
    forall m | 0 <= m < |s.batches| ensures Tail(s.table, s.batches, m, address) {
      TailIsShares(cfg, s, m, address);
    }
  }

  lemma BackedTail(t: Table, batches: seq<Batch>, m: nat, tail: seq<Batch>, w: Window, address: string)
    requires Backed(t, batches, address) && m < |batches| && tail == batches[m..]
    requires w.start == batches[m].start && w.end == batches[|batches| - 1].end
    ensures RowsNonNegative(tail) && HoldsShares(t, tail, address, w.start, w.end + 1)
  {
    assert Tail(t, batches, m, address);
    TailRows(batches, m);
  }

  lemma WindowOfBacked(
      t: Table, batches: seq<Batch>, target: real, w: Window, work: seq<Tally<string>>, address: string)
    requires Backed(t, batches, address)
    requires GetPplnsWindow(batches, target) == Some(w) && GetAddressWork(batches, w) == work
    ensures WorkIsShares(t, w, work, address)
  {
    var m, tail := FilterSelectsWindow(batches, target, w);
    BackedTail(t, batches, m, tail, w, address);
    WorkFromBatches(t, w, tail, work, address);
  }

  /** The window and the address work of every state a punctual run can reach: the window's
      total is the credited difficulty of all visible shares between its bounds; every
      address appears once, with exactly the difficulty of its own shares there; and the
      work of all addresses adds up to the window's total. */
  lemma WindowIsShares(cfg: Config, s: State, target: real, w: Window, work: seq<Tally<string>>, address: string)
    requires Inv(cfg, s) && SharesWeighty(s.table)
    requires GetPplnsWindow(s.batches, target) == Some(w) && GetAddressWork(s.batches, w) == work
    ensures WorkIsShares(s.table, w, work, address)
  {
    BatchesAreBacked(cfg, s, address);
    WindowOfBacked(s.table, s.batches, target, w, work, address);
  }

  lemma WorkOfBatches(tail: seq<Batch>, address: string)
    requires RowsNonNegative(tail)
    ensures
      var work := Positive(Grouped([], tail));
      Total(work) == RowsTotal(tail) && Of(work, address) == RowsFor(tail, address) && DistinctKeys(work)
  {
    GroupedSums([], tail, address);
    PositiveKeepsSums(Grouped([], tail), address);
    PositiveDistinct(Grouped([], tail));
  }
}
