/**
 Rolling accepted shares up into batches (src/ORM/share-accounting/share-accounting.service.ts).
 The queries of one rollup see the table one after the other, so a rollup is three steps:
 choosing the range, inserting the batch with its totals, inserting the summary rows. An
 advisory lock keeps rollups apart; shares may appear between any two steps.
 Difficulties are exact reals.
 */
module ShareRollup {
  import opened Bytes
  import opened Tallies

  datatype GroupKey = GroupKey(address: string, client: string, protocol: string, blockHeight: nat)

  datatype Share = Share(key: GroupKey, difficulty: real, acceptedAt: int, pplns: bool)

  /** The accepted shares under their index; None where none is visible. */
  type Table = seq<Option<Share>>

  function At(t: Table, i: nat): Option<Share>
  {
    if i < |t| then t[i] else None
  }

  function Blanks(n: nat): (t: Table)
    ensures |t| == n && forall i :: 0 <= i < n ==> t[i] == None
  {
    seq(n, _ => None)
  }

  function Put(t: Table, i: nat, s: Share): (r: Table)
    ensures forall j: nat :: At(r, j) == if j == i then Some(s) else At(t, j)
  {
    if i < |t| then t[i := Some(s)] else t + Blanks(i - |t|) + [Some(s)]
  }

  /** A visible share of the pay-per-last-N-shares mode. */
  predicate Counts(t: Table, i: nat)
  {
    At(t, i).Some? && At(t, i).value.pplns
  }

  // ---- sums over a range of indices, the upper bound excluded ----

  function Difficulty(t: Table, lo: nat, hi: nat): real
  {
    if hi <= lo then 0.0
    else Difficulty(t, lo, hi - 1) + (if Counts(t, hi - 1) then At(t, hi - 1).value.difficulty else 0.0)
  }

  function Number(t: Table, lo: nat, hi: nat): nat
  {
    if hi <= lo then 0 else Number(t, lo, hi - 1) + (if Counts(t, hi - 1) then 1 else 0)
  }

  function DifficultyOf(t: Table, address: string, lo: nat, hi: nat): real
  {
    if hi <= lo then 0.0
    else
      DifficultyOf(t, address, lo, hi - 1)
      + (if Counts(t, hi - 1) && At(t, hi - 1).value.key.address == address
         then At(t, hi - 1).value.difficulty else 0.0)
  }

  /** The grouped rows of a range. */
  function Rows(t: Table, lo: nat, hi: nat): seq<Tally<GroupKey>>
  {
    if hi <= lo then []
    else if Counts(t, hi - 1) then
      Add(Rows(t, lo, hi - 1), At(t, hi - 1).value.key, At(t, hi - 1).value.difficulty, 1)
    else Rows(t, lo, hi - 1)
  }

  ghost predicate SameOn(t: Table, u: Table, lo: nat, hi: nat)
  {
    forall i :: lo <= i < hi ==> At(t, i) == At(u, i)
  }

  lemma {:induction false} SumsDependOnRange(t: Table, u: Table, address: string, lo: nat, hi: nat)
    requires SameOn(t, u, lo, hi)
    ensures Difficulty(t, lo, hi) == Difficulty(u, lo, hi) && Number(t, lo, hi) == Number(u, lo, hi)
    ensures DifficultyOf(t, address, lo, hi) == DifficultyOf(u, address, lo, hi)
    ensures Rows(t, lo, hi) == Rows(u, lo, hi)
    decreases hi
  {
    if hi > lo { SumsDependOnRange(t, u, address, lo, hi - 1); }
  }

  lemma {:induction false} SumsSplit(t: Table, address: string, lo: nat, mid: nat, hi: nat)
    requires lo <= mid <= hi
    ensures Difficulty(t, lo, hi) == Difficulty(t, lo, mid) + Difficulty(t, mid, hi)
    ensures Number(t, lo, hi) == Number(t, lo, mid) + Number(t, mid, hi)
    ensures DifficultyOf(t, address, lo, hi) == DifficultyOf(t, address, lo, mid) + DifficultyOf(t, address, mid, hi)
    decreases hi
  {
    if hi > mid { SumsSplit(t, address, lo, mid, hi - 1); }
  }

  ghost predicate Empty(t: Table, lo: nat, hi: nat)
  {
    forall i :: lo <= i < hi ==> !Counts(t, i)
  }

  lemma {:induction false} EmptySums(t: Table, address: string, lo: nat, hi: nat)
    requires Empty(t, lo, hi)
    ensures Difficulty(t, lo, hi) == 0.0 && Number(t, lo, hi) == 0 && DifficultyOf(t, address, lo, hi) == 0.0
    decreases hi
  {
    if hi > lo { EmptySums(t, address, lo, hi - 1); }
  }

  /** One more visible share makes the count of its range larger. */
  lemma {:induction false} PutCounts(t: Table, i: nat, s: Share, lo: nat, hi: nat)
    requires At(t, i).None? && s.pplns && lo <= i < hi
    ensures Number(Put(t, i, s), lo, hi) == Number(t, lo, hi) + 1
    decreases hi
  {
    if hi - 1 > i {
      PutCounts(t, i, s, lo, hi - 1);
    } else {
      SumsDependOnRange(t, Put(t, i, s), "", lo, i);
    }
  }

  /** The summary rows of a range sum to its totals, address by address too, and every
      group has one row. */
  lemma {:induction false} RowsSumUp(t: Table, address: string, lo: nat, hi: nat)
    ensures Total(Rows(t, lo, hi)) == Difficulty(t, lo, hi)
    ensures Count(Rows(t, lo, hi)) == Number(t, lo, hi)
    ensures AddressTotal(Rows(t, lo, hi), address) == DifficultyOf(t, address, lo, hi)
    ensures DistinctKeys(Rows(t, lo, hi))
    decreases hi
  {
    if hi > lo {
      RowsSumUp(t, address, lo, hi - 1);
      if Counts(t, hi - 1) {
        var s := At(t, hi - 1).value;
        var before := Rows(t, lo, hi - 1);
        AddSums(before, s.key, s.difficulty, 1, s.key);
        AddDistinct(before, s.key, s.difficulty, 1);
        AddAddress(before, s.key, s.difficulty, address);
      }
    }
  }

  function AddressTotal(rows: seq<Tally<GroupKey>>, address: string): real
  {
    if rows == [] then 0.0
    else (if rows[0].key.address == address then rows[0].difficulty else 0.0) + AddressTotal(rows[1..], address)
  }

  lemma {:induction false} AddAddress(rows: seq<Tally<GroupKey>>, key: GroupKey, d: real, address: string)
    ensures AddressTotal(Add(rows, key, d, 1), address) ==
      AddressTotal(rows, address) + (if key.address == address then d else 0.0)
  {
    var r := Add(rows, key, d, 1);
    if rows == [] {
      assert r[1..] == [];
    } else if rows[0].key == key {
      assert r[1..] == rows[1..];
    } else {
      AddAddress(rows[1..], key, d, address);
      assert r[1..] == Add(rows[1..], key, d, 1);
    }
  }

  // ---- choosing a range ----

  datatype Config = Config(safetyLag: int, maxShares: nat)

  /** The indices after `last` that count, ascending. */
  function Waiting(t: Table, last: nat, top: nat): seq<nat>
  {
    if top <= last + 1 then []
    else Waiting(t, last, top - 1) + (if Counts(t, top - 1) then [top - 1] else [])
  }

  predicate Unstable(cfg: Config, t: Table, now: int, i: nat)
  {
    Counts(t, i) && At(t, i).value.acceptedAt > now - cfg.safetyLag
  }

  function FirstUnstable(cfg: Config, t: Table, now: int, waiting: seq<nat>): Option<nat>
  {
    if waiting == [] then None
    else if Unstable(cfg, t, now, waiting[0]) then Some(waiting[0])
    else FirstUnstable(cfg, t, now, waiting[1..])
  }

  /** What lies at or below the bound: everything before the first unstable share, or
      everything when there is none. */
  function UpTo(waiting: seq<nat>, firstUnstable: Option<nat>): seq<nat>
  {
    if waiting == [] then []
    else if firstUnstable.None? || waiting[0] <= firstUnstable.value - 1
      then [waiting[0]] + UpTo(waiting[1..], firstUnstable)
    else UpTo(waiting[1..], firstUnstable)
  }

  function Limit(indices: seq<nat>, n: nat): seq<nat>
  {
    if |indices| <= n then indices else indices[..n]
  }

  function Bounded(cfg: Config, t: Table, last: nat, now: int): seq<nat>
  {
    var waiting := Waiting(t, last, |t|);
    Limit(UpTo(waiting, FirstUnstable(cfg, t, now, waiting)), cfg.maxShares)
  }

  ghost predicate Ascending(s: seq<nat>)
  {
    forall i, j :: 0 <= i < j < |s| ==> s[i] < s[j]
  }

  lemma {:induction false} WaitingIs(t: Table, last: nat, top: nat)
    ensures Ascending(Waiting(t, last, top))
    ensures forall i :: i in Waiting(t, last, top) <==> last < i < top && Counts(t, i)
  {
    if top > last + 1 {
      WaitingIs(t, last, top - 1);
      var before, all := Waiting(t, last, top - 1), Waiting(t, last, top);
      assert forall i :: i in all <==> i in before || (i == top - 1 && Counts(t, top - 1));
      forall i, j | 0 <= i < j < |all| ensures all[i] < all[j] {
        assert all[i] == before[i] && before[i] in before;
      }
    }
  }

  lemma {:induction false} UpToIsPrefix(cfg: Config, t: Table, now: int, waiting: seq<nat>)
    requires Ascending(waiting)
    ensures UpTo(waiting, FirstUnstable(cfg, t, now, waiting)) <= waiting
    ensures forall i :: i in UpTo(waiting, FirstUnstable(cfg, t, now, waiting)) ==> !Unstable(cfg, t, now, i)
  {
    if waiting != [] {
      var first := FirstUnstable(cfg, t, now, waiting);
      if Unstable(cfg, t, now, waiting[0]) {
        NothingBelow(waiting, waiting[0]);
      } else {
        UpToIsPrefix(cfg, t, now, waiting[1..]);
        FirstUnstableIn(cfg, t, now, waiting[1..]);
        assert waiting == [waiting[0]] + waiting[1..];
        if first.Some? {
          var k :| 0 <= k < |waiting[1..]| && waiting[1..][k] == first.value;
          assert waiting[k + 1] == first.value;
        }
      }
    }
  }

  lemma {:induction false} FirstUnstableIn(cfg: Config, t: Table, now: int, waiting: seq<nat>)
    ensures var f := FirstUnstable(cfg, t, now, waiting); f.Some? ==> f.value in waiting
  {
    if waiting != [] { FirstUnstableIn(cfg, t, now, waiting[1..]); }
  }

  lemma {:induction false} NothingBelow(waiting: seq<nat>, bound: nat)
    requires forall i :: i in waiting ==> i >= bound
    ensures UpTo(waiting, Some(bound)) == []
  {
    if waiting != [] {
      assert waiting[0] in waiting;
      assert forall i :: i in waiting[1..] ==> i in waiting;
      NothingBelow(waiting[1..], bound);
    }
  }

  /** The chosen shares are the oldest waiting ones, without a gap, and all of them are
      old enough. */
  lemma BoundedIsStablePrefix(cfg: Config, t: Table, last: nat, now: int)
    ensures
      var b := Bounded(cfg, t, last, now);
      && b <= Waiting(t, last, |t|) && |b| <= cfg.maxShares
      && forall i :: i in b ==> last < i && Counts(t, i) && !Unstable(cfg, t, now, i)
  {
    var waiting := Waiting(t, last, |t|);
    WaitingIs(t, last, |t|);
    UpToIsPrefix(cfg, t, now, waiting);
  }

  /** So a range from the first to the last of them holds no waiting share but these, and
      none is left behind. */
  lemma ChosenRange(cfg: Config, t: Table, last: nat, now: int, i: nat)
    requires Bounded(cfg, t, last, now) != []
    requires Counts(t, i) && last < i
    ensures
      var b := Bounded(cfg, t, last, now);
      && last < b[0] <= b[|b| - 1] && Counts(t, b[0])
      && (i <= b[|b| - 1] ==> b[0] <= i && !Unstable(cfg, t, now, i))
  {
    var b, waiting := Bounded(cfg, t, last, now), Waiting(t, last, |t|);
    BoundedIsStablePrefix(cfg, t, last, now);
    WaitingIs(t, last, |t|);
    assert forall k :: 0 <= k < |b| ==> b[k] == waiting[k];
    assert b[0] in b && b[|b| - 1] in b;
    var k :| 0 <= k < |waiting| && waiting[k] == i;
    if i <= b[|b| - 1] {
      assert k < |b|;
      assert b[k] in b;
    }
  }

  lemma {:induction false} FirstUnstableIsFirst(cfg: Config, t: Table, now: int, waiting: seq<nat>, k: nat)
    requires Ascending(waiting) && k < |waiting|
    requires forall j :: 0 <= j <= k ==> !Unstable(cfg, t, now, waiting[j])
    ensures |UpTo(waiting, FirstUnstable(cfg, t, now, waiting))| > k
  {
    FirstUnstableIn(cfg, t, now, waiting[1..]);
    var first := FirstUnstable(cfg, t, now, waiting);
    if first.Some? {
      var m :| 0 <= m < |waiting[1..]| && waiting[1..][m] == first.value;
      assert waiting[m + 1] == first.value;
    }
    if k > 0 {
      assert forall j :: 0 <= j < k ==> waiting[1..][j] == waiting[j + 1];
      FirstUnstableIsFirst(cfg, t, now, waiting[1..], k - 1);
    }
  }

  /** No share is left out of them without a reason: either they are as many as a batch may hold,
      or the next one waiting is younger than the lag, or there is none. */
  lemma BoundedIsLongest(cfg: Config, t: Table, last: nat, now: int)
    ensures var b, waiting := Bounded(cfg, t, last, now), Waiting(t, last, |t|);
      || |b| == cfg.maxShares
      || |b| == |waiting|
      || (|b| < |waiting| && At(t, waiting[|b|]).Some?
          && At(t, waiting[|b|]).value.acceptedAt > now - cfg.safetyLag)
  {
    var b, waiting := Bounded(cfg, t, last, now), Waiting(t, last, |t|);
    WaitingIs(t, last, |t|);
    BoundedIsStablePrefix(cfg, t, last, now);
    if |b| < |waiting| && |b| < cfg.maxShares {
      assert waiting[|b|] in waiting;
      if !Unstable(cfg, t, now, waiting[|b|]) {
        forall j | 0 <= j <= |b| ensures !Unstable(cfg, t, now, waiting[j]) {
          if j < |b| { assert b[j] in b; }
        }
        FirstUnstableIsFirst(cfg, t, now, waiting, |b|);
        assert false;
      }
    }
  }

  lemma {:induction false} WaitingUpTo(t: Table, last: nat, mid: nat, top: nat)
    requires mid <= top
    ensures Waiting(t, last, mid) <= Waiting(t, last, top)
    ensures last < mid ==> |Waiting(t, last, mid)| == Number(t, last + 1, mid)
    decreases top
  {
    if mid < top {
      WaitingUpTo(t, last, mid, top - 1);
    } else if mid > last + 1 {
      WaitingUpTo(t, last, mid - 1, mid - 1);
    }
  }

  // ---- the rows, group by group ----

  /** The difficulty of the counting shares of one group. */
  function DifficultyOfGroup(t: Table, key: GroupKey, lo: nat, hi: nat): real
  {
    if hi <= lo then 0.0
    else
      DifficultyOfGroup(t, key, lo, hi - 1)
      + (if Counts(t, hi - 1) && At(t, hi - 1).value.key == key then At(t, hi - 1).value.difficulty else 0.0)
  }

  /** Each group's row holds the difficulty of its own shares: same address, client, protocol
      and block height. */
  lemma {:induction false} RowsByGroup(t: Table, key: GroupKey, lo: nat, hi: nat)
    ensures Of(Rows(t, lo, hi), key) == DifficultyOfGroup(t, key, lo, hi)
    decreases hi
  {
    if hi > lo {
      RowsByGroup(t, key, lo, hi - 1);
      if Counts(t, hi - 1) {
        var s := At(t, hi - 1).value;
        AddSums(Rows(t, lo, hi - 1), s.key, s.difficulty, 1, key);
      }
    }
  }
}
