/**
 The queue of accepted shares and its flushes as steps of an event loop
 (src/ORM/share-accounting/share-accounting.service.ts). A flush waits for the database
 insert; its promises settle, and only then does its own completion callback run, so new
 shares can arrive at any of these points.
 */
module ShareQueue {
  /** One call of the batch insert: waiting for the database, or done with its promises. */
  datatype Flush = Flush(batch: seq<nat>, done: bool)

  datatype Settlement = Settlement(share: nat, stored: bool)

  /** Shares are numbered in the order they are accepted. */
  datatype State = State(
    accepted: nat, pending: seq<nat>, flushTimer: bool, activeFlush: bool,
    running: seq<Flush>, settled: seq<Settlement>)

  datatype Config = Config(batchSize: nat, maxQueueSize: nat)
  {
    predicate Valid() { batchSize >= 1 }
  }

  datatype Event =
    | Record
    | TimerFires
    | InsertEnds(flush: nat, stored: bool)
    | Finally(flush: nat)
    | FlushNow

  const START := State(0, [], false, false, [], [])

  // ---- steps ----

  function StartFlush(cfg: Config, s: State): State
  {
    if s.activeFlush then s
    else
      var n := if |s.pending| < cfg.batchSize then |s.pending| else cfg.batchSize;
      if n == 0 then s.(flushTimer := false)
      else
        s.(flushTimer := false, pending := s.pending[n..], activeFlush := true,
           running := s.running + [Flush(s.pending[..n], false)])
  }

  function ScheduleFlush(s: State): State
  {
    if s.flushTimer || s.activeFlush then s else s.(flushTimer := true)
  }

  function Settlements(batch: seq<nat>, stored: bool): (r: seq<Settlement>)
    ensures |r| == |batch|
    ensures forall i :: 0 <= i < |batch| ==> r[i] == Settlement(batch[i], stored)
  {
    seq(|batch|, i requires 0 <= i < |batch| => Settlement(batch[i], stored))
  }

  /** A share offered when the queue is full is refused and takes no number. */
  function Offer(cfg: Config, s: State): State
  {
    if |s.pending| >= cfg.maxQueueSize then s
    else
      var s' := s.(accepted := s.accepted + 1, pending := s.pending + [s.accepted]);
      if |s'.pending| >= cfg.batchSize then StartFlush(cfg, s') else ScheduleFlush(s')
  }

  function EndInsert(s: State, k: nat, stored: bool): State
  {
    if k >= |s.running| || s.running[k].done then s
    else
      s.(running := s.running[k := s.running[k].(done := true)],
         settled := s.settled + Settlements(s.running[k].batch, stored))
  }

  function Complete(cfg: Config, s: State, k: nat): State
  {
    if k >= |s.running| || !s.running[k].done then s
    else
      var s' := s.(running := s.running[..k] + s.running[k + 1..], activeFlush := false);
      if |s'.pending| >= cfg.batchSize then StartFlush(cfg, s')
      else if |s'.pending| > 0 then ScheduleFlush(s')
      else s'
  }

  function Step(cfg: Config, s: State, e: Event): State
  {
    match e
    case Record => Offer(cfg, s)
    case TimerFires => if s.flushTimer then StartFlush(cfg, s.(flushTimer := false)) else s
    case InsertEnds(k, stored) => EndInsert(s, k, stored)
    case Finally(k) => Complete(cfg, s, k)
    case FlushNow => StartFlush(cfg, s)
  }

  function Run(cfg: Config, s: State, events: seq<Event>): State
    decreases |events|
  {
    if events == [] then s else Run(cfg, Step(cfg, s, events[0]), events[1..])
  }

  // ---- what a step does ----

  /** A flush takes the oldest pending shares, as many as a batch may hold or all there are. */
  lemma FlushTakes(cfg: Config, s: State)
    requires cfg.Valid() && !s.activeFlush && s.pending != []
    ensures var s', n := StartFlush(cfg, s), if |s.pending| <= cfg.batchSize then |s.pending| else cfg.batchSize;
      && s'.running == s.running + [Flush(s.pending[..n], false)] && s'.pending == s.pending[n..]
      && s'.activeFlush && !s'.flushTimer && s'.accepted == s.accepted && s'.settled == s.settled
  {
  }

  /** An offered share is refused exactly when the queue is full; an accepted one is queued last,
      and starts a flush at once exactly when it fills a batch and no flush is under way. */
  lemma OfferMeans(cfg: Config, s: State)
    requires cfg.Valid()
    ensures var s' := Offer(cfg, s);
      && (|s.pending| >= cfg.maxQueueSize ==> s' == s)
      && (|s.pending| < cfg.maxQueueSize ==>
            && s'.accepted == s.accepted + 1
            && (|s'.running| > |s.running| <==> !s.activeFlush && |s.pending| + 1 >= cfg.batchSize)
            && (s'.running == s.running ==> s'.pending == s.pending + [s.accepted])
            && (s'.running != s.running ==>
                  && |s'.running| == |s.running| + 1
                  && s'.running[|s.running|].batch + s'.pending == s.pending + [s.accepted])
            && (!s.activeFlush && |s.pending| + 1 < cfg.batchSize ==> s'.flushTimer))
  {
    if |s.pending| < cfg.maxQueueSize {
      var all := s.pending + [s.accepted];
      var n := if |all| < cfg.batchSize then |all| else cfg.batchSize;
      assert all[..n] + all[n..] == all;
    }
  }

  /** When an insert ends, every share of its batch is settled with that outcome, in order. */
  lemma InsertSettles(s: State, k: nat, stored: bool)
    requires k < |s.running| && !s.running[k].done
    ensures var s', batch := EndInsert(s, k, stored), s.running[k].batch;
      && |s'.settled| == |s.settled| + |batch| && s'.settled[..|s.settled|] == s.settled
      && (forall i :: 0 <= i < |batch| ==> s'.settled[|s.settled| + i] == Settlement(batch[i], stored))
      && s'.pending == s.pending && s'.activeFlush == s.activeFlush
  {
  }

  /** When a flush is over, what waits is flushed at once if it fills a batch, and otherwise on
      the timer; with nothing waiting nothing starts. The timer flushes what waits. */
  lemma AfterFlush(cfg: Config, s: State)
    requires cfg.Valid() && Inv(cfg, s)
    ensures |s.running| == 1 && s.running[0].done ==>
      var s', n := Step(cfg, s, Finally(0)), |s.pending|;
      && s'.settled == s.settled && s'.accepted == s.accepted
      && (n >= cfg.batchSize ==>
            s'.running == [Flush(s.pending[..cfg.batchSize], false)] && s'.pending == s.pending[cfg.batchSize..])
      && (n < cfg.batchSize ==> s'.running == [] && s'.pending == s.pending && (s'.flushTimer <==> n > 0))
    ensures s.flushTimer && s.pending != [] ==>
      Step(cfg, s, TimerFires).running == [Flush(s.pending, false)] && Step(cfg, s, TimerFires).pending == []
  {
    if |s.running| == 1 && s.running[0].done { assert s.running[..0] + s.running[1..] == []; }
    if s.flushTimer { assert s.running == [] && s.pending[..|s.pending|] == s.pending; }
  }

  // ---- what every interleaving keeps ----

  function Numbers(from: nat, to: nat): (r: seq<nat>)
    requires from <= to
    ensures |r| == to - from && forall i :: 0 <= i < |r| ==> r[i] == from + i
  {
    seq(to - from, i => from + i)
  }

  function SettledShares(settled: seq<Settlement>): (r: seq<nat>)
    ensures |r| == |settled| && forall i :: 0 <= i < |r| ==> r[i] == settled[i].share
  {
    seq(|settled|, i requires 0 <= i < |settled| => settled[i].share)
  }

  function InFlight(running: seq<Flush>): seq<nat>
  {
    if running == [] then []
    else (if running[0].done then [] else running[0].batch) + InFlight(running[1..])
  }

  ghost predicate Inv(cfg: Config, s: State)
  {
    // accepted, in order, is settled, then in flight, then pending
    && SettledShares(s.settled) + InFlight(s.running) + s.pending == Numbers(0, s.accepted)
    // one flush at a time, and the flag says so
    && |s.running| <= 1 && (s.activeFlush <==> |s.running| == 1)
    && (|s.running| == 1 ==> 1 <= |s.running[0].batch| <= cfg.batchSize)
    // the timer never runs beside a flush, and nothing waits without one or the other
    && !(s.flushTimer && s.activeFlush)
    && (s.pending != [] ==> s.flushTimer || s.activeFlush)
    && (!s.activeFlush ==> |s.pending| < cfg.batchSize)
  }

  lemma JoinSplit(a: seq<nat>, p: seq<nat>, n: nat)
    requires n <= |p|
    ensures a + p[..n] + p[n..] == a + p
  {
    assert p[..n] + p[n..] == p;
  }

  lemma NumbersGrow(n: nat)
    ensures Numbers(0, n + 1) == Numbers(0, n) + [n]
  {
  }

  /** Starting a flush moves the oldest pending shares into it, in order. */
  lemma StartKeepsOrder(cfg: Config, s: State)
    requires cfg.Valid() && |s.running| == 0 && !s.activeFlush
    ensures
      var s' := StartFlush(cfg, s);
      && SettledShares(s'.settled) + InFlight(s'.running) + s'.pending
         == SettledShares(s.settled) + InFlight(s.running) + s.pending
      && |s'.running| <= 1 && (s'.pending != [] ==> |s'.running| == 1)
  {
    var n := if |s.pending| < cfg.batchSize then |s.pending| else cfg.batchSize;
    JoinSplit(SettledShares(s.settled), s.pending, n);
    var batch := s.pending[..n];
    assert InFlight([Flush(batch, false)]) == batch + InFlight([]);
    assert batch + [] == batch;
    assert [] + [Flush(batch, false)] == [Flush(batch, false)];
    assert SettledShares(s.settled) + [] == SettledShares(s.settled);
  }

  lemma OfferKeeps(cfg: Config, s: State)
    requires cfg.Valid() && Inv(cfg, s)
    ensures Inv(cfg, Offer(cfg, s))
  {
    if |s.pending| < cfg.maxQueueSize {
      var s' := s.(accepted := s.accepted + 1, pending := s.pending + [s.accepted]);
      var front := SettledShares(s.settled) + InFlight(s.running);
      NumbersGrow(s.accepted);
      assert front + (s.pending + [s.accepted]) == front + s.pending + [s.accepted];
      if !s.activeFlush && |s'.pending| >= cfg.batchSize {
        StartKeepsOrder(cfg, s');
      }
    }
  }

  lemma FlushKeeps(cfg: Config, s: State)
    requires cfg.Valid() && Inv(cfg, s)
    ensures Inv(cfg, StartFlush(cfg, s))
    ensures s.flushTimer ==> Inv(cfg, StartFlush(cfg, s.(flushTimer := false)))
  {
    if !s.activeFlush {
      StartKeepsOrder(cfg, s);
      StartKeepsOrder(cfg, s.(flushTimer := false));
    }
  }

  lemma EndInsertKeeps(cfg: Config, s: State, k: nat, stored: bool)
    requires cfg.Valid() && Inv(cfg, s)
    ensures Inv(cfg, EndInsert(s, k, stored))
  {
    if k < |s.running| && !s.running[k].done {
      var batch, s' := s.running[0].batch, EndInsert(s, k, stored);
      assert InFlight(s.running) == batch by { assert batch + InFlight([]) == batch; }
      assert InFlight(s'.running) == [] by { assert s'.running[1..] == []; }
      assert SettledShares(s'.settled) == SettledShares(s.settled) + batch;
      assert SettledShares(s'.settled) + [] + s.pending == SettledShares(s.settled) + batch + s.pending;
    }
  }

  lemma CompleteKeeps(cfg: Config, s: State, k: nat)
    requires cfg.Valid() && Inv(cfg, s)
    ensures Inv(cfg, Complete(cfg, s, k))
  {
    if k < |s.running| && s.running[k].done {
      var s' := s.(running := s.running[..k] + s.running[k + 1..], activeFlush := false);
      assert s'.running == [];
      assert InFlight(s.running) == [] by { assert s.running[1..] == []; }
      StartKeepsOrder(cfg, s');
    }
  }

  lemma StepKeeps(cfg: Config, s: State, e: Event)
    requires cfg.Valid() && Inv(cfg, s)
    ensures Inv(cfg, Step(cfg, s, e))
  {
    match e
    case Record => OfferKeeps(cfg, s);
    case TimerFires => FlushKeeps(cfg, s);
    case InsertEnds(k, stored) => EndInsertKeeps(cfg, s, k, stored);
    case Finally(k) => CompleteKeeps(cfg, s, k);
    case FlushNow => FlushKeeps(cfg, s);
  }

  lemma {:induction false} RunKeeps(cfg: Config, s: State, events: seq<Event>)
    requires cfg.Valid() && Inv(cfg, s)
    ensures Inv(cfg, Run(cfg, s, events))
    decreases |events|
  {
    if events != [] {
      StepKeeps(cfg, s, events[0]);
      RunKeeps(cfg, Step(cfg, s, events[0]), events[1..]);
    }
  }

  lemma FreshRunKeeps(cfg: Config, events: seq<Event>)
    requires cfg.Valid()
    ensures Inv(cfg, Run(cfg, START, events))
  {
    RunKeeps(cfg, START, events);
  }

  /** In particular every promise settles at most once, in the order of acceptance. */
  lemma SettledInOrder(cfg: Config, s: State)
    requires Inv(cfg, s)
    ensures |s.settled| <= s.accepted
    ensures forall i :: 0 <= i < |s.settled| ==> s.settled[i].share == i
  {
    var all := Numbers(0, s.accepted);
    assert |all| == |s.settled| + |InFlight(s.running)| + |s.pending|;
    forall i | 0 <= i < |s.settled| ensures s.settled[i].share == i {
      assert (SettledShares(s.settled) + InFlight(s.running) + s.pending)[i] == all[i];
    }
  }

  // ---- nothing waits for ever ----

  function Burden(s: State): nat
  {
    4 * |s.pending| + (if s.flushTimer then 1 else 0)
    + (if s.running == [] then 0 else if s.running[0].done then 2 else 3)
  }

  /** The next thing the event loop owes: the insert in flight, its callback, or the timer. */
  function Owed(s: State, stored: bool): Event
  {
    if s.running == [] then TimerFires else if s.running[0].done then Finally(0) else InsertEnds(0, stored)
  }

  predicate Quiet(s: State) { s.running == [] && !s.flushTimer }

  lemma OwedLightens(cfg: Config, s: State, stored: bool)
    requires cfg.Valid() && Inv(cfg, s) && !Quiet(s)
    ensures Burden(Step(cfg, s, Owed(s, stored))) < Burden(s)
  {
  }

  /** With no further shares offered, the loop comes to rest after finitely many owed
      steps, and then every accepted share has been settled. */
  lemma {:induction false} EverythingSettles(cfg: Config, s: State, stored: bool) returns (events: seq<Event>)
    requires cfg.Valid() && Inv(cfg, s)
    ensures |events| <= Burden(s)
    ensures var end := Run(cfg, s, events);
      Quiet(end) && end.pending == [] && end.accepted == s.accepted == |end.settled|
    decreases Burden(s)
  {
    if Quiet(s) {
      events := [];
      assert |SettledShares(s.settled) + InFlight(s.running) + s.pending| == s.accepted;
    } else {
      var e := Owed(s, stored);
      StepKeeps(cfg, s, e);
      OwedLightens(cfg, s, stored);
      var rest := EverythingSettles(cfg, Step(cfg, s, e), stored);
      events := [e] + rest;
      assert events[1..] == rest;
    }
  }

  // ---- the object ----

  datatype Recorded = Accepted(share: nat) | QueueFull(size: nat)

  class ShareAccounting {
    const batchSize: nat
    const maxQueueSize: nat
    var acceptedCount: nat
    var pendingShares: seq<nat>
    var flushTimer: bool
    var activeFlush: bool
    var running: seq<Flush>
    var settled: seq<Settlement>

    ghost function Now(): State
      reads this
    {
      State(acceptedCount, pendingShares, flushTimer, activeFlush, running, settled)
    }

    ghost function Settings(): Config { Config(batchSize, maxQueueSize) }

    constructor (size: nat, queue: nat)
      ensures Now() == START && Settings() == Config(size, queue)
    {
      batchSize, maxQueueSize := size, queue;
      acceptedCount, pendingShares, flushTimer, activeFlush, running, settled := 0, [], false, false, [], [];
    }

    method BeginFlush()
      modifies this
      ensures Now() == StartFlush(Settings(), old(Now()))
    {
      if activeFlush {
        return;
      }
      if flushTimer {
        flushTimer := false;
      }
      var n := if |pendingShares| < batchSize then |pendingShares| else batchSize;
      var batch := pendingShares[..n];
      pendingShares := pendingShares[n..];
      if |batch| == 0 {
        assert old(pendingShares)[0..] == old(pendingShares);
        return;
      }
      running := running + [Flush(batch, false)];
      activeFlush := true;
    }

    method ArmTimer()
      modifies this
      ensures Now() == ScheduleFlush(old(Now()))
    {
      if flushTimer || activeFlush {
        return;
      }
      flushTimer := true;
    }

    method RecordAcceptedShare() returns (r: Recorded)
      modifies this
      ensures Now() == Offer(Settings(), old(Now()))
      ensures r ==
          if |old(pendingShares)| >= maxQueueSize then QueueFull(maxQueueSize) else Accepted(old(acceptedCount))
    {
      if |pendingShares| >= maxQueueSize {
        return QueueFull(maxQueueSize);
      }
      var share := acceptedCount;
      acceptedCount := acceptedCount + 1;
      pendingShares := pendingShares + [share];
      if |pendingShares| >= batchSize {
        BeginFlush();
      } else {
        ArmTimer();
      }
      r := Accepted(share);
    }

    method FireTimer()
      modifies this
      ensures Now() == Step(Settings(), old(Now()), TimerFires)
    {
      if flushTimer {
        flushTimer := false;
        BeginFlush();
      }
    }

    /** The insert of a batch ends; its promises settle one after the other. */
    method FinishInsert(k: nat, stored: bool)
      modifies this
      ensures Now() == EndInsert(old(Now()), k, stored)
    {
      if k >= |running| || running[k].done {
        return;
      }
      var batch := running[k].batch;
      for i := 0 to |batch|
        invariant settled == old(settled) + Settlements(batch, stored)[..i]
        invariant acceptedCount == old(acceptedCount) && pendingShares == old(pendingShares) && running == old(running)
        invariant flushTimer == old(flushTimer) && activeFlush == old(activeFlush)
      {
        settled := settled + [Settlement(batch[i], stored)];
      }
      running := running[k := running[k].(done := true)];
    }

    method RunFinally(k: nat)
      modifies this
      ensures Now() == Complete(Settings(), old(Now()), k)
    {
      if k >= |running| || !running[k].done {
        return;
      }
      running := running[..k] + running[k + 1..];
      activeFlush := false;
      if |pendingShares| >= batchSize {
        BeginFlush();
        return;
      }
      if |pendingShares| > 0 {
        ArmTimer();
      }
    }
  }
}
