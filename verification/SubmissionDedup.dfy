/**
 Duplicate detection on a Stratum V1 connection (src/models/StratumV1Client.ts) across the
 job resets of the pool-wide jobs service (src/services/stratum-v1-jobs.service.ts). A
 submission's key is text: the job id and the other fields joined by colons.
 */
module SubmissionDedup {
  import opened Bytes
  import opened Sequences

  // ---- ids and keys ----

  const DIGITS := "0123456789abcdef"

  /** A counter in base sixteen, as job and template ids are written. */
  function IdText(n: nat): (s: string)
    ensures |s| > 0
    ensures |s| == 1 <==> n < 16
    ensures ':' !in s
  {
    if n < 16 then [DIGITS[n]] else IdText(n / 16) + [DIGITS[n % 16]]
  }

  lemma DigitsDiffer(i: nat, j: nat)
    requires i < 16 && j < 16 && DIGITS[i] == DIGITS[j]
    ensures i == j
  {
  }

  lemma {:induction false} IdTextBinds(m: nat, n: nat)
    requires IdText(m) == IdText(n)
    ensures m == n
  {
    var a, b := IdText(m), IdText(n);
    assert a[|a| - 1] == DIGITS[m % 16] && b[|b| - 1] == DIGITS[n % 16];
    DigitsDiffer(m % 16, n % 16);
    if m >= 16 && n >= 16 {
      assert a[..|a| - 1] == IdText(m / 16) && b[..|b| - 1] == IdText(n / 16);
      IdTextBinds(m / 16, n / 16);
    }
  }

  datatype Submission = Submission(
      jobId: string, extraNonce2: string, ntime: string, nonce: string, versionMask: string)

  function Rest(s: Submission): string
  {
    s.extraNonce2 + ":" + s.ntime + ":" + s.nonce + ":" + s.versionMask
  }

  function Key(s: Submission): string
  {
    s.jobId + ":" + Rest(s)
  }

  /** The text before the first colon. */
  function JobOf(key: string): string
  {
    if key == "" || key[0] == ':' then "" else [key[0]] + JobOf(key[1..])
  }

  lemma {:induction false} JobOfKey(jobId: string, rest: string)
    requires ':' !in jobId
    ensures JobOf(jobId + ":" + rest) == jobId
  {
    if jobId == "" {
      assert ("" + ":" + rest)[0] == ':';
    } else {
      var key := jobId + ":" + rest;
      assert key[0] == jobId[0];
      assert key[1..] == jobId[1..] + ":" + rest;
      JobOfKey(jobId[1..], rest);
    }
  }

  // ---- the jobs service ----

  datatype Job = Job(templateId: string, creation: int)

  datatype Template = Template(id: string, creation: int, clearJobs: bool)

  const RETENTION_MS := 300000

  datatype Service = Service(
    latestJobId: nat, latestTemplateId: nat, jobs: map<string, Job>,
    blocks: map<string, Template>, cached: Option<Template>)

  function RecentBlocks(m: map<string, Template>, now: int): map<string, Template>
  {
    map k | k in m && now - m[k].creation <= RETENTION_MS :: m[k]
  }

  function RecentJobs(m: map<string, Job>, now: int): map<string, Job>
  {
    map k | k in m && now - m[k].creation <= RETENTION_MS :: m[k]
  }

  /** A template: a new block empties both tables, any other drops what is five minutes old. */
  function Publish(v: Service, clearJobs: bool, now: int): Service
  {
    var t := Template(IdText(v.latestTemplateId), now, clearJobs);
    var blocks := if clearJobs then map[] else RecentBlocks(v.blocks, now);
    var jobs := if clearJobs then map[] else RecentJobs(v.jobs, now);
    Service(v.latestJobId, v.latestTemplateId + 1, jobs, blocks[t.id := t], Some(t))
  }

  function AddJob(v: Service, job: Job): Service
  {
    v.(jobs := v.jobs[IdText(v.latestJobId) := job], latestJobId := v.latestJobId + 1)
  }

  // ---- one connection ----

  /** `credited` lists the keys of accepted shares, in order. */
  datatype State = State(
      service: Service, initialized: bool, subscribed: bool, hashes: set<string>, credited: seq<string>)

  /** New jobs come from any connection, for a template, a payout switch or a difficulty
      change, possibly long after the template was current. */
  datatype Event =
    | NewTemplate(clearJobs: bool, now: int)
    | NewJob(job: Job)
    | Initialize
    | Subscribe
    | Submit(submission: Submission, meetsTarget: bool)

  datatype Answer = NotInitialized | JobNotFound | TemplateNotFound | Duplicate | LowDifficulty | Accepted

  function Judge(s: State, sub: Submission, meetsTarget: bool): Answer
  {
    if !s.initialized then NotInitialized
    else if sub.jobId !in s.service.jobs then JobNotFound
    else if s.service.jobs[sub.jobId].templateId !in s.service.blocks then TemplateNotFound
    else if Key(sub) in s.hashes then Duplicate
    else if meetsTarget then Accepted else LowDifficulty
  }

  function Receive(s: State, sub: Submission, meetsTarget: bool): State
  {
    var answer := Judge(s, sub, meetsTarget);
    var hashes := if answer.Accepted? || answer.LowDifficulty? then s.hashes + {Key(sub)} else s.hashes;
    s.(hashes := hashes, credited := if answer.Accepted? then s.credited + [Key(sub)] else s.credited)
  }

  /** Subscribing replays the last template at once. It happens once a connection, some time
      after it is initialised. */
  predicate ReplayClears(v: Service)
  {
    v.cached.Some? && v.cached.value.clearJobs
  }

  function Step(s: State, e: Event): State
  {
    match e
    case NewTemplate(clearJobs, now) =>
      s.(service := Publish(s.service, clearJobs, now), hashes := if s.subscribed && clearJobs then {} else s.hashes)
    case NewJob(job) => s.(service := AddJob(s.service, job))
    case Initialize => s.(initialized := true)
    case Subscribe =>
      if !s.initialized || s.subscribed then s
      else s.(subscribed := true, hashes := if ReplayClears(s.service) then {} else s.hashes)
    case Submit(sub, meetsTarget) => Receive(s, sub, meetsTarget)
  }

  function Run(s: State, events: seq<Event>): State
    decreases |events|
  {
    if events == [] then s else Run(Step(s, events[0]), events[1..])
  }

  function Connect(v: Service): State { State(v, false, false, {}, []) }

  // ---- what keeps a key from being credited again ----

  ghost predicate Issued(v: Service, id: string)
  {
    exists n: nat :: n < v.latestJobId && IdText(n) == id
  }

  ghost predicate ServiceOk(v: Service)
  {
    forall id :: id in v.jobs ==> Issued(v, id)
  }

  ghost predicate SomeKey(key: string)
  {
    exists sub :: Key(sub) == key && ':' !in sub.jobId
  }

  /** A credited key whose job is still there is remembered; its job id is never used again. */
  ghost predicate Inv(s: State)
  {
    && Distinct(s.credited)
    && (forall k :: k in s.credited && JobOf(k) in s.service.jobs ==> k in s.hashes)
    && Reached(s)
  }

  /** What holds whatever was forgotten. Until a template follows that does not clear, the
      job of a credited key keeps its template. */
  ghost predicate Reached(s: State)
  {
    && ServiceOk(s.service)
    && (forall k :: k in s.credited ==> SomeKey(k) && Issued(s.service, JobOf(k)))
    && (s.credited != [] ==> s.initialized)
    && (ReplayClears(s.service) ==> forall k :: k in s.credited && JobOf(k) in s.service.jobs ==>
          s.service.jobs[JobOf(k)].templateId in s.service.blocks)
  }

  lemma IssuedHasNoColon(v: Service, id: string)
    requires Issued(v, id)
    ensures ':' !in id
  {
  }

  lemma NextIdIsNew(v: Service)
    ensures !Issued(v, IdText(v.latestJobId))
  {
    forall n: nat | n < v.latestJobId ensures IdText(n) != IdText(v.latestJobId) {
      if IdText(n) == IdText(v.latestJobId) { IdTextBinds(n, v.latestJobId); }
    }
  }

  lemma KeyFacts(v: Service, sub: Submission)
    requires Issued(v, sub.jobId)
    ensures JobOf(Key(sub)) == sub.jobId && SomeKey(Key(sub))
  {
    IssuedHasNoColon(v, sub.jobId);
    JobOfKey(sub.jobId, Rest(sub));
  }

  lemma JobKeeps(s: State, job: Job)
    requires Inv(s)
    ensures Inv(Step(s, NewJob(job)))
  {
    NextIdIsNew(s.service);
    var v := AddJob(s.service, job);
    forall id | Issued(s.service, id) ensures Issued(v, id) {
      var n: nat :| n < s.service.latestJobId && IdText(n) == id;
      assert n < v.latestJobId;
    }
    assert IdText(s.service.latestJobId) in v.jobs;
    assert Issued(v, IdText(s.service.latestJobId));
  }

  lemma TemplateKeeps(s: State, clearJobs: bool, now: int)
    requires Inv(s)
    ensures Inv(Step(s, NewTemplate(clearJobs, now)))
  {
    var v := Publish(s.service, clearJobs, now);
    assert forall id :: Issued(v, id) <==> Issued(s.service, id);
  }

  lemma SubmitKeeps(s: State, sub: Submission, meetsTarget: bool)
    requires Inv(s)
    ensures Inv(Step(s, Submit(sub, meetsTarget)))
    ensures Judge(s, sub, meetsTarget).Accepted? ==> Key(sub) !in s.credited
  {
    if Judge(s, sub, meetsTarget).Accepted? {
      KeyFacts(s.service, sub);
    }
  }

  // ---- what the answers are ----

  predicate NoColon(s: string) { ':' !in s }

  ghost predicate Plain(sub: Submission)
  {
    && NoColon(sub.jobId) && NoColon(sub.extraNonce2) && NoColon(sub.ntime) && NoColon(sub.nonce)
    && NoColon(sub.versionMask)
  }

  lemma {:induction false} FirstField(a: string, b: string, rest: string, rest': string)
    requires NoColon(a) && NoColon(b) && a + ":" + rest == b + ":" + rest'
    ensures a == b && rest == rest'
  {
    JobOfKey(a, rest);
    JobOfKey(b, rest');
    assert (a + ":" + rest)[|a| + 1..] == rest && (b + ":" + rest')[|b| + 1..] == rest';
  }

  /** A key keeps every field: without colons in the texts, no two submissions share one. */
  lemma KeyBinds(a: Submission, b: Submission)
    requires Plain(a) && Plain(b) && Key(a) == Key(b)
    ensures a == b
  {
    FirstField(a.jobId, b.jobId, Rest(a), Rest(b));
    var a1, b1 := a.nonce + ":" + a.versionMask, b.nonce + ":" + b.versionMask;
    var a2, b2 := a.ntime + ":" + a1, b.ntime + ":" + b1;
    assert Rest(a) == a.extraNonce2 + ":" + a2 && Rest(b) == b.extraNonce2 + ":" + b2;
    FirstField(a.extraNonce2, b.extraNonce2, a2, b2);
    FirstField(a.ntime, b.ntime, a1, b1);
    FirstField(a.nonce, b.nonce, a.versionMask, b.versionMask);
  }

  /** The job is still there, and so is its template. */
  predicate Live(v: Service, jobId: string)
  {
    jobId in v.jobs && v.jobs[jobId].templateId in v.blocks
  }

  /** A submission to a live job, accepted or not, makes its repetition a duplicate, whatever
      the target is by then, and changes the answer to no other. */
  lemma SubmissionsStandAlone(s: State, a: Submission, b: Submission, m: bool, n: bool)
    requires s.initialized && Live(s.service, a.jobId) && Plain(a) && Plain(b)
    ensures var s' := Step(s, Submit(a, m));
      && Judge(s', a, n) == Duplicate
      && (a != b ==> Judge(s', b, n) == Judge(s, b, n))
      && (s'.credited != s.credited <==> Key(a) !in s.hashes && m)
  {
    if Key(a) == Key(b) { KeyBinds(a, b); }
  }

  /** A template that clears leaves no job; any other leaves those of the last five minutes. */
  lemma TemplateKeepsRecent(v: Service, clearJobs: bool, now: int, id: string)
    ensures var v' := Publish(v, clearJobs, now);
      && (id in v'.jobs <==> id in v.jobs && !clearJobs && now - v.jobs[id].creation <= 5 * 60 * 1000)
      && (id in v'.jobs ==> v'.jobs[id] == v.jobs[id])
      && (id in v'.blocks <==>
            || id == IdText(v.latestTemplateId)
            || (id in v.blocks && !clearJobs && now - v.blocks[id].creation <= 5 * 60 * 1000))
      && v'.cached == Some(Template(IdText(v.latestTemplateId), now, clearJobs))
      && v'.latestTemplateId == v.latestTemplateId + 1 && v'.latestJobId == v.latestJobId
  {
  }

  /** A remembered key is forgotten only when a clearing template reaches a subscribed client, or
      when a client subscribes behind one. */
  lemma ForgottenIff(s: State, e: Event, k: string)
    requires k in s.hashes
    ensures k !in Step(s, e).hashes <==>
      || (e.NewTemplate? && e.clearJobs && s.subscribed)
      || (e.Subscribe? && s.initialized && !s.subscribed
          && s.service.cached.Some? && s.service.cached.value.clearJobs)
  {
    assert e.Submit? ==> k in Receive(s, e.submission, e.meetsTarget).hashes;
  }

  ghost predicate NoLiveKey(s: State)
  {
    forall k :: k in s.credited ==> JobOf(k) !in s.service.jobs
  }

  /** Subscribing in this state would empty the hashes beside a credited key whose job lives. */
  ghost predicate Forgets(s: State)
  {
    s.initialized && !s.subscribed && ReplayClears(s.service) && !NoLiveKey(s)
  }

  lemma SubscribeKeeps(s: State)
    requires Inv(s) && !Forgets(s)
    ensures Inv(Step(s, Subscribe))
  {
  }

  lemma StepKeeps(s: State, e: Event)
    requires Inv(s) && (e.Subscribe? ==> !Forgets(s))
    ensures Inv(Step(s, e))
  {
    match e {
      case NewTemplate(clearJobs, now) => TemplateKeeps(s, clearJobs, now);
      case NewJob(job) => JobKeeps(s, job);
      case Initialize =>
      case Subscribe => SubscribeKeeps(s);
      case Submit(sub, meetsTarget) => SubmitKeeps(s, sub, meetsTarget);
    }
  }

  ghost predicate SafeReplays(s: State, events: seq<Event>)
    decreases |events|
  {
    events == [] || ((events[0].Subscribe? ==> !Forgets(s)) && SafeReplays(Step(s, events[0]), events[1..]))
  }

  /** In every run of templates, jobs, submissions and expiries in which no share of a live
      job was credited before a clearing replay, no key is credited twice. */
  lemma {:induction false} NoKeyTwice(s: State, events: seq<Event>)
    requires Inv(s) && SafeReplays(s, events)
    ensures Inv(Run(s, events)) && Distinct(Run(s, events).credited)
    decreases |events|
  {
    if events != [] {
      StepKeeps(s, events[0]);
      NoKeyTwice(Step(s, events[0]), events[1..]);
    }
  }

  // ---- exactly when a key can be credited again ----

  /** Once subscribed, a connection stays subscribed and its replays are over. */
  lemma {:induction false} SubscribedIsSafe(s: State, events: seq<Event>)
    requires s.subscribed || forall e :: e in events ==> !e.Subscribe?
    ensures SafeReplays(s, events)
    decreases |events|
  {
    if events != [] {
      assert events[0] in events;
      SubscribedIsSafe(Step(s, events[0]), events[1..]);
    }
  }

  /** A connection that is not subscribed has not replayed anything. */
  lemma {:induction false} UnsubscribedIsSafe(s: State, events: seq<Event>)
    requires !Run(s, events).subscribed
    ensures SafeReplays(s, events)
    decreases |events|
  {
    if events != [] {
      if events[0].Subscribe? && Forgets(s) { StaysSubscribed(Step(s, Subscribe), events[1..]); }
      UnsubscribedIsSafe(Step(s, events[0]), events[1..]);
    }
  }

  lemma {:induction false} StaysSubscribed(s: State, events: seq<Event>)
    requires s.subscribed
    ensures Run(s, events).subscribed
    decreases |events|
  {
    if events != [] { StaysSubscribed(Step(s, events[0]), events[1..]); }
  }

  /** A forgotten share is accepted a second time. */
  lemma ForgottenTwice(s: State) returns (sub: Submission)
    requires Inv(s) && Forgets(s)
    ensures Key(sub) in s.credited && Judge(s, sub, true) == Duplicate
    ensures !Distinct(Run(Step(s, Subscribe), [Submit(sub, true)]).credited)
  {
    var k :| k in s.credited && JobOf(k) in s.service.jobs;
    assert SomeKey(k);
    sub :| Key(sub) == k && ':' !in sub.jobId;
    JobOfKey(sub.jobId, Rest(sub));
    var s1 := Step(s, Subscribe);
    var s2 := Step(s1, Submit(sub, true));
    assert Run(s1, [Submit(sub, true)]) == s2 by { assert [Submit(sub, true)][1..] == []; }
    var i :| 0 <= i < |s.credited| && s.credited[i] == k;
    assert s2.credited[i] == s2.credited[|s.credited|];
  }

  /** For every connection about to subscribe, whatever came before: some continuation credits
      a key twice if and only if the replayed template clears and a share has been credited
      whose job is still in the table. */
  lemma SecondCreditIff(v: Service, events: seq<Event>)
    requires ServiceOk(v) && Run(Connect(v), events).initialized && !Run(Connect(v), events).subscribed
    ensures var s := Run(Connect(v), events);
      (exists more :: !Distinct(Run(Step(s, Subscribe), more).credited)) <==> ReplayClears(s.service) && !NoLiveKey(s)
  {
    var s := Run(Connect(v), events);
    UnsubscribedIsSafe(Connect(v), events);
    NoKeyTwice(Connect(v), events);
    if Forgets(s) {
      var sub := ForgottenTwice(s);
    } else {
      SubscribeKeeps(s);
      forall more ensures Distinct(Run(Step(s, Subscribe), more).credited) {
        SubscribedIsSafe(Step(s, Subscribe), more);
        NoKeyTwice(Step(s, Subscribe), more);
      }
    }
  }

  lemma {:induction false} RunJoin(s: State, a: seq<Event>, b: seq<Event>)
    ensures Run(s, a + b) == Run(Run(s, a), b)
    decreases |a|
  {
    if a == [] {
      assert a + b == b;
    } else {
      assert (a + b)[1..] == a[1..] + b;
      RunJoin(Step(s, a[0]), a[1..], b);
    }
  }

  lemma {:induction false} NothingCredited(s: State, events: seq<Event>)
    requires Inv(s) && s.credited == [] && forall e :: e in events ==> !e.Submit?
    ensures Inv(Run(s, events)) && Run(s, events).credited == []
    decreases |events|
  {
    if events != [] {
      assert events[0] in events;
      StepKeeps(s, events[0]);
      NothingCredited(Step(s, events[0]), events[1..]);
    }
  }

  /** So a connection that submits nothing until it is subscribed is credited no key twice,
      whatever templates and jobs arrive in between and whatever follows. */
  lemma QuietStartIsSafe(v: Service, before: seq<Event>, after: seq<Event>)
    requires ServiceOk(v) && forall e :: e in before ==> !e.Submit?
    requires Run(Connect(v), before).subscribed || forall e :: e in after ==> !e.Subscribe?
    ensures Distinct(Run(Connect(v), before + after).credited)
  {
    NothingCredited(Connect(v), before);
    RunJoin(Connect(v), before, after);
    SubscribedIsSafe(Run(Connect(v), before), after);
    NoKeyTwice(Run(Connect(v), before), after);
  }

  const FRESH := Service(1, 1, map[], map[], None)

  lemma RunTwo(s: State, a: Event, b: Event)
    ensures Run(s, [a, b]) == Step(Step(s, a), b)
  {
    assert [a, b][1..] == [b] && [b][1..] == [];
    assert Run(Step(s, a), [b]) == Step(Step(s, a), b);
  }

  /** A share slipped in between the start and the subscription, for a job another connection
      was given, is credited a second time after the replay. */
  lemma EarlyShareTwice(sub: Submission)
    requires sub.jobId == IdText(1)
    ensures
      var events :=
        [NewTemplate(true, 0), NewJob(Job(IdText(1), 0))] + [Initialize, Submit(sub, true)]
        + [Subscribe, Submit(sub, true)];
      Run(Connect(FRESH), events).credited == [Key(sub), Key(sub)]
  {
    var a := [NewTemplate(true, 0), NewJob(Job(IdText(1), 0))];
    var b, c := [Initialize, Submit(sub, true)], [Subscribe, Submit(sub, true)];
    RunJoin(Connect(FRESH), a + b, c);
    RunJoin(Connect(FRESH), a, b);
    RunTwo(Connect(FRESH), a[0], a[1]);
    RunTwo(Run(Connect(FRESH), a), b[0], b[1]);
    RunTwo(Run(Connect(FRESH), a + b), c[0], c[1]);
  }

  // ---- the objects ----

  class StratumV1Jobs {
    var latestJobId: nat
    var latestJobTemplateId: nat
    var jobs: map<string, Job>
    var blocks: map<string, Template>
    var cached: Option<Template>

    ghost function Now(): Service
      reads this
    {
      Service(latestJobId, latestJobTemplateId, jobs, blocks, cached)
    }

    constructor ()
      ensures Now() == FRESH && ServiceOk(Now())
    {
      latestJobId, latestJobTemplateId, jobs, blocks, cached := 1, 1, map[], map[], None;
    }

    method DropExpired(now: int)
      modifies this
      ensures Now() == old(Now()).(blocks := RecentBlocks(old(blocks), now), jobs := RecentJobs(old(jobs), now))
    {
      blocks := DropOld(blocks, (t: Template) => t.creation, now);
      assert blocks == RecentBlocks(old(blocks), now);
      jobs := DropOld(jobs, (j: Job) => j.creation, now);
      assert jobs == RecentJobs(old(jobs), now);
    }

    method PublishTemplate(clearJobs: bool, now: int)
      modifies this
      ensures Now() == Publish(old(Now()), clearJobs, now)
    {
      var data := Template(IdText(latestJobTemplateId), now, clearJobs);
      latestJobTemplateId := latestJobTemplateId + 1;
      if clearJobs {
        blocks, jobs := map[], map[];
      } else {
        DropExpired(now);
      }
      blocks := blocks[data.id := data];
      cached := Some(data);
    }

    method RegisterJob(job: Job) returns (id: string)
      modifies this
      ensures Now() == AddJob(old(Now()), job) && id == IdText(old(latestJobId))
    {
      id := IdText(latestJobId);
      jobs := jobs[id := job];
      latestJobId := latestJobId + 1;
    }
  }

  method DropOld<V>(m: map<string, V>, creation: V -> int, now: int) returns (kept: map<string, V>)
    ensures kept == map k | k in m && now - creation(m[k]) <= RETENTION_MS :: m[k]
  {
    kept := m;
    var todo := m.Keys;
    while todo != {}
      invariant todo <= m.Keys
      invariant forall k :: k in kept <==> k in m && (k in todo || now - creation(m[k]) <= RETENTION_MS)
      invariant forall k :: k in kept ==> kept[k] == m[k]
      decreases |todo|
    {
      var k :| k in todo;
      if now - creation(m[k]) > RETENTION_MS {
        kept := kept - {k};
      }
      todo := todo - {k};
    }
  }

  class StratumV1Client {
    const jobsService: StratumV1Jobs
    var stratumInitialized: bool
    var subscribed: bool
    var miningSubmissionHashes: set<string>
    ghost var credited: seq<string>

    ghost function Now(): State
      reads this, jobsService
    {
      State(jobsService.Now(), stratumInitialized, subscribed, miningSubmissionHashes, credited)
    }

    constructor (service: StratumV1Jobs)
      ensures Now() == Connect(service.Now()) && jobsService == service
    {
      jobsService := service;
      stratumInitialized, subscribed, miningSubmissionHashes, credited := false, false, {}, [];
    }

    method OnTemplate(clearJobs: bool, now: int)
      modifies this, jobsService
      ensures Now() == Step(old(Now()), NewTemplate(clearJobs, now))
    {
      jobsService.PublishTemplate(clearJobs, now);
      if subscribed && clearJobs {
        miningSubmissionHashes := {};
      }
    }

    method BeginInitStratum()
      modifies this
      ensures Now() == Step(old(Now()), Initialize)
    {
      stratumInitialized := true;
    }

    /** The rest of the start, after the difficulty has been sent. */
    method SubscribeToTemplates()
      requires stratumInitialized && !subscribed
      modifies this
      ensures Now() == Step(old(Now()), Subscribe)
    {
      subscribed := true;
      if jobsService.cached.Some? && jobsService.cached.value.clearJobs {
        miningSubmissionHashes := {};
      }
    }

    method HandleMiningSubmission(sub: Submission, meetsTarget: bool) returns (answer: Answer)
      modifies this
      ensures answer == Judge(old(Now()), sub, meetsTarget) && Now() == Receive(old(Now()), sub, meetsTarget)
      ensures old(Inv(Now())) ==> Inv(Now()) && (answer.Accepted? ==> Key(sub) !in old(credited))
    {
      ghost var before := Now();
      if Inv(before) { SubmitKeeps(before, sub, meetsTarget); }
      if !stratumInitialized {
        return NotInitialized;
      }
      if sub.jobId !in jobsService.jobs {
        return JobNotFound;
      }
      if jobsService.jobs[sub.jobId].templateId !in jobsService.blocks {
        return TemplateNotFound;
      }
      var submissionHash :=
        sub.jobId + ":" + (sub.extraNonce2 + ":" + sub.ntime + ":" + sub.nonce + ":" + sub.versionMask);
      if submissionHash in miningSubmissionHashes {
        return Duplicate;
      }
      miningSubmissionHashes := miningSubmissionHashes + {submissionHash};
      if !meetsTarget {
        return LowDifficulty;
      }
      credited := credited + [submissionHash];
      answer := Accepted;
    }
  }
}
