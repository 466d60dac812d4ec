/**
 The Job Declaration flow (section 6 of the Stratum V2 specification): templates, tokens
 and one connection as a state machine whose steps are the messages' handlers
 (src/services/sv2-job-declaration.service.ts, sv2-job-declaration-registry.service.ts,
 template-provider.service.ts). Handling `ProvideMissingTransactions.Success` waits for
 the mempool in the middle, so it is two steps and anything may happen between them.
 */
module JobDeclaration {
  import opened Bytes
  import opened CoinbaseBytes
  import opened CoinbaseHeight
  import opened DeclaredTransactions
  import opened Sequences
  import OutputCodec

  datatype Job = Job(requestId: nat, token: bytes, version: nat, prefix: bytes, suffix: bytes, wtxids: seq<bytes>)

  type HeightBytes = h: bytes | |h| <= MAX_HEIGHT_BYTES witness []

  datatype Template = Template(id: nat, version: nat, prevHash: bytes, height: HeightBytes, transactions: seq<Entry>,
                               createdAt: int)

  datatype Allocated = Allocated(user: string, outputs: bytes, createdAt: int)

  datatype Declared = Declared(originalToken: bytes, token: bytes, user: string, job: Job, templateId: nat,
                               template: Option<Template>, provided: seq<bytes>, createdAt: int)

  datatype Solution = Solution(prevHash: bytes, extranonce: bytes, nonce: nat, ntime: nat, nBits: nat, version: nat)

  /** Decoding: witness hashes of transactions, and the input scripts of a coinbase. */
  datatype Decoder = Decoder(parser: Parser, inputScripts: bytes -> Option<seq<bytes>>)

  datatype Config = Config(retentionMs: int, tokenTtlMs: int)

  // ---- templates ----

  datatype Provider = Provider(templates: map<nat, Template>, latest: Option<nat>)

  function CleanTemplates(p: Provider, cutoff: int): Provider
  {
    Provider((map id | id in p.templates && p.templates[id].createdAt >= cutoff :: p.templates[id]),
             if p.latest.Some? && p.latest.value in p.templates && p.templates[p.latest.value].createdAt < cutoff
               then None
             else p.latest)
  }

  predicate Decodable(D: Decoder, es: seq<Entry>)
  {
    forall e :: e in es ==> D.parser.wtxid(e.data).Some?
  }

  /** A new template; one with a transaction that does not decode is not stored. */
  function Upsert(D: Decoder, cfg: Config, p: Provider, t: Template): Provider
  {
    var clean := CleanTemplates(p, t.createdAt - cfg.retentionMs);
    if Decodable(D, t.transactions) then Provider(clean.templates[t.id := t], Some(t.id)) else clean
  }

  function Latest(p: Provider): Option<Template>
  {
    if p.latest.Some? && p.latest.value in p.templates then Some(p.templates[p.latest.value]) else None
  }

  // ---- tokens ----

  datatype Registry = Registry(issued: map<bytes, Allocated>, declared: map<bytes, Declared>)

  function CleanTokens(r: Registry, cutoff: int): Registry
  {
    Registry((map k | k in r.issued && r.issued[k].createdAt >= cutoff :: r.issued[k]),
             (map k | k in r.declared && r.declared[k].createdAt >= cutoff :: r.declared[k]))
  }

  datatype Error =
    | NotNegotiated | TemplateNotFound | VersionMismatch | BadCoinbaseHeight | DuplicateTransactions
    | UnknownRequest | BadTransactions(check: ProvidedCheck) | MempoolRejected
    | InvalidToken | OutputMismatch | InvalidOutputs

  datatype Result<T> = Ok(value: T) | Err(error: Error)

  /** Declaring a job against a token, under a fresh random one. */
  ghost function DeclareJob(
      r: Registry, job: Job, template: Template, provided: seq<bytes>, fresh_: bytes, now: int)
    : Result<Declared>
  {
    if job.token !in r.issued then Err(InvalidToken)
    else
      var issued := r.issued[job.token];
      match OutputCodec.IncludesRequired(job.prefix + job.suffix, issued.outputs)
      case None => Err(InvalidOutputs)
      case Some(false) => Err(OutputMismatch)
      case Some(true) =>
        Ok(Declared(job.token, fresh_, issued.user, job, template.id, Some(template), provided, now))
  }

  // ---- the connection ----

  datatype Pending = Pending(job: Job, template: Template, unknown: seq<nat>)

  datatype InFlight = InFlight(requestId: nat, pending: Pending, txs: seq<bytes>, check: ProvidedCheck)

  datatype Connection = Connection(declareTxData: bool, pending: map<nat, Pending>, inFlight: seq<InFlight>,
                                   latest: Option<Declared>, submitted: set<Solution>)

  datatype World = World(provider: Provider, registry: Registry, conn: Connection)

  datatype Event =
    | NewTemplate(template: Template)
    | Setup(declareTxData: bool)
    | Allocate(user: string, outputs: bytes, fresh_: bytes)
    | Declare(job: Job, fresh_: bytes)
    | BeginProvide(requestId: nat, txs: seq<bytes>)
    | EndProvide(index: nat, mempoolAccepts: bool, fresh_: bytes)
    | PushSolution(solution: Solution)

  datatype BlockOfJob = BlockOfJob(version: nat, prevHash: bytes, ntime: nat, nBits: nat, nonce: nat, coinbase: bytes,
                                   transactions: seq<Entry>)

  datatype Outcome =
    | NoJob | Repeated | TemplateGone | CoinbaseUndecodable | TransactionUndecodable | TransactionNotFound
    | HeightRejected | Submitted(solution: Solution, block: BlockOfJob)

  datatype Reply =
    | Silent
    | TokenAllocated(token: bytes)
    | ProvideMissing(requestId: nat, positions: seq<nat>)
    | DeclareError(requestId: nat, error: Error)
    | DeclareSuccess(requestId: nat, token: bytes)
    | Pushed(outcome: Outcome)

  // ---- steps ----

  /** The answer to a declared list of hashes against the latest template. */
  ghost function CheckDeclared(p: Provider, job: Job): Result<Pending>
  {
    var latest := Latest(p);
    if latest.None? then Err(TemplateNotFound)
    else
      var t := latest.value;
      if job.version != t.version then Err(VersionMismatch)
      else if !PrefixHeightOk(job.prefix, t.height) then Err(BadCoinbaseHeight)
      else if !AllDistinct(job.wtxids) then Err(DuplicateTransactions)
      else Ok(Pending(job, t, UnknownPositions(t.transactions, job.wtxids, |job.wtxids|)))
  }

  /** Registering a checked job makes it the one solutions are for. */
  ghost function Register(
      cfg: Config, w: World, requestId: nat, pending: Pending, provided: seq<bytes>, fresh_: bytes, now: int)
    : (World, Reply)
  {
    var registry := CleanTokens(w.registry, now - cfg.tokenTtlMs);
    match DeclareJob(registry, pending.job, pending.template, provided, fresh_, now)
    case Err(e) => (w.(registry := registry), DeclareError(requestId, e))
    case Ok(d) =>
      var declared := registry.declared[fresh_ := d];
      (w.(registry := registry.(declared := declared), conn := w.conn.(latest := Some(d))),
       DeclareSuccess(requestId, fresh_))
  }

  ghost function StepDeclare(cfg: Config, w: World, job: Job, fresh_: bytes, now: int): (World, Reply)
  {
    if !w.conn.declareTxData then (w, DeclareError(job.requestId, NotNegotiated))
    else
      var provider := CleanTemplates(w.provider, now - cfg.retentionMs);
      var w' := w.(provider := provider);
      match CheckDeclared(provider, job)
      case Err(e) => (w', DeclareError(job.requestId, e))
      case Ok(pending) =>
        if pending.unknown != [] then
          (w'.(conn := w.conn.(pending := w.conn.pending[job.requestId := pending])),
           ProvideMissing(job.requestId, pending.unknown))
        else Register(cfg, w', job.requestId, pending, [], fresh_, now)
  }

  ghost function StepBeginProvide(D: Decoder, w: World, requestId: nat, txs: seq<bytes>): (World, Reply)
  {
    if requestId !in w.conn.pending then (w, DeclareError(requestId, UnknownRequest))
    else
      var pending := w.conn.pending[requestId];
      var check := ProvidedResult(D.parser, pending.job.wtxids, pending.unknown, txs);
      (w.(conn := w.conn.(inFlight := w.conn.inFlight + [InFlight(requestId, pending, txs, check)])), Silent)
  }

  ghost function StepEndProvide(
      cfg: Config, w: World, index: nat, mempoolAccepts: bool, fresh_: bytes, now: int)
    : (World, Reply)
  {
    if index >= |w.conn.inFlight| then (w, Silent)
    else
      var f := w.conn.inFlight[index];
      var conn := w.conn.(inFlight := w.conn.inFlight[..index] + w.conn.inFlight[index + 1..],
                          pending := w.conn.pending - {f.requestId});
      var w' := w.(conn := conn);
      if !f.check.ProvidedFine? then (w', DeclareError(f.requestId, BadTransactions(f.check)))
      else if f.txs != [] && !mempoolAccepts then (w', DeclareError(f.requestId, MempoolRejected))
      else Register(cfg, w', f.requestId, f.pending, f.txs, fresh_, now)
  }

  /** The template a solution is for: the one captured with the job, or, failing that, the
      provider's copy under its id. */
  function TemplateOf(p: Provider, d: Declared): Option<Template>
  {
    if d.template.Some? then d.template
    else if d.templateId in p.templates then Some(p.templates[d.templateId]) else None
  }

  ghost function DeclaredTable(D: Decoder, t: Template, provided: seq<bytes>): HashMap
    requires forall tx :: tx in provided ==> D.parser.wtxid(tx).Some?
  {
    Table(t.transactions + Parsed(D.parser, provided))
  }

  ghost function BuildBlock(D: Decoder, t: Template, d: Declared, s: Solution): Outcome
  {
    var coinbase := d.job.prefix + s.extranonce + d.job.suffix;
    if exists tx :: tx in d.provided && D.parser.wtxid(tx).None? then TransactionUndecodable
    else if D.inputScripts(coinbase).None? then CoinbaseUndecodable
    else
      var found := Resolve(DeclaredTable(D, t, d.provided), d.job.wtxids);
      if found.None? then TransactionNotFound
      else if !Decodable(D, found.value) then TransactionUndecodable
      else Submitted(s, BlockOfJob(s.version, t.prevHash, s.ntime, s.nBits, s.nonce, coinbase, found.value))
  }

  ghost function Push(D: Decoder, w: World, s: Solution): Outcome
  {
    if w.conn.latest.None? then NoJob
    else if s in w.conn.submitted then Repeated
    else
      var d := w.conn.latest.value;
      var t := TemplateOf(w.provider, d);
      if t.None? then TemplateGone
      else
        var built := BuildBlock(D, t.value, d, s);
        if !built.Submitted? then built
        else
          var scripts := D.inputScripts(built.block.coinbase).value;
          if |scripts| != 1 || !ScriptHeightOk(scripts[0], t.value.height) then HeightRejected else built
  }

  ghost function StepPush(D: Decoder, w: World, s: Solution): (World, Reply)
  {
    var outcome := Push(D, w, s);
    (if outcome.Submitted? then w.(conn := w.conn.(submitted := w.conn.submitted + {s})) else w, Pushed(outcome))
  }

  ghost function Step(D: Decoder, cfg: Config, w: World, e: Event, now: int): (World, Reply)
  {
    match e
    case NewTemplate(t) => (w.(provider := Upsert(D, cfg, w.provider, t)), Silent)
    case Setup(flag) => (w.(conn := w.conn.(declareTxData := flag)), Silent)
    case Allocate(user, outputs, token) =>
      var registry := CleanTokens(w.registry, now - cfg.tokenTtlMs);
      (w.(registry := registry.(issued := registry.issued[token := Allocated(user, outputs, now)])),
       TokenAllocated(token))
    case Declare(job, token) => StepDeclare(cfg, w, job, token, now)
    case BeginProvide(requestId, txs) => StepBeginProvide(D, w, requestId, txs)
    case EndProvide(index, accepts, token) => StepEndProvide(cfg, w, index, accepts, token, now)
    case PushSolution(s) => StepPush(D, w, s)
  }

  // ---- what every step keeps ----

  ghost predicate PendingOk(D: Decoder, p: Pending)
  {
    && AllDistinct(p.job.wtxids) && Decodable(D, p.template.transactions)
    && p.unknown == UnknownPositions(p.template.transactions, p.job.wtxids, |p.job.wtxids|)
    && PrefixHeightOk(p.job.prefix, p.template.height)
  }

  ghost predicate InFlightOk(D: Decoder, f: InFlight)
  {
    PendingOk(D, f.pending) && f.check == ProvidedResult(D.parser, f.pending.job.wtxids, f.pending.unknown, f.txs)
  }

  /** A declared job holds all it takes to build its block. */
  ghost predicate DeclaredOk(D: Decoder, d: Declared)
  {
    && d.template.Some? && Decodable(D, d.template.value.transactions) && AllDistinct(d.job.wtxids)
    && ProvidedOk(D.parser, d.job.wtxids,
                  UnknownPositions(d.template.value.transactions, d.job.wtxids, |d.job.wtxids|), d.provided)
    && PrefixHeightOk(d.job.prefix, d.template.value.height)
  }

  ghost predicate ProviderOk(D: Decoder, p: Provider)
  {
    forall id :: id in p.templates ==> Decodable(D, p.templates[id].transactions)
  }

  ghost predicate RegistryOk(D: Decoder, r: Registry)
  {
    forall k :: k in r.declared ==> DeclaredOk(D, r.declared[k])
  }

  ghost predicate ConnectionOk(D: Decoder, c: Connection)
  {
    && (forall k :: k in c.pending ==> PendingOk(D, c.pending[k]))
    && (forall i :: 0 <= i < |c.inFlight| ==> InFlightOk(D, c.inFlight[i]))
    && (c.latest.Some? ==> DeclaredOk(D, c.latest.value))
  }

  ghost predicate Inv(D: Decoder, w: World)
  {
    ProviderOk(D, w.provider) && RegistryOk(D, w.registry) && ConnectionOk(D, w.conn)
  }

  const START := World(Provider(map[], None), Registry(map[], map[]), Connection(false, map[], [], None, {}))

  lemma RegisterKeeps(D: Decoder, cfg: Config, w: World, requestId: nat, pending: Pending, provided: seq<bytes>,
                      fresh_: bytes, now: int)
    requires Inv(D, w) && PendingOk(D, pending)
    requires ProvidedOk(D.parser, pending.job.wtxids, pending.unknown, provided)
    ensures Inv(D, Register(cfg, w, requestId, pending, provided, fresh_, now).0)
  {
  }

  lemma CheckDeclaredOk(D: Decoder, p: Provider, job: Job)
    requires ProviderOk(D, p) && CheckDeclared(p, job).Ok?
    ensures PendingOk(D, CheckDeclared(p, job).value)
    ensures CheckDeclared(p, job).value.unknown == [] ==>
      ProvidedOk(D.parser, job.wtxids, CheckDeclared(p, job).value.unknown, [])
  {
  }

  lemma DeclareKeeps(D: Decoder, cfg: Config, w: World, job: Job, fresh_: bytes, now: int)
    requires Inv(D, w)
    ensures Inv(D, StepDeclare(cfg, w, job, fresh_, now).0)
  {
    var provider := CleanTemplates(w.provider, now - cfg.retentionMs);
    assert ProviderOk(D, provider);
    var w' := w.(provider := provider);
    if w.conn.declareTxData && CheckDeclared(provider, job).Ok? {
      CheckDeclaredOk(D, provider, job);
      var pending := CheckDeclared(provider, job).value;
      if pending.unknown == [] {
        RegisterKeeps(D, cfg, w', job.requestId, pending, [], fresh_, now);
      }
    }
  }

  lemma EndProvideKeeps(D: Decoder, cfg: Config, w: World, index: nat, accepts: bool, fresh_: bytes, now: int)
    requires Inv(D, w)
    ensures Inv(D, StepEndProvide(cfg, w, index, accepts, fresh_, now).0)
  {
    if index < |w.conn.inFlight| {
      var f := w.conn.inFlight[index];
      var conn := w.conn.(inFlight := w.conn.inFlight[..index] + w.conn.inFlight[index + 1..],
                          pending := w.conn.pending - {f.requestId});
      assert InFlightOk(D, f);
      assert ConnectionOk(D, conn);
      if f.check.ProvidedFine? {
        RegisterKeeps(D, cfg, w.(conn := conn), f.requestId, f.pending, f.txs, fresh_, now);
      }
    }
  }

  lemma StepKeeps(D: Decoder, cfg: Config, w: World, e: Event, now: int)
    requires Inv(D, w)
    ensures Inv(D, Step(D, cfg, w, e, now).0)
  {
    match e
    case Declare(job, token) => DeclareKeeps(D, cfg, w, job, token, now);
    case EndProvide(index, accepts, token) => EndProvideKeeps(D, cfg, w, index, accepts, token, now);
    case BeginProvide(requestId, txs) =>
      assert ConnectionOk(D, StepBeginProvide(D, w, requestId, txs).0.conn);
    case _ =>
  }

  // ---- declared jobs can always be built ----

  /** A solution to a declared job never fails for want of a transaction, or of the
      template, or because a listed transaction does not decode. */
  lemma PushNeverStuck(D: Decoder, w: World, s: Solution)
    requires Inv(D, w)
    ensures var o := Push(D, w, s); !o.TransactionNotFound? && !o.TemplateGone? && !o.TransactionUndecodable?
  {
    if w.conn.latest.Some? {
      DeclaredJobBuilds(D, w.conn.latest.value, s);
    }
  }

  /** The block of a declared job: the coinbase around the extranonce, then one
      transaction for every declared hash, in the declared order, no two the same. */
  lemma DeclaredJobBuilds(D: Decoder, d: Declared, s: Solution)
    requires DeclaredOk(D, d)
    ensures
      var o := BuildBlock(D, d.template.value, d, s);
      || (o.CoinbaseUndecodable? && D.inputScripts(d.job.prefix + s.extranonce + d.job.suffix).None?)
      || (o.Submitted? && o.solution == s && AnswersInOrder(d.job.wtxids, o.block.transactions)
          && o.block.coinbase == d.job.prefix + s.extranonce + d.job.suffix)
  {
    var t := d.template.value;
    var unknown := UnknownPositions(t.transactions, d.job.wtxids, |d.job.wtxids|);
    UnknownPositionsAre(t.transactions, d.job.wtxids, |d.job.wtxids|);
    DeclaredBuilds(D.parser, t.transactions, d.job.wtxids, unknown, d.provided);
    ResolvedDecode(D, t, d);
  }

  lemma ResolvedDecode(D: Decoder, t: Template, d: Declared)
    requires Decodable(D, t.transactions)
    requires forall tx :: tx in d.provided ==> D.parser.wtxid(tx).Some?
    ensures
      var found := Resolve(DeclaredTable(D, t, d.provided), d.job.wtxids);
      found.Some? ==> Decodable(D, found.value)
  {
    var es := t.transactions + Parsed(D.parser, d.provided);
    var found := Resolve(Table(es), d.job.wtxids);
    assert Decodable(D, es) by {
      forall e | e in es ensures D.parser.wtxid(e.data).Some? {
        var sent := Parsed(D.parser, d.provided);
        if e in sent {
          var i :| 0 <= i < |sent| && sent[i] == e;
          assert d.provided[i] in d.provided;
        }
      }
    }
    if found.Some? {
      ResolveAll(Table(es), d.job.wtxids);
      forall i | 0 <= i < |found.value| ensures found.value[i] in es {
        LookupFinds(es, d.job.wtxids[i]);
      }
    }
  }

  /** A solution is refused for its height exactly when its coinbase does not start with it,
      in either serialization. Where the declared head reaches the input script, that was decided
      by the declaration: it happens if and only if the script is too short to hold the height. */
  lemma HeightRejectedIff(D: Decoder, w: World, s: Solution, front: bytes, script: bytes, back: bytes)
    requires Inv(D, w) && w.conn.latest.Some? && s !in w.conn.submitted
    requires OneInputFront(front) && |script| < MAX_VARINT
    requires var job, coinbase := w.conn.latest.value.job, Assemble(front, script, back);
      job.prefix + s.extranonce + job.suffix == coinbase && D.inputScripts(coinbase) == Some([script])
    ensures var d, rejected := w.conn.latest.value, Push(D, w, s).HeightRejected?;
      && (rejected <==> !ScriptHeightOk(script, d.template.value.height))
      && (StartOf(front, script) <= |d.job.prefix| ==>
            (rejected <==> |script| < |HeightPrefix(d.template.value.height)|))
  {
    var d := w.conn.latest.value;
    DeclaredJobBuilds(D, d, s);
    if StartOf(front, script) <= |d.job.prefix| {
      assert Assemble(front, script, back)[..|d.job.prefix|] == d.job.prefix;
      AcceptedHeadFinishesIff(front, script, back, |d.job.prefix|, d.template.value.height);
    }
  }

  /** A marker counts only with flag 1; with any other octet the zero is an input count. */
  ghost predicate ReadsNoInput(D: Decoder)
  {
    forall b: bytes :: |b| >= 6 && b[4] == 0 && b[5] != 1 ==> D.inputScripts(b) in {None, Some([])}
  }

  /** The check on the head skips the flag, so a job can be declared with another one; none of
      its solutions is then submitted. */
  lemma OddFlagNeverSubmits(D: Decoder, w: World, s: Solution)
    requires Inv(D, w) && ReadsNoInput(D) && w.conn.latest.Some?
    requires var prefix := w.conn.latest.value.job.prefix; |prefix| >= 6 && prefix[4] == 0 && prefix[5] != 1
    ensures var o := Push(D, w, s); o.Repeated? || o.CoinbaseUndecodable? || o.HeightRejected?
  {
    var d := w.conn.latest.value;
    DeclaredJobBuilds(D, d, s);
    var coinbase := d.job.prefix + s.extranonce + d.job.suffix;
    assert coinbase[4] == d.job.prefix[4] && coinbase[5] == d.job.prefix[5];
  }

  /** A job is only ever declared under a token that was handed out and has not expired,
      with every output that token asks for, and never with a hash twice; solutions are for
      that job from then on. */
  lemma DeclarationNeedsToken(D: Decoder, cfg: Config, w: World, e: Event, now: int)
    requires Inv(D, w) && Step(D, cfg, w, e, now).1.DeclareSuccess?
    ensures
      var (w', reply) := Step(D, cfg, w, e, now);
      && w'.conn.latest.Some?
      && var d := w'.conn.latest.value;
      && d.token == reply.token && DeclaredOk(D, d)
      && d.originalToken in w.registry.issued
      && w.registry.issued[d.originalToken].createdAt >= now - cfg.tokenTtlMs
      && OutputCodec.IncludesRequired(d.job.prefix + d.job.suffix, w.registry.issued[d.originalToken].outputs)
           == Some(true)
  {
    StepKeeps(D, cfg, w, e, now);
  }

  // ---- whole runs ----

  datatype Timed = Timed(event: Event, now: int)

  ghost function Run(D: Decoder, cfg: Config, w: World, events: seq<Timed>): (World, seq<Reply>)
    decreases |events|
  {
    if events == [] then (w, [])
    else
      var (w', reply) := Step(D, cfg, w, events[0].event, events[0].now);
      var (end, replies) := Run(D, cfg, w', events[1..]);
      (end, [reply] + replies)
  }

  ghost predicate NeverStuck(reply: Reply)
  {
    reply.Pushed? ==>
      !reply.outcome.TransactionNotFound? && !reply.outcome.TemplateGone? && !reply.outcome.TransactionUndecodable?
  }

  lemma StepNeverStuck(D: Decoder, cfg: Config, w: World, e: Event, now: int)
    requires Inv(D, w)
    ensures NeverStuck(Step(D, cfg, w, e, now).1)
  {
    if e.PushSolution? {
      PushNeverStuck(D, w, e.solution);
    }
  }

  /** Whatever happens, in whatever order and at whatever times, no pushed solution is ever
      refused because a declared transaction or its template cannot be found, and every job
      in the registry stays buildable. */
  lemma {:induction false} RunNeverStuck(D: Decoder, cfg: Config, w: World, events: seq<Timed>)
    requires Inv(D, w)
    ensures Inv(D, Run(D, cfg, w, events).0)
    ensures forall i :: 0 <= i < |Run(D, cfg, w, events).1| ==> NeverStuck(Run(D, cfg, w, events).1[i])
    decreases |events|
  {
    if events != [] {
      var (w', reply) := Step(D, cfg, w, events[0].event, events[0].now);
      StepKeeps(D, cfg, w, events[0].event, events[0].now);
      StepNeverStuck(D, cfg, w, events[0].event, events[0].now);
      RunNeverStuck(D, cfg, w', events[1..]);
    }
  }

  lemma FreshStartNeverStuck(D: Decoder, cfg: Config, events: seq<Timed>)
    ensures Inv(D, Run(D, cfg, START, events).0)
    ensures forall i :: 0 <= i < |Run(D, cfg, START, events).1| ==> NeverStuck(Run(D, cfg, START, events).1[i])
  {
    RunNeverStuck(D, cfg, START, events);
  }

  predicate ChangesNothing(reply: Reply)
  {
    !reply.DeclareSuccess? && !(reply.Pushed? && reply.outcome.Submitted?)
  }

  lemma StepKeepsJob(D: Decoder, cfg: Config, w: World, e: Event, now: int)
    requires ChangesNothing(Step(D, cfg, w, e, now).1)
    ensures Step(D, cfg, w, e, now).0.conn.latest == w.conn.latest
    ensures Step(D, cfg, w, e, now).0.conn.submitted == w.conn.submitted
  {
  }

  /** However many templates come and are evicted meanwhile, whatever tokens are handed out and
      declarations refused: until the next job is declared or solution submitted, a solution gets
      the answer, and the block, it would have got at once. */
  lemma {:induction false} PushStays(D: Decoder, cfg: Config, w: World, events: seq<Timed>, s: Solution)
    requires Inv(D, w)
    requires forall i :: 0 <= i < |Run(D, cfg, w, events).1| ==> ChangesNothing(Run(D, cfg, w, events).1[i])
    ensures Push(D, Run(D, cfg, w, events).0, s) == Push(D, w, s)
    decreases |events|
  {
    if events != [] {
      var (w', reply) := Step(D, cfg, w, events[0].event, events[0].now);
      var (end, replies) := Run(D, cfg, w', events[1..]);
      assert Run(D, cfg, w, events).1 == [reply] + replies;
      forall i | 0 <= i < |replies| ensures ChangesNothing(replies[i]) {
        assert replies[i] == Run(D, cfg, w, events).1[i + 1];
      }
      assert ChangesNothing(Run(D, cfg, w, events).1[0]);
      StepKeepsJob(D, cfg, w, events[0].event, events[0].now);
      StepKeeps(D, cfg, w, events[0].event, events[0].now);
      PushStays(D, cfg, w', events[1..], s);
      SameJobSamePush(D, w, w', s);
    }
  }

  lemma SameJobSamePush(D: Decoder, w: World, w': World, s: Solution)
    requires Inv(D, w) && w'.conn.latest == w.conn.latest && w'.conn.submitted == w.conn.submitted
    ensures Push(D, w', s) == Push(D, w, s)
  {
  }

  /** The solutions a run submits, in order. */
  function SubmittedIn(replies: seq<Reply>): seq<Solution>
  {
    if replies == [] then []
    else if replies[0].Pushed? && replies[0].outcome.Submitted?
      then [replies[0].outcome.solution] + SubmittedIn(replies[1..])
    else SubmittedIn(replies[1..])
  }

  lemma StepSubmits(D: Decoder, cfg: Config, w: World, e: Event, now: int)
    ensures
      var (w', reply) := Step(D, cfg, w, e, now);
      if reply.Pushed? && reply.outcome.Submitted? then
        reply.outcome.solution !in w.conn.submitted && w'.conn.submitted == w.conn.submitted + {reply.outcome.solution}
      else w'.conn.submitted == w.conn.submitted
  {
  }

  /** No solution is submitted twice in a connection's life. */
  lemma {:induction false} EachSolutionOnce(D: Decoder, cfg: Config, w: World, events: seq<Timed>)
    ensures
      var sent := SubmittedIn(Run(D, cfg, w, events).1);
      Distinct(sent) && (forall s :: s in sent ==> s !in w.conn.submitted)
    decreases |events|
  {
    if events != [] {
      var (w', reply) := Step(D, cfg, w, events[0].event, events[0].now);
      StepSubmits(D, cfg, w, events[0].event, events[0].now);
      EachSolutionOnce(D, cfg, w', events[1..]);
      var replies := Run(D, cfg, w', events[1..]).1;
      assert ([reply] + replies)[1..] == replies;
    }
  }
}
