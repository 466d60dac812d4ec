/**
 The objects behind the Job Declaration flow, updated in place
 (src/services/template-provider.service.ts, sv2-job-declaration-registry.service.ts,
 sv2-job-declaration.service.ts); every handler is one step of the state machine.
 */
module JobDeclarationService {
  import opened Bytes
  import opened CoinbaseHeight
  import opened DeclaredTransactions
  import opened JobDeclaration
  import OutputCodec

  /** The sweep that drops old entries from a table. */
  method DropExpired<K, V>(m: map<K, V>, createdAt: V -> int, cutoff: int) returns (kept: map<K, V>)
    ensures kept == map k | k in m && createdAt(m[k]) >= cutoff :: m[k]
  {
    kept := m;
    var todo := m.Keys;
    while todo != {}
      invariant todo <= m.Keys
      invariant forall k :: k in kept <==> k in m && (k in todo || createdAt(m[k]) >= cutoff)
      invariant forall k :: k in kept ==> kept[k] == m[k]
      decreases |todo|
    {
      var k :| k in todo;
      if createdAt(m[k]) < cutoff {
        kept := kept - {k};
      }
      todo := todo - {k};
    }
  }

  class TemplateProvider {
    const retentionMs: int
    var templates: map<nat, Template>
    var latestTemplateId: Option<nat>

    ghost function State(): Provider
      reads this
    {
      Provider(templates, latestTemplateId)
    }

    constructor (retention: int)
      ensures State() == START.provider && retentionMs == retention
    {
      retentionMs := retention;
      templates, latestTemplateId := map[], None;
    }

    method Cleanup(now: int)
      modifies this
      ensures State() == CleanTemplates(old(State()), now - retentionMs)
    {
      var cutoff := now - retentionMs;
      if latestTemplateId.Some? && latestTemplateId.value in templates {
        if templates[latestTemplateId.value].createdAt < cutoff {
          latestTemplateId := None;
        }
      }
      templates := DropExpired(templates, (t: Template) => t.createdAt, cutoff);
    }

    method UpsertTemplate(D: Decoder, t: Template)
      modifies this
      ensures State() == Upsert(D, Config(retentionMs, 0), old(State()), t)
    {
      Cleanup(t.createdAt);
      var decodable := AllDecode(D, t.transactions);
      if decodable {
        templates := templates[t.id := t];
        latestTemplateId := Some(t.id);
      }
    }

    method GetLatestTemplate(now: int) returns (t: Option<Template>)
      modifies this
      ensures State() == CleanTemplates(old(State()), now - retentionMs) && t == Latest(State())
    {
      Cleanup(now);
      t := if latestTemplateId.Some? && latestTemplateId.value in templates
          then Some(templates[latestTemplateId.value])
          else None;
    }

    method ValidateDeclaredWtxids(job: Job, now: int) returns (r: JobDeclaration.Result<Pending>)
      modifies this
      ensures State() == CleanTemplates(old(State()), now - retentionMs) && r == CheckDeclared(State(), job)
    {
      var latest := GetLatestTemplate(now);
      if latest.None? {
        return Err(TemplateNotFound);
      }
      var template := latest.value;
      if job.version != template.version {
        return Err(VersionMismatch);
      }
      if !PrefixHeightOk(job.prefix, template.height) {
        return Err(BadCoinbaseHeight);
      }
      var wtxidMap := BuildMap(template.transactions);
      var d := CheckDeclaredHashes(template.transactions, wtxidMap, job.wtxids);
      if d.duplicates {
        return Err(DuplicateTransactions);
      }
      r := Ok(Pending(job, template, d.unknown));
    }
  }

  method AllDecode(D: Decoder, es: seq<Entry>) returns (ok: bool)
    ensures ok <==> Decodable(D, es)
  {
    for i := 0 to |es|
      invariant forall k :: 0 <= k < i ==> D.parser.wtxid(es[k].data).Some?
    {
      if D.parser.wtxid(es[i].data).None? {
        return false;
      }
    }
    ok := true;
  }

  class TokenRegistry {
    const tokenTtlMs: int
    var issuedTokens: map<bytes, Allocated>
    var declaredJobs: map<bytes, Declared>

    ghost function State(): Registry
      reads this
    {
      Registry(issuedTokens, declaredJobs)
    }

    constructor (ttl: int)
      ensures State() == START.registry && tokenTtlMs == ttl
    {
      tokenTtlMs := ttl;
      issuedTokens, declaredJobs := map[], map[];
    }

    method Cleanup(now: int)
      modifies this
      ensures State() == CleanTokens(old(State()), now - tokenTtlMs)
    {
      issuedTokens := DropExpired(issuedTokens, (a: Allocated) => a.createdAt, now - tokenTtlMs);
      declaredJobs := DropExpired(declaredJobs, (d: Declared) => d.createdAt, now - tokenTtlMs);
    }

    method AllocateToken(user: string, outputs: bytes, token: bytes, now: int)
      modifies this
      ensures
        var clean := CleanTokens(old(State()), now - tokenTtlMs);
        State() == clean.(issued := clean.issued[token := Allocated(user, outputs, now)])
    {
      Cleanup(now);
      issuedTokens := issuedTokens[token := Allocated(user, outputs, now)];
    }

    method Declare(job: Job, template: Template, provided: seq<bytes>, token: bytes, now: int)
      returns (r: JobDeclaration.Result<Declared>)
      modifies this
      ensures
        var clean := CleanTokens(old(State()), now - tokenTtlMs);
        && r == DeclareJob(clean, job, template, provided, token, now)
        && State() == if r.Ok? then clean.(declared := clean.declared[token := r.value]) else clean
    {
      Cleanup(now);
      if job.token !in issuedTokens {
        return Err(InvalidToken);
      }
      var entry := issuedTokens[job.token];
      var included := OutputCodec.CoinbaseIncludesRequiredOutputs(job.prefix, job.suffix, entry.outputs);
      if included.None? {
        return Err(InvalidOutputs);
      }
      if !included.value {
        return Err(OutputMismatch);
      }
      var declared := Declared(job.token, token, entry.user, job, template.id, Some(template), provided, now);
      declaredJobs := declaredJobs[token := declared];
      r := Ok(declared);
    }
  }

  class DeclarationConnection {
    const provider: TemplateProvider
    const registry: TokenRegistry
    var declareTxData: bool
    var pendingDeclarations: map<nat, Pending>
    var inFlight: seq<InFlight>
    var latestDeclaredJob: Option<Declared>
    var submittedSolutions: set<Solution>

    ghost function State(): World
      reads this, provider, registry
    {
      World(provider.State(), registry.State(),
            Connection(declareTxData, pendingDeclarations, inFlight, latestDeclaredJob, submittedSolutions))
    }

    ghost function Settings(): Config
    {
      Config(provider.retentionMs, registry.tokenTtlMs)
    }

    constructor (templates: TemplateProvider, tokens: TokenRegistry)
      ensures State() == World(templates.State(), tokens.State(), START.conn)
      ensures provider == templates && registry == tokens
    {
      provider, registry := templates, tokens;
      declareTxData, pendingDeclarations, inFlight, latestDeclaredJob, submittedSolutions := false, map[], [], None, {};
    }

    method RegisterJob(requestId: nat, pending: Pending, provided: seq<bytes>, token: bytes, now: int)
      returns (reply: Reply)
      modifies this, registry
      ensures (State(), reply) == Register(Settings(), old(State()), requestId, pending, provided, token, now)
    {
      var declared := registry.Declare(pending.job, pending.template, provided, token, now);
      match declared {
        case Err(e) => reply := DeclareError(requestId, e);
        case Ok(d) =>
          latestDeclaredJob := Some(d);
          reply := DeclareSuccess(requestId, token);
      }
    }

    method HandleDeclareMiningJob(job: Job, token: bytes, now: int) returns (reply: Reply)
      modifies this, provider, registry
      ensures (State(), reply) == StepDeclare(Settings(), old(State()), job, token, now)
    {
      if !declareTxData {
        return DeclareError(job.requestId, NotNegotiated);
      }
      var validation := provider.ValidateDeclaredWtxids(job, now);
      match validation {
        case Err(e) => reply := DeclareError(job.requestId, e);
        case Ok(pending) =>
          if pending.unknown != [] {
            pendingDeclarations := pendingDeclarations[job.requestId := pending];
            reply := ProvideMissing(job.requestId, pending.unknown);
          } else {
            reply := RegisterJob(job.requestId, pending, [], token, now);
          }
      }
    }

    /** Up to the wait for the mempool. */
    method BeginProvideMissing(D: Decoder, requestId: nat, transactionList: seq<bytes>) returns (reply: Reply)
      modifies this
      ensures (State(), reply) == StepBeginProvide(D, old(State()), requestId, transactionList)
    {
      if requestId !in pendingDeclarations {
        return DeclareError(requestId, UnknownRequest);
      }
      var pending := pendingDeclarations[requestId];
      var check := CheckProvided(D.parser, pending.job.wtxids, pending.unknown, transactionList);
      inFlight := inFlight + [InFlight(requestId, pending, transactionList, check)];
      reply := Silent;
    }

    /** After it: the declaration captured before the wait is the one that counts. */
    method EndProvideMissing(index: nat, mempoolAccepts: bool, token: bytes, now: int) returns (reply: Reply)
      modifies this, registry
      ensures (State(), reply) == StepEndProvide(Settings(), old(State()), index, mempoolAccepts, token, now)
    {
      if index >= |inFlight| {
        return Silent;
      }
      var f := inFlight[index];
      inFlight := inFlight[..index] + inFlight[index + 1..];
      pendingDeclarations := pendingDeclarations - {f.requestId};
      if !f.check.ProvidedFine? {
        return DeclareError(f.requestId, BadTransactions(f.check));
      }
      if f.txs != [] && !mempoolAccepts {
        return DeclareError(f.requestId, MempoolRejected);
      }
      reply := RegisterJob(f.requestId, f.pending, f.txs, token, now);
    }

    method HandlePushSolution(D: Decoder, solution: Solution) returns (reply: Reply)
      modifies this
      ensures (State(), reply) == StepPush(D, old(State()), solution)
    {
      if latestDeclaredJob.None? {
        return Pushed(NoJob);
      }
      if solution in submittedSolutions {
        return Pushed(Repeated);
      }
      var declared := latestDeclaredJob.value;
      var template := declared.template;
      if template.None? && declared.templateId in provider.templates {
        template := Some(provider.templates[declared.templateId]);
      }
      if template.None? {
        return Pushed(TemplateGone);
      }
      var outcome := BuildBlockFromSolution(D, template.value, declared, solution);
      if outcome.Submitted? {
        var scripts := D.inputScripts(outcome.block.coinbase).value;
        if |scripts| != 1 || !ScriptHeightOk(scripts[0], template.value.height) {
          return Pushed(HeightRejected);
        }
        submittedSolutions := submittedSolutions + {solution};
      }
      reply := Pushed(outcome);
    }
  }

  /** Decode the transactions that were sent for a job. */
  method ParseProvided(P: Parser, provided: seq<bytes>) returns (sent: Option<seq<Entry>>)
    ensures sent.None? <==> exists tx :: tx in provided && P.wtxid(tx).None?
    ensures sent.Some? ==> sent.value == Parsed(P, provided)
  {
    var entries: seq<Entry> := [];
    for i := 0 to |provided|
      invariant |entries| == i
      invariant forall k :: 0 <= k < i ==> P.wtxid(provided[k]).Some?
      invariant forall k :: 0 <= k < i ==> entries[k] == Entry(P.wtxid(provided[k]).value, provided[k])
    {
      var parsed := P.wtxid(provided[i]);
      if parsed.None? {
        assert provided[i] in provided;
        return None;
      }
      entries := entries + [Entry(parsed.value, provided[i])];
    }
    assert entries == Parsed(P, provided);
    sent := Some(entries);
  }

  /** The block of a declared job, or what stands in its way. */
  method BuildBlockFromSolution(D: Decoder, t: Template, d: Declared, s: Solution) returns (o: Outcome)
    ensures o == BuildBlock(D, t, d, s)
  {
    var sent := ParseProvided(D.parser, d.provided);
    if sent.None? {
      return TransactionUndecodable;
    }
    var transactionMap := BuildMap(t.transactions + sent.value);
    assert transactionMap == DeclaredTable(D, t, d.provided);
    var coinbaseTx := d.job.prefix + s.extranonce + d.job.suffix;
    if D.inputScripts(coinbaseTx).None? {
      return CoinbaseUndecodable;
    }
    var transactions := ListDeclared(transactionMap, d.job.wtxids);
    if transactions.None? {
      return TransactionNotFound;
    }
    var decodable := AllDecode(D, transactions.value);
    if !decodable {
      return TransactionUndecodable;
    }
    o := Submitted(s, BlockOfJob(s.version, t.prevHash, s.ntime, s.nBits, s.nonce, coinbaseTx, transactions.value));
  }
}
