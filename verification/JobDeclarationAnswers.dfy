/**
 What the answers of the Job Declaration flow mean, in the terms of the messages themselves
 (src/services/sv2-job-declaration.service.ts, sv2-job-declaration-registry.service.ts,
 template-provider.service.ts): when a declaration succeeds or asks for transactions, when a
 solution is submitted, and what its block holds.
 */
module JobDeclarationAnswers {
  import opened Bytes
  import opened CoinbaseHeight
  import opened DeclaredTransactions
  import opened JobDeclaration
  import OutputCodec

  // ---- declarations ----

  /** The latest template is still kept. */
  predicate HasTemplate(cfg: Config, p: Provider, now: int)
  {
    && p.latest.Some? && p.latest.value in p.templates
    && p.templates[p.latest.value].createdAt >= now - cfg.retentionMs
  }

  /** No hash stands twice in the list, in either byte order. */
  ghost predicate NoHashTwice(hashes: seq<bytes>)
  {
    forall i, j :: 0 <= i < j < |hashes| ==> !SameHash(hashes[i], hashes[j])
  }

  lemma AllDistinctIs(hashes: seq<bytes>)
    ensures AllDistinct(hashes) <==> NoHashTwice(hashes)
  {
    if !AllDistinct(hashes) {
      var i :| 0 <= i < |hashes| && Repeats(hashes, i);
      var j :| 0 <= j < i && SameHash(hashes[j], hashes[i]);
      assert !NoHashTwice(hashes);
    }
    if !NoHashTwice(hashes) {
      var i, j :| 0 <= i < j < |hashes| && SameHash(hashes[i], hashes[j]);
      assert Repeats(hashes, j);
    }
  }

  /** The job fits the latest template as far as the declaration itself goes. */
  ghost predicate Fits(cfg: Config, w: World, job: Job, now: int)
  {
    && w.conn.declareTxData && HasTemplate(cfg, w.provider, now)
    && var t := w.provider.templates[w.provider.latest.value];
       job.version == t.version && PrefixHeightOk(job.prefix, t.height) && NoHashTwice(job.wtxids)
  }

  /** A token that was handed out, has not expired, and whose outputs the coinbase contains. */
  ghost predicate Allowed(cfg: Config, r: Registry, job: Job, now: int)
  {
    && job.token in r.issued && r.issued[job.token].createdAt >= now - cfg.tokenTtlMs
    && OutputCodec.IncludesRequired(job.prefix + job.suffix, r.issued[job.token].outputs) == Some(true)
  }

  lemma CleanKeepsLatest(cfg: Config, p: Provider, now: int)
    ensures var latest := Latest(CleanTemplates(p, now - cfg.retentionMs));
      && (latest.Some? <==> HasTemplate(cfg, p, now))
      && (latest.Some? ==> latest.value == p.templates[p.latest.value])
  {
  }

  lemma CheckedIff(cfg: Config, w: World, job: Job, now: int)
    requires w.conn.declareTxData
    ensures var r := CheckDeclared(CleanTemplates(w.provider, now - cfg.retentionMs), job);
      && (r.Ok? <==> Fits(cfg, w, job, now))
      && (r.Ok? ==>
            var t := w.provider.templates[w.provider.latest.value];
            && r.value.job == job && r.value.template == t
            && AreMissing(t.transactions, job.wtxids, r.value.unknown))
  {
    CleanKeepsLatest(cfg, w.provider, now);
    AllDistinctIs(job.wtxids);
    if Fits(cfg, w, job, now) {
      var t := w.provider.templates[w.provider.latest.value];
      UnknownPositionsAre(t.transactions, job.wtxids, |job.wtxids|);
    }
  }

  /** The positions of the hashes the template does not list, in order. */
  ghost predicate AreMissing(es: seq<Entry>, hashes: seq<bytes>, positions: seq<nat>)
  {
    && (forall a, b :: 0 <= a < b < |positions| ==> positions[a] < positions[b])
    && (forall i: nat :: i in positions <==> i < |hashes| && !Listed(es, hashes[i]))
  }

  lemma NoneMissing(es: seq<Entry>, hashes: seq<bytes>, positions: seq<nat>)
    requires AreMissing(es, hashes, positions)
    ensures positions == [] <==> forall i :: 0 <= i < |hashes| ==> Listed(es, hashes[i])
  {
    if positions != [] { assert positions[0] in positions; }
  }

  /** A declaration succeeds at once if and only if it fits the latest template, that template
      lists every hash, and the token allows it; the job declared is the job sent. */
  lemma DeclareSucceedsIff(cfg: Config, w: World, job: Job, token: bytes, now: int)
    ensures var (w', reply) := StepDeclare(cfg, w, job, token, now);
      && (reply.DeclareSuccess? <==>
            && Fits(cfg, w, job, now) && Allowed(cfg, w.registry, job, now)
            && var t := w.provider.templates[w.provider.latest.value];
               forall i :: 0 <= i < |job.wtxids| ==> Listed(t.transactions, job.wtxids[i]))
      && (reply.DeclareSuccess? ==>
            var t := w.provider.templates[w.provider.latest.value];
            && reply == DeclareSuccess(job.requestId, token)
            && w'.conn.latest == Some(
                 Declared(job.token, token, w.registry.issued[job.token].user, job, t.id, Some(t), [], now)))
  {
    if w.conn.declareTxData {
      CheckedIff(cfg, w, job, now);
      if Fits(cfg, w, job, now) {
        var t := w.provider.templates[w.provider.latest.value];
        var pending := CheckDeclared(CleanTemplates(w.provider, now - cfg.retentionMs), job).value;
        NoneMissing(t.transactions, job.wtxids, pending.unknown);
      }
    }
  }

  /** It asks for transactions if and only if it fits and the template does not list them all;
      it asks for exactly those, and remembers the job with the template it was checked against. */
  lemma DeclareAsksIff(cfg: Config, w: World, job: Job, token: bytes, now: int)
    ensures var (w', reply) := StepDeclare(cfg, w, job, token, now);
      && (reply.ProvideMissing? <==>
            && Fits(cfg, w, job, now)
            && var t := w.provider.templates[w.provider.latest.value];
               exists i :: 0 <= i < |job.wtxids| && !Listed(t.transactions, job.wtxids[i]))
      && (reply.ProvideMissing? ==>
            var t := w.provider.templates[w.provider.latest.value];
            && reply.requestId == job.requestId && AreMissing(t.transactions, job.wtxids, reply.positions)
            && w'.conn.pending == w.conn.pending[job.requestId := Pending(job, t, reply.positions)])
  {
    if w.conn.declareTxData {
      CheckedIff(cfg, w, job, now);
      if Fits(cfg, w, job, now) {
        var t := w.provider.templates[w.provider.latest.value];
        var pending := CheckDeclared(CleanTemplates(w.provider, now - cfg.retentionMs), job).value;
        NoneMissing(t.transactions, job.wtxids, pending.unknown);
      }
    }
  }

  /** The first of these to hold is the error that is answered: declarations were not negotiated;
      there is no template; its version is another; the coinbase has not its height; a hash stands
      twice. */
  lemma DeclareErrors(cfg: Config, w: World, job: Job, token: bytes, now: int)
    ensures var reply := StepDeclare(cfg, w, job, token, now).1;
      if !w.conn.declareTxData then reply == DeclareError(job.requestId, NotNegotiated)
      else if !HasTemplate(cfg, w.provider, now) then reply == DeclareError(job.requestId, TemplateNotFound)
      else
      var t := w.provider.templates[w.provider.latest.value];
      if job.version != t.version then reply == DeclareError(job.requestId, VersionMismatch)
      else if !PrefixHeightOk(job.prefix, t.height) then reply == DeclareError(job.requestId, BadCoinbaseHeight)
      else if !NoHashTwice(job.wtxids) then reply == DeclareError(job.requestId, DuplicateTransactions)
      else reply.DeclareError? ==>
        reply.requestId == job.requestId && reply.error in {InvalidToken, InvalidOutputs, OutputMismatch}
  {
    CleanKeepsLatest(cfg, w.provider, now);
    AllDistinctIs(job.wtxids);
  }

  /** The transactions sent are those asked for, in the same order: as many, each decoding to the
      hash declared at its position. */
  ghost predicate Answered(D: Decoder, p: Pending, txs: seq<bytes>)
  {
    && |txs| == |p.unknown|
    && forall i :: 0 <= i < |txs| ==>
         && D.parser.wtxid(txs[i]).Some? && p.unknown[i] < |p.job.wtxids|
         && SameHash(p.job.wtxids[p.unknown[i]], D.parser.wtxid(txs[i]).value)
  }

  /** A declaration that was missing transactions succeeds if and only if they were sent as asked,
      the mempool takes them, if there are any, and the token still allows the job. */
  lemma ProvideSucceedsIff(D: Decoder, cfg: Config, w: World, index: nat, accepts: bool, token: bytes, now: int)
    requires Inv(D, w) && index < |w.conn.inFlight|
    ensures var (w', reply) := StepEndProvide(cfg, w, index, accepts, token, now);
      var f := w.conn.inFlight[index];
      && (reply.DeclareSuccess? <==>
            Answered(D, f.pending, f.txs) && (f.txs == [] || accepts) && Allowed(cfg, w.registry, f.pending.job, now))
      && (reply.DeclareSuccess? ==>
            && reply == DeclareSuccess(f.requestId, token)
            && w'.conn.latest == Some(
                 Declared(f.pending.job.token, token, w.registry.issued[f.pending.job.token].user, f.pending.job,
                          f.pending.template.id, Some(f.pending.template), f.txs, now)))
  {
    var f := w.conn.inFlight[index];
    assert InFlightOk(D, f);
  }

  /** Whatever is answered, the request is neither pending nor in flight any longer, and every
      other request is where it was. */
  lemma ProvideIsOver(cfg: Config, w: World, index: nat, accepts: bool, token: bytes, now: int)
    requires index < |w.conn.inFlight|
    ensures var (w', reply) := StepEndProvide(cfg, w, index, accepts, token, now);
      && w'.conn.inFlight == w.conn.inFlight[..index] + w.conn.inFlight[index + 1..]
      && (forall id :: id in w'.conn.pending <==> id in w.conn.pending && id != w.conn.inFlight[index].requestId)
      && (forall id :: id in w'.conn.pending ==> w'.conn.pending[id] == w.conn.pending[id])
      && w'.conn.submitted == w.conn.submitted && w'.provider == w.provider
  {
  }

  /** Transactions for a request that is pending are checked against it and then wait for the
      mempool, with the request still pending; for any other request nothing changes. */
  lemma ProvideBegins(D: Decoder, w: World, requestId: nat, txs: seq<bytes>)
    requires Inv(D, w)
    ensures var (w', reply) := StepBeginProvide(D, w, requestId, txs);
      && (requestId !in w.conn.pending ==> w' == w && reply == DeclareError(requestId, UnknownRequest))
      && (requestId in w.conn.pending ==>
            && reply == Silent && |w'.conn.inFlight| == |w.conn.inFlight| + 1
            && w'.conn.inFlight[..|w.conn.inFlight|] == w.conn.inFlight
            && w'.conn.pending == w.conn.pending
            && var f, p := w'.conn.inFlight[|w.conn.inFlight|], w.conn.pending[requestId];
               && f.requestId == requestId && f.pending == p && f.txs == txs
               && (f.check.CountMismatch? <==> |txs| != |p.unknown|)
               && (f.check.ProvidedFine? <==> Answered(D, p, txs)))
  {
    if requestId in w.conn.pending { assert PendingOk(D, w.conn.pending[requestId]); }
  }

  /** A token is issued for its user and outputs from now on; of the others those that have not
      expired stay as they were. */
  lemma TokenIssued(D: Decoder, cfg: Config, w: World, user: string, outputs: bytes, token: bytes, now: int)
    ensures var (w', reply) := Step(D, cfg, w, Allocate(user, outputs, token), now);
      var before, after := w.registry, w'.registry;
      && reply == TokenAllocated(token) && w'.conn == w.conn && w'.provider == w.provider
      && token in after.issued && after.issued[token] == Allocated(user, outputs, now)
      && (forall k :: k != token ==>
            && (k in after.issued <==> k in before.issued && before.issued[k].createdAt >= now - cfg.tokenTtlMs)
            && (k in after.issued ==> after.issued[k] == before.issued[k]))
      && (forall k :: k in after.declared <==>
            k in before.declared && before.declared[k].createdAt >= now - cfg.tokenTtlMs)
  {
  }

  /** A decodable template becomes the latest one; any other leaves the latest, unless that has
      expired. All templates that have not expired stay. */
  lemma TemplateArrives(D: Decoder, cfg: Config, w: World, t: Template, now: int)
    ensures var w' := Step(D, cfg, w, NewTemplate(t), now).0;
      var kept := Latest(w.provider).Some? && Latest(w.provider).value.createdAt >= t.createdAt - cfg.retentionMs;
      && (Decodable(D, t.transactions) ==> Latest(w'.provider) == Some(t))
      && (!Decodable(D, t.transactions) ==>
            Latest(w'.provider) == if kept then Latest(w.provider) else None)
      && (forall id :: id != t.id ==>
            (id in w'.provider.templates <==>
              id in w.provider.templates && w.provider.templates[id].createdAt >= t.createdAt - cfg.retentionMs))
      && w'.registry == w.registry && w'.conn == w.conn
  {
  }

  // ---- solutions ----

  /** A solution is submitted if and only if it is new, the coinbase around its extranonce decodes
      to one input, and that input's script starts with the template's height. The block submitted
      carries the solution's own version, time, bits and nonce, the template's previous hash, that
      coinbase, and the declared transactions in their order. */
  lemma PushSubmitsIff(D: Decoder, w: World, s: Solution)
    requires Inv(D, w) && w.conn.latest.Some?
    ensures var d, o := w.conn.latest.value, Push(D, w, s);
      var coinbase := d.job.prefix + s.extranonce + d.job.suffix;
      var scripts := D.inputScripts(coinbase);
      && (o.Submitted? <==>
            && s !in w.conn.submitted && scripts.Some? && |scripts.value| == 1
            && HeightPrefix(d.template.value.height) <= scripts.value[0])
      && (o.Submitted? ==>
            && o.solution == s && o.block.version == s.version && o.block.ntime == s.ntime
            && o.block.nBits == s.nBits && o.block.nonce == s.nonce
            && o.block.prevHash == d.template.value.prevHash && o.block.coinbase == coinbase
            && AnswersInOrder(d.job.wtxids, o.block.transactions))
  {
    DeclaredJobBuilds(D, w.conn.latest.value, s);
  }

  /** Before any declaration there is no job to solve; a solution submitted before is not
      submitted again; and only submitted solutions are remembered. */
  lemma PushRemembers(D: Decoder, w: World, s: Solution, t: Solution)
    ensures var (w', reply) := StepPush(D, w, s);
      && reply.Pushed?
      && (w.conn.latest.None? <==> reply.outcome.NoJob?)
      && (w.conn.latest.Some? && s in w.conn.submitted <==> reply.outcome.Repeated?)
      && (t in w'.conn.submitted <==> t in w.conn.submitted || (t == s && reply.outcome.Submitted?))
      && w'.conn.latest == w.conn.latest && w'.conn.pending == w.conn.pending
  {
    var outcome := Push(D, w, s);
    if w.conn.latest.Some? {
      var d := w.conn.latest.value;
      if TemplateOf(w.provider, d).Some? {
        assert var built := BuildBlock(D, TemplateOf(w.provider, d).value, d, s); !built.NoJob? && !built.Repeated?;
      }
    }
  }
}
