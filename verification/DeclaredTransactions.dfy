/**
 Matching declared transaction hashes against a template and against transactions sent
 later (src/services/template-provider.service.ts). A hash is accepted in either byte
 order, so every table is keyed by a hash and by its reversal.
 */
module DeclaredTransactions {
  import opened Bytes

  function Reverse(h: bytes): (r: bytes)
    ensures |r| == |h|
    ensures forall i :: 0 <= i < |h| ==> r[i] == h[|h| - 1 - i]
  {
    seq(|h|, i requires 0 <= i < |h| => h[|h| - 1 - i])
  }

  lemma ReverseTwice(h: bytes)
    ensures Reverse(Reverse(h)) == h
  {
  }

  /** Equal up to byte order. */
  predicate SameHash(a: bytes, b: bytes)
  {
    a == b || a == Reverse(b)
  }

  lemma SameHashIsEquivalence(a: bytes, b: bytes, c: bytes)
    ensures SameHash(a, a)
    ensures SameHash(a, b) ==> SameHash(b, a)
    ensures SameHash(a, b) && SameHash(b, c) ==> SameHash(a, c)
    ensures SameHash(a, Reverse(a)) && SameHash(Reverse(a), a)
  {
    ReverseTwice(a);
    ReverseTwice(b);
    ReverseTwice(c);
  }

  function Aliases(h: bytes): (a: seq<bytes>)
    ensures forall x :: x in a <==> SameHash(x, h)
  {
    if h == Reverse(h) then [h] else [h, Reverse(h)]
  }

  /** A transaction with the hash it is listed under. */
  datatype Entry = Entry(wtxid: bytes, data: bytes)

  type HashMap = map<bytes, Entry>

  function Put(m: HashMap, e: Entry): HashMap
  {
    m[e.wtxid := e][Reverse(e.wtxid) := e]
  }

  /** The table of a list of transactions; a later one overwrites an earlier one. */
  function Table(es: seq<Entry>): HashMap
  {
    if es == [] then map[] else Put(Table(es[..|es| - 1]), es[|es| - 1])
  }

  function Lookup(m: HashMap, h: bytes): Option<Entry>
  {
    if h in m then Some(m[h]) else if Reverse(h) in m then Some(m[Reverse(h)]) else None
  }

  ghost predicate Listed(es: seq<Entry>, h: bytes)
  {
    exists k :: 0 <= k < |es| && SameHash(h, es[k].wtxid)
  }

  lemma PutKeys(m: HashMap, e: Entry, h: bytes)
    ensures h in Put(m, e) <==> h in m || SameHash(h, e.wtxid)
    ensures SameHash(h, e.wtxid) ==> Put(m, e)[h] == e
    ensures h in m && !SameHash(h, e.wtxid) ==> Put(m, e)[h] == m[h]
  {
  }

  /** A table knows exactly the hashes its transactions are listed under, in either byte
      order, and answers with a transaction so listed. */
  lemma {:induction false} TableKeys(es: seq<Entry>, h: bytes)
    ensures h in Table(es) <==> Listed(es, h)
    ensures h in Table(es) ==> Table(es)[h] in es && SameHash(h, Table(es)[h].wtxid)
  {
    if es != [] {
      var last := |es| - 1;
      var front, m := es[..last], Table(es[..last]);
      TableKeys(front, h);
      PutKeys(m, es[last], h);
      assert es == front + [es[last]];
      if Listed(front, h) {
        var k :| 0 <= k < |front| && SameHash(h, front[k].wtxid);
        assert es[k] == front[k];
      }
      if Listed(es, h) {
        var k :| 0 <= k < |es| && SameHash(h, es[k].wtxid);
        if k < last { assert front[k] == es[k]; }
      }
    }
  }

  /** A lookup finds a transaction exactly when one is listed, and only such a one. */
  lemma LookupFinds(es: seq<Entry>, h: bytes)
    ensures Lookup(Table(es), h).Some? <==> Listed(es, h)
    ensures Lookup(Table(es), h).Some? ==>
      Lookup(Table(es), h).value in es && SameHash(h, Lookup(Table(es), h).value.wtxid)
  {
    TableKeys(es, h);
    TableKeys(es, Reverse(h));
    ReverseTwice(h);
    if Listed(es, Reverse(h)) {
      var k :| 0 <= k < |es| && SameHash(Reverse(h), es[k].wtxid);
      SameHashIsEquivalence(h, Reverse(h), es[k].wtxid);
      assert Listed(es, h);
    }
    if Reverse(h) in Table(es) {
      SameHashIsEquivalence(h, Reverse(h), Table(es)[Reverse(h)].wtxid);
    }
  }

  lemma ListedGrows(es: seq<Entry>, more: seq<Entry>, h: bytes)
    ensures Listed(es + more, h) <==> Listed(es, h) || Listed(more, h)
  {
    if Listed(es, h) {
      var k :| 0 <= k < |es| && SameHash(h, es[k].wtxid);
      assert (es + more)[k] == es[k];
    }
    if Listed(more, h) {
      var k :| 0 <= k < |more| && SameHash(h, more[k].wtxid);
      assert (es + more)[|es| + k] == more[k];
    }
    if Listed(es + more, h) {
      var k :| 0 <= k < |es + more| && SameHash(h, (es + more)[k].wtxid);
      if k < |es| {
        assert es[k] == (es + more)[k];
      } else {
        assert more[k - |es|] == (es + more)[k];
      }
    }
  }

  method BuildMap(es: seq<Entry>) returns (m: HashMap)
    ensures m == Table(es)
  {
    m := map[];
    for i := 0 to |es|
      invariant m == Table(es[..i])
    {
      assert es[..i + 1][..i] == es[..i];
      m := m[es[i].wtxid := es[i]];
      m := m[Reverse(es[i].wtxid) := es[i]];
    }
    assert es[..|es|] == es;
  }

  // ---- a declaration ----

  ghost predicate Repeats(hashes: seq<bytes>, i: nat)
    requires i < |hashes|
  {
    exists j :: 0 <= j < i && SameHash(hashes[j], hashes[i])
  }

  /** No two hashes are equal up to byte order. */
  ghost predicate AllDistinct(hashes: seq<bytes>)
  {
    forall i :: 0 <= i < |hashes| ==> !Repeats(hashes, i)
  }

  ghost predicate Unknown(es: seq<Entry>, hashes: seq<bytes>, i: nat)
    requires i < |hashes|
  {
    Repeats(hashes, i) || !Listed(es, hashes[i])
  }

  ghost predicate Increasing(positions: seq<nat>)
  {
    forall a, b :: 0 <= a < b < |positions| ==> positions[a] < positions[b]
  }

  /** The positions reported back: all unknown ones, in order. */
  ghost predicate AreUnknown(es: seq<Entry>, hashes: seq<bytes>, n: nat, positions: seq<nat>)
    requires n <= |hashes|
  {
    && Increasing(positions)
    && (forall p :: p in positions ==> p < n)
    && (forall i :: 0 <= i < n ==> (i in positions <==> Unknown(es, hashes, i)))
  }

  ghost predicate SeenBelow(hashes: seq<bytes>, n: nat, seen: set<bytes>)
    requires n <= |hashes|
  {
    forall h :: h in seen <==> exists j :: 0 <= j < n && SameHash(h, hashes[j])
  }

  ghost predicate RepeatsBelow(hashes: seq<bytes>, n: nat)
    requires n <= |hashes|
  {
    exists i :: 0 <= i < n && Repeats(hashes, i)
  }

  /** The positions as the loop collects them. */
  ghost function UnknownPositions(es: seq<Entry>, hashes: seq<bytes>, n: nat): seq<nat>
    requires n <= |hashes|
  {
    if n == 0 then []
    else
      var before := UnknownPositions(es, hashes, n - 1);
      if Unknown(es, hashes, n - 1) then before + [n - 1] else before
  }

  lemma {:induction false} UnknownPositionsAre(es: seq<Entry>, hashes: seq<bytes>, n: nat)
    requires n <= |hashes|
    ensures AreUnknown(es, hashes, n, UnknownPositions(es, hashes, n))
  {
    if n > 0 {
      UnknownPositionsAre(es, hashes, n - 1);
      UnknownStep(es, hashes, n - 1, UnknownPositions(es, hashes, n - 1));
    }
  }

  lemma UnknownStep(es: seq<Entry>, hashes: seq<bytes>, n: nat, positions: seq<nat>)
    requires n < |hashes| && AreUnknown(es, hashes, n, positions)
    ensures Unknown(es, hashes, n) ==> AreUnknown(es, hashes, n + 1, positions + [n])
    ensures !Unknown(es, hashes, n) ==> AreUnknown(es, hashes, n + 1, positions)
  {
    var more := positions + [n];
    assert forall p :: p in more <==> p in positions || p == n;
    forall a, b | 0 <= a < b < |more| ensures more[a] < more[b] {
      assert more[a] == positions[a] && more[a] in positions;
    }
  }

  datatype Declaration = Declaration(duplicates: bool, unknown: seq<nat>)

  /** The tables' own walk over a declared list. */
  method CheckDeclaredHashes(es: seq<Entry>, wtxidMap: HashMap, hashes: seq<bytes>) returns (d: Declaration)
    requires wtxidMap == Table(es)
    ensures d.duplicates <==> !AllDistinct(hashes)
    ensures d.unknown == UnknownPositions(es, hashes, |hashes|)
  {
    var seen: set<bytes> := {};
    var unknown: seq<nat> := [];
    var duplicateFound := false;
    for index := 0 to |hashes|
      invariant SeenBelow(hashes, index, seen)
      invariant duplicateFound <==> RepeatsBelow(hashes, index)
      invariant unknown == UnknownPositions(es, hashes, index)
    {
      var wtxid := hashes[index];
      var seenBefore := SeenAlias(seen, hashes, index);
      PositionsStep(es, hashes, index);
      RepeatsStep(hashes, index);
      if seenBefore {
        duplicateFound := true;
        unknown := unknown + [index];
        SeenGrows(hashes, index, seen);
      } else {
        SeenGrows(hashes, index, seen);
        seen := seen + (set x | x in Aliases(wtxid));
        if Lookup(wtxidMap, wtxid).None? {
          unknown := unknown + [index];
        }
      }
    }
    RepeatsAnywhere(hashes);
    d := Declaration(duplicateFound, unknown);
  }

  lemma RepeatsAnywhere(hashes: seq<bytes>)
    ensures RepeatsBelow(hashes, |hashes|) <==> !AllDistinct(hashes)
  {
  }

  lemma PositionsStep(es: seq<Entry>, hashes: seq<bytes>, n: nat)
    requires n < |hashes|
    ensures UnknownPositions(es, hashes, n + 1) == UnknownPositions(es, hashes, n)
      + (if Repeats(hashes, n) || Lookup(Table(es), hashes[n]).None? then [n] else [])
  {
    LookupFinds(es, hashes[n]);
  }

  lemma RepeatsStep(hashes: seq<bytes>, n: nat)
    requires n < |hashes|
    ensures RepeatsBelow(hashes, n + 1) <==> RepeatsBelow(hashes, n) || Repeats(hashes, n)
  {
  }

  method SeenAlias(seen: set<bytes>, hashes: seq<bytes>, index: nat) returns (found: bool)
    requires index < |hashes| && SeenBelow(hashes, index, seen)
    ensures found <==> Repeats(hashes, index)
  {
    var h := hashes[index];
    found := h in seen || Reverse(h) in seen;
    forall j | 0 <= j < index
      ensures SameHash(hashes[j], h) <==> SameHash(h, hashes[j])
      ensures SameHash(Reverse(h), hashes[j]) ==> SameHash(hashes[j], h)
    {
      SameHashIsEquivalence(h, Reverse(h), hashes[j]);
      SameHashIsEquivalence(h, hashes[j], h);
      SameHashIsEquivalence(hashes[j], h, h);
    }
  }

  /** Both byte orders of a new hash are remembered; those of a repeated one already were. */
  lemma SeenGrows(hashes: seq<bytes>, index: nat, seen: set<bytes>)
    requires index < |hashes| && SeenBelow(hashes, index, seen)
    ensures SeenBelow(hashes, index + 1, seen + (set x | x in Aliases(hashes[index])))
    ensures Repeats(hashes, index) ==> SeenBelow(hashes, index + 1, seen)
  {
    if Repeats(hashes, index) { RepeatIsSeen(hashes, index, seen); }
  }

  lemma RepeatIsSeen(hashes: seq<bytes>, index: nat, seen: set<bytes>)
    requires index < |hashes| && SeenBelow(hashes, index, seen) && Repeats(hashes, index)
    ensures SeenBelow(hashes, index + 1, seen)
  {
    var j :| 0 <= j < index && SameHash(hashes[j], hashes[index]);
    forall h | SameHash(h, hashes[index]) ensures h in seen {
      SameHashIsEquivalence(hashes[j], hashes[index], h);
      SameHashIsEquivalence(h, hashes[index], hashes[j]);
    }
  }

  // ---- transactions sent later ----

  /** Decoding a raw transaction, as far as its witness hash. */
  datatype Parser = Parser(wtxid: bytes -> Option<bytes>)

  ghost predicate ProvidedOk(P: Parser, hashes: seq<bytes>, unknown: seq<nat>, txs: seq<bytes>)
  {
    && |unknown| == |txs|
    && (forall i :: 0 <= i < |txs| ==> P.wtxid(txs[i]).Some? && unknown[i] < |hashes|)
    && (forall i :: 0 <= i < |txs| ==> SameHash(hashes[unknown[i]], P.wtxid(txs[i]).value))
  }

  datatype ProvidedCheck = ProvidedFine | CountMismatch | DecodeFailed(position: nat) | WtxidMismatch

  function FirstUndecodable(P: Parser, txs: seq<bytes>, i: nat): (r: Option<nat>)
    requires i <= |txs|
    ensures r.None? <==> forall k :: i <= k < |txs| ==> P.wtxid(txs[k]).Some?
    ensures r.Some? ==> i <= r.value < |txs| && P.wtxid(txs[r.value]).None?
    ensures r.Some? ==> forall k :: i <= k < r.value ==> P.wtxid(txs[k]).Some?
    decreases |txs| - i
  {
    if i == |txs| then None
    else if P.wtxid(txs[i]).None? then Some(i)
    else FirstUndecodable(P, txs, i + 1)
  }

  /** Everything checked before the mempool is asked: the count, then that all decode,
      then that each answers its position. */
  ghost function ProvidedResult(P: Parser, hashes: seq<bytes>, unknown: seq<nat>, txs: seq<bytes>): (r: ProvidedCheck)
    ensures r.ProvidedFine? <==> ProvidedOk(P, hashes, unknown, txs)
  {
    if |unknown| != |txs| then CountMismatch
    else
      var bad := FirstUndecodable(P, txs, 0);
      if bad.Some? then DecodeFailed(bad.value)
      else if ProvidedOk(P, hashes, unknown, txs) then ProvidedFine
      else WtxidMismatch
  }

  method CheckProvided(P: Parser, hashes: seq<bytes>, unknown: seq<nat>, txs: seq<bytes>) returns (r: ProvidedCheck)
    ensures r == ProvidedResult(P, hashes, unknown, txs)
  {
    if |unknown| != |txs| {
      return CountMismatch;
    }
    var wtxids: seq<bytes> := [];
    for i := 0 to |txs|
      invariant |wtxids| == i
      invariant forall k :: 0 <= k < i ==> P.wtxid(txs[k]) == Some(wtxids[k])
      invariant FirstUndecodable(P, txs, 0) == FirstUndecodable(P, txs, i)
    {
      var parsed := P.wtxid(txs[i]);
      if parsed.None? {
        return DecodeFailed(i);
      }
      wtxids := wtxids + [parsed.value];
    }
    for i := 0 to |txs|
      invariant forall k :: 0 <= k < i ==> unknown[k] < |hashes| && SameHash(hashes[unknown[k]], wtxids[k])
    {
      if unknown[i] >= |hashes| || hashes[unknown[i]] !in Aliases(wtxids[i]) {
        return WtxidMismatch;
      }
    }
    r := ProvidedFine;
  }

  // ---- the block of a declared job ----

  function Parsed(P: Parser, txs: seq<bytes>): (es: seq<Entry>)
    requires forall t :: t in txs ==> P.wtxid(t).Some?
    ensures |es| == |txs|
    ensures forall i :: 0 <= i < |txs| ==> es[i] == Entry(P.wtxid(txs[i]).value, txs[i])
  {
    seq(|txs|, i requires 0 <= i < |txs| => Entry(P.wtxid(txs[i]).value, txs[i]))
  }

  /** Every declared hash finds a transaction listed under it: a known one in the template,
      an unknown one among those sent for it. */
  lemma DeclaredResolve(P: Parser, template: seq<Entry>, hashes: seq<bytes>, unknown: seq<nat>, txs: seq<bytes>, i: nat)
    requires AllDistinct(hashes) && AreUnknown(template, hashes, |hashes|, unknown)
    requires ProvidedOk(P, hashes, unknown, txs)
    requires i < |hashes|
    ensures forall t :: t in txs ==> P.wtxid(t).Some?
    ensures Lookup(Table(template + Parsed(P, txs)), hashes[i]).Some?
    ensures SameHash(hashes[i], Lookup(Table(template + Parsed(P, txs)), hashes[i]).value.wtxid)
  {
    var sent := Parsed(P, txs);
    assert !Repeats(hashes, i);
    if i in unknown {
      var k :| 0 <= k < |unknown| && unknown[k] == i;
      assert sent[k].wtxid == P.wtxid(txs[k]).value;
      assert Listed(sent, hashes[i]);
    } else {
      assert Listed(template, hashes[i]);
    }
    ListedGrows(template, sent, hashes[i]);
    LookupFinds(template + sent, hashes[i]);
  }

  /** The transactions found for a list of hashes, or None for `declared-transaction-not-found`. */
  function Resolve(m: HashMap, hashes: seq<bytes>): Option<seq<Entry>>
  {
    if hashes == [] then Some([])
    else
      var found, rest := Lookup(m, hashes[0]), Resolve(m, hashes[1..]);
      if found.None? || rest.None? then None else Some([found.value] + rest.value)
  }

  lemma {:induction false} ResolveAll(m: HashMap, hashes: seq<bytes>)
    ensures Resolve(m, hashes).Some? <==> forall i :: 0 <= i < |hashes| ==> Lookup(m, hashes[i]).Some?
    ensures Resolve(m, hashes).Some? ==> |Resolve(m, hashes).value| == |hashes|
    ensures Resolve(m, hashes).Some? ==>
      forall i :: 0 <= i < |hashes| ==> Lookup(m, hashes[i]) == Some(Resolve(m, hashes).value[i])
  {
    if hashes != [] {
      var rest := hashes[1..];
      ResolveAll(m, rest);
      assert forall i :: 0 < i < |hashes| ==> hashes[i] == rest[i - 1];
      assert forall i :: 0 <= i < |rest| ==> rest[i] == hashes[i + 1];
    }
  }

  ghost predicate AnswersInOrder(hashes: seq<bytes>, found: seq<Entry>)
  {
    && |found| == |hashes|
    && (forall i :: 0 <= i < |hashes| ==> SameHash(hashes[i], found[i].wtxid))
    && (forall i, j :: 0 <= i < j < |hashes| ==> found[i].wtxid != found[j].wtxid)
  }

  /** What makes a declared job buildable, and what its block then lists: one transaction
      for every declared hash, in order, each its own. */
  lemma DeclaredBuilds(P: Parser, template: seq<Entry>, hashes: seq<bytes>, unknown: seq<nat>, txs: seq<bytes>)
    requires AllDistinct(hashes) && AreUnknown(template, hashes, |hashes|, unknown)
    requires ProvidedOk(P, hashes, unknown, txs)
    ensures forall t :: t in txs ==> P.wtxid(t).Some?
    ensures
      var found := Resolve(Table(template + Parsed(P, txs)), hashes);
      found.Some? && AnswersInOrder(hashes, found.value)
  {
    var m := Table(template + Parsed(P, txs));
    forall i | 0 <= i < |hashes|
      ensures Lookup(m, hashes[i]).Some? && SameHash(hashes[i], Lookup(m, hashes[i]).value.wtxid)
    {
      DeclaredResolve(P, template, hashes, unknown, txs, i);
    }
    ResolveAll(m, hashes);
    var found := Resolve(m, hashes).value;
    forall i, j | 0 <= i < j < |hashes| ensures found[i].wtxid != found[j].wtxid {
      assert !Repeats(hashes, j);
      SameHashIsEquivalence(hashes[i], found[i].wtxid, hashes[j]);
      SameHashIsEquivalence(hashes[j], found[j].wtxid, hashes[i]);
    }
  }

  /** The loop that builds the transaction list of a declared block. */
  method ListDeclared(m: HashMap, hashes: seq<bytes>) returns (found: Option<seq<Entry>>)
    ensures found == Resolve(m, hashes)
  {
    ResolveAll(m, hashes);
    var transactions: seq<Entry> := [];
    for i := 0 to |hashes|
      invariant |transactions| == i
      invariant forall k :: 0 <= k < i ==> Lookup(m, hashes[k]) == Some(transactions[k])
    {
      var transaction := Lookup(m, hashes[i]);
      if transaction.None? {
        return None;
      }
      transactions := transactions + [transaction.value];
    }
    assert transactions == Resolve(m, hashes).value;
    found := Some(transactions);
  }
}
