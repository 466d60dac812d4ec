/**
 The octets of three Job Declaration messages where their readers expect them: each field behind
 the one before it, in the order the source gives them (src/models/sv2/sv2-jdp-messages.ts),
 stated without the codec.
 */
module Sv2Layout {
  import opened Bytes
  import opened BinaryCodec
  import opened Sv2Buffers
  import opened Sv2Messages

  // ---- one field, and the octets behind it ----

  /** Four octets, the least significant first. */
  predicate LongThen(w: bytes, n: int, rest: bytes)
  {
    |w| >= 4 && LongAt(w, 0) == n && w[4..] == rest
  }

  predicate WordThen(w: bytes, n: int, rest: bytes)
  {
    |w| >= 2 && WordAt(w, 0) == n && w[2..] == rest
  }

  predicate OctetThen(w: bytes, n: int, rest: bytes)
  {
    |w| >= 1 && OctetAt(w, 0) == n && w[1..] == rest
  }

  /** Octets behind their length in one octet. */
  predicate ShortThen(w: bytes, b: bytes, rest: bytes)
  {
    |w| >= 1 + |b| && OctetAt(w, 0) == |b| && w[1..1 + |b|] == b && w[1 + |b|..] == rest
  }

  /** Octets behind their length in two octets. */
  predicate MediumThen(w: bytes, b: bytes, rest: bytes)
  {
    |w| >= 2 + |b| && WordAt(w, 0) == |b| && w[2..2 + |b|] == b && w[2 + |b|..] == rest
  }

  /** Octets behind their length in three octets. */
  predicate LargeThen(w: bytes, b: bytes, rest: bytes)
  {
    && |w| >= 3 + |b| && WordAt(w, 0) + 65536 * OctetAt(w, 2) == |b|
    && w[3..3 + |b|] == b && w[3 + |b|..] == rest
  }

  predicate HashThen(w: bytes, h: bytes, rest: bytes)
  {
    |w| >= 32 && w[..32] == h && w[32..] == rest
  }

  /** Hashes of thirty-two octets, one behind the other. */
  predicate HashesThen(w: bytes, hashes: seq<bytes>, rest: bytes)
  {
    if hashes == [] then w == rest
    else |w| >= 32 && w[..32] == hashes[0] && HashesThen(w[32..], hashes[1..], rest)
  }

  /** Transactions, each behind its length in three octets. */
  predicate TransactionsThen(w: bytes, txs: seq<bytes>, rest: bytes)
  {
    if txs == [] then w == rest
    else
      && |w| >= 3 + |txs[0]|
      && LargeThen(w, txs[0], w[3 + |txs[0]|..]) && TransactionsThen(w[3 + |txs[0]|..], txs[1..], rest)
  }

  // ---- what the codec writes for each ----

  lemma LongField(n: u32, rest: bytes)
    ensures LongThen(Encode(U32, Num(n)) + rest, n, rest)
  {
    FourOctets(n);
    Prefix(LE(n, 4), rest);
  }

  lemma Prefix(word: bytes, rest: bytes)
    ensures |word| >= 4 ==> LongAt(word + rest, 0) == LongAt(word, 0)
    ensures |word| >= 2 ==> WordAt(word + rest, 0) == WordAt(word, 0)
    ensures |word| >= 3 ==> OctetAt(word + rest, 2) == OctetAt(word, 2)
  {
  }

  lemma ShortField(b: bytes, rest: bytes)
    requires |b| <= 255
    ensures ShortThen(Encode(B0_255, Octets(b)) + rest, b, rest)
  {
    assert LE(|b|, 1) == [|b|];
    assert Encode(B0_255, Octets(b)) + rest == [|b|] + b + rest;
  }

  lemma MediumField(b: bytes, rest: bytes)
    requires |b| <= 65535
    ensures MediumThen(Encode(B0_64K, Octets(b)) + rest, b, rest)
  {
    TwoOctets(|b|);
    Prefix(LE(|b|, 2), b + rest);
    assert Encode(B0_64K, Octets(b)) + rest == LE(|b|, 2) + (b + rest);
  }

  lemma LargeField(b: bytes, rest: bytes)
    requires |b| <= 16777215
    ensures LargeThen(Encode(B0_16M, Octets(b)) + rest, b, rest)
  {
    ThreeOctets(|b|);
    Prefix(LE(|b|, 3), b + rest);
    assert Encode(B0_16M, Octets(b)) + rest == LE(|b|, 3) + (b + rest);
  }

  lemma BlobsTail(items: seq<bytes>)
    requires items != []
    ensures Blobs(items)[0] == Octets(items[0]) && Blobs(items)[1..] == Blobs(items[1..])
  {
  }

  lemma {:induction false} HashesField(hashes: seq<bytes>, rest: bytes)
    requires forall i :: 0 <= i < |hashes| ==> |hashes[i]| == 32
    ensures HashesThen(EncodeItems(U256, Blobs(hashes)) + rest, hashes, rest)
  {
    if hashes != [] {
      BlobsTail(hashes);
      var tail := EncodeItems(U256, Blobs(hashes[1..])) + rest;
      assert EncodeItems(U256, Blobs(hashes)) + rest == hashes[0] + tail;
      HashesField(hashes[1..], rest);
    }
  }

  lemma {:induction false} TransactionsField(txs: seq<bytes>, rest: bytes)
    requires forall i :: 0 <= i < |txs| ==> |txs[i]| <= 16777215
    ensures TransactionsThen(EncodeItems(B0_16M, Blobs(txs)) + rest, txs, rest)
  {
    if txs != [] {
      BlobsTail(txs);
      var tail := EncodeItems(B0_16M, Blobs(txs[1..])) + rest;
      assert EncodeItems(B0_16M, Blobs(txs)) + rest == Encode(B0_16M, Octets(txs[0])) + tail;
      LargeField(txs[0], tail);
      TransactionsField(txs[1..], rest);
    }
  }

  lemma CountedField(k: Kind, items: seq<bytes>, rest: bytes)
    requires |items| <= 65535
    ensures WordThen(Encode(Seq0_64K(k), List(Blobs(items))) + rest, |items|, EncodeItems(k, Blobs(items)) + rest)
  {
    TwoOctets(|items|);
    var tail := EncodeItems(k, Blobs(items)) + rest;
    Prefix(LE(|items|, 2), tail);
    assert Encode(Seq0_64K(k), List(Blobs(items))) + rest == LE(|items|, 2) + tail;
  }

  lemma FewField(k: Kind, items: seq<bytes>, rest: bytes)
    requires |items| <= 255
    ensures OctetThen(Encode(Seq0_255(k), List(Blobs(items))) + rest, |items|, EncodeItems(k, Blobs(items)) + rest)
  {
    FewEncoded(k, Blobs(items));
    Regroup([|items|], EncodeItems(k, Blobs(items)), rest);
  }

  lemma FewEncoded(k: Kind, vs: seq<Value>)
    requires |vs| <= 255
    ensures Encode(Seq0_255(k), List(vs)) == [|vs|] + EncodeItems(k, vs)
  {
    assert LE(|vs|, 1) == [|vs|];
  }

  // ---- the messages ----

  /** Request, token, version, the two parts of the coinbase, the counted transaction ids, the
      excess data: and then whatever follows the message. */
  lemma DeclareMiningJobLayout(m: DeclareMiningJob, rest: bytes)
    returns (token: bytes, version: bytes, prefix: bytes, suffix: bytes, count: bytes, ids: bytes, excess: bytes)
    requires m.Sendable()
    ensures LongThen(m.Wire() + rest, m.requestId, token)
    ensures ShortThen(token, m.miningJobToken, version)
    ensures LongThen(version, m.version, prefix)
    ensures MediumThen(prefix, m.coinbaseTxPrefix, suffix)
    ensures MediumThen(suffix, m.coinbaseTxSuffix, count)
    ensures WordThen(count, |m.wtxidList|, ids) && HashesThen(ids, m.wtxidList, excess)
    ensures MediumThen(excess, m.excessData, rest)
  {
    var f1, f2 := Encode(U32, Num(m.requestId)), Encode(B0_255, Octets(m.miningJobToken));
    var f3, f4 := Encode(U32, Num(m.version)), Encode(B0_64K, Octets(m.coinbaseTxPrefix));
    var f5, f6 := Encode(B0_64K, Octets(m.coinbaseTxSuffix)), Encode(Seq0_64K(U256), List(Blobs(m.wtxidList)));
    var f7 := Encode(B0_64K, Octets(m.excessData));
    RegroupSeven(f1, f2, f3, f4, f5, f6, f7, rest);
    excess := f7 + rest;
    ids, count := EncodeItems(U256, Blobs(m.wtxidList)) + excess, f6 + excess;
    suffix := f5 + count;
    prefix := f4 + suffix;
    version := f3 + prefix;
    token := f2 + version;
    LongField(m.requestId, token);
    ShortField(m.miningJobToken, version);
    LongField(m.version, prefix);
    MediumField(m.coinbaseTxPrefix, suffix);
    MediumField(m.coinbaseTxSuffix, count);
    CountedField(U256, m.wtxidList, excess);
    HashesField(m.wtxidList, excess);
    MediumField(m.excessData, rest);
  }

  lemma ProvideMissingTransactionsSuccessLayout(m: ProvideMissingTransactionsSuccess, rest: bytes)
    returns (count: bytes, txs: bytes)
    requires m.Sendable()
    ensures LongThen(m.Wire() + rest, m.requestId, count)
    ensures WordThen(count, |m.transactionList|, txs) && TransactionsThen(txs, m.transactionList, rest)
  {
    var f1, f2 := Encode(U32, Num(m.requestId)), Encode(Seq0_64K(B0_16M), List(Blobs(m.transactionList)));
    Regroup(f1, f2, rest);
    count, txs := f2 + rest, EncodeItems(B0_16M, Blobs(m.transactionList)) + rest;
    LongField(m.requestId, count);
    CountedField(B0_16M, m.transactionList, rest);
    TransactionsField(m.transactionList, rest);
  }

  /** Channel, request, token, version, previous hash, least time, bits; and then the coinbase. */
  lemma CustomJobLayout(m: SetCustomMiningJob, rest: bytes)
    returns (request: bytes, token: bytes, version: bytes, prevHash: bytes, ntime: bytes, bits: bytes)
    requires m.Sendable()
    ensures LongThen(m.Wire() + rest, m.channelId, request)
    ensures LongThen(request, m.requestId, token)
    ensures ShortThen(token, m.token, version)
    ensures LongThen(version, m.version, prevHash)
    ensures HashThen(prevHash, m.prevHash, ntime)
    ensures LongThen(ntime, m.minNtime, bits)
    ensures LongThen(bits, m.nBits, CoinbaseTail(m, rest))
  {
    SetCustomMiningJobWire(m, rest);
    bits := Encode(U32, Num(m.nBits)) + CoinbaseTail(m, rest);
    ntime := Encode(U32, Num(m.minNtime)) + bits;
    prevHash := Encode(U256, Octets(m.prevHash)) + ntime;
    version := Encode(U32, Num(m.version)) + prevHash;
    token := Encode(B0_255, Octets(m.token)) + version;
    request := Encode(U32, Num(m.requestId)) + token;
    LongField(m.channelId, request);
    LongField(m.requestId, token);
    ShortField(m.token, version);
    LongField(m.version, prevHash);
    assert Encode(U256, Octets(m.prevHash)) == m.prevHash;
    LongField(m.minNtime, bits);
    LongField(m.nBits, CoinbaseTail(m, rest));
  }

  /** The coinbase of a custom job: version, prefix, sequence, outputs, lock time, and the
      counted path. */
  lemma CustomCoinbaseLayout(m: SetCustomMiningJob, rest: bytes)
    returns (prefix: bytes, sequence: bytes, outputs: bytes, locktime: bytes, count: bytes, path: bytes)
    requires m.Sendable()
    ensures LongThen(CoinbaseTail(m, rest), m.coinbaseTxVersion, prefix)
    ensures ShortThen(prefix, m.coinbasePrefix, sequence)
    ensures LongThen(sequence, m.coinbaseTxInputNSequence, outputs)
    ensures MediumThen(outputs, m.coinbaseTxOutputs, locktime)
    ensures LongThen(locktime, m.coinbaseTxLocktime, count)
    ensures OctetThen(count, |m.merklePath|, path) && HashesThen(path, m.merklePath, rest)
  {
    path := EncodeItems(U256, Blobs(m.merklePath)) + rest;
    count := Encode(Seq0_255(U256), List(Blobs(m.merklePath))) + rest;
    locktime := Encode(U32, Num(m.coinbaseTxLocktime)) + count;
    outputs := Encode(B0_64K, Octets(m.coinbaseTxOutputs)) + locktime;
    sequence := Encode(U32, Num(m.coinbaseTxInputNSequence)) + outputs;
    prefix := Encode(B0_255, Octets(m.coinbasePrefix)) + sequence;
    LongField(m.coinbaseTxVersion, prefix);
    ShortField(m.coinbasePrefix, sequence);
    LongField(m.coinbaseTxInputNSequence, outputs);
    MediumField(m.coinbaseTxOutputs, locktime);
    LongField(m.coinbaseTxLocktime, count);
    FewField(U256, m.merklePath, rest);
    HashesField(m.merklePath, rest);
  }
}
