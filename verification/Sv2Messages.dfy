/**
 Three Job Declaration messages (src/models/sv2/sv2-jdp-messages.ts). Each is written field by
 field and read back field by field, and the two field orders are written down separately, as
 in the source.
 */
module Sv2Messages {
  import opened Bytes
  import opened BinaryCodec
  import opened Sv2Buffers

  /** Fields written one after the other, as they are read. */
  lemma RegroupSeven(a: bytes, b: bytes, c: bytes, d: bytes, e: bytes, f: bytes, g: bytes, rest: bytes)
    ensures a + b + c + d + e + f + g + rest == a + (b + (c + (d + (e + (f + (g + rest))))))
  {
    Regroup(a + b + c + d + e + f, g, rest);
    Regroup(a + b + c + d + e, f, g + rest);
    Regroup(a + b + c + d, e, f + (g + rest));
    Regroup(a + b + c, d, e + (f + (g + rest)));
    Regroup(a + b, c, d + (e + (f + (g + rest))));
    Regroup(a, b, c + (d + (e + (f + (g + rest)))));
  }

  lemma Bounds()
    ensures KindOk(B0_255) && KindOk(B0_64K) && KindOk(B0_16M) && Pow256(1) == 256 && Pow256(2) == 65536
  {
    Powers();
  }

  // ---- DeclareMiningJob ----

  datatype DeclareMiningJob = DeclareMiningJob(
    requestId: u32, miningJobToken: bytes, version: u32, coinbaseTxPrefix: bytes,
    coinbaseTxSuffix: bytes, wtxidList: seq<bytes>, excessData: bytes)
  {
    /** The lengths the wire format allows. */
    ghost predicate Sendable()
    {
      && |miningJobToken| <= 255 && |coinbaseTxPrefix| <= 65535 && |coinbaseTxSuffix| <= 65535
      && |wtxidList| <= 65535 && (forall i :: 0 <= i < |wtxidList| ==> |wtxidList[i]| == 32)
      && |excessData| <= 65535
    }

    function Wire(): bytes
    {
      Encode(U32, Num(requestId)) + Encode(B0_255, Octets(miningJobToken)) + Encode(U32, Num(version))
      + Encode(B0_64K, Octets(coinbaseTxPrefix)) + Encode(B0_64K, Octets(coinbaseTxSuffix))
      + Encode(Seq0_64K(U256), List(Blobs(wtxidList))) + Encode(B0_64K, Octets(excessData))
    }
  }

  method SerializeDeclareMiningJob(m: DeclareMiningJob) returns (r: Option<bytes>)
    ensures r.Some? <==> m.Sendable()
    ensures r.Some? ==> r.value == m.Wire()
  {
    Powers();
    var w := new BufferWriter();
    w.WriteU32(m.requestId);
    assert w.Contents() == Encode(U32, Num(m.requestId));
    var _ :- w.Write(B0_255, Octets(m.miningJobToken));
    w.WriteU32(m.version);
    var _ :- w.Write(B0_64K, Octets(m.coinbaseTxPrefix));
    var _ :- w.Write(B0_64K, Octets(m.coinbaseTxSuffix));
    var _ :- w.Write(Seq0_64K(U256), List(Blobs(m.wtxidList)));
    var _ :- w.Write(B0_64K, Octets(m.excessData));
    var b := w.ToBuffer();
    r := Some(b);
  }

  function ReadDeclareMiningJob(b: bytes): Parsed<DeclareMiningJob>
  {
    var (requestId, b) :- TakeU32(b);
    var (miningJobToken, b) :- TakeOctets(B0_255, b);
    var (version, b) :- TakeU32(b);
    var (coinbaseTxPrefix, b) :- TakeOctets(B0_64K, b);
    var (coinbaseTxSuffix, b) :- TakeOctets(B0_64K, b);
    var (wtxidList, b) :- TakeList(Seq0_64K(U256), b);
    var (excessData, b) :- TakeOctets(B0_64K, b);
    Got(DeclareMiningJob(
      requestId, miningJobToken, version, coinbaseTxPrefix, coinbaseTxSuffix, wtxidList, excessData), b)
  }

  method DeserializeDeclareMiningJob(reader: BufferReader) returns (r: Option<DeclareMiningJob>)
    requires reader.Valid()
    modifies reader`offset
    ensures reader.Valid()
    ensures match ReadDeclareMiningJob(old(reader.Remaining()))
      case OutOfRange => r == None
      case Got(m, rest) => r == Some(m) && reader.Remaining() == rest
  {
    var requestId :- reader.ReadU32();
    var miningJobToken :- reader.ReadOctets(B0_255);
    var version :- reader.ReadU32();
    var coinbaseTxPrefix :- reader.ReadOctets(B0_64K);
    var coinbaseTxSuffix :- reader.ReadOctets(B0_64K);
    var wtxidList :- reader.ReadList(Seq0_64K(U256));
    var excessData :- reader.ReadOctets(B0_64K);
    r := Some(DeclareMiningJob(
      requestId, miningJobToken, version, coinbaseTxPrefix, coinbaseTxSuffix, wtxidList, excessData));
  }

  /** Reading a serialised DeclareMiningJob, whatever follows it, gives the message back and
      stops right behind it. */
  lemma DeclareMiningJobReadsBack(m: DeclareMiningJob, rest: bytes)
    requires m.Sendable()
    ensures ReadDeclareMiningJob(m.Wire() + rest) == Got(m, rest)
  {
    var f1, f2 := Encode(U32, Num(m.requestId)), Encode(B0_255, Octets(m.miningJobToken));
    var f3, f4 := Encode(U32, Num(m.version)), Encode(B0_64K, Octets(m.coinbaseTxPrefix));
    var f5, f6 := Encode(B0_64K, Octets(m.coinbaseTxSuffix)), Encode(Seq0_64K(U256), List(Blobs(m.wtxidList)));
    var f7 := Encode(B0_64K, Octets(m.excessData));
    RegroupSeven(f1, f2, f3, f4, f5, f6, f7, rest);
    Bounds();
    U32Back(m.requestId, f2 + (f3 + (f4 + (f5 + (f6 + (f7 + rest))))));
    OctetsBack(B0_255, m.miningJobToken, f3 + (f4 + (f5 + (f6 + (f7 + rest)))));
    U32Back(m.version, f4 + (f5 + (f6 + (f7 + rest))));
    OctetsBack(B0_64K, m.coinbaseTxPrefix, f5 + (f6 + (f7 + rest)));
    OctetsBack(B0_64K, m.coinbaseTxSuffix, f6 + (f7 + rest));
    ListBack(Seq0_64K(U256), m.wtxidList, f7 + rest);
    OctetsBack(B0_64K, m.excessData, rest);
  }

  // ---- ProvideMissingTransactions.Success ----

  datatype ProvideMissingTransactionsSuccess = ProvideMissingTransactionsSuccess(
    requestId: u32, transactionList: seq<bytes>)
  {
    ghost predicate Sendable()
    {
      |transactionList| <= 65535 && (forall i :: 0 <= i < |transactionList| ==> |transactionList[i]| <= 16777215)
    }

    function Wire(): bytes
    {
      Encode(U32, Num(requestId)) + Encode(Seq0_64K(B0_16M), List(Blobs(transactionList)))
    }
  }

  method SerializeProvideMissingTransactionsSuccess(m: ProvideMissingTransactionsSuccess) returns (r: Option<bytes>)
    ensures r.Some? <==> m.Sendable()
    ensures r.Some? ==> r.value == m.Wire()
  {
    Bounds();
    var w := new BufferWriter();
    w.WriteU32(m.requestId);
    var _ :- w.Write(Seq0_64K(B0_16M), List(Blobs(m.transactionList)));
    var b := w.ToBuffer();
    r := Some(b);
  }

  function ReadProvideMissingTransactionsSuccess(b: bytes): Parsed<ProvideMissingTransactionsSuccess>
  {
    var (requestId, b) :- TakeU32(b);
    var (transactionList, b) :- TakeList(Seq0_64K(B0_16M), b);
    Got(ProvideMissingTransactionsSuccess(requestId, transactionList), b)
  }

  method DeserializeProvideMissingTransactionsSuccess(reader: BufferReader)
    returns (r: Option<ProvideMissingTransactionsSuccess>)
    requires reader.Valid()
    modifies reader`offset
    ensures reader.Valid()
    ensures match ReadProvideMissingTransactionsSuccess(old(reader.Remaining()))
      case OutOfRange => r == None
      case Got(m, rest) => r == Some(m) && reader.Remaining() == rest
  {
    var requestId :- reader.ReadU32();
    var transactionList :- reader.ReadList(Seq0_64K(B0_16M));
    r := Some(ProvideMissingTransactionsSuccess(requestId, transactionList));
  }

  lemma ProvideMissingTransactionsSuccessReadsBack(m: ProvideMissingTransactionsSuccess, rest: bytes)
    requires m.Sendable()
    ensures ReadProvideMissingTransactionsSuccess(m.Wire() + rest) == Got(m, rest)
  {
    var f1, f2 := Encode(U32, Num(m.requestId)), Encode(Seq0_64K(B0_16M), List(Blobs(m.transactionList)));
    Regroup(f1, f2, rest);
    Bounds();
    U32Back(m.requestId, f2 + rest);
    ListBack(Seq0_64K(B0_16M), m.transactionList, rest);
  }

  // ---- SetCustomMiningJob ----

  datatype SetCustomMiningJob = SetCustomMiningJob(
    channelId: u32, requestId: u32, token: bytes, version: u32, prevHash: bytes, minNtime: u32, nBits: u32,
    coinbaseTxVersion: u32, coinbasePrefix: bytes, coinbaseTxInputNSequence: u32, coinbaseTxOutputs: bytes,
    coinbaseTxLocktime: u32, merklePath: seq<bytes>)
  {
    ghost predicate Sendable()
    {
      && |token| <= 255 && |prevHash| == 32 && |coinbasePrefix| <= 255 && |coinbaseTxOutputs| <= 65535
      && |merklePath| <= 255 && (forall i :: 0 <= i < |merklePath| ==> |merklePath[i]| == 32)
    }

    /** The fields of the template, then those of the coinbase. */
    function TemplateWire(): bytes
    {
      Encode(U32, Num(channelId)) + Encode(U32, Num(requestId)) + Encode(B0_255, Octets(token))
      + Encode(U32, Num(version)) + Encode(U256, Octets(prevHash)) + Encode(U32, Num(minNtime))
      + Encode(U32, Num(nBits))
    }

    function Wire(): bytes
    {
      WireAfter(TemplateWire())
    }

    function WireAfter(front: bytes): bytes
    {
      front + Encode(U32, Num(coinbaseTxVersion)) + Encode(B0_255, Octets(coinbasePrefix))
      + Encode(U32, Num(coinbaseTxInputNSequence)) + Encode(B0_64K, Octets(coinbaseTxOutputs))
      + Encode(U32, Num(coinbaseTxLocktime)) + Encode(Seq0_255(U256), List(Blobs(merklePath)))
    }
  }

  method SerializeSetCustomMiningJob(m: SetCustomMiningJob) returns (r: Option<bytes>)
    ensures r.Some? <==> m.Sendable()
    ensures r.Some? ==> r.value == m.Wire()
  {
    var w := new BufferWriter();
    w.WriteU32(m.channelId);
    assert w.Contents() == Encode(U32, Num(m.channelId));
    w.WriteU32(m.requestId);
    var _ :- w.Write(B0_255, Octets(m.token));
    w.WriteU32(m.version);
    var _ :- w.Write(U256, Octets(m.prevHash));
    w.WriteU32(m.minNtime);
    w.WriteU32(m.nBits);
    var _ :- WriteCoinbaseFields(w, m);
    var b := w.ToBuffer();
    r := Some(b);
  }

  lemma HashesWritable(hashes: seq<bytes>)
    ensures Writable(Seq0_255(U256), List(Blobs(hashes)))
      <==> |hashes| <= 255 && forall i :: 0 <= i < |hashes| ==> |hashes[i]| == 32
  {
    Bounds();
    var vs := Blobs(hashes);
    forall i | 0 <= i < |hashes| ensures Writable(U256, vs[i]) <==> |hashes[i]| == 32 {
      assert vs[i] == Octets(hashes[i]);
    }
  }

  method WriteCoinbaseFields(w: BufferWriter, m: SetCustomMiningJob) returns (r: Option<()>)
    requires w.Valid()
    modifies w.Repr
    ensures w.Valid() && fresh(w.Repr - old(w.Repr))
    ensures |m.token| <= 255 && |m.prevHash| == 32 ==> (r.Some? <==> m.Sendable())
    ensures r.Some? ==> w.Contents() == m.WireAfter(old(w.Contents()))
  {
    HashesWritable(m.merklePath);
    w.WriteU32(m.coinbaseTxVersion);
    var _ :- w.Write(B0_255, Octets(m.coinbasePrefix));
    w.WriteU32(m.coinbaseTxInputNSequence);
    var _ :- w.Write(B0_64K, Octets(m.coinbaseTxOutputs));
    w.WriteU32(m.coinbaseTxLocktime);
    var _ :- w.Write(Seq0_255(U256), List(Blobs(m.merklePath)));
    r := Some(());
  }

  function ReadSetCustomMiningJob(b: bytes): Parsed<SetCustomMiningJob>
  {
    var (channelId, b) :- TakeU32(b);
    var (requestId, b) :- TakeU32(b);
    var (token, b) :- TakeOctets(B0_255, b);
    var (version, b) :- TakeU32(b);
    var (prevHash, b) :- TakeOctets(U256, b);
    var (minNtime, b) :- TakeU32(b);
    var (nBits, b) :- TakeU32(b);
    var (coinbaseTxVersion, b) :- TakeU32(b);
    var (coinbasePrefix, b) :- TakeOctets(B0_255, b);
    var (coinbaseTxInputNSequence, b) :- TakeU32(b);
    var (coinbaseTxOutputs, b) :- TakeOctets(B0_64K, b);
    var (coinbaseTxLocktime, b) :- TakeU32(b);
    var (merklePath, b) :- TakeList(Seq0_255(U256), b);
    Got(SetCustomMiningJob(
      channelId, requestId, token, version, prevHash, minNtime, nBits, coinbaseTxVersion, coinbasePrefix,
      coinbaseTxInputNSequence, coinbaseTxOutputs, coinbaseTxLocktime, merklePath), b)
  }

  method DeserializeSetCustomMiningJob(reader: BufferReader) returns (r: Option<SetCustomMiningJob>)
    requires reader.Valid()
    modifies reader`offset
    ensures reader.Valid()
    ensures match ReadSetCustomMiningJob(old(reader.Remaining()))
      case OutOfRange => r == None
      case Got(m, rest) => r == Some(m) && reader.Remaining() == rest
  {
    var channelId :- reader.ReadU32();
    var requestId :- reader.ReadU32();
    var token :- reader.ReadOctets(B0_255);
    var version :- reader.ReadU32();
    var prevHash :- reader.ReadOctets(U256);
    var minNtime :- reader.ReadU32();
    var nBits :- reader.ReadU32();
    var coinbaseTxVersion :- reader.ReadU32();
    var coinbasePrefix :- reader.ReadOctets(B0_255);
    var coinbaseTxInputNSequence :- reader.ReadU32();
    var coinbaseTxOutputs :- reader.ReadOctets(B0_64K);
    var coinbaseTxLocktime :- reader.ReadU32();
    var merklePath :- reader.ReadList(Seq0_255(U256));
    r := Some(SetCustomMiningJob(
      channelId, requestId, token, version, prevHash, minNtime, nBits, coinbaseTxVersion, coinbasePrefix,
      coinbaseTxInputNSequence, coinbaseTxOutputs, coinbaseTxLocktime, merklePath));
  }

  /** The second half of a SetCustomMiningJob, as it stands before what follows. */
  function CoinbaseTail(m: SetCustomMiningJob, rest: bytes): bytes
  {
    Encode(U32, Num(m.coinbaseTxVersion)) + (Encode(B0_255, Octets(m.coinbasePrefix))
    + (Encode(U32, Num(m.coinbaseTxInputNSequence)) + (Encode(B0_64K, Octets(m.coinbaseTxOutputs))
    + (Encode(U32, Num(m.coinbaseTxLocktime)) + (Encode(Seq0_255(U256), List(Blobs(m.merklePath))) + rest)))))
  }

  lemma SetCustomMiningJobWire(m: SetCustomMiningJob, rest: bytes)
    ensures m.Wire() + rest ==
      Encode(U32, Num(m.channelId)) + (Encode(U32, Num(m.requestId)) + (Encode(B0_255, Octets(m.token))
      + (Encode(U32, Num(m.version)) + (Encode(U256, Octets(m.prevHash)) + (Encode(U32, Num(m.minNtime))
      + (Encode(U32, Num(m.nBits)) + CoinbaseTail(m, rest)))))))
  {
    var f1, f2, f3 := Encode(U32, Num(m.channelId)), Encode(U32, Num(m.requestId)), Encode(B0_255, Octets(m.token));
    var f4, f5, f6 := Encode(U32, Num(m.version)), Encode(U256, Octets(m.prevHash)), Encode(U32, Num(m.minNtime));
    var f7, f8 := Encode(U32, Num(m.nBits)), Encode(U32, Num(m.coinbaseTxVersion));
    var f9, f10 := Encode(B0_255, Octets(m.coinbasePrefix)), Encode(U32, Num(m.coinbaseTxInputNSequence));
    var f11, f12 := Encode(B0_64K, Octets(m.coinbaseTxOutputs)), Encode(U32, Num(m.coinbaseTxLocktime));
    RegroupSeven(m.TemplateWire(), f8, f9, f10, f11, f12, Encode(Seq0_255(U256), List(Blobs(m.merklePath))), rest);
    RegroupSeven(f1, f2, f3, f4, f5, f6, f7, CoinbaseTail(m, rest));
  }

  lemma SetCustomMiningJobReadsBack(m: SetCustomMiningJob, rest: bytes)
    requires m.Sendable()
    ensures ReadSetCustomMiningJob(m.Wire() + rest) == Got(m, rest)
  {
    SetCustomMiningJobWire(m, rest);
    Bounds();
    var f9, f10 := Encode(B0_255, Octets(m.coinbasePrefix)), Encode(U32, Num(m.coinbaseTxInputNSequence));
    var f11, f12 := Encode(B0_64K, Octets(m.coinbaseTxOutputs)), Encode(U32, Num(m.coinbaseTxLocktime));
    var t13 := Encode(Seq0_255(U256), List(Blobs(m.merklePath))) + rest;
    U32Back(m.coinbaseTxVersion, f9 + (f10 + (f11 + (f12 + t13))));
    OctetsBack(B0_255, m.coinbasePrefix, f10 + (f11 + (f12 + t13)));
    U32Back(m.coinbaseTxInputNSequence, f11 + (f12 + t13));
    OctetsBack(B0_64K, m.coinbaseTxOutputs, f12 + t13);
    U32Back(m.coinbaseTxLocktime, t13);
    ListBack(Seq0_255(U256), m.merklePath, rest);
    var t7 := Encode(U32, Num(m.nBits)) + CoinbaseTail(m, rest);
    var t6 := Encode(U32, Num(m.minNtime)) + t7;
    var t5 := Encode(U256, Octets(m.prevHash)) + t6;
    var t4 := Encode(U32, Num(m.version)) + t5;
    var t3 := Encode(B0_255, Octets(m.token)) + t4;
    U32Back(m.channelId, Encode(U32, Num(m.requestId)) + t3);
    U32Back(m.requestId, t3);
    OctetsBack(B0_255, m.token, t4);
    U32Back(m.version, t5);
    OctetsBack(U256, m.prevHash, t6);
    U32Back(m.minNtime, t7);
    U32Back(m.nBits, CoinbaseTail(m, rest));
  }
}
