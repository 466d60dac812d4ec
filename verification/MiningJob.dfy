/**
 A mining job (src/models/MiningJob.ts): the coinbase it builds once, the header it
 hashes for every share, and the block it completes when a share wins. The fast header
 joins stored halves around the extranonce; the full block parses the script again.
 */
module MiningJob {
  import opened Bytes
  import opened CoinbaseBytes
  import opened CoinbaseOutputs
  import opened HexText
  import opened MerklePath
  import opened OutputCodec
  import opened Words

  const HEADER_SIZE := 80
  const MAX_WORD := 0x1_0000_0000

  // ---- block headers ----

  datatype Header = Header(version: u32, prevHash: bytes, merkleRoot: bytes, timestamp: nat, bits: nat, nonce: nat)
  {
    predicate WellFormed()
    {
      |prevHash| == HASH_SIZE && |merkleRoot| == HASH_SIZE
      && timestamp < MAX_WORD && bits < MAX_WORD && nonce < MAX_WORD
    }
  }

  function HeaderBytes(h: Header): bytes
  {
    LE(h.version, 4) + h.prevHash + h.merkleRoot + LE(h.timestamp, 4) + LE(h.bits, 4) + LE(h.nonce, 4)
  }

  lemma HeaderFields(h: Header)
    requires h.WellFormed()
    ensures |HeaderBytes(h)| == HEADER_SIZE
    ensures HeaderBytes(h)[..4] == LE(h.version, 4)
    ensures HeaderBytes(h)[4..36] == h.prevHash && HeaderBytes(h)[36..68] == h.merkleRoot
    ensures HeaderBytes(h)[68..72] == LE(h.timestamp, 4)
    ensures HeaderBytes(h)[72..76] == LE(h.bits, 4) && HeaderBytes(h)[76..] == LE(h.nonce, 4)
  {
  }

  lemma WordBinds(a: nat, b: nat)
    requires a < MAX_WORD && b < MAX_WORD && LE(a, 4) == LE(b, 4)
    ensures a == b
  {
    Powers();
    FromToLE(a, 4);
    FromToLE(b, 4);
  }

  /** The 80 octets determine every field. */
  lemma HeaderBinds(a: Header, b: Header)
    requires a.WellFormed() && b.WellFormed() && HeaderBytes(a) == HeaderBytes(b)
    ensures a == b
  {
    HeaderFields(a);
    HeaderFields(b);
    WordBinds(a.version, b.version);
    WordBinds(a.timestamp, b.timestamp);
    WordBinds(a.bits, b.bits);
    WordBinds(a.nonce, b.nonce);
  }

  method CopyNext(header: array<byte>, offset: nat, b: bytes)
    requires offset + |b| <= header.Length
    modifies header
    ensures header[..offset + |b|] == old(header[..offset]) + b
  {
    forall i | 0 <= i < |b| {
      header[offset + i] := b[i];
    }
  }

  /** The header every share path writes, field by field. */
  method BuildHeader(h: Header) returns (octets: bytes)
    requires h.WellFormed()
    ensures octets == HeaderBytes(h)
  {
    var header := new byte[HEADER_SIZE](_ => 0);
    CopyNext(header, 0, LE(h.version, 4));
    CopyNext(header, 4, h.prevHash);
    CopyNext(header, 36, h.merkleRoot);
    CopyNext(header, 68, LE(h.timestamp, 4));
    CopyNext(header, 72, LE(h.bits, 4));
    CopyNext(header, 76, LE(h.nonce, 4));
    octets := header[..];
    assert octets == header[..HEADER_SIZE];
  }

  // ---- the two headers of a share ----

  datatype Transaction = Coinbase(tx: CoinbaseTx) | Other(raw: bytes)

  datatype Block = Block(header: Header, transactions: seq<Transaction>)

  /** What one submission adds to a job: the extranonce as hex text, in two parts. */
  datatype Submission = Submission(
    versionMask: Option<u32>, nonce: nat, extraNonce: string, extraNonce2: string, timestamp: nat)
  {
    predicate WellFormed() { nonce < MAX_WORD && timestamp < MAX_WORD }

    function Extranonce(): bytes { DecodeHex(extraNonce + extraNonce2) }
  }

  function Roll(version: u32, mask: Option<u32>): u32
  {
    if mask.Some? then Xor(version, mask.value) else version
  }

  function Complete(template: Header, merkleRoot: bytes, s: Submission): Header
  {
    template.(version := Roll(template.version, s.versionMask), merkleRoot := merkleRoot,
              timestamp := s.timestamp, nonce := s.nonce)
  }

  function FastHeader(H: Hasher, tx: CoinbaseTx, branches: seq<bytes>, template: Header, s: Submission): Header
    requires |tx.script| == SCRIPT_SIZE
  {
    Complete(template, FoldPath(H, H.hash256(Filled(tx, s.Extranonce())), branches), s)
  }

  function UpdatedBlock(H: Hasher, tx: CoinbaseTx, branches: seq<bytes>, template: Block, s: Submission): Block
    requires |tx.script| == SCRIPT_SIZE
  {
    var coinbase := WithExtranonce(tx, s.Extranonce());
    Block(Complete(template.header, FoldPath(H, H.hash256(Serialize(coinbase)), branches), s),
          [Coinbase(coinbase)] + (if template.transactions == [] then [] else template.transactions[1..]))
  }

  /** Octet by octet what a share's header holds: the template's version with the digits of the
      mask turned, its previous hash and bits, and the time and nonce submitted. */
  ghost predicate HoldsShare(b: bytes, template: Header, s: Submission)
  {
    && |b| == 80
    && LongAt(b, 0) >= 0
    && (forall i :: 0 <= i < 32 ==>
          BitOf(LongAt(b, 0), i)
            == (BitOf(template.version, i) + (if s.versionMask.Some? then BitOf(s.versionMask.value, i) else 0)) % 2)
    && b[4..36] == template.prevHash
    && LongAt(b, 68) == s.timestamp && LongAt(b, 72) == template.bits && LongAt(b, 76) == s.nonce
  }

  lemma {:induction false} BitIsBit(v: nat, i: nat)
    ensures BitOf(v, i) < 2
  {
    if i > 0 { BitIsBit(v / 2, i - 1); }
  }

  lemma RolledBits(template: Header, s: Submission, i: nat)
    requires i < 32
    ensures BitOf(Roll(template.version, s.versionMask), i)
        == (BitOf(template.version, i) + (if s.versionMask.Some? then BitOf(s.versionMask.value, i) else 0)) % 2
  {
    BitIsBit(template.version, i);
    if s.versionMask.Some? { XorBitOf(template.version, s.versionMask.value, 32, i); }
  }

  lemma CompleteHoldsShare(template: Header, root: bytes, s: Submission)
    requires template.WellFormed() && s.WellFormed() && |root| == HASH_SIZE
    ensures HoldsShare(HeaderBytes(Complete(template, root, s)), template, s)
    ensures HeaderBytes(Complete(template, root, s))[36..68] == root
  {
    var h := Complete(template, root, s);
    var b := HeaderBytes(h);
    HeaderFields(h);
    FourOctets(h.version);
    FourOctets(h.timestamp);
    FourOctets(h.bits);
    FourOctets(h.nonce);
    WordIn(b, 0, LE(h.version, 4));
    WordIn(b, 68, LE(h.timestamp, 4));
    WordIn(b, 72, LE(h.bits, 4));
    WordIn(b, 76, LE(h.nonce, 4));
    forall i | 0 <= i < 32
      ensures BitOf(h.version, i)
        == (BitOf(template.version, i) + (if s.versionMask.Some? then BitOf(s.versionMask.value, i) else 0)) % 2
    {
      RolledBits(template, s, i);
    }
  }

  lemma WordIn(b: bytes, at: nat, word: bytes)
    requires |word| == 4 && at + 4 <= |b| && b[at..at + 4] == word
    ensures LongAt(b, at) == LongAt(word, 0)
  {
    assert b[at] == word[0] && b[at + 1] == word[1] && b[at + 2] == word[2] && b[at + 3] == word[3];
  }

  /** Part by part what a completed block holds: a header as a share's; the job's coinbase with
      the last twelve octets of its script replaced; behind it, the template's transactions. */
  ghost predicate HoldsSolution(block: Block, tx: CoinbaseTx, template: Block, s: Submission)
    requires |tx.script| == SCRIPT_SIZE
  {
    && block.header.timestamp == s.timestamp && block.header.nonce == s.nonce
    && block.header.bits == template.header.bits && block.header.prevHash == template.header.prevHash
    && (forall i :: 0 <= i < 32 ==>
          BitOf(block.header.version, i) == (BitOf(template.header.version, i)
            + (if s.versionMask.Some? then BitOf(s.versionMask.value, i) else 0)) % 2)
    && |block.transactions| == (if template.transactions == [] then 1 else |template.transactions|)
    && (forall i :: 1 <= i < |template.transactions| ==> block.transactions[i] == template.transactions[i])
    && block.transactions[0].Coinbase?
    && var coinbase := block.transactions[0].tx;
       && coinbase.version == tx.version && coinbase.sequence == tx.sequence
       && coinbase.outputs == tx.outputs && coinbase.locktime == tx.locktime
       && coinbase.script == tx.script[..SCRIPT_SIZE - 12] + DecodeHex(s.extraNonce + s.extraNonce2)
  }

  lemma UpdatedHoldsSolution(H: Hasher, tx: CoinbaseTx, branches: seq<bytes>, template: Block, s: Submission)
    requires |tx.script| == SCRIPT_SIZE
    ensures HoldsSolution(UpdatedBlock(H, tx, branches, template, s), tx, template, s)
  {
    forall i | 0 <= i < 32
      ensures BitOf(Roll(template.header.version, s.versionMask), i) == (BitOf(template.header.version, i)
        + (if s.versionMask.Some? then BitOf(s.versionMask.value, i) else 0)) % 2
    {
      RolledBits(template.header, s, i);
    }
  }

  /** The header a share is judged by is the header of the block it would complete,
      whenever the extranonce decodes to the size the coinbase was cut for. */
  lemma HeadersAgree(H: Hasher, tx: CoinbaseTx, branches: seq<bytes>, template: Block, s: Submission)
    requires |tx.script| == SCRIPT_SIZE && |s.Extranonce()| == TOTAL_EXTRANONCE_SIZE
    ensures HeaderBytes(FastHeader(H, tx, branches, template.header, s))
        == HeaderBytes(UpdatedBlock(H, tx, branches, template, s).header)
  {
    FilledIsSerialization(tx, s.Extranonce());
  }

  /** At any other size the two headers can only agree through a collision of the hash:
      the bytes hashed for the share are then no serialization of the block's coinbase. */
  lemma OtherSizesNeedCollision(H: Hasher, tx: CoinbaseTx, branches: seq<bytes>, template: Block, s: Submission)
    returns (x: bytes, y: bytes)
    requires H.Lawful() && AllHashes(branches) && template.header.WellFormed() && s.WellFormed()
    requires |tx.script| == SCRIPT_SIZE && |s.Extranonce()| != TOTAL_EXTRANONCE_SIZE
    requires HeaderBytes(FastHeader(H, tx, branches, template.header, s))
        == HeaderBytes(UpdatedBlock(H, tx, branches, template, s).header)
    ensures x != y && H.hash256(x) == H.hash256(y)
  {
    var fast := FastHeader(H, tx, branches, template.header, s);
    var full := UpdatedBlock(H, tx, branches, template, s).header;
    x, y := Filled(tx, s.Extranonce()), Serialize(WithExtranonce(tx, s.Extranonce()));
    FilledIsSerialization(tx, s.Extranonce());
    FoldIsHash(H, H.hash256(x), branches);
    FoldIsHash(H, H.hash256(y), branches);
    HeaderBinds(fast, full);
    if H.hash256(x) != H.hash256(y) {
      x, y := FoldBinds(H, H.hash256(x), H.hash256(y), branches);
    }
  }

  /** With the connection's own four octets in front, a sixteen-character extranonce2 completes
      the coinbase if and only if every character is a hexadecimal digit; otherwise the bytes
      hashed for the share are no serialization of the block's coinbase. */
  lemma UndecodableExtranonce(tx: CoinbaseTx, s: Submission, own: bytes)
    requires |tx.script| == SCRIPT_SIZE
    requires |own| == 4 && s.extraNonce == Text(Hex(own)) && |s.extraNonce2| == 16
    ensures Filled(tx, s.Extranonce()) == Serialize(WithExtranonce(tx, s.Extranonce()))
      <==> forall i :: 0 <= i < 16 ==> IsDigit(s.extraNonce2[i])
  {
    DecodeJoin(own, s.extraNonce2);
    DecodesFullyIff(s.extraNonce2);
    FilledIsSerialization(tx, s.Extranonce());
  }

  /** Sixteen letters z pass the length check and decode to nothing. */
  lemma UndecodableExample(tx: CoinbaseTx, own: bytes, nonce: nat, timestamp: nat)
    requires |tx.script| == SCRIPT_SIZE && |own| == 4
    ensures var s := Submission(None, nonce, Text(Hex(own)), "zzzzzzzzzzzzzzzz", timestamp);
      s.Extranonce() == own && Filled(tx, s.Extranonce()) != Serialize(WithExtranonce(tx, s.Extranonce()))
  {
    var s := Submission(None, nonce, Text(Hex(own)), "zzzzzzzzzzzzzzzz", timestamp);
    DecodeJoin(own, s.extraNonce2);
    assert !IsDigit(s.extraNonce2[0]);
    UndecodableExtranonce(tx, s, own);
  }

  lemma {:induction false} FoldIsHash(H: Hasher, leaf: bytes, path: seq<bytes>)
    requires H.Lawful() && |leaf| == HASH_SIZE
    ensures |FoldPath(H, leaf, path)| == HASH_SIZE
    decreases |path|
  {
    if path != [] { FoldIsHash(H, H.hash256(leaf + path[0]), path[1..]); }
  }

  /** When the branches are the coinbase path of the template's other transactions, both
      headers commit to the tree of the completed block's own transactions. */
  lemma HeaderCommitsToBlock(H: Hasher, tx: CoinbaseTx, branches: seq<bytes>, template: Block, s: Submission,
                             placeholder: bytes, txHashes: seq<bytes>)
    requires |tx.script| == SCRIPT_SIZE && |s.Extranonce()| == TOTAL_EXTRANONCE_SIZE
    requires branches == Path(H, [placeholder] + txHashes)
    ensures
      var block := UpdatedBlock(H, tx, branches, template, s);
      && block.transactions[0].Coinbase?
      && var root := Root(H, [H.hash256(Serialize(block.transactions[0].tx))] + txHashes);
      block.header.merkleRoot == root && FastHeader(H, tx, branches, template.header, s).merkleRoot == root
  {
    FilledIsSerialization(tx, s.Extranonce());
    PathYieldsRoot(H, placeholder, H.hash256(Filled(tx, s.Extranonce())), txHashes);
  }

  lemma NonceScript(script: bytes, text: string)
    requires |script| == SCRIPT_SIZE
    ensures DecodeHex(Text(Hex(script))[..2 * SCRIPT_SIZE - 2 * TOTAL_EXTRANONCE_SIZE] + text)
            == script[..SCRIPT_SIZE - TOTAL_EXTRANONCE_SIZE] + DecodeHex(text)
  {
    var n := SCRIPT_SIZE - TOTAL_EXTRANONCE_SIZE;
    HexJoin(script[..n], script[n..]);
    assert script == script[..n] + script[n..];
    TextJoin(Hex(script[..n]), Hex(script[n..]));
    DecodeJoin(script[..n], text);
  }

  // ---- the job ----

  class Job {
    var coinbaseTransaction: CoinbaseTx
    var coinbasePart1: seq<nibble>
    var coinbasePart2: seq<nibble>
    var coinbasePart1Buffer: bytes
    var coinbasePart2Buffer: bytes
    var merkleBranchBuffers: seq<bytes>

    ghost predicate Valid()
      reads this
    {
      && |coinbaseTransaction.script| == SCRIPT_SIZE
      && coinbasePart1Buffer == Serialize(coinbaseTransaction)[..HOLE_AT]
      && coinbasePart2Buffer == Serialize(coinbaseTransaction)[AFTER_SCRIPT..]
      && FromHex(coinbasePart1) == coinbasePart1Buffer && FromHex(coinbasePart2) == coinbasePart2Buffer
      && AllHashes(merkleBranchBuffers)
    }

    constructor (
        script: ScriptMap, payouts: seq<Payout>, reward: int, height: bytes, witnessCommit: bytes, branches: seq<bytes>)
      requires payouts != [] && |height| <= MAX_HEIGHT_BYTES && |witnessCommit| == HASH_SIZE && AllHashes(branches)
      requires Payable(PayoutOutputs(script, payouts, reward, reward))
      ensures Valid() && merkleBranchBuffers == branches
      ensures
        var outs := PayoutOutputs(script, payouts, reward, reward) + [CommitmentOutput(witnessCommit)];
        Payable(outs) && coinbaseTransaction == JobCoinbase(height, SerializeOutputs(outs))
    {
      merkleBranchBuffers := branches;
      var outs := CreateCoinbaseTransaction(script, payouts, reward);
      outs := outs + [CommitmentOutput(witnessCommit)];
      var outputs := SerializeOutputs(outs);
      var part1, part2 := SplitCoinbase(height, outputs);
      coinbaseTransaction := JobCoinbase(height, outputs);
      coinbasePart1, coinbasePart2 := part1, part2;
      coinbasePart1Buffer, coinbasePart2Buffer := FromHex(part1), FromHex(part2);
    }

    method BuildHeaderBuffer(H: Hasher, template: Header, s: Submission) returns (header: bytes)
      requires Valid() && H.Lawful() && template.WellFormed() && s.WellFormed()
      ensures header == HeaderBytes(FastHeader(H, coinbaseTransaction, merkleBranchBuffers, template, s))
      ensures HoldsShare(header, template, s)
    {
      var coinbaseBuffer := coinbasePart1Buffer + DecodeHex(s.extraNonce + s.extraNonce2) + coinbasePart2Buffer;
      var coinbaseHash := H.hash256(coinbaseBuffer);
      var merkleRoot := CalculateMerkleRootHash(H, coinbaseHash, merkleBranchBuffers);
      FoldIsHash(H, coinbaseHash, merkleBranchBuffers);
      var version := template.version;
      if s.versionMask.Some? && s.versionMask.value != 0 {
        version := Xor(version, s.versionMask.value);
      }
      XorWithZero(template.version);
      assert version == Roll(template.version, s.versionMask);
      header := BuildHeader(Header(version, template.prevHash, merkleRoot, s.timestamp, template.bits, s.nonce));
      CompleteHoldsShare(template, merkleRoot, s);
    }

    method CopyAndUpdateBlock(H: Hasher, template: Block, s: Submission) returns (testBlock: Block)
      requires Valid() && H.Lawful()
      ensures testBlock == UpdatedBlock(H, coinbaseTransaction, merkleBranchBuffers, template, s)
      ensures HoldsSolution(testBlock, coinbaseTransaction, template, s)
    {
      testBlock := template;
      var coinbase := coinbaseTransaction;
      var header := testBlock.header.(nonce := s.nonce);
      if s.versionMask.Some? && s.versionMask.value != 0 {
        header := header.(version := Xor(header.version, s.versionMask.value));
      }
      XorWithZero(template.header.version);
      assert header.version == Roll(template.header.version, s.versionMask);
      var nonceScript := Text(Hex(coinbase.script));
      var kept := nonceScript[..|nonceScript| - 2 * TOTAL_EXTRANONCE_SIZE];
      coinbase := coinbase.(script := DecodeHex(kept + (s.extraNonce + s.extraNonce2)));
      NonceScript(coinbaseTransaction.script, s.extraNonce + s.extraNonce2);
      assert coinbase == WithExtranonce(coinbaseTransaction, s.Extranonce());
      var merkleRoot := CalculateMerkleRootHash(H, H.hash256(Serialize(coinbase)), merkleBranchBuffers);
      header := header.(merkleRoot := merkleRoot, timestamp := s.timestamp);
      testBlock := Block(header, [Coinbase(coinbase)] +
        (if template.transactions == [] then [] else template.transactions[1..]));
      UpdatedHoldsSolution(H, coinbaseTransaction, merkleBranchBuffers, template, s);
    }
  }
}
