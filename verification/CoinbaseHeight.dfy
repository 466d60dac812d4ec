/**
 The block height at the start of a coinbase script: read from the head of a declared
 coinbase before the job is accepted, and from the whole transaction before a block is
 submitted (src/services/template-provider.service.ts).
 */
module CoinbaseHeight {
  import opened Bytes
  import opened CoinbaseBytes

  datatype Read = Read(value: nat, offset: nat)

  function ReadBitcoinVarInt(b: bytes, offset: nat): (r: Option<Read>)
    ensures r.Some? ==> offset < r.value.offset <= |b|
  {
    if offset >= |b| then None
    else if b[offset] < 0xfd then Some(Read(b[offset], offset + 1))
    else
      var more := if b[offset] == 0xfd then 2 else if b[offset] == 0xfe then 4 else 8;
      if offset + 1 + more > |b| then None
      else Some(Read(FromLE(b[offset + 1..offset + 1 + more]), offset + 1 + more))
  }

  const OUTPOINT_SIZE := 36

  /** Where the script of a one-input transaction starts, past a witness marker if any. */
  function ScriptStart(txPrefix: bytes): (r: Option<nat>)
    ensures r.Some? ==> r.value <= |txPrefix|
  {
    if |txPrefix| < 5 then None
    else
      var cursor := if |txPrefix| >= 6 && txPrefix[4] == 0 && txPrefix[5] != 0 then 6 else 4;
      var inputCount := ReadBitcoinVarInt(txPrefix, cursor);
      if inputCount.None? || inputCount.value.value != 1 then None
      else if |txPrefix| < inputCount.value.offset + OUTPOINT_SIZE then None
      else
        var scriptLength := ReadBitcoinVarInt(txPrefix, inputCount.value.offset + OUTPOINT_SIZE);
        if scriptLength.None? then None else Some(scriptLength.value.offset)
  }

  function HeightPrefix(height: bytes): bytes
    requires |height| <= MAX_HEIGHT_BYTES
  {
    [|height|] + height
  }

  predicate ScriptHeightOk(script: bytes, height: bytes)
    requires |height| <= MAX_HEIGHT_BYTES
  {
    HeightPrefix(height) <= script
  }

  /** The check on a declared head; one that is no transaction head counts as a script. */
  predicate PrefixHeightOk(txPrefix: bytes, height: bytes)
    requires |height| <= MAX_HEIGHT_BYTES
  {
    var start := ScriptStart(txPrefix);
    if start.None? then ScriptHeightOk(txPrefix, height)
    else start.value + |HeightPrefix(height)| <= |txPrefix| && ScriptHeightOk(txPrefix[start.value..], height)
  }

  lemma ReadsVarInt(front: bytes, v: nat, back: bytes)
    requires v < MAX_VARINT
    ensures ReadBitcoinVarInt(front + VarInt(v) + back, |front|) == Some(Read(v, |front| + |VarInt(v)|))
  {
    var b, at := front + VarInt(v) + back, |front|;
    assert b[at] == VarInt(v)[0];
    if v >= 0xfd {
      VarIntTail(v);
      assert b[at + 1..at + |VarInt(v)|] == VarInt(v)[1..];
    }
  }

  // ---- heads of one-input transactions ----

  /** All that stands before the length of the script: version, a witness marker with its flag
      or none, an input count of one, the outpoint. */
  predicate OneInputFront(front: bytes)
  {
    || (|front| == LENGTH_AT && front[4] == 1)
    || (|front| == LENGTH_AT + 2 && front[4] == 0 && front[5] != 0 && front[6] == 1)
  }

  function Assemble(front: bytes, script: bytes, back: bytes): bytes
  {
    front + VarInt(|script|) + script + back
  }

  function StartOf(front: bytes, script: bytes): nat
  {
    |front| + |VarInt(|script|)|
  }

  lemma HeadOf(front: bytes, script: bytes, back: bytes, cut: nat)
    requires StartOf(front, script) <= cut <= |Assemble(front, script, back)|
    ensures Assemble(front, script, back)[..cut]
        == front + VarInt(|script|) + (script + back)[..cut - StartOf(front, script)]
  {
    assert Assemble(front, script, back) == front + VarInt(|script|) + (script + back);
  }

  lemma CountIsOne(front: bytes, head: bytes)
    requires OneInputFront(front) && front <= head
    ensures var at := if |front| == LENGTH_AT then 4 else 6;
      ReadBitcoinVarInt(head, at) == Some(Read(1, at + 1)) && (head[4] == 0 <==> at == 6) && head[5..6] == front[5..6]
  {
    assert head[..|front|] == front;
    assert head[4] == front[4] && head[5] == front[5] && head[6] == front[6];
  }

  /** In any head that reaches the script, the script is found. */
  lemma StartFinds(front: bytes, script: bytes, back: bytes, cut: nat)
    requires OneInputFront(front) && |script| < MAX_VARINT
    requires StartOf(front, script) <= cut <= |Assemble(front, script, back)|
    ensures ScriptStart(Assemble(front, script, back)[..cut]) == Some(StartOf(front, script))
  {
    var head := Assemble(front, script, back)[..cut];
    HeadOf(front, script, back, cut);
    assert head[..|front|] == front;
    CountIsOne(front, head);
    ReadsVarInt(front, |script|, (script + back)[..cut - StartOf(front, script)]);
  }

  lemma LengthCutOff(front: bytes, script: bytes, back: bytes, cut: nat)
    requires |script| < MAX_VARINT && |front| < cut < StartOf(front, script)
    ensures ReadBitcoinVarInt(Assemble(front, script, back)[..cut], |front|) == None
  {
    var length := VarInt(|script|);
    assert Assemble(front, script, back)[..cut][|front|] == length[0];
    VarIntTail(|script|);
  }

  /** A head that ends before its script is taken for a bare script. */
  lemma StartMissing(front: bytes, script: bytes, back: bytes, cut: nat)
    requires OneInputFront(front) && |script| < MAX_VARINT && cut < StartOf(front, script)
    ensures ScriptStart(Assemble(front, script, back)[..cut]) == None
  {
    var head := Assemble(front, script, back)[..cut];
    if cut < |front| {
      assert head == front[..cut];
      FrontCutOff(front, cut);
    } else {
      assert head[..|front|] == front;
      CountIsOne(front, head);
      if cut > |front| { LengthCutOff(front, script, back, cut); }
    }
  }

  lemma FrontCutOff(front: bytes, cut: nat)
    requires OneInputFront(front) && cut < |front|
    ensures ScriptStart(front[..cut]) == None
  {
    var head := front[..cut];
    if cut > 4 { assert head[4] == front[4]; }
    if cut > 6 { assert head[5] == front[5] && head[6] == front[6]; }
  }

  /** What the check on a head decides, for every such transaction and every cut: that the
      height stands inside the head where the script starts, be it in the script or in what
      follows it; of a head that ends earlier, that it starts with the height. */
  lemma HeadCheckDecides(front: bytes, script: bytes, back: bytes, cut: nat, height: bytes)
    requires OneInputFront(front) && |script| < MAX_VARINT && cut <= |Assemble(front, script, back)|
    requires |height| <= MAX_HEIGHT_BYTES
    ensures PrefixHeightOk(Assemble(front, script, back)[..cut], height) <==>
      if cut < StartOf(front, script) then HeightPrefix(height) <= Assemble(front, script, back)[..cut]
      else StartOf(front, script) + |HeightPrefix(height)| <= cut && HeightPrefix(height) <= script + back
  {
    var start := StartOf(front, script);
    if cut < start {
      StartMissing(front, script, back, cut);
    } else {
      StartFinds(front, script, back, cut);
      HeadOf(front, script, back, cut);
      var rest, n := script + back, |HeightPrefix(height)|;
      assert Assemble(front, script, back)[..cut][start..] == rest[..cut - start];
      if start + n <= cut {
        assert rest[..cut - start][..n] == rest[..n];
      }
    }
  }

  /** A head that was accepted belongs to an acceptable block if and only if its script is
      long enough to hold the height. */
  lemma AcceptedHeadFinishesIff(front: bytes, script: bytes, back: bytes, cut: nat, height: bytes)
    requires OneInputFront(front) && |script| < MAX_VARINT && |height| <= MAX_HEIGHT_BYTES
    requires StartOf(front, script) <= cut <= |Assemble(front, script, back)|
    requires PrefixHeightOk(Assemble(front, script, back)[..cut], height)
    ensures ScriptHeightOk(script, height) <==> |script| >= |HeightPrefix(height)|
  {
    HeadCheckDecides(front, script, back, cut, height);
    var n := |HeightPrefix(height)|;
    if |script| >= n {
      assert (script + back)[..n] == script[..n];
    }
  }

  // ---- the two serializations of a coinbase ----

  /** The serialization with a witness marker; the flag is 1 in every transaction that parses. */
  function MarkedFront(version: nat, flag: byte): (b: bytes)
    ensures |b| == LENGTH_AT + 2
  {
    LE(version, 4) + [0, flag] + [1] + ZERO_HASH + LE(0xffff_ffff, 4)
  }

  function SerializeMarked(tx: CoinbaseTx, flag: byte, stack: bytes): bytes
  {
    Assemble(MarkedFront(tx.version, flag), tx.script, LE(tx.sequence, 4) + tx.outputs + stack + LE(tx.locktime, 4))
  }

  lemma FrontsHaveOneInput(version: nat, flag: byte)
    ensures OneInputFront(Front(version))
    ensures flag != 0 ==> OneInputFront(MarkedFront(version, flag))
  {
  }

  function ScriptAt(tx: CoinbaseTx): nat
  {
    StartOf(Front(tx.version), tx.script)
  }

  /** The check on the head of a plain serialization. */
  lemma PrefixCheckDecides(tx: CoinbaseTx, cut: nat, height: bytes)
    requires |height| <= MAX_HEIGHT_BYTES && |tx.script| < MAX_VARINT && cut <= |Serialize(tx)|
    ensures PrefixHeightOk(Serialize(tx)[..cut], height) <==>
      if cut < ScriptAt(tx) then HeightPrefix(height) <= Serialize(tx)[..cut]
      else ScriptAt(tx) + |HeightPrefix(height)| <= cut && HeightPrefix(height) <= tx.script + Back(tx)
  {
    FrontsHaveOneInput(tx.version, 1);
    HeadCheckDecides(Front(tx.version), tx.script, Back(tx), cut, height);
  }

  /** The check on the head of a serialization with a witness marker, whatever its flag. */
  lemma MarkedPrefixCheckDecides(tx: CoinbaseTx, flag: byte, stack: bytes, cut: nat, height: bytes)
    requires flag != 0 && |height| <= MAX_HEIGHT_BYTES && |tx.script| < MAX_VARINT
    requires cut <= |SerializeMarked(tx, flag, stack)|
    ensures var head, back := SerializeMarked(tx, flag, stack)[..cut], LE(tx.sequence, 4) + tx.outputs + stack;
      PrefixHeightOk(head, height) <==>
        if cut < ScriptAt(tx) + 2 then HeightPrefix(height) <= head
        else
          && ScriptAt(tx) + 2 + |HeightPrefix(height)| <= cut
          && HeightPrefix(height) <= tx.script + (back + LE(tx.locktime, 4))
  {
    FrontsHaveOneInput(tx.version, flag);
    HeadCheckDecides(MarkedFront(tx.version, flag), tx.script,
      LE(tx.sequence, 4) + tx.outputs + stack + LE(tx.locktime, 4), cut, height);
  }

  /** A coinbase that starts with its height passes as a head even with a flag of 2, with which
      it is no transaction. */
  lemma OddFlagPasses(tx: CoinbaseTx, stack: bytes, height: bytes)
    requires |height| <= MAX_HEIGHT_BYTES && |tx.script| < MAX_VARINT && ScriptHeightOk(tx.script, height)
    ensures PrefixHeightOk(SerializeMarked(tx, 2, stack), height)
  {
    var whole, n := SerializeMarked(tx, 2, stack), |HeightPrefix(height)|;
    var back := LE(tx.sequence, 4) + tx.outputs + stack + LE(tx.locktime, 4);
    assert whole[..|whole|] == whole;
    assert (tx.script + back)[..n] == tx.script[..n];
    MarkedPrefixCheckDecides(tx, 2, stack, |whole|, height);
  }

  lemma StartsWithSequence(tx: CoinbaseTx)
    requires tx.script == [3, 1] && tx.sequence == 0x0302
    ensures HeightPrefix([1, 2, 3]) <= tx.script + Back(tx)
  {
    assert LE(0x0302, 4) == [2] + LE(3, 3) && LE(3, 3)[0] == 3;
    var b := tx.script + Back(tx);
    assert b[0] == 3 && b[1] == 1 && b[2] == 2 && b[3] == 3;
    assert b[..4] == [3, 1, 2, 3];
  }

  /** A two-octet script whose sequence number completes the height: block 197,121. */
  lemma ShortScriptPasses(version: nat, outputs: bytes, locktime: nat)
    ensures
      var tx, height := CoinbaseTx(version, [3, 1], 0x0302, outputs, locktime), [1, 2, 3];
      PrefixHeightOk(Serialize(tx), height) && !ScriptHeightOk(tx.script, height)
  {
    var tx, height: bytes := CoinbaseTx(version, [3, 1], 0x0302, outputs, locktime), [1, 2, 3];
    StartsWithSequence(tx);
    assert Serialize(tx)[..|Serialize(tx)|] == Serialize(tx);
    PrefixCheckDecides(tx, |Serialize(tx)|, height);
  }

  /** The head every pool job hands out passes. */
  lemma OwnHeadPasses(height: bytes, outputs: bytes)
    requires |height| <= MAX_HEIGHT_BYTES
    ensures PrefixHeightOk(Serialize(JobCoinbase(height, outputs))[..HOLE_AT], height)
  {
    var tx, n := JobCoinbase(height, outputs), 1 + |height|;
    assert tx.script[..n] == HeightPrefix(height);
    assert (tx.script + Back(tx))[..n] == tx.script[..n];
    PrefixCheckDecides(tx, HOLE_AT, height);
  }
}
