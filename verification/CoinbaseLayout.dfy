/**
 The octets of a coinbase transaction and of its outputs where Bitcoin's serialization puts them:
 what the builders of src/models/MiningJob.ts and src/services/custom-work.service.ts write,
 stated without their own helpers.
 */
module CoinbaseLayout {
  import opened Bytes
  import opened CoinbaseBytes
  import opened CoinbaseOutputs
  import OutputCodec

  /** The four size classes: one octet below 253; then a tag and two, four or eight octets, the
      least significant first. */
  lemma VarIntLayout(v: nat)
    requires v < 0x1_0000_0000_0000_0000
    ensures v < 253 ==> VarInt(v) == [v]
    ensures 253 <= v <= 65535 ==> |VarInt(v)| == 3 && VarInt(v)[0] == 253 && WordAt(VarInt(v), 1) == v
    ensures 65535 < v <= 0xffff_ffff ==> |VarInt(v)| == 5 && VarInt(v)[0] == 254 && LongAt(VarInt(v), 1) == v
    ensures 0xffff_ffff < v ==> |VarInt(v)| == 9 && VarInt(v)[0] == 255 && FromLE(VarInt(v)[1..]) == v
  {
    if 253 <= v { VarIntTail(v); }
    if 253 <= v <= 65535 {
      TwoOctets(v);
      assert VarInt(v)[1..] == LE(v, 2);
    } else if 65535 < v <= 0xffff_ffff {
      FourOctets(v);
      LongBehind([0xfe], LE(v, 4), []);
    }
  }

  lemma LongBehind(front: bytes, word: bytes, back: bytes)
    requires |word| == 4
    ensures LongAt(front + word + back, |front|) == LongAt(word, 0)
  {
    var b, n := front + word + back, |front|;
    assert b[n] == word[0] && b[n + 1] == word[1] && b[n + 2] == word[2] && b[n + 3] == word[3];
  }

  /** Version, one input spending nothing (thirty-two zeros, then the highest index), the
      script behind its length, sequence, outputs, lock time. */
  lemma TransactionLayout(tx: CoinbaseTx)
    requires tx.version < 0x1_0000_0000 && tx.sequence < 0x1_0000_0000 && tx.locktime < 0x1_0000_0000
    ensures var b, n := Serialize(tx), |VarInt(|tx.script|)|;
      var at := 41 + n + |tx.script|;
      && |b| == at + 4 + |tx.outputs| + 4
      && LongAt(b, 0) == tx.version && b[4] == 1
      && (forall i :: 5 <= i < 37 ==> b[i] == 0) && b[37..41] == [0xff, 0xff, 0xff, 0xff]
      && b[41..41 + n] == VarInt(|tx.script|) && b[41 + n..at] == tx.script
      && LongAt(b, at) == tx.sequence && b[at + 4..at + 4 + |tx.outputs|] == tx.outputs
      && LongAt(b, at + 4 + |tx.outputs|) == tx.locktime
  {
    var front, length := Front(tx.version), VarInt(|tx.script|);
    var sequence, locktime := LE(tx.sequence, 4), LE(tx.locktime, 4);
    FourOctets(tx.version);
    FourOctets(tx.sequence);
    FourOctets(tx.locktime);
    FrontLayout(tx.version);
    LongBehind([], front[..4], front[4..]);
    assert [] + front[..4] + front[4..] == front;
    Parts(front, length, tx.script, sequence, tx.outputs, locktime);
    assert Serialize(tx) == front + length + tx.script + (sequence + tx.outputs + locktime);
  }

  lemma Parts(front: bytes, length: bytes, script: bytes, sequence: bytes, outputs: bytes, locktime: bytes)
    requires |front| == 41 && |sequence| == 4 && |locktime| == 4
    ensures var b, n := front + length + script + (sequence + outputs + locktime), |length|;
      var at := 41 + n + |script|;
      && |b| == at + 4 + |outputs| + 4
      && b[..41] == front && b[41..41 + n] == length && b[41 + n..at] == script
      && b[at + 4..at + 4 + |outputs|] == outputs
      && LongAt(b, at) == LongAt(sequence, 0) && LongAt(b, at + 4 + |outputs|) == LongAt(locktime, 0)
      && LongAt(b, 0) == LongAt(front, 0)
  {
    var head := front + length + script;
    LongBehind(head, sequence, outputs + locktime);
    assert head + (sequence + outputs + locktime) == head + sequence + (outputs + locktime);
    LongBehind(head + sequence + outputs, locktime, []);
    assert head + (sequence + outputs + locktime) == head + sequence + outputs + locktime + [];
  }

  lemma FrontLayout(version: nat)
    ensures |Front(version)| == 41 && Front(version)[..4] == LE(version, 4) && Front(version)[4] == 1
    ensures forall i :: 5 <= i < 37 ==> Front(version)[i] == 0
    ensures Front(version)[37..] == [0xff, 0xff, 0xff, 0xff]
  {
    FrontWords();
    forall i | 5 <= i < 37 ensures Front(version)[i] == 0 { assert Front(version)[i] == ZERO_HASH[i - 5]; }
  }

  /** A job's coinbase: version 2, final, no lock; a script of the height behind its length, the
      pool's name, and zeros, thirty-five octets in all. */
  lemma JobCoinbaseLayout(height: bytes, outputs: bytes)
    requires |height| <= 5
    ensures var tx, n := JobCoinbase(height, outputs), 1 + |height|;
      && tx.version == 2 && tx.sequence == 0xffff_ffff && tx.locktime == 0 && tx.outputs == outputs
      && |tx.script| == 35 && tx.script[0] == |height| && tx.script[1..n] == height
      && (forall i :: 0 <= i < 19 ==> tx.script[n + i] as int == "pool.powermining.io"[i] as int)
      && (forall i :: n + 19 <= i < 35 ==> tx.script[i] == 0)
  {
    var script, n := JobScript(height), 1 + |height|;
    assert script[n..n + 19] == EXTRA;
    forall i | 0 <= i < 19 ensures script[n + i] as int == "pool.powermining.io"[i] as int {
      assert script[n + i] == EXTRA[i];
    }
  }

  /** What a share puts in: the last twelve octets of the script, whatever its extranonce is. */
  lemma ExtranonceLayout(tx: CoinbaseTx, e: bytes)
    requires |tx.script| == 35
    ensures var done := WithExtranonce(tx, e);
      && done.script[..23] == tx.script[..23] && done.script[23..] == e
      && done == tx.(script := done.script)
  {
  }

  /** An output: its value in eight octets, the least significant first, then its script behind
      its length. */
  lemma OutputLayout(o: Output)
    requires 0 <= o.value < 0x1_0000_0000_0000_0000
    ensures var b, n := OutputCodec.One(o), |VarInt(|o.script|)|;
      && |b| == 8 + n + |o.script| && FromLE(b[..8]) == o.value
      && b[8..8 + n] == VarInt(|o.script|) && b[8 + n..] == o.script
  {
    Powers();
    FromToLE(o.value, 8);
    assert OutputCodec.One(o)[..8] == LE(o.value, 8);
  }

  /** The outputs stand one behind the other, in order, behind their count. */
  lemma {:induction false} OutputsLayout(outs: seq<Output>, i: nat)
    requires OutputCodec.Payable(outs) && i < |outs|
    ensures OutputCodec.OutputBytes(outs) == OutputCodec.OutputBytes(outs[..i])
      + (OutputCodec.One(outs[i]) + OutputCodec.OutputBytes(outs[i + 1..]))
    ensures OutputCodec.SerializeOutputs(outs) == VarInt(|outs|) + OutputCodec.OutputBytes(outs)
  {
    if i == 0 {
      assert outs[..0] == [];
    } else {
      OutputsLayout(outs[1..], i - 1);
      assert outs[..i][1..] == outs[1..][..i - 1] && outs[1..][i..] == outs[i + 1..];
      Joined(OutputCodec.One(outs[0]), OutputCodec.OutputBytes(outs[1..][..i - 1]),
        OutputCodec.One(outs[i]) + OutputCodec.OutputBytes(outs[i + 1..]));
    }
  }

  lemma Joined(a: bytes, b: bytes, c: bytes)
    ensures a + (b + c) == a + b + c
  {
  }
}
