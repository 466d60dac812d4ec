/**
 The bytes of a coinbase transaction, where its input script sits among them, and the
 three ways of leaving a hole for the extranonce: the hex search of a mining job
 (src/models/MiningJob.ts), the patched length byte of an extended channel
 (src/utils/coinbase-prefix.utils.ts) and the split of a custom job
 (src/services/custom-work.service.ts).
 */
module CoinbaseBytes {
  import opened Bytes
  import opened Sequences

  // ---- Bitcoin's variable-length integers ----

  function VarInt(v: nat): (b: bytes)
    ensures |b| > 0
    ensures v < 0xfd ==> b == [v]
    ensures v >= 0xfd ==> b[0] >= 0xfd
  {
    if v < 0xfd then [v]
    else if v <= 0xffff then [0xfd] + LE(v, 2)
    else if v <= 0xffff_ffff then [0xfe] + LE(v, 4)
    else [0xff] + LE(v, 8)
  }

  const MAX_VARINT := 0x1_0000_0000_0000_0000

  /** How many octets follow the first one. */
  function Following(v: nat): nat
  {
    if v < 0xfd then 0 else if v <= 0xffff then 2 else if v <= 0xffff_ffff then 4 else 8
  }

  lemma VarIntTail(v: nat)
    requires 0xfd <= v < MAX_VARINT
    ensures VarInt(v)[1..] == LE(v, Following(v)) && FromLE(VarInt(v)[1..]) == v
  {
    Powers();
    FromToLE(v, Following(v));
    assert VarInt(v)[1..] == LE(v, Following(v));
  }

  /** No integer's encoding begins another's. */
  lemma VarIntPrefixFree(a: nat, b: nat)
    requires a < MAX_VARINT && b < MAX_VARINT && VarInt(a) <= VarInt(b)
    ensures a == b
  {
    assert VarInt(a)[0] == VarInt(b)[0];
    if a >= 0xfd {
      VarIntTail(a);
      VarIntTail(b);
      assert Following(a) == Following(b);
      assert VarInt(a) == VarInt(b);
    }
  }

  // ---- the transaction ----

  /** A coinbase without its witness; `outputs` is the list with its count in front. */
  datatype CoinbaseTx = CoinbaseTx(version: nat, script: bytes, sequence: nat, outputs: bytes, locktime: nat)

  const ZERO_HASH: bytes := [
    0, 0, 0, 0, 0, 0, 0, 0, 0, 0, 0, 0, 0, 0, 0, 0,
    0, 0, 0, 0, 0, 0, 0, 0, 0, 0, 0, 0, 0, 0, 0, 0]

  /** Where the script's length stands: version, input count, null outpoint. */
  const LENGTH_AT := 41

  function Front(version: nat): (b: bytes)
    ensures |b| == LENGTH_AT
  {
    LE(version, 4) + [1] + ZERO_HASH + LE(0xffff_ffff, 4)
  }

  function Back(tx: CoinbaseTx): bytes
  {
    LE(tx.sequence, 4) + tx.outputs + LE(tx.locktime, 4)
  }

  /** The serialization whose double hash is the transaction's id. */
  function Serialize(tx: CoinbaseTx): bytes
  {
    Front(tx.version) + VarInt(|tx.script|) + tx.script + Back(tx)
  }

  // ---- hexadecimal text ----

  type nibble = x: int | 0 <= x < 16

  function High(x: byte): nibble { x / 16 }

  function Low(x: byte): nibble { x % 16 }

  function Hex(b: bytes): (s: seq<nibble>)
    ensures |s| == 2 * |b|
  {
    if b == [] then [] else [High(b[0]), Low(b[0])] + Hex(b[1..])
  }

  function Octet(high: nibble, low: nibble): byte
  {
    var h: int, l: int := high, low;
    16 * h + l
  }

  function FromHex(s: seq<nibble>): (b: bytes)
    ensures |b| == |s| / 2
  {
    if |s| < 2 then [] else [Octet(s[0], s[1])] + FromHex(s[2..])
  }

  lemma {:induction false} HexAt(b: bytes, i: nat)
    requires i < |b|
    ensures Hex(b)[2 * i] == High(b[i]) && Hex(b)[2 * i + 1] == Low(b[i])
  {
    if i > 0 {
      HexAt(b[1..], i - 1);
      assert Hex(b)[2 * i] == Hex(b[1..])[2 * (i - 1)];
      assert Hex(b)[2 * i + 1] == Hex(b[1..])[2 * (i - 1) + 1];
    }
  }

  lemma {:induction false} FromHexUndoes(b: bytes)
    ensures FromHex(Hex(b)) == b
  {
    if b != [] {
      FromHexUndoes(b[1..]);
      assert Hex(b)[2..] == Hex(b[1..]);
    }
  }

  lemma {:induction false} HexJoin(a: bytes, b: bytes)
    ensures Hex(a + b) == Hex(a) + Hex(b)
  {
    if a == [] {
      assert a + b == b;
    } else {
      HexJoin(a[1..], b);
      assert (a + b)[1..] == a[1..] + b;
      var head := [High(a[0]), Low(a[0])];
      assert head + (Hex(a[1..]) + Hex(b)) == head + Hex(a[1..]) + Hex(b);
    }
  }

  lemma JoinSlices(h: seq<nibble>, t: seq<nibble>)
    ensures (h + t)[..|h|] == h && (h + t)[|h|..] == t
  {
  }

  lemma HexSplit(b: bytes, front: bytes, back: bytes)
    requires b == front + back
    ensures Hex(b)[..2 * |front|] == Hex(front) && Hex(b)[2 * |front|..] == Hex(back)
  {
    HexJoin(front, back);
    JoinSlices(Hex(front), Hex(back));
  }

  /** The first place a text occurs in another, or -1. */
  method IndexOf(hay: seq<nibble>, needle: seq<nibble>) returns (p: int)
    ensures p == -1 || OccursAt(hay, needle, p)
    ensures forall q :: 0 <= q && (p == -1 || q < p) ==> !OccursAt(hay, needle, q)
  {
    p := 0;
    while p + |needle| <= |hay|
      invariant 0 <= p
      invariant forall q :: 0 <= q < p ==> !OccursAt(hay, needle, q)
    {
      if hay[p..p + |needle|] == needle {
        return;
      }
      p := p + 1;
    }
    p := -1;
  }

  // ---- the script of a job ----

  const TOTAL_EXTRANONCE_SIZE := 12

  /** "pool.powermining.io" */
  const EXTRA: bytes := [
    0x70, 0x6f, 0x6f, 0x6c, 0x2e, 0x70, 0x6f, 0x77, 0x65, 0x72,
    0x6d, 0x69, 0x6e, 0x69, 0x6e, 0x67, 0x2e, 0x69, 0x6f]

  const MAX_HEIGHT_BYTES := 5
  const SCRIPT_SIZE := 35

  function Zeros(n: nat): (b: bytes)
    ensures |b| == n
    ensures forall i :: 0 <= i < n ==> b[i] == 0
  {
    seq(n, _ => 0)
  }

  /** Height, pool name, and padding that ends in the hole for the extranonce. */
  function JobScript(height: bytes): (s: bytes)
    requires |height| <= MAX_HEIGHT_BYTES
    ensures |s| == SCRIPT_SIZE
  {
    [|height|] + height + EXTRA + Zeros(TOTAL_EXTRANONCE_SIZE + 3 - |height|)
  }

  function JobCoinbase(height: bytes, outputs: bytes): CoinbaseTx
    requires |height| <= MAX_HEIGHT_BYTES
  {
    CoinbaseTx(2, JobScript(height), 0xffff_ffff, outputs, 0)
  }

  const SCRIPT_AT := 42
  const HOLE_AT := 65
  const AFTER_SCRIPT := 77

  predicate InFront(x: nibble) { x == 0 || x == 1 || x == 2 || x == 3 || x == 15 }

  predicate InFrontOctet(x: byte) { InFront(High(x)) && InFront(Low(x)) }

  lemma FrontWords()
    ensures LE(2, 4) == [2, 0, 0, 0] && LE(0xffff_ffff, 4) == [0xff, 0xff, 0xff, 0xff]
  {
    assert LE(2, 4) == [2, 0, 0, 0] by {
      assert LE(0, 3) == [0, 0, 0] by { assert LE(0, 2) == [0, 0]; }
    }
    assert LE(0xffff_ffff, 4) == [0xff, 0xff, 0xff, 0xff] by {
      assert LE(0xffff_ff, 3) == [0xff, 0xff, 0xff] by { assert LE(0xffff, 2) == [0xff, 0xff]; }
    }
  }

  lemma FrontOctets(k: nat)
    requires k < LENGTH_AT
    ensures InFrontOctet(Front(2)[k])
  {
    FrontWords();
    if 5 <= k < 37 {
      assert Front(2)[k] == ZERO_HASH[k - 5];
    }
  }

  lemma BeforeScript(tx: CoinbaseTx, k: nat)
    requires tx.version == 2 && |tx.script| == SCRIPT_SIZE && k < SCRIPT_AT
    ensures k < |Serialize(tx)| && InFrontOctet(Serialize(tx)[k])
  {
    var front, rest := Front(2), tx.script + Back(tx);
    assert Serialize(tx) == front + [SCRIPT_SIZE] + rest;
    if k < LENGTH_AT {
      FrontOctets(k);
    }
  }

  lemma NibbleOf(b: bytes, i: nat)
    requires i < 2 * |b|
    ensures Hex(b)[i] == High(b[i / 2]) || Hex(b)[i] == Low(b[i / 2])
  {
    HexAt(b, i / 2);
    assert i == 2 * (i / 2) || i == 2 * (i / 2) + 1;
  }

  lemma FrontNibbles(tx: CoinbaseTx, i: nat)
    requires tx.version == 2 && |tx.script| == SCRIPT_SIZE && i < 2 * SCRIPT_AT
    ensures i < |Hex(Serialize(tx))| && InFront(Hex(Serialize(tx))[i])
  {
    var octets, k := Serialize(tx), i / 2;
    BeforeScript(tx, k);
    NibbleOf(octets, i);
  }

  /** The first nibbles of the pool's name. */
  const NAME: seq<nibble> := [7, 0, 6, 15, 6, 15, 6, 12, 2, 14, 7, 0, 6, 15, 7, 7, 6, 5]

  lemma NameNibbles(height: bytes, j: nat)
    requires |height| <= MAX_HEIGHT_BYTES && j < |NAME|
    ensures Hex(JobScript(height))[2 + 2 * |height| + j] == NAME[j]
  {
    var script := JobScript(height);
    var k := 1 + |height| + j / 2;
    HexAt(script, k);
    assert script[k] == EXTRA[j / 2];
    assert High(EXTRA[j / 2]) == NAME[2 * (j / 2)] && Low(EXTRA[j / 2]) == NAME[2 * (j / 2) + 1];
  }

  lemma ScriptInPlace(tx: CoinbaseTx)
    requires |tx.script| == SCRIPT_SIZE
    ensures OccursAt(Hex(Serialize(tx)), Hex(tx.script), 2 * SCRIPT_AT)
  {
    var octets := Serialize(tx);
    var front := Front(tx.version) + [SCRIPT_SIZE];
    assert octets == front + (tx.script + Back(tx));
    HexSplit(octets, front, tx.script + Back(tx));
    HexJoin(tx.script, Back(tx));
  }

  /** The name never stands on top of itself. */
  lemma NameDiffers(d: nat)
    requires 0 < d <= 2 + 2 * MAX_HEIGHT_BYTES
    ensures var j := if d == 10 then 4 else 0; NAME[j] != NAME[j + d]
  {
  }

  lemma NameOverlaps(height: bytes, d: nat)
    requires |height| <= MAX_HEIGHT_BYTES && 0 < d <= 2 + 2 * |height|
    ensures var name, j := 2 + 2 * |height|, if d == 10 then 4 else 0;
      && name + j + d < |Hex(JobScript(height))|
      && Hex(JobScript(height))[name + j] != Hex(JobScript(height))[name + j + d]
  {
    var j := if d == 10 then 4 else 0;
    NameNibbles(height, j);
    NameNibbles(height, j + d);
    NameDiffers(d);
  }

  /** The script cannot stand anywhere before its own place: either the pool's name would
      lie over the fixed front, or the name would repeat itself with a short period. */
  lemma DiffersBefore(height: bytes, outputs: bytes, p: nat) returns (k: nat)
    requires |height| <= MAX_HEIGHT_BYTES && p < 2 * SCRIPT_AT
    ensures k < |Hex(JobScript(height))| && p + k < |Hex(Serialize(JobCoinbase(height, outputs)))|
    ensures Hex(Serialize(JobCoinbase(height, outputs)))[p + k] != Hex(JobScript(height))[k]
  {
    var tx := JobCoinbase(height, outputs);
    var name, d := 2 + 2 * |height|, 2 * SCRIPT_AT - p;
    if d > name {
      k := name;
      NameNibbles(height, 0);
      FrontNibbles(tx, p + k);
    } else {
      var j := if d == 10 then 4 else 0;
      k := name + j + d;
      NameOverlaps(height, d);
      InScript(tx, name + j);
    }
  }

  lemma InScript(tx: CoinbaseTx, i: nat)
    requires |tx.script| == SCRIPT_SIZE && i < 2 * SCRIPT_SIZE
    ensures 2 * SCRIPT_AT + i < |Hex(Serialize(tx))|
    ensures Hex(Serialize(tx))[2 * SCRIPT_AT + i] == Hex(tx.script)[i]
  {
    ScriptInPlace(tx);
    var hay, needle := Hex(Serialize(tx)), Hex(tx.script);
    assert hay[2 * SCRIPT_AT..2 * SCRIPT_AT + |needle|][i] == needle[i];
  }

  /** So the first occurrence of the script's text is the script. */
  lemma FirstOccurrence(height: bytes, outputs: bytes, p: int)
    requires |height| <= MAX_HEIGHT_BYTES
    requires p < 2 * SCRIPT_AT
    ensures !OccursAt(Hex(Serialize(JobCoinbase(height, outputs))), Hex(JobScript(height)), p)
  {
    var hay, needle := Hex(Serialize(JobCoinbase(height, outputs))), Hex(JobScript(height));
    if 0 <= p && p + |needle| <= |hay| {
      var k := DiffersBefore(height, outputs, p);
      assert hay[p..p + |needle|][k] == hay[p + k];
    }
  }

  lemma HexHalves(b: bytes, k: nat)
    requires k <= |b|
    ensures FromHex(Hex(b)[..2 * k]) == b[..k] && FromHex(Hex(b)[2 * k..]) == b[k..]
  {
    assert b == b[..k] + b[k..];
    HexSplit(b, b[..k], b[k..]);
    FromHexUndoes(b[..k]);
    FromHexUndoes(b[k..]);
  }

  /** The two halves a job keeps, as the hex search cuts them. */
  method SplitCoinbase(height: bytes, outputs: bytes) returns (part1: seq<nibble>, part2: seq<nibble>)
    requires |height| <= MAX_HEIGHT_BYTES
    ensures FromHex(part1) == Serialize(JobCoinbase(height, outputs))[..HOLE_AT]
    ensures FromHex(part2) == Serialize(JobCoinbase(height, outputs))[AFTER_SCRIPT..]
  {
    var tx := JobCoinbase(height, outputs);
    var serializedCoinbaseTx := Hex(Serialize(tx));
    var inputScript := Hex(tx.script);
    var index := IndexOf(serializedCoinbaseTx, inputScript);
    ScriptInPlace(tx);
    if index < 2 * SCRIPT_AT {
      FirstOccurrence(height, outputs, index);
    }
    var partOneIndex := index + |inputScript|;
    part1 := serializedCoinbaseTx[..partOneIndex - 2 * TOTAL_EXTRANONCE_SIZE];
    part2 := serializedCoinbaseTx[partOneIndex..];
    HexHalves(Serialize(tx), HOLE_AT);
    HexHalves(Serialize(tx), AFTER_SCRIPT);
  }

  // ---- filling the hole ----

  /** A coinbase whose script ends in the extranonce `e`. */
  function WithExtranonce(tx: CoinbaseTx, e: bytes): CoinbaseTx
    requires |tx.script| == SCRIPT_SIZE
  {
    tx.(script := tx.script[..SCRIPT_SIZE - TOTAL_EXTRANONCE_SIZE] + e)
  }

  /** Head and tail of a job around an extranonce, as the fast path joins them. */
  function Filled(tx: CoinbaseTx, e: bytes): bytes
    requires |tx.script| == SCRIPT_SIZE
  {
    Serialize(tx)[..HOLE_AT] + e + Serialize(tx)[AFTER_SCRIPT..]
  }

  lemma Halves(tx: CoinbaseTx)
    requires |tx.script| == SCRIPT_SIZE
    ensures Serialize(tx)[..HOLE_AT]
        == Front(tx.version) + [SCRIPT_SIZE] + tx.script[..SCRIPT_SIZE - TOTAL_EXTRANONCE_SIZE]
    ensures Serialize(tx)[AFTER_SCRIPT..] == Back(tx)
  {
    var front, script, back := Front(tx.version) + [SCRIPT_SIZE], tx.script, Back(tx);
    assert Serialize(tx) == front + script + back;
  }

  function AroundLength(tx: CoinbaseTx, length: bytes, e: bytes): bytes
    requires |tx.script| == SCRIPT_SIZE
  {
    Front(tx.version) + length + (tx.script[..SCRIPT_SIZE - TOTAL_EXTRANONCE_SIZE] + e + Back(tx))
  }

  lemma Regroup(front: bytes, length: bytes, script: bytes, e: bytes, back: bytes)
    ensures front + length + script + e + back == front + length + (script + e + back)
  {
  }

  lemma FullBytes(tx: CoinbaseTx, e: bytes)
    requires |tx.script| == SCRIPT_SIZE
    ensures Serialize(WithExtranonce(tx, e)) == AroundLength(tx, VarInt(SCRIPT_SIZE - TOTAL_EXTRANONCE_SIZE + |e|), e)
  {
    var full := WithExtranonce(tx, e);
    var front, length := Front(tx.version), VarInt(|full.script|);
    assert Back(full) == Back(tx);
    assert front + length + full.script + Back(tx) == front + length + (full.script + Back(tx));
  }

  lemma LengthsDiffer(tx: CoinbaseTx, a: bytes, b: bytes, e: bytes)
    requires |tx.script| == SCRIPT_SIZE && a != [] && b != []
    ensures AroundLength(tx, a, e)[LENGTH_AT] == a[0]
    ensures a[0] != b[0] ==> AroundLength(tx, a, e) != AroundLength(tx, b, e)
  {
    var front := Front(tx.version);
    assert AroundLength(tx, a, e)[|front|] == a[0];
    assert AroundLength(tx, b, e)[|front|] == b[0];
  }

  /** The joined bytes are the transaction's own serialization if and only if the
      extranonce has the size the hole was cut for. */
  lemma FilledIsSerialization(tx: CoinbaseTx, e: bytes)
    requires |tx.script| == SCRIPT_SIZE
    ensures Filled(tx, e) == Serialize(WithExtranonce(tx, e)) <==> |e| == TOTAL_EXTRANONCE_SIZE
  {
    Halves(tx);
    FullBytes(tx, e);
    var front, script := Front(tx.version), tx.script[..SCRIPT_SIZE - TOTAL_EXTRANONCE_SIZE];
    Regroup(front, [SCRIPT_SIZE], script, e, Back(tx));
    assert Filled(tx, e) == AroundLength(tx, [SCRIPT_SIZE], e);
    LengthsDiffer(tx, [SCRIPT_SIZE], VarInt(SCRIPT_SIZE - TOTAL_EXTRANONCE_SIZE + |e|), e);
  }

  // ---- extended channels ----

  const MAX_ONE_BYTE := 0xfc

  /** The head of a job sent to a channel whose extranonces take `total` octets. */
  function Patched(prefix: bytes, total: nat): (r: bytes)
    ensures |r| == |prefix|
  {
    if total == TOTAL_EXTRANONCE_SIZE || |prefix| < SCRIPT_AT then prefix
    else
      var nextLength := prefix[LENGTH_AT] + (total - TOTAL_EXTRANONCE_SIZE);
      if nextLength < 0 || nextLength > MAX_ONE_BYTE then prefix else prefix[LENGTH_AT := nextLength]
  }

  method PatchCoinbasePrefixVarint(prefix: bytes, total: nat) returns (r: bytes)
    ensures r == Patched(prefix, total)
  {
    if total == TOTAL_EXTRANONCE_SIZE {
      return prefix;
    }
    if |prefix| < SCRIPT_AT {
      return prefix;
    }
    var patched := new byte[|prefix|](i requires 0 <= i < |prefix| => prefix[i]);
    assert patched[..] == prefix;
    var nextLength := patched[LENGTH_AT] + (total - TOTAL_EXTRANONCE_SIZE);
    if nextLength < 0 || nextLength > MAX_ONE_BYTE {
      return prefix;
    }
    patched[LENGTH_AT] := nextLength;
    r := patched[..];
  }

  /** What an extended channel's miner hashes. */
  function FilledExtended(tx: CoinbaseTx, e: bytes): bytes
    requires |tx.script| == SCRIPT_SIZE
  {
    Patched(Serialize(tx)[..HOLE_AT], |e|) + e + Serialize(tx)[AFTER_SCRIPT..]
  }

  lemma PatchedHead(tx: CoinbaseTx, total: nat)
    requires |tx.script| == SCRIPT_SIZE
    ensures Patched(Serialize(tx)[..HOLE_AT], total) == Front(tx.version) + [PatchedLength(total)]
      + tx.script[..SCRIPT_SIZE - TOTAL_EXTRANONCE_SIZE]
  {
    Halves(tx);
    var head, front := Serialize(tx)[..HOLE_AT], Front(tx.version);
    assert head[LENGTH_AT] == SCRIPT_SIZE;
    assert Patched(head, total) == front + [PatchedLength(total)] + head[SCRIPT_AT..];
  }

  function PatchedLength(total: nat): byte
  {
    var next := SCRIPT_SIZE - TOTAL_EXTRANONCE_SIZE + total;
    if next <= MAX_ONE_BYTE then next else SCRIPT_SIZE
  }

  /** The patched head carries the right length, and so the miner hashes a serialization,
      if and only if the whole script still fits a one-octet length. */
  lemma ExtendedIsSerialization(tx: CoinbaseTx, e: bytes)
    requires |tx.script| == SCRIPT_SIZE
    ensures FilledExtended(tx, e) == Serialize(WithExtranonce(tx, e))
            <==> SCRIPT_SIZE - TOTAL_EXTRANONCE_SIZE + |e| <= MAX_ONE_BYTE
  {
    Halves(tx);
    PatchedHead(tx, |e|);
    FullBytes(tx, e);
    var front, script := Front(tx.version), tx.script[..SCRIPT_SIZE - TOTAL_EXTRANONCE_SIZE];
    var length := [PatchedLength(|e|)];
    Regroup(front, length, script, e, Back(tx));
    assert FilledExtended(tx, e) == AroundLength(tx, length, e);
    LengthsDiffer(tx, length, VarInt(SCRIPT_SIZE - TOTAL_EXTRANONCE_SIZE + |e|), e);
  }

  // ---- custom jobs ----

  datatype Split = Split(prefix: bytes, suffix: bytes)

  /** The halves of a declared coinbase whose script is `tx.script` and then an extranonce
      of `total` octets. */
  function CustomSplit(tx: CoinbaseTx, total: nat): Split
  {
    Split(Front(tx.version) + VarInt(|tx.script| + total) + tx.script, Back(tx))
  }

  method EncodeBitcoinVarInt(value: nat) returns (result: bytes)
    requires value < MAX_VARINT
    ensures result == VarInt(value)
  {
    if value < 0xfd {
      return [value];
    }
    if value <= 0xffff {
      return [0xfd] + LE(value, 2);
    }
    if value <= 0xffff_ffff {
      return [0xfe] + LE(value, 4);
    }
    result := [0xff] + LE(value, 8);
  }

  method BuildSv2CoinbaseSplit(tx: CoinbaseTx, total: nat) returns (split: Split)
    requires |tx.script| + total < MAX_VARINT
    ensures split == CustomSplit(tx, total)
  {
    var length := EncodeBitcoinVarInt(|tx.script| + total);
    var nullOutpoint := ZERO_HASH + LE(0xffff_ffff, 4);
    split := Split(LE(tx.version, 4) + [1] + nullOutpoint + length + tx.script,
                   LE(tx.sequence, 4) + tx.outputs + LE(tx.locktime, 4));
    assert LE(tx.version, 4) + [1] + nullOutpoint == Front(tx.version);
  }

  /** A custom job filled with an extranonce is the serialization of the coinbase with
      that script if and only if the extranonce has the announced size. */
  lemma CustomIsSerialization(tx: CoinbaseTx, total: nat, e: bytes)
    requires |tx.script| + total < MAX_VARINT && |tx.script| + |e| < MAX_VARINT
    ensures CustomSplit(tx, total).prefix + e + CustomSplit(tx, total).suffix == Serialize(tx.(script := tx.script + e))
            <==> |e| == total
  {
    var front, rest := Front(tx.version), tx.script + e + Back(tx);
    var a, b := VarInt(|tx.script| + total), VarInt(|tx.script| + |e|);
    Regroup(front, a, tx.script, e, Back(tx));
    CustomFull(tx, e);
    if front + a + rest == front + b + rest {
      SameMiddle(front, a, b, rest);
      VarIntPrefixFree(|tx.script| + total, |tx.script| + |e|);
    }
  }

  lemma CustomFull(tx: CoinbaseTx, e: bytes)
    ensures Serialize(tx.(script := tx.script + e)) ==
      Front(tx.version) + VarInt(|tx.script| + |e|) + (tx.script + e + Back(tx))
  {
    var full := tx.(script := tx.script + e);
    assert Back(full) == Back(tx);
    Regroup(Front(tx.version), VarInt(|tx.script| + |e|), tx.script, e, Back(tx));
    assert full.script + Back(tx) == tx.script + e + Back(tx);
    assert Serialize(full) == Front(tx.version) + VarInt(|full.script|) + (full.script + Back(tx));
  }

  lemma SameMiddle(front: bytes, a: bytes, b: bytes, rest: bytes)
    requires front + a + rest == front + b + rest
    ensures a == b
  {
    assert |a| == |b|;
    assert a == (front + a + rest)[|front|..|front| + |a|];
    assert b == (front + b + rest)[|front|..|front| + |b|];
  }
}
