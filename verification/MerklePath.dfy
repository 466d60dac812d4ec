/**
 The coinbase Merkle path (src/services/template-provider.service.ts) against the full
 Merkle tree, and the three loops that fold a coinbase hash along a path
 (src/services/custom-work.service.ts, src/models/MiningJob.ts,
 src/models/StratumV2Client.ts). The double SHA-256 is any function to 32 octets.
 */
module MerklePath {
  import opened Bytes

  const HASH_SIZE := 32

  datatype Hasher = Hasher(hash256: bytes -> bytes)
  {
    ghost predicate Lawful()
    {
      forall b: bytes :: |hash256(b)| == HASH_SIZE
    }
  }

  // ---- the tree ----

  /** The level above: neighbours hashed in pairs, a last odd one with itself. */
  function NextLevel(H: Hasher, level: seq<bytes>): (r: seq<bytes>)
    ensures |r| == (|level| + 1) / 2
  {
    if level == [] then []
    else if |level| == 1 then [H.hash256(level[0] + level[0])]
    else [H.hash256(level[0] + level[1])] + NextLevel(H, level[2..])
  }

  function Root(H: Hasher, level: seq<bytes>): bytes
    requires level != []
    decreases |level|
  {
    if |level| == 1 then level[0] else Root(H, NextLevel(H, level))
  }

  /** The sibling of the leftmost node on every level. */
  function Path(H: Hasher, level: seq<bytes>): seq<bytes>
    decreases |level|
  {
    if |level| <= 1 then [] else [level[1]] + Path(H, NextLevel(H, level))
  }

  function FoldPath(H: Hasher, leaf: bytes, path: seq<bytes>): bytes
    decreases |path|
  {
    if path == [] then leaf else FoldPath(H, H.hash256(leaf + path[0]), path[1..])
  }

  // ---- correctness of the path ----

  lemma LeftmostNext(H: Hasher, x: bytes, rest: seq<bytes>)
    requires rest != []
    ensures NextLevel(H, [x] + rest) == [H.hash256(x + rest[0])] + NextLevel(H, rest[1..])
  {
    assert ([x] + rest)[2..] == rest[1..];
  }

  /** Whatever hash stands in the leftmost place while the path is built, folding any
      coinbase hash along it gives the root of the tree with that hash in place. */
  lemma {:induction false} PathYieldsRoot(H: Hasher, placeholder: bytes, coinbase: bytes, txs: seq<bytes>)
    ensures FoldPath(H, coinbase, Path(H, [placeholder] + txs)) == Root(H, [coinbase] + txs)
    decreases |txs|
  {
    if txs != [] {
      var level, level' := [placeholder] + txs, [coinbase] + txs;
      var above := NextLevel(H, txs[1..]);
      LeftmostNext(H, placeholder, txs);
      LeftmostNext(H, coinbase, txs);
      assert level[1] == txs[0];
      PathYieldsRoot(H, H.hash256(placeholder + txs[0]), H.hash256(coinbase + txs[0]), above);
      assert Path(H, level)[1..] == Path(H, NextLevel(H, level));
    }
  }

  /** The path does not depend on the placeholder at all. */
  lemma {:induction false} PathIgnoresPlaceholder(H: Hasher, p: bytes, q: bytes, txs: seq<bytes>)
    ensures Path(H, [p] + txs) == Path(H, [q] + txs)
    decreases |txs|
  {
    if txs != [] {
      LeftmostNext(H, p, txs);
      LeftmostNext(H, q, txs);
      PathIgnoresPlaceholder(H, H.hash256(p + txs[0]), H.hash256(q + txs[0]), NextLevel(H, txs[1..]));
    }
  }

  /** One path and one root fix the coinbase hash, or exhibit a collision of the hash. */
  lemma {:induction false} FoldBinds(H: Hasher, c: bytes, d: bytes, path: seq<bytes>) returns (x: bytes, y: bytes)
    requires H.Lawful()
    requires |c| == HASH_SIZE && |d| == HASH_SIZE && c != d
    requires FoldPath(H, c, path) == FoldPath(H, d, path)
    ensures x != y && H.hash256(x) == H.hash256(y)
    decreases |path|
  {
    x, y := c + path[0], d + path[0];
    assert x[..HASH_SIZE] == c && y[..HASH_SIZE] == d;
    if H.hash256(x) != H.hash256(y) {
      x, y := FoldBinds(H, H.hash256(x), H.hash256(y), path[1..]);
    }
  }

  ghost predicate AllHashes(hs: seq<bytes>)
  {
    forall i :: 0 <= i < |hs| ==> |hs[i]| == HASH_SIZE
  }

  lemma {:induction false} PathIsHashes(H: Hasher, level: seq<bytes>)
    requires H.Lawful() && AllHashes(level)
    ensures AllHashes(Path(H, level))
    decreases |level|
  {
    if |level| > 1 {
      NextIsHashes(H, level);
      PathIsHashes(H, NextLevel(H, level));
    }
  }

  lemma {:induction false} NextIsHashes(H: Hasher, level: seq<bytes>)
    requires H.Lawful()
    ensures AllHashes(NextLevel(H, level))
  {
    if |level| > 1 { NextIsHashes(H, level[2..]); }
  }

  // ---- the tree by position ----

  /** Each node of the level above is the hash of two neighbours, the last one's right neighbour
      being itself where there is no other. */
  lemma {:induction false} NextLevelAt(H: Hasher, level: seq<bytes>, i: nat)
    requires 2 * i < |level|
    ensures NextLevel(H, level)[i]
        == H.hash256(level[2 * i] + (if 2 * i + 1 < |level| then level[2 * i + 1] else level[2 * i]))
  {
    if i > 0 { NextLevelAt(H, level[2..], i - 1); }
  }

  /** How many nodes stand at a height over `n` leaves. */
  function Width(n: nat, height: nat): nat
  {
    if height == 0 then n else (Width(n, height - 1) + 1) / 2
  }

  /** The node at a height and a position, hashed down to the leaves below it. */
  function Node(H: Hasher, leaves: seq<bytes>, height: nat, i: nat): bytes
    requires i < Width(|leaves|, height)
  {
    if height == 0 then leaves[i]
    else
      var left := Node(H, leaves, height - 1, 2 * i);
      var right := if 2 * i + 1 < Width(|leaves|, height - 1) then Node(H, leaves, height - 1, 2 * i + 1) else left;
      H.hash256(left + right)
  }

  /** The height of the tree: where one node is left. */
  function Height(n: nat): nat
  {
    if n <= 1 then 0 else 1 + Height((n + 1) / 2)
  }

  lemma {:induction false} WidthAbove(n: nat, height: nat)
    ensures Width((n + 1) / 2, height) == Width(n, height + 1)
  {
    if height > 0 { WidthAbove(n, height - 1); }
  }

  lemma {:induction false} NodesAbove(H: Hasher, leaves: seq<bytes>, above: seq<bytes>, height: nat)
    requires above == NextLevel(H, leaves)
    ensures Width(|above|, height) == Width(|leaves|, height + 1)
    ensures forall i :: 0 <= i < Width(|above|, height) ==> Node(H, above, height, i) == Node(H, leaves, height + 1, i)
  {
    WidthAbove(|leaves|, height);
    if height > 0 { NodesAbove(H, leaves, above, height - 1); }
    forall i | 0 <= i < Width(|above|, height)
      ensures Node(H, above, height, i) == Node(H, leaves, height + 1, i)
    {
      if height == 0 { NodeAboveLeaves(H, leaves, i); } else { NodeStep(H, leaves, above, height, i); }
    }
  }

  lemma NodeAboveLeaves(H: Hasher, leaves: seq<bytes>, i: nat)
    requires 2 * i < |leaves|
    ensures i < Width(|leaves|, 1) && Node(H, leaves, 1, i) == NextLevel(H, leaves)[i]
  {
    assert Width(|leaves|, 1) == (Width(|leaves|, 0) + 1) / 2;
    NextLevelAt(H, leaves, i);
  }

  lemma NodeStep(H: Hasher, leaves: seq<bytes>, above: seq<bytes>, height: nat, i: nat)
    requires height > 0 && i < Width(|above|, height) && i < Width(|leaves|, height + 1)
    requires Width(|above|, height - 1) == Width(|leaves|, height)
    requires forall k :: 0 <= k < Width(|above|, height - 1) ==>
      Node(H, above, height - 1, k) == Node(H, leaves, height, k)
    ensures Node(H, above, height, i) == Node(H, leaves, height + 1, i)
  {
    var left, right := NodeSplits(H, above, height, i);
    var left', right' := NodeSplits(H, leaves, height + 1, i);
  }

  lemma NodeSplits(H: Hasher, leaves: seq<bytes>, height: nat, i: nat) returns (left: bytes, right: bytes)
    requires height > 0 && i < Width(|leaves|, height)
    ensures 2 * i < Width(|leaves|, height - 1) && left == Node(H, leaves, height - 1, 2 * i)
    ensures right == if 2 * i + 1 < Width(|leaves|, height - 1) then Node(H, leaves, height - 1, 2 * i + 1) else left
    ensures Node(H, leaves, height, i) == H.hash256(left + right)
  {
    left := Node(H, leaves, height - 1, 2 * i);
    right := if 2 * i + 1 < Width(|leaves|, height - 1) then Node(H, leaves, height - 1, 2 * i + 1) else left;
  }

  lemma {:induction false} OneAtTop(n: nat)
    requires n > 0
    ensures Width(n, Height(n)) == 1
    ensures forall height :: 0 <= height < Height(n) ==> Width(n, height) > 1
  {
    if n > 1 {
      OneAtTop((n + 1) / 2);
      WidthAbove(n, Height((n + 1) / 2));
      forall height | 0 <= height < Height(n) ensures Width(n, height) > 1 {
        if height > 0 { WidthAbove(n, height - 1); }
      }
    }
  }

  /** The root is the one node left at the top. */
  lemma {:induction false} RootIsNode(H: Hasher, leaves: seq<bytes>)
    requires leaves != []
    ensures Width(|leaves|, Height(|leaves|)) == 1
    ensures Root(H, leaves) == Node(H, leaves, Height(|leaves|), 0)
    decreases |leaves|
  {
    OneAtTop(|leaves|);
    if |leaves| > 1 {
      var above := NextLevel(H, leaves);
      RootIsNode(H, above);
      NodesAbove(H, leaves, above, Height(|above|));
    }
  }

  /** The path holds, for every height below the top, the node beside the leftmost one. */
  lemma {:induction false} PathAt(H: Hasher, leaves: seq<bytes>, k: nat)
    requires leaves != []
    ensures |Path(H, leaves)| == Height(|leaves|)
    ensures k < Height(|leaves|) ==> 1 < Width(|leaves|, k) && Path(H, leaves)[k] == Node(H, leaves, k, 1)
    decreases |leaves|
  {
    OneAtTop(|leaves|);
    if |leaves| > 1 {
      var above := NextLevel(H, leaves);
      PathAt(H, above, if k > 0 then k - 1 else 0);
      if 0 < k < Height(|leaves|) {
        WidthAbove(|leaves|, k - 1);
        NodesAbove(H, leaves, above, k - 1);
      }
    }
  }

  // ---- the loops of the path builder and the three folds ----

  function PairHash(H: Hasher, level: seq<bytes>, i: nat): bytes
    requires i < |level|
  {
    H.hash256(level[i] + (if i + 1 < |level| then level[i + 1] else level[i]))
  }

  function PairEnd(level: seq<bytes>, i: nat): nat
  {
    if i + 2 <= |level| then i + 2 else |level|
  }

  lemma NextLevelAppend(H: Hasher, level: seq<bytes>, i: nat, done: seq<bytes>)
    requires i < |level|
    ensures done + NextLevel(H, level[i..]) == done + [PairHash(H, level, i)] + NextLevel(H, level[PairEnd(level, i)..])
  {
    var rest := level[i..];
    if i + 1 < |level| {
      assert rest[2..] == level[i + 2..];
      assert rest[0] == level[i] && rest[1] == level[i + 1];
    } else {
      assert rest == [level[i]];
      assert level[PairEnd(level, i)..] == [];
    }
    var tail := NextLevel(H, level[PairEnd(level, i)..]);
    assert NextLevel(H, rest) == [PairHash(H, level, i)] + tail;
    assert done + ([PairHash(H, level, i)] + tail) == done + [PairHash(H, level, i)] + tail;
  }

  /** One level's in-order pass over neighbouring pairs. */
  method HashLevel(H: Hasher, level: seq<bytes>) returns (nextLevel: seq<bytes>)
    ensures nextLevel == NextLevel(H, level)
    ensures forall i :: 0 <= i < (|level| + 1) / 2 ==>
      nextLevel[i] == H.hash256(level[2 * i] + (if 2 * i + 1 < |level| then level[2 * i + 1] else level[2 * i]))
  {
    nextLevel := [];
    var i := 0;
    assert level[0..] == level;
    while i < |level|
      invariant 0 <= i <= |level|
      invariant nextLevel + NextLevel(H, level[i..]) == NextLevel(H, level)
    {
      var left := level[i];
      var right := if i + 1 < |level| then level[i + 1] else left;
      NextLevelAppend(H, level, i, nextLevel);
      nextLevel := nextLevel + [H.hash256(left + right)];
      i := PairEnd(level, i);
    }
    assert nextLevel + [] == nextLevel;
    forall k | 0 <= k < (|level| + 1) / 2
      ensures nextLevel[k]
        == H.hash256(level[2 * k] + (if 2 * k + 1 < |level| then level[2 * k + 1] else level[2 * k]))
    {
      NextLevelAt(H, level, k);
    }
  }

  /** The coinbase stands leftmost, so `index` stays 0 and its sibling always exists
      while there is more than one node. */
  method BuildCoinbaseMerklePath(H: Hasher, txHashes: seq<bytes>) returns (path: seq<bytes>)
    ensures forall placeholder :: path == Path(H, [placeholder] + txHashes)
  {
    var placeholder: bytes := seq(HASH_SIZE, _ => 0);
    var level := [placeholder] + txHashes;
    ghost var spec := Path(H, level);
    var index := 0;
    path := [];
    assert path + spec == spec;
    while |level| > 1
      invariant index == 0
      invariant path + Path(H, level) == spec
      decreases |level|
    {
      var sibling := level[if index % 2 == 0 then index + 1 else index - 1];
      var nextLevel := HashLevel(H, level);
      assert Path(H, level) == [sibling] + Path(H, nextLevel);
      assert path + ([sibling] + Path(H, nextLevel)) == path + [sibling] + Path(H, nextLevel);
      path := path + [sibling];
      level := nextLevel;
      index := index / 2;
    }
    assert path + [] == path;
    forall q ensures path == Path(H, [q] + txHashes) {
      PathIgnoresPlaceholder(H, placeholder, q, txHashes);
    }
  }

  datatype PathCheck = PathOk | LengthMismatch(expected: nat, actual: nat) | Mismatch(position: nat)

  /** The comparison `validateTransactionData` makes: the first difference is reported. */
  method ComparePaths(path: seq<bytes>, expected: seq<bytes>) returns (r: PathCheck)
    ensures r.PathOk? <==> path == expected
    ensures r.LengthMismatch? <==> |path| != |expected|
    ensures r.LengthMismatch? ==> r == LengthMismatch(|expected|, |path|)
    ensures r.Mismatch? ==> r.position < |path| == |expected| && path[r.position] != expected[r.position]
    ensures r.Mismatch? ==> path[..r.position] == expected[..r.position]
  {
    if |path| != |expected| {
      return LengthMismatch(|expected|, |path|);
    }
    for i := 0 to |path|
      invariant path[..i] == expected[..i]
    {
      if path[i] != expected[i] {
        return Mismatch(i);
      }
    }
    assert path[..|path|] == path && expected[..|expected|] == expected;
    r := PathOk;
  }

  /** A path the validator accepts is the true one, so it leads any coinbase to the root
      of the block that coinbase completes. */
  method CheckCoinbaseMerklePath(H: Hasher, txHashes: seq<bytes>, expected: seq<bytes>) returns (r: PathCheck)
    ensures r.PathOk? <==> expected == Path(H, [seq(HASH_SIZE, _ => 0)] + txHashes)
    ensures r.PathOk? ==> forall coinbase :: FoldPath(H, coinbase, expected) == Root(H, [coinbase] + txHashes)
  {
    var path := BuildCoinbaseMerklePath(H, txHashes);
    r := ComparePaths(path, expected);
    if r.PathOk? {
      forall coinbase ensures FoldPath(H, coinbase, expected) == Root(H, [coinbase] + txHashes) {
        PathYieldsRoot(H, seq(HASH_SIZE, _ => 0), coinbase, txHashes);
      }
    }
  }

  /** Copy a hash into one half of the pair buffer. */
  method CopyHash(pair: array<byte>, offset: nat, h: bytes)
    requires |h| == HASH_SIZE && offset + HASH_SIZE <= pair.Length
    modifies pair
    ensures pair[..] == old(pair[..offset]) + h + old(pair[offset + HASH_SIZE..])
  {
    forall i | 0 <= i < HASH_SIZE {
      pair[offset + i] := h[i];
    }
  }

  lemma FoldNext(H: Hasher, root: bytes, path: seq<bytes>, i: nat)
    requires i < |path|
    ensures FoldPath(H, root, path[i..]) == FoldPath(H, H.hash256(root + path[i]), path[i + 1..])
  {
    assert path[i..][1..] == path[i + 1..];
  }

  /** The fold of a share against a custom job. */
  method ComputeMerkleRoot(H: Hasher, coinbaseTx: bytes, merklePath: seq<bytes>) returns (merkleRoot: bytes)
    requires H.Lawful() && AllHashes(merklePath)
    ensures merkleRoot == FoldPath(H, H.hash256(coinbaseTx), merklePath)
  {
    merkleRoot := H.hash256(coinbaseTx);
    var pair := new byte[2 * HASH_SIZE](_ => 0);
    assert merklePath[0..] == merklePath;
    for i := 0 to |merklePath|
      invariant |merkleRoot| == HASH_SIZE
      invariant FoldPath(H, merkleRoot, merklePath[i..]) == FoldPath(H, H.hash256(coinbaseTx), merklePath)
    {
      forall k | 0 <= k < pair.Length {
        pair[k] := 0;
      }
      CopyHash(pair, 0, merkleRoot);
      CopyHash(pair, HASH_SIZE, merklePath[i]);
      assert pair[..] == merkleRoot + merklePath[i];
      FoldNext(H, merkleRoot, merklePath, i);
      merkleRoot := H.hash256(pair[..]);
    }
  }

  /** The fold of a job's header, whose result is the buffer's own first half. */
  method CalculateMerkleRootHash(H: Hasher, coinbaseHash: bytes, merkleBranches: seq<bytes>) returns (root: bytes)
    requires H.Lawful() && AllHashes(merkleBranches) && |coinbaseHash| == HASH_SIZE
    ensures root == FoldPath(H, coinbaseHash, merkleBranches)
  {
    var bothMerkles := new byte[2 * HASH_SIZE](_ => 0);
    CopyHash(bothMerkles, 0, coinbaseHash);
    assert bothMerkles[..HASH_SIZE] == coinbaseHash;
    assert merkleBranches[0..] == merkleBranches;
    for i := 0 to |merkleBranches|
      invariant FoldPath(H, bothMerkles[..HASH_SIZE], merkleBranches[i..]) == FoldPath(H, coinbaseHash, merkleBranches)
    {
      ghost var newRoot := bothMerkles[..HASH_SIZE];
      CopyHash(bothMerkles, HASH_SIZE, merkleBranches[i]);
      assert bothMerkles[..] == newRoot + merkleBranches[i];
      FoldNext(H, newRoot, merkleBranches, i);
      var next := H.hash256(bothMerkles[..]);
      CopyHash(bothMerkles, 0, next);
      assert bothMerkles[..HASH_SIZE] == next;
    }
    root := bothMerkles[..HASH_SIZE];
  }

  /** The fold of an extended-channel share, over a reused buffer. */
  method FoldShareMerkleRoot(H: Hasher, coinbaseTx: bytes, merklePath: seq<bytes>) returns (merkleRoot: bytes)
    requires H.Lawful() && AllHashes(merklePath)
    ensures merkleRoot == FoldPath(H, H.hash256(coinbaseTx), merklePath)
  {
    merkleRoot := H.hash256(coinbaseTx);
    var merklePair := new byte[2 * HASH_SIZE](_ => 0);
    assert merklePath[0..] == merklePath;
    for i := 0 to |merklePath|
      invariant |merkleRoot| == HASH_SIZE
      invariant FoldPath(H, merkleRoot, merklePath[i..]) == FoldPath(H, H.hash256(coinbaseTx), merklePath)
    {
      CopyHash(merklePair, 0, merkleRoot);
      CopyHash(merklePair, HASH_SIZE, merklePath[i]);
      assert merklePair[..] == merkleRoot + merklePath[i];
      FoldNext(H, merkleRoot, merklePath, i);
      merkleRoot := H.hash256(merklePair[..]);
    }
  }
}
