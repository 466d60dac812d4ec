/**
 Octets, little-endian integers and their round trips.
 */
module Bytes {
  datatype Option<+T> = None | Some(value: T)
  {
    predicate IsFailure() { None? }

    function PropagateFailure<U>(): Option<U>
      requires None?
    {
      None
    }

    function Extract(): T
      requires Some?
    {
      value
    }
  }

  type byte = x: int | 0 <= x < 256
  type bytes = seq<byte>

  /** An octet as a number. */
  function OctetAt(b: bytes, i: nat): int
    requires i < |b|
  {
    b[i]
  }

  /** Two octets, the less significant first. */
  function WordAt(b: bytes, i: nat): int
    requires i + 2 <= |b|
  {
    OctetAt(b, i) + 256 * OctetAt(b, i + 1)
  }

  /** Four octets, least significant first. */
  function LongAt(b: bytes, i: nat): int
    requires i + 4 <= |b|
  {
    WordAt(b, i) + 65536 * WordAt(b, i + 2)
  }

  function Pow256(n: nat): (p: nat)
    ensures p >= 1
  {
    if n == 0 then 1 else 256 * Pow256(n - 1)
  }

  /** `v` in `n` octets, least significant first; higher digits are cut off. */
  function LE(v: nat, n: nat): (b: bytes)
    ensures |b| == n
  {
    if n == 0 then [] else [v % 256] + LE(v / 256, n - 1)
  }

  function FromLE(b: bytes): nat
  {
    if b == [] then 0 else b[0] + 256 * FromLE(b[1..])
  }

  lemma {:induction false} FromToLE(v: nat, n: nat)
    requires v < Pow256(n)
    ensures FromLE(LE(v, n)) == v
  {
    if n > 0 {
      FromToLE(v / 256, n - 1);
      assert LE(v, n)[1..] == LE(v / 256, n - 1);
    }
  }

  lemma {:induction false} ToFromLE(b: bytes)
    ensures FromLE(b) < Pow256(|b|)
    ensures LE(FromLE(b), |b|) == b
  {
    if b != [] {
      ToFromLE(b[1..]);
      assert FromLE(b) / 256 == FromLE(b[1..]);
    }
  }

  lemma Powers()
    ensures Pow256(1) == 0x100 && Pow256(2) == 0x1_0000 && Pow256(3) == 0x100_0000 && Pow256(4) == 0x1_0000_0000
    ensures Pow256(8) == 0x1_0000_0000_0000_0000
  {
    assert Pow256(8) == 256 * 256 * 256 * 256 * Pow256(4);
  }

  function Concat(parts: seq<bytes>): bytes
  {
    if parts == [] then [] else parts[0] + Concat(parts[1..])
  }

  // ---- little-endian integers, octet by octet ----

  lemma TwoOctets(v: nat)
    requires v < 0x1_0000
    ensures WordAt(LE(v, 2), 0) == v
  {
    assert LE(v, 2) == [v % 256] + LE(v / 256, 1);
    assert LE(v / 256, 1) == [v / 256];
  }

  lemma ThreeOctets(v: nat)
    requires v < 0x100_0000
    ensures WordAt(LE(v, 3), 0) + 65536 * OctetAt(LE(v, 3), 2) == v
  {
    assert LE(v, 3) == [v % 256] + LE(v / 256, 2);
    TwoOctets(v / 256);
  }

  lemma FourOctets(v: nat)
    requires v < 0x1_0000_0000
    ensures LongAt(LE(v, 4), 0) == v
  {
    assert LE(v, 4) == [v % 256] + LE(v / 256, 3);
    ThreeOctets(v / 256);
  }
}
