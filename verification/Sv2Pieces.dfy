/**
 What stands on an encrypted Stratum V2 channel, octet by octet: the layout of a frame header
 (section 3.2 of the Stratum V2 specification) and the pieces of a sealed payload, none longer than
 the 65535 octets of a Noise message (section 3 of the Noise Protocol Framework), each with its
 16-octet tag (src/models/sv2/sv2-frame.ts).
 */
module Sv2Pieces {
  import opened Bytes
  import opened Sv2Frame

  // ---- the header ----

  /** Extension type, message type and length, least significant octets first. */
  lemma HeaderOctets(h: Header)
    ensures var b := EncodeHeader(h);
      && |b| == 6 && WordAt(b, 0) == h.extensionType && OctetAt(b, 2) == h.msgType
      && WordAt(b, 3) + 65536 * OctetAt(b, 5) == h.msgLength
  {
    var b := EncodeHeader(h);
    TwoOctets(h.extensionType);
    ThreeOctets(h.msgLength);
    assert b[..2] == LE(h.extensionType, 2) && b[3..] == LE(h.msgLength, 3);
    assert LE(h.msgType, 1) == [h.msgType];
  }

  /** The octets a frame starts with: the header itself, or the header sealed under the counter
      with its tag. */
  lemma HeaderOnWire(ch: Channel, n: nat, f: Frame)
    requires LawfulChannel(ch)
    ensures ch.Plain? ==> EncodeHeader(f.header) + f.payload == FrameWire(ch, n, f)
    ensures ch.Sealed? ==>
      && |FrameWire(ch, n, f)| >= 22
      && FrameWire(ch, n, f)[..22] == ch.aead.enc(n, EncodeHeader(f.header))
      && FrameWire(ch, n, f)[22..] == SealChunks(ch.aead, n + 1, f.payload)
  {
  }

  // ---- the pieces of a payload ----

  function Count(n: nat): nat { (n + 65518) / 65519 }

  lemma CountLess(n: nat)
    requires n > 0
    ensures n <= 65519 ==> Count(n) == 1
    ensures n > 65519 ==> Count(n) == 1 + Count(n - 65519)
  {
  }

  /** The k-th piece: the next 65519 octets of the payload, or what is left, under the k-th
      counter value from the first; it stands behind k full pieces of 65535 octets. */
  predicate Stands(aead: Aead, n: nat, payload: bytes, sealed: bytes, k: nat)
    requires 65519 * k < |payload|
  {
    var lo := 65519 * k;
    var hi := if |payload| - lo > 65519 then lo + 65519 else |payload|;
    var at, size := 65535 * k, hi - lo + 16;
    && size <= 65535 && at + size <= |sealed|
    && (hi < |payload| ==> size == 65535)
    && (hi == |payload| ==> at + size == |sealed|)
    && sealed[at..at + size] == aead.enc(n + k, payload[lo..hi])
  }

  lemma {:induction false} PieceAt(aead: Aead, n: nat, payload: bytes, k: nat)
    requires aead.Lawful() && 65519 * k < |payload|
    ensures Stands(aead, n, payload, SealChunks(aead, n, payload), k)
    decreases |payload|
  {
    FirstPiece(aead, n, payload);
    if k > 0 {
      var later := payload[65519..];
      PieceAt(aead, n + 1, later, k - 1);
      Shifted(aead, n, payload, aead.enc(n, payload[..65519]), SealChunks(aead, n + 1, later), k);
    }
  }

  lemma Shifted(aead: Aead, n: nat, payload: bytes, first: bytes, rest: bytes, k: nat)
    requires k > 0 && 65519 * k < |payload| && |first| == 65535
    requires Stands(aead, n + 1, payload[65519..], rest, k - 1)
    ensures Stands(aead, n, payload, first + rest, k)
  {
    var later, lo := payload[65519..], 65519 * (k - 1);
    var hi := if |later| - lo > 65519 then lo + 65519 else |later|;
    var at, size := 65535 * (k - 1), hi - lo + 16;
    assert (first + rest)[65535 * k..65535 * k + size] == rest[at..at + size];
    Within(payload, 65519, lo, hi);
  }

  lemma Within(b: bytes, from: nat, lo: nat, hi: nat)
    requires lo <= hi && from + hi <= |b|
    ensures b[from..][lo..hi] == b[from + lo..from + hi]
  {
  }

  lemma FirstPiece(aead: Aead, n: nat, payload: bytes)
    requires aead.Lawful() && payload != []
    ensures var k := if |payload| > 65519 then 65519 else |payload|;
      var first, rest := aead.enc(n, payload[..k]), SealChunks(aead, n + 1, payload[k..]);
      && |first| == k + 16 && SealChunks(aead, n, payload) == first + rest
      && SealChunks(aead, n, payload)[..k + 16] == first
      && (k == |payload| ==> rest == [])
  {
  }

  /** So a payload of `n` octets takes that many octets and 16 for each started 65519, and one
      counter value for each. */
  lemma SealedSize(n: nat)
    ensures PlaintextToCiphertextLength(n) == n + 16 * Count(n)
  {
    var q, r := n / 65519, n % 65519;
    assert n == 65519 * q + r;
    assert Count(n) == if r > 0 then q + 1 else q;
  }

  lemma {:induction false} CountersUsed(n: nat)
    ensures ChunkCount(n) == Count(n)
  {
    if n > 0 {
      CountLess(n);
      if n > 65519 { CountersUsed(n - 65519); }
    }
  }

  function Total(sizes: seq<nat>): nat
  {
    if sizes == [] then 0 else sizes[0] + Total(sizes[1..])
  }

  /** No split into pieces that are sealed within 65535 octets each takes fewer. */
  lemma {:induction false} FewestPieces(sizes: seq<nat>)
    requires forall i :: 0 <= i < |sizes| ==> sizes[i] + 16 <= 65535
    ensures |sizes| >= Count(Total(sizes))
    ensures PlaintextToCiphertextLength(Total(sizes)) <= Total(sizes) + 16 * |sizes|
  {
    SealedSize(Total(sizes));
    if sizes != [] {
      FewestPieces(sizes[1..]);
      assert Count(sizes[0] + Total(sizes[1..])) <= 1 + Count(Total(sizes[1..]));
    }
  }
}
