/**
 The encrypted DATUM channel (src/models/datum/datum-crypto.ts): frames sealed under a
 192-bit nonce that is incremented in place, limb by limb, with the header key rolling
 alongside.
 */
module DatumChannel {
  import opened Bytes
  import opened DatumFrame
  import opened Words

  const BOX_MAC_SIZE := 16
  const LIMB := 0x1_0000_0000
  const NONCE_LIMBS := 6

  /** 2 to the power 192. */
  const NONCE_SPACE := 0x1_000000000000_000000000000_000000000000_000000000000

  /** crypto_box under the shared secret: the nonce as a number. */
  datatype Box = Box(enc: (nat, bytes) -> bytes, dec: (nat, bytes) -> Option<bytes>, sign: bytes -> bytes)
  {
    ghost predicate Lawful()
    {
      && (forall n: nat, p: bytes :: |enc(n, p)| == |p| + BOX_MAC_SIZE)
      && (forall n: nat, p: bytes :: dec(n, enc(n, p)) == Some(p))
    }
  }

  // ---- the nonce ----

  /** The nonce buffer as its little-endian 32-bit limbs. */
  function Value(limbs: seq<u32>): nat
  {
    if limbs == [] then 0 else limbs[0] + LIMB * Value(limbs[1..])
  }

  function Space(n: nat): nat
  {
    if n == 0 then 1 else LIMB * Space(n - 1)
  }

  /** Add one to the lowest limb and carry while limbs wrap to zero. */
  function Increment(limbs: seq<u32>): (r: seq<u32>)
    ensures |r| == |limbs|
  {
    if limbs == [] then []
    else
      var next := (limbs[0] + 1) % LIMB;
      [next] + (if next != 0 then limbs[1..] else Increment(limbs[1..]))
  }

  /** The carry counts modulo the whole nonce space. */
  lemma {:induction false} IncrementCounts(limbs: seq<u32>)
    ensures Value(limbs) < Space(|limbs|)
    ensures Value(Increment(limbs)) == if Value(limbs) + 1 == Space(|limbs|) then 0 else Value(limbs) + 1
  {
    if limbs != [] {
      IncrementCounts(limbs[1..]);
      var next := (limbs[0] + 1) % LIMB;
      assert Increment(limbs)[1..] == if next != 0 then limbs[1..] else Increment(limbs[1..]);
    }
  }

  lemma SpaceOfSix()
    ensures Space(NONCE_LIMBS) == NONCE_SPACE
  {
    assert Space(3) == LIMB * (LIMB * (LIMB * 1));
    assert Space(6) == LIMB * (LIMB * (LIMB * Space(3)));
  }

  /** Limbs below `i` wrap to zero, limb `i` absorbs the carry, the rest stay. */
  lemma {:induction false} IncrementAt(limbs: seq<u32>, i: nat)
    requires i <= |limbs|
    requires forall j :: 0 <= j < i ==> limbs[j] == LIMB - 1
    requires i < |limbs| ==> limbs[i] != LIMB - 1
    ensures forall j :: 0 <= j < |limbs| ==>
      Increment(limbs)[j] == if j < i then 0 else if j == i then limbs[j] + 1 else limbs[j]
  {
    if i > 0 { IncrementAt(limbs[1..], i - 1); }
  }

  method IncrementNonce(nonce: array<u32>)
    modifies nonce
    ensures nonce[..] == Increment(old(nonce[..]))
  {
    ghost var before := nonce[..];
    var i := 0;
    while i < nonce.Length
      invariant 0 <= i <= nonce.Length
      invariant forall j :: 0 <= j < i ==> before[j] == LIMB - 1 && nonce[j] == 0
      invariant forall j :: i <= j < nonce.Length ==> nonce[j] == before[j]
    {
      var next := (nonce[i] + 1) % LIMB;
      nonce[i] := next;
      if next != 0 {
        IncrementAt(before, i);
        return;
      }
      i := i + 1;
    }
    IncrementAt(before, i);
  }

  /** The nonce after `n`. */
  function NextNonce(n: nat): nat
  {
    if n + 1 == Space(NONCE_LIMBS) then 0 else n + 1
  }

  // ---- the channel as a function ----

  datatype Message = Message(protoCmd: bits5, payload: bytes, signed: bool)

  function Body(box: Box, m: Message): bytes
  {
    if m.signed then m.payload + box.sign(m.payload) else m.payload
  }

  /** Header lengths stop short of the payload limit. */
  predicate Fits(box: Box, m: Message, n: nat)
  {
    |box.enc(n, Body(box, m))| <= MAX_PAYLOAD_SIZE - 1
  }

  function SealedFrame(box: Box, m: Message, n: nat): Frame
    requires Fits(box, m, n)
  {
    var sealed := box.enc(n, Body(box, m));
    Frame(Header(|sealed|, 0, m.signed, false, true, m.protoCmd), sealed)
  }

  /** The nonce of the k-th frame counted from `n`. */
  function NonceAt(n: nat, k: nat): nat
  {
    (n + k) % NONCE_SPACE
  }

  ghost predicate AllFit(box: Box, ms: seq<Message>, n: nat)
  {
    forall k :: 0 <= k < |ms| ==> Fits(box, ms[k], NonceAt(n, k))
  }

  function SealedFrames(box: Box, ms: seq<Message>, n: nat): (fs: seq<Frame>)
    requires forall k :: 0 <= k < |ms| ==> Fits(box, ms[k], NonceAt(n, k))
    ensures |fs| == |ms|
    ensures forall k :: 0 <= k < |ms| ==> fs[k] == SealedFrame(box, ms[k], NonceAt(n, k))
  {
    seq(|ms|, k requires 0 <= k < |ms| => SealedFrame(box, ms[k], NonceAt(n, k)))
  }

  /** Opening each received payload with the next nonce. */
  function OpenAll(box: Box, fs: seq<Frame>, n: nat): seq<Option<bytes>>
  {
    seq(|fs|, k requires 0 <= k < |fs| => box.dec(NonceAt(n, k), fs[k].payload))
  }

  /** For every sequence of channel messages and every way of cutting the octets, the
      receiver gets one frame per message and opens each to its body, the k-th one under
      the nonce (initial + k) mod 2^192. */
  lemma ChannelRoundTrip(box: Box, ms: seq<Message>, key: u32, n: nat, chunks: seq<bytes>)
    requires box.Lawful() && AllFit(box, ms, n)
    requires Concat(chunks) == StreamWire(SealedFrames(box, ms, n), key)
    ensures var got := ReceiveAll(Reader([], key), chunks);
      && got.reader == Reader([], KeyAfter(SealedFrames(box, ms, n), key))
      && |got.frames| == |ms|
      && (forall k :: 0 <= k < |ms| ==>
            got.frames[k].header
                == Header(|Body(box, ms[k])| + BOX_MAC_SIZE, 0, ms[k].signed, false, true, ms[k].protoCmd))
      && OpenAll(box, got.frames, n) == seq(|ms|, k requires 0 <= k < |ms| =>
           Some(ms[k].payload + (if ms[k].signed then box.sign(ms[k].payload) else [])))
  {
    StreamRoundTrip(SealedFrames(box, ms, n), key, chunks);
    forall m: Message ensures m.payload + (if m.signed then box.sign(m.payload) else []) == Body(box, m) {}
  }

  // ---- the session ----

  class DatumCryptoSession {
    const box: Box
    const sendNonce: array<u32>
    const receiveNonce: array<u32>
    var sendHeaderKey: u32
    var receiveHeaderKey: u32

    ghost predicate Valid()
    {
      sendNonce != receiveNonce && sendNonce.Length == NONCE_LIMBS && receiveNonce.Length == NONCE_LIMBS
    }

    constructor (box: Box, sendNonce: array<u32>, receiveNonce: array<u32>, sendKey: u32, receiveKey: u32)
      requires sendNonce != receiveNonce && sendNonce.Length == NONCE_LIMBS && receiveNonce.Length == NONCE_LIMBS
      ensures Valid() && this.box == box && this.sendNonce == sendNonce && this.receiveNonce == receiveNonce
      ensures sendHeaderKey == sendKey && receiveHeaderKey == receiveKey
    {
      this.box, this.sendNonce, this.receiveNonce := box, sendNonce, receiveNonce;
      sendHeaderKey, receiveHeaderKey := sendKey, receiveKey;
    }

    /** The octets of one frame; None, nothing consumed, when the length does not fit. */
    method EncryptChannelFrame(m: Message) returns (r: Option<bytes>)
      requires Valid()
      modifies sendNonce, this`sendHeaderKey
      ensures var n := old(Value(sendNonce[..]));
        if Fits(box, m, n)
        then r == Some(FrameWire(SealedFrame(box, m, n), old(sendHeaderKey)))
          && sendHeaderKey == XorFeedback(old(sendHeaderKey))
          && Value(sendNonce[..]) == NextNonce(n)
        else r == None && sendHeaderKey == old(sendHeaderKey) && sendNonce[..] == old(sendNonce[..])
      ensures r.None? <==> |box.enc(old(Value(sendNonce[..])), Body(box, m))| > 4_194_303
    {
      var sealed := box.enc(Value(sendNonce[..]), Body(box, m));
      if |sealed| > MAX_PAYLOAD_SIZE - 1 {
        return None;
      }
      var frame := Frame(Header(|sealed|, 0, m.signed, false, true, m.protoCmd), sealed);
      r := Some(FrameWire(frame, sendHeaderKey));
      IncrementCounts(sendNonce[..]);
      IncrementNonce(sendNonce);
      sendHeaderKey := XorFeedback(sendHeaderKey);
    }

    /** None, nothing consumed, when the payload does not open. */
    method DecryptChannelPayload(payload: bytes) returns (r: Option<bytes>)
      requires Valid()
      modifies receiveNonce, this`receiveHeaderKey
      ensures var n := old(Value(receiveNonce[..]));
        && r == box.dec(n, payload)
        && (r.Some? ==> Value(receiveNonce[..]) == NextNonce(n))
        && (r.Some? ==> receiveHeaderKey == XorFeedback(old(receiveHeaderKey)))
        && (r.None? ==> receiveNonce[..] == old(receiveNonce[..]) && receiveHeaderKey == old(receiveHeaderKey))
    {
      r := box.dec(Value(receiveNonce[..]), payload);
      if r.Some? {
        IncrementCounts(receiveNonce[..]);
        IncrementNonce(receiveNonce);
        receiveHeaderKey := XorFeedback(receiveHeaderKey);
      }
    }
  }

  /** Stepping from one frame's nonce to the next is what the session's increment does. */
  lemma NonceSteps(n: nat, k: nat)
    ensures NonceAt(n, k + 1) == NextNonce(NonceAt(n, k))
    ensures n < NONCE_SPACE ==> NonceAt(n, 0) == n
  {
    SpaceOfSix();
  }
}
