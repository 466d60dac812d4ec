/**
 DATUM framing (src/models/datum/datum-codec.ts): a four-octet header scrambled with a
 key that rolls forward on every encrypted channel frame, and the reader that undoes it.
 */
module DatumFrame {
  import opened Bytes
  import opened Words

  const MAX_PAYLOAD_SIZE := 4194304
  const INITIAL_HEADER_KEY: u32 := 0xdc871829

  /** Field widths as the header packs them. */
  type bits22 = x: int | 0 <= x < 0x40_0000
  type bits2 = x: int | 0 <= x < 4
  type bits5 = x: int | 0 <= x < 32

  datatype Header = Header(
    cmdLen: bits22, reserved: bits2, isSigned: bool, isEncryptedPubkey: bool, isEncryptedChannel: bool, protoCmd: bits5)

  datatype Frame = Frame(header: Header, payload: bytes)

  // ---- 32-bit arithmetic ----

  function Imul(a: u32, b: u32): u32 { a * b % 0x1_0000_0000 }

  function RotateLeft15(k: u32): u32 { k % 0x2_0000 * 0x8000 + k / 0x2_0000 }

  function RotateLeft13(k: u32): u32 { k % 0x8_0000 * 0x2000 + k / 0x8_0000 }

  function XorShifted(k: u32, divisor: nat): u32
    requires divisor > 0
  {
    ShiftedFits(k, divisor);
    Xor(k, k / divisor)
  }

  lemma ShiftedFits(k: u32, divisor: nat)
    requires divisor > 0
    ensures 0 <= k / divisor < 0x1_0000_0000
  {
  }

  function Mix(k: u32): u32 { Imul(RotateLeft15(Imul(k, 0xcc9e2d51)), 0x1b873593) }

  function Fold(h: u32): u32 { (Imul(RotateLeft13(h), 5) + 0xe6546b64) % 0x1_0000_0000 }

  function Finish(h: u32): u32
  {
    XorShifted(Imul(XorShifted(Imul(XorShifted(h, 0x1_0000), 0x85ebca6b), 0x2000), 0xc2b2ae35), 0x1_0000)
  }

  /** The next header key. */
  function XorFeedback(input: u32): u32
  {
    Finish(Xor(Fold(Xor(0xb10cfeed, Mix(input))), 4))
  }

  function ShiftLeft(k: u32, factor: nat): u32
  {
    var wide: int := k;
    wide * factor % 0x1_0000_0000
  }

  lemma ShiftsAre(k: u32)
    ensures ShiftLeft(k, 0x8000) + k / 0x2_0000 == RotateLeft15(k)
    ensures ShiftLeft(k, 0x2000) + k / 0x8_0000 == RotateLeft13(k)
  {
    var wide: int := k;
    assert wide * 0x8000 == wide % 0x2_0000 * 0x8000 + wide / 0x2_0000 * 0x1_0000_0000;
    assert wide * 0x2000 == wide % 0x8_0000 * 0x2000 + wide / 0x8_0000 * 0x1_0000_0000;
  }

  /** `datumHeaderXorFeedback`, assignment by assignment; a shift to the left drops what leaves
      the word. */
  method DatumHeaderXorFeedback(input: u32) returns (h: u32)
    ensures h == XorFeedback(input)
  {
    h := 0xb10cfeed;
    var k := input;
    k := Imul(k, 0xcc9e2d51);
    ShiftsAre(k);
    k := ShiftLeft(k, 0x8000) + k / 0x2_0000;
    k := Imul(k, 0x1b873593);
    h := Xor(h, k);
    ShiftsAre(h);
    h := ShiftLeft(h, 0x2000) + h / 0x8_0000;
    h := (Imul(h, 5) + 0xe6546b64) % 0x1_0000_0000;
    h := Xor(h, 4);
    h := Finalize(h);
  }

  method Finalize(input: u32) returns (h: u32)
    ensures h == Finish(input)
  {
    h := Xor(input, input / 0x1_0000);
    h := Imul(h, 0x85ebca6b);
    h := Xor(h, h / 0x2000);
    h := Imul(h, 0xc2b2ae35);
    h := Xor(h, h / 0x1_0000);
  }

  // ---- header ----

  function Bit(b: bool): nat { if b then 1 else 0 }

  /** The fields side by side, `cmdLen` lowest and `protoCmd` highest. */
  function Pack(h: Header): u32
  {
    h.cmdLen + 0x40_0000 * (h.reserved + 4 * Flags(h))
  }

  function Flags(h: Header): (f: nat)
    ensures f < 256
  {
    Bit(h.isSigned) + 2 * Bit(h.isEncryptedPubkey) + 4 * Bit(h.isEncryptedChannel) + 8 * h.protoCmd
  }

  function Unpack(raw: u32): Header
  {
    var upper := raw / 0x40_0000;
    var flags := upper / 4;
    Header(raw % 0x40_0000, upper % 4, flags % 2 != 0, flags / 2 % 2 != 0, flags / 4 % 2 != 0, flags / 8)
  }

  lemma UnpackUndoesPack(h: Header)
    ensures Unpack(Pack(h)) == h
  {
    var upper := h.reserved + 4 * Flags(h);
    assert Pack(h) / 0x40_0000 == upper && Pack(h) % 0x40_0000 == h.cmdLen;
    assert upper / 4 == Flags(h) && upper % 4 == h.reserved;
    FlagsUnpack(h);
  }

  lemma FlagsUnpack(h: Header)
    ensures var f := Flags(h);
      (f % 2 != 0) == h.isSigned && (f / 2 % 2 != 0) == h.isEncryptedPubkey
      && (f / 4 % 2 != 0) == h.isEncryptedChannel && f / 8 == h.protoCmd
  {
    var low := Bit(h.isSigned) + 2 * Bit(h.isEncryptedPubkey) + 4 * Bit(h.isEncryptedChannel);
    assert Flags(h) == low + 8 * h.protoCmd && low < 8;
    assert Flags(h) / 8 == h.protoCmd && Flags(h) % 8 == low;
  }

  function EncodeHeader(h: Header, key: u32): (b: bytes)
    ensures |b| == 4
  {
    LE(Xor(Pack(h), key), 4)
  }

  function DecodeHeader(b: bytes, key: u32): Header
    requires |b| >= 4
  {
    Powers(); ToFromLE(b[..4]);
    Unpack(Xor(FromLE(b[..4]), key))
  }

  /** The octets of an unscrambled header: 22 bits of length, two reserved, then a bit for each
      flag and five for the command. */
  lemma HeaderOctets(h: Header)
    ensures var b := EncodeHeader(h, 0);
      && WordAt(b, 0) + 65536 * (OctetAt(b, 2) % 64) == h.cmdLen && OctetAt(b, 2) / 64 == h.reserved
      && OctetAt(b, 3) == (if h.isSigned then 1 else 0) + (if h.isEncryptedPubkey then 2 else 0)
           + (if h.isEncryptedChannel then 4 else 0) + 8 * h.protoCmd
  {
    XorWithZero(Pack(h));
    FourOctets(Pack(h));
    var b := EncodeHeader(h, 0);
    var low, third, fourth := WordAt(b, 0), OctetAt(b, 2), OctetAt(b, 3);
    assert low + 0x1_0000 * third + 0x100_0000 * fourth == h.cmdLen + 0x40_0000 * h.reserved + 0x100_0000 * Flags(h);
    OctetsOf(low, third, fourth, h.cmdLen, h.reserved, Flags(h));
  }

  lemma OctetsOf(low: nat, third: nat, fourth: nat, length: nat, reserved: nat, flags: nat)
    requires low < 0x1_0000 && third < 256 && length < 0x40_0000 && reserved < 4
    requires low + 0x1_0000 * third + 0x100_0000 * fourth == length + 0x40_0000 * reserved + 0x100_0000 * flags
    ensures fourth == flags && third / 64 == reserved && low + 65536 * (third % 64) == length
  {
  }

  /** A key turns exactly the header's bits at which it has a one. */
  lemma KeyTurnsBits(h: Header, key: u32, i: nat)
    requires i < 32
    ensures LongAt(EncodeHeader(h, key), 0) >= 0 && LongAt(EncodeHeader(h, 0), 0) >= 0
    ensures BitOf(LongAt(EncodeHeader(h, key), 0), i)
        == (BitOf(LongAt(EncodeHeader(h, 0), 0), i) + BitOf(key, i)) % 2
  {
    XorWithZero(Pack(h));
    FourOctets(Pack(h));
    FourOctets(Xor(Pack(h), key));
    XorBitOf(Pack(h), key, 32, i);
  }

  /** Decoding with the same key undoes encoding, for every header and key. */
  lemma HeaderRoundTrip(h: Header, key: u32, rest: bytes)
    ensures DecodeHeader(EncodeHeader(h, key) + rest, key) == h
  {
    Powers();
    FromToLE(Xor(Pack(h), key), 4);
    assert (EncodeHeader(h, key) + rest)[..4] == EncodeHeader(h, key);
    XorUndoes(Pack(h), key);
    UnpackUndoesPack(h);
  }

  lemma ClearHeader(key: u32)
    ensures EncodeHeader(Header(0, 0, false, false, false, 0), key) == LE(key, 4)
  {
    assert Pack(Header(0, 0, false, false, false, 0)) == 0;
    XorBitsCommute(0, key, 32);
    XorWithZero(key);
  }

  /** An all-clear header under the initial key is that key, least significant octet first. */
  lemma InitialKeyOctets()
    ensures EncodeHeader(Header(0, 0, false, false, false, 0), INITIAL_HEADER_KEY) == [0x29, 0x18, 0x87, 0xdc]
  {
    ClearHeader(INITIAL_HEADER_KEY);
    LowFirst(0x29, 0xdc8718, 3);
    LowFirst(0x18, 0xdc87, 2);
    LowFirst(0x87, 0xdc, 1);
    LowFirst(0xdc, 0, 0);
    assert LE(INITIAL_HEADER_KEY, 4) == [0x29] + ([0x18] + ([0x87] + ([0xdc] + LE(0, 0))));
  }

  lemma LowFirst(low: nat, high: nat, n: nat)
    requires low < 256
    ensures LE(low + 256 * high, n + 1) == [low] + LE(high, n)
  {
    assert (low + 256 * high) % 256 == low && (low + 256 * high) / 256 == high;
  }

  // ---- sender ----

  function FrameWire(f: Frame, key: u32): bytes
  {
    EncodeHeader(f.header, key) + f.payload
  }

  /** The key rolls only behind an encrypted channel frame. */
  function NextKey(h: Header, key: u32): u32
  {
    if h.isEncryptedChannel then XorFeedback(key) else key
  }

  function StreamWire(fs: seq<Frame>, key: u32): bytes
    decreases |fs|
  {
    if fs == [] then [] else FrameWire(fs[0], key) + StreamWire(fs[1..], NextKey(fs[0].header, key))
  }

  function KeyAfter(fs: seq<Frame>, key: u32): u32
    decreases |fs|
  {
    if fs == [] then key else KeyAfter(fs[1..], NextKey(fs[0].header, key))
  }

  // ---- reader ----

  function EncryptedCount(fs: seq<Frame>): nat
  {
    if fs == [] then 0 else (if fs[0].header.isEncryptedChannel then 1 else 0) + EncryptedCount(fs[1..])
  }

  function Turned(turn: u32 -> u32, key: u32, n: nat): u32
    decreases n
  {
    if n == 0 then key else Turned(turn, turn(key), n - 1)
  }

  /** The key turns once for each frame on the encrypted channel, and for no other. */
  lemma {:induction false} KeyTurnsPerEncrypted(fs: seq<Frame>, key: u32)
    ensures KeyAfter(fs, key) == Turned(XorFeedback, key, EncryptedCount(fs))
    decreases |fs|
  {
    if fs != [] { KeyTurnsPerEncrypted(fs[1..], NextKey(fs[0].header, key)); }
  }

  datatype Reader = Reader(buffer: bytes, key: u32)
  datatype Drained = Drained(frames: seq<Frame>, reader: Reader)

  function Prepend(fs: seq<Frame>, d: Drained): Drained { Drained(fs + d.frames, d.reader) }

  function Drain(s: Reader): Drained
    decreases |s.buffer|
  {
    if |s.buffer| < 4 then Drained([], s)
    else
      var h := DecodeHeader(s.buffer, s.key);
      if |s.buffer| < 4 + h.cmdLen then Drained([], s)
      else
        Prepend([Frame(h, s.buffer[4..4 + h.cmdLen])], Drain(Reader(s.buffer[4 + h.cmdLen..], NextKey(h, s.key))))
  }

  function Receive(s: Reader, data: bytes): Drained
  {
    Drain(s.(buffer := s.buffer + data))
  }

  function ReceiveAll(s: Reader, chunks: seq<bytes>): Drained
    decreases |chunks|
  {
    if chunks == [] then Drained([], s)
    else
      var d := Receive(s, chunks[0]);
      Prepend(d.frames, ReceiveAll(d.reader, chunks[1..]))
  }

  lemma PrependTwice(fs: seq<Frame>, gs: seq<Frame>, d: Drained)
    ensures Prepend(fs, Prepend(gs, d)) == Prepend(fs + gs, d)
    ensures Prepend([], d) == d
  {
    assert fs + (gs + d.frames) == fs + gs + d.frames;
  }

  lemma HeaderStays(b: bytes, data: bytes, key: u32)
    requires |b| >= 4
    ensures DecodeHeader(b + data, key) == DecodeHeader(b, key)
  {
    assert (b + data)[..4] == b[..4];
  }

  /** Draining early changes nothing. */
  lemma {:induction false} DrainSplits(s: Reader, data: bytes)
    ensures Receive(s, data) == Prepend(Drain(s).frames, Receive(Drain(s).reader, data))
    decreases |s.buffer|
  {
    if |s.buffer| >= 4 {
      HeaderStays(s.buffer, data, s.key);
      var h := DecodeHeader(s.buffer, s.key);
      var end := 4 + h.cmdLen;
      if |s.buffer| >= end {
        var all := s.buffer + data;
        var next := Reader(s.buffer[end..], NextKey(h, s.key));
        assert all[4..end] == s.buffer[4..end] && all[end..] == s.buffer[end..] + data;
        DrainSplits(next, data);
        PrependTwice([Frame(h, s.buffer[4..end])], Drain(next).frames, Receive(Drain(next).reader, data));
        return;
      }
    }
    PrependTwice([], [], Receive(s, data));
  }

  lemma {:induction false} DrainedIsQuiet(s: Reader)
    ensures Drain(Drain(s).reader) == Drained([], Drain(s).reader)
    decreases |s.buffer|
  {
    if |s.buffer| >= 4 {
      var h := DecodeHeader(s.buffer, s.key);
      if |s.buffer| >= 4 + h.cmdLen {
        DrainedIsQuiet(Reader(s.buffer[4 + h.cmdLen..], NextKey(h, s.key)));
      }
    }
  }

  lemma {:induction false} FeedingInPieces(s: Reader, chunks: seq<bytes>)
    requires Drain(s) == Drained([], s)
    ensures ReceiveAll(s, chunks) == Receive(s, Concat(chunks))
    decreases |chunks|
  {
    if chunks == [] {
      assert s.buffer + [] == s.buffer;
    } else {
      var first := s.(buffer := s.buffer + chunks[0]);
      assert s.buffer + Concat(chunks) == first.buffer + Concat(chunks[1..]);
      DrainSplits(first, Concat(chunks[1..]));
      DrainedIsQuiet(first);
      FeedingInPieces(Drain(first).reader, chunks[1..]);
    }
  }

  ghost predicate WellFormed(fs: seq<Frame>)
  {
    forall f :: f in fs ==> f.header.cmdLen == |f.payload|
  }

  lemma {:induction false} DrainUndoesStream(fs: seq<Frame>, key: u32)
    requires WellFormed(fs)
    ensures Drain(Reader(StreamWire(fs, key), key)) == Drained(fs, Reader([], KeyAfter(fs, key)))
    decreases |fs|
  {
    if fs != [] {
      var f, rest := fs[0], StreamWire(fs[1..], NextKey(fs[0].header, key));
      var all := StreamWire(fs, key);
      assert f in fs;
      assert all == EncodeHeader(f.header, key) + (f.payload + rest);
      HeaderRoundTrip(f.header, key, f.payload + rest);
      assert all[4..4 + |f.payload|] == f.payload && all[4 + |f.payload|..] == rest;
      DrainUndoesStream(fs[1..], NextKey(f.header, key));
      assert [f] + fs[1..] == fs;
    }
  }

  /** A reader that starts with the sender's key recovers every frame of the stream, however
      it is cut, and its key stays in step with the sender's. */
  lemma StreamRoundTrip(fs: seq<Frame>, key: u32, chunks: seq<bytes>)
    requires WellFormed(fs)
    requires Concat(chunks) == StreamWire(fs, key)
    ensures ReceiveAll(Reader([], key), chunks) == Drained(fs, Reader([], KeyAfter(fs, key)))
  {
    DrainUndoesStream(fs, key);
    FeedingInPieces(Reader([], key), chunks);
    assert [] + Concat(chunks) == Concat(chunks);
  }

  class DatumFrameReader {
    var buffer: bytes
    var headerXorKey: u32

    constructor (headerXorKey: u32 := INITIAL_HEADER_KEY)
      ensures State() == Reader([], headerXorKey)
    {
      buffer, this.headerXorKey := [], headerXorKey;
    }

    function State(): Reader
      reads this
    {
      Reader(buffer, headerXorKey)
    }

    method SetHeaderXorKey(key: u32)
      modifies this`headerXorKey
      ensures State() == Reader(buffer, key)
    {
      headerXorKey := key;
    }

    method Feed(data: bytes) returns (frames: seq<Frame>)
      modifies this
      ensures Drained(frames, State()) == Receive(old(State()), data)
    {
      ghost var spec := Receive(State(), data);
      buffer := buffer + data;
      frames := [];
      PrependTwice([], [], spec);
      while |buffer| >= 4
        invariant spec == Prepend(frames, Drain(State()))
        decreases |buffer|
      {
        var header := DecodeHeader(buffer, headerXorKey);
        if |buffer| < 4 + header.cmdLen {
          break;
        }
        var frame := Frame(header, buffer[4..4 + header.cmdLen]);
        PrependTwice(frames, [frame], Drain(Reader(buffer[4 + header.cmdLen..], NextKey(header, headerXorKey))));
        frames := frames + [frame];
        buffer := buffer[4 + header.cmdLen..];
        if header.isEncryptedChannel {
          headerXorKey := XorFeedback(headerXorKey);
        }
      }
      assert frames + [] == frames;
    }
  }
}
