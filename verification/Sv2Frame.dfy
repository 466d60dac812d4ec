/**
 Stratum V2 framing (src/models/sv2/sv2-frame.ts) over an AEAD whose nonce is a
 counter (src/models/sv2/sv2-noise.ts, `Sv2CipherState`), as functions of the
 received octets: what the writer emits, what the reader returns, and that the one
 undoes the other however the stream is cut. Sv2Connection.dfy holds the classes.
 */
module Sv2Frame {
  import opened Bytes

  const HEADER_SIZE := 6
  const MAC_SIZE := 16
  const ENCRYPTED_HEADER_SIZE := HEADER_SIZE + MAC_SIZE
  const MAX_PLAINTEXT_CHUNK := 65519

  /** Counters from here on do not fit the 64-bit nonce. */
  const NONCE_LIMIT := 0x1_0000_0000_0000_0000

  type u8 = x: int | 0 <= x < 0x100
  type u16 = x: int | 0 <= x < 0x1_0000
  type u24 = x: int | 0 <= x < 0x100_0000

  datatype Header = Header(extensionType: u16, msgType: u8, msgLength: u24)
  datatype Frame = Frame(header: Header, payload: bytes)

  // ---- header ----

  function EncodeHeader(h: Header): (b: bytes)
    ensures |b| == HEADER_SIZE
  {
    LE(h.extensionType, 2) + LE(h.msgType, 1) + LE(h.msgLength, 3)
  }

  function DecodeHeader(b: bytes): Option<Header>
  {
    if |b| < HEADER_SIZE then None
    else
      Powers();
      ToFromLE(b[0..2]); ToFromLE(b[2..3]); ToFromLE(b[3..6]);
      Some(Header(FromLE(b[0..2]), FromLE(b[2..3]), FromLE(b[3..6])))
  }

  lemma HeaderRoundTrip(h: Header)
    ensures DecodeHeader(EncodeHeader(h)) == Some(h)
  {
    Powers();
    var b := EncodeHeader(h);
    FromToLE(h.extensionType, 2);
    FromToLE(h.msgType, 1);
    FromToLE(h.msgLength, 3);
    assert b[0..2] == LE(h.extensionType, 2) && b[2..3] == LE(h.msgType, 1) && b[3..6] == LE(h.msgLength, 3);
  }

  /** Nothing but the encoding of the decoded header decodes to it. */
  lemma HeaderIsCanonical(b: bytes)
    requires |b| == HEADER_SIZE
    ensures DecodeHeader(b).Some? && EncodeHeader(DecodeHeader(b).value) == b
  {
    ToFromLE(b[0..2]);
    ToFromLE(b[2..3]);
    ToFromLE(b[3..6]);
    assert b == b[0..2] + b[2..3] + b[3..6];
  }

  // ---- lengths ----

  function PlaintextToCiphertextLength(n: nat): nat
  {
    if n == 0 then 0
    else
      var rest := n % MAX_PLAINTEXT_CHUNK;
      n / MAX_PLAINTEXT_CHUNK * (MAX_PLAINTEXT_CHUNK + MAC_SIZE) + (if rest > 0 then rest + MAC_SIZE else 0)
  }

  function CiphertextToPlaintextLength(n: nat): Option<nat>
  {
    if n == 0 then Some(0)
    else
      var size := MAX_PLAINTEXT_CHUNK + MAC_SIZE;
      var rest := n % size;
      if 0 < rest <= MAC_SIZE then None
      else Some(n / size * MAX_PLAINTEXT_CHUNK + (if rest > 0 then rest - MAC_SIZE else 0))
  }

  /** The two length functions are inverse; the second fails exactly off the image of the first. */
  lemma LengthsInvert(n: nat, m: nat)
    ensures CiphertextToPlaintextLength(m) == Some(n) <==> PlaintextToCiphertextLength(n) == m
  {
    PlaintextBack(n);
    CiphertextBack(m);
  }

  lemma ChunkDivided(q: nat, r: nat)
    requires r < MAX_PLAINTEXT_CHUNK
    ensures (q * MAX_PLAINTEXT_CHUNK + r) / MAX_PLAINTEXT_CHUNK == q
    ensures (q * MAX_PLAINTEXT_CHUNK + r) % MAX_PLAINTEXT_CHUNK == r
  {
  }

  lemma SealedChunkDivided(q: nat, r: nat)
    requires r < MAX_PLAINTEXT_CHUNK + MAC_SIZE
    ensures (q * (MAX_PLAINTEXT_CHUNK + MAC_SIZE) + r) / (MAX_PLAINTEXT_CHUNK + MAC_SIZE) == q
    ensures (q * (MAX_PLAINTEXT_CHUNK + MAC_SIZE) + r) % (MAX_PLAINTEXT_CHUNK + MAC_SIZE) == r
  {
  }

  lemma PlaintextBack(n: nat)
    ensures CiphertextToPlaintextLength(PlaintextToCiphertextLength(n)) == Some(n)
  {
    var q, r := n / MAX_PLAINTEXT_CHUNK, n % MAX_PLAINTEXT_CHUNK;
    SealedChunkDivided(q, if r > 0 then r + MAC_SIZE else 0);
  }

  lemma CiphertextBack(m: nat)
    ensures CiphertextToPlaintextLength(m).Some? ==>
      PlaintextToCiphertextLength(CiphertextToPlaintextLength(m).value) == m
  {
    var q, r := m / (MAX_PLAINTEXT_CHUNK + MAC_SIZE), m % (MAX_PLAINTEXT_CHUNK + MAC_SIZE);
    if r == 0 || r > MAC_SIZE {
      ChunkDivided(q, if r > 0 then r - MAC_SIZE else 0);
    }
  }

  // ---- cipher ----

  /** Authenticated encryption under the key both ends derived, with empty associated data. */
  datatype Aead = Aead(enc: (nat, bytes) -> bytes, dec: (nat, bytes) -> Option<bytes>)
  {
    ghost predicate Lawful()
    {
      && (forall n: nat, p: bytes :: |enc(n, p)| == |p| + MAC_SIZE)
      && (forall n: nat, p: bytes :: dec(n, enc(n, p)) == Some(p))
    }
  }

  function Open(aead: Aead, n: nat, c: bytes): Option<bytes>
  {
    if |c| < MAC_SIZE || n >= NONCE_LIMIT then None else aead.dec(n, c)
  }

  // ---- writer ----

  function Min(a: nat, b: nat): nat { if a <= b then a else b }

  /** How many pieces a payload of `n` octets is sealed in, one counter value each. */
  function ChunkCount(n: nat): nat
  {
    if n == 0 then 0 else 1 + ChunkCount(n - Min(n, MAX_PLAINTEXT_CHUNK))
  }

  function SealChunks(aead: Aead, n: nat, payload: bytes): bytes
    decreases |payload|
  {
    if payload == [] then []
    else
      var k := Min(|payload|, MAX_PLAINTEXT_CHUNK);
      aead.enc(n, payload[..k]) + SealChunks(aead, n + 1, payload[k..])
  }

  /** The channel before and after the handshake. */
  datatype Channel = Plain | Sealed(aead: Aead)

  ghost predicate LawfulChannel(ch: Channel) { ch.Sealed? ==> ch.aead.Lawful() }

  function HeaderWireSize(ch: Channel): nat
  {
    if ch.Plain? then HEADER_SIZE else ENCRYPTED_HEADER_SIZE
  }

  function PayloadWireSize(ch: Channel, length: nat): nat
  {
    if ch.Plain? then length else PlaintextToCiphertextLength(length)
  }

  function HeaderWire(ch: Channel, n: nat, h: Header): bytes
  {
    if ch.Plain? then EncodeHeader(h) else ch.aead.enc(n, EncodeHeader(h))
  }

  function PayloadWire(ch: Channel, n: nat, payload: bytes): bytes
  {
    if ch.Plain? then payload else SealChunks(ch.aead, n, payload)
  }

  function AfterHeader(ch: Channel, n: nat): nat { if ch.Plain? then n else n + 1 }

  function AfterPayload(ch: Channel, n: nat, length: nat): nat { if ch.Plain? then n else n + ChunkCount(length) }

  function FrameWire(ch: Channel, n: nat, f: Frame): bytes
  {
    HeaderWire(ch, n, f.header) + PayloadWire(ch, AfterHeader(ch, n), f.payload)
  }

  function AfterFrame(ch: Channel, n: nat, f: Frame): nat
  {
    AfterPayload(ch, AfterHeader(ch, n), |f.payload|)
  }

  /** The whole stream for a list of frames, and the counter it ends at. */
  function StreamWire(ch: Channel, n: nat, fs: seq<Frame>): bytes
    decreases |fs|
  {
    if fs == [] then [] else FrameWire(ch, n, fs[0]) + StreamWire(ch, AfterFrame(ch, n, fs[0]), fs[1..])
  }

  function AfterStream(ch: Channel, n: nat, fs: seq<Frame>): nat
    decreases |fs|
  {
    if fs == [] then n else AfterStream(ch, AfterFrame(ch, n, fs[0]), fs[1..])
  }

  // ---- reader ----

  /** What the reader holds between two chunks of input. */
  datatype Reader = Reader(buf: bytes, n: nat, header: Option<Header>)

  datatype Drained = Error | Frames(frames: seq<Frame>, reader: Reader)

  function OpenChunks(aead: Aead, n: nat, c: bytes): Option<bytes>
    decreases |c|
  {
    if c == [] then Some([])
    else
      var k := Min(|c|, MAX_PLAINTEXT_CHUNK + MAC_SIZE);
      match Open(aead, n, c[..k])
      case None => None
      case Some(p) =>
        match OpenChunks(aead, n + 1, c[k..])
        case None => None
        case Some(rest) => Some(p + rest)
  }

  function OpenHeader(ch: Channel, n: nat, b: bytes): Option<Header>
  {
    if ch.Plain? then DecodeHeader(b)
    else
      match Open(ch.aead, n, b)
      case None => None
      case Some(p) => DecodeHeader(p)
  }

  function OpenPayload(ch: Channel, n: nat, b: bytes): Option<bytes>
  {
    if ch.Plain? then Some(b) else OpenChunks(ch.aead, n, b)
  }

  function CipherChunks(c: nat): nat
  {
    if c == 0 then 0 else 1 + CipherChunks(c - Min(c, MAX_PLAINTEXT_CHUNK + MAC_SIZE))
  }

  /** Take every complete frame off the front of the buffer. */
  function Drain(ch: Channel, s: Reader): Drained
    decreases |s.buf|, if s.header.Some? then 1 else 0
  {
    match s.header
    case None =>
      var size := HeaderWireSize(ch);
      if |s.buf| < size then Frames([], s)
      else (
        match OpenHeader(ch, s.n, s.buf[..size])
        case None => Error
        case Some(h) => Drain(ch, Reader(s.buf[size..], AfterHeader(ch, s.n), Some(h)))
      )
    case Some(h) =>
      var size := PayloadWireSize(ch, h.msgLength);
      if |s.buf| < size then Frames([], s)
      else (
        match OpenPayload(ch, s.n, s.buf[..size])
        case None => Error
        case Some(p) =>
          Prepend([Frame(h, p)], Drain(ch, Reader(s.buf[size..], AfterPayload(ch, s.n, h.msgLength), None)))
      )
  }

  function Feed(ch: Channel, s: Reader, data: bytes): Drained
  {
    Drain(ch, s.(buf := s.buf + data))
  }

  /** Feed the chunks one after the other, collecting the frames of all of them. */
  function FeedAll(ch: Channel, s: Reader, chunks: seq<bytes>): Drained
    decreases |chunks|
  {
    if chunks == [] then Frames([], s)
    else
      match Feed(ch, s, chunks[0])
      case Error => Error
      case Frames(fs, s') => Prepend(fs, FeedAll(ch, s', chunks[1..]))
  }

  // ---- sealing and opening ----

  lemma {:induction false} SealedLength(aead: Aead, n: nat, payload: bytes)
    requires aead.Lawful()
    ensures |SealChunks(aead, n, payload)| == PlaintextToCiphertextLength(|payload|)
    decreases |payload|
  {
    if payload != [] {
      var k := Min(|payload|, MAX_PLAINTEXT_CHUNK);
      SealedLength(aead, n + 1, payload[k..]);
      if |payload| > MAX_PLAINTEXT_CHUNK {
        OneChunkMore(|payload| - MAX_PLAINTEXT_CHUNK);
      }
    }
  }

  lemma OneChunkMore(n: nat)
    ensures PlaintextToCiphertextLength(n + MAX_PLAINTEXT_CHUNK)
         == PlaintextToCiphertextLength(n) + MAX_PLAINTEXT_CHUNK + MAC_SIZE
  {
  }

  /** A payload is opened in as many pieces as it was sealed in. */
  lemma {:induction false} SameChunks(n: nat)
    ensures CipherChunks(PlaintextToCiphertextLength(n)) == ChunkCount(n)
  {
    if n > MAX_PLAINTEXT_CHUNK {
      OneChunkMore(n - MAX_PLAINTEXT_CHUNK);
      SameChunks(n - MAX_PLAINTEXT_CHUNK);
    } else if n > 0 {
      assert PlaintextToCiphertextLength(n) == n + MAC_SIZE;
    }
  }

  lemma {:induction false} OpenUndoesSeal(aead: Aead, n: nat, payload: bytes)
    requires aead.Lawful()
    requires n + ChunkCount(|payload|) <= NONCE_LIMIT
    ensures OpenChunks(aead, n, SealChunks(aead, n, payload)) == Some(payload)
    decreases |payload|
  {
    if payload != [] {
      var k := Min(|payload|, MAX_PLAINTEXT_CHUNK);
      var c := aead.enc(n, payload[..k]);
      var rest := SealChunks(aead, n + 1, payload[k..]);
      OpenUndoesSeal(aead, n + 1, payload[k..]);
      assert Min(|c + rest|, MAX_PLAINTEXT_CHUNK + MAC_SIZE) == |c|;
      assert (c + rest)[..|c|] == c && (c + rest)[|c|..] == rest;
      assert payload[..k] + payload[k..] == payload;
    }
  }

  // ---- cutting the stream does not matter ----

  /** Go on with more data after a first drain. */
  function Then(ch: Channel, d: Drained, data: bytes): Drained
  {
    match d
    case Error => Error
    case Frames(fs, s) => Prepend(fs, Feed(ch, s, data))
  }

  function Prepend(fs: seq<Frame>, d: Drained): Drained
  {
    match d
    case Error => Error
    case Frames(gs, s) => Frames(fs + gs, s)
  }

  lemma PrependTwice(fs: seq<Frame>, gs: seq<Frame>, d: Drained)
    ensures Prepend(fs, Prepend(gs, d)) == Prepend(fs + gs, d)
    ensures Prepend([], d) == d
  {
    match d
    case Error =>
    case Frames(hs, _) =>
      assert fs + (gs + hs) == fs + gs + hs;
      assert [] + hs == hs;
  }

  /** Draining early changes nothing: what is left drains as if it had all come at once. */
  lemma {:induction false} DrainSplits(ch: Channel, s: Reader, data: bytes)
    ensures Feed(ch, s, data) == Then(ch, Drain(ch, s), data)
    decreases |s.buf|, if s.header.Some? then 1 else 0
  {
    var size := if s.header.None? then HeaderWireSize(ch) else PayloadWireSize(ch, s.header.value.msgLength);
    if |s.buf| < size {
      PrependTwice([], [], Feed(ch, s, data));
    } else {
      var all := s.buf + data;
      assert all[..size] == s.buf[..size] && all[size..] == s.buf[size..] + data;
      match s.header
      case None =>
        var h := OpenHeader(ch, s.n, s.buf[..size]);
        if h.Some? {
          DrainSplits(ch, Reader(s.buf[size..], AfterHeader(ch, s.n), h), data);
        }
      case Some(h) =>
        var p := OpenPayload(ch, s.n, s.buf[..size]);
        if p.Some? {
          var next := Reader(s.buf[size..], AfterPayload(ch, s.n, h.msgLength), None);
          DrainSplits(ch, next, data);
          PayloadSplits(ch, Drain(ch, next), data, Frame(h, p.value));
        }
    }
  }

  lemma PayloadSplits(ch: Channel, d: Drained, data: bytes, f: Frame)
    ensures Then(ch, Prepend([f], d), data) == Prepend([f], Then(ch, d, data))
  {
    match d
    case Error =>
    case Frames(fs, s) => PrependTwice([f], fs, Feed(ch, s, data));
  }

  /** Feeding in pieces is feeding at once, errors included. */
  lemma {:induction false} FeedingInPieces(ch: Channel, s: Reader, chunks: seq<bytes>)
    requires Drain(ch, s) == Frames([], s)
    ensures FeedAll(ch, s, chunks) == Feed(ch, s, Concat(chunks))
    decreases |chunks|
  {
    if chunks == [] {
      assert s.buf + [] == s.buf;
    } else {
      var rest := Concat(chunks[1..]);
      var first := s.(buf := s.buf + chunks[0]);
      assert s.buf + Concat(chunks) == first.buf + rest;
      DrainSplits(ch, first, rest);
      match Feed(ch, s, chunks[0])
      case Error =>
      case Frames(fs, s') =>
        DrainedIsQuiet(ch, first);
        FeedingInPieces(ch, s', chunks[1..]);
    }
  }

  /** A drained reader holds no complete frame. */
  lemma {:induction false} DrainedIsQuiet(ch: Channel, s: Reader)
    ensures match Drain(ch, s) case Error => true case Frames(_, s') => Drain(ch, s') == Frames([], s')
    decreases |s.buf|, if s.header.Some? then 1 else 0
  {
    match s.header
    case None =>
      var size := HeaderWireSize(ch);
      if |s.buf| >= size {
        var h := OpenHeader(ch, s.n, s.buf[..size]);
        if h.Some? { DrainedIsQuiet(ch, Reader(s.buf[size..], AfterHeader(ch, s.n), h)); }
      }
    case Some(h) =>
      var size := PayloadWireSize(ch, h.msgLength);
      if |s.buf| >= size {
        DrainedIsQuiet(ch, Reader(s.buf[size..], AfterPayload(ch, s.n, h.msgLength), None));
      }
  }

  /** The frames handed out up to the first piece that fails, and how many pieces went well. */
  function FeedUntilError(ch: Channel, s: Reader, chunks: seq<bytes>): (seq<Frame>, nat)
    decreases |chunks|
  {
    if chunks == [] then ([], 0)
    else
      match Feed(ch, s, chunks[0])
      case Error => ([], 0)
      case Frames(fs, s') =>
        var (gs, k) := FeedUntilError(ch, s', chunks[1..]);
        (fs + gs, k + 1)
  }

  lemma {:induction false} PiecesUntilError(ch: Channel, s: Reader, chunks: seq<bytes>)
    ensures var (fs, k) := FeedUntilError(ch, s, chunks);
      && k <= |chunks|
      && FeedAll(ch, s, chunks[..k]).Frames? && FeedAll(ch, s, chunks[..k]).frames == fs
      && (k < |chunks| ==> FeedAll(ch, s, chunks[..k + 1]) == Error)
    decreases |chunks|
  {
    var (fs, k) := FeedUntilError(ch, s, chunks);
    if chunks != [] {
      match Feed(ch, s, chunks[0])
      case Error =>
        assert chunks[..1][0] == chunks[0];
      case Frames(gs, s') =>
        PiecesUntilError(ch, s', chunks[1..]);
        assert chunks[..k][1..] == chunks[1..][..k - 1];
        if k < |chunks| { assert chunks[..k + 1][1..] == chunks[1..][..k]; }
    }
  }

  /** A stream with a bad frame in it: the pieces before the one that fails return exactly the
      frames their octets hold, and with that piece the octets no longer parse. */
  lemma FeedingStops(ch: Channel, s: Reader, chunks: seq<bytes>)
    requires Drain(ch, s) == Frames([], s)
    ensures var (fs, k) := FeedUntilError(ch, s, chunks);
      && k <= |chunks|
      && Feed(ch, s, Concat(chunks[..k])).Frames? && Feed(ch, s, Concat(chunks[..k])).frames == fs
      && (k < |chunks| ==> Feed(ch, s, Concat(chunks[..k + 1])) == Error)
  {
    var (_, k) := FeedUntilError(ch, s, chunks);
    PiecesUntilError(ch, s, chunks);
    FeedingInPieces(ch, s, chunks[..k]);
    if k < |chunks| { FeedingInPieces(ch, s, chunks[..k + 1]); }
  }

  // ---- the round trip ----

  ghost predicate WellFormed(fs: seq<Frame>)
  {
    forall f :: f in fs ==> f.header.msgLength == |f.payload|
  }

  lemma FrameSizes(ch: Channel, n: nat, f: Frame)
    requires LawfulChannel(ch)
    ensures |HeaderWire(ch, n, f.header)| == HeaderWireSize(ch)
    ensures |PayloadWire(ch, n, f.payload)| == PayloadWireSize(ch, |f.payload|)
  {
    if ch.Sealed? { SealedLength(ch.aead, n, f.payload); }
  }

  lemma OpenUndoesWire(ch: Channel, n: nat, f: Frame)
    requires LawfulChannel(ch)
    requires AfterFrame(ch, n, f) <= NONCE_LIMIT
    ensures OpenHeader(ch, n, HeaderWire(ch, n, f.header)) == Some(f.header)
    ensures OpenPayload(ch, AfterHeader(ch, n), PayloadWire(ch, AfterHeader(ch, n), f.payload)) == Some(f.payload)
  {
    HeaderRoundTrip(f.header);
    if ch.Sealed? { OpenUndoesSeal(ch.aead, n + 1, f.payload); }
  }

  lemma {:induction false} CounterGrows(ch: Channel, n: nat, fs: seq<Frame>)
    ensures n <= AfterStream(ch, n, fs)
    decreases |fs|
  {
    if fs != [] { CounterGrows(ch, AfterFrame(ch, n, fs[0]), fs[1..]); }
  }

  lemma DrainFrame(ch: Channel, n: nat, f: Frame, rest: bytes)
    requires LawfulChannel(ch) && f.header.msgLength == |f.payload|
    requires AfterFrame(ch, n, f) <= NONCE_LIMIT
    ensures Drain(ch, Reader(FrameWire(ch, n, f) + rest, n, None)) ==
      Prepend([f], Drain(ch, Reader(rest, AfterFrame(ch, n, f), None)))
  {
    var n1 := AfterHeader(ch, n);
    var head, body := HeaderWire(ch, n, f.header), PayloadWire(ch, n1, f.payload);
    FrameSizes(ch, n, f);
    FrameSizes(ch, n1, f);
    OpenUndoesWire(ch, n, f);
    var all := FrameWire(ch, n, f) + rest;
    assert all[..|head|] == head && all[|head|..] == body + rest;
    assert (body + rest)[..|body|] == body && (body + rest)[|body|..] == rest;
    assert Drain(ch, Reader(all, n, None)) == Drain(ch, Reader(body + rest, n1, Some(f.header)));
  }

  lemma {:induction false} DrainUndoesStream(ch: Channel, n: nat, fs: seq<Frame>)
    requires LawfulChannel(ch) && WellFormed(fs)
    requires AfterStream(ch, n, fs) <= NONCE_LIMIT
    ensures Drain(ch, Reader(StreamWire(ch, n, fs), n, None)) == Frames(fs, Reader([], AfterStream(ch, n, fs), None))
    decreases |fs|
  {
    if fs == [] {
      DrainNothing(ch, n);
    } else {
      var n2 := AfterFrame(ch, n, fs[0]);
      CounterGrows(ch, n2, fs[1..]);
      assert fs[0] in fs;
      DrainFrame(ch, n, fs[0], StreamWire(ch, n2, fs[1..]));
      DrainUndoesStream(ch, n2, fs[1..]);
      PrependRest(fs, Reader([], AfterStream(ch, n, fs), None));
    }
  }

  lemma DrainNothing(ch: Channel, n: nat)
    ensures Drain(ch, Reader([], n, None)) == Frames([], Reader([], n, None))
  {
  }

  lemma PrependRest(fs: seq<Frame>, end: Reader)
    requires fs != []
    ensures Prepend([fs[0]], Frames(fs[1..], end)) == Frames(fs, end)
  {
    assert [fs[0]] + fs[1..] == fs;
  }

  /** For every list of well-formed frames and every way of cutting their stream, feeding
      the pieces returns exactly those frames and leaves the reader empty, its counter
      where the writer's is. */
  lemma StreamRoundTrip(ch: Channel, n: nat, fs: seq<Frame>, chunks: seq<bytes>)
    requires LawfulChannel(ch) && WellFormed(fs)
    requires AfterStream(ch, n, fs) <= NONCE_LIMIT
    requires Concat(chunks) == StreamWire(ch, n, fs)
    ensures FeedAll(ch, Reader([], n, None), chunks) == Frames(fs, Reader([], AfterStream(ch, n, fs), None))
  {
    DrainUndoesStream(ch, n, fs);
    FeedingInPieces(ch, Reader([], n, None), chunks);
    assert [] + Concat(chunks) == Concat(chunks);
  }

  /** How many of the frames are complete in the first `size` octets of their stream. */
  function Complete(ch: Channel, n: nat, fs: seq<Frame>, size: nat): (k: nat)
    ensures k <= |fs|
    decreases |fs|
  {
    if fs == [] || |FrameWire(ch, n, fs[0])| > size then 0
    else 1 + Complete(ch, AfterFrame(ch, n, fs[0]), fs[1..], size - |FrameWire(ch, n, fs[0])|)
  }

  lemma StreamCons(ch: Channel, n: nat, fs: seq<Frame>, k: nat)
    requires k < |fs|
    ensures |StreamWire(ch, n, fs[..k + 1])|
        == |FrameWire(ch, n, fs[0])| + |StreamWire(ch, AfterFrame(ch, n, fs[0]), fs[1..][..k])|
  {
    var some := fs[..k + 1];
    assert some[0] == fs[0] && some[1..] == fs[1..][..k];
  }

  /** The first `k` frames, and no more, are complete in `size` octets. */
  ghost predicate Holds(ch: Channel, n: nat, fs: seq<Frame>, size: int, k: nat)
  {
    && k <= |fs| && |StreamWire(ch, n, fs[..k])| <= size
    && (k < |fs| ==> size < |StreamWire(ch, n, fs[..k + 1])|)
  }

  lemma HoldsOneMore(ch: Channel, n: nat, fs: seq<Frame>, size: int, k: nat)
    requires fs != []
    requires Holds(ch, AfterFrame(ch, n, fs[0]), fs[1..], size - |FrameWire(ch, n, fs[0])|, k)
    ensures Holds(ch, n, fs, size, k + 1)
  {
    StreamCons(ch, n, fs, k);
    if k + 1 < |fs| { StreamCons(ch, n, fs, k + 1); }
  }

  lemma HoldsNone(ch: Channel, n: nat, fs: seq<Frame>, size: nat)
    requires fs == [] || |FrameWire(ch, n, fs[0])| > size
    ensures Holds(ch, n, fs, size, 0)
  {
    if fs != [] { StreamCons(ch, n, fs, 0); }
  }

  lemma {:induction false} CompleteIs(ch: Channel, n: nat, fs: seq<Frame>, size: nat)
    ensures Holds(ch, n, fs, size, Complete(ch, n, fs, size))
    decreases |fs|
  {
    if fs == [] || |FrameWire(ch, n, fs[0])| > size {
      HoldsNone(ch, n, fs, size);
    } else {
      var n2, left := AfterFrame(ch, n, fs[0]), size - |FrameWire(ch, n, fs[0])|;
      CompleteIs(ch, n2, fs[1..], left);
      HoldsOneMore(ch, n, fs, size, Complete(ch, n2, fs[1..], left));
    }
  }

  lemma UnfinishedFrame(ch: Channel, n: nat, f: Frame, arrived: bytes, pending: bytes)
    requires LawfulChannel(ch) && f.header.msgLength == |f.payload|
    requires AfterFrame(ch, n, f) <= NONCE_LIMIT
    requires |arrived| < |FrameWire(ch, n, f)| && FrameWire(ch, n, f) <= arrived + pending
    ensures Drain(ch, Reader(arrived, n, None)).Frames? && Drain(ch, Reader(arrived, n, None)).frames == []
  {
    var n1 := AfterHeader(ch, n);
    var head, body := HeaderWire(ch, n, f.header), PayloadWire(ch, n1, f.payload);
    FrameSizes(ch, n, f);
    FrameSizes(ch, n1, f);
    OpenUndoesWire(ch, n, f);
    if |arrived| >= |head| {
      assert arrived[..|head|] == (arrived + pending)[..|head|] == FrameWire(ch, n, f)[..|head|] == head;
    }
  }

  lemma FrameArrived(frame: bytes, later: bytes, arrived: bytes, pending: bytes)
    requires arrived + pending == frame + later && |arrived| >= |frame|
    ensures arrived == frame + arrived[|frame|..] && arrived[|frame|..] + pending == later
  {
    var n := |frame|;
    assert arrived[..n] == (arrived + pending)[..n] == (frame + later)[..n] == frame;
    assert arrived[n..] + pending == (arrived + pending)[n..] == (frame + later)[n..] == later;
  }

  lemma TakeCons(fs: seq<Frame>, k: nat)
    requires k < |fs|
    ensures [fs[0]] + fs[1..][..k] == fs[..k + 1]
  {
  }

  lemma {:induction false} DrainArrived(ch: Channel, n: nat, fs: seq<Frame>, arrived: bytes, pending: bytes)
    requires LawfulChannel(ch) && WellFormed(fs)
    requires AfterStream(ch, n, fs) <= NONCE_LIMIT
    requires arrived + pending == StreamWire(ch, n, fs)
    ensures var got := Drain(ch, Reader(arrived, n, None));
      got.Frames? && got.frames == fs[..Complete(ch, n, fs, |arrived|)]
    decreases |fs|
  {
    if fs != [] {
      var frame, n2 := FrameWire(ch, n, fs[0]), AfterFrame(ch, n, fs[0]);
      var later := StreamWire(ch, n2, fs[1..]);
      CounterGrows(ch, n2, fs[1..]);
      assert fs[0] in fs;
      if |arrived| < |frame| {
        assert frame <= arrived + pending;
        UnfinishedFrame(ch, n, fs[0], arrived, pending);
      } else {
        FrameArrived(frame, later, arrived, pending);
        var rest := arrived[|frame|..];
        DrainFrame(ch, n, fs[0], rest);
        DrainArrived(ch, n2, fs[1..], rest, pending);
        TakeCons(fs, Complete(ch, n2, fs[1..], |rest|));
      }
    }
  }

  lemma FedAtOnce(ch: Channel, n: nat, chunks: seq<bytes>)
    ensures FeedAll(ch, Reader([], n, None), chunks) == Drain(ch, Reader(Concat(chunks), n, None))
  {
    FeedingInPieces(ch, Reader([], n, None), chunks);
    assert [] + Concat(chunks) == Concat(chunks);
  }

  /** While only part of the stream has arrived, however it was cut, the frames returned are
      exactly those whose last octet has arrived. */
  lemma PartialStream(ch: Channel, n: nat, fs: seq<Frame>, arrived: seq<bytes>, pending: bytes)
    requires LawfulChannel(ch) && WellFormed(fs)
    requires AfterStream(ch, n, fs) <= NONCE_LIMIT
    requires Concat(arrived) + pending == StreamWire(ch, n, fs)
    ensures var got := FeedAll(ch, Reader([], n, None), arrived);
      var k := Complete(ch, n, fs, |Concat(arrived)|);
      && got.Frames? && got.frames == fs[..k]
      && |StreamWire(ch, n, fs[..k])| <= |Concat(arrived)|
      && (k < |fs| ==> |Concat(arrived)| < |StreamWire(ch, n, fs[..k + 1])|)
  {
    FedAtOnce(ch, n, arrived);
    DrainArrived(ch, n, fs, Concat(arrived), pending);
    CompleteIs(ch, n, fs, |Concat(arrived)|);
  }
}
