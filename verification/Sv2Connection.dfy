/**
 The stateful side of Stratum V2 framing: the cipher state of src/models/sv2/sv2-noise.ts
 and the frame reader and writer of src/models/sv2/sv2-frame.ts, each proved to compute
 the functions of Sv2Frame.dfy.
 */
module Sv2Connection {
  import opened Bytes
  import opened Sv2Frame

  class CipherState {
    var key: Option<Aead>
    var n: nat

    constructor ()
      ensures key == None && n == 0
    {
      key, n := None, 0;
    }

    method InitializeKey(k: Aead)
      modifies this
      ensures key == Some(k) && n == 0
    {
      key, n := Some(k), 0;
    }

    /** None when the counter no longer fits the nonce; nothing is consumed then. */
    method EncryptWithAd(plaintext: bytes) returns (r: Option<bytes>)
      modifies this`n
      ensures key.None? ==> r == Some(plaintext) && n == old(n)
      ensures key.Some? && old(n) < 0x1_0000_0000_0000_0000 ==>
        r == Some(key.value.enc(old(n), plaintext)) && n == old(n) + 1
      ensures key.Some? && old(n) >= 0x1_0000_0000_0000_0000 ==> r == None && n == old(n)
    {
      if key.None? {
        return Some(plaintext);
      }
      if n >= NONCE_LIMIT {
        return None;
      }
      r := Some(key.value.enc(n, plaintext));
      n := n + 1;
    }

    /** None when the ciphertext is short or forged, or the counter is used up. */
    method DecryptWithAd(ciphertext: bytes) returns (r: Option<bytes>)
      modifies this`n
      ensures key.None? ==> r == Some(ciphertext) && n == old(n)
      ensures key.Some? && |ciphertext| >= 16 && old(n) < 0x1_0000_0000_0000_0000 ==>
        r == key.value.dec(old(n), ciphertext)
      ensures key.Some? && (|ciphertext| < 16 || old(n) >= 0x1_0000_0000_0000_0000) ==> r == None
      ensures key.Some? ==> n == if r.Some? then old(n) + 1 else old(n)
    {
      if key.None? {
        return Some(ciphertext);
      }
      if |ciphertext| < MAC_SIZE || n >= NONCE_LIMIT {
        return None;
      }
      r := key.value.dec(n, ciphertext);
      if r.Some? {
        n := n + 1;
      }
    }
  }

  /** The wire format selected by an optional cipher. */
  function ChannelOf(cipher: CipherState?): Channel
    reads cipher
  {
    if cipher == null || cipher.key.None? then Plain else Sealed(cipher.key.value)
  }

  function CounterOf(cipher: CipherState?): nat
    reads cipher
  {
    if cipher == null then 0 else cipher.n
  }

  class FrameWriter {
    var cipher: CipherState?

    constructor ()
      ensures cipher == null
    {
      cipher := null;
    }

    method SetEncrypt(c: CipherState)
      requires c.key.Some?
      modifies this
      ensures cipher == c
    {
      cipher := c;
    }

    /** Octets for the wire, or None if the counter ran out on the way. */
    method WriteFrame(header: Header, payload: bytes) returns (r: Option<bytes>)
      requires cipher != null ==> cipher.key.Some?
      modifies if cipher == null then {} else {cipher}
      ensures cipher != null ==> cipher.key == old(cipher.key)
      ensures var f := Frame(header, payload);
        var ch := ChannelOf(cipher);
        var n := old(CounterOf(cipher));
        if ch.Plain? || AfterFrame(ch, n, f) <= NONCE_LIMIT
        then r == Some(FrameWire(ch, n, f)) && CounterOf(cipher) == AfterFrame(ch, n, f)
        else r == None
    {
      var headerBuf := EncodeHeader(header);
      if cipher == null {
        return Some(headerBuf + payload);
      }
      ghost var aead, n0 := cipher.key.value, cipher.n;
      r := cipher.EncryptWithAd(headerBuf);
      if r.None? {
        return;
      }
      var body := EncryptPayload(payload);
      if body.None? {
        return None;
      }
      r := Some(r.value + body.value);
    }

    method EncryptPayload(payload: bytes) returns (r: Option<bytes>)
      requires cipher != null && cipher.key.Some? && cipher.n <= NONCE_LIMIT
      modifies cipher
      ensures cipher.key == old(cipher.key)
      ensures if old(cipher.n) + ChunkCount(|payload|) <= NONCE_LIMIT
        then r == Some(SealChunks(cipher.key.value, old(cipher.n), payload))
          && cipher.n == old(cipher.n) + ChunkCount(|payload|)
        else r == None
    {
      ghost var aead, n0 := cipher.key.value, cipher.n;
      ghost var spec := SealChunks(aead, n0, payload);
      var out: bytes := [];
      var offset := 0;
      assert payload[0..] == payload;
      assert out + spec == spec;
      while offset < |payload|
        invariant offset <= |payload|
        invariant cipher.key == Some(aead) && cipher.n <= NONCE_LIMIT
        invariant cipher.n + ChunkCount(|payload| - offset) == n0 + ChunkCount(|payload|)
        invariant out + SealChunks(aead, cipher.n, payload[offset..]) == spec
      {
        var chunkLen := Min(|payload| - offset, MAX_PLAINTEXT_CHUNK);
        var chunk := payload[offset..offset + chunkLen];
        assert payload[offset..][..chunkLen] == chunk && payload[offset..][chunkLen..] == payload[offset + chunkLen..];
        r := cipher.EncryptWithAd(chunk);
        if r.None? {
          return;
        }
        ghost var rest := SealChunks(aead, cipher.n, payload[offset + chunkLen..]);
        assert out + (r.value + rest) == out + r.value + rest;
        out := out + r.value;
        offset := offset + chunkLen;
      }
      assert out + [] == out;
      r := Some(out);
    }
  }

  class FrameReader {
    var cipher: CipherState?
    var buf: bytes
    var currentHeader: Option<Header>

    constructor ()
      ensures cipher == null && State() == Reader([], 0, None)
    {
      cipher, buf, currentHeader := null, [], None;
    }

    function State(): Reader
      reads this, cipher
    {
      Reader(buf, CounterOf(cipher), currentHeader)
    }

    method SetDecrypt(c: CipherState)
      requires c.key.Some?
      modifies this`cipher
      ensures cipher == c
    {
      cipher := c;
    }

    method DecryptPayloadChunks(ciphertext: bytes) returns (r: Option<bytes>)
      requires cipher != null && cipher.key.Some?
      modifies cipher
      ensures cipher.key == old(cipher.key)
      ensures r == OpenChunks(cipher.key.value, old(cipher.n), ciphertext)
      ensures r.Some? ==> cipher.n == old(cipher.n) + CipherChunks(|ciphertext|)
    {
      ghost var aead, n0 := cipher.key.value, cipher.n;
      ghost var spec := OpenChunks(aead, n0, ciphertext);
      var plain: bytes := [];
      var offset := 0;
      assert ciphertext[0..] == ciphertext;
      OpensFromStart(aead, n0, ciphertext);
      while offset < |ciphertext|
        invariant offset <= |ciphertext|
        invariant cipher.key == Some(aead)
        invariant cipher.n + CipherChunks(|ciphertext| - offset) == n0 + CipherChunks(|ciphertext|)
        invariant OpensFrom(spec, aead, plain, cipher.n, ciphertext[offset..])
      {
        var thisChunkLen := Min(|ciphertext| - offset, MAX_PLAINTEXT_CHUNK + MAC_SIZE);
        var chunk := ciphertext[offset..offset + thisChunkLen];
        assert ciphertext[offset..][..thisChunkLen] == chunk;
        assert ciphertext[offset..][thisChunkLen..] == ciphertext[offset + thisChunkLen..];
        OpenOne(spec, aead, plain, cipher.n, ciphertext[offset..]);
        var part := cipher.DecryptWithAd(chunk);
        if part.None? {
          return None;
        }
        plain := plain + part.value;
        offset := offset + thisChunkLen;
      }
      assert plain + [] == plain;
      r := Some(plain);
    }

    /** The header at the front of the buffer, once enough of it has arrived. */
    method ReadHeader() returns (ok: bool)
      requires cipher != null ==> cipher.key.Some?
      requires currentHeader == None && |buf| >= HeaderWireSize(ChannelOf(cipher))
      modifies this`buf, this`currentHeader, if cipher == null then {} else {cipher}
      ensures cipher != null ==> cipher.key == old(cipher.key)
      ensures var ch := ChannelOf(cipher);
        var size := HeaderWireSize(ch);
        var h := OpenHeader(ch, old(CounterOf(cipher)), old(buf)[..size]);
        && (ok <==> h.Some?)
        && (ok ==> State() == Reader(old(buf)[size..], AfterHeader(ch, old(CounterOf(cipher))), h))
    {
      var headerBytes: bytes;
      if cipher != null {
        var clear := cipher.DecryptWithAd(buf[..ENCRYPTED_HEADER_SIZE]);
        if clear.None? {
          return false;
        }
        headerBytes := clear.value;
      } else {
        headerBytes := buf[..HEADER_SIZE];
      }
      var header := DecodeHeader(headerBytes);
      if header.None? {
        return false;
      }
      buf := buf[if cipher != null then ENCRYPTED_HEADER_SIZE else HEADER_SIZE..];
      currentHeader := header;
      ok := true;
    }

    /** The payload announced by the current header, once all of it has arrived. */
    method ReadPayload() returns (r: Option<Frame>)
      requires cipher != null ==> cipher.key.Some?
      requires currentHeader.Some?
      requires |buf| >= PayloadWireSize(ChannelOf(cipher), currentHeader.value.msgLength)
      modifies this`buf, this`currentHeader, if cipher == null then {} else {cipher}
      ensures cipher != null ==> cipher.key == old(cipher.key)
      ensures var ch := ChannelOf(cipher);
        var h := old(currentHeader).value;
        var size := PayloadWireSize(ch, h.msgLength);
        var p := OpenPayload(ch, old(CounterOf(cipher)), old(buf)[..size]);
        && (r.Some? <==> p.Some?)
        && (r.Some? ==> r.value == Frame(h, p.value))
        && (r.Some? ==>
             State() == Reader(old(buf)[size..], AfterPayload(ch, old(CounterOf(cipher)), h.msgLength), None))
    {
      var header := currentHeader.value;
      var wireLen := if cipher != null then PlaintextToCiphertextLength(header.msgLength) else header.msgLength;
      var payload: bytes := buf[..wireLen];
      if cipher != null && wireLen > 0 {
        var clear := DecryptPayloadChunks(payload);
        if clear.None? {
          return None;
        }
        payload := clear.value;
      }
      SameChunks(header.msgLength);
      buf := buf[wireLen..];
      currentHeader := None;
      r := Some(Frame(header, payload));
    }

    /** Take in received octets and return the frames they complete; None if the cipher
        rejects something. */
    method Feed(data: bytes) returns (r: Option<seq<Frame>>)
      requires cipher != null ==> cipher.key.Some?
      modifies this`buf, this`currentHeader, if cipher == null then {} else {cipher}
      ensures cipher != null ==> cipher.key == old(cipher.key)
      ensures match Sv2Frame.Feed(ChannelOf(cipher), old(State()), data)
        case Error => r == None
        case Frames(fs, s) => r == Some(fs) && State() == s
    {
      ghost var ch := ChannelOf(cipher);
      ghost var spec := Sv2Frame.Feed(ch, State(), data);
      buf := buf + data;
      var frames: seq<Frame> := [];
      PrependTwice([], [], spec);
      while true
        invariant cipher != null ==> cipher.key.Some? && cipher.key == old(cipher.key)
        invariant ChannelOf(cipher) == ch
        invariant Continues(spec, ch, frames, State())
        decreases |buf|, if currentHeader.Some? then 1 else 0
      {
        HeaderStep(spec, ch, frames, State());
        if currentHeader.None? {
          if |buf| < (if cipher != null then ENCRYPTED_HEADER_SIZE else HEADER_SIZE) {
            break;
          }
          var ok := ReadHeader();
          if !ok {
            return None;
          }
        }
        var wireLen := if cipher != null then PlaintextToCiphertextLength(currentHeader.value.msgLength)
                       else currentHeader.value.msgLength;
        PayloadStep(spec, ch, frames, State());
        if |buf| < wireLen {
          break;
        }
        var frame := ReadPayload();
        if frame.None? {
          return None;
        }
        frames := frames + [frame.value];
      }
      r := Some(frames);
    }
  }

  /** Opening will return what is decrypted already and what the rest opens to. */
  ghost predicate OpensFrom(spec: Option<bytes>, aead: Aead, plain: bytes, n: nat, rest: bytes)
  {
    spec ==
      match OpenChunks(aead, n, rest)
      case None => None
      case Some(p) => Some(plain + p)
  }

  lemma OpensFromStart(aead: Aead, n: nat, c: bytes)
    ensures OpensFrom(OpenChunks(aead, n, c), aead, [], n, c)
  {
    match OpenChunks(aead, n, c)
    case None =>
    case Some(p) => assert [] + p == p;
  }

  lemma OpenOne(spec: Option<bytes>, aead: Aead, plain: bytes, n: nat, c: bytes)
    requires c != [] && OpensFrom(spec, aead, plain, n, c)
    ensures var k := Min(|c|, MAX_PLAINTEXT_CHUNK + MAC_SIZE);
      var part := Open(aead, n, c[..k]);
      if part.None? then spec == None
      else OpensFrom(spec, aead, plain + part.value, n + 1, c[k..])
  {
    var k := Min(|c|, MAX_PLAINTEXT_CHUNK + MAC_SIZE);
    var part := Open(aead, n, c[..k]);
    if part.Some? {
      match OpenChunks(aead, n + 1, c[k..])
      case None =>
      case Some(rest) => assert plain + (part.value + rest) == plain + part.value + rest;
    }
  }

  /** The call will return what it has collected and what draining from here yields. */
  ghost predicate Continues(spec: Drained, ch: Channel, frames: seq<Frame>, s: Reader)
  {
    spec == Prepend(frames, Drain(ch, s))
  }

  lemma HeaderStep(spec: Drained, ch: Channel, frames: seq<Frame>, s: Reader)
    requires Continues(spec, ch, frames, s)
    ensures s.header.None? && |s.buf| < HeaderWireSize(ch) ==> spec == Frames(frames, s)
    ensures s.header.None? && |s.buf| >= HeaderWireSize(ch) ==>
      var h := OpenHeader(ch, s.n, s.buf[..HeaderWireSize(ch)]);
      if h.None? then spec == Error
      else Continues(spec, ch, frames, Reader(s.buf[HeaderWireSize(ch)..], AfterHeader(ch, s.n), h))
  {
    assert frames + [] == frames;
  }

  lemma PayloadStep(spec: Drained, ch: Channel, frames: seq<Frame>, s: Reader)
    requires s.header.Some? && Continues(spec, ch, frames, s)
    ensures var h := s.header.value;
      var size := PayloadWireSize(ch, h.msgLength);
      if |s.buf| < size then spec == Frames(frames, s)
      else
        var p := OpenPayload(ch, s.n, s.buf[..size]);
        if p.None? then spec == Error
        else Continues(spec, ch, frames + [Frame(h, p.value)],
                       Reader(s.buf[size..], AfterPayload(ch, s.n, h.msgLength), None))
  {
    var h := s.header.value;
    var size := PayloadWireSize(ch, h.msgLength);
    assert frames + [] == frames;
    if |s.buf| >= size {
      var p := OpenPayload(ch, s.n, s.buf[..size]);
      if p.Some? {
        PrependTwice(frames, [Frame(h, p.value)],
          Drain(ch, Reader(s.buf[size..], AfterPayload(ch, s.n, h.msgLength), None)));
      }
    }
  }
}
