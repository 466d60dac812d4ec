/**
 The Stratum V2 data types on the wire (src/models/sv2/sv2-binary-codec.ts) and the
 messages built from them (src/models/sv2/sv2-jdp-messages.ts).

 A type is a `Kind`, a decoded field a `Value`; the callback that reads or writes one
 element of a sequence is the kind of its elements.
 */
module BinaryCodec {
  import opened Bytes

  datatype Kind =
    | UInt(size: nat)                 // little-endian integer
    | Fixed(size: nat)                // octets without a length, U256
    | Blob(lenSize: nat, max: nat)    // length-prefixed octets, B0_32 … B0_16M and STR0_255
    | Many(countSize: nat, of: Kind)  // counted sequence, SEQ0_255 and SEQ0_64K

  datatype Value = Num(n: nat) | Octets(b: bytes) | List(items: seq<Value>)

  const U16 := UInt(2)
  const U32 := UInt(4)
  const U256 := Fixed(32)
  const B0_32 := Blob(1, 32)
  const B0_255 := Blob(1, 255)
  const B0_64K := Blob(2, 65535)
  const B0_16M := Blob(3, 16777215)

  function Seq0_255(of: Kind): Kind { Many(1, of) }

  function Seq0_64K(of: Kind): Kind { Many(2, of) }

  /** A blob's bound must fit its length prefix. */
  ghost predicate KindOk(k: Kind)
  {
    match k
    case Blob(lenSize, max) => max < Pow256(lenSize)
    case Many(_, of) => KindOk(of)
    case _ => true
  }

  ghost predicate InRange(k: Kind, v: Value)
    decreases k
  {
    match k
    case UInt(size) => v.Num? && v.n < Pow256(size)
    case Fixed(size) => v.Octets? && |v.b| == size
    case Blob(_, max) => v.Octets? && |v.b| <= max
    case Many(countSize, of) =>
      v.List? && |v.items| < Pow256(countSize) && forall i :: 0 <= i < |v.items| ==> InRange(of, v.items[i])
  }

  // ---- writing ----

  function Encode(k: Kind, v: Value): bytes
    decreases k, 0, 0
  {
    match (k, v)
    case (UInt(size), Num(n)) => LE(n, size)
    case (Fixed(_), Octets(b)) => b
    case (Blob(lenSize, _), Octets(b)) => LE(|b|, lenSize) + b
    case (Many(countSize, of), List(items)) => LE(|items|, countSize) + EncodeItems(of, items)
    case _ => []
  }

  function EncodeItems(k: Kind, items: seq<Value>): bytes
    decreases k, 1, |items|
  {
    if items == [] then [] else Encode(k, items[0]) + EncodeItems(k, items[1..])
  }

  // ---- reading ----

  /** A value and the octets after it, or the reader's range error. */
  datatype Parsed<+T> = OutOfRange | Got(value: T, rest: bytes)
  {
    predicate IsFailure() { OutOfRange? }

    function PropagateFailure<U>(): Parsed<U>
      requires OutOfRange?
    {
      OutOfRange
    }

    function Extract(): (T, bytes)
      requires Got?
    {
      (value, rest)
    }
  }

  function Take(n: nat, b: bytes): Parsed<bytes>
  {
    if |b| < n then OutOfRange else Got(b[..n], b[n..])
  }

  function TakeUInt(size: nat, b: bytes): Parsed<nat>
  {
    if |b| < size then OutOfRange else Got(FromLE(b[..size]), b[size..])
  }

  function Decode(k: Kind, b: bytes): Parsed<Value>
    decreases k, 0, 0
  {
    match k
    case UInt(size) =>
      (match TakeUInt(size, b) case OutOfRange => OutOfRange case Got(n, rest) => Got(Num(n), rest))
    case Fixed(size) =>
      (match Take(size, b) case OutOfRange => OutOfRange case Got(p, rest) => Got(Octets(p), rest))
    case Blob(lenSize, max) =>
      (match TakeUInt(lenSize, b)
       case OutOfRange => OutOfRange
       case Got(n, rest) =>
         if n > max then OutOfRange
         else match Take(n, rest) case OutOfRange => OutOfRange case Got(p, rest') => Got(Octets(p), rest'))
    case Many(countSize, of) =>
      (match TakeUInt(countSize, b)
       case OutOfRange => OutOfRange
       case Got(n, rest) =>
         match DecodeItems(of, n, rest) case OutOfRange => OutOfRange case Got(items, rest') => Got(List(items), rest'))
  }

  function DecodeItems(k: Kind, n: nat, b: bytes): Parsed<seq<Value>>
    decreases k, 1, n
  {
    if n == 0 then Got([], b)
    else
      match Decode(k, b)
      case OutOfRange => OutOfRange
      case Got(v, rest) =>
        match DecodeItems(k, n - 1, rest) case OutOfRange => OutOfRange case Got(vs, rest') => Got([v] + vs, rest')
  }

  // ---- the round trip, both ways ----

  lemma TakeUIntUndoes(n: nat, size: nat, rest: bytes)
    requires n < Pow256(size)
    ensures TakeUInt(size, LE(n, size) + rest) == Got(n, rest)
  {
    FromToLE(n, size);
    assert (LE(n, size) + rest)[..size] == LE(n, size);
  }

  /** Decoding what was encoded gives the value back and stops right behind it. */
  lemma {:induction false} DecodeUndoesEncode(k: Kind, v: Value, rest: bytes)
    requires KindOk(k) && InRange(k, v)
    ensures Decode(k, Encode(k, v) + rest) == Got(v, rest)
    decreases k, 0, 0
  {
    match k
    case UInt(size) =>
      TakeUIntUndoes(v.n, size, rest);
    case Fixed(size) =>
      assert (v.b + rest)[..size] == v.b;
    case Blob(lenSize, max) =>
      TakeUIntUndoes(|v.b|, lenSize, v.b + rest);
      assert Encode(k, v) + rest == LE(|v.b|, lenSize) + (v.b + rest);
      assert (v.b + rest)[..|v.b|] == v.b;
    case Many(countSize, of) =>
      TakeUIntUndoes(|v.items|, countSize, EncodeItems(of, v.items) + rest);
      assert Encode(k, v) + rest == LE(|v.items|, countSize) + (EncodeItems(of, v.items) + rest);
      DecodeUndoesItems(of, v.items, rest);
  }

  lemma {:induction false} DecodeUndoesItems(k: Kind, items: seq<Value>, rest: bytes)
    requires KindOk(k) && forall i :: 0 <= i < |items| ==> InRange(k, items[i])
    ensures DecodeItems(k, |items|, EncodeItems(k, items) + rest) == Got(items, rest)
    decreases k, 1, |items|
  {
    if items == [] {
      assert [] + rest == rest;
    } else {
      var tail := EncodeItems(k, items[1..]) + rest;
      assert EncodeItems(k, items) + rest == Encode(k, items[0]) + tail;
      DecodeUndoesEncode(k, items[0], tail);
      DecodeUndoesItems(k, items[1..], rest);
      assert [items[0]] + items[1..] == items;
    }
  }

  lemma TakeUIntExact(size: nat, b: bytes)
    requires |b| >= size
    ensures var n := FromLE(b[..size]); n < Pow256(size) && LE(n, size) + b[size..] == b
  {
    ToFromLE(b[..size]);
    JoinCut([], b, size);
    assert LE(FromLE(b[..size]), size) == b[..size];
  }

  /** If `b` decodes at all, it is the encoding of the value followed by what was left unread. */
  ghost predicate DecodesExactly(k: Kind, b: bytes)
  {
    match Decode(k, b)
    case OutOfRange => true
    case Got(v, rest) => InRange(k, v) && Encode(k, v) + rest == b
  }

  ghost predicate ItemsDecodeExactly(k: Kind, n: nat, b: bytes)
  {
    match DecodeItems(k, n, b)
    case OutOfRange => true
    case Got(items, rest) =>
      && |items| == n
      && (forall i :: 0 <= i < |items| ==> InRange(k, items[i]))
      && EncodeItems(k, items) + rest == b
  }

  /** Whatever decodes is the encoding of its value, followed by what was left unread. */
  lemma {:induction false} EncodeUndoesDecode(k: Kind, b: bytes)
    ensures DecodesExactly(k, b)
    decreases k, 0, 0
  {
    match k
    case UInt(size) =>
      if |b| >= size { TakeUIntExact(size, b); }
    case Fixed(size) =>
    case Blob(lenSize, max) =>
      BlobExact(lenSize, max, b);
    case Many(countSize, of) =>
      if |b| >= countSize {
        var n, rest := FromLE(b[..countSize]), b[countSize..];
        EncodeUndoesItems(of, n, rest);
        ManyExact(countSize, of, b);
      }
  }

  lemma JoinCut(a: bytes, b: bytes, n: nat)
    requires n <= |b|
    ensures a + b[..n] + b[n..] == a + b
  {
    assert b[..n] + b[n..] == b;
  }

  lemma BlobExact(lenSize: nat, max: nat, b: bytes)
    ensures DecodesExactly(Blob(lenSize, max), b)
  {
    if |b| >= lenSize {
      TakeUIntExact(lenSize, b);
      var n, rest := FromLE(b[..lenSize]), b[lenSize..];
      if n <= max && |rest| >= n { JoinCut(LE(n, lenSize), rest, n); }
    }
  }

  lemma ManyExact(countSize: nat, of: Kind, b: bytes)
    requires |b| >= countSize
    requires ItemsDecodeExactly(of, FromLE(b[..countSize]), b[countSize..])
    ensures DecodesExactly(Many(countSize, of), b)
  {
    TakeUIntExact(countSize, b);
    var n := FromLE(b[..countSize]);
    match DecodeItems(of, n, b[countSize..])
    case OutOfRange =>
    case Got(items, rest) =>
      assert LE(n, countSize) + EncodeItems(of, items) + rest == LE(n, countSize) + (EncodeItems(of, items) + rest);
  }

  lemma {:induction false} EncodeUndoesItems(k: Kind, n: nat, b: bytes)
    ensures ItemsDecodeExactly(k, n, b)
    decreases k, 1, n
  {
    if n > 0 {
      EncodeUndoesDecode(k, b);
      match Decode(k, b)
      case OutOfRange =>
      case Got(v, rest) =>
        EncodeUndoesItems(k, n - 1, rest);
        match DecodeItems(k, n - 1, rest)
        case OutOfRange =>
        case Got(vs, rest') => ItemsCons(k, v, vs, rest');
    }
  }

  lemma ItemsCons(k: Kind, v: Value, vs: seq<Value>, rest: bytes)
    requires InRange(k, v) && forall i :: 0 <= i < |vs| ==> InRange(k, vs[i])
    ensures forall i :: 0 <= i < |[v] + vs| ==> InRange(k, ([v] + vs)[i])
    ensures EncodeItems(k, [v] + vs) + rest == Encode(k, v) + (EncodeItems(k, vs) + rest)
  {
    assert ([v] + vs)[1..] == vs;
    assert Encode(k, v) + EncodeItems(k, vs) + rest == Encode(k, v) + (EncodeItems(k, vs) + rest);
  }

  // ---- messages: the kinds of their fields in order ----

  function EncodeFields(ks: seq<Kind>, vs: seq<Value>): bytes
    requires |ks| == |vs|
  {
    if ks == [] then [] else Encode(ks[0], vs[0]) + EncodeFields(ks[1..], vs[1..])
  }

  function DecodeFields(ks: seq<Kind>, b: bytes): Parsed<seq<Value>>
  {
    if ks == [] then Got([], b)
    else
      match Decode(ks[0], b)
      case OutOfRange => OutOfRange
      case Got(v, rest) =>
        match DecodeFields(ks[1..], rest) case OutOfRange => OutOfRange case Got(vs, rest') => Got([v] + vs, rest')
  }

  ghost predicate FieldsInRange(ks: seq<Kind>, vs: seq<Value>)
  {
    |ks| == |vs| && forall i :: 0 <= i < |ks| ==> KindOk(ks[i]) && InRange(ks[i], vs[i])
  }

  /** deserialize(serialize(m)) = m for every message in range, with nothing left over. */
  lemma {:induction false} MessageRoundTrip(ks: seq<Kind>, vs: seq<Value>, rest: bytes)
    requires FieldsInRange(ks, vs)
    ensures DecodeFields(ks, EncodeFields(ks, vs) + rest) == Got(vs, rest)
  {
    if ks == [] {
      assert [] + rest == rest;
    } else {
      var first, others := Encode(ks[0], vs[0]), EncodeFields(ks[1..], vs[1..]);
      Regroup(first, others, rest);
      DecodeUndoesEncode(ks[0], vs[0], others + rest);
      MessageRoundTrip(ks[1..], vs[1..], rest);
      assert [vs[0]] + vs[1..] == vs;
    }
  }

  lemma Regroup(a: bytes, b: bytes, rest: bytes)
    ensures (a + b) + rest == a + (b + rest)
  {
  }

  /** No two messages of one layout share an encoding. */
  lemma EncodingIsInjective(ks: seq<Kind>, vs: seq<Value>, ws: seq<Value>)
    requires FieldsInRange(ks, vs) && FieldsInRange(ks, ws)
    requires EncodeFields(ks, vs) == EncodeFields(ks, ws)
    ensures vs == ws
  {
    MessageRoundTrip(ks, vs, []);
    MessageRoundTrip(ks, ws, []);
  }

  // ---- the octets of each type ----

  /** Integers and hashes take their octets; octets stand behind their length in one, two or
      three octets; sequences behind their count in one or two. */
  lemma TypeLayout(n: nat, b: bytes, items: seq<Value>, of: Kind)
    ensures n < 0x1_0000 ==> |Encode(U16, Num(n))| == 2 && WordAt(Encode(U16, Num(n)), 0) == n
    ensures n < 0x1_0000_0000 ==> |Encode(U32, Num(n))| == 4 && LongAt(Encode(U32, Num(n)), 0) == n
    ensures |b| == 32 ==> Encode(U256, Octets(b)) == b
    ensures |b| <= 255 ==> Encode(B0_255, Octets(b)) == [|b|] + b
    ensures |b| <= 32 ==> Encode(B0_32, Octets(b)) == [|b|] + b
    ensures |b| <= 65535 ==>
      Encode(B0_64K, Octets(b))[2..] == b && WordAt(Encode(B0_64K, Octets(b)), 0) == |b|
    ensures |b| < 0x100_0000 ==>
      && Encode(B0_16M, Octets(b))[3..] == b
      && WordAt(Encode(B0_16M, Octets(b)), 0) + 65536 * OctetAt(Encode(B0_16M, Octets(b)), 2) == |b|
    ensures |items| <= 255 ==> Encode(Seq0_255(of), List(items)) == [|items|] + EncodeItems(of, items)
    ensures |items| <= 65535 ==>
      && Encode(Seq0_64K(of), List(items))[2..] == EncodeItems(of, items)
      && WordAt(Encode(Seq0_64K(of), List(items)), 0) == |items|
  {
    if n < 0x1_0000 { TwoOctets(n); }
    if n < 0x1_0000_0000 { FourOctets(n); }
    if |b| <= 255 { assert LE(|b|, 1) == [|b|]; }
    if |b| <= 65535 { TwoOctets(|b|); }
    if |b| < 0x100_0000 { ThreeOctets(|b|); }
    if |items| <= 255 { assert LE(|items|, 1) == [|items|]; }
    if |items| <= 65535 { TwoOctets(|items|); }
  }
}
