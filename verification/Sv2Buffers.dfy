/**
 The buffer classes of src/models/sv2/sv2-binary-codec.ts.
 */
module Sv2Buffers {
  import opened Bytes
  import opened BinaryCodec

  /** What the writer accepts: 16- and 64-bit integers must fit, those of other widths are cut
      off; lengths and counts are checked. */
  ghost predicate Writable(k: Kind, v: Value)
    decreases k
  {
    match k
    case UInt(size) => v.Num? && (size == 2 || size == 8 ==> v.n < Pow256(size))
    case Fixed(size) => v.Octets? && |v.b| == size
    case Blob(_, max) => v.Octets? && |v.b| <= max
    case Many(countSize, of) =>
      v.List? && |v.items| < Pow256(countSize) && forall i :: 0 <= i < |v.items| ==> Writable(of, v.items[i])
  }

  class BufferWriter {
    var buf: array<byte>
    var offset: nat
    ghost var Repr: set<object>

    ghost predicate Valid()
      reads this, Repr
    {
      this in Repr && buf in Repr && buf.Length >= 1 && offset <= buf.Length
    }

    ghost function Contents(): bytes
      requires Valid()
      reads this, Repr
    {
      buf[..offset]
    }

    constructor (initialSize: nat := 256)
      requires initialSize >= 1
      ensures Valid() && fresh(Repr) && Contents() == []
    {
      buf := new byte[initialSize](_ => 0);
      offset := 0;
      Repr := {this, buf};
    }

    /** Room for `n` more octets, by doubling; what was written stays. */
    method EnsureCapacity(n: nat)
      requires Valid()
      modifies this`buf, this`Repr
      ensures Valid() && fresh(Repr - old(Repr)) && offset + n <= buf.Length
      ensures Contents() == old(Contents())
    {
      if offset + n > buf.Length {
        var newSize := buf.Length * 2;
        while newSize < offset + n
          invariant newSize >= buf.Length * 2
          decreases offset + n - newSize
        {
          newSize := newSize * 2;
        }
        var newBuf := new byte[newSize](_ => 0);
        forall i | 0 <= i < offset {
          newBuf[i] := buf[i];
        }
        buf := newBuf;
        Repr := Repr + {buf};
      }
    }

    method WriteBytes(v: bytes)
      requires Valid()
      modifies Repr
      ensures Valid() && fresh(Repr - old(Repr))
      ensures Contents() == old(Contents()) + v
    {
      EnsureCapacity(|v|);
      forall i | 0 <= i < |v| {
        buf[offset + i] := v[i];
      }
      offset := offset + |v|;
    }

    method WriteUInt(size: nat, v: nat)
      requires Valid()
      modifies Repr
      ensures Valid() && fresh(Repr - old(Repr))
      ensures Contents() == old(Contents()) + LE(v, size)
    {
      WriteBytes(LE(v, size));
    }

    method WriteU32(n: u32)
      requires Valid()
      modifies Repr
      ensures Valid() && fresh(Repr - old(Repr))
      ensures Contents() == old(Contents()) + Encode(U32, Num(n))
    {
      WriteUInt(4, n);
    }

    /** None, with nothing promised about the buffer, where the buffer classes throw. */
    method Write(k: Kind, v: Value) returns (r: Option<()>)
      requires Valid()
      modifies Repr
      ensures Valid() && fresh(Repr - old(Repr))
      ensures r.Some? <==> Writable(k, v)
      ensures r.Some? ==> Contents() == old(Contents()) + Encode(k, v)
      decreases k, 0
    {
      match (k, v) {
        case (UInt(size), Num(n)) =>
          if (size == 2 || size == 8) && n >= Pow256(size) {
            return None;
          }
          WriteUInt(size, n);
        case (Fixed(size), Octets(b)) =>
          if |b| != size {
            return None;
          }
          WriteBytes(b);
        case (Blob(lenSize, max), Octets(b)) =>
          if |b| > max {
            return None;
          }
          ghost var before := Contents();
          WriteUInt(lenSize, |b|);
          WriteBytes(b);
          assert before + LE(|b|, lenSize) + b == before + (LE(|b|, lenSize) + b);
        case (Many(countSize, of), List(items)) =>
          if |items| >= Pow256(countSize) {
            return None;
          }
          ghost var before := Contents();
          WriteUInt(countSize, |items|);
          var _ :- WriteItems(of, items);
          assert before + LE(|items|, countSize) + EncodeItems(of, items)
              == before + (LE(|items|, countSize) + EncodeItems(of, items));
        case _ =>
          return None;
      }
      r := Some(());
    }

    method WriteItems(of: Kind, items: seq<Value>) returns (r: Option<()>)
      requires Valid()
      modifies Repr
      ensures Valid() && fresh(Repr - old(Repr))
      ensures r.Some? <==> forall i :: 0 <= i < |items| ==> Writable(of, items[i])
      ensures r.Some? ==> Contents() == old(Contents()) + EncodeItems(of, items)
      decreases of, 1
    {
      ghost var all := Contents() + EncodeItems(of, items);
      assert items[0..] == items;
      for i := 0 to |items|
        invariant Valid() && fresh(Repr - old(Repr))
        invariant forall j :: 0 <= j < i ==> Writable(of, items[j])
        invariant Contents() + EncodeItems(of, items[i..]) == all
      {
        assert items[i..][1..] == items[i + 1..];
        ghost var here, rest := Contents(), EncodeItems(of, items[i + 1..]);
        var _ :- Write(of, items[i]);
        assert here + (Encode(of, items[i]) + rest) == here + Encode(of, items[i]) + rest;
      }
      assert Contents() + [] == Contents();
      r := Some(());
    }

    method ToBuffer() returns (b: bytes)
      requires Valid()
      ensures b == Contents()
    {
      b := buf[..offset];
    }
  }

  class BufferReader {
    const buf: bytes
    var offset: nat

    ghost predicate Valid()
      reads this
    {
      offset <= |buf|
    }

    /** What has not been read yet. */
    function Remaining(): bytes
      requires Valid()
      reads this
    {
      buf[offset..]
    }

    constructor (b: bytes)
      ensures Valid() && buf == b && Remaining() == b
    {
      buf, offset := b, 0;
    }

    method ReadBytes(n: nat) returns (r: Option<bytes>)
      requires Valid()
      modifies this`offset
      ensures Valid()
      ensures match Take(n, old(Remaining()))
        case OutOfRange => r == None && offset == old(offset)
        case Got(b, rest) => r == Some(b) && Remaining() == rest
    {
      if offset + n > |buf| {
        return None;
      }
      assert Remaining()[..n] == buf[offset..offset + n] && Remaining()[n..] == buf[offset + n..];
      r := Some(buf[offset..offset + n]);
      offset := offset + n;
    }

    method ReadUInt(size: nat) returns (r: Option<nat>)
      requires Valid()
      modifies this`offset
      ensures Valid()
      ensures match TakeUInt(size, old(Remaining()))
        case OutOfRange => r == None && offset == old(offset)
        case Got(n, rest) => r == Some(n) && Remaining() == rest
    {
      if offset + size > |buf| {
        return None;
      }
      assert Remaining()[..size] == buf[offset..offset + size] && Remaining()[size..] == buf[offset + size..];
      r := Some(FromLE(buf[offset..offset + size]));
      offset := offset + size;
    }

    method Read(k: Kind) returns (r: Option<Value>)
      requires Valid()
      modifies this`offset
      ensures Valid()
      ensures match Decode(k, old(Remaining()))
        case OutOfRange => r == None
        case Got(v, rest) => r == Some(v) && Remaining() == rest
      decreases k, 0
    {
      match k {
        case UInt(size) =>
          var n := ReadUInt(size);
          r := if n.Some? then Some(Num(n.value)) else None;
        case Fixed(size) =>
          var b := ReadBytes(size);
          r := if b.Some? then Some(Octets(b.value)) else None;
        case Blob(lenSize, max) =>
          var n := ReadUInt(lenSize);
          if n.None? || n.value > max {
            return None;
          }
          var b := ReadBytes(n.value);
          r := if b.Some? then Some(Octets(b.value)) else None;
        case Many(countSize, of) =>
          var n := ReadUInt(countSize);
          if n.None? {
            return None;
          }
          var items := ReadItems(of, n.value);
          r := if items.Some? then Some(List(items.value)) else None;
      }
    }

    method ReadItems(of: Kind, count: nat) returns (r: Option<seq<Value>>)
      requires Valid()
      modifies this`offset
      ensures Valid()
      ensures match DecodeItems(of, count, old(Remaining()))
        case OutOfRange => r == None
        case Got(items, rest) => r == Some(items) && Remaining() == rest
      decreases of, 1
    {
      ghost var spec := DecodeItems(of, count, Remaining());
      var items: seq<Value> := [];
      ItemsAfter(items, spec);
      for i := 0 to count
        invariant Valid()
        invariant spec == After(items, DecodeItems(of, count - i, Remaining()))
      {
        ghost var next := Decode(of, Remaining());
        ghost var before := items;
        if next.Got? { ItemsAssociate(items, next.value, DecodeItems(of, count - i - 1, next.rest)); }
        var item := Read(of);
        if item.None? {
          return None;
        }
        items := items + [item.value];
      }
      assert items + [] == items;
      r := Some(items);
    }

    method ReadU32() returns (r: Option<u32>)
      requires Valid()
      modifies this`offset
      ensures Valid()
      ensures match TakeU32(old(Remaining()))
        case OutOfRange => r == None
        case Got(n, rest) => r == Some(n) && Remaining() == rest
    {
      U32InRange(Remaining());
      var n :- ReadUInt(4);
      r := Some(n);
    }

    /** Octets of a fixed length, or behind their length. */
    method ReadOctets(k: Kind) returns (r: Option<bytes>)
      requires Valid() && OctetKind(k)
      modifies this`offset
      ensures Valid()
      ensures match TakeOctets(k, old(Remaining()))
        case OutOfRange => r == None
        case Got(b, rest) => r == Some(b) && Remaining() == rest
    {
      var v :- Read(k);
      r := Some(AsOctets(v));
    }

    method ReadList(k: Kind) returns (r: Option<seq<bytes>>)
      requires Valid() && k.Many?
      modifies this`offset
      ensures Valid()
      ensures match TakeList(k, old(Remaining()))
        case OutOfRange => r == None
        case Got(bs, rest) => r == Some(bs) && Remaining() == rest
    {
      var v :- Read(k);
      r := Some(AsList(v));
    }
  }

  // ---- typed fields ----

  type u32 = x: int | 0 <= x < 0x1_0000_0000

  predicate OctetKind(k: Kind) { k.Fixed? || k.Blob? }

  function Blobs(bs: seq<bytes>): (vs: seq<Value>)
    ensures |vs| == |bs| && forall i :: 0 <= i < |bs| ==> vs[i] == Octets(bs[i])
  {
    if bs == [] then [] else [Octets(bs[0])] + Blobs(bs[1..])
  }

  function AsOctets(v: Value): bytes
  {
    if v.Octets? then v.b else []
  }

  function AsItems(vs: seq<Value>): seq<bytes>
  {
    if vs == [] then [] else [AsOctets(vs[0])] + AsItems(vs[1..])
  }

  function AsList(v: Value): seq<bytes>
  {
    if v.List? then AsItems(v.items) else []
  }

  lemma U32InRange(b: bytes)
    ensures TakeUInt(4, b).Got? ==> TakeUInt(4, b).value < 0x1_0000_0000
  {
    Powers();
    if |b| >= 4 { ToFromLE(b[..4]); }
  }

  function TakeU32(b: bytes): Parsed<u32>
  {
    U32InRange(b);
    var (n, b) :- TakeUInt(4, b);
    Got(n, b)
  }

  function TakeOctets(k: Kind, b: bytes): Parsed<bytes>
  {
    var (v, b) :- Decode(k, b);
    Got(AsOctets(v), b)
  }

  function TakeList(k: Kind, b: bytes): Parsed<seq<bytes>>
  {
    var (v, b) :- Decode(k, b);
    Got(AsList(v), b)
  }

  lemma U32Back(n: u32, rest: bytes)
    ensures TakeU32(Encode(U32, Num(n)) + rest) == Got(n, rest)
  {
    Powers();
    DecodeUndoesEncode(U32, Num(n), rest);
  }

  lemma OctetsBack(k: Kind, b: bytes, rest: bytes)
    requires OctetKind(k) && KindOk(k) && InRange(k, Octets(b))
    ensures TakeOctets(k, Encode(k, Octets(b)) + rest) == Got(b, rest)
  {
    DecodeUndoesEncode(k, Octets(b), rest);
  }

  lemma {:induction false} ItemsBack(bs: seq<bytes>)
    ensures AsItems(Blobs(bs)) == bs
  {
    if bs != [] { ItemsBack(bs[1..]); }
  }

  lemma ListBack(k: Kind, bs: seq<bytes>, rest: bytes)
    requires k.Many? && KindOk(k) && InRange(k, List(Blobs(bs)))
    ensures TakeList(k, Encode(k, List(Blobs(bs))) + rest) == Got(bs, rest)
  {
    DecodeUndoesEncode(k, List(Blobs(bs)), rest);
    ItemsBack(bs);
  }

  /** Values read so far, then the outcome of reading on. */
  function After(vs: seq<Value>, p: Parsed<seq<Value>>): Parsed<seq<Value>>
  {
    match p
    case OutOfRange => OutOfRange
    case Got(ws, rest) => Got(vs + ws, rest)
  }

  lemma ItemsAfter(vs: seq<Value>, p: Parsed<seq<Value>>)
    requires vs == []
    ensures After(vs, p) == p
  {
    match p
    case OutOfRange =>
    case Got(ws, _) => assert vs + ws == ws;
  }

  lemma ItemsAssociate(vs: seq<Value>, v: Value, p: Parsed<seq<Value>>)
    ensures After(vs, After([v], p)) == After(vs + [v], p)
  {
    match p
    case OutOfRange =>
    case Got(ws, _) => assert vs + ([v] + ws) == vs + [v] + ws;
  }
}
