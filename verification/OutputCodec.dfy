/**
 Transaction outputs as bytes: written for a coinbase and for a job token
 (src/services/sv2-job-declaration.service.ts), read back to find the scripts a declared
 coinbase must pay (src/services/sv2-job-declaration-registry.service.ts).
 */
module OutputCodec {
  import opened Bytes
  import opened CoinbaseBytes
  import opened CoinbaseOutputs
  import opened Sequences

  ghost predicate Payable(outs: seq<Output>)
  {
    forall o :: o in outs ==> o.value >= 0
  }

  function One(o: Output): bytes
    requires o.value >= 0
  {
    LE(o.value, 8) + VarInt(|o.script|) + o.script
  }

  function OutputBytes(outs: seq<Output>): bytes
    requires Payable(outs)
  {
    if outs == [] then [] else One(outs[0]) + OutputBytes(outs[1..])
  }

  function SerializeOutputs(outs: seq<Output>): bytes
    requires Payable(outs)
  {
    VarInt(|outs|) + OutputBytes(outs)
  }

  // ---- reading ----

  datatype Read = Read(value: nat, offset: nat)

  const MAX_READABLE := 0x1_0000_0000

  /** The registry's integer reader, which has no nine-octet form. */
  function ReadVarInt(b: bytes, offset: nat): (r: Option<Read>)
    ensures r.Some? ==> offset < r.value.offset <= |b|
  {
    if offset >= |b| then None
    else if b[offset] < 0xfd then Some(Read(b[offset], offset + 1))
    else if b[offset] == 0xfd then
      if offset + 3 > |b| then None else Some(Read(FromLE(b[offset + 1..offset + 3]), offset + 3))
    else if b[offset] == 0xfe then
      if offset + 5 > |b| then None else Some(Read(FromLE(b[offset + 1..offset + 5]), offset + 5))
    else None
  }

  /** One output from a cursor on: its script and where the next begins. */
  function ReadScript(b: bytes, cursor: nat): (r: Option<(bytes, nat)>)
    ensures r.Some? ==> cursor < r.value.1 <= |b|
  {
    if cursor + 8 > |b| then None
    else
      var length := ReadVarInt(b, cursor + 8);
      if length.None? || length.value.offset + length.value.value > |b| then None
      else
        var end := length.value.offset + length.value.value;
        Some((b[length.value.offset..end], end))
  }

  function ReadScripts(b: bytes, cursor: nat, count: nat): Option<seq<bytes>>
    decreases count
  {
    if count == 0 then Some([])
    else
      var first := ReadScript(b, cursor);
      if first.None? then None
      else
        var rest := ReadScripts(b, first.value.1, count - 1);
        if rest.None? then None else Some([first.value.0] + rest.value)
  }

  function OutputScripts(b: bytes): Option<seq<bytes>>
  {
    var count := ReadVarInt(b, 0);
    if count.None? then None else ReadScripts(b, count.value.offset, count.value.value)
  }

  method ReadOutput(outputs: bytes, cursor: nat) returns (r: Option<(bytes, nat)>)
    ensures r == ReadScript(outputs, cursor)
  {
    if cursor + 8 > |outputs| {
      return None;
    }
    var scriptLength := ReadVarInt(outputs, cursor + 8);
    if scriptLength.None? || scriptLength.value.offset + scriptLength.value.value > |outputs| {
      return None;
    }
    var end := scriptLength.value.offset + scriptLength.value.value;
    r := Some((outputs[scriptLength.value.offset..end], end));
  }

  /** The cursor loop; any octets missing fail the whole list. */
  method ExtractOutputScripts(outputs: bytes) returns (scripts: Option<seq<bytes>>)
    ensures scripts == OutputScripts(outputs)
  {
    var count := ReadVarInt(outputs, 0);
    if count.None? {
      return None;
    }
    var found: seq<bytes> := [];
    var cursor: nat, outputCount: nat := count.value.offset, count.value.value;
    ghost var all := ReadScripts(outputs, cursor, outputCount);
    ThenNothing(all);
    for i := 0 to outputCount
      invariant all == Then(found, ReadScripts(outputs, cursor, outputCount - i))
    {
      ScriptsStep(outputs, found, cursor, outputCount - i);
      var next := ReadOutput(outputs, cursor);
      if next.None? {
        return None;
      }
      found := found + [next.value.0];
      cursor := next.value.1;
    }
    ScriptsEnd(outputs, found, cursor);
    scripts := Some(found);
  }

  lemma ScriptsEnd(b: bytes, found: seq<bytes>, cursor: nat)
    ensures Then(found, ReadScripts(b, cursor, 0)) == Some(found)
  {
    assert found + [] == found;
  }

  function Then(found: seq<bytes>, rest: Option<seq<bytes>>): Option<seq<bytes>>
  {
    if rest.None? then None else Some(found + rest.value)
  }

  lemma ThenNothing(rest: Option<seq<bytes>>)
    ensures Then([], rest) == rest
  {
    if rest.Some? { assert [] + rest.value == rest.value; }
  }

  lemma ThenStep(found: seq<bytes>, s: bytes, rest: Option<seq<bytes>>)
    ensures Then(found, Then([s], rest)) == Then(found + [s], rest)
  {
    if rest.Some? { assert found + ([s] + rest.value) == found + [s] + rest.value; }
  }

  lemma ScriptsStep(b: bytes, found: seq<bytes>, cursor: nat, count: nat)
    requires count > 0
    ensures
      var first := ReadScript(b, cursor);
      Then(found, ReadScripts(b, cursor, count)) ==
        if first.None? then None else Then(found + [first.value.0], ReadScripts(b, first.value.1, count - 1))
  {
    var first := ReadScript(b, cursor);
    if first.Some? {
      ThenStep(found, first.value.0, ReadScripts(b, first.value.1, count - 1));
    }
  }

  // ---- the reader undoes the writer ----

  lemma ReadsVarInt(front: bytes, v: nat, back: bytes)
    requires v < MAX_READABLE
    ensures ReadVarInt(front + VarInt(v) + back, |front|) == Some(Read(v, |front| + |VarInt(v)|))
  {
    var b, at := front + VarInt(v) + back, |front|;
    assert b[at..at + |VarInt(v)|] == VarInt(v);
    assert b[at] == VarInt(v)[0];
    if v >= 0xfd {
      VarIntTail(v);
      assert b[at + 1..at + |VarInt(v)|] == VarInt(v)[1..];
    }
  }

  ghost predicate ShortScripts(outs: seq<Output>)
  {
    forall o :: o in outs ==> |o.script| < MAX_READABLE
  }

  function Scripts(outs: seq<Output>): (s: seq<bytes>)
    ensures |s| == |outs|
    ensures forall i :: 0 <= i < |outs| ==> s[i] == outs[i].script
  {
    seq(|outs|, i requires 0 <= i < |outs| => outs[i].script)
  }

  lemma ReadsScript(front: bytes, o: Output, back: bytes)
    requires o.value >= 0 && |o.script| < MAX_READABLE
    ensures ReadScript(front + One(o) + back, |front|) == Some((o.script, |front + One(o)|))
  {
    var b := front + One(o) + back;
    assert b == (front + LE(o.value, 8)) + VarInt(|o.script|) + (o.script + back);
    ReadsVarInt(front + LE(o.value, 8), |o.script|, o.script + back);
    var from := |front| + 8 + |VarInt(|o.script|)|;
    assert b[from..] == o.script + back;
    assert b[from..from + |o.script|] == o.script;
  }

  lemma {:induction false} ReadsScripts(front: bytes, outs: seq<Output>)
    requires Payable(outs) && ShortScripts(outs)
    ensures ReadScripts(front + OutputBytes(outs), |front|, |outs|) == Some(Scripts(outs))
    decreases outs
  {
    if outs != [] {
      var o, rest := outs[0], outs[1..];
      ReadsScript(front, o, OutputBytes(rest));
      ReadsScripts(front + One(o), rest);
      ScriptsPrepend(outs);
      FirstThenRest(front + One(o) + OutputBytes(rest), |front|, |outs|, o.script, |front + One(o)|, Scripts(rest));
      JoinThree(front, One(o), OutputBytes(rest));
    }
  }

  lemma FirstThenRest(b: bytes, cursor: nat, count: nat, script: bytes, next: nat, rest: seq<bytes>)
    requires count > 0 && ReadScript(b, cursor) == Some((script, next))
    requires ReadScripts(b, next, count - 1) == Some(rest)
    ensures ReadScripts(b, cursor, count) == Some([script] + rest)
  {
  }

  lemma JoinThree(a: bytes, b: bytes, c: bytes)
    ensures a + (b + c) == a + b + c
  {
  }

  lemma ScriptsPrepend(outs: seq<Output>)
    requires outs != []
    ensures Scripts(outs) == [outs[0].script] + Scripts(outs[1..])
  {
  }

  /** Reading a serialized list gives its scripts back, in order. */
  lemma ScriptsRoundTrip(outs: seq<Output>)
    requires Payable(outs) && ShortScripts(outs) && |outs| < MAX_READABLE
    ensures OutputScripts(SerializeOutputs(outs)) == Some(Scripts(outs))
  {
    var b := SerializeOutputs(outs);
    assert b == [] + VarInt(|outs|) + OutputBytes(outs);
    ReadsVarInt([], |outs|, OutputBytes(outs));
    ReadsScripts(VarInt(|outs|), outs);
  }

  // ---- the outputs a token asks for ----

  ghost predicate Occurs(needle: bytes, hay: bytes)
  {
    exists p :: OccursAt(hay, needle, p)
  }

  method Find(needle: bytes, hay: bytes) returns (found: bool)
    ensures found <==> Occurs(needle, hay)
  {
    var p := 0;
    while p + |needle| <= |hay|
      invariant 0 <= p
      invariant forall q :: 0 <= q < p ==> !OccursAt(hay, needle, q)
    {
      if hay[p..p + |needle|] == needle {
        assert OccursAt(hay, needle, p);
        return true;
      }
      p := p + 1;
    }
    found := false;
  }

  /** Whether a declared coinbase pays what its token asks for; None when the token's own
      outputs cannot be read. */
  ghost function IncludesRequired(coinbase: bytes, required: bytes): Option<bool>
  {
    if required == [] then Some(true)
    else
      var scripts := OutputScripts(required);
      if scripts.None? then None
      else Some(forall s :: s in scripts.value ==> s != [] && Occurs(s, coinbase))
  }

  /** No list asks for nothing; a list that cannot be read is an error; any other asks for each
      of its scripts, none of them empty, somewhere in the coinbase. */
  lemma RequiredMeans(coinbase: bytes, required: bytes)
    ensures IncludesRequired(coinbase, required).None? <==> required != [] && OutputScripts(required).None?
    ensures IncludesRequired(coinbase, required) == Some(true) <==>
      || required == []
      || (OutputScripts(required).Some? &&
          forall k :: 0 <= k < |OutputScripts(required).value| ==>
            OutputScripts(required).value[k] != [] && Occurs(OutputScripts(required).value[k], coinbase))
  {
    if required != [] && OutputScripts(required).Some? {
      var scripts := OutputScripts(required).value;
      forall k | 0 <= k < |scripts| ensures scripts[k] in scripts {}
      if forall k :: 0 <= k < |scripts| ==> scripts[k] != [] && Occurs(scripts[k], coinbase) {
        forall s | s in scripts ensures s != [] && Occurs(s, coinbase) {
          var k :| 0 <= k < |scripts| && scripts[k] == s;
        }
      }
    }
  }

  method CoinbaseIncludesRequiredOutputs(prefix: bytes, suffix: bytes, required: bytes) returns (r: Option<bool>)
    ensures r == IncludesRequired(prefix + suffix, required)
  {
    if |required| == 0 {
      return Some(true);
    }
    var declaredCoinbase := prefix + suffix;
    var scripts := ExtractOutputScripts(required);
    if scripts.None? {
      return None;
    }
    for i := 0 to |scripts.value|
      invariant forall k :: 0 <= k < i ==> scripts.value[k] != [] && Occurs(scripts.value[k], declaredCoinbase)
    {
      var found := Find(scripts.value[i], declaredCoinbase);
      if |scripts.value[i]| == 0 || !found {
        assert scripts.value[i] in scripts.value;
        return Some(false);
      }
    }
    r := Some(true);
  }

  /** For a token the pool issued: every script of its list, none of them empty, stands
      somewhere in the declared coinbase, and nothing else is asked. */
  lemma TokenAsksForItsScripts(coinbase: bytes, outs: seq<Output>)
    requires Payable(outs) && ShortScripts(outs) && |outs| < MAX_READABLE
    ensures IncludesRequired(coinbase, SerializeOutputs(outs)) ==
      Some(forall o :: o in outs ==> o.script != [] && Occurs(o.script, coinbase))
  {
    ScriptsRoundTrip(outs);
    var scripts := Scripts(outs);
    forall o | o in outs ensures o.script in scripts {
      var i :| 0 <= i < |outs| && outs[i] == o;
      assert scripts[i] == o.script;
    }
    forall s | s in scripts ensures exists o :: o in outs && o.script == s {
      var i :| 0 <= i < |scripts| && scripts[i] == s;
      assert outs[i] in outs && outs[i].script == s;
    }
  }
}
