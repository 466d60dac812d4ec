/**
 What the texts of a submission on a Stratum V1 connection decode to
 (src/models/StratumV1Client.ts, src/models/MiningJob.ts). Shares are told apart by their texts,
 headers by what the texts decode to.
 */
module ShareText {
  import opened Bytes
  import opened CoinbaseBytes
  import opened HexText
  import opened MerklePath
  import opened Sequences
  import opened Words
  import MiningJob
  import SubmissionDedup

  // ---- parseInt(text, 16) ----

  predicate IsSpace(c: char)
  {
    var n := c as int;
    || 0x9 <= n <= 0xd || n == 0x20 || n == 0xa0 || n == 0x1680 || 0x2000 <= n <= 0x200a
    || n == 0x2028 || n == 0x2029 || n == 0x202f || n == 0x205f || n == 0x3000 || n == 0xfeff
  }

  function Trimmed(s: string): string
  {
    if s != [] && IsSpace(s[0]) then Trimmed(s[1..]) else s
  }

  /** The digits up to the first other character. */
  function Digits(s: string, before: nat): nat
    decreases |s|
  {
    if s == [] || !IsDigit(s[0]) then before else Digits(s[1..], 16 * before + DigitValue(s[0]))
  }

  function Unprefixed(s: string): string
  {
    if |s| >= 2 && s[0] == '0' && (s[1] == 'x' || s[1] == 'X') then s[2..] else s
  }

  /** The number; a text that is none counts as zero wherever a header is built from it. */
  function ParseHex(s: string): int
  {
    var t := Trimmed(s);
    var n: int := Digits(Unprefixed(if t != [] && (t[0] == '-' || t[0] == '+') then t[1..] else t), 0);
    if t != [] && t[0] == '-' then -n else n
  }

  /** The value of digits by their places, the last one's being one. */
  function Placed(digits: string): nat
    requires forall i :: 0 <= i < |digits| ==> IsDigit(digits[i])
  {
    if digits == "" then 0
    else 16 * Placed(digits[..|digits| - 1]) + DigitValue(digits[|digits| - 1])
  }

  lemma {:induction false} DigitsArePlaced(done: string, digits: string, junk: string)
    requires forall i :: 0 <= i < |done| ==> IsDigit(done[i])
    requires forall i :: 0 <= i < |digits| ==> IsDigit(digits[i])
    requires junk == "" || !IsDigit(junk[0])
    ensures Digits(digits + junk, Placed(done)) == Placed(done + digits)
    decreases |digits|
  {
    if digits == "" {
      assert done + digits == done && digits + junk == junk;
    } else {
      var next := done + [digits[0]];
      assert next[..|next| - 1] == done && next + digits[1..] == done + digits;
      assert (digits + junk)[1..] == digits[1..] + junk;
      DigitsArePlaced(next, digits[1..], junk);
    }
  }

  lemma {:induction false} SpacesTrimmed(spaces: string, s: string)
    requires forall i :: 0 <= i < |spaces| ==> IsSpace(spaces[i])
    requires s == "" || !IsSpace(s[0])
    ensures Trimmed(spaces + s) == s
    decreases |spaces|
  {
    if spaces == "" {
      assert spaces + s == s;
    } else {
      assert (spaces + s)[1..] == spaces[1..] + s;
      SpacesTrimmed(spaces[1..], s);
    }
  }

  lemma PrefixTaken(prefix: string, digits: string, junk: string)
    requires prefix == "" || prefix == "0x" || prefix == "0X"
    requires digits != "" && (forall i :: 0 <= i < |digits| ==> IsDigit(digits[i]))
    requires junk == "" || (junk[0] != 'x' && junk[0] != 'X')
    ensures Unprefixed(prefix + (digits + junk)) == digits + junk
  {
    var tail := digits + junk;
    if prefix == "" {
      assert prefix + tail == tail && tail[0] == digits[0];
      assert |tail| >= 2 ==> tail[1] == if |digits| >= 2 then digits[1] else junk[0];
    } else {
      assert (prefix + tail)[0] == '0' && (prefix + tail)[1] == prefix[1] && (prefix + tail)[2..] == tail;
    }
  }

  lemma SignTaken(spaces: string, sign: string, number: string)
    requires forall i :: 0 <= i < |spaces| ==> IsSpace(spaces[i])
    requires (sign == "" && number != "" && IsDigit(number[0])) || sign == "+" || sign == "-"
    ensures ParseHex(spaces + (sign + number)) == (if sign == "-" then -1 else 1) * Digits(Unprefixed(number), 0)
  {
    var signed := sign + number;
    assert signed[0] == if sign == "" then number[0] else sign[0];
    SpacesTrimmed(spaces, signed);
    if sign == "" { assert signed == number; } else { assert signed[1..] == number; }
  }

  /** Spaces, a sign or none, "0x" or not, digits, and anything that is no digit: what the digits
      are worth by their places, with the sign. */
  lemma ParseHexIs(spaces: string, sign: string, prefix: string, digits: string, junk: string)
    requires forall i :: 0 <= i < |spaces| ==> IsSpace(spaces[i])
    requires sign == "" || sign == "+" || sign == "-"
    requires prefix == "" || prefix == "0x" || prefix == "0X"
    requires digits != "" && (forall i :: 0 <= i < |digits| ==> IsDigit(digits[i]))
    requires junk == "" || (!IsDigit(junk[0]) && junk[0] != 'x' && junk[0] != 'X')
    ensures ParseHex(spaces + (sign + (prefix + (digits + junk)))) == (if sign == "-" then -1 else 1) * Placed(digits)
  {
    var number := prefix + (digits + junk);
    PrefixTaken(prefix, digits, junk);
    assert number[0] == if prefix == "" then digits[0] else prefix[0];
    SignTaken(spaces, sign, number);
    DigitsArePlaced("", digits, junk);
    assert "" + digits == digits;
  }

  // ---- the fields of a header ----

  const WORD := 0x1_0000_0000

  /** What a submission adds to its job, or None where a nonce or time outside 32 bits makes
      `writeUInt32LE` throw. The connection's own part of the extranonce comes first. */
  function Fields(own: bytes, sub: SubmissionDedup.Submission): Option<MiningJob.Submission>
  {
    var nonce, time, mask := ParseHex(sub.nonce), ParseHex(sub.ntime), ParseHex(sub.versionMask) % WORD;
    if !(0 <= nonce < WORD && 0 <= time < WORD) then None
    else Some(MiningJob.Submission(Some(mask), nonce, Text(Hex(own)), sub.extraNonce2, time))
  }

  predicate SameFields(x: MiningJob.Submission, y: MiningJob.Submission)
  {
    && x.versionMask == y.versionMask && x.nonce == y.nonce && x.timestamp == y.timestamp
    && x.Extranonce() == y.Extranonce()
  }

  lemma FilledBinds(tx: CoinbaseTx, e: bytes, f: bytes)
    requires |tx.script| == SCRIPT_SIZE && Filled(tx, e) == Filled(tx, f)
    ensures e == f
  {
    var front, back := Serialize(tx)[..HOLE_AT], Serialize(tx)[AFTER_SCRIPT..];
    assert |front| + |e| + |back| == |front| + |f| + |back|;
    assert Filled(tx, e)[|front|..|front| + |e|] == e && Filled(tx, f)[|front|..|front| + |f|] == f;
  }

  /** What a job's shares are judged against. */
  datatype Work = Work(tx: CoinbaseTx, branches: seq<bytes>, template: MiningJob.Header)
  {
    ghost predicate Valid() { |tx.script| == SCRIPT_SIZE && AllHashes(branches) && template.WellFormed() }
  }

  function HeaderOf(H: Hasher, w: Work, x: MiningJob.Submission): bytes
    requires |w.tx.script| == SCRIPT_SIZE
  {
    MiningJob.HeaderBytes(MiningJob.FastHeader(H, w.tx, w.branches, w.template, x))
  }

  ghost predicate Collide(H: Hasher, p: bytes, q: bytes)
  {
    p != q && H.hash256(p) == H.hash256(q)
  }

  /** Two submissions of one job have the same header if and only if their fields decode to the
      same; short of a collision of the hash, which the lemma then exhibits. */
  lemma SameHeaderIff(H: Hasher, w: Work, x: MiningJob.Submission, y: MiningJob.Submission)
    returns (p: bytes, q: bytes)
    requires H.Lawful() && w.Valid() && x.WellFormed() && y.WellFormed()
    requires x.versionMask.Some? && y.versionMask.Some?
    ensures SameFields(x, y) ==> HeaderOf(H, w, x) == HeaderOf(H, w, y)
    ensures HeaderOf(H, w, x) == HeaderOf(H, w, y) ==> SameFields(x, y) || Collide(H, p, q)
  {
    p, q := Filled(w.tx, x.Extranonce()), Filled(w.tx, y.Extranonce());
    var hx := MiningJob.FastHeader(H, w.tx, w.branches, w.template, x);
    var hy := MiningJob.FastHeader(H, w.tx, w.branches, w.template, y);
    MiningJob.FoldIsHash(H, H.hash256(p), w.branches);
    MiningJob.FoldIsHash(H, H.hash256(q), w.branches);
    if HeaderOf(H, w, x) == HeaderOf(H, w, y) {
      MiningJob.HeaderBinds(hx, hy);
      XorBinds(w.template.version, x.versionMask.value, y.versionMask.value);
      if p == q {
        FilledBinds(w.tx, x.Extranonce(), y.Extranonce());
      } else if H.hash256(p) != H.hash256(q) {
        p, q := FoldBinds(H, H.hash256(p), H.hash256(q), w.branches);
      }
    }
  }

  // ---- texts that tell headers apart ----

  predicate IsLowerDigit(c: char) { '0' <= c <= '9' || 'a' <= c <= 'f' }

  ghost predicate LowerHex(s: string, n: nat)
  {
    |s| == n && forall i :: 0 <= i < n ==> IsLowerDigit(s[i])
  }

  /** Fields of fixed width in lower case, as miners usually send them. */
  ghost predicate Canonical(sub: SubmissionDedup.Submission)
  {
    LowerHex(sub.extraNonce2, 16) && LowerHex(sub.ntime, 8) && LowerHex(sub.nonce, 8) && LowerHex(sub.versionMask, 8)
  }

  function Pow16(n: nat): (p: nat)
    ensures p >= 1
  {
    if n == 0 then 1 else 16 * Pow16(n - 1)
  }

  lemma {:induction false} DigitsBelow(s: string, before: nat)
    requires forall i :: 0 <= i < |s| ==> IsDigit(s[i])
    ensures Digits(s, before) < (before + 1) * Pow16(|s|)
    decreases |s|
  {
    if s != [] {
      DigitsBelow(s[1..], 16 * before + DigitValue(s[0]));
      NextDigitBelow(before, DigitValue(s[0]), Pow16(|s| - 1));
    }
  }

  lemma NextDigitBelow(before: nat, digit: nibble, p: nat)
    ensures (16 * before + digit + 1) * p <= (before + 1) * (16 * p)
  {
    var low: nat := 15 - digit;
    assert (before + 1) * (16 * p) == (16 * before + digit + 1 + low) * p;
    assert (16 * before + digit + 1 + low) * p == (16 * before + digit + 1) * p + low * p;
    assert low * p >= 0;
  }

  lemma LowerDigitBinds(c: char, d: char)
    requires IsLowerDigit(c) && IsLowerDigit(d) && DigitValue(c) == DigitValue(d)
    ensures c == d
  {
  }

  lemma {:induction false} DigitsBind(s: string, t: string, m: nat, n: nat)
    requires LowerHex(s, |t|) && LowerHex(t, |t|) && Digits(s, m) == Digits(t, n)
    ensures m == n && s == t
    decreases |s|
  {
    if s != [] {
      DigitsBind(s[1..], t[1..], 16 * m + DigitValue(s[0]), 16 * n + DigitValue(t[0]));
      LowerDigitBinds(s[0], t[0]);
      assert s == [s[0]] + s[1..] && t == [t[0]] + t[1..];
    }
  }

  lemma {:induction false} DecodeBinds(s: string, t: string)
    requires LowerHex(s, |t|) && LowerHex(t, |t|) && |t| % 2 == 0 && DecodeHex(s) == DecodeHex(t)
    ensures s == t
    decreases |s|
  {
    if s != [] {
      assert IsLowerDigit(s[0]) && IsLowerDigit(s[1]) && IsLowerDigit(t[0]) && IsLowerDigit(t[1]);
      assert DecodeHex(s)[0] == DecodeHex(t)[0] && DecodeHex(s)[1..] == DecodeHex(t)[1..];
      LowerDigitBinds(s[0], t[0]);
      LowerDigitBinds(s[1], t[1]);
      DecodeBinds(s[2..], t[2..]);
      assert s == [s[0], s[1]] + s[2..] && t == [t[0], t[1]] + t[2..];
    }
  }

  /** A word in canonical text is its digits' value. */
  lemma CanonicalWord(s: string)
    requires LowerHex(s, 8)
    ensures ParseHex(s) == Digits(s, 0) < WORD
  {
    DigitsBelow(s, 0);
    assert Pow16(8) == WORD;
    assert IsLowerDigit(s[0]) && IsLowerDigit(s[1]);
  }

  /** Between canonical texts of one job, fields that decode to the same are the same text. */
  lemma CanonicalBinds(own: bytes, a: SubmissionDedup.Submission, b: SubmissionDedup.Submission)
    requires Canonical(a) && Canonical(b) && a.jobId == b.jobId
    ensures Fields(own, a).Some? && Fields(own, b).Some?
    ensures SameFields(Fields(own, a).value, Fields(own, b).value) <==> a == b
  {
    CanonicalFields(own, a);
    CanonicalFields(own, b);
    var x, y := Fields(own, a).value, Fields(own, b).value;
    if SameFields(x, y) {
      DigitsBind(a.ntime, b.ntime, 0, 0);
      DigitsBind(a.nonce, b.nonce, 0, 0);
      DigitsBind(a.versionMask, b.versionMask, 0, 0);
      SameTail(own, DecodeHex(a.extraNonce2), DecodeHex(b.extraNonce2));
      DecodeBinds(a.extraNonce2, b.extraNonce2);
    }
  }

  lemma CanonicalFields(own: bytes, a: SubmissionDedup.Submission)
    requires Canonical(a)
    ensures Fields(own, a).Some?
    ensures var x := Fields(own, a).value;
      && x.nonce == Digits(a.nonce, 0) && x.timestamp == Digits(a.ntime, 0)
      && x.versionMask == Some(Digits(a.versionMask, 0)) && x.Extranonce() == own + DecodeHex(a.extraNonce2)
  {
    CanonicalWord(a.ntime);
    CanonicalWord(a.nonce);
    CanonicalWord(a.versionMask);
    DecodeJoin(own, a.extraNonce2);
  }

  lemma SameTail(own: bytes, e: bytes, f: bytes)
    requires own + e == own + f
    ensures e == f
  {
    assert (own + e)[|own|..] == e && (own + f)[|own|..] == f;
  }

  /** Over every run in which no subscription forgets a live credited key: two shares of one job
      credited from canonical texts have different headers, short of a collision. */
  lemma CreditedHeadersDiffer(
      s: SubmissionDedup.State, events: seq<SubmissionDedup.Event>, i: nat, j: nat,
      a: SubmissionDedup.Submission, b: SubmissionDedup.Submission, H: Hasher, w: Work, own: bytes)
    returns (p: bytes, q: bytes)
    requires SubmissionDedup.Inv(s) && SubmissionDedup.SafeReplays(s, events)
    requires var credited := SubmissionDedup.Run(s, events).credited;
      i < j < |credited| && credited[i] == SubmissionDedup.Key(a) && credited[j] == SubmissionDedup.Key(b)
    requires Canonical(a) && Canonical(b) && a.jobId == b.jobId && H.Lawful() && w.Valid()
    ensures Fields(own, a).Some? && Fields(own, b).Some?
    ensures HeaderOf(H, w, Fields(own, a).value) != HeaderOf(H, w, Fields(own, b).value) || Collide(H, p, q)
  {
    SubmissionDedup.NoKeyTwice(s, events);
    CanonicalBinds(own, a, b);
    p, q := SameHeaderIff(H, w, Fields(own, a).value, Fields(own, b).value);
  }

  // ---- texts that do not ----

  lemma {:induction false} DecodeIgnoresCase(s: string, t: string)
    requires |s| == |t|
    requires forall i :: 0 <= i < |s| ==> IsDigit(s[i]) && IsDigit(t[i]) && DigitValue(s[i]) == DigitValue(t[i])
    ensures DecodeHex(s) == DecodeHex(t)
    decreases |s|
  {
    if |s| >= 2 { DecodeIgnoresCase(s[2..], t[2..]); }
  }

  /** Two texts of one set of fields: letters in the other case, a nonce with a leading zero. */
  function Lower(jobId: string): SubmissionDedup.Submission
  {
    SubmissionDedup.Submission(jobId, "aaaaaaaaaaaaaaaa", "1", "1", "0")
  }

  function Upper(jobId: string): SubmissionDedup.Submission
  {
    SubmissionDedup.Submission(jobId, "AAAAAAAAAAAAAAAA", "1", "01", "0")
  }

  lemma OneNumber()
    ensures ParseHex("1") == 1 && ParseHex("01") == 1
  {
    assert "1"[1..] == [] && "01"[1..] == "1";
    assert Digits("1", 0) == Digits([], 1) == 1;
    assert Digits("01", 0) == Digits("1", 0);
  }

  lemma CasesDecodeAlike(own: bytes, jobId: string)
    ensures var x, y := Fields(own, Lower(jobId)), Fields(own, Upper(jobId));
      x.Some? && y.Some? && SameFields(x.value, y.value)
  {
    OneNumber();
    CasesMatch(own, Lower(jobId).extraNonce2, Upper(jobId).extraNonce2);
  }

  lemma CasesMatch(own: bytes, s: string, t: string)
    requires |s| == |t|
    requires forall i :: 0 <= i < |s| ==> IsDigit(s[i]) && IsDigit(t[i]) && DigitValue(s[i]) == DigitValue(t[i])
    ensures DecodeHex(Text(Hex(own)) + s) == DecodeHex(Text(Hex(own)) + t)
  {
    DecodeIgnoresCase(s, t);
    DecodeJoin(own, s);
    DecodeJoin(own, t);
  }

  /** So one header is credited twice under two keys, on a connection that does everything else
      right. */
  lemma OneHeaderTwice(H: Hasher, w: Work, own: bytes)
    requires H.Lawful() && w.Valid()
    ensures
      var a, b := Lower(SubmissionDedup.IdText(1)), Upper(SubmissionDedup.IdText(1));
      var job := SubmissionDedup.Job(SubmissionDedup.IdText(1), 0);
      var events :=
        [SubmissionDedup.NewTemplate(true, 0), SubmissionDedup.NewJob(job)]
        + [SubmissionDedup.Initialize, SubmissionDedup.Subscribe]
        + [SubmissionDedup.Submit(a, true), SubmissionDedup.Submit(b, true)];
      && SubmissionDedup.Run(SubmissionDedup.Connect(SubmissionDedup.FRESH), events).credited
           == [SubmissionDedup.Key(a), SubmissionDedup.Key(b)]
      && Fields(own, a).Some? && Fields(own, b).Some?
      && HeaderOf(H, w, Fields(own, a).value) == HeaderOf(H, w, Fields(own, b).value)
  {
    var id := SubmissionDedup.IdText(1);
    CasesDecodeAlike(own, id);
    var _, _ := SameHeaderIff(H, w, Fields(own, Lower(id)).value, Fields(own, Upper(id)).value);
    BothCredited(Lower(id), Upper(id));
  }

  /** Two submissions of one live job with different extranonce2 texts are both credited. */
  lemma BothCredited(a: SubmissionDedup.Submission, b: SubmissionDedup.Submission)
    requires a.jobId == b.jobId == SubmissionDedup.IdText(1) && SubmissionDedup.Key(a) != SubmissionDedup.Key(b)
    ensures
      var job := SubmissionDedup.Job(SubmissionDedup.IdText(1), 0);
      var events :=
        [SubmissionDedup.NewTemplate(true, 0), SubmissionDedup.NewJob(job)]
        + [SubmissionDedup.Initialize, SubmissionDedup.Subscribe]
        + [SubmissionDedup.Submit(a, true), SubmissionDedup.Submit(b, true)];
      SubmissionDedup.Run(SubmissionDedup.Connect(SubmissionDedup.FRESH), events).credited
        == [SubmissionDedup.Key(a), SubmissionDedup.Key(b)]
  {
    var start, job := SubmissionDedup.Connect(SubmissionDedup.FRESH), SubmissionDedup.Job(SubmissionDedup.IdText(1), 0);
    var x := [SubmissionDedup.NewTemplate(true, 0), SubmissionDedup.NewJob(job)];
    var y := [SubmissionDedup.Initialize, SubmissionDedup.Subscribe];
    var z := [SubmissionDedup.Submit(a, true), SubmissionDedup.Submit(b, true)];
    SubmissionDedup.RunJoin(start, x + y, z);
    SubmissionDedup.RunJoin(start, x, y);
    SubmissionDedup.RunTwo(start, x[0], x[1]);
    SubmissionDedup.RunTwo(SubmissionDedup.Run(start, x), y[0], y[1]);
    SubmissionDedup.RunTwo(SubmissionDedup.Run(start, x + y), z[0], z[1]);
  }
}
