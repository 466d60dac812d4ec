/**
 Hexadecimal text as Node's `Buffer` reads and writes it: two characters an octet, and decoding
 stops at the first pair that is not two digits.
 */
module HexText {
  import opened Bytes
  import opened CoinbaseBytes

  predicate IsDigit(c: char)
  {
    '0' <= c <= '9' || 'a' <= c <= 'f' || 'A' <= c <= 'F'
  }

  function DigitValue(c: char): nibble
    requires IsDigit(c)
  {
    if c <= '9' then c as int - '0' as int
    else if c <= 'F' then c as int - 'A' as int + 10
    else c as int - 'a' as int + 10
  }

  lemma DigitValueIs(c: char, n: nibble)
    ensures IsDigit(c) && DigitValue(c) == n <==> c == "0123456789abcdef"[n] || c == "0123456789ABCDEF"[n]
  {
    assert n < 10 ==> "0123456789abcdef"[n] == '0' + n as char == "0123456789ABCDEF"[n];
    assert n >= 10 ==> "0123456789abcdef"[n] == 'a' + (n - 10) as char;
    assert n >= 10 ==> "0123456789ABCDEF"[n] == 'A' + (n - 10) as char;
  }

  function Digit(n: nibble): char
  {
    if n < 10 then '0' + n as char else 'a' + (n - 10) as char
  }

  function DecodeHex(s: string): bytes
  {
    if |s| < 2 || !IsDigit(s[0]) || !IsDigit(s[1]) then []
    else [Octet(DigitValue(s[0]), DigitValue(s[1]))] + DecodeHex(s[2..])
  }

  function Text(ns: seq<nibble>): (s: string)
    ensures |s| == |ns|
  {
    if ns == [] then [] else [Digit(ns[0])] + Text(ns[1..])
  }

  lemma DigitBack(n: nibble)
    ensures IsDigit(Digit(n)) && DigitValue(Digit(n)) == n
  {
  }

  lemma TextCons(n: nibble, ns: seq<nibble>)
    ensures Text([n] + ns) == [Digit(n)] + Text(ns)
  {
    assert ([n] + ns)[1..] == ns;
  }

  lemma {:induction false} TextJoin(a: seq<nibble>, b: seq<nibble>)
    ensures Text(a + b) == Text(a) + Text(b)
  {
    if a == [] {
      assert a + b == b;
    } else {
      assert a + b == [a[0]] + (a[1..] + b);
      TextCons(a[0], a[1..] + b);
      TextJoin(a[1..], b);
    }
  }

  lemma DecodePair(x: byte, text: string)
    ensures DecodeHex([Digit(High(x))] + ([Digit(Low(x))] + text)) == [x] + DecodeHex(text)
  {
    var s := [Digit(High(x))] + ([Digit(Low(x))] + text);
    DigitBack(High(x));
    DigitBack(Low(x));
    assert s[2..] == text;
  }

  lemma TextOctet(b: bytes)
    requires b != []
    ensures Text(Hex(b)) == [Digit(High(b[0]))] + ([Digit(Low(b[0]))] + Text(Hex(b[1..])))
  {
    var rest := Hex(b[1..]);
    assert Hex(b) == [High(b[0])] + ([Low(b[0])] + rest);
    TextCons(High(b[0]), [Low(b[0])] + rest);
    TextCons(Low(b[0]), rest);
  }

  lemma Behind(c: string, d: string, e: string, f: string)
    ensures (c + (d + e)) + f == c + (d + (e + f))
  {
  }

  /** Whole octets of text decode to themselves, whatever follows them. */
  lemma {:induction false} DecodeJoin(b: bytes, more: string)
    ensures DecodeHex(Text(Hex(b)) + more) == b + DecodeHex(more)
  {
    if b == [] {
      assert Text(Hex(b)) + more == more;
    } else {
      TextOctet(b);
      Behind([Digit(High(b[0]))], [Digit(Low(b[0]))], Text(Hex(b[1..])), more);
      DecodePair(b[0], Text(Hex(b[1..])) + more);
      DecodeJoin(b[1..], more);
      assert b + DecodeHex(more) == [b[0]] + (b[1..] + DecodeHex(more));
    }
  }

  /** A text of even length decodes to half as many octets if and only if all its characters
      are digits. */
  lemma {:induction false} DecodesFullyIff(s: string)
    requires |s| % 2 == 0
    ensures |DecodeHex(s)| <= |s| / 2
    ensures |DecodeHex(s)| == |s| / 2 <==> forall i :: 0 <= i < |s| ==> IsDigit(s[i])
  {
    if s != [] {
      DecodesFullyIff(s[2..]);
      assert forall i :: 2 <= i < |s| ==> s[2..][i - 2] == s[i];
      assert forall i :: 0 <= i < |s[2..]| ==> s[2..][i] == s[i + 2];
    }
  }
}
