/** UTF-8, as Python's `str.encode()` / `bytes.decode()` apply it to text
    made of Unicode scalar values. */
module Utf8 {
  import opened Outcomes
  import opened Strings

  /** The encoding of one scalar value: one to four bytes. */
  function EncodeChar(c: char): (b: Bytes)
    ensures 1 <= |b| <= 4
  {
    var n := c as int;
    if n < 0x80 then [n as byte]
    else if n < 0x800 then [(0xC0 + n / 0x40) as byte, (0x80 + n % 0x40) as byte]
    else if n < 0x10000 then
      [(0xE0 + n / 0x1000) as byte, (0x80 + n / 0x40 % 0x40) as byte, (0x80 + n % 0x40) as byte]
    else
      [(0xF0 + n / 0x40000) as byte, (0x80 + n / 0x1000 % 0x40) as byte,
       (0x80 + n / 0x40 % 0x40) as byte, (0x80 + n % 0x40) as byte]
  }

  function Encode(s: string): (b: Bytes)
    ensures |b| >= |s|
    decreases |s|
  {
    if |s| == 0 then [] else EncodeChar(s[0]) + Encode(s[1..])
  }

  predicate IsContinuation(b: byte) { 0x80 <= b < 0xC0 }

  /** Reads one well-formed, shortest-form sequence off the front of `b`. */
  function DecodeChar(b: Bytes): Option<(char, Bytes)> {
    if |b| == 0 then None
    else
      var b0 := b[0] as int;
      if b0 < 0x80 then Some((b0 as char, b[1..]))
      else if 0xC2 <= b0 < 0xE0 && |b| >= 2 && IsContinuation(b[1]) then
        var n := (b0 - 0xC0) * 0x40 + (b[1] as int - 0x80);
        Some((n as char, b[2..]))
      else if 0xE0 <= b0 < 0xF0 && |b| >= 3 && IsContinuation(b[1]) && IsContinuation(b[2]) then
        var n := (b0 - 0xE0) * 0x1000 + (b[1] as int - 0x80) * 0x40 + (b[2] as int - 0x80);
        if n < 0x800 || (0xD800 <= n < 0xE000) then None
        else Some((n as char, b[3..]))
      else if 0xF0 <= b0 < 0xF5 && |b| >= 4 && IsContinuation(b[1]) && IsContinuation(b[2]) && IsContinuation(b[3]) then
        var n := (b0 - 0xF0) * 0x40000 + (b[1] as int - 0x80) * 0x1000
                 + (b[2] as int - 0x80) * 0x40 + (b[3] as int - 0x80);
        if n < 0x10000 || n > 0x10FFFF then None
        else Some((n as char, b[4..]))
      else None
  }

  /** `bytes.decode("utf-8")`: None when the bytes are not UTF-8. */
  function Decode(b: Bytes): Option<string>
    decreases |b|
  {
    if |b| == 0 then Some("")
    else match DecodeChar(b)
      case None => None
      case Some((c, rest)) =>
        if |rest| < |b| then
          match Decode(rest)
          case None => None
          case Some(s) => Some([c] + s)
        else None
  }

  lemma DecodeTwo(n: int, rest: Bytes)
    requires 0x80 <= n < 0x800
    ensures var b := [(0xC0 + n / 0x40) as byte, (0x80 + n % 0x40) as byte] + rest;
      DecodeChar(b) == Some((n as char, rest))
  {
    var b := [(0xC0 + n / 0x40) as byte, (0x80 + n % 0x40) as byte] + rest;
    var hi, lo := n / 0x40, n % 0x40;
    assert n == hi * 0x40 + lo;
    assert 2 <= hi < 0x20;
    assert b[0] as int - 0xC0 == hi && b[1] as int - 0x80 == lo;
    assert b[2..] == rest;
  }

  lemma DecodeThree(n: int, rest: Bytes)
    requires 0x800 <= n < 0x10000 && !(0xD800 <= n < 0xE000)
    ensures var b := [(0xE0 + n / 0x1000) as byte, (0x80 + n / 0x40 % 0x40) as byte, (0x80 + n % 0x40) as byte] + rest;
      DecodeChar(b) == Some((n as char, rest))
  {
    var b := [(0xE0 + n / 0x1000) as byte, (0x80 + n / 0x40 % 0x40) as byte, (0x80 + n % 0x40) as byte] + rest;
    var q, lo := n / 0x40, n % 0x40;
    var hi, mid := q / 0x40, q % 0x40;
    assert n == q * 0x40 + lo;
    assert q == hi * 0x40 + mid;
    assert hi == n / 0x1000;
    assert b[0] as int - 0xE0 == hi && b[1] as int - 0x80 == mid && b[2] as int - 0x80 == lo;
    assert hi * 0x1000 + mid * 0x40 + lo == n;
    assert b[3..] == rest;
  }

  lemma DecodeFour(n: int, rest: Bytes)
    requires 0x10000 <= n <= 0x10FFFF
    ensures var b := [(0xF0 + n / 0x40000) as byte, (0x80 + n / 0x1000 % 0x40) as byte,
                      (0x80 + n / 0x40 % 0x40) as byte, (0x80 + n % 0x40) as byte] + rest;
      DecodeChar(b) == Some((n as char, rest))
  {
    var b := [(0xF0 + n / 0x40000) as byte, (0x80 + n / 0x1000 % 0x40) as byte,
              (0x80 + n / 0x40 % 0x40) as byte, (0x80 + n % 0x40) as byte] + rest;
    var q1, d0 := n / 0x40, n % 0x40;
    var q2, d1 := q1 / 0x40, q1 % 0x40;
    var d3, d2 := q2 / 0x40, q2 % 0x40;
    assert n == q1 * 0x40 + d0;
    assert q1 == q2 * 0x40 + d1;
    assert q2 == d3 * 0x40 + d2;
    assert q2 == n / 0x1000 && d3 == n / 0x40000;
    assert b[0] as int - 0xF0 == d3 && b[1] as int - 0x80 == d2;
    assert b[2] as int - 0x80 == d1 && b[3] as int - 0x80 == d0;
    assert d3 * 0x40000 + d2 * 0x1000 + d1 * 0x40 + d0 == n;
    assert b[4..] == rest;
  }

  lemma DecodeEncodeChar(c: char, rest: Bytes)
    ensures DecodeChar(EncodeChar(c) + rest) == Some((c, rest))
  {
    var n := c as int;
    if n < 0x80 {
      assert (EncodeChar(c) + rest)[1..] == rest;
    } else if n < 0x800 {
      DecodeTwo(n, rest);
    } else if n < 0x10000 {
      DecodeThree(n, rest);
    } else {
      DecodeFour(n, rest);
    }
  }

  /** Decoding undoes encoding. */
  lemma {:induction false} DecodeEncode(s: string)
    ensures Decode(Encode(s)) == Some(s)
    decreases |s|
  {
    if |s| > 0 {
      DecodeEncodeChar(s[0], Encode(s[1..]));
      DecodeEncode(s[1..]);
      assert [s[0]] + s[1..] == s;
    }
  }

  /** Different texts have different encodings. */
  lemma EncodeInjective(a: string, b: string)
    requires Encode(a) == Encode(b)
    ensures a == b
  {
    DecodeEncode(a);
    DecodeEncode(b);
  }

  /** ASCII text encodes to one byte per character, equal to its code. */
  lemma {:induction false} EncodeAscii(s: string)
    requires IsAscii(s)
    ensures |Encode(s)| == |s|
    ensures forall i :: 0 <= i < |s| ==> Encode(s)[i] as int == s[i] as int
    decreases |s|
  {
    if |s| > 0 {
      assert IsAscii(s[1..]) by {
        assert forall i :: 0 <= i < |s| - 1 ==> s[1..][i] == s[i + 1];
      }
      EncodeAscii(s[1..]);
    }
  }
}
