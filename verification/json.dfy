/** Python's `json.dumps(obj, sort_keys=True)` for the flat objects the
    cache keys are built from: members sorted by key in code-point order,
    `", "` between members, `": "` after each key, and strings escaped to
    pure ASCII (`ensure_ascii=True`, the default). A decoder for the string
    syntax is included so that the escaping can be shown to lose nothing. */
module Json {
  import opened Outcomes
  import opened Decimal

  /** The values the records hold. `Num` carries Python's `repr` of a float
      literal (`0.5`, `0.75`, `0.0`). */
  datatype Value = Str(s: string) | Num(repr: string) | Int(i: int) | Bool(b: bool)

  type Member = (string, Value)

  // ---------- Key order ----------

  /** Python's `<` on `str`: lexicographic by code point, a proper prefix
      first. */
  predicate Less(a: string, b: string)
    decreases |a|
  {
    if |a| == 0 then |b| > 0
    else if |b| == 0 then false
    else if a[0] != b[0] then a[0] < b[0]
    else Less(a[1..], b[1..])
  }

  lemma {:induction false} LessIrreflexive(a: string)
    ensures !Less(a, a)
    decreases |a|
  {
    if |a| > 0 {
      LessIrreflexive(a[1..]);
    }
  }

  lemma {:induction false} LessTransitive(a: string, b: string, c: string)
    requires Less(a, b) && Less(b, c)
    ensures Less(a, c)
    decreases |a|
  {
    if |a| > 0 && a[0] == b[0] && b[0] == c[0] {
      LessTransitive(a[1..], b[1..], c[1..]);
    }
  }

  lemma {:induction false} LessAsymmetric(a: string, b: string)
    requires Less(a, b)
    ensures !Less(b, a)
    decreases |a|
  {
    if |a| > 0 && a[0] == b[0] {
      LessAsymmetric(a[1..], b[1..]);
    }
  }

  /** Distinct strings are always ordered one way or the other. */
  lemma {:induction false} LessTotal(a: string, b: string)
    requires a != b
    ensures Less(a, b) || Less(b, a)
    decreases |a|
  {
    if |a| > 0 && |b| > 0 && a[0] == b[0] {
      assert a == [a[0]] + a[1..] && b == [b[0]] + b[1..];
      LessTotal(a[1..], b[1..]);
    }
  }

  // ---------- Sorting members by key ----------

  /** No two members share a key, as in any Python `dict`. */
  predicate DistinctKeys(ms: seq<Member>) {
    forall i, j :: 0 <= i < j < |ms| ==> ms[i].0 != ms[j].0
  }

  /** Keys strictly ascend from each member to the next. */
  predicate Sorted(ms: seq<Member>) {
    forall i :: 0 < i < |ms| ==> Less(ms[i - 1].0, ms[i].0)
  }

  /** In a sorted list the first key is below every other member's key. */
  lemma {:induction false} SortedHeadIsLeast(ms: seq<Member>, x: Member)
    requires Sorted(ms) && x in ms && x != ms[0]
    ensures Less(ms[0].0, x.0)
    decreases |ms|
  {
    var tail := ms[1..];
    assert x in tail;
    if x != tail[0] {
      SortedHeadIsLeast(tail, x);
      LessTransitive(ms[0].0, tail[0].0, x.0);
    }
  }

  /** Inserts `m` at its place in a sorted list. */
  function Insert(m: Member, ms: seq<Member>): (r: seq<Member>)
    requires Sorted(ms)
    requires forall x :: x in ms ==> x.0 != m.0
    ensures Sorted(r)
    ensures multiset(r) == multiset(ms) + multiset{m}
    ensures r[0] == m || (|ms| > 0 && r[0] == ms[0])
    decreases |ms|
  {
    if |ms| == 0 then [m]
    else if Less(m.0, ms[0].0) then [m] + ms
    else
      assert ms[0] in ms;
      LessTotal(m.0, ms[0].0);
      var rest := Insert(m, ms[1..]);
      assert ms == [ms[0]] + ms[1..];
      [ms[0]] + rest
  }

  /** The member order `sort_keys=True` writes: the same members, keys
      strictly ascending. */
  function SortByKey(ms: seq<Member>): (r: seq<Member>)
    requires DistinctKeys(ms)
    ensures Sorted(r)
    ensures multiset(r) == multiset(ms)
    decreases |ms|
  {
    if |ms| == 0 then []
    else
      var rest := SortByKey(ms[1..]);
      assert ms == [ms[0]] + ms[1..];
      forall x | x in rest
        ensures x.0 != ms[0].0
      {
        assert x in multiset(ms[1..]);
      }
      Insert(ms[0], rest)
  }

  /** Only one arrangement of a set of members is sorted. */
  lemma {:induction false} SortedUnique(a: seq<Member>, b: seq<Member>)
    requires Sorted(a) && Sorted(b)
    requires multiset(a) == multiset(b)
    ensures a == b
    decreases |a|
  {
    if |a| == 0 {
      assert |multiset(b)| == 0;
    } else {
      SortedSameHead(a, b);
      TailMultiset(a, b);
      SortedUnique(a[1..], b[1..]);
      assert a == [a[0]] + a[1..] && b == [b[0]] + b[1..];
    }
  }

  /** Two sorted arrangements of the same members start alike. */
  lemma SortedSameHead(a: seq<Member>, b: seq<Member>)
    requires Sorted(a) && Sorted(b) && |a| > 0
    requires multiset(a) == multiset(b)
    ensures |b| > 0 && a[0] == b[0]
  {
    assert |b| > 0 by { assert |multiset(b)| == |multiset(a)| > 0; }
    assert a[0] in multiset(b) && b[0] in multiset(a);
    if a[0] != b[0] {
      SortedHeadIsLeast(a, b[0]);
      SortedHeadIsLeast(b, a[0]);
      LessAsymmetric(a[0].0, b[0].0);
      assert false;
    }
  }

  /** Equal heads leave equal multisets behind. */
  lemma TailMultiset(a: seq<Member>, b: seq<Member>)
    requires |a| > 0 && |b| > 0 && a[0] == b[0]
    requires multiset(a) == multiset(b)
    ensures multiset(a[1..]) == multiset(b[1..])
  {
    assert a == [a[0]] + a[1..] && b == [b[0]] + b[1..];
    assert multiset(a[1..]) == multiset(a) - multiset{a[0]};
    assert multiset(b[1..]) == multiset(b) - multiset{b[0]};
  }

  /** A sorted list is its own sort. */
  lemma SortBySorted(ms: seq<Member>, sorted: seq<Member>)
    requires DistinctKeys(ms) && Sorted(sorted)
    requires multiset(ms) == multiset(sorted)
    ensures SortByKey(ms) == sorted
  {
    SortedUnique(SortByKey(ms), sorted);
  }

  // ---------- Hexadecimal ----------

  function HexDigit(d: nat): (c: char)
    requires d < 16
    ensures IsHexChar(c)
  {
    if d < 10 then ('0' as int + d) as char else ('a' as int + d - 10) as char
  }

  predicate IsHexChar(c: char) {
    '0' <= c <= '9' || 'a' <= c <= 'f' || 'A' <= c <= 'F'
  }

  function HexValue(c: char): (d: nat)
    requires IsHexChar(c)
    ensures d < 16
  {
    if '0' <= c <= '9' then c as int - '0' as int
    else if 'a' <= c <= 'f' then c as int - 'a' as int + 10
    else c as int - 'A' as int + 10
  }

  lemma HexDigitValue(d: nat)
    requires d < 16
    ensures HexValue(HexDigit(d)) == d
  {
  }

  /** `'{0:04x}'.format(n)`: four lower-case hex digits. */
  function Hex4(n: nat): (s: string)
    requires n < 0x10000
    ensures |s| == 4
  {
    [HexDigit(n / 0x1000), HexDigit(n / 0x100 % 0x10), HexDigit(n / 0x10 % 0x10), HexDigit(n % 0x10)]
  }

  predicate AllHex(s: string) {
    forall i :: 0 <= i < |s| ==> IsHexChar(s[i])
  }

  function ParseHex4(s: string): (n: nat)
    requires |s| == 4 && AllHex(s)
    ensures n < 0x10000
  {
    HexValue(s[0]) * 0x1000 + HexValue(s[1]) * 0x100 + HexValue(s[2]) * 0x10 + HexValue(s[3])
  }

  /** Four hex digits weighted by place add back up to the number. */
  lemma HexPlaces(n: nat)
    requires n < 0x10000
    ensures n == n / 0x1000 * 0x1000 + n / 0x100 % 0x10 * 0x100 + n / 0x10 % 0x10 * 0x10 + n % 0x10
  {
    var q1, d0 := n / 0x10, n % 0x10;
    var q2, d1 := q1 / 0x10, q1 % 0x10;
    var q3, d2 := q2 / 0x10, q2 % 0x10;
    assert n == q2 * 0x100 + (d1 * 0x10 + d0);
    assert n / 0x100 == q2;
    assert n == q3 * 0x1000 + (d2 * 0x100 + d1 * 0x10 + d0);
    assert n / 0x1000 == q3;
  }

  lemma Hex4RoundTrip(n: nat)
    requires n < 0x10000
    ensures AllHex(Hex4(n)) && ParseHex4(Hex4(n)) == n
  {
    var a, b, c, d := n / 0x1000, n / 0x100 % 0x10, n / 0x10 % 0x10, n % 0x10;
    HexDigitValue(a);
    HexDigitValue(b);
    HexDigitValue(c);
    HexDigitValue(d);
    HexPlaces(n);
    var s := Hex4(n);
    assert s == [HexDigit(a), HexDigit(b), HexDigit(c), HexDigit(d)];
    assert ParseHex4(s) == a * 0x1000 + b * 0x100 + c * 0x10 + d;
  }

  // ---------- String escaping ----------

  /** A character Python writes unescaped with `ensure_ascii`: printable
      ASCII other than the quote and the backslash. */
  predicate IsPlain(c: char) {
    0x20 <= c as int <= 0x7E && c != '"' && c != '\\'
  }

  /** How `ensure_ascii` writes one character: the short escapes, `\uXXXX`
      for other control and non-ASCII characters of the Basic Multilingual
      Plane, and a UTF-16 surrogate pair beyond it. */
  function EscapeChar(c: char): (e: string)
    ensures |e| > 0 && e[0] != '"'
  {
    var n := c as int;
    if c == '"' then "\\\""
    else if c == '\\' then "\\\\"
    else if c == '\n' then "\\n"
    else if c == '\r' then "\\r"
    else if c == '\t' then "\\t"
    else if n == 0x08 then "\\b"
    else if n == 0x0C then "\\f"
    else if IsPlain(c) then [c]
    else if n < 0x10000 then "\\u" + Hex4(n)
    else
      var v := n - 0x10000;
      "\\u" + Hex4(0xD800 + v / 0x400) + "\\u" + Hex4(0xDC00 + v % 0x400)
  }

  function Escape(s: string): string
    decreases |s|
  {
    if |s| == 0 then "" else EscapeChar(s[0]) + Escape(s[1..])
  }

  /** A JSON string literal as `json.dumps` writes it. */
  function Quote(s: string): (q: string)
    ensures |q| >= 2 && q[0] == '"'
  {
    "\"" + Escape(s) + "\""
  }

  // ---------- Reading a string back ----------

  /** Reads one character of a string literal body, escaped or plain. A
      quote ends the body and is not a character; a raw control character
      is rejected, as a strict decoder does. */
  function ReadChar(s: string): (r: Option<(char, string)>)
    ensures r.Some? ==> |r.value.1| < |s|
  {
    if |s| == 0 || s[0] == '"' || (s[0] as int) < 0x20 then None
    else if s[0] != '\\' then Some((s[0], s[1..]))
    else if |s| < 2 then None
    else if s[1] == '"' then Some(('"', s[2..]))
    else if s[1] == '\\' then Some(('\\', s[2..]))
    else if s[1] == '/' then Some(('/', s[2..]))
    else if s[1] == 'n' then Some(('\n', s[2..]))
    else if s[1] == 'r' then Some(('\r', s[2..]))
    else if s[1] == 't' then Some(('\t', s[2..]))
    else if s[1] == 'b' then Some((0x08 as char, s[2..]))
    else if s[1] == 'f' then Some((0x0C as char, s[2..]))
    else if s[1] != 'u' || |s| < 6 || !AllHex(s[2..6]) then None
    else ReadUnicode(ParseHex4(s[2..6]), s[6..])
  }

  /** Completes a `\uXXXX` escape whose code unit is `u`: a high surrogate
      must be followed by an escaped low surrogate, and a lone low
      surrogate is rejected. */
  function ReadUnicode(u: nat, rest: string): (r: Option<(char, string)>)
    requires u < 0x10000
    ensures r.Some? ==> |r.value.1| <= |rest|
  {
    if 0xD800 <= u < 0xDC00 then
      if |rest| < 6 || rest[..2] != "\\u" || !AllHex(rest[2..6]) then None
      else
        var lo := ParseHex4(rest[2..6]);
        if 0xDC00 <= lo < 0xE000 then
          Some(((0x10000 + (u - 0xD800) * 0x400 + (lo - 0xDC00)) as char, rest[6..]))
        else None
    else if 0xDC00 <= u < 0xE000 then None
    else Some((u as char, rest))
  }

  /** Reads a string literal body up to its closing quote, returning the
      decoded text and what follows the quote. */
  function ReadString(s: string): (r: Option<(string, string)>)
    decreases |s|
  {
    if |s| == 0 then None
    else if s[0] == '"' then Some(("", s[1..]))
    else
      match ReadChar(s)
      case None => None
      case Some((c, rest)) =>
        match ReadString(rest)
        case None => None
        case Some((t, after)) => Some(([c] + t, after))
  }

  lemma ReadEscapedShort(c: char, e: string, rest: string)
    requires c == '"' || c == '\\' || c == '\n' || c == '\r' || c == '\t' || c as int == 0x08 || c as int == 0x0C
    requires e == EscapeChar(c)
    ensures ReadChar(e + rest) == Some((c, rest))
  {
    assert |e| == 2 && e[0] == '\\';
    assert (e + rest)[2..] == rest;
  }

  lemma ReadEscapedBmp(c: char, rest: string)
    requires !IsPlain(c) && c != '"' && c != '\\' && c != '\n' && c != '\r' && c != '\t'
    requires c as int != 0x08 && c as int != 0x0C && c as int < 0x10000
    ensures ReadChar(EscapeChar(c) + rest) == Some((c, rest))
  {
    var n := c as int;
    var s := EscapeChar(c) + rest;
    Hex4RoundTrip(n);
    assert EscapeChar(c) == "\\u" + Hex4(n);
    assert s[2..6] == Hex4(n) && s[6..] == rest;
  }

  /** The surrogate pair of an astral character recombines to it. */
  lemma SurrogateArithmetic(n: int)
    requires 0x10000 <= n < 0x110000
    ensures var v := n - 0x10000;
      0xD800 <= 0xD800 + v / 0x400 < 0xDC00 && 0xDC00 <= 0xDC00 + v % 0x400 < 0xE000
      && 0x10000 + (v / 0x400) * 0x400 + v % 0x400 == n
  {
  }

  lemma ReadSurrogatePair(hi: nat, lo: nat, rest: string)
    requires 0xD800 <= hi < 0xDC00 && 0xDC00 <= lo < 0xE000
    requires 0x10000 + (hi - 0xD800) * 0x400 + (lo - 0xDC00) < 0x110000
    ensures ReadChar("\\u" + Hex4(hi) + "\\u" + Hex4(lo) + rest)
         == Some(((0x10000 + (hi - 0xD800) * 0x400 + (lo - 0xDC00)) as char, rest))
  {
    Hex4RoundTrip(hi);
    Hex4RoundTrip(lo);
    var tail := "\\u" + Hex4(lo) + rest;
    var s := "\\u" + Hex4(hi) + tail;
    assert "\\u" + Hex4(hi) + "\\u" + Hex4(lo) + rest == s;
    assert s[2..6] == Hex4(hi) && s[6..] == tail;
    assert tail[..2] == "\\u" && tail[2..6] == Hex4(lo) && tail[6..] == rest;
  }

  lemma ReadEscapedAstral(c: char, rest: string)
    requires c as int >= 0x10000
    ensures ReadChar(EscapeChar(c) + rest) == Some((c, rest))
  {
    var n := c as int;
    var v := n - 0x10000;
    var hi, lo := 0xD800 + v / 0x400, 0xDC00 + v % 0x400;
    SurrogateArithmetic(n);
    AstralEscapeForm(c);
    assert EscapeChar(c) + rest == "\\u" + Hex4(hi) + "\\u" + Hex4(lo) + rest;
    ReadSurrogatePair(hi, lo, rest);
  }

  lemma AstralEscapeForm(c: char)
    requires c as int >= 0x10000
    ensures var v := c as int - 0x10000;
      EscapeChar(c) == "\\u" + Hex4(0xD800 + v / 0x400) + "\\u" + Hex4(0xDC00 + v % 0x400)
  {
    assert !IsPlain(c);
  }

  /** Each escaped character reads back as itself. */
  lemma ReadEscapeChar(c: char, rest: string)
    ensures ReadChar(EscapeChar(c) + rest) == Some((c, rest))
  {
    var n := c as int;
    if c == '"' || c == '\\' || c == '\n' || c == '\r' || c == '\t' || n == 0x08 || n == 0x0C {
      ReadEscapedShort(c, EscapeChar(c), rest);
    } else if IsPlain(c) {
      assert (EscapeChar(c) + rest)[1..] == rest;
    } else if n < 0x10000 {
      ReadEscapedBmp(c, rest);
    } else {
      ReadEscapedAstral(c, rest);
    }
  }

  /** Decoding an escaped body followed by the closing quote returns the
      original text and exactly what follows. */
  lemma {:induction false} ReadEscape(s: string, rest: string)
    ensures ReadString(Escape(s) + "\"" + rest) == Some((s, rest))
    decreases |s|
  {
    if |s| == 0 {
      assert Escape(s) + "\"" + rest == "\"" + rest;
      assert ("\"" + rest)[1..] == rest;
    } else {
      var tail := Escape(s[1..]) + "\"" + rest;
      assert Escape(s) + "\"" + rest == EscapeChar(s[0]) + tail;
      ReadEscapeChar(s[0], tail);
      ReadEscape(s[1..], rest);
      assert s == [s[0]] + s[1..];
    }
  }

  /** Quoting is injective, and a quoted string is self-delimiting: what
      follows it can be recovered. */
  lemma QuoteCancel(a: string, ra: string, b: string, rb: string)
    requires Quote(a) + ra == Quote(b) + rb
    ensures a == b && ra == rb
  {
    ReadEscape(a, ra);
    ReadEscape(b, rb);
    QuoteTail(a, ra);
    QuoteTail(b, rb);
  }

  lemma QuoteTail(a: string, ra: string)
    ensures (Quote(a) + ra)[1..] == Escape(a) + "\"" + ra
  {
    assert Quote(a) + ra == "\"" + (Escape(a) + "\"" + ra);
  }

  // ---------- Serialisation ----------

  function Render(v: Value): string {
    match v
    case Str(s) => Quote(s)
    case Num(r) => r
    case Int(i) => if i < 0 then "-" + NatToString(-i) else NatToString(i)
    case Bool(b) => if b then "true" else "false"
  }

  function RenderMember(m: Member): string {
    Quote(m.0) + ": " + Render(m.1)
  }

  /** The members, in the order given, separated by `", "`. */
  function RenderMembers(ms: seq<Member>): string
    decreases |ms|
  {
    if |ms| == 0 then ""
    else if |ms| == 1 then RenderMember(ms[0])
    else RenderMember(ms[0]) + ", " + RenderMembers(ms[1..])
  }

  /** `json.dumps(dict(ms), sort_keys=True)`. */
  function Dumps(ms: seq<Member>): (r: string)
    requires DistinctKeys(ms)
    ensures |r| >= 2 && r[0] == '{' && r[|r| - 1] == '}'
  {
    "{" + RenderMembers(SortByKey(ms)) + "}"
  }

  /** The order in which a dictionary's members were written does not
      affect the serialisation. */
  lemma DumpsOrderIndependent(a: seq<Member>, b: seq<Member>)
    requires DistinctKeys(a) && DistinctKeys(b)
    requires multiset(a) == multiset(b)
    ensures Dumps(a) == Dumps(b)
  {
    SortedUnique(SortByKey(a), SortByKey(b));
  }
}
