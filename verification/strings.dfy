/** The string primitives the Python and Go sources lean on: whitespace
    classes, strip, split/join, word splitting and literal replacement. */
module Strings {

  /** Python's `str.isspace()`; also the class `\s` matches in a `str`
      regular expression and the set `str.strip()` / `str.split()` use. */
  predicate IsPySpace(c: char) {
    var n := c as int;
    || n == 0x20 || 0x09 <= n <= 0x0D || 0x1C <= n <= 0x1F
    || n == 0x85 || n == 0xA0 || n == 0x1680 || 0x2000 <= n <= 0x200A
    || n == 0x2028 || n == 0x2029 || n == 0x202F || n == 0x205F || n == 0x3000
  }

  /** Go's `unicode.IsSpace`, used by `strings.TrimSpace`: Python's set
      without the four information separators 0x1C..0x1F. */
  predicate IsGoSpace(c: char) {
    IsPySpace(c) && !(0x1C <= c as int <= 0x1F)
  }

  predicate IsAsciiUpper(c: char) { 'A' <= c <= 'Z' }
  predicate IsAsciiDigit(c: char) { '0' <= c <= '9' }

  /** Every character is in the 7-bit ASCII range. */
  predicate IsAscii(s: string) {
    forall i :: 0 <= i < |s| ==> s[i] as int < 0x80
  }

  /** Neither end of `s` satisfies `p`. */
  ghost predicate Trimmed(s: string, p: char -> bool) {
    |s| == 0 || (!p(s[0]) && !p(s[|s| - 1]))
  }

  /** Drops the longest prefix whose characters all satisfy `p`. */
  function TrimLeft(s: string, p: char -> bool): (r: string)
    ensures |r| <= |s| && r == s[|s| - |r|..]
    ensures |r| > 0 ==> !p(r[0])
    ensures forall i :: 0 <= i < |s| - |r| ==> p(s[i])
    decreases |s|
  {
    if |s| > 0 && p(s[0]) then TrimLeft(s[1..], p) else s
  }

  /** Drops the longest suffix whose characters all satisfy `p`. */
  function TrimRight(s: string, p: char -> bool): (r: string)
    ensures |r| <= |s| && r == s[..|r|]
    ensures |r| > 0 ==> !p(r[|r| - 1])
    ensures forall i :: |r| <= i < |s| ==> p(s[i])
    decreases |s|
  {
    if |s| > 0 && p(s[|s| - 1]) then TrimRight(s[..|s| - 1], p) else s
  }

  /** Python `str.strip()`. */
  function Strip(s: string): (r: string)
    ensures Trimmed(r, IsPySpace)
    ensures |r| <= |s|
  {
    TrimRight(TrimLeft(s, IsPySpace), IsPySpace)
  }

  lemma SliceAbsent(s: string, i: nat, j: nat, x: char)
    requires i <= j <= |s| && x !in s
    ensures x !in s[i..j]
  {
    assert forall k :: 0 <= k < j - i ==> s[i..j][k] == s[i + k];
  }

  /** Stripping introduces no character. */
  lemma StripAbsent(s: string, x: char)
    requires x !in s
    ensures x !in Strip(s)
  {
    var l := TrimLeft(s, IsPySpace);
    SliceAbsent(s, |s| - |l|, |s|, x);
    SliceAbsent(l, 0, |Strip(s)|, x);
  }

  /** Stripping a text whose ends are not whitespace changes nothing. */
  lemma StripTrimmed(s: string)
    requires Trimmed(s, IsPySpace)
    ensures Strip(s) == s
  {
  }

  /** Go `strings.TrimSpace`. */
  function TrimSpace(s: string): (r: string)
    ensures Trimmed(r, IsGoSpace)
  {
    TrimRight(TrimLeft(s, IsGoSpace), IsGoSpace)
  }

  predicate StartsWith(s: string, prefix: string) {
    |prefix| <= |s| && s[..|prefix|] == prefix
  }

  /** `sub` occurs in `s` starting at index `i`. */
  predicate OccursAt(s: string, sub: string, i: int) {
    0 <= i <= |s| - |sub| && s[i..i + |sub|] == sub
  }

  /** `sub` occurs in `s` (Python `sub in s`). */
  predicate Contains(s: string, sub: string) {
    exists i :: 0 <= i <= |s| - |sub| && OccursAt(s, sub, i)
  }

  /** Python `str.split(sep)` for a one-character separator. */
  function Split(s: string, d: char): (parts: seq<string>)
    ensures |parts| >= 1
    ensures forall i :: 0 <= i < |parts| ==> d !in parts[i]
    decreases |s|
  {
    if |s| == 0 then [""]
    else
      var rest := Split(s[1..], d);
      if s[0] == d then [""] + rest
      else [[s[0]] + rest[0]] + rest[1..]
  }

  /** Python `sep.join(parts)`. */
  function Join(parts: seq<string>, sep: string): string
    decreases |parts|
  {
    if |parts| == 0 then ""
    else if |parts| == 1 then parts[0]
    else parts[0] + sep + Join(parts[1..], sep)
  }

  /** Joining the pieces of a split restores the original text. */
  lemma {:induction false} JoinSplit(s: string, d: char)
    ensures Join(Split(s, d), [d]) == s
    decreases |s|
  {
    if |s| > 0 {
      var rest := Split(s[1..], d);
      JoinSplit(s[1..], d);
      if s[0] == d {
        assert s == [d] + s[1..];
      } else {
        assert s == [s[0]] + s[1..];
        if |rest| == 1 {
        } else {
          assert ([[s[0]] + rest[0]] + rest[1..])[1..] == rest[1..];
        }
      }
    }
  }

  /** A text without the separator splits to itself alone. */
  lemma {:induction false} SplitNoSeparator(a: string, d: char)
    requires d !in a
    ensures Split(a, d) == [a]
    decreases |a|
  {
    if |a| > 0 {
      SplitNoSeparator(a[1..], d);
      assert a == [a[0]] + a[1..];
    }
  }

  /** Splitting `a + d + b` cuts exactly at that first separator. */
  lemma {:induction false} SplitAtFirst(a: string, d: char, b: string)
    requires d !in a
    ensures Split(a + [d] + b, d) == [a] + Split(b, d)
    decreases |a|
  {
    if |a| == 0 {
      assert a + [d] + b == [d] + b;
      assert ([d] + b)[1..] == b;
    } else {
      SplitAtFirst(a[1..], d, b);
      assert (a + [d] + b)[1..] == a[1..] + [d] + b;
      assert (a + [d] + b)[0] == a[0];
      assert a == [a[0]] + a[1..];
    }
  }

  /** Python's `(a + d + b).split(d) == a.split(d) + b.split(d)`. */
  lemma {:induction false} SplitConcat(a: string, d: char, b: string)
    ensures Split(a + [d] + b, d) == Split(a, d) + Split(b, d)
    decreases |a|
  {
    if |a| == 0 {
      var s := a + [d] + b;
      assert s == [d] + b;
      assert s[1..] == b;
    } else {
      SplitConcat(a[1..], d, b);
      SplitConcatStep(a, d, b);
    }
  }

  lemma SplitConcatStep(a: string, d: char, b: string)
    requires |a| > 0
    requires Split(a[1..] + [d] + b, d) == Split(a[1..], d) + Split(b, d)
    ensures Split(a + [d] + b, d) == Split(a, d) + Split(b, d)
  {
    var s := a + [d] + b;
    assert s[0] == a[0] && s[1..] == a[1..] + [d] + b;
    var rest, tb := Split(a[1..], d), Split(b, d);
    SplitHead(s, d, rest + tb);
    SplitHead(a, d, rest);
    PushAppend(a[0], d, rest, tb);
  }

  /** The step `Split` takes for one leading character `c` in front of the
      pieces `tail` of the rest. */
  function Push(c: char, d: char, tail: seq<string>): seq<string>
    requires |tail| > 0
  {
    if c == d then [""] + tail else [[c] + tail[0]] + tail[1..]
  }

  /** The step commutes with appending more pieces. */
  lemma PushAppend(c: char, d: char, rest: seq<string>, tb: seq<string>)
    requires |rest| > 0
    ensures Push(c, d, rest + tb) == Push(c, d, rest) + tb
  {
    assert (rest + tb)[1..] == rest[1..] + tb;
  }

  /** One step of `Split`, named. */
  lemma SplitHead(s: string, d: char, tail: seq<string>)
    requires |s| > 0 && tail == Split(s[1..], d)
    ensures Split(s, d) == Push(s[0], d, tail)
  {
  }

  /** A non-empty text whose last piece is empty ends with the separator. */
  lemma {:induction false} LastPieceEmpty(text: string, d: char)
    requires |text| > 0
    requires Split(text, d)[|Split(text, d)| - 1] == ""
    ensures text[|text| - 1] == d
    decreases |text|
  {
    var rest := Split(text[1..], d);
    if |text| > 1 && (text[0] == d || |rest| > 1) {
      LastPieceEmpty(text[1..], d);
      assert text[1..][|text| - 2] == text[|text| - 1];
    }
  }

  /** Splitting a join of separator-free parts recovers the parts. */
  lemma {:induction false} SplitJoin(parts: seq<string>, d: char)
    requires |parts| >= 1
    requires forall i :: 0 <= i < |parts| ==> d !in parts[i]
    ensures Split(Join(parts, [d]), d) == parts
    decreases |parts|
  {
    if |parts| == 1 {
      SplitNoSeparator(parts[0], d);
    } else {
      SplitJoin(parts[1..], d);
      SplitAtFirst(parts[0], d, Join(parts[1..], [d]));
      assert parts == [parts[0]] + parts[1..];
    }
  }

  /** The maximal prefix of `s` whose characters all fail `p`. */
  function TakeUntil(s: string, p: char -> bool): (r: string)
    ensures |r| <= |s| && r == s[..|r|]
    ensures forall i :: 0 <= i < |r| ==> !p(r[i])
    ensures |r| < |s| ==> p(s[|r|])
    decreases |s|
  {
    if |s| == 0 || p(s[0]) then "" else [s[0]] + TakeUntil(s[1..], p)
  }

  /** Python `str.split()` with no argument: runs of whitespace separate
      words and no word is empty. */
  function Words(s: string): (ws: seq<string>)
    ensures forall i :: 0 <= i < |ws| ==> IsWord(ws[i])
    decreases |s|
  {
    var t := TrimLeft(s, IsPySpace);
    if |t| == 0 then []
    else
      var w := TakeUntil(t, IsPySpace);
      FirstWord(s, t, w);
      var rest := Words(t[|w|..]);
      ConsWords(w, rest);
      [w] + rest
  }

  /** The first word of a text with a non-space character is a word, and
      the text after it is shorter. */
  lemma FirstWord(s: string, t: string, w: string)
    requires t == TrimLeft(s, IsPySpace) && |t| > 0 && w == TakeUntil(t, IsPySpace)
    ensures IsWord(w) && |t| - |w| < |s|
  {
    assert w[0] == t[0];
  }

  lemma ConsWords(w: string, rest: seq<string>)
    requires IsWord(w) && forall i :: 0 <= i < |rest| ==> IsWord(rest[i])
    ensures forall i :: 0 <= i < |[w] + rest| ==> IsWord(([w] + rest)[i])
  {
    forall i | 0 <= i < |[w] + rest|
      ensures IsWord(([w] + rest)[i])
    {
      if i > 0 {
        assert ([w] + rest)[i] == rest[i - 1];
      }
    }
  }

  /** A non-empty run of non-whitespace characters. */
  predicate IsWord(w: string) {
    |w| > 0 && forall j :: 0 <= j < |w| ==> !IsPySpace(w[j])
  }

  /** Python `s.replace(pat, rep)`: every non-overlapping occurrence of
      `pat`, scanning from the left, is replaced. */
  function Replace(s: string, pat: string, rep: string): string
    requires |pat| > 0
    decreases |s|
  {
    if |s| < |pat| then s
    else if s[..|pat|] == pat then rep + Replace(s[|pat|..], pat, rep)
    else [s[0]] + Replace(s[1..], pat, rep)
  }

  /** `s` with every occurrence of `c` deleted. */
  function RemoveChar(s: string, c: char): (r: string)
    ensures c !in r
    ensures |r| <= |s|
    decreases |s|
  {
    if |s| == 0 then "" else (if s[0] == c then "" else [s[0]]) + RemoveChar(s[1..], c)
  }

  /** The characters of `s` that are not whitespace, in order. */
  function Visible(s: string): (r: string)
    ensures forall i :: 0 <= i < |r| ==> !IsPySpace(r[i])
    decreases |s|
  {
    if |s| == 0 then "" else (if IsPySpace(s[0]) then "" else [s[0]]) + Visible(s[1..])
  }

  lemma {:induction false} VisibleAppend(a: string, b: string)
    ensures Visible(a + b) == Visible(a) + Visible(b)
    decreases |a|
  {
    if |a| > 0 {
      VisibleAppend(a[1..], b);
      assert (a + b)[1..] == a[1..] + b;
    } else {
      assert a + b == b;
    }
  }

  /** Deleting a whitespace character leaves the visible text alone. */
  lemma {:induction false} VisibleRemoveSpace(s: string, c: char)
    requires IsPySpace(c)
    ensures Visible(RemoveChar(s, c)) == Visible(s)
    decreases |s|
  {
    if |s| > 0 {
      VisibleRemoveSpace(s[1..], c);
      VisibleAppend(if s[0] == c then "" else [s[0]], RemoveChar(s[1..], c));
    }
  }

  /** A text of whitespace only has nothing visible. */
  lemma {:induction false} VisibleBlank(s: string)
    requires forall i :: 0 <= i < |s| ==> IsPySpace(s[i])
    ensures Visible(s) == ""
    decreases |s|
  {
    if |s| > 0 {
      VisibleBlank(s[1..]);
    }
  }

  /** `strip()` removes whitespace only. */
  lemma VisibleStrip(s: string)
    ensures Visible(Strip(s)) == Visible(s)
  {
    VisibleTrimLeft(s);
    VisibleTrimRight(TrimLeft(s, IsPySpace));
  }

  lemma VisibleTrimLeft(s: string)
    ensures Visible(TrimLeft(s, IsPySpace)) == Visible(s)
  {
    var l := TrimLeft(s, IsPySpace);
    var a := |s| - |l|;
    var front := s[..a];
    assert s == front + l;
    forall i | 0 <= i < |front|
      ensures IsPySpace(front[i])
    {
      assert front[i] == s[i];
    }
    VisibleAppend(front, l);
    VisibleBlank(front);
  }

  lemma VisibleTrimRight(s: string)
    ensures Visible(TrimRight(s, IsPySpace)) == Visible(s)
  {
    var r := TrimRight(s, IsPySpace);
    var back := s[|r|..];
    assert s == r + back;
    forall i | 0 <= i < |back|
      ensures IsPySpace(back[i])
    {
      assert back[i] == s[|r| + i];
    }
    VisibleAppend(r, back);
    VisibleBlank(back);
  }

  /** Deleting characters introduces none. */
  lemma {:induction false} RemoveCharAbsent(s: string, c: char, x: char)
    requires x !in s
    ensures x !in RemoveChar(s, c)
    decreases |s|
  {
    if |s| > 0 {
      RemoveCharAbsent(s[1..], c, x);
    }
  }

  lemma {:induction false} RemoveCharAppend(a: string, b: string, c: char)
    ensures RemoveChar(a + b, c) == RemoveChar(a, c) + RemoveChar(b, c)
    decreases |a|
  {
    if |a| > 0 {
      RemoveCharAppend(a[1..], b, c);
      assert (a + b)[1..] == a[1..] + b;
    } else {
      assert a + b == b;
    }
  }

  /** Replacing a one-character pattern by nothing deletes that character. */
  lemma {:induction false} ReplaceCharIsRemove(s: string, c: char)
    ensures Replace(s, [c], "") == RemoveChar(s, c)
    decreases |s|
  {
    if |s| > 0 {
      ReplaceCharIsRemove(s[1..], c);
    }
  }

  /** Deleting pairs of `c` first changes nothing once every `c` goes. */
  lemma {:induction false} RemovePairsThenChar(s: string, c: char)
    ensures RemoveChar(Replace(s, [c, c], ""), c) == RemoveChar(s, c)
    decreases |s|
  {
    if |s| < 2 {
    } else if s[..2] == [c, c] {
      RemovePairsThenChar(s[2..], c);
      assert s[0] == c && s[1] == c;
      assert s[1..][1..] == s[2..];
      assert Replace(s, [c, c], "") == "" + Replace(s[2..], [c, c], "");
      assert "" + Replace(s[2..], [c, c], "") == Replace(s[2..], [c, c], "");
      assert RemoveChar(s[1..], c) == "" + RemoveChar(s[2..], c);
      assert RemoveChar(s, c) == "" + RemoveChar(s[1..], c);
    } else {
      RemovePairsThenChar(s[1..], c);
      RemoveCharAppend([s[0]], Replace(s[1..], [c, c], ""), c);
      assert s == [s[0]] + s[1..];
      RemoveCharAppend([s[0]], s[1..], c);
    }
  }

  /** `.replace('**', '').replace('*', '')` deletes every asterisk and
      nothing else. */
  lemma StarRemoval(s: string)
    ensures Replace(Replace(s, "**", ""), "*", "") == RemoveChar(s, '*')
  {
    ReplaceCharIsRemove(Replace(s, "**", ""), '*');
    RemovePairsThenChar(s, '*');
  }

  function LowerAsciiChar(c: char): char {
    if 'A' <= c <= 'Z' then (c as int + 32) as char else c
  }

  /** `s.lower()` restricted to ASCII letters. */
  function LowerAscii(s: string): (r: string)
    ensures |r| == |s|
    ensures forall i :: 0 <= i < |s| ==> r[i] == LowerAsciiChar(s[i])
  {
    seq(|s|, i requires 0 <= i < |s| => LowerAsciiChar(s[i]))
  }

  /** `c * n` in Python: `n` copies of `c`. */
  function Repeat(c: char, n: nat): (r: string)
    ensures |r| == n
    ensures forall i :: 0 <= i < n ==> r[i] == c
  {
    seq(n, i => c)
  }

  /** A pattern absent from a text is absent from every slice of it. */
  lemma AbsentFromSlice(s: string, sub: string, a: nat, b: nat)
    requires a <= b <= |s| && !Contains(s, sub)
    ensures !Contains(s[a..b], sub)
  {
    forall i | OccursAt(s[a..b], sub, i)
      ensures OccursAt(s, sub, a + i)
    {
      var w := s[a + i..a + i + |sub|];
      forall j | 0 <= j < |sub|
        ensures w[j] == sub[j]
      {
        assert sub[j] == s[a..b][i..i + |sub|][j];
      }
      assert w == sub;
    }
  }

  /** The middle piece of a concatenation occurs right after the first. */
  lemma OccursBetween(a: string, b: string, c: string)
    ensures OccursAt(a + b + c, b, |a|) && Contains(a + b + c, b)
  {
    var s := a + b + c;
    assert s[|a|..|a| + |b|] == b;
    assert 0 <= |a| <= |s| - |b| && OccursAt(s, b, |a|);
  }

  /** Deleting two characters gives the same text in either order. */
  lemma {:induction false} RemoveCharCommutes(s: string, c: char, d: char)
    ensures RemoveChar(RemoveChar(s, c), d) == RemoveChar(RemoveChar(s, d), c)
    decreases |s|
  {
    if |s| > 0 {
      RemoveCharCommutes(s[1..], c, d);
      var head := if s[0] == c then "" else [s[0]];
      RemoveCharAppend(head, RemoveChar(s[1..], c), d);
      var head' := if s[0] == d then "" else [s[0]];
      RemoveCharAppend(head', RemoveChar(s[1..], d), c);
    }
  }
}
