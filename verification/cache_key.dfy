/** The segment cache keys: the SHA-256 hex digest of a canonical JSON
    record of everything that determines the synthesised audio. The local
    generator's record holds the text, the voice and the fixed model
    settings; the serverless generator's record adds the normalisation
    flag and the loudness target. SHA-256 itself is a parameter `sha`. */
module CacheKey {
  import opened Outcomes
  import opened Strings
  import opened Json
  import Config
  import Utf8
  import Seqs

  // ---------- The records ----------

  /** The dictionary `get_cache_key` serialises, in the order written. */
  function LocalMembers(text: string, voice: string): seq<Member> {
    [ ("text", Str(text)), ("voice_id", Str(voice)), ("model_id", Str(Config.ModelId)),
      ("stability", Num(Config.Stability)), ("similarity_boost", Num(Config.SimilarityBoost)),
      ("style", Num(Config.Style)) ]
  }

  /** The dictionary `compute_cache_key` serialises, in the order written. */
  function ServerlessMembers(text: string, voice: string): seq<Member> {
    LocalMembers(text, voice) + [("normalized", Bool(true)), ("lufs", Int(Config.TargetLufs))]
  }

  lemma LocalMembersDistinct(text: string, voice: string)
    ensures DistinctKeys(LocalMembers(text, voice))
  {
  }

  lemma ServerlessMembersDistinct(text: string, voice: string)
    ensures DistinctKeys(ServerlessMembers(text, voice))
  {
  }

  /** The members of the local record in the order `sort_keys` puts them. */
  function LocalSorted(text: string, voice: string): seq<Member> {
    LocalSettings + Inputs(text, voice)
  }

  /** The members of the serverless record in the order `sort_keys` puts them. */
  function ServerlessSorted(text: string, voice: string): seq<Member> {
    ServerlessSettings + Inputs(text, voice)
  }

  /** The fixed members of the local record, keys ascending. */
  const LocalSettings: seq<Member> :=
    [ ("model_id", Str(Config.ModelId)), ("similarity_boost", Num(Config.SimilarityBoost)),
      ("stability", Num(Config.Stability)), ("style", Num(Config.Style)) ]

  /** The fixed members of the serverless record, keys ascending. */
  const ServerlessSettings: seq<Member> :=
    [ ("lufs", Int(Config.TargetLufs)), ("model_id", Str(Config.ModelId)),
      ("normalized", Bool(true)), ("similarity_boost", Num(Config.SimilarityBoost)),
      ("stability", Num(Config.Stability)), ("style", Num(Config.Style)) ]

  /** The two members that vary, which sort after every setting. */
  function Inputs(text: string, voice: string): seq<Member> {
    [("text", Str(text)), ("voice_id", Str(voice))]
  }

  /** Records that differ only in their inputs have the same shape. */
  lemma InputsSameShape(fixed: seq<Member>, t1: string, v1: string, t2: string, v2: string)
    ensures SameShape(fixed + Inputs(t1, v1), fixed + Inputs(t2, v2))
  {
    var a := fixed + Inputs(t1, v1);
    var b := fixed + Inputs(t2, v2);
    forall i | 0 <= i < |a|
      ensures a[i].0 == b[i].0 && (a[i] == b[i] || (a[i].1.Str? && b[i].1.Str?))
    {
      if i < |fixed| {
        assert a[i] == fixed[i] == b[i];
      }
    }
  }

  lemma LocalSortedIsSorted(text: string, voice: string)
    ensures Sorted(LocalSorted(text, voice))
  {
    assert Less("model_id", "similarity_boost");
    assert Less("similarity_boost"[1..], "stability"[1..]);
    assert Less("stability"[2..], "style"[2..]);
    assert Less("style", "text");
    assert Less("text", "voice_id");
  }

  lemma ServerlessSortedIsSorted(text: string, voice: string)
    ensures Sorted(ServerlessSorted(text, voice))
  {
    assert Less("similarity_boost"[1..], "stability"[1..]);
    assert Less("stability"[2..], "style"[2..]);
    assert Less("style", "text");
    assert Less("text", "voice_id");
    assert Less("lufs", "model_id");
    assert Less("model_id", "normalized");
    assert Less("normalized", "similarity_boost");
  }

  /** `get_cache_key`'s record: exactly the six fields, keys ascending,
      with no normalisation field. */
  lemma LocalRecordShape(text: string, voice: string)
    ensures DistinctKeys(LocalMembers(text, voice))
    ensures Dumps(LocalMembers(text, voice)) == "{" + RenderMembers(LocalSorted(text, voice)) + "}"
  {
    LocalMembersDistinct(text, voice);
    LocalSortedIsSorted(text, voice);
    LocalSameMembers(text, voice);
    SortBySorted(LocalMembers(text, voice), LocalSorted(text, voice));
  }

  /** `compute_cache_key`'s record: the same fields plus `lufs` and
      `normalized`, keys ascending. */
  lemma ServerlessRecordShape(text: string, voice: string)
    ensures DistinctKeys(ServerlessMembers(text, voice))
    ensures Dumps(ServerlessMembers(text, voice)) == "{" + RenderMembers(ServerlessSorted(text, voice)) + "}"
  {
    ServerlessMembersDistinct(text, voice);
    ServerlessSortedIsSorted(text, voice);
    ServerlessSameMembers(text, voice);
    SortBySorted(ServerlessMembers(text, voice), ServerlessSorted(text, voice));
  }

  lemma LocalSameMembers(text: string, voice: string)
    ensures multiset(LocalMembers(text, voice)) == multiset(LocalSorted(text, voice))
  {
  }

  lemma ServerlessSameMembers(text: string, voice: string)
    ensures multiset(ServerlessMembers(text, voice)) == multiset(ServerlessSorted(text, voice))
  {
  }

  function LocalRecord(text: string, voice: string): (r: string)
    ensures r == "{" + RenderMembers(LocalSorted(text, voice)) + "}"
  {
    LocalRecordShape(text, voice);
    Dumps(LocalMembers(text, voice))
  }

  function ServerlessRecord(text: string, voice: string): (r: string)
    ensures r == "{" + RenderMembers(ServerlessSorted(text, voice)) + "}"
  {
    ServerlessRecordShape(text, voice);
    Dumps(ServerlessMembers(text, voice))
  }

  // ---------- Injectivity ----------

  /** Two member lists with the same keys in the same order, whose values
      agree except where both are strings. */
  predicate SameShape(a: seq<Member>, b: seq<Member>) {
    |a| == |b| && forall i :: 0 <= i < |a| ==> a[i].0 == b[i].0 && (a[i] == b[i] || (a[i].1.Str? && b[i].1.Str?))
  }

  lemma PrefixCancel(p: string, x: string, y: string)
    requires p + x == p + y
    ensures x == y
  {
    assert x == (p + x)[|p|..];
    assert y == (p + y)[|p|..];
  }

  /** One rendered member followed by more text determines the member's
      value, when the key is shared and the values are equal or strings. */
  lemma MemberCancel(m: Member, n: Member, x: string, y: string)
    requires m.0 == n.0 && (m == n || (m.1.Str? && n.1.Str?))
    requires RenderMember(m) + x == RenderMember(n) + y
    ensures m == n && x == y
  {
    if m == n {
      PrefixCancel(RenderMember(m), x, y);
    } else {
      StrMemberCancel(m.0, m.1.s, n.1.s, x, y);
    }
  }

  /** Two string members under one key, each followed by more text. */
  lemma StrMemberCancel(k: string, a: string, b: string, x: string, y: string)
    requires RenderMember((k, Str(a))) + x == RenderMember((k, Str(b))) + y
    ensures a == b && x == y
  {
    var p := Quote(k) + ": ";
    assert RenderMember((k, Str(a))) + x == p + (Quote(a) + x);
    assert RenderMember((k, Str(b))) + y == p + (Quote(b) + y);
    PrefixCancel(p, Quote(a) + x, Quote(b) + y);
    QuoteCancel(a, x, b, y);
  }

  lemma RenderMembersCons(ms: seq<Member>)
    requires |ms| > 1
    ensures RenderMembers(ms) == RenderMember(ms[0]) + (", " + RenderMembers(ms[1..]))
  {
  }

  /** Removing the braces around two equal objects leaves equal bodies. */
  lemma Unbrace(x: string, y: string)
    requires "{" + x + "}" == "{" + y + "}"
    ensures x == y
  {
    assert x == ("{" + x + "}")[1..|x| + 1];
    assert y == ("{" + y + "}")[1..|y| + 1];
  }

  /** Rendering is injective on lists of the same shape: the strings in
      them can be read back. */
  lemma {:induction false} RenderMembersInjective(a: seq<Member>, b: seq<Member>)
    requires SameShape(a, b)
    requires RenderMembers(a) == RenderMembers(b)
    ensures a == b
    decreases |a|
  {
    if |a| == 1 {
      MemberCancel(a[0], b[0], "", "");
    } else if |a| > 1 {
      var ra := RenderMembers(a[1..]);
      var rb := RenderMembers(b[1..]);
      RenderMembersCons(a);
      RenderMembersCons(b);
      MemberCancel(a[0], b[0], ", " + ra, ", " + rb);
      PrefixCancel(", ", ra, rb);
      RenderMembersInjective(a[1..], b[1..]);
      assert a == [a[0]] + a[1..] && b == [b[0]] + b[1..];
    }
  }

  /** Different (text, voice) pairs give different local records. */
  lemma LocalRecordInjective(t1: string, v1: string, t2: string, v2: string)
    requires LocalRecord(t1, v1) == LocalRecord(t2, v2)
    ensures t1 == t2 && v1 == v2
  {
    var a := LocalSorted(t1, v1);
    var b := LocalSorted(t2, v2);
    InputsSameShape(LocalSettings, t1, v1, t2, v2);
    Unbrace(RenderMembers(a), RenderMembers(b));
    RenderMembersInjective(a, b);
    InputsCancel(LocalSettings, t1, v1, t2, v2);
  }

  lemma InputsCancel(fixed: seq<Member>, t1: string, v1: string, t2: string, v2: string)
    requires fixed + Inputs(t1, v1) == fixed + Inputs(t2, v2)
    ensures t1 == t2 && v1 == v2
  {
    var a := fixed + Inputs(t1, v1);
    assert a[|fixed|] == ("text", Str(t1)) && a[|fixed| + 1] == ("voice_id", Str(v1));
    var b := fixed + Inputs(t2, v2);
    assert b[|fixed|] == ("text", Str(t2)) && b[|fixed| + 1] == ("voice_id", Str(v2));
  }

  /** Different (text, voice) pairs give different serverless records. */
  lemma ServerlessRecordInjective(t1: string, v1: string, t2: string, v2: string)
    requires ServerlessRecord(t1, v1) == ServerlessRecord(t2, v2)
    ensures t1 == t2 && v1 == v2
  {
    var a := ServerlessSorted(t1, v1);
    var b := ServerlessSorted(t2, v2);
    InputsSameShape(ServerlessSettings, t1, v1, t2, v2);
    Unbrace(RenderMembers(a), RenderMembers(b));
    RenderMembersInjective(a, b);
    InputsCancel(ServerlessSettings, t1, v1, t2, v2);
  }

  /** The third character of a record is the first character of its least
      key, when that character is written plain. */
  lemma RecordThirdChar(ms: seq<Member>)
    requires |ms| > 0 && |ms[0].0| > 0 && IsPlain(ms[0].0[0])
    ensures ("{" + RenderMembers(ms) + "}")[2] == ms[0].0[0]
  {
    QuoteSecond(ms[0].0);
    RenderMembersFront(ms);
    var r := RenderMembers(ms);
    assert ("{" + r + "}")[2] == r[1];
  }

  /** A key starting with a plain character keeps it right after the
      opening quote. */
  lemma QuoteSecond(k: string)
    requires |k| > 0 && IsPlain(k[0])
    ensures Quote(k)[1] == k[0]
  {
    assert Escape(k) == EscapeChar(k[0]) + Escape(k[1..]);
    assert EscapeChar(k[0]) == [k[0]];
  }

  /** A rendering opens with its first key, quoted. */
  lemma RenderMembersFront(ms: seq<Member>)
    requires |ms| > 0
    ensures |RenderMembers(ms)| >= 2 && RenderMembers(ms)[1] == Quote(ms[0].0)[1]
  {
    var q := Quote(ms[0].0);
    var m := RenderMember(ms[0]);
    Seqs.IndexFront(q, ": ", 1);
    Seqs.IndexFront(q + ": ", Render(ms[0].1), 1);
    if |ms| > 1 {
      Seqs.IndexFront(m, ", ", 1);
      Seqs.IndexFront(m + ", ", RenderMembers(ms[1..]), 1);
    }
  }

  /** The local and serverless records never coincide, whatever their
      inputs: one opens with `{"m`, the other with `{"l`. */
  lemma RecordsNeverCoincide(t1: string, v1: string, t2: string, v2: string)
    ensures LocalRecord(t1, v1) != ServerlessRecord(t2, v2)
  {
    RecordThirdChar(LocalSorted(t1, v1));
    RecordThirdChar(ServerlessSorted(t2, v2));
  }

  // ---------- ASCII ----------

  lemma AsciiAppend(a: string, b: string)
    requires IsAscii(a) && IsAscii(b)
    ensures IsAscii(a + b)
  {
    assert forall i :: 0 <= i < |a + b| ==> (a + b)[i] == if i < |a| then a[i] else b[i - |a|];
  }

  lemma EscapeCharAscii(c: char)
    ensures IsAscii(EscapeChar(c))
  {
    if c as int < 0x10000 {
      EscapeBmpAscii(c);
    } else {
      EscapeAstralAscii(c);
    }
  }

  lemma EscapeBmpAscii(c: char)
    requires c as int < 0x10000
    ensures IsAscii(EscapeChar(c))
  {
    var n := c as int;
    if !IsPlain(c) && c != '"' && c != '\\' && c != '\n' && c != '\r' && c != '\t' && n != 0x08 && n != 0x0C {
      UnicodeEscapeAscii(n);
    }
  }

  /** Beyond the Basic Multilingual Plane: two `\uXXXX` escapes. */
  lemma EscapeAstralAscii(c: char)
    requires c as int >= 0x10000
    ensures IsAscii(EscapeChar(c))
  {
    var v := c as int - 0x10000;
    AstralForm(c);
    UnicodeEscapeAscii(0xD800 + v / 0x400);
    UnicodeEscapeAscii(0xDC00 + v % 0x400);
    AsciiAppend("\\u" + Hex4(0xD800 + v / 0x400), "\\u" + Hex4(0xDC00 + v % 0x400));
  }

  lemma AstralForm(c: char)
    requires c as int >= 0x10000
    ensures var v := c as int - 0x10000;
            EscapeChar(c) == ("\\u" + Hex4(0xD800 + v / 0x400)) + ("\\u" + Hex4(0xDC00 + v % 0x400))
  {
  }

  /** A `\uXXXX` escape is ASCII. */
  lemma UnicodeEscapeAscii(n: nat)
    requires n < 0x10000
    ensures IsAscii("\\u" + Hex4(n))
  {
    var h := Hex4(n);
    assert forall i :: 0 <= i < 4 ==> IsHexChar(h[i]);
    AsciiAppend("\\u", h);
  }

  /** With `ensure_ascii`, escaped text is pure ASCII. */
  lemma {:induction false} EscapeAscii(s: string)
    ensures IsAscii(Escape(s))
    decreases |s|
  {
    if |s| > 0 {
      EscapeCharAscii(s[0]);
      EscapeAscii(s[1..]);
      AsciiAppend(EscapeChar(s[0]), Escape(s[1..]));
    }
  }

  lemma QuoteAscii(s: string)
    ensures IsAscii(Quote(s))
  {
    EscapeAscii(s);
    AsciiAppend("\"", Escape(s));
    AsciiAppend("\"" + Escape(s), "\"");
  }

  /** A value whose rendering is ASCII: every string (it is escaped), and
      numbers and booleans written in ASCII. */
  predicate AsciiValue(v: Value) {
    match v
    case Num(r) => IsAscii(r)
    case _ => true
  }

  lemma RenderAscii(v: Value)
    requires AsciiValue(v)
    ensures IsAscii(Render(v))
  {
    match v
    case Str(s) => QuoteAscii(s);
    case Num(r) =>
    case Int(i) =>
      var d := Decimal.NatToString(if i < 0 then -i else i);
      assert IsAscii(d);
      if i < 0 {
        AsciiAppend("-", d);
      }
    case Bool(b) =>
  }

  lemma {:induction false} RenderMembersAscii(ms: seq<Member>)
    requires forall i :: 0 <= i < |ms| ==> AsciiValue(ms[i].1)
    ensures IsAscii(RenderMembers(ms))
    decreases |ms|
  {
    if |ms| > 0 {
      var m := ms[0];
      QuoteAscii(m.0);
      RenderAscii(m.1);
      AsciiAppend(Quote(m.0), ": ");
      AsciiAppend(Quote(m.0) + ": ", Render(m.1));
      if |ms| > 1 {
        RenderMembersAscii(ms[1..]);
        AsciiAppend(RenderMember(m), ", ");
        AsciiAppend(RenderMember(m) + ", ", RenderMembers(ms[1..]));
      }
    }
  }

  lemma RecordAscii(ms: seq<Member>)
    requires forall i :: 0 <= i < |ms| ==> AsciiValue(ms[i].1)
    ensures IsAscii("{" + RenderMembers(ms) + "}")
  {
    RenderMembersAscii(ms);
    AsciiAppend("{", RenderMembers(ms));
    AsciiAppend("{" + RenderMembers(ms), "}");
  }

  lemma LocalRecordAscii(text: string, voice: string)
    ensures IsAscii(LocalRecord(text, voice))
  {
    var ms := LocalSorted(text, voice);
    forall i | 0 <= i < |ms|
      ensures AsciiValue(ms[i].1)
    {
      if i < |LocalSettings| {
        assert ms[i] == LocalSettings[i];
      }
    }
    RecordAscii(ms);
  }

  lemma ServerlessRecordAscii(text: string, voice: string)
    ensures IsAscii(ServerlessRecord(text, voice))
  {
    var ms := ServerlessSorted(text, voice);
    forall i | 0 <= i < |ms|
      ensures AsciiValue(ms[i].1)
    {
      if i < |ServerlessSettings| {
        assert ms[i] == ServerlessSettings[i];
      }
    }
    RecordAscii(ms);
  }

  // ---------- Digests ----------

  /** `hexdigest()`: two lower-case hex digits per byte, high nibble first. */
  function HexDigest(d: Bytes): (h: string)
    ensures |h| == 2 * |d|
    ensures forall i :: 0 <= i < |h| ==> IsHexChar(h[i])
    decreases |d|
  {
    if |d| == 0 then ""
    else [HexDigit(d[0] as int / 16), HexDigit(d[0] as int % 16)] + HexDigest(d[1..])
  }

  /** Different digests have different hex forms. */
  lemma {:induction false} HexDigestInjective(a: Bytes, b: Bytes)
    requires HexDigest(a) == HexDigest(b)
    ensures a == b
    decreases |a|
  {
    if |a| > 0 {
      var ha := HexDigest(a);
      HexDigitValue(a[0] as int / 16);
      HexDigitValue(a[0] as int % 16);
      HexDigitValue(b[0] as int / 16);
      HexDigitValue(b[0] as int % 16);
      assert ha[0] == HexDigest(b)[0] && ha[1] == HexDigest(b)[1];
      assert a[0] == b[0];
      assert HexDigest(a[1..]) == ha[2..] == HexDigest(b)[2..] == HexDigest(b[1..]);
      HexDigestInjective(a[1..], b[1..]);
      assert a == [a[0]] + a[1..] && b == [b[0]] + b[1..];
    }
  }

  // ---------- Keys ----------

  /** The bytes `get_cache_key` hashes. */
  function LocalBytes(text: string, voice: string): Bytes {
    Utf8.Encode(LocalRecord(text, voice))
  }

  /** The bytes `compute_cache_key` hashes. */
  function ServerlessBytes(text: string, voice: string): Bytes {
    Utf8.Encode(ServerlessRecord(text, voice))
  }

  /** The hashed bytes are the record's characters, one byte each. */
  lemma LocalBytesAreAscii(text: string, voice: string)
    ensures |LocalBytes(text, voice)| == |LocalRecord(text, voice)|
    ensures forall i :: 0 <= i < |LocalRecord(text, voice)| ==>
      LocalBytes(text, voice)[i] as int == LocalRecord(text, voice)[i] as int
  {
    LocalRecordAscii(text, voice);
    Utf8.EncodeAscii(LocalRecord(text, voice));
  }

  lemma ServerlessBytesAreAscii(text: string, voice: string)
    ensures |ServerlessBytes(text, voice)| == |ServerlessRecord(text, voice)|
    ensures forall i :: 0 <= i < |ServerlessRecord(text, voice)| ==>
      ServerlessBytes(text, voice)[i] as int == ServerlessRecord(text, voice)[i] as int
  {
    ServerlessRecordAscii(text, voice);
    Utf8.EncodeAscii(ServerlessRecord(text, voice));
  }

  /** `get_cache_key(text, voice_id)` with SHA-256 given as `sha`. */
  function LocalKey(sha: Bytes -> Bytes, text: string, voice: string): (k: string)
    ensures |k| == 2 * |sha(LocalBytes(text, voice))|
  {
    HexDigest(sha(LocalBytes(text, voice)))
  }

  /** `compute_cache_key(text, voice_id)` with SHA-256 given as `sha`. */
  function ServerlessKey(sha: Bytes -> Bytes, text: string, voice: string): (k: string)
    ensures |k| == 2 * |sha(ServerlessBytes(text, voice))|
  {
    HexDigest(sha(ServerlessBytes(text, voice)))
  }

  /** Two different inputs to which `sha` gives the same digest. */
  predicate Collision(sha: Bytes -> Bytes, x: Bytes, y: Bytes) {
    x != y && sha(x) == sha(y)
  }

  lemma LocalBytesInjective(t1: string, v1: string, t2: string, v2: string)
    requires LocalBytes(t1, v1) == LocalBytes(t2, v2)
    ensures t1 == t2 && v1 == v2
  {
    Utf8.EncodeInjective(LocalRecord(t1, v1), LocalRecord(t2, v2));
    LocalRecordInjective(t1, v1, t2, v2);
  }

  lemma ServerlessBytesInjective(t1: string, v1: string, t2: string, v2: string)
    requires ServerlessBytes(t1, v1) == ServerlessBytes(t2, v2)
    ensures t1 == t2 && v1 == v2
  {
    Utf8.EncodeInjective(ServerlessRecord(t1, v1), ServerlessRecord(t2, v2));
    ServerlessRecordInjective(t1, v1, t2, v2);
  }

  /** Two segments share a local key only if they have the same text and
      voice, or SHA-256 collides on their records. */
  lemma LocalKeyDetermines(sha: Bytes -> Bytes, t1: string, v1: string, t2: string, v2: string)
    requires LocalKey(sha, t1, v1) == LocalKey(sha, t2, v2)
    ensures (t1 == t2 && v1 == v2) || Collision(sha, LocalBytes(t1, v1), LocalBytes(t2, v2))
  {
    HexDigestInjective(sha(LocalBytes(t1, v1)), sha(LocalBytes(t2, v2)));
    if LocalBytes(t1, v1) == LocalBytes(t2, v2) {
      LocalBytesInjective(t1, v1, t2, v2);
    }
  }

  /** The same for the serverless keys. */
  lemma ServerlessKeyDetermines(sha: Bytes -> Bytes, t1: string, v1: string, t2: string, v2: string)
    requires ServerlessKey(sha, t1, v1) == ServerlessKey(sha, t2, v2)
    ensures (t1 == t2 && v1 == v2) || Collision(sha, ServerlessBytes(t1, v1), ServerlessBytes(t2, v2))
  {
    HexDigestInjective(sha(ServerlessBytes(t1, v1)), sha(ServerlessBytes(t2, v2)));
    if ServerlessBytes(t1, v1) == ServerlessBytes(t2, v2) {
      ServerlessBytesInjective(t1, v1, t2, v2);
    }
  }

  /** A local key never addresses audio cached under a serverless key
      unless SHA-256 collides: the two caches are disjoint. */
  lemma KeysNeverShared(sha: Bytes -> Bytes, t1: string, v1: string, t2: string, v2: string)
    requires LocalKey(sha, t1, v1) == ServerlessKey(sha, t2, v2)
    ensures Collision(sha, LocalBytes(t1, v1), ServerlessBytes(t2, v2))
  {
    HexDigestInjective(sha(LocalBytes(t1, v1)), sha(ServerlessBytes(t2, v2)));
    if LocalBytes(t1, v1) == ServerlessBytes(t2, v2) {
      Utf8.EncodeInjective(LocalRecord(t1, v1), ServerlessRecord(t2, v2));
      RecordsNeverCoincide(t1, v1, t2, v2);
    }
  }
}
