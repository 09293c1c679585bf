/** The script parser: a Markdown dialogue script becomes an ordered list
    of speech and pause segments.

    Three copies exist in the repository. The Strollcast copy (the local
    generator and the serverless one) knows ERIC and MAYA and removes
    `{{src:...}}` citations; the ZeRO episode copy knows ALEX and MAYA and
    keeps citations. Every regular-expression substitution is modelled as
    Python's `re.sub` runs it: one left-to-right pass over the text that
    skips past each match and never rescans replaced text. */
module ScriptParser {
  import opened Outcomes
  import opened Strings
  import opened Seqs
  import Config

  datatype Speaker = Eric | Maya | Alex

  /** The upper-case tag a speaker carries in the script. */
  function Tag(s: Speaker): string {
    match s
    case Eric => "ERIC"
    case Maya => "MAYA"
    case Alex => "ALEX"
  }

  /** PAUSE segments carry no speaker and no text. */
  datatype Segment = Pause | Speech(speaker: Speaker, text: string)

  /** Which copy of the parser runs. */
  datatype Dialect = Strollcast | ZeroEpisode

  function Speakers(d: Dialect): set<Speaker> {
    match d
    case Strollcast => {Eric, Maya}
    case ZeroEpisode => {Alex, Maya}
  }

  /** `speaker in ['ERIC', 'MAYA']` (or `['ALEX', 'MAYA']`). */
  function KnownSpeaker(d: Dialect, tag: string): (r: Option<Speaker>)
    ensures r.Some? ==> r.value in Speakers(d) && Tag(r.value) == tag
    ensures r.None? ==> forall s :: s in Speakers(d) ==> Tag(s) != tag
  {
    match d
    case Strollcast =>
      if tag == "ERIC" then Some(Eric) else if tag == "MAYA" then Some(Maya) else None
    case ZeroEpisode =>
      if tag == "ALEX" then Some(Alex) else if tag == "MAYA" then Some(Maya) else None
  }

  // ---------- Regular-expression substitutions ----------

  /** `.*?X` anchored at the start of `s`: the offset of the first
      occurrence of `close`, provided no newline comes before it (`.` does
      not match a newline). */
  function LazyUntil(s: string, close: string): (r: Option<nat>)
    ensures r.Some? ==> r.value + |close| <= |s| && s[r.value..r.value + |close|] == close
    ensures r.Some? ==> forall i :: 0 <= i < r.value ==> s[i] != '\n'
    decreases |s|
  {
    if StartsWith(s, close) then Some(0)
    else if |s| == 0 || s[0] == '\n' then None
    else
      match LazyUntil(s[1..], close)
      case None => None
      case Some(k) => Some(k + 1)
  }

  lemma {:induction false} LazyUntilNone(s: string, c: char)
    requires '\n' !in s
    requires LazyUntil(s, [c]) == None
    ensures c !in s
    decreases |s|
  {
    if |s| > 0 {
      LazyUntilNone(s[1..], c);
    }
  }

  /** The three patterns the cleaner removes. */
  datatype Pattern =
    | Citation   // \{\{src:[^}]+\}\}
    | BoldAside  // \*\*\[.*?\]\*\*
    | Aside      // \[.*?\]

  /** Length of the match of `p` at the start of `s`; 0 when none (no
      pattern matches the empty text). */
  function MatchLen(p: Pattern, s: string): (n: nat)
    ensures n <= |s|
    ensures p == Citation && n > 0 ==> 9 <= n && StartsWith(s, "{{src:") && s[n - 2..n] == "}}"
    ensures p == BoldAside && n > 0 ==> 6 <= n && StartsWith(s, "**[") && s[n - 3..n] == "]**"
    ensures p == Aside && n > 0 ==> 2 <= n && s[0] == '[' && s[n - 1] == ']'
  {
    match p
    case Citation =>
      if !StartsWith(s, "{{src:") then 0
      else
        // [^}]+ is greedy and cannot cross a '}', so it stops at the first one
        var body := TakeUntil(s[6..], c => c == '}');
        if |body| == 0 || 6 + |body| + 2 > |s| || s[6 + |body| + 1] != '}' then 0
        else 6 + |body| + 2
    case BoldAside =>
      if !StartsWith(s, "**[") then 0
      else (match LazyUntil(s[3..], "]**") case None => 0 case Some(k) => 3 + k + 3)
    case Aside =>
      if !StartsWith(s, "[") then 0
      else (match LazyUntil(s[1..], "]") case None => 0 case Some(k) => 1 + k + 1)
  }

  /** `re.sub(p, '', s)`. */
  function Sub(p: Pattern, s: string): (r: string)
    ensures |r| <= |s|
    decreases |s|
  {
    if |s| == 0 then ""
    else
      var n := MatchLen(p, s);
      if n > 0 then Sub(p, s[n..]) else [s[0]] + Sub(p, s[1..])
  }

  /** Removing matches introduces no character that was not there. */
  lemma {:induction false} SubAbsent(p: Pattern, s: string, x: char)
    requires x !in s
    ensures x !in Sub(p, s)
    decreases |s|
  {
    if |s| > 0 {
      var n := MatchLen(p, s);
      if n > 0 {
        SubAbsent(p, s[n..], x);
      } else {
        SubAbsent(p, s[1..], x);
      }
    }
  }

  /** No `[` is followed, anywhere later, by a `]`: no bracketed aside is left. */
  ghost predicate NoAside(s: string) {
    forall i, j :: 0 <= i < j < |s| && s[i] == '[' ==> s[j] != ']'
  }

  /** On a single line, removing `\[.*?\]` leaves no bracketed aside, even
      where removals bring text together. */
  lemma {:induction false} SubAsideLeavesNone(s: string)
    requires '\n' !in s
    ensures NoAside(Sub(Aside, s))
    decreases |s|
  {
    if |s| > 0 {
      var n := MatchLen(Aside, s);
      if n > 0 {
        SubAsideLeavesNone(s[n..]);
      } else {
        SubAsideLeavesNone(s[1..]);
        var rest := Sub(Aside, s[1..]);
        if s[0] == '[' {
          LazyUntilNone(s[1..], ']');
          SubAbsent(Aside, s[1..], ']');
        }
        var r := [s[0]] + rest;
        forall i, j | 0 <= i < j < |r| && r[i] == '['
          ensures r[j] != ']'
        {
          if i > 0 {
            assert r[i] == rest[i - 1] && r[j] == rest[j - 1];
          }
        }
      }
    }
  }

  lemma {:induction false} RemoveCharKeepsNoAside(s: string, c: char)
    requires NoAside(s)
    ensures NoAside(RemoveChar(s, c))
    decreases |s|
  {
    if |s| > 0 {
      assert NoAside(s[1..]) by {
        forall i, j | 0 <= i < j < |s[1..]| && s[1..][i] == '['
          ensures s[1..][j] != ']'
        {
          assert s[i + 1] == '[';
        }
      }
      RemoveCharKeepsNoAside(s[1..], c);
      var rest := RemoveChar(s[1..], c);
      var head := if s[0] == c then "" else [s[0]];
      var r := head + rest;
      assert r == RemoveChar(s, c);
      if s[0] == '[' {
        assert forall k :: 0 <= k < |s[1..]| ==> s[1..][k] != ']';
        RemoveCharAbsent(s[1..], c, ']');
      }
      forall i, j | 0 <= i < j < |r| && r[i] == '['
        ensures r[j] != ']'
      {
        if |head| == 1 && i > 0 {
          assert r[i] == rest[i - 1] && r[j] == rest[j - 1];
        } else if |head| == 0 {
          assert r[i] == rest[i] && r[j] == rest[j];
        }
      }
    }
  }

  // ---------- One line ----------

  /** `re.match(r'\*\*([A-Z]+):\*\*\s*(.*)', line)`: the speaker tag and
      the captured text, which runs to the end of the line. */
  function MatchSpeakerTag(line: string): (r: Option<(string, string)>)
    ensures r.Some? ==> |r.value.0| > 0 && StartsWith(line, "**" + r.value.0 + ":**")
    ensures r.Some? ==> forall i :: 0 <= i < |r.value.0| ==> IsAsciiUpper(r.value.0[i])
    ensures r.Some? ==> '\n' !in r.value.1
  {
    if !StartsWith(line, "**") then None
    else
      var tag := TakeUntil(line[2..], c => !IsAsciiUpper(c));
      var after := line[2 + |tag|..];
      if |tag| == 0 || !StartsWith(after, ":**") then None
      else
        assert line[..2 + |tag| + 3] == "**" + tag + ":**";
        Some((tag, TakeUntil(TrimLeft(after[3..], IsPySpace), c => c == '\n')))
  }

  /** The cleaning chain applied to captured speech text. */
  function CleanText(raw: string, d: Dialect): (text: string)
    requires '\n' !in raw
    ensures '*' !in text
    ensures Trimmed(text, IsPySpace)
    ensures NoAside(text)
    ensures '\n' !in text
  {
    var cited := if d == Strollcast then Sub(Citation, raw) else raw;
    var bold := Sub(BoldAside, cited);
    var plain := Sub(Aside, bold);
    var unstarred := Replace(Replace(plain, "**", ""), "*", "");
    SubAbsent(Citation, raw, '\n');
    SubAbsent(BoldAside, cited, '\n');
    SubAsideLeavesNone(bold);
    SubAbsent(Aside, bold, '\n');
    StarRemoval(plain);
    RemoveCharAbsent(plain, '*', '\n');
    StripAbsent(unstarred, '\n');
    RemoveCharKeepsNoAside(plain, '*');
    Strip(unstarred)
  }

  /** A line whose speaker tag matched: one SPEECH segment when the
      speaker is known and cleaning leaves some text, none otherwise. */
  function SpeechLine(tag: string, raw: string, d: Dialect): (segs: seq<Segment>)
    requires '\n' !in raw
    ensures |segs| <= 1
    ensures forall i :: 0 <= i < |segs| ==> WellFormed(segs[i], d)
    ensures |segs| == 1 <==> KnownSpeaker(d, tag).Some? && |CleanText(raw, d)| > 0
  {
    var text := CleanText(raw, d);
    var who := KnownSpeaker(d, tag);
    if |text| > 0 && who.Some? then [Speech(who.value, text)] else []
  }

  /** The segments one script line contributes: none or one. */
  function ParseLine(line: string, d: Dialect): (segs: seq<Segment>)
    ensures |segs| <= 1
    ensures forall i :: 0 <= i < |segs| ==> WellFormed(segs[i], d)
  {
    var l := Strip(line);
    var m := MatchSpeakerTag(l);
    if |l| == 0 then []
    else if m.Some? then SpeechLine(m.value.0, m.value.1, d)
    else if StartsWith(l, "## [") then [Pause]
    else []
  }

  /** The shape every parsed segment has. */
  ghost predicate WellFormed(s: Segment, d: Dialect) {
    match s
    case Pause => true
    case Speech(who, text) =>
      && who in Speakers(d)
      && |text| > 0
      && '*' !in text
      && Trimmed(text, IsPySpace)
      && NoAside(text)
      && '\n' !in text
  }

  /** The segments of a list of lines, in line order. */
  function ParseLines(lines: seq<string>, d: Dialect): seq<Segment> {
    FlatMap(l => ParseLine(l, d), lines)
  }

  /** `parse_podcast_script` of the local generator, on the file's content. */
  function ParsePodcastScript(content: string): seq<Segment> {
    ParseLines(Split(content, '\n'), Strollcast)
  }

  /** `parse_podcast_script` of the ZeRO episode generator. */
  function ParseZeroScript(content: string): seq<Segment> {
    ParseLines(Split(content, '\n'), ZeroEpisode)
  }

  /** `parse_script` of the serverless generator, written as its loop. It
      computes exactly what the local generator's parser computes. */
  method ParseScript(content: string) returns (segments: seq<Segment>)
    ensures segments == ParsePodcastScript(content)
    ensures forall i :: 0 <= i < |segments| ==> WellFormed(segments[i], Strollcast)
  {
    var lines := Split(content, '\n');
    segments := [];
    var k := 0;
    while k < |lines|
      invariant 0 <= k <= |lines|
      invariant segments == ParseLines(lines[..k], Strollcast)
    {
      assert lines[..k + 1] == lines[..k] + [lines[k]];
      FlatMapAppend(l => ParseLine(l, Strollcast), lines[..k], [lines[k]]);
      FlatMapSingle(l => ParseLine(l, Strollcast), lines[k]);
      segments := segments + ParseLine(lines[k], Strollcast);
      k := k + 1;
    }
    assert lines[..k] == lines;
    ParseLinesWellFormed(lines, Strollcast);
  }

  // ---------- Properties ----------

  /** Parsing respects line order: the segments of a concatenation of
      line lists are the concatenation of their segments. */
  lemma ParseLinesAppend(a: seq<string>, b: seq<string>, d: Dialect)
    ensures ParseLines(a + b, d) == ParseLines(a, d) + ParseLines(b, d)
  {
    FlatMapAppend(l => ParseLine(l, d), a, b);
  }

  /** Every segment of a parsed script is well formed, and there are never
      more segments than lines. */
  lemma ParseLinesWellFormed(lines: seq<string>, d: Dialect)
    ensures |ParseLines(lines, d)| <= |lines|
    ensures forall i :: 0 <= i < |ParseLines(lines, d)| ==> WellFormed(ParseLines(lines, d)[i], d)
  {
    FlatMapAll(l => ParseLine(l, d), lines, s => WellFormed(s, d));
  }

  /** A section-header line yields exactly one PAUSE. */
  lemma HeaderLineIsPause(line: string, d: Dialect)
    requires StartsWith(Strip(line), "## [")
    ensures ParseLine(line, d) == [Pause]
  {
    HeaderIsNotTag(Strip(line));
  }

  lemma HeaderIsNotTag(l: string)
    requires StartsWith(l, "## [")
    ensures MatchSpeakerTag(l).None?
  {
    assert l[..4] == "## [";
    assert l[1] != '*';
    assert !StartsWith(l, "**");
  }

  /** A line with a speaker tag never yields a PAUSE, and one whose tag
      is not a known speaker yields nothing. */
  lemma TagLineIsNeverPause(line: string, d: Dialect)
    requires MatchSpeakerTag(Strip(line)).Some?
    ensures Pause !in ParseLine(line, d)
    ensures KnownSpeaker(d, MatchSpeakerTag(Strip(line)).value.0).None? ==> ParseLine(line, d) == []
  {
  }

  /** A blank line contributes nothing. */
  lemma BlankLineIsSkipped(line: string, d: Dialect)
    requires forall i :: 0 <= i < |line| ==> IsPySpace(line[i])
    ensures ParseLine(line, d) == []
  {
    assert |TrimLeft(line, IsPySpace)| == 0;
  }

  function CountPauses(segs: seq<Segment>): nat {
    if |segs| == 0 then 0 else (if segs[0] == Pause then 1 else 0) + CountPauses(segs[1..])
  }

  function CountHeaders(lines: seq<string>): nat {
    if |lines| == 0 then 0
    else (if StartsWith(Strip(lines[0]), "## [") then 1 else 0) + CountHeaders(lines[1..])
  }

  lemma {:induction false} CountPausesAppend(a: seq<Segment>, b: seq<Segment>)
    ensures CountPauses(a + b) == CountPauses(a) + CountPauses(b)
    decreases |a|
  {
    if |a| == 0 {
      assert a + b == b;
    } else {
      CountPausesAppend(a[1..], b);
      assert (a + b)[1..] == a[1..] + b;
    }
  }

  /** The number of PAUSE segments is the number of section-header lines. */
  lemma {:induction false} PausesAreHeaders(lines: seq<string>, d: Dialect)
    ensures CountPauses(ParseLines(lines, d)) == CountHeaders(lines)
    decreases |lines|
  {
    if |lines| > 0 {
      PausesAreHeaders(lines[1..], d);
      CountPausesAppend(ParseLine(lines[0], d), ParseLines(lines[1..], d));
      var l := Strip(lines[0]);
      if StartsWith(l, "## [") {
        HeaderLineIsPause(lines[0], d);
      } else {
        assert CountPauses(ParseLine(lines[0], d)) == 0;
      }
    }
  }

  /** Every speaker the Strollcast parser emits has a voice in the
      serverless generator's table, so its lookups cannot fail. */
  lemma SpeakersHaveVoices(content: string)
    ensures forall i :: 0 <= i < |ParsePodcastScript(content)| && ParsePodcastScript(content)[i].Speech? ==>
      Tag(ParsePodcastScript(content)[i].speaker) in Config.Voices
  {
    var segs := ParsePodcastScript(content);
    ParseLinesWellFormed(Split(content, '\n'), Strollcast);
    forall i | 0 <= i < |segs| && segs[i].Speech?
      ensures Tag(segs[i].speaker) in Config.Voices
    {
      assert WellFormed(segs[i], Strollcast);
    }
  }
}
