/** The WebVTT transcript of a timeline: a header, then one cue per
    timeline entry numbered from 1, with `HH:MM:SS.mmm` timestamps and a
    `<v Name>` voice span. Times are integer milliseconds. */
module WebVtt {
  import opened Strings
  import opened Decimal
  import opened Outcomes
  import opened ScriptParser
  import opened Timeline
  import Seqs

  const MsPerHour: nat := 3600000
  const MsPerMinute: nat := 60000
  const MsPerSecond: nat := 1000

  /** The text of a clock reading: hours padded to two digits (more when
      needed), minutes and seconds to two, milliseconds to three. */
  function Clock(h: nat, m: nat, s: nat, milli: nat): string {
    ZeroPad(h, 2) + ":" + ZeroPad(m, 2) + ":" + ZeroPad(s, 2) + "." + ZeroPad(milli, 3)
  }

  /** `format_vtt_timestamp`: the millisecond count as hours, minutes,
      seconds and milliseconds. */
  function Timestamp(ms: nat): string {
    Clock(ms / MsPerHour, ms % MsPerHour / MsPerMinute, ms % MsPerMinute / MsPerSecond, ms % MsPerSecond)
  }

  /** The clock fields of a timestamp, read back; `None` when malformed. */
  function ParseTimestamp(t: string): Option<nat> {
    var parts := Split(t, ':');
    if |parts| != 3 then None
    else
      var sec := Split(parts[2], '.');
      if |sec| != 2 || !AllDigits(parts[0]) || !AllDigits(parts[1]) || !AllDigits(sec[0]) || !AllDigits(sec[1]) then None
      else Some(ParseDigits(parts[0]) * MsPerHour + ParseDigits(parts[1]) * MsPerMinute
                + ParseDigits(sec[0]) * MsPerSecond + ParseDigits(sec[1]))
  }

  lemma DigitsHaveNoSeparators(s: string)
    requires AllDigits(s)
    ensures ':' !in s && '.' !in s
  {
    forall i | 0 <= i < |s|
      ensures s[i] != ':' && s[i] != '.'
    {
      assert IsAsciiDigit(s[i]);
    }
  }

  /** The seconds field `ss.fff` contains no colon. */
  lemma SecondsHaveNoColon(ss: string, fff: string)
    requires AllDigits(ss) && AllDigits(fff)
    ensures ':' !in ss + "." + fff
  {
    DigitsHaveNoSeparators(ss);
    DigitsHaveNoSeparators(fff);
    var tail := ss + "." + fff;
    assert forall i :: 0 <= i < |tail| ==> tail[i] == if i < |ss| then ss[i] else if i == |ss| then '.' else fff[i - |ss| - 1];
  }

  /** A clock reading splits into its four digit fields. */
  lemma ClockFields(h: nat, m: nat, s: nat, milli: nat)
    ensures var hh, mm, ss, fff := ZeroPad(h, 2), ZeroPad(m, 2), ZeroPad(s, 2), ZeroPad(milli, 3);
      Split(Clock(h, m, s, milli), ':') == [hh, mm, ss + "." + fff] && Split(ss + "." + fff, '.') == [ss, fff]
  {
    var hh, mm, ss, fff := ZeroPad(h, 2), ZeroPad(m, 2), ZeroPad(s, 2), ZeroPad(milli, 3);
    DigitsHaveNoSeparators(hh);
    DigitsHaveNoSeparators(mm);
    DigitsHaveNoSeparators(fff);
    var tail := ss + "." + fff;
    SecondsHaveNoColon(ss, fff);
    assert Clock(h, m, s, milli) == hh + [':'] + (mm + [':'] + tail);
    SplitAtFirst(hh, ':', mm + [':'] + tail);
    SplitAtFirst(mm, ':', tail);
    SplitNoSeparator(tail, ':');
    DigitsHaveNoSeparators(ss);
    assert tail == ss + ['.'] + fff;
    SplitAtFirst(ss, '.', fff);
    SplitNoSeparator(fff, '.');
  }

  /** A clock reading reads back as the milliseconds it denotes. */
  lemma ParseClock(h: nat, m: nat, s: nat, milli: nat)
    ensures ParseTimestamp(Clock(h, m, s, milli)) == Some(h * MsPerHour + m * MsPerMinute + s * MsPerSecond + milli)
  {
    ClockFields(h, m, s, milli);
  }

  lemma ClockArithmetic(ms: nat)
    ensures ms / MsPerHour * MsPerHour + ms % MsPerHour / MsPerMinute * MsPerMinute
            + ms % MsPerMinute / MsPerSecond * MsPerSecond + ms % MsPerSecond == ms
    ensures ms % MsPerHour / MsPerMinute < 60
    ensures ms % MsPerMinute / MsPerSecond < 60
  {
    HourMinute(ms);
    MinuteSecond(ms);
    var h, r := ms / 3600000, ms % 3600000;
    var m, rm := r / 60000, r % 60000;
    assert ms == (h * 60 + m) * 60000 + rm;
  }

  /** Dropping whole hours keeps the minute remainder. */
  lemma HourMinute(ms: nat)
    ensures ms % 3600000 % 60000 == ms % 60000
  {
    var h, r := ms / 3600000, ms % 3600000;
    var m, s := r / 60000, r % 60000;
    assert ms == (h * 60 + m) * 60000 + s;
  }

  /** Dropping whole minutes keeps the second remainder. */
  lemma MinuteSecond(ms: nat)
    ensures ms % 60000 % 1000 == ms % 1000
  {
    var m, r := ms / 60000, ms % 60000;
    var s, f := r / 1000, r % 1000;
    assert ms == (m * 60 + s) * 1000 + f;
  }

  /** A timestamp reads back as the time it was made from, and its minute
      and second fields stay below 60. */
  lemma TimestampRoundTrip(ms: nat)
    ensures ParseTimestamp(Timestamp(ms)) == Some(ms)
    ensures ms % MsPerHour / MsPerMinute < 60 && ms % MsPerMinute / MsPerSecond < 60
  {
    ParseClock(ms / MsPerHour, ms % MsPerHour / MsPerMinute, ms % MsPerMinute / MsPerSecond, ms % MsPerSecond);
    ClockArithmetic(ms);
  }

  /** Python `str.capitalize()` on ASCII text. */
  function Capitalize(s: string): (r: string)
    ensures |r| == |s|
  {
    if |s| == 0 then "" else [if 'a' <= s[0] <= 'z' then (s[0] as int - 32) as char else s[0]] + LowerAscii(s[1..])
  }

  /** The voice name of a speaker: its tag capitalised. */
  function VoiceName(s: Speaker): string {
    Capitalize(Tag(s))
  }

  /** The voice names the transcript uses. */
  lemma VoiceNames()
    ensures VoiceName(Eric) == "Eric" && VoiceName(Maya) == "Maya" && VoiceName(Alex) == "Alex"
  {
  }

  /** The cue timing line `start --> end`. */
  function TimingLine(e: Entry): string {
    Timestamp(e.start) + " --> " + Timestamp(e.end)
  }

  /** The cue payload line: the text in the speaker's voice span. */
  function VoiceLine(e: Entry): string {
    "<v " + VoiceName(e.speaker) + ">" + e.text
  }

  /** The four lines of the cue for the entry at `index`. */
  function Cue(index: nat, e: Entry): seq<string> {
    [NatToString(index + 1), TimingLine(e), VoiceLine(e), ""]
  }

  const Header: seq<string> := ["WEBVTT", ""]

  /** The cue lines, cue by cue. */
  function Cues(entries: seq<Entry>): seq<string> {
    Seqs.Blocks(Cue, entries)
  }

  /** The lines `generate_webvtt` joins: the header, then the cues. */
  function Lines(entries: seq<Entry>): seq<string> {
    Header + Cues(entries)
  }

  /** `generate_webvtt(segments_with_timing, path)`: the file's text. */
  function Render(entries: seq<Entry>): string {
    Join(Lines(entries), "\n")
  }

  lemma CueWidth()
    ensures forall i: nat, e: Entry :: |Cue(i, e)| == 4
  {
  }

  /** Two header lines and four lines per cue. */
  lemma LineCount(entries: seq<Entry>)
    ensures |Lines(entries)| == 2 + 4 * |entries|
    ensures Lines(entries)[0] == "WEBVTT" && Lines(entries)[1] == ""
  {
    CueWidth();
    Seqs.BlocksLength(Cue, entries, 4);
  }

  /** Line `j` of cue `k` is line 2+4k+j of the file. */
  lemma CueLine(entries: seq<Entry>, k: nat, j: nat)
    requires k < |entries| && j < 4
    ensures 2 + 4 * k + j < |Lines(entries)|
    ensures Lines(entries)[2 + 4 * k + j] == Cue(k, entries[k])[j]
  {
    CueWidth();
    Seqs.BlocksIndex(Cue, entries, 4, k, j);
  }

  /** Cue numbers are 1, 2, ..., n in order. */
  lemma CueNumbers(entries: seq<Entry>, k: nat)
    requires k < |entries|
    ensures 2 + 4 * k < |Lines(entries)|
    ensures var line := Lines(entries)[2 + 4 * k]; AllDigits(line) && ParseDigits(line) == k + 1
  {
    CueLine(entries, k, 0);
    CueNumber(k, entries[k]);
    ReadsBackAs(Lines(entries)[2 + 4 * k], k + 1);
  }

  lemma ReadsBackAs(line: string, n: nat)
    requires line == NatToString(n)
    ensures AllDigits(line) && ParseDigits(line) == n
  {
    ParseNatToString(n);
  }

  lemma CueNumber(index: nat, e: Entry)
    ensures Cue(index, e)[0] == NatToString(index + 1)
  {
  }

  /** Every cue ends with a blank line. */
  lemma CueEndsBlank(entries: seq<Entry>, k: nat)
    requires k < |entries|
    ensures 5 + 4 * k < |Lines(entries)|
    ensures Lines(entries)[5 + 4 * k] == ""
  {
    CueLine(entries, k, 3);
  }

  lemma NotInConcat(a: string, b: string, c: char)
    requires c !in a && c !in b
    ensures c !in a + b
  {
    assert forall i :: 0 <= i < |a + b| ==> (a + b)[i] == if i < |a| then a[i] else b[i - |a|];
  }

  lemma DigitsAvoid(s: string, c: char)
    requires AllDigits(s) && !IsAsciiDigit(c)
    ensures c !in s
  {
    forall i | 0 <= i < |s|
      ensures s[i] != c
    {
      assert IsAsciiDigit(s[i]);
    }
  }

  /** A timestamp holds only digits, colons and the decimal point. */
  lemma TimestampAvoids(ms: nat, c: char)
    requires !IsAsciiDigit(c) && c != ':' && c != '.'
    ensures c !in Timestamp(ms)
  {
    var hh, mm := ZeroPad(ms / MsPerHour, 2), ZeroPad(ms % MsPerHour / MsPerMinute, 2);
    var ss, fff := ZeroPad(ms % MsPerMinute / MsPerSecond, 2), ZeroPad(ms % MsPerSecond, 3);
    DigitsAvoid(hh, c);
    DigitsAvoid(mm, c);
    DigitsAvoid(ss, c);
    DigitsAvoid(fff, c);
    NotInConcat(hh, ":", c);
    NotInConcat(hh + ":", mm, c);
    NotInConcat(hh + ":" + mm, ":", c);
    NotInConcat(hh + ":" + mm + ":", ss, c);
    NotInConcat(hh + ":" + mm + ":" + ss, ".", c);
    NotInConcat(hh + ":" + mm + ":" + ss + ".", fff, c);
  }

  /** The timing line is the two timestamps around an arrow. */
  lemma TimingLineFields(e: Entry)
    ensures Split(TimingLine(e), ' ') == [Timestamp(e.start), "-->", Timestamp(e.end)]
  {
    var t0, t1 := Timestamp(e.start), Timestamp(e.end);
    TimestampAvoids(e.start, ' ');
    TimestampAvoids(e.end, ' ');
    assert TimingLine(e) == t0 + [' '] + ("-->" + [' '] + t1);
    SplitAtFirst(t0, ' ', "-->" + [' '] + t1);
    SplitAtFirst("-->", ' ', t1);
    SplitNoSeparator(t1, ' ');
  }

  /** The timing line of cue `k` reads back as the entry's start and end. */
  lemma CueTimes(entries: seq<Entry>, k: nat)
    requires k < |entries|
    ensures 3 + 4 * k < |Lines(entries)|
    ensures var fields := Split(Lines(entries)[3 + 4 * k], ' ');
      |fields| == 3 && fields[1] == "-->"
      && ParseTimestamp(fields[0]) == Some(entries[k].start)
      && ParseTimestamp(fields[2]) == Some(entries[k].end)
  {
    CueLine(entries, k, 1);
    TimingLineFields(entries[k]);
    TimestampRoundTrip(entries[k].start);
    TimestampRoundTrip(entries[k].end);
  }

  /** The voice line of cue `k` carries the entry's speaker and text. */
  lemma CueVoice(entries: seq<Entry>, k: nat)
    requires k < |entries|
    ensures 4 + 4 * k < |Lines(entries)|
    ensures Lines(entries)[4 + 4 * k] == "<v " + VoiceName(entries[k].speaker) + ">" + entries[k].text
  {
    CueLine(entries, k, 2);
  }

  lemma TimingLineHasNoNewline(e: Entry)
    ensures '\n' !in TimingLine(e)
  {
    TimestampAvoids(e.start, '\n');
    TimestampAvoids(e.end, '\n');
    NotInConcat(Timestamp(e.start), " --> ", '\n');
    NotInConcat(Timestamp(e.start) + " --> ", Timestamp(e.end), '\n');
  }

  lemma VoiceLineHasNoNewline(e: Entry)
    requires '\n' !in e.text
    ensures '\n' !in VoiceLine(e)
  {
    var name := VoiceName(e.speaker);
    VoiceNames();
    assert '\n' !in name;
    NotInConcat("<v ", name, '\n');
    NotInConcat("<v " + name, ">", '\n');
    NotInConcat("<v " + name + ">", e.text, '\n');
  }

  lemma CueHasNoNewline(index: nat, e: Entry)
    requires '\n' !in e.text
    ensures forall i :: 0 <= i < 4 ==> '\n' !in Cue(index, e)[i]
  {
    DigitsAvoid(NatToString(index + 1), '\n');
    TimingLineHasNoNewline(e);
    VoiceLineHasNoNewline(e);
  }

  /** No line of `ls` holds a line break. */
  ghost predicate Unbroken(ls: seq<string>) {
    forall i :: 0 <= i < |ls| ==> '\n' !in ls[i]
  }

  lemma UnbrokenConcat(a: seq<string>, b: seq<string>)
    requires Unbroken(a) && Unbroken(b)
    ensures Unbroken(a + b)
  {
    forall i | 0 <= i < |a + b|
      ensures '\n' !in (a + b)[i]
    {
      if i < |a| {
        Seqs.IndexFront(a, b, i);
      } else {
        Seqs.IndexBack(a, b, i);
      }
    }
  }

  lemma {:induction false} CuesHaveNoNewline(entries: seq<Entry>)
    requires forall k :: 0 <= k < |entries| ==> '\n' !in entries[k].text
    ensures forall i :: 0 <= i < |Cues(entries)| ==> '\n' !in Cues(entries)[i]
    decreases |entries|
  {
    if |entries| > 0 {
      var n := |entries| - 1;
      CuesHaveNoNewline(entries[..n]);
      CueHasNoNewline(n, entries[n]);
      assert Cues(entries) == Cues(entries[..n]) + Cue(n, entries[n]);
      UnbrokenConcat(Cues(entries[..n]), Cue(n, entries[n]));
    }
  }

  lemma LinesHaveNoNewline(entries: seq<Entry>)
    requires forall k :: 0 <= k < |entries| ==> '\n' !in entries[k].text
    ensures forall i :: 0 <= i < |Lines(entries)| ==> '\n' !in Lines(entries)[i]
  {
    CuesHaveNoNewline(entries);
    UnbrokenConcat(Header, Cues(entries));
  }

  /** When no cue text holds a line break (parsed speech never does), the
      file splits back into exactly the header and cue lines. */
  lemma RenderSplitsIntoLines(entries: seq<Entry>)
    requires forall k :: 0 <= k < |entries| ==> '\n' !in entries[k].text
    ensures Split(Render(entries), '\n') == Lines(entries)
    ensures StartsWith(Render(entries), "WEBVTT\n")
  {
    LinesHaveNoNewline(entries);
    SplitJoin(Lines(entries), '\n');
    var ls := Lines(entries);
    LineCount(entries);
    var rest := Join(ls[1..], "\n");
    assert Render(entries) == "WEBVTT" + "\n" + rest;
    assert (("WEBVTT" + "\n") + rest)[..7] == "WEBVTT\n";
  }
}
