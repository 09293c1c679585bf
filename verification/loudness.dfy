/** Loudness-normalisation control logic: cutting the JSON report out of
    the analyser's diagnostic output, choosing between two-pass and
    single-pass normalisation, and building the `loudnorm` filter strings.
    The analyser and the encoder themselves are external; `json.loads` is
    an oracle from text to a string-valued record. */
module Loudness {
  import opened Outcomes
  import opened Strings

  /** A decoded loudnorm report: field name to value text. */
  type Stats = map<string, string>

  /** Python `s.rfind(c)`: the index of the last `c`, or -1. */
  function Rfind(s: string, c: char): (r: int)
    ensures -1 <= r < |s|
    ensures r == -1 <==> c !in s
    ensures r >= 0 ==> s[r] == c
    ensures forall j :: r < j < |s| ==> s[j] != c
    decreases |s|
  {
    if |s| == 0 then -1
    else if s[|s| - 1] == c then |s| - 1
    else Rfind(s[..|s| - 1], c)
  }

  /** `output[rfind('{') : rfind('}') + 1]` when a `{` occurs and the last
      `}` follows the last `{`; `None` otherwise. */
  function JsonSlice(output: string): (r: Option<string>)
    ensures r.Some? <==> '{' in output && Rfind(output, '{') < Rfind(output, '}')
  {
    var start := Rfind(output, '{');
    var end := Rfind(output, '}') + 1;
    if start != -1 && end > start then Some(output[start..end]) else None
  }

  /** Nothing after the last occurrence of `c` is a `c`. */
  lemma NoneAfterLast(s: string, c: char)
    ensures c !in s[Rfind(s, c) + 1..]
  {
    var r := Rfind(s, c);
    var tail := s[r + 1..];
    forall j | 0 <= j < |tail|
      ensures tail[j] != c
    {
      assert tail[j] == s[r + 1 + j];
      assert r < r + 1 + j < |s|;
    }
  }

  /** The slice is the text from the last `{` to the last `}`: it opens
      with a brace, closes with one, holds no other `{`, and nothing after
      it in the output is a `}`. */
  lemma JsonSliceShape(output: string)
    requires JsonSlice(output).Some?
    ensures var t, i := JsonSlice(output).value, Rfind(output, '{');
      && 0 <= i && i + |t| <= |output| && output[i..i + |t|] == t
      && '{' !in output[i + 1..] && '}' !in output[i + |t|..]
    ensures var t := JsonSlice(output).value;
      |t| >= 2 && t[0] == '{' && t[|t| - 1] == '}' && '{' !in t[1..]
  {
    var start := Rfind(output, '{');
    var end := Rfind(output, '}') + 1;
    var t := output[start..end];
    NoneAfterLast(output, '{');
    NoneAfterLast(output, '}');
    var inner := t[1..];
    forall j | 0 <= j < |inner|
      ensures inner[j] != '{'
    {
      assert inner[j] == output[start + 1 + j];
    }
  }

  /** Output with no `{`, or whose last `}` precedes its last `{`, yields no
      report. */
  lemma NoBraceNoReport(output: string)
    requires '{' !in output || '}' !in output
    ensures JsonSlice(output).None?
  {
  }

  /** `analyze_loudness`: the decoded report, or `None` when no slice is
      found or it does not decode. */
  function AnalyzeLoudness(stderr: string, loads: string -> Option<Stats>): (r: Option<Stats>)
    ensures JsonSlice(stderr).None? ==> r.None?
    ensures JsonSlice(stderr).Some? ==> r == loads(JsonSlice(stderr).value)
  {
    match JsonSlice(stderr)
    case None => None
    case Some(t) => loads(t)
  }

  // ---------- Filter strings ----------

  /** The loudness target every pass aims at: -16 LUFS integrated, -1.5 dBTP
      true peak, loudness range 11. */
  const Target: seq<string> := ["loudnorm=I=-16", "TP=-1.5", "LRA=11"]

  /** `stats.get(key, default)`. */
  function Get(stats: Stats, key: string, default: string): (v: string)
    ensures key in stats ==> v == stats[key]
    ensures key !in stats ==> v == default
  {
    if key in stats then stats[key] else default
  }

  /** The measured values fed to the second pass, each with the default
      the source uses when the report lacks it. */
  function MeasuredValues(stats: Stats): seq<string> {
    [Get(stats, "input_i", "-24"), Get(stats, "input_tp", "-2"), Get(stats, "input_lra", "7"),
     Get(stats, "input_thresh", "-34"), Get(stats, "target_offset", "0")]
  }

  /** The option names the measured values are given under, in order. */
  const MeasuredNames: seq<string> := ["measured_I", "measured_TP", "measured_LRA", "measured_thresh", "offset"]

  /** `name=value` pairs for the measured values, then `linear=true`. */
  function MeasuredOptions(stats: Stats): (opts: seq<string>)
    ensures |opts| == 6
    ensures forall k :: 0 <= k < 5 ==> opts[k] == MeasuredNames[k] + "=" + MeasuredValues(stats)[k]
    ensures opts[5] == "linear=true"
  {
    var vs := MeasuredValues(stats);
    seq(5, k requires 0 <= k < 5 => MeasuredNames[k] + "=" + vs[k]) + ["linear=true"]
  }

  /** The first pass: measure and report as JSON. */
  function AnalysisFilter(): string {
    Join(Target + ["print_format=json"], ":")
  }

  /** `normalize_audio` without statistics. */
  function SinglePassFilter(): string {
    Join(Target, ":")
  }

  /** `normalize_audio` with statistics: the target, the measured values,
      and linear normalisation. */
  function TwoPassFilter(stats: Stats): string {
    Join(Target + MeasuredOptions(stats), ":")
  }

  /** `normalize_audio(input, output, stats)`: the filter it runs. */
  function NormalizeFilter(stats: Option<Stats>): (f: string)
    ensures stats.None? ==> f == SinglePassFilter()
    ensures stats.Some? ==> f == TwoPassFilter(stats.value)
  {
    match stats
    case None => SinglePassFilter()
    case Some(s) => TwoPassFilter(s)
  }

  /** The encoder arguments of `normalize_audio`. */
  function NormalizeArgs(input: string, output: string, stats: Option<Stats>): (args: seq<string>)
    ensures |args| == 11 && args[3] == input && args[5] == NormalizeFilter(stats) && args[10] == output
  {
    ["ffmpeg", "-y", "-i", input, "-af", NormalizeFilter(stats), "-c:a", "libmp3lame", "-q:a", "2", output]
  }

  /** `if stats: normalize_audio(..., stats) else normalize_audio(...)`:
      an analysis that failed or reported nothing falls back to one pass. */
  function ChosenStats(analysis: Option<Stats>): (s: Option<Stats>)
    ensures s.Some? <==> analysis.Some? && |analysis.value| > 0
    ensures s.Some? ==> s == analysis
  {
    if analysis.Some? && |analysis.value| > 0 then analysis else None
  }

  // ---------- Properties of the filters ----------

  lemma NotInConcat(a: string, b: string, c: char)
    requires c !in a && c !in b
    ensures c !in a + b
  {
    assert forall i :: 0 <= i < |a + b| ==> (a + b)[i] == if i < |a| then a[i] else b[i - |a|];
  }

  lemma TargetHasNoColon()
    ensures forall k :: 0 <= k < |Target| ==> ':' !in Target[k]
  {
  }

  /** No option carries a colon when no measured value does. */
  lemma OptionsHaveNoColon(stats: Stats)
    requires forall k :: 0 <= k < 5 ==> ':' !in MeasuredValues(stats)[k]
    ensures forall k :: 0 <= k < |Target + MeasuredOptions(stats)| ==> ':' !in (Target + MeasuredOptions(stats))[k]
  {
    var opts := MeasuredOptions(stats);
    TargetHasNoColon();
    forall k | 0 <= k < 5
      ensures ':' !in opts[k]
    {
      assert ':' !in MeasuredNames[k];
      NotInConcat(MeasuredNames[k], "=", ':');
      NotInConcat(MeasuredNames[k] + "=", MeasuredValues(stats)[k], ':');
    }
    assert ':' !in opts[5];
    var all := Target + opts;
    forall k | 0 <= k < |all|
      ensures ':' !in all[k]
    {
      if k < 3 {
        assert all[k] == Target[k];
      } else {
        assert all[k] == opts[k - 3];
      }
    }
  }

  /** The two-pass filter splits back into the target and the measured
      options, each value as the report gave it or its default, provided no
      value holds a colon (the filter's separator). */
  lemma TwoPassFilterFields(stats: Stats)
    requires forall k :: 0 <= k < 5 ==> ':' !in MeasuredValues(stats)[k]
    ensures Split(TwoPassFilter(stats), ':') == Target + MeasuredOptions(stats)
  {
    OptionsHaveNoColon(stats);
    SplitJoin(Target + MeasuredOptions(stats), ':');
  }

  /** Every pass aims at the same target: the analysis and two-pass filters
      start with the single-pass filter's options. */
  lemma PassesShareTarget(stats: Stats)
    requires forall k :: 0 <= k < 5 ==> ':' !in MeasuredValues(stats)[k]
    ensures Split(SinglePassFilter(), ':') == Target
    ensures |Split(AnalysisFilter(), ':')| >= 3 && Split(AnalysisFilter(), ':')[..3] == Target
    ensures |Split(TwoPassFilter(stats), ':')| >= 3 && Split(TwoPassFilter(stats), ':')[..3] == Target
  {
    TargetHasNoColon();
    SplitJoin(Target, ':');
    var analysis := Target + ["print_format=json"];
    forall k | 0 <= k < |analysis|
      ensures ':' !in analysis[k]
    {
      if k < 3 {
        assert analysis[k] == Target[k];
      }
    }
    SplitJoin(analysis, ':');
    assert analysis[..3] == Target;
    TwoPassFilterFields(stats);
    assert (Target + MeasuredOptions(stats))[..3] == Target;
  }

  /** A report with no fields is not used even though the two-pass filter
      would fall back to default values: the segment is normalised in one
      pass. */
  lemma EmptyReportIsSinglePass(input: string, output: string)
    ensures NormalizeArgs(input, output, ChosenStats(Some(map[])))[5] == SinglePassFilter()
  {
  }
}
