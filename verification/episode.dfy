/** The episode loops of the three generators, after parsing and before
    the encoder runs: the local generator's synthesis loop with its cache
    counters, its cache-verification scan and loudness re-normalisation
    pass, the serverless `generate_episode`, and the ZeRO episode loop.
    Each turns the parsed segments into timeline outcomes; clip durations
    (`get_audio_duration`), silence, concatenation and the encoder are
    parameters. */
module Episode {
  import opened Outcomes
  import opened ScriptParser
  import opened Timeline
  import opened CacheThrough
  import CacheKey
  import ObjectStore
  import Config
  import Decimal
  import Loudness
  import Strings

  /** `get_audio_duration` of a clip, in milliseconds. */
  type Duration = Bytes -> nat

  /** An outcome belongs to its segment: a break exactly for a PAUSE, and a
      clip only for speech, with that speech's speaker and text. */
  predicate Follows(o: Outcome, seg: Segment) {
    && (o.Break? <==> seg.Pause?)
    && (o.Spoken? ==> seg.Speech? && o.speaker == seg.speaker && o.text == seg.text)
  }

  // ---------- Local generator: synthesis loop of `main` ----------

  /** ERIC speaks with Eric's voice and every other speaker with Maya's. */
  function LocalVoice(s: Speaker): string {
    if s == Eric then Config.EricVoice else Config.MayaVoice
  }

  /** A cache-key derivation from (text, voice id). */
  type KeyFn = (string, string) -> string

  /** `get_cache_key`: the local generator's key derivation. */
  function LocalKeys(sha: Sha): (f: KeyFn)
    ensures forall t, v :: f(t, v) == CacheKey.LocalKey(sha, t, v)
  {
    (t, v) => CacheKey.LocalKey(sha, t, v)
  }

  /** The cache key of a speech segment. */
  function KeyOf(keys: KeyFn, seg: Segment): string
    requires seg.Speech?
  {
    keys(seg.text, LocalVoice(seg.speaker))
  }

  /** How the cache and output writes of each segment's miss go, by
      segment position. */
  type DiskFn = nat -> Disk

  /** Synthesis of `seg` succeeds and both writes of its miss complete. */
  predicate Produces(keys: KeyFn, synth: Synth, disk: Disk, seg: Segment)
    requires seg.Speech?
  {
    synth(seg.text, LocalVoice(seg.speaker)).Some? && disk == Healthy
  }

  /** The loop's state: one outcome per segment so far, the cache, and the
      `cache_hits` and `api_calls` counters. */
  datatype Run = Run(outs: seq<Outcome>, cache: LocalCache, hits: nat, calls: nat)

  /** One iteration of the loop: a PAUSE is a break; speech is a clip when
      `generate_audio_elevenlabs` succeeds, counted as a hit or a call by
      its status, and is dropped without counting when it fails. */
  function GenerateOne(cache: LocalCache, keys: KeyFn, synth: Synth, disk: Disk, dur: Duration, seg: Segment): (r: Run)
    ensures |r.outs| == 1 && Follows(r.outs[0], seg)
    ensures Extends(r.cache, cache)
    ensures r.hits + r.calls == (if r.outs[0].Spoken? then 1 else 0)
    ensures r.outs[0].Spoken? ==> KeyOf(keys, seg) in r.cache && r.outs[0].ms == dur(r.cache[KeyOf(keys, seg)])
    ensures r.outs[0].Dropped? ==>
      seg.Speech? && KeyOf(keys, seg) !in cache && !Produces(keys, synth, disk, seg)
    ensures r.hits == 1 <==> seg.Speech? && KeyOf(keys, seg) in cache
    ensures seg.Speech? ==> r.cache.Keys <= cache.Keys + {KeyOf(keys, seg)}
    ensures seg.Pause? ==> r.cache == cache
  {
    match seg
    case Pause => Run([Break], cache, 0, 0)
    case Speech(s, text) =>
      var step := GenerateAudioAt(cache, KeyOf(keys, seg), synth, disk, text, LocalVoice(s));
      if step.status.None? then Run([Dropped], step.cache, 0, 0)
      else
        var hit := step.status == Some(Cached);
        Run([Spoken(s, text, dur(step.output.value))], step.cache, if hit then 1 else 0, if hit then 0 else 1)
  }

  /** The state after the first `i` iterations has one outcome per
      segment, each belonging to its segment, and one count per clip. */
  ghost predicate Shaped(segs: seq<Segment>, i: nat, r: Run) {
    && i <= |segs| && |r.outs| == i
    && (forall k :: 0 <= k < i ==> Follows(r.outs[k], segs[k]))
    && r.hits + r.calls == |SpokenOf(r.outs)|
  }

  /** Each clip so far lasts as long as the audio cached under its key. */
  ghost predicate Timed(keys: KeyFn, dur: Duration, segs: seq<Segment>, i: nat, r: Run)
    requires Shaped(segs, i, r)
  {
    forall k :: 0 <= k < i && segs[k].Speech? && r.outs[k].Spoken? ==>
      KeyOf(keys, segs[k]) in r.cache && r.outs[k].ms == dur(r.cache[KeyOf(keys, segs[k])])
  }

  /** Each segment dropped so far was uncached at the start and failed to
      synthesise or to be written. */
  ghost predicate DroppedOnFailure(cache: LocalCache, keys: KeyFn, synth: Synth, disk: DiskFn, segs: seq<Segment>, i: nat, r: Run)
    requires Shaped(segs, i, r)
  {
    forall k :: 0 <= k < i && segs[k].Speech? && r.outs[k].Dropped? ==>
      KeyOf(keys, segs[k]) !in cache && !Produces(keys, synth, disk(k), segs[k])
  }

  /** Every key added so far is that of one of the first `i` segments. */
  ghost predicate WritesOwnKeys(cache: LocalCache, keys: KeyFn, segs: seq<Segment>, i: nat, r: Run)
    requires i <= |segs|
  {
    forall key :: key in r.cache && key !in cache ==>
      exists k :: 0 <= k < i && segs[k].Speech? && KeyOf(keys, segs[k]) == key
  }

  /** The state after one more iteration. */
  function Next(r: Run, one: Run): Run {
    Run(r.outs + one.outs, one.cache, r.hits + one.hits, r.calls + one.calls)
  }

  lemma ShapedStep(keys: KeyFn, synth: Synth, disk: DiskFn, dur: Duration, segs: seq<Segment>, i: nat, r: Run)
    requires Shaped(segs, i, r) && i < |segs|
    ensures Shaped(segs, i + 1, Next(r, GenerateOne(r.cache, keys, synth, disk(i), dur, segs[i])))
  {
    var one := GenerateOne(r.cache, keys, synth, disk(i), dur, segs[i]);
    var outs := r.outs + one.outs;
    assert outs[..i] == r.outs && outs[i] == one.outs[0];
    assert forall k :: 0 <= k < i ==> outs[k] == r.outs[k];
  }

  lemma TimedStep(keys: KeyFn, synth: Synth, disk: DiskFn, dur: Duration, segs: seq<Segment>, i: nat, r: Run)
    requires Shaped(segs, i, r) && i < |segs| && Timed(keys, dur, segs, i, r)
    ensures Shaped(segs, i + 1, Next(r, GenerateOne(r.cache, keys, synth, disk(i), dur, segs[i])))
    ensures Timed(keys, dur, segs, i + 1, Next(r, GenerateOne(r.cache, keys, synth, disk(i), dur, segs[i])))
  {
    ShapedStep(keys, synth, disk, dur, segs, i, r);
    var one := GenerateOne(r.cache, keys, synth, disk(i), dur, segs[i]);
    var r' := Next(r, one);
    assert forall k :: 0 <= k < i ==> r'.outs[k] == r.outs[k];
    assert r'.outs[i] == one.outs[0];
  }

  lemma DroppedStep(cache: LocalCache, keys: KeyFn, synth: Synth, disk: DiskFn, dur: Duration, segs: seq<Segment>, i: nat, r: Run)
    requires Shaped(segs, i, r) && i < |segs| && Extends(r.cache, cache)
    requires DroppedOnFailure(cache, keys, synth, disk, segs, i, r)
    ensures Shaped(segs, i + 1, Next(r, GenerateOne(r.cache, keys, synth, disk(i), dur, segs[i])))
    ensures DroppedOnFailure(cache, keys, synth, disk, segs, i + 1, Next(r, GenerateOne(r.cache, keys, synth, disk(i), dur, segs[i])))
  {
    ShapedStep(keys, synth, disk, dur, segs, i, r);
    var one := GenerateOne(r.cache, keys, synth, disk(i), dur, segs[i]);
    var r' := Next(r, one);
    forall k | 0 <= k < i + 1 && segs[k].Speech? && r'.outs[k].Dropped?
      ensures KeyOf(keys, segs[k]) !in cache && !Produces(keys, synth, disk(k), segs[k])
    {
      if k < i {
        assert r'.outs[k] == r.outs[k];
      } else {
        assert r'.outs[k] == one.outs[0];
      }
    }
  }

  lemma WritesStep(cache: LocalCache, keys: KeyFn, synth: Synth, disk: DiskFn, dur: Duration, segs: seq<Segment>, i: nat, r: Run)
    requires i < |segs| && WritesOwnKeys(cache, keys, segs, i, r)
    ensures WritesOwnKeys(cache, keys, segs, i + 1, Next(r, GenerateOne(r.cache, keys, synth, disk(i), dur, segs[i])))
  {
    var one := GenerateOne(r.cache, keys, synth, disk(i), dur, segs[i]);
    forall key | key in one.cache && key !in cache
      ensures exists k :: 0 <= k < i + 1 && segs[k].Speech? && KeyOf(keys, segs[k]) == key
    {
      if key !in r.cache {
        assert segs[i].Speech? && key == KeyOf(keys, segs[i]);
      }
    }
  }

  /** The synthesis loop of `main` over all segments, in order. Besides
      the shape of the timeline it guarantees that the cache only grows,
      that each clip's duration is that of the audio cached under its key,
      that a segment is dropped only when it was not cached and synthesis
      or a write failed, and that only speech segments' keys are written. */
  method GenerateAll(cache: LocalCache, keys: KeyFn, synth: Synth, disk: DiskFn, dur: Duration, segs: seq<Segment>) returns (r: Run)
    ensures |r.outs| == |segs|
    ensures forall k :: 0 <= k < |segs| ==> Follows(r.outs[k], segs[k])
    ensures r.hits + r.calls == |SpokenOf(r.outs)|
    ensures Extends(r.cache, cache)
    ensures forall k :: 0 <= k < |segs| && segs[k].Speech? && r.outs[k].Spoken? ==>
      KeyOf(keys, segs[k]) in r.cache && r.outs[k].ms == dur(r.cache[KeyOf(keys, segs[k])])
    ensures forall k :: 0 <= k < |segs| && segs[k].Speech? && r.outs[k].Dropped? ==>
      KeyOf(keys, segs[k]) !in cache && !Produces(keys, synth, disk(k), segs[k])
    ensures forall key :: key in r.cache && key !in cache ==>
      exists k :: 0 <= k < |segs| && segs[k].Speech? && KeyOf(keys, segs[k]) == key
  {
    r := Run([], cache, 0, 0);
    var i := 0;
    while i < |segs|
      invariant 0 <= i <= |segs|
      invariant Shaped(segs, i, r)
      invariant Extends(r.cache, cache)
      invariant Timed(keys, dur, segs, i, r)
      invariant DroppedOnFailure(cache, keys, synth, disk, segs, i, r)
      invariant WritesOwnKeys(cache, keys, segs, i, r)
    {
      TimedStep(keys, synth, disk, dur, segs, i, r);
      DroppedStep(cache, keys, synth, disk, dur, segs, i, r);
      WritesStep(cache, keys, synth, disk, dur, segs, i, r);
      r := Next(r, GenerateOne(r.cache, keys, synth, disk(i), dur, segs[i]));
      i := i + 1;
    }
  }

  // ---------- Temporary file names ----------

  /** `f"{stem}_{i:04d}.mp3"`. */
  function TempName(stem: string, i: nat): string {
    stem + "_" + Decimal.ZeroPad(i, 4) + ".mp3"
  }

  /** A segment's own audio, a clip or a break's silence, is written to
      `segment_NNNN.mp3`; the gap after a clip to `pause_NNNN.mp3`. */
  function FileName(p: Piece): string {
    match p
    case Clip(i) => TempName("segment", i)
    case Silence(i, ms) => if ms == GapMs then TempName("pause", i) else TempName("segment", i)
  }

  lemma TempNameInjective(stem: string, i: nat, j: nat)
    requires TempName(stem, i) == TempName(stem, j)
    ensures i == j
  {
    var a, b := Decimal.ZeroPad(i, 4), Decimal.ZeroPad(j, 4);
    var n := |stem| + 1;
    assert |a| == |b|;
    assert TempName(stem, i)[n..n + |a|] == a;
    assert TempName(stem, j)[n..n + |b|] == b;
  }

  lemma StemsDiffer(i: nat, j: nat)
    ensures TempName("segment", i) != TempName("pause", j)
  {
    assert TempName("segment", i)[0] == 's';
    assert TempName("pause", j)[0] == 'p';
  }

  /** Pieces come in segment order; two pieces share a segment only as a
      clip followed by its gap. */
  ghost predicate Ordered(ps: seq<Piece>) {
    forall a, b :: 0 <= a < b < |ps| ==>
      ps[a].index < ps[b].index || (ps[a].Clip? && ps[b] == Silence(ps[a].index, GapMs))
  }

  lemma {:induction false} PiecesOrdered(outs: seq<Outcome>)
    ensures forall j :: 0 <= j < |Pieces(outs)| ==> Pieces(outs)[j].index < |outs|
    ensures Ordered(Pieces(outs))
    decreases |outs|
  {
    if |outs| > 0 {
      var n := |outs| - 1;
      PiecesOrdered(outs[..n]);
      var front, last := Pieces(outs[..n]), PiecesAt(n, outs[n]);
      assert Pieces(outs) == front + last;
      assert forall j :: 0 <= j < |last| ==> last[j].index == n;
      forall a, b | 0 <= a < b < |front + last|
        ensures (front + last)[a].index < (front + last)[b].index
          || ((front + last)[a].Clip? && (front + last)[b] == Silence((front + last)[a].index, GapMs))
      {
        if b < |front| {
          assert (front + last)[a] == front[a] && (front + last)[b] == front[b];
        } else if a < |front| {
          assert (front + last)[a] == front[a] && (front + last)[b] == last[b - |front|];
        } else {
          assert (front + last)[a] == last[a - |front|] && (front + last)[b] == last[b - |front|];
        }
      }
    }
  }

  /** No two pieces of a timeline are written to the same file, so the
      concatenation list names every piece once. */
  lemma FileNamesDistinct(outs: seq<Outcome>)
    ensures forall a, b :: 0 <= a < b < |Pieces(outs)| ==> FileName(Pieces(outs)[a]) != FileName(Pieces(outs)[b])
  {
    var ps := Pieces(outs);
    PiecesOrdered(outs);
    forall a, b | 0 <= a < b < |ps|
      ensures FileName(ps[a]) != FileName(ps[b])
    {
      var p, q := ps[a], ps[b];
      if p.index == q.index {
        StemsDiffer(p.index, q.index);
      } else {
        if FileName(p) == FileName(q) {
          var sp := if p.Silence? && p.ms == GapMs then "pause" else "segment";
          var sq := if q.Silence? && q.ms == GapMs then "pause" else "segment";
          assert FileName(p) == TempName(sp, p.index) && FileName(q) == TempName(sq, q.index);
          if sp == sq {
            TempNameInjective(sp, p.index, q.index);
          } else if sp == "segment" {
            StemsDiffer(p.index, q.index);
          } else {
            StemsDiffer(q.index, p.index);
          }
        }
      }
    }
  }

  // ---------- Local generator: `normalize_and_reassemble` ----------

  /** One entry of the verification scan's report: the segment's index,
      its speaker, and the first 50 characters of its text. */
  datatype Missing = Missing(index: nat, speaker: Speaker, excerpt: string)

  /** `text[:50]`. */
  function Excerpt(text: string): (e: string)
    ensures |e| == if |text| < 50 then |text| else 50
    ensures e == text[..|e|]
  {
    if |text| <= 50 then text else text[..50]
  }

  /** A segment the scan reports: ERIC or MAYA speech whose audio is not
      in the cache. */
  predicate IsMissing(cache: LocalCache, keys: KeyFn, seg: Segment) {
    seg.Speech? && seg.speaker in Speakers(Strollcast) && KeyOf(keys, seg) !in cache
  }

  function Indices(m: seq<Missing>): set<nat> {
    set j | 0 <= j < |m| :: m[j].index
  }

  /** The verification scan: every missing segment, in index order, with
      its speaker and excerpt; nothing else. */
  function MissingFrom(cache: LocalCache, keys: KeyFn, segs: seq<Segment>): (m: seq<Missing>)
    ensures forall j :: 0 <= j < |m| ==>
      var k := m[j].index;
      k < |segs| && IsMissing(cache, keys, segs[k])
      && m[j].speaker == segs[k].speaker && m[j].excerpt == Excerpt(segs[k].text)
    ensures forall a, b :: 0 <= a < b < |m| ==> m[a].index < m[b].index
    ensures forall k :: 0 <= k < |segs| ==> (k in Indices(m) <==> IsMissing(cache, keys, segs[k]))
    decreases |segs|
  {
    if |segs| == 0 then []
    else
      var n := |segs| - 1;
      var front := MissingFrom(cache, keys, segs[..n]);
      var last := if IsMissing(cache, keys, segs[n]) then [Missing(n, segs[n].speaker, Excerpt(segs[n].text))] else [];
      MissingSnoc(cache, keys, segs, front);
      front + last
  }

  /** The scan's report grows by the last segment when it is missing. */
  lemma MissingSnoc(cache: LocalCache, keys: KeyFn, segs: seq<Segment>, front: seq<Missing>)
    requires |segs| > 0
    requires var n := |segs| - 1;
      && (forall j :: 0 <= j < |front| ==>
            var k := front[j].index;
            k < n && IsMissing(cache, keys, segs[..n][k])
            && front[j].speaker == segs[..n][k].speaker && front[j].excerpt == Excerpt(segs[..n][k].text))
      && (forall a, b :: 0 <= a < b < |front| ==> front[a].index < front[b].index)
      && (forall k :: 0 <= k < n ==> (k in Indices(front) <==> IsMissing(cache, keys, segs[..n][k])))
    ensures var n := |segs| - 1;
      var m := front + (if IsMissing(cache, keys, segs[n]) then [Missing(n, segs[n].speaker, Excerpt(segs[n].text))] else []);
      && (forall j :: 0 <= j < |m| ==>
            var k := m[j].index;
            k < |segs| && IsMissing(cache, keys, segs[k])
            && m[j].speaker == segs[k].speaker && m[j].excerpt == Excerpt(segs[k].text))
      && (forall a, b :: 0 <= a < b < |m| ==> m[a].index < m[b].index)
      && (forall k :: 0 <= k < |segs| ==> (k in Indices(m) <==> IsMissing(cache, keys, segs[k])))
  {
    var n := |segs| - 1;
    var last := if IsMissing(cache, keys, segs[n]) then [Missing(n, segs[n].speaker, Excerpt(segs[n].text))] else [];
    var m := front + last;
    assert forall k :: 0 <= k < n ==> segs[..n][k] == segs[k];
    IndicesAppend(front, last);
    if |last| > 0 {
      IndicesSingle(last[0]);
    } else {
      assert Indices(last) == {};
    }
    assert n !in Indices(front);
    forall j | 0 <= j < |m|
      ensures var k := m[j].index;
        k < |segs| && IsMissing(cache, keys, segs[k])
        && m[j].speaker == segs[k].speaker && m[j].excerpt == Excerpt(segs[k].text)
    {
      if j < |front| {
        assert m[j] == front[j];
      } else {
        assert m[j] == last[0];
      }
    }
    forall a, b | 0 <= a < b < |m|
      ensures m[a].index < m[b].index
    {
      if b < |front| {
        assert m[a] == front[a] && m[b] == front[b];
      } else {
        assert m[a] == front[a] && m[b] == last[0];
      }
    }
  }

  lemma IndicesSingle(x: Missing)
    ensures Indices([x]) == {x.index}
  {
    assert [x][0] == x;
  }

  lemma IndicesAppend(a: seq<Missing>, b: seq<Missing>)
    ensures Indices(a + b) == Indices(a) + Indices(b)
  {
    forall x | x in Indices(a + b)
      ensures x in Indices(a) + Indices(b)
    {
      var j :| 0 <= j < |a + b| && (a + b)[j].index == x;
      if j >= |a| {
        assert b[j - |a|].index == x;
      }
    }
    forall x | x in Indices(b)
      ensures x in Indices(a + b)
    {
      var j :| 0 <= j < |b| && b[j].index == x;
      assert (a + b)[|a| + j] == b[j];
    }
    forall x | x in Indices(a)
      ensures x in Indices(a + b)
    {
      var j :| 0 <= j < |a| && a[j].index == x;
      assert (a + b)[j] == a[j];
    }
  }

  /** The external audio tools of the loudness pass: the analyser's
      diagnostic output for a clip, `json.loads` of a report, and the
      encoder run with a given filter. */
  datatype Encoder = Encoder(analyze: Bytes -> string, loads: string -> Option<Loudness.Stats>,
                             encode: (Bytes, string) -> Bytes)

  /** The filter `normalize_and_reassemble` applies to one cached clip:
      two-pass with the analyser's report when it produced one with fields,
      single-pass otherwise. */
  function FilterFor(enc: Encoder, audio: Bytes): (f: string)
    ensures var report := Loudness.AnalyzeLoudness(enc.analyze(audio), enc.loads);
      && (report.Some? && |report.value| > 0 ==> f == Loudness.TwoPassFilter(report.value))
      && (report.None? || |report.value| == 0 ==> f == Loudness.SinglePassFilter())
  {
    Loudness.NormalizeFilter(Loudness.ChosenStats(Loudness.AnalyzeLoudness(enc.analyze(audio), enc.loads)))
  }

  /** Only ERIC and MAYA speak in a Strollcast script. */
  ghost predicate StrollcastSpeech(segs: seq<Segment>) {
    forall k :: 0 <= k < |segs| && segs[k].Speech? ==> segs[k].speaker in Speakers(Strollcast)
  }

  lemma ParsedScriptIsStrollcastSpeech(content: string)
    ensures StrollcastSpeech(ParsePodcastScript(content))
  {
    var segs := ParsePodcastScript(content);
    ParseLinesWellFormed(Strings.Split(content, '\n'), Strollcast);
    forall k | 0 <= k < |segs| && segs[k].Speech?
      ensures segs[k].speaker in Speakers(Strollcast)
    {
      assert WellFormed(segs[k], Strollcast);
    }
  }

  /** One segment of the loudness pass, once the scan found its audio. */
  function NormalizeOne(cache: LocalCache, keys: KeyFn, enc: Encoder, dur: Duration, seg: Segment): (o: Outcome)
    requires seg.Speech? ==> KeyOf(keys, seg) in cache
    ensures Follows(o, seg) && !o.Dropped?
    ensures seg.Speech? ==>
      var audio := cache[KeyOf(keys, seg)];
      o.ms == dur(enc.encode(audio, FilterFor(enc, audio)))
  {
    match seg
    case Pause => Break
    case Speech(s, text) =>
      var audio := cache[KeyOf(keys, seg)];
      Spoken(s, text, dur(enc.encode(audio, FilterFor(enc, audio))))
  }

  /** The loudness pass over segments whose audio is all cached. */
  function NormalizeAll(cache: LocalCache, keys: KeyFn, enc: Encoder, dur: Duration, segs: seq<Segment>)
    : (outs: seq<Outcome>)
    requires forall k :: 0 <= k < |segs| && segs[k].Speech? ==> KeyOf(keys, segs[k]) in cache
    ensures |outs| == |segs|
    ensures forall k :: 0 <= k < |segs| ==> Follows(outs[k], segs[k]) && !outs[k].Dropped?
    ensures forall k :: 0 <= k < |segs| && segs[k].Speech? ==>
      outs[k].Spoken? && outs[k].ms == dur(enc.encode(cache[KeyOf(keys, segs[k])], FilterFor(enc, cache[KeyOf(keys, segs[k])])))
  {
    seq(|segs|, k requires 0 <= k < |segs| => NormalizeOne(cache, keys, enc, dur, segs[k]))
  }

  /** The scan reports nothing exactly when no ERIC or MAYA segment is
      missing, and then every clip of a Strollcast script is cached. */
  lemma ScanEmptyIffCached(cache: LocalCache, keys: KeyFn, segs: seq<Segment>)
    requires StrollcastSpeech(segs)
    ensures |MissingFrom(cache, keys, segs)| == 0 <==> forall k :: 0 <= k < |segs| ==> !IsMissing(cache, keys, segs[k])
    ensures |MissingFrom(cache, keys, segs)| == 0 ==>
      forall k :: 0 <= k < |segs| && segs[k].Speech? ==> KeyOf(keys, segs[k]) in cache
  {
    var m := MissingFrom(cache, keys, segs);
    if |m| > 0 {
      assert m[0].index in Indices(m);
    }
  }

  /** `normalize_and_reassemble` up to the concatenation: when the scan
      reports anything the command stops with that report before touching
      any audio; otherwise every clip is re-encoded from the cache and
      timed after normalisation. */
  function NormalizePass(cache: LocalCache, keys: KeyFn, enc: Encoder, dur: Duration, segs: seq<Segment>)
    : (r: Result<seq<Outcome>, seq<Missing>>)
    requires StrollcastSpeech(segs)
    ensures r.Err? <==> exists k :: 0 <= k < |segs| && IsMissing(cache, keys, segs[k])
    ensures r.Err? ==> r.error == MissingFrom(cache, keys, segs)
    ensures r.Ok? ==> r.value == NormalizeAll(cache, keys, enc, dur, segs)
  {
    var missing := MissingFrom(cache, keys, segs);
    ScanEmptyIffCached(cache, keys, segs);
    if |missing| > 0 then Err(missing) else Ok(NormalizeAll(cache, keys, enc, dur, segs))
  }

  /** A synthesis run followed by `--normalize` on the cache it leaves: the
      scan reports exactly segments the run dropped, so a run that dropped
      nothing lets normalisation through, with a clip wherever the run had
      one. */
  method GenerateThenNormalize(cache: LocalCache, keys: KeyFn, synth: Synth, disk: DiskFn, dur: Duration, enc: Encoder,
                               segs: seq<Segment>) returns (run: Run, pass: Result<seq<Outcome>, seq<Missing>>)
    requires StrollcastSpeech(segs)
    ensures |run.outs| == |segs|
    ensures pass.Err? ==> forall j :: 0 <= j < |pass.error| ==>
      pass.error[j].index < |segs| && run.outs[pass.error[j].index].Dropped?
    ensures (forall k :: 0 <= k < |segs| ==> !run.outs[k].Dropped?) ==> pass.Ok?
    ensures pass.Ok? ==> |pass.value| == |segs|
    ensures pass.Ok? ==> forall k :: 0 <= k < |segs| && run.outs[k].Spoken? ==> pass.value[k].Spoken?
  {
    run := GenerateAll(cache, keys, synth, disk, dur, segs);
    pass := NormalizePass(run.cache, keys, enc, dur, segs);
    if pass.Err? {
      forall j | 0 <= j < |pass.error|
        ensures pass.error[j].index < |segs| && run.outs[pass.error[j].index].Dropped?
      {
        var k := pass.error[j].index;
        assert Follows(run.outs[k], segs[k]);
      }
    }
    if forall k :: 0 <= k < |segs| ==> !run.outs[k].Dropped? {
      forall k | 0 <= k < |segs|
        ensures !IsMissing(run.cache, keys, segs[k])
      {
        assert Follows(run.outs[k], segs[k]);
      }
    }
  }

  /** Outcomes that follow their segments have one break per PAUSE. */
  lemma {:induction false} BreaksArePauses(outs: seq<Outcome>, segs: seq<Segment>)
    requires |outs| == |segs|
    requires forall k :: 0 <= k < |segs| ==> Follows(outs[k], segs[k])
    ensures Breaks(outs) == CountPauses(segs)
    decreases |segs|
  {
    if |segs| > 0 {
      var n := |segs| - 1;
      BreaksArePauses(outs[..n], segs[..n]);
      CountPausesAppend(segs[..n], [segs[n]]);
      assert segs[..n] + [segs[n]] == segs;
      assert Follows(outs[n], segs[n]);
    }
  }

  // ---------- ZeRO episode generator: loop of `main` ----------

  /** ALEX speaks with Alex's voice and every other speaker with Maya's. */
  function ZeroVoice(s: Speaker): string {
    if s == Alex then Config.AlexVoice else Config.MayaVoice
  }

  /** The ZeRO generator's `generate_audio_elevenlabs`: whether the clip
      for (text, voice) was written. It keeps no cache. */
  type ZeroSynth = (string, string) -> bool

  /** The ZeRO generator does not time its clips; a clip carries 0 ms. */
  function ZeroOutcome(ok: ZeroSynth, seg: Segment): (o: Outcome)
    ensures Follows(o, seg)
    ensures o.Spoken? <==> seg.Speech? && ok(seg.text, ZeroVoice(seg.speaker))
  {
    match seg
    case Pause => Break
    case Speech(s, text) => if ok(text, ZeroVoice(s)) then Spoken(s, text, 0) else Dropped
  }

  function ZeroOutcomes(ok: ZeroSynth, segs: seq<Segment>): (outs: seq<Outcome>)
    ensures |outs| == |segs|
    ensures forall k :: 0 <= k < |segs| ==> outs[k] == ZeroOutcome(ok, segs[k])
  {
    seq(|segs|, k requires 0 <= k < |segs| => ZeroOutcome(ok, segs[k]))
  }

  /** `audio_files` of the ZeRO generator: one file per PAUSE, two per
      clip that was written, none for a failed one, and never the same
      file twice. */
  function ZeroAudioFiles(ok: ZeroSynth, segs: seq<Segment>): (files: seq<string>)
    ensures |files| == CountPauses(segs) + 2 * |SpokenOf(ZeroOutcomes(ok, segs))|
    ensures forall a, b :: 0 <= a < b < |files| ==> files[a] != files[b]
  {
    var outs := ZeroOutcomes(ok, segs);
    var ps := Pieces(outs);
    PiecesCount(outs);
    BreaksArePauses(outs, segs);
    FileNamesDistinct(outs);
    seq(|ps|, j requires 0 <= j < |ps| => FileName(ps[j]))
  }
}
