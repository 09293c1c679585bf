/** The serverless generator's `generate_episode`: parse the script, walk
    the segments producing each clip through the shared segment cache,
    keep the cache-hit and synthesis counters, time the clips, render the
    transcript and publish the episode and the transcript. Durations,
    silence and concatenation are the audio helpers' business and are
    parameters here. */
module Serverless {
  import opened Outcomes
  import opened ScriptParser
  import opened Timeline
  import opened CacheThrough
  import opened Strings
  import CacheKey
  import ObjectStore
  import Identifiers
  import WebVtt
  import Utf8
  import Episode
  import Config

  /** The services `generate_episode` reaches: SHA-256, synthesis, the
      segment normaliser, the store's failures (on `generate_segment`'s
      read, on its write, and on the separate read `generate_episode` makes
      for its statistics), clip durations, silence of a given length and
      concatenation of audio parts. */
  datatype Services = Services(sha: Sha, synth: Synth, normalize: Normalizer, faults: ObjectStore.Faults, puts: ObjectStore.Faults,
                               statFaults: ObjectStore.Faults,
                               dur: Episode.Duration, silence: nat -> Bytes, concat: seq<Bytes> -> Bytes)

  // ---------- Counting a cache hit ----------

  /** `was_cached = get_cached_segment(cache_key) is not None` as written:
      any stored object counts, even an empty one. */
  predicate WasCachedAsWritten(got: Option<Bytes>) {
    got.Some?
  }

  /** The count that matches what `generate_segment` then does: only an
      object it will serve, a non-empty one, is a hit. */
  predicate WasCached(got: Option<Bytes>) {
    Usable(got)
  }

  /** The cache key and the lookup `generate_episode` makes before calling
      `generate_segment`: a request of its own, answered by the service on
      its own terms, on a store the segment call then sees unchanged. */
  function Lookup(store: ObjectStore.Store, sv: Services, text: string, voice: string): Result<Option<Bytes>, string> {
    ObjectStore.GetCachedSegment(store, sv.statFaults, CacheKey.ServerlessKey(sv.sha, text, voice))
  }

  function Generate(store: ObjectStore.Store, sv: Services, text: string, speaker: Speaker): Result<SegmentStep, Failure> {
    GenerateSegment(store, sv.faults, sv.puts, sv.sha, sv.synth, sv.normalize, text, speaker)
  }

  /** As written, an empty object left in the cache counts as a hit although
      `generate_segment` ignores it and calls the synthesis service. */
  lemma EmptyObjectCountedAsHit(store: ObjectStore.Store, sv: Services, text: string)
    requires var id := ObjectStore.SegmentId(CacheKey.ServerlessKey(sv.sha, text, Config.EricVoice));
      sv.faults(id).None? && sv.statFaults(id).None? && id in store && store[id] == []
    requires sv.synth(text, Config.EricVoice).Some? && sv.normalize(sv.synth(text, Config.EricVoice).value).Some?
    requires sv.puts(ObjectStore.SegmentId(CacheKey.ServerlessKey(sv.sha, text, Config.EricVoice))).None?
    ensures Lookup(store, sv, text, Config.EricVoice).Ok?
    ensures WasCachedAsWritten(Lookup(store, sv, text, Config.EricVoice).value)
    ensures Generate(store, sv, text, Eric).Ok? && Generate(store, sv, text, Eric).value.synthesised
  {
    assert VoiceOf(Eric) == Ok(Config.EricVoice);
  }

  /** With the corrected count a segment is a hit exactly when no synthesis
      happens for it, as long as neither read reports a stored object as
      missing. */
  lemma WasCachedMeansNotSynthesised(store: ObjectStore.Store, sv: Services, text: string, speaker: Speaker)
    requires ObjectStore.Genuine(sv.faults) && ObjectStore.Genuine(sv.statFaults)
    requires VoiceOf(speaker).Ok? && Lookup(store, sv, text, VoiceOf(speaker).value).Ok?
    requires Generate(store, sv, text, speaker).Ok?
    ensures WasCached(Lookup(store, sv, text, VoiceOf(speaker).value).value)
      <==> !Generate(store, sv, text, speaker).value.synthesised
  {
    var id := ObjectStore.SegmentId(CacheKey.ServerlessKey(sv.sha, text, VoiceOf(speaker).value));
    assert sv.faults(id) != Some(ObjectStore.NoSuchKey) && sv.statFaults(id) != Some(ObjectStore.NoSuchKey);
  }

  /** The voice is known and the statistics lookup answers. */
  predicate Looked(store: ObjectStore.Store, sv: Services, text: string, speaker: Speaker) {
    VoiceOf(speaker).Ok? && Lookup(store, sv, text, VoiceOf(speaker).value).Ok?
  }

  // ---------- The segment loop ----------

  /** The loop's state: one outcome per segment so far, the audio parts in
      order, the store, and the `cache_hits` and `api_calls` counters. */
  datatype Progress = Progress(outs: seq<Outcome>, parts: seq<Bytes>, store: ObjectStore.Store, hits: nat, calls: nat)

  /** One speech segment: the voice lookup and the statistics lookup, which
      raise before anything else happens, then `generate_segment`. */
  function Speak(store: ObjectStore.Store, sv: Services, text: string, speaker: Speaker)
    : (r: Result<(SegmentStep, bool), Failure>)
    ensures r.Ok? <==> Looked(store, sv, text, speaker) && Generate(store, sv, text, speaker).Ok?
    ensures r.Err? && VoiceOf(speaker).Ok? && !Looked(store, sv, text, speaker) ==>
      r.error == StoreFailure(Lookup(store, sv, text, VoiceOf(speaker).value).error)
    ensures r.Err? && (VoiceOf(speaker).Err? || Looked(store, sv, text, speaker)) ==>
      r.error == Generate(store, sv, text, speaker).error
    ensures r.Ok? ==> r.value.0 == Generate(store, sv, text, speaker).value
    ensures r.Ok? ==> (r.value.1 <==> WasCached(Lookup(store, sv, text, VoiceOf(speaker).value).value))
    ensures r.Ok? && ObjectStore.Genuine(sv.faults) && ObjectStore.Genuine(sv.statFaults) ==>
      (r.value.1 <==> !r.value.0.synthesised)
  {
    match VoiceOf(speaker)
    case Err(e) => Err(e)
    case Ok(voice) =>
      match Lookup(store, sv, text, voice)
      case Err(code) => Err(StoreFailure(code))
      case Ok(got) =>
        match Generate(store, sv, text, speaker)
        case Err(e) => Err(e)
        case Ok(step) =>
          CountAgrees(store, sv, text, speaker);
          Ok((step, WasCached(got)))
  }

  /** `WasCachedMeansNotSynthesised` for whatever reads and services. */
  lemma CountAgrees(store: ObjectStore.Store, sv: Services, text: string, speaker: Speaker)
    ensures ObjectStore.Genuine(sv.faults) && ObjectStore.Genuine(sv.statFaults)
            && Looked(store, sv, text, speaker) && Generate(store, sv, text, speaker).Ok? ==>
      (WasCached(Lookup(store, sv, text, VoiceOf(speaker).value).value)
       <==> !Generate(store, sv, text, speaker).value.synthesised)
  {
    if ObjectStore.Genuine(sv.faults) && ObjectStore.Genuine(sv.statFaults)
       && Looked(store, sv, text, speaker) && Generate(store, sv, text, speaker).Ok? {
      WasCachedMeansNotSynthesised(store, sv, text, speaker);
    }
  }

  /** One iteration: a PAUSE adds 800 ms of silence; speech adds its clip,
      timed, and 300 ms of silence, and is counted; a failure ends the
      episode. */
  function Advance(p: Progress, sv: Services, seg: Segment): (r: Result<Progress, Failure>)
    ensures seg.Pause? ==> r.Ok?
    ensures seg.Speech? ==>
      (r.Ok? <==> Looked(p.store, sv, seg.text, seg.speaker) && Generate(p.store, sv, seg.text, seg.speaker).Ok?)
    ensures r.Ok? ==> StepsTo(p, r.value, sv, seg)
  {
    match seg
    case Pause => Ok(Progress(p.outs + [Break], p.parts + [sv.silence(PauseMs)], p.store, p.hits, p.calls))
    case Speech(s, text) =>
      match Speak(p.store, sv, text, s)
      case Err(e) => Err(e)
      case Ok((step, hit)) =>
        Ok(Progress(p.outs + [Spoken(s, text, sv.dur(step.audio))], p.parts + [step.audio, sv.silence(GapMs)],
                    step.store, p.hits + (if hit then 1 else 0), p.calls + (if hit then 0 else 1)))
  }

  /** `q` is `p` after one more segment: the shape of the step, and for
      speech the audio and the store `generate_segment` produced. */
  ghost predicate StepsTo(p: Progress, q: Progress, sv: Services, seg: Segment) {
    GrowsBy(p, q, sv, seg) && Sourced(p, q, sv, seg)
  }

  /** One more outcome, following the segment and not dropped, one more
      count for speech, and the parts that outcome adds: silence for a
      pause, a clip part as long as its timing and a gap for speech. */
  ghost predicate GrowsBy(p: Progress, q: Progress, sv: Services, seg: Segment) {
    var n := |p.outs|;
    && |q.outs| == n + 1 && q.outs[..n] == p.outs
    && Episode.Follows(q.outs[n], seg) && !q.outs[n].Dropped?
    && q.hits + q.calls == p.hits + p.calls + (if seg.Speech? then 1 else 0)
    && (seg.Pause? ==> q.parts == p.parts + [sv.silence(PauseMs)])
    && (seg.Speech? ==>
          && |q.parts| == |p.parts| + 2 && q.parts[..|p.parts|] == p.parts
          && sv.dur(q.parts[|p.parts|]) == q.outs[n].ms && q.parts[|p.parts| + 1] == sv.silence(GapMs))
  }

  /** A pause keeps the store; speech adds the audio `generate_segment`
      returned and leaves the store that call left. */
  ghost predicate Sourced(p: Progress, q: Progress, sv: Services, seg: Segment) {
    && (seg.Pause? ==> q.store == p.store)
    && (seg.Speech? ==>
          && |q.parts| > |p.parts|
          && Generate(p.store, sv, seg.text, seg.speaker).Ok?
          && q.parts[|p.parts|] == Generate(p.store, sv, seg.text, seg.speaker).value.audio
          && q.store == Generate(p.store, sv, seg.text, seg.speaker).value.store)
  }

  /** Where the loop stopped: the failure and the store as it stood, since
      a failing `generate_segment` writes nothing. */
  datatype Stopped = Stopped(failure: Failure, store: ObjectStore.Store)

  /** The loop's state before the first segment. */
  function Start(store: ObjectStore.Store): Progress {
    Progress([], [], store, 0, 0)
  }

  /** The loop from segment `i` on, from state `p`, one `Advance` at a
      time: the state after the last segment, or the first failure. Only a
      speech segment can fail, and a run that completes adds one outcome
      per segment. */
  function RunFrom(p: Progress, sv: Services, segs: seq<Segment>, i: nat): (r: Result<Progress, Stopped>)
    requires i <= |segs|
    ensures r.Ok? ==> |r.value.outs| == |p.outs| + |segs| - i
    ensures r.Err? ==> exists k :: i <= k < |segs| && segs[k].Speech?
    decreases |segs| - i
  {
    if i == |segs| then Ok(p)
    else match Advance(p, sv, segs[i])
      case Err(e) => Err(Stopped(e, p.store))
      case Ok(q) => RunFrom(q, sv, segs, i + 1)
  }

  /** After `i` segments: one outcome each, none dropped, one count per
      clip. */
  ghost predicate Counted(segs: seq<Segment>, i: nat, p: Progress) {
    && i <= |segs| && |p.outs| == i
    && (forall k :: 0 <= k < i ==> Episode.Follows(p.outs[k], segs[k]) && !p.outs[k].Dropped?)
    && p.hits + p.calls == |SpokenOf(p.outs)|
  }

  /** A part fits its piece of the timeline: a silence of the piece's
      length, or audio as long as the clip it times. */
  ghost predicate Fits(sv: Services, outs: seq<Outcome>, piece: Piece, part: Bytes) {
    match piece
    case Silence(_, ms) => part == sv.silence(ms)
    case Clip(i) => i < |outs| && outs[i].Spoken? && sv.dur(part) == outs[i].ms
  }

  /** The audio parts are the timeline's pieces, in order. */
  ghost predicate Laid(sv: Services, p: Progress) {
    && |p.parts| == |Pieces(p.outs)|
    && forall j :: 0 <= j < |p.parts| ==> Fits(sv, p.outs, Pieces(p.outs)[j], p.parts[j])
  }

  lemma PiecesSnoc(outs: seq<Outcome>, o: Outcome)
    ensures Pieces(outs + [o]) == Pieces(outs) + PiecesAt(|outs|, o)
    ensures SpokenOf(outs + [o]) == SpokenOf(outs) + (if o.Spoken? then [o] else [])
  {
    assert (outs + [o])[..|outs|] == outs;
  }

  lemma SpokenSnoc(outs: seq<Outcome>, o: Outcome)
    ensures SpokenOf(outs + [o]) == SpokenOf(outs) + SpokenAt(o)
  {
    assert (outs + [o])[..|outs|] == outs;
  }

  lemma CountedStep(p: Progress, q: Progress, sv: Services, segs: seq<Segment>, i: nat)
    requires Counted(segs, i, p) && i < |segs| && GrowsBy(p, q, sv, segs[i])
    ensures Counted(segs, i + 1, q)
  {
    var o := q.outs[i];
    assert q.outs == p.outs + [o];
    SpokenSnoc(p.outs, o);
    assert |SpokenOf(q.outs)| == |SpokenOf(p.outs)| + (if segs[i].Speech? then 1 else 0);
    forall k | 0 <= k < i + 1
      ensures Episode.Follows(q.outs[k], segs[k]) && !q.outs[k].Dropped?
    {
      if k < i {
        assert q.outs[k] == p.outs[k];
      }
    }
  }

  lemma LaidStep(p: Progress, q: Progress, sv: Services, segs: seq<Segment>, i: nat)
    requires Counted(segs, i, p) && Laid(sv, p) && i < |segs| && GrowsBy(p, q, sv, segs[i])
    ensures Laid(sv, q)
  {
    var o := q.outs[i];
    assert q.outs == p.outs + [o];
    PiecesSnoc(p.outs, o);
    var before, added := Pieces(p.outs), PiecesAt(i, o);
    var extra := q.parts[|p.parts|..];
    assert q.parts == p.parts + extra;
    assert |extra| == |added|;
    forall j | 0 <= j < |q.parts|
      ensures Fits(sv, q.outs, Pieces(q.outs)[j], q.parts[j])
    {
      if j < |p.parts| {
        assert Pieces(q.outs)[j] == before[j] && q.parts[j] == p.parts[j];
        assert Fits(sv, p.outs, before[j], p.parts[j]);
        if before[j].Clip? {
          assert q.outs[before[j].index] == p.outs[before[j].index];
        }
      } else {
        assert Pieces(q.outs)[j] == added[j - |p.parts|] && q.parts[j] == extra[j - |p.parts|];
      }
    }
  }

  /** The loop of `generate_episode` over the parsed segments: it is the
      step-by-step run, so it stops at the first failure; otherwise it has
      a clip for every speech segment, one count per clip, and the audio
      parts in timeline order, every silence of its length and every clip
      part as long as its timing. */
  method GenerateSegments(store: ObjectStore.Store, sv: Services, segs: seq<Segment>) returns (r: Result<Progress, Stopped>)
    ensures r == RunFrom(Start(store), sv, segs, 0)
    ensures r.Ok? ==> |r.value.outs| == |segs|
    ensures r.Ok? ==> forall k :: 0 <= k < |segs| ==>
      Episode.Follows(r.value.outs[k], segs[k]) && !r.value.outs[k].Dropped?
    ensures r.Ok? ==> r.value.hits + r.value.calls == |SpokenOf(r.value.outs)|
    ensures r.Ok? ==> |r.value.parts| == |Pieces(r.value.outs)|
    ensures r.Ok? ==> forall j :: 0 <= j < |r.value.parts| ==>
      Fits(sv, r.value.outs, Pieces(r.value.outs)[j], r.value.parts[j])
  {
    var p := Start(store);
    var i := 0;
    while i < |segs|
      invariant Counted(segs, i, p)
      invariant Laid(sv, p)
      invariant RunFrom(p, sv, segs, i) == RunFrom(Start(store), sv, segs, 0)
    {
      var next := Advance(p, sv, segs[i]);
      if next.Err? {
        return Err(Stopped(next.error, p.store));
      }
      CountedStep(p, next.value, sv, segs, i);
      LaidStep(p, next.value, sv, segs, i);
      p := next.value;
      i := i + 1;
    }
    r := Ok(p);
  }

  /** With no segment dropped, every segment is a break or a clip. */
  lemma {:induction false} BreaksAndClips(outs: seq<Outcome>)
    requires forall k :: 0 <= k < |outs| ==> !outs[k].Dropped?
    ensures Breaks(outs) + |SpokenOf(outs)| == |outs|
    decreases |outs|
  {
    if |outs| > 0 {
      var n := |outs| - 1;
      BreaksAndClips(outs[..n]);
      assert outs == outs[..n] + [outs[n]];
      PiecesSnoc(outs[..n], outs[n]);
    }
  }

  /** Every clip of the timeline is one of its outcomes. */
  lemma {:induction false} SpokenAreOutcomes(outs: seq<Outcome>)
    ensures forall k :: 0 <= k < |SpokenOf(outs)| ==> SpokenOf(outs)[k] in outs
    decreases |outs|
  {
    if |outs| > 0 {
      var n := |outs| - 1;
      SpokenAreOutcomes(outs[..n]);
      assert outs == outs[..n] + [outs[n]];
      PiecesSnoc(outs[..n], outs[n]);
      var front := SpokenOf(outs[..n]);
      var all := SpokenOf(outs);
      forall k | 0 <= k < |all|
        ensures all[k] in outs
      {
        if k < |front| {
          assert all[k] == front[k] && front[k] in outs[..n];
        } else {
          assert all[k] == outs[n];
        }
      }
    }
  }

  /** Clips of a parsed script carry single-line texts. */
  lemma SpokenTextsSingleLine(outs: seq<Outcome>, segs: seq<Segment>)
    requires |outs| == |segs|
    requires forall k :: 0 <= k < |segs| ==> Episode.Follows(outs[k], segs[k]) && WellFormed(segs[k], Strollcast)
    ensures forall k :: 0 <= k < |SpokenOf(outs)| ==> '\n' !in SpokenOf(outs)[k].text
  {
    SpokenAreOutcomes(outs);
    forall k | 0 <= k < |SpokenOf(outs)|
      ensures '\n' !in SpokenOf(outs)[k].text
    {
      assert SpokenOf(outs)[k] in outs;
      var m :| 0 <= m < |outs| && SpokenOf(outs)[k] == outs[m];
      assert Episode.Follows(outs[m], segs[m]) && WellFormed(segs[m], Strollcast);
    }
  }

  // ---------- generate_episode ----------

  /** The dictionary `generate_episode` returns, without the float minutes. */
  datatype Summary = Summary(audioUrl: string, vttUrl: string, durationMs: nat, segmentCount: nat, hits: nat, calls: nat)

  datatype EpisodeError =
    | NoSegments                      // "No valid segments found in script"
    | SegmentFailed(failure: Failure)
    | UploadFailed(code: string)      // `put_object` of the episode or the transcript raised

  function EpisodeId(name: string): ObjectStore.ObjectId {
    ObjectStore.ObjectId(ObjectStore.OutputBucket, ObjectStore.EpisodeKey(name))
  }

  function TranscriptId(name: string): ObjectStore.ObjectId {
    ObjectStore.ObjectId(ObjectStore.OutputBucket, ObjectStore.TranscriptKey(Identifiers.PodcastId(name)))
  }

  lemma EpisodeAndTranscriptDiffer(name: string)
    ensures EpisodeId(name) != TranscriptId(name)
  {
    assert ObjectStore.EpisodeKey(name)[0] == 'e';
    assert ObjectStore.TranscriptKey(Identifiers.PodcastId(name))[0] == 'a';
  }

  /** `upload_episode` then `upload_transcript` under the podcast id: both
      objects are in the output bucket afterwards, the transcript does not
      overwrite the episode, and the URLs are the public ones. A refused
      write ends the call with its code and the store as it then stands:
      the episode stays published when only the transcript is refused. */
  function Publish(store: ObjectStore.Store, puts: ObjectStore.Faults, env: Option<string>, name: string,
                   audio: Bytes, vtt: string)
    : (r: Result<(ObjectStore.Store, string, string), (string, ObjectStore.Store)>)
    ensures r.Ok? <==> puts(EpisodeId(name)).None? && puts(TranscriptId(name)).None?
    ensures puts(EpisodeId(name)).Some? ==> r == Err((puts(EpisodeId(name)).value, store))
    ensures puts(EpisodeId(name)).None? && puts(TranscriptId(name)).Some? ==>
      && r.Err? && r.error.0 == puts(TranscriptId(name)).value
      && EpisodeId(name) in r.error.1 && r.error.1[EpisodeId(name)] == audio
    ensures r.Ok? ==> EpisodeId(name) in r.value.0 && r.value.0[EpisodeId(name)] == audio
    ensures r.Ok? ==> TranscriptId(name) in r.value.0 && Utf8.Decode(r.value.0[TranscriptId(name)]) == Some(vtt)
    ensures r.Ok? ==> r.value.1 == ObjectStore.PublicUrl(env, ObjectStore.EpisodeKey(name))
    ensures r.Ok? ==> r.value.2 == ObjectStore.PublicUrl(env, ObjectStore.TranscriptKey(Identifiers.PodcastId(name)))
  {
    match ObjectStore.UploadEpisode(store, puts, env, name, audio)
    case Err(code) => Err((code, store))
    case Ok(published) =>
      EpisodeAndTranscriptDiffer(name);
      match ObjectStore.UploadTranscript(published.0, puts, env, Identifiers.PodcastId(name), vtt)
      case Err(code) => Err((code, published.0))
      case Ok(transcribed) => Ok((transcribed.0, published.1, transcribed.1))
  }

  /** The segment count of the summary is the number of clips. */
  lemma ClipsAreSpeech(outs: seq<Outcome>, segs: seq<Segment>)
    requires |outs| == |segs|
    requires forall k :: 0 <= k < |segs| ==> Episode.Follows(outs[k], segs[k]) && !outs[k].Dropped?
    ensures |SpokenOf(outs)| == |segs| - CountPauses(segs)
  {
    BreaksAndClips(outs);
    Episode.BreaksArePauses(outs, segs);
  }

  /** The transcript of a parsed script's clips opens with its header and
      has four lines per cue. */
  lemma TranscriptLines(entries: seq<Entry>, outs: seq<Outcome>, segs: seq<Segment>)
    requires |outs| == |segs|
    requires forall k :: 0 <= k < |segs| ==> Episode.Follows(outs[k], segs[k]) && WellFormed(segs[k], Strollcast)
    requires |entries| == |SpokenOf(outs)|
    requires forall k :: 0 <= k < |entries| ==> Records(entries[k], SpokenOf(outs)[k])
    ensures StartsWith(WebVtt.Render(entries), "WEBVTT\n")
    ensures |Split(WebVtt.Render(entries), '\n')| == 2 + 4 * |entries|
  {
    SpokenTextsSingleLine(outs, segs);
    WebVtt.LineCount(entries);
    WebVtt.RenderSplitsIntoLines(entries);
  }

  /** `vtt` is the WebVTT rendering of the timeline's entries: one cue
      per clip, in order, each starting at the clock the segments before
      it reach and ending its duration later. */
  predicate Transcribes(vtt: string, outs: seq<Outcome>) {
    vtt == WebVtt.Render(Entries(outs))
  }

  /** Timing the clips and rendering the transcript: the episode length,
      the number of clips, which is that of speech segments, and the
      transcript of the timed clips. */
  method RenderTranscript(outs: seq<Outcome>, segs: seq<Segment>) returns (vtt: string, clock: nat, clips: nat)
    requires |outs| == |segs|
    requires forall k :: 0 <= k < |segs| ==>
      Episode.Follows(outs[k], segs[k]) && !outs[k].Dropped? && WellFormed(segs[k], Strollcast)
    ensures clock == Length(outs)
    ensures clips == |SpokenOf(outs)| == |segs| - CountPauses(segs)
    ensures Transcribes(vtt, outs)
    ensures StartsWith(vtt, "WEBVTT\n") && |Split(vtt, '\n')| == 2 + 4 * clips
  {
    var pieces, entries;
    pieces, entries, clock := Assemble(outs);
    vtt := WebVtt.Render(entries);
    clips := |entries|;
    ClipsAreSpeech(outs, segs);
    TranscriptLines(entries, outs, segs);
  }

  /** The part of `generate_episode` after the segment loop: time the
      clips, render the transcript, concatenate and publish. */
  method Package(sv: Services, env: Option<string>, name: string, segs: seq<Segment>, p: Progress)
    returns (r: Result<Summary, EpisodeError>, after: ObjectStore.Store, vtt: string)
    requires |p.outs| == |segs|
    requires forall k :: 0 <= k < |segs| ==>
      Episode.Follows(p.outs[k], segs[k]) && !p.outs[k].Dropped? && WellFormed(segs[k], Strollcast)
    requires p.hits + p.calls == |SpokenOf(p.outs)|
    ensures Transcribes(vtt, p.outs)
    ensures StartsWith(vtt, "WEBVTT\n") && |Split(vtt, '\n')| == 2 + 4 * |SpokenOf(p.outs)|
    ensures r.Ok? <==> sv.puts(EpisodeId(name)).None? && sv.puts(TranscriptId(name)).None?
    ensures sv.puts(EpisodeId(name)).Some? ==> r == Err(UploadFailed(sv.puts(EpisodeId(name)).value)) && after == p.store
    ensures sv.puts(EpisodeId(name)).None? && sv.puts(TranscriptId(name)).Some? ==>
      r == Err(UploadFailed(sv.puts(TranscriptId(name)).value))
      && EpisodeId(name) in after && after[EpisodeId(name)] == sv.concat(p.parts)
    ensures r.Ok? ==> r.value.durationMs == Length(p.outs)
    ensures r.Ok? ==> r.value.segmentCount == |segs| - CountPauses(segs) == r.value.hits + r.value.calls
    ensures r.Ok? ==> r.value.hits == p.hits && r.value.calls == p.calls
    ensures r.Ok? ==> r.value.audioUrl == ObjectStore.PublicUrl(env, ObjectStore.EpisodeKey(name))
    ensures r.Ok? ==> r.value.vttUrl == ObjectStore.PublicUrl(env, ObjectStore.TranscriptKey(Identifiers.PodcastId(name)))
    ensures r.Ok? ==> EpisodeId(name) in after && after[EpisodeId(name)] == sv.concat(p.parts)
    ensures r.Ok? ==> TranscriptId(name) in after && Utf8.Decode(after[TranscriptId(name)]) == Some(vtt)
  {
    var clock, clips;
    vtt, clock, clips := RenderTranscript(p.outs, segs);
    match Publish(p.store, sv.puts, env, name, sv.concat(p.parts), vtt)
    case Err((code, stood)) =>
      r, after := Err(UploadFailed(code)), stood;
    case Ok(published) =>
      after := published.0;
      r := Ok(Summary(published.1, published.2, clock, clips, p.hits, p.calls));
  }

  /** `generate_episode` once the script has parsed into `segs`: the
      result is that of the segment loop, whose first failure ends the
      episode with the store as it stood. A completed loop is published,
      and a refused upload ends the episode with its code. A published
      episode lasts as long as its timeline, counts every speech segment
      once as a hit or a call, is stored as the concatenation of the loop's
      parts under its name, and its transcript, under the podcast id,
      renders the timed clips. */
  method EpisodeFrom(store: ObjectStore.Store, sv: Services, env: Option<string>, segs: seq<Segment>, name: string)
    returns (r: Result<Summary, EpisodeError>, after: ObjectStore.Store, outs: seq<Outcome>, vtt: string)
    requires forall k :: 0 <= k < |segs| ==> WellFormed(segs[k], Strollcast)
    ensures r != Err(NoSegments)
    ensures var run := RunFrom(Start(store), sv, segs, 0);
      && (run.Err? ==> r == Err(SegmentFailed(run.error.failure)) && after == run.error.store)
      && (run.Ok? ==> outs == run.value.outs)
      && (run.Ok? ==> (r.Ok? <==> sv.puts(EpisodeId(name)).None? && sv.puts(TranscriptId(name)).None?))
      && (run.Ok? && r.Err? ==> r.error.UploadFailed?)
      && (r.Ok? ==> run.Ok? && EpisodeId(name) in after && after[EpisodeId(name)] == sv.concat(run.value.parts))
    ensures r.Ok? ==>
      && |outs| == |segs|
      && (forall k :: 0 <= k < |segs| ==> Episode.Follows(outs[k], segs[k]) && !outs[k].Dropped?)
      && r.value.durationMs == Length(outs)
      && r.value.segmentCount == |segs| - CountPauses(segs)
      && r.value.hits + r.value.calls == r.value.segmentCount
    ensures r.Ok? ==>
      && r.value.audioUrl == ObjectStore.PublicUrl(env, ObjectStore.EpisodeKey(name))
      && r.value.vttUrl == ObjectStore.PublicUrl(env, ObjectStore.TranscriptKey(Identifiers.PodcastId(name)))
    ensures r.Ok? ==> EpisodeId(name) in after && TranscriptId(name) in after
    ensures r.Ok? ==> Utf8.Decode(after[TranscriptId(name)]) == Some(vtt) && Transcribes(vtt, outs)
    ensures r.Ok? ==> StartsWith(vtt, "WEBVTT\n") && |Split(vtt, '\n')| == 2 + 4 * r.value.segmentCount
    ensures r.Ok? ==> exists parts: seq<Bytes> ::
      && after[EpisodeId(name)] == sv.concat(parts)
      && |parts| == |Pieces(outs)|
      && (forall j :: 0 <= j < |parts| ==> Fits(sv, outs, Pieces(outs)[j], parts[j]))
  {
    after, outs, vtt := store, [], "";
    var run := GenerateSegments(store, sv, segs);
    if run.Err? {
      return Err(SegmentFailed(run.error.failure)), run.error.store, outs, vtt;
    }
    var p := run.value;
    outs := p.outs;
    r, after, vtt := Package(sv, env, name, segs, p);
  }

  /** `generate_episode(script_content, episode_name)`: a script without
      segments is rejected, and any other is the episode of its parsed
      segments. */
  method GenerateEpisode(store: ObjectStore.Store, sv: Services, env: Option<string>, content: string, name: string)
    returns (r: Result<Summary, EpisodeError>, after: ObjectStore.Store, outs: seq<Outcome>, vtt: string)
    ensures r == Err(NoSegments) <==> |ParsePodcastScript(content)| == 0
    ensures |ParsePodcastScript(content)| > 0 ==>
      var run := RunFrom(Start(store), sv, ParsePodcastScript(content), 0);
      && (run.Err? ==> r == Err(SegmentFailed(run.error.failure)) && after == run.error.store)
      && (run.Ok? ==> outs == run.value.outs)
      && (run.Ok? ==> (r.Ok? <==> sv.puts(EpisodeId(name)).None? && sv.puts(TranscriptId(name)).None?))
      && (run.Ok? && r.Err? ==> r.error.UploadFailed?)
      && (r.Ok? ==> run.Ok? && EpisodeId(name) in after && after[EpisodeId(name)] == sv.concat(run.value.parts))
    ensures r.Ok? ==> var segs := ParsePodcastScript(content);
      && |outs| == |segs|
      && (forall k :: 0 <= k < |segs| ==> Episode.Follows(outs[k], segs[k]) && !outs[k].Dropped?)
      && r.value.durationMs == Length(outs)
      && r.value.segmentCount == |segs| - CountPauses(segs)
      && r.value.hits + r.value.calls == r.value.segmentCount
    ensures r.Ok? ==>
      && r.value.audioUrl == ObjectStore.PublicUrl(env, ObjectStore.EpisodeKey(name))
      && r.value.vttUrl == ObjectStore.PublicUrl(env, ObjectStore.TranscriptKey(Identifiers.PodcastId(name)))
    ensures r.Ok? ==> EpisodeId(name) in after && TranscriptId(name) in after
    ensures r.Ok? ==> Utf8.Decode(after[TranscriptId(name)]) == Some(vtt) && Transcribes(vtt, outs)
    ensures r.Ok? ==> StartsWith(vtt, "WEBVTT\n") && |Split(vtt, '\n')| == 2 + 4 * r.value.segmentCount
    ensures r.Ok? ==> exists parts: seq<Bytes> ::
      && after[EpisodeId(name)] == sv.concat(parts)
      && |parts| == |Pieces(outs)|
      && (forall j :: 0 <= j < |parts| ==> Fits(sv, outs, Pieces(outs)[j], parts[j]))
  {
    var segs := ParseScript(content);
    if |segs| == 0 {
      return Err(NoSegments), store, [], "";
    }
    r, after, outs, vtt := EpisodeFrom(store, sv, env, segs, name);
  }
}
