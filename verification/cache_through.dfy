/** Cache-through segment synthesis.

    The local generator keeps one file per cache key in a `.cache`
    directory, modelled as a map from key to file contents; a hit copies the
    file, a miss calls the synthesis service and stores what it returns. The
    serverless generator does the same against the R2 cache bucket and
    normalises fresh audio before storing it. The synthesis service, SHA-256
    and the loudness normaliser are parameters. */
module CacheThrough {
  import opened Outcomes
  import opened ScriptParser
  import CacheKey
  import ObjectStore
  import Config

  type Sha = Bytes -> Bytes

  /** The synthesis service: the audio for (text, voice id), or `None`
      when the call raises. */
  type Synth = (string, string) -> Option<Bytes>

  /** The local `.cache` directory: file contents by cache key. */
  type LocalCache = map<string, Bytes>

  // ---------- Local generator ----------

  /** What `generate_audio_elevenlabs` returns. */
  datatype Status = Cached | Generated

  /** How `save_to_cache` goes: the clip is stored, or the write raises,
      possibly leaving a partial file behind under the key. */
  datatype SaveOutcome = Saved | SaveFailed(leftBehind: Option<Bytes>)

  /** The two writes of a miss: the cache file, then (after a successful
      save) the output file, which either completes or raises. */
  datatype Disk = Disk(save: SaveOutcome, outputWritten: bool)

  /** Both writes complete. */
  const Healthy: Disk := Disk(Saved, true)

  /** The call's return value, the cache afterwards, the output file the
      caller goes on to use (`None` when the call returns `None`, whatever
      a failed write left at the path), and whether the synthesis service
      was called. */
  datatype LocalStep = LocalStep(status: Option<Status>, cache: LocalCache, output: Option<Bytes>, synthesised: bool)

  /** The local cache never loses or rewrites an entry. */
  predicate Extends(after: LocalCache, before: LocalCache) {
    forall k :: k in before ==> k in after && after[k] == before[k]
  }

  /** `generate_audio_elevenlabs` once the cache key `key` of (text,
      voice) is known. A miss runs synthesis, the cache write and the output
      write inside one `try`, so a failure of any of them returns `None`,
      keeping whatever the cache write managed to leave. */
  function GenerateAudioAt(cache: LocalCache, key: string, synth: Synth, disk: Disk, text: string, voice: string): (r: LocalStep)
    ensures r.status == Some(Cached) <==> key in cache
    ensures r.synthesised <==> key !in cache
    ensures r.status == Some(Generated) <==> key !in cache && synth(text, voice).Some? && disk == Healthy
    ensures r.status.Some? ==> key in r.cache && r.output == Some(r.cache[key])
    ensures r.status == Some(Generated) ==> r.output == synth(text, voice)
    ensures r.status.None? ==> r.output.None?
    ensures key in cache || synth(text, voice).None? ==> r.cache == cache
    ensures key !in cache && synth(text, voice).Some? ==>
      && (key in r.cache <==> disk.save.Saved? || disk.save.leftBehind.Some?)
      && (disk.save.Saved? ==> key in r.cache && r.cache[key] == synth(text, voice).value)
      && (disk.save.SaveFailed? && disk.save.leftBehind.Some? ==> key in r.cache && r.cache[key] == disk.save.leftBehind.value)
    ensures r.cache.Keys - {key} == cache.Keys - {key}
    ensures Extends(r.cache, cache)
  {
    if key in cache then LocalStep(Some(Cached), cache, Some(cache[key]), false)
    else match synth(text, voice)
      case None => LocalStep(None, cache, None, true)
      case Some(audio) =>
        match disk.save
        case SaveFailed(partial) =>
          LocalStep(None, if partial.Some? then cache[key := partial.value] else cache, None, true)
        case Saved =>
          if disk.outputWritten then LocalStep(Some(Generated), cache[key := audio], Some(audio), true)
          else LocalStep(None, cache[key := audio], None, true)
  }

  /** `generate_audio_elevenlabs(client, text, voice_id, output_path)`. */
  function GenerateAudio(cache: LocalCache, sha: Sha, synth: Synth, disk: Disk, text: string, voice: string): LocalStep {
    GenerateAudioAt(cache, CacheKey.LocalKey(sha, text, voice), synth, disk, text, voice)
  }

  /** Asking again for the same segment is a hit that yields the same
      audio and leaves the cache as it is, however the disk behaves. */
  lemma GenerateAudioIdempotent(cache: LocalCache, key: string, synth: Synth, disk: Disk, disk': Disk, text: string, voice: string)
    requires GenerateAudioAt(cache, key, synth, disk, text, voice).status.Some?
    ensures var first := GenerateAudioAt(cache, key, synth, disk, text, voice);
      var second := GenerateAudioAt(first.cache, key, synth, disk', text, voice);
      second == LocalStep(Some(Cached), first.cache, first.output, false)
  {
  }

  /** A failed call can still leave a cache file: the next request for the
      same segment is then a hit on what was left, the full clip when only
      the output write failed and the partial file when the cache write
      failed midway, and synthesis is not retried. */
  lemma FailedWriteLeavesHit(cache: LocalCache, key: string, synth: Synth, disk: Disk, disk': Disk, text: string, voice: string)
    requires key !in cache && synth(text, voice).Some?
    requires disk.save.Saved? || disk.save.leftBehind.Some?
    ensures var first := GenerateAudioAt(cache, key, synth, disk, text, voice);
      var second := GenerateAudioAt(first.cache, key, synth, disk', text, voice);
      && (disk != Healthy ==> first.status.None?)
      && second.status == Some(Cached) && !second.synthesised
      && second.output == Some(if disk.save.Saved? then synth(text, voice).value else disk.save.leftBehind.value)
  {
  }

  // ---------- Serverless generator ----------

  datatype Failure =
    | UnknownSpeaker(tag: string)   // `VOICES[speaker]` raises KeyError
    | StoreFailure(code: string)    // a ClientError other than NoSuchKey, on the read or the write
    | SynthesisFailure              // the synthesis call raised
    | NormalizeFailure              // `normalize_audio` raised

  /** The loudness normaliser: the normalised clip, or `None` when it
      raises. */
  type Normalizer = Bytes -> Option<Bytes>

  /** The bytes `generate_segment` returns, the store afterwards, and
      whether the synthesis service was called. */
  datatype SegmentStep = SegmentStep(audio: Bytes, store: ObjectStore.Store, synthesised: bool)

  function VoiceOf(speaker: Speaker): Result<string, Failure> {
    if Tag(speaker) in Config.Voices then Ok(Config.Voices[Tag(speaker)])
    else Err(UnknownSpeaker(Tag(speaker)))
  }

  /** `if cached:`: a cached object counts only when it is non-empty. */
  predicate Usable(cached: Option<Bytes>) {
    cached.Some? && |cached.value| > 0
  }

  /** The miss path of `generate_segment`: synthesise, normalise, then
      write the clip under `key`. */
  function SynthesiseAndStore(store: ObjectStore.Store, puts: ObjectStore.Faults, key: string, synth: Synth,
                              normalize: Normalizer, text: string, voice: string): (r: Result<SegmentStep, Failure>)
    ensures r.Ok? <==> synth(text, voice).Some? && normalize(synth(text, voice).value).Some?
                       && puts(ObjectStore.SegmentId(key)).None?
    ensures r.Ok? ==> r.value.synthesised && normalize(synth(text, voice).value) == Some(r.value.audio)
    ensures r.Ok? ==> r.value.store == ObjectStore.PutObject(store, ObjectStore.SegmentId(key), r.value.audio)
    ensures r.Err? ==>
      r.error == if synth(text, voice).None? then SynthesisFailure
                 else if normalize(synth(text, voice).value).None? then NormalizeFailure
                 else StoreFailure(puts(ObjectStore.SegmentId(key)).value)
  {
    match synth(text, voice)
    case None => Err(SynthesisFailure)
    case Some(raw) =>
      match normalize(raw)
      case None => Err(NormalizeFailure)
      case Some(audio) =>
        match ObjectStore.SaveCachedSegment(store, puts, key, audio)
        case Err(code) => Err(StoreFailure(code))
        case Ok(saved) => Ok(SegmentStep(audio, saved, true))
  }

  /** `generate_segment(text, speaker)`: an empty cached object is treated
      as a miss and is synthesised and written anew. Nothing catches an
      exception, so a failed lookup, synthesis, normalisation or write ends
      the call, and only a completed write changes the store; `puts` gives
      the error code, if any, of a write. */
  function GenerateSegment(store: ObjectStore.Store, faults: ObjectStore.Faults, puts: ObjectStore.Faults, sha: Sha,
                           synth: Synth, normalize: Normalizer, text: string, speaker: Speaker): (r: Result<SegmentStep, Failure>)
    ensures VoiceOf(speaker).Err? ==> r == Err(VoiceOf(speaker).error)
    ensures VoiceOf(speaker).Ok? ==>
      var key := CacheKey.ServerlessKey(sha, text, VoiceOf(speaker).value);
      var got := ObjectStore.GetCachedSegment(store, faults, key);
      && (got.Err? ==> r == Err(StoreFailure(got.error)))
      && (got.Ok? && Usable(got.value) ==> r == Ok(SegmentStep(got.value.value, store, false)))
      && (got.Ok? && !Usable(got.value) ==>
            r == SynthesiseAndStore(store, puts, key, synth, normalize, text, VoiceOf(speaker).value))
  {
    match VoiceOf(speaker)
    case Err(e) => Err(e)
    case Ok(voice) =>
      var key := CacheKey.ServerlessKey(sha, text, voice);
      match ObjectStore.GetCachedSegment(store, faults, key)
      case Err(code) => Err(StoreFailure(code))
      case Ok(cached) =>
        if Usable(cached) then Ok(SegmentStep(cached.value, store, false))
        else SynthesiseAndStore(store, puts, key, synth, normalize, text, voice)
  }

  /** A hit performs no synthesis and no write; a successful miss makes
      the next request for the same segment a hit returning the same bytes,
      provided the clip is not empty and the store reports a missing object
      only when it is missing. */
  lemma GenerateSegmentCachesResult(store: ObjectStore.Store, faults: ObjectStore.Faults, puts: ObjectStore.Faults, sha: Sha,
                                    synth: Synth, normalize: Normalizer, text: string, speaker: Speaker)
    requires ObjectStore.Genuine(faults)
    requires GenerateSegment(store, faults, puts, sha, synth, normalize, text, speaker).Ok?
    requires |GenerateSegment(store, faults, puts, sha, synth, normalize, text, speaker).value.audio| > 0
    ensures var first := GenerateSegment(store, faults, puts, sha, synth, normalize, text, speaker).value;
      !first.synthesised ==> first.store == store
    ensures var first := GenerateSegment(store, faults, puts, sha, synth, normalize, text, speaker).value;
      GenerateSegment(first.store, faults, puts, sha, synth, normalize, text, speaker)
        == Ok(SegmentStep(first.audio, first.store, false))
  {
    var voice := VoiceOf(speaker).value;
    var key := CacheKey.ServerlessKey(sha, text, voice);
    var first := GenerateSegment(store, faults, puts, sha, synth, normalize, text, speaker).value;
    if first.synthesised {
      assert faults(ObjectStore.SegmentId(key)) != Some(ObjectStore.NoSuchKey);
      ObjectStore.SaveThenGet(store, faults, puts, key, first.audio);
    }
  }
}
