/** The R2 object store as the serverless generator uses it: a cache bucket
    holding normalised segments under `segments/<key>.mp3`, and an output
    bucket holding finished episodes and transcripts. The transport is a
    map from object ids to bytes plus a fault oracle that gives the error
    code, if any, the service answers for an object. */
module ObjectStore {
  import opened Outcomes
  import opened Strings
  import Utf8

  const CacheBucket: string := "strollcast-cache"
  const OutputBucket: string := "strollcast-output"

  /** The error code S3 reports for a missing object. */
  const NoSuchKey: string := "NoSuchKey"

  datatype ObjectId = ObjectId(bucket: string, key: string)

  type Store = map<ObjectId, Bytes>

  /** Error codes the service answers other than for a missing object
      (access denied, throttling, ...); `None` for a healthy object. */
  type Faults = ObjectId -> Option<string>

  /** The service reports NoSuchKey only for objects that are missing. */
  ghost predicate Genuine(faults: Faults) {
    forall id :: faults(id) != Some(NoSuchKey)
  }

  /** `get_object`: the body, or the service's error code. */
  function GetObject(store: Store, faults: Faults, id: ObjectId): (r: Result<Bytes, string>)
    ensures r.Ok? <==> faults(id).None? && id in store
    ensures r.Ok? ==> r.value == store[id]
    ensures r.Err? && faults(id).None? ==> r.error == NoSuchKey
  {
    if faults(id).Some? then Err(faults(id).value)
    else if id in store then Ok(store[id])
    else Err(NoSuchKey)
  }

  /** `put_object`. */
  function PutObject(store: Store, id: ObjectId, body: Bytes): (s: Store)
    ensures id in s && s[id] == body
    ensures forall o :: o != id ==> (o in s <==> o in store)
    ensures forall o :: o != id && o in store ==> s[o] == store[o]
  {
    store[id := body]
  }

  /** The object key of a cached segment. */
  function SegmentKey(cacheKey: string): string {
    "segments/" + cacheKey + ".mp3"
  }

  function SegmentId(cacheKey: string): ObjectId {
    ObjectId(CacheBucket, SegmentKey(cacheKey))
  }

  /** Different cache keys address different objects. */
  lemma SegmentKeyInjective(k1: string, k2: string)
    requires SegmentKey(k1) == SegmentKey(k2)
    ensures k1 == k2
  {
    var a, b := SegmentKey(k1), SegmentKey(k2);
    assert |k1| == |k2|;
    assert forall i :: 0 <= i < |k1| ==> k1[i] == a[9 + i] == b[9 + i] == k2[i];
  }

  /** `get_cached_segment`: `Ok(None)` exactly when the service says
      NoSuchKey; any other error is raised to the caller. */
  function GetCachedSegment(store: Store, faults: Faults, cacheKey: string): (r: Result<Option<Bytes>, string>)
    ensures r == Ok(None) <==> GetObject(store, faults, SegmentId(cacheKey)) == Err(NoSuchKey)
    ensures r.Err? <==> faults(SegmentId(cacheKey)).Some? && faults(SegmentId(cacheKey)).value != NoSuchKey
    ensures r.Err? ==> r.error == faults(SegmentId(cacheKey)).value
    ensures r.Ok? && r.value.Some? ==> SegmentId(cacheKey) in store && r.value.value == store[SegmentId(cacheKey)]
  {
    match GetObject(store, faults, SegmentId(cacheKey))
    case Ok(body) => Ok(Some(body))
    case Err(code) => if code == NoSuchKey then Ok(None) else Err(code)
  }

  /** `save_cached_segment`: `put_object` into the cache bucket, unless
      the service answers the write with an error code (`puts`), which is
      raised and leaves the store as it was. */
  function SaveCachedSegment(store: Store, puts: Faults, cacheKey: string, audio: Bytes): (r: Result<Store, string>)
    ensures r.Err? <==> puts(SegmentId(cacheKey)).Some?
    ensures r.Err? ==> r.error == puts(SegmentId(cacheKey)).value
    ensures r.Ok? ==> r.value == PutObject(store, SegmentId(cacheKey), audio)
  {
    match puts(SegmentId(cacheKey))
    case Some(code) => Err(code)
    case None => Ok(PutObject(store, SegmentId(cacheKey), audio))
  }

  /** A saved segment reads back unchanged, unless the service faults. */
  lemma SaveThenGet(store: Store, faults: Faults, puts: Faults, cacheKey: string, audio: Bytes)
    requires faults(SegmentId(cacheKey)).None? && puts(SegmentId(cacheKey)).None?
    ensures GetCachedSegment(SaveCachedSegment(store, puts, cacheKey, audio).value, faults, cacheKey) == Ok(Some(audio))
  {
  }

  /** Saving under one key leaves every other key's answer unchanged. */
  lemma SaveKeepsOthers(store: Store, faults: Faults, puts: Faults, k: string, audio: Bytes, other: string)
    requires other != k && puts(SegmentId(k)).None?
    ensures GetCachedSegment(SaveCachedSegment(store, puts, k, audio).value, faults, other) == GetCachedSegment(store, faults, other)
  {
    if SegmentKey(other) == SegmentKey(k) {
      SegmentKeyInjective(other, k);
    }
  }

  /** `R2_PUBLIC_DOMAIN`, defaulting to the output bucket's r2.dev host. */
  function PublicDomain(env: Option<string>): (d: string)
    ensures env.Some? ==> d == env.value
    ensures env.None? ==> d == "strollcast-output.r2.dev"
  {
    match env
    case Some(domain) => domain
    case None => OutputBucket + ".r2.dev"
  }

  function PublicUrl(env: Option<string>, key: string): string {
    "https://" + PublicDomain(env) + "/" + key
  }

  function EpisodeKey(episodeName: string): string {
    "episodes/" + episodeName + ".m4a"
  }

  function TranscriptKey(podcastId: string): string {
    "api/" + podcastId + ".vtt"
  }

  /** `upload_episode`: the new store and the episode's public URL, or the
      error code the service answers the write with (`puts`), which is
      raised and leaves the store as it was. */
  function UploadEpisode(store: Store, puts: Faults, env: Option<string>, episodeName: string, audio: Bytes)
    : (r: Result<(Store, string), string>)
    ensures r.Err? <==> puts(ObjectId(OutputBucket, EpisodeKey(episodeName))).Some?
    ensures r.Err? ==> r.error == puts(ObjectId(OutputBucket, EpisodeKey(episodeName))).value
    ensures r.Ok? ==> ObjectId(OutputBucket, EpisodeKey(episodeName)) in r.value.0
    ensures r.Ok? ==> r.value.0[ObjectId(OutputBucket, EpisodeKey(episodeName))] == audio
    ensures r.Ok? ==> StartsWith(r.value.1, "https://" + PublicDomain(env) + "/episodes/")
    ensures r.Ok? ==> r.value.1 == PublicUrl(env, EpisodeKey(episodeName))
    ensures r.Ok? ==> forall o :: o != ObjectId(OutputBucket, EpisodeKey(episodeName)) ==>
      (o in r.value.0 <==> o in store) && (o in store ==> r.value.0[o] == store[o])
  {
    var key := EpisodeKey(episodeName);
    match puts(ObjectId(OutputBucket, key))
    case Some(code) => Err(code)
    case None =>
      var url := PublicUrl(env, key);
      assert url == ("https://" + PublicDomain(env) + "/episodes/") + (episodeName + ".m4a");
      Ok((PutObject(store, ObjectId(OutputBucket, key), audio), url))
  }

  /** `upload_transcript`: the body is the transcript in UTF-8; a refused
      write is raised as for the episode. */
  function UploadTranscript(store: Store, puts: Faults, env: Option<string>, podcastId: string, vtt: string)
    : (r: Result<(Store, string), string>)
    ensures r.Err? <==> puts(ObjectId(OutputBucket, TranscriptKey(podcastId))).Some?
    ensures r.Err? ==> r.error == puts(ObjectId(OutputBucket, TranscriptKey(podcastId))).value
    ensures r.Ok? ==> ObjectId(OutputBucket, TranscriptKey(podcastId)) in r.value.0
    ensures r.Ok? ==> Utf8.Decode(r.value.0[ObjectId(OutputBucket, TranscriptKey(podcastId))]) == Some(vtt)
    ensures r.Ok? ==> StartsWith(r.value.1, "https://" + PublicDomain(env) + "/api/")
    ensures r.Ok? ==> r.value.1 == PublicUrl(env, TranscriptKey(podcastId))
    ensures r.Ok? ==> forall o :: o != ObjectId(OutputBucket, TranscriptKey(podcastId)) ==>
      (o in r.value.0 <==> o in store) && (o in store ==> r.value.0[o] == store[o])
  {
    var key := TranscriptKey(podcastId);
    match puts(ObjectId(OutputBucket, key))
    case Some(code) => Err(code)
    case None =>
      var url := PublicUrl(env, key);
      assert url == ("https://" + PublicDomain(env) + "/api/") + (podcastId + ".vtt");
      Utf8.DecodeEncode(vtt);
      Ok((PutObject(store, ObjectId(OutputBucket, key), Utf8.Encode(vtt)), url))
  }

  /** Every object of the cache bucket, with its body. */
  function CacheView(store: Store): map<ObjectId, Bytes> {
    map id | id in store && id.bucket == CacheBucket :: store[id]
  }

  /** Publishing an episode or a transcript never alters the cache. */
  lemma UploadsKeepCache(store: Store, puts: Faults, env: Option<string>, name: string, audio: Bytes, id: string, vtt: string)
    ensures UploadEpisode(store, puts, env, name, audio).Ok? ==>
      CacheView(UploadEpisode(store, puts, env, name, audio).value.0) == CacheView(store)
    ensures UploadTranscript(store, puts, env, id, vtt).Ok? ==>
      CacheView(UploadTranscript(store, puts, env, id, vtt).value.0) == CacheView(store)
  {
    assert CacheBucket != OutputBucket;
  }
}
