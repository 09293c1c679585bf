/** The concatenation container's `/concat` handler: it checks the request,
    tracks the job in a shared status record (idle, processing, error),
    downloads the segments, writes ffmpeg's concat list, builds the ffmpeg
    argument list, and uploads the result. Every external effect (temp
    directory, cancellation, HTTP, ffmpeg, ffprobe, file size) is an
    outcome supplied by the environment. */
module ConcatServer {
  import opened Outcomes
  import opened Strings
  import Decimal
  import Seqs

  datatype State = Idle | Processing | Error {
    function Name(): string {
      match this
      case Idle => "idle"
      case Processing => "processing"
      case Error => "error"
    }
  }

  /** `ContainerStatus`. Timestamps are opaque integers; `None` stands for
      a nil `*time.Time`. */
  datatype Status = Status(
    state: State,
    jobId: string,
    startedAt: Option<int>,
    segmentsTotal: int,
    segmentsDownloaded: int,
    lastError: string,
    lastHeartbeat: Option<int>)

  /** The status at start-up and after every successful job. */
  const IdleStatus := Status(Idle, "", None, 0, 0, "", None)

  datatype Metadata = Metadata(title: string, artist: string, album: string, genre: string)

  datatype ConcatRequest = ConcatRequest(
    episodeId: string,
    segments: seq<string>,
    outputUrl: string,
    metadata: Metadata)

  /** The JSON reply and its HTTP status code. The duration is in
      milliseconds. */
  datatype Reply = Reply(code: int, success: bool, durationMs: int, fileSize: int, error: string)

  /** `sendError`. */
  function Rejection(code: int, message: string): Reply {
    Reply(code, false, 0, 0, message)
  }

  const MethodNotAllowed := 405
  const BadRequest := 400
  const InternalError := 500
  const Unavailable := 503

  /** Why ffmpeg did not finish: the job's context ended (the text is the
      context's error) or the process failed on its own. */
  datatype FfmpegFailure = Cancelled(reason: string) | Crashed(err: string, stderr: string)

  /** The outcomes of the handler's external steps. `cancelled(0)` is the
      context check before the downloads and `cancelled(i + 1)` the one
      before segment `i`; `Some` carries the context's error text. Errors
      are carried as their rendered text. */
  datatype Env = Env(
    now: int,
    tempDir: Result<string, string>,
    cancelled: nat -> Option<string>,
    download: (string, string) -> Option<string>,
    writeList: (string, string) -> Option<string>,
    ffmpeg: seq<string> -> Option<FfmpegFailure>,
    probe: string -> Result<string, string>,
    parseMs: string -> Result<int, string>,
    stat: string -> Result<int, string>,
    upload: (string, string) -> Option<string>)

  /** `filepath.Join(dir, name)` for a clean directory and a plain name. */
  function PathJoin(dir: string, name: string): string {
    dir + "/" + name
  }

  /** Where segment `i` is downloaded: `segment_%04d.mp3`. */
  function SegmentPath(dir: string, i: nat): string {
    PathJoin(dir, "segment_" + Decimal.ZeroPad(i, 4) + ".mp3")
  }

  /** One line of the concat list, without its newline. */
  function ListLine(path: string): string {
    "file '" + path + "'"
  }

  /** The segment files of a job of `n` segments, in order. */
  function SegmentPaths(dir: string, n: nat): (paths: seq<string>)
    ensures |paths| == n
    ensures forall i :: 0 <= i < n ==> paths[i] == SegmentPath(dir, i)
  {
    seq(n, i requires 0 <= i => SegmentPath(dir, i))
  }

  /** The concat list: one `file '<path>'` line per file, each ended by a
      newline. */
  function Listing(paths: seq<string>): string
    decreases |paths|
  {
    if |paths| == 0 then ""
    else Listing(paths[..|paths| - 1]) + ListLine(paths[|paths| - 1]) + "\n"
  }

  function ListLines(paths: seq<string>): (lines: seq<string>)
    ensures |lines| == |paths|
    ensures forall i :: 0 <= i < |paths| ==> lines[i] == ListLine(paths[i])
  {
    seq(|paths|, i requires 0 <= i < |paths| => ListLine(paths[i]))
  }

  /** Read back line by line, the concat list names each file once, in
      order, and ends with a newline (the final piece is empty). */
  lemma {:induction false} ListingLines(paths: seq<string>)
    requires forall i :: 0 <= i < |paths| ==> '\n' !in paths[i]
    ensures Split(Listing(paths), '\n') == ListLines(paths) + [""]
    decreases |paths|
  {
    var n := |paths|;
    if n > 0 {
      var prior := paths[..n - 1];
      var line := ListLine(paths[n - 1]);
      assert '\n' !in line;
      ListingLines(prior);
      var text := Listing(prior);
      SnocLine(text, line, ListLines(prior));
      assert ListLines(prior) + [line] == ListLines(paths);
    }
  }

  /** Appending one newline-free line and a newline adds one piece. */
  lemma SnocLine(text: string, line: string, lines: seq<string>)
    requires '\n' !in line
    requires Split(text, '\n') == lines + [""]
    ensures Split(text + line + "\n", '\n') == lines + [line] + [""]
  {
    SplitNoSeparator(line, '\n');
    assert Split("", '\n') == [""];
    if |text| == 0 {
      assert lines == [];
      assert text + line + "\n" == line + ['\n'] + "";
      SplitConcat(line, '\n', "");
    } else {
      var before := text[..|text| - 1];
      LastPieceEmpty(text, '\n');
      assert text == before + ['\n'] + "";
      SplitConcat(before, '\n', "");
      var pieces := Split(before, '\n');
      assert pieces + [""] == lines + [""];
      assert pieces == (pieces + [""])[..|pieces|];
      assert lines == (lines + [""])[..|lines|];
      assert text + line + "\n" == before + ['\n'] + (line + ['\n'] + "");
      SplitConcat(before, '\n', line + ['\n'] + "");
      SplitConcat(line, '\n', "");
    }
  }

  lemma LineHasNoNewline(dir: string, i: nat)
    requires '\n' !in dir
    ensures '\n' !in SegmentPath(dir, i)
  {
    var digits := Decimal.ZeroPad(i, 4);
    assert forall k :: 0 <= k < |digits| ==> '0' <= digits[k] <= '9';
  }

  lemma ListingSnoc(dir: string, i: nat)
    ensures Listing(SegmentPaths(dir, i + 1)) == Listing(SegmentPaths(dir, i)) + ListLine(SegmentPath(dir, i)) + "\n"
  {
    assert SegmentPaths(dir, i + 1)[..i] == SegmentPaths(dir, i);
  }

  /** The loudness filter applied while concatenating: -16 LUFS integrated,
      -1.5 dBTP true peak, loudness range 11. */
  const Loudnorm := "loudnorm=I=-16:TP=-1.5:LRA=11"

  /** The arguments every job passes before any metadata. */
  function FixedArgs(listFile: string): (args: seq<string>)
    ensures |args| == 14
  {
    ["-f", "concat", "-safe", "0", "-i", listFile, "-af", Loudnorm,
     "-c:a", "libmp3lame", "-b:a", "128k", "-ar", "44100"]
  }

  /** Position of each ID3 tag in the order the handler adds them. */
  function TagRank(key: string): int {
    if key == "title" then 0 else if key == "artist" then 1
    else if key == "album" then 2 else if key == "genre" then 3 else 4
  }

  function KeepTag(key: string, value: string): seq<(string, string)> {
    if value != "" then [(key, value)] else []
  }

  /** The tags that are written: each non-empty field, in the order title,
      artist, album, genre. */
  function Tags(m: Metadata): (tags: seq<(string, string)>)
    ensures |tags| <= 4
    ensures forall j :: 0 <= j < |tags| ==> tags[j].1 != ""
    ensures forall i, j :: 0 <= i < j < |tags| ==> TagRank(tags[i].0) < TagRank(tags[j].0)
    ensures ("title", m.title) in tags <==> m.title != ""
    ensures ("artist", m.artist) in tags <==> m.artist != ""
    ensures ("album", m.album) in tags <==> m.album != ""
    ensures ("genre", m.genre) in tags <==> m.genre != ""
  {
    KeepTag("title", m.title) + KeepTag("artist", m.artist)
      + KeepTag("album", m.album) + KeepTag("genre", m.genre)
  }

  /** The `-metadata key=value` pair of one tag. */
  function TagArgs(j: nat, tag: (string, string)): seq<string> {
    ["-metadata", tag.0 + "=" + tag.1]
  }

  /** The metadata arguments: a `-metadata` flag before each set tag. */
  function MetadataArgs(m: Metadata): (args: seq<string>)
    ensures |args| == 2 * |Tags(m)|
    ensures forall j :: 0 <= j < |Tags(m)| ==>
              args[2 * j] == "-metadata" && args[2 * j + 1] == Tags(m)[j].0 + "=" + Tags(m)[j].1
  {
    TagArgsLayout(Tags(m));
    Seqs.Blocks(TagArgs, Tags(m))
  }

  /** Tag `j` lands at positions `2j` and `2j + 1`. */
  lemma TagArgsLayout(tags: seq<(string, string)>)
    ensures |Seqs.Blocks(TagArgs, tags)| == 2 * |tags|
    ensures forall j :: 0 <= j < |tags| ==>
              Seqs.Blocks(TagArgs, tags)[2 * j] == "-metadata"
              && Seqs.Blocks(TagArgs, tags)[2 * j + 1] == tags[j].0 + "=" + tags[j].1
  {
    var args := Seqs.Blocks(TagArgs, tags);
    Seqs.BlocksLength(TagArgs, tags, 2);
    forall j | 0 <= j < |tags|
      ensures args[2 * j] == "-metadata" && args[2 * j + 1] == tags[j].0 + "=" + tags[j].1
    {
      Seqs.BlocksIndex(TagArgs, tags, 2, j, 0);
      Seqs.BlocksIndex(TagArgs, tags, 2, j, 1);
    }
  }

  /** ffmpeg's full argument list: the fixed part, the metadata, then
      `-y` and the output path. */
  function FfmpegArgs(listFile: string, m: Metadata, outputPath: string): (args: seq<string>)
    ensures |args| == 16 + 2 * |Tags(m)|
    ensures args[..14] == FixedArgs(listFile) && args[7] == Loudnorm
    ensures args[14..|args| - 2] == MetadataArgs(m)
    ensures args[|args| - 2..] == ["-y", outputPath]
  {
    var fixed := FixedArgs(listFile);
    var tags := MetadataArgs(m);
    var args := fixed + tags + ["-y", outputPath];
    assert args[..14] == fixed;
    assert args[14..|args| - 2] == tags;
    args
  }

  const NoDuration := "no duration found"

  /** `getDuration`: ffprobe's trimmed output, parsed. An ffprobe failure is
      passed on; an empty or "N/A" answer is an error of its own. */
  function GetDuration(output: Result<string, string>, parseMs: string -> Result<int, string>): (r: Result<int, string>)
    ensures output.Err? ==> r == Err(output.error)
    ensures output.Ok? && (TrimSpace(output.value) == "" || TrimSpace(output.value) == "N/A") ==> r == Err(NoDuration)
    ensures r.Ok? ==> output.Ok? && TrimSpace(output.value) != "" && TrimSpace(output.value) != "N/A"
                      && parseMs(TrimSpace(output.value)) == Ok(r.value)
  {
    match output
    case Err(e) => Err(e)
    case Ok(text) =>
      var t := TrimSpace(text);
      if t == "" || t == "N/A" then Err(NoDuration)
      else match parseMs(t) {
        case Ok(ms) => Ok(ms)
        case Err(e) => Err("parse duration failed: " + e)
      }
  }

  /** The request checks, in the handler's order. */
  function Validate(httpMethod: string, body: Result<ConcatRequest, string>): (r: Result<ConcatRequest, Reply>)
    ensures r.Ok? <==> httpMethod == "POST" && body.Ok? && |body.value.segments| > 0 && body.value.outputUrl != ""
    ensures r.Ok? ==> r.value == body.value
    ensures httpMethod != "POST" ==> r == Err(Rejection(MethodNotAllowed, "Method not allowed"))
    ensures httpMethod == "POST" && body.Err? ==> r == Err(Rejection(BadRequest, "Invalid request body: " + body.error))
    ensures httpMethod == "POST" && body.Ok? && |body.value.segments| == 0 ==>
              r == Err(Rejection(BadRequest, "No segments provided"))
    ensures httpMethod == "POST" && body.Ok? && |body.value.segments| > 0 && body.value.outputUrl == "" ==>
              r == Err(Rejection(BadRequest, "No output URL provided"))
  {
    if httpMethod != "POST" then Err(Rejection(MethodNotAllowed, "Method not allowed"))
    else match body
      case Err(e) => Err(Rejection(BadRequest, "Invalid request body: " + e))
      case Ok(req) =>
        if |req.segments| == 0 then Err(Rejection(BadRequest, "No segments provided"))
        else if req.outputUrl == "" then Err(Rejection(BadRequest, "No output URL provided"))
        else Ok(req)
  }

  /** The status written when a job is accepted. */
  function Begin(req: ConcatRequest, now: int): Status {
    Status(Processing, req.episodeId, Some(now), |req.segments|, 0, "", None)
  }

  /** `handleError`'s status change: only the state and the last error
      change. */
  function Fail(st: Status, message: string): Status {
    st.(state := Error, lastError := message)
  }

  /** What stops the download of segment `i`, if anything: a finished
      context first, then a failed download. */
  function DownloadFailure(req: ConcatRequest, dir: string, env: Env, i: nat): Option<Reply>
    requires i < |req.segments|
  {
    match env.cancelled(i + 1)
    case Some(e) => Some(Rejection(Unavailable, "Job cancelled during download: " + e))
    case None =>
      match env.download(req.segments[i], SegmentPath(dir, i))
      case Some(e) => Some(Rejection(InternalError, "Failed to download segment " + Decimal.NatToString(i) + ": " + e))
      case None => None
  }

  /** The first `|updates|` segments are downloaded: each was counted in
      turn and is listed. */
  ghost predicate Downloaded(req: ConcatRequest, dir: string, env: Env, begun: Status,
                             updates: seq<Status>, listing: string) {
    && |updates| <= |req.segments|
    && (forall j :: 0 <= j < |updates| ==> updates[j] == begun.(segmentsDownloaded := j + 1))
    && (forall j :: 0 <= j < |updates| ==> j < |req.segments| && DownloadFailure(req, dir, env, j).None?)
    && listing == Listing(SegmentPaths(dir, |updates|))
  }

  lemma DownloadedSnoc(req: ConcatRequest, dir: string, env: Env, begun: Status,
                       updates: seq<Status>, listing: string)
    requires Downloaded(req, dir, env, begun, updates, listing)
    requires |updates| < |req.segments| && DownloadFailure(req, dir, env, |updates|).None?
    ensures Downloaded(req, dir, env, begun, updates + [begun.(segmentsDownloaded := |updates| + 1)],
                       listing + ListLine(SegmentPath(dir, |updates|)) + "\n")
  {
    CountsSnoc(begun, updates);
    FailuresSnoc(req, dir, env, |updates|);
    ListingSnoc(dir, |updates|);
  }

  lemma CountsSnoc(begun: Status, updates: seq<Status>)
    requires forall j :: 0 <= j < |updates| ==> updates[j] == begun.(segmentsDownloaded := j + 1)
    ensures var more := updates + [begun.(segmentsDownloaded := |updates| + 1)];
      forall j :: 0 <= j < |more| ==> more[j] == begun.(segmentsDownloaded := j + 1)
  {
    var more := updates + [begun.(segmentsDownloaded := |updates| + 1)];
    forall j | 0 <= j < |more|
      ensures more[j] == begun.(segmentsDownloaded := j + 1)
    {
      if j < |updates| {
        assert more[j] == updates[j];
      }
    }
  }

  lemma FailuresSnoc(req: ConcatRequest, dir: string, env: Env, n: nat)
    requires n < |req.segments| && DownloadFailure(req, dir, env, n).None?
    requires forall j :: 0 <= j < n ==> j < |req.segments| && DownloadFailure(req, dir, env, j).None?
    ensures forall j :: 0 <= j < n + 1 ==> j < |req.segments| && DownloadFailure(req, dir, env, j).None?
  {
  }

  /** The download loop. Each success is followed by a status update that
      counts it; the loop stops at the first failure. */
  method DownloadAll(req: ConcatRequest, dir: string, env: Env, begun: Status)
    returns (updates: seq<Status>, listing: string, failure: Option<Reply>)
    ensures |updates| <= |req.segments|
    ensures forall j :: 0 <= j < |updates| ==> updates[j] == begun.(segmentsDownloaded := j + 1)
    ensures forall j :: 0 <= j < |updates| ==> DownloadFailure(req, dir, env, j).None?
    ensures failure.None? ==> |updates| == |req.segments|
    ensures failure.None? ==> listing == Listing(SegmentPaths(dir, |req.segments|))
    ensures failure.Some? ==> |updates| < |req.segments| && failure == DownloadFailure(req, dir, env, |updates|)
  {
    updates, listing, failure := [], "", None;
    while |updates| < |req.segments|
      invariant Downloaded(req, dir, env, begun, updates, listing)
      decreases |req.segments| - |updates|
    {
      var i := |updates|;
      var stop := DownloadFailure(req, dir, env, i);
      if stop.Some? {
        failure := stop;
        return;
      }
      DownloadedSnoc(req, dir, env, begun, updates, listing);
      listing := listing + ListLine(SegmentPath(dir, i)) + "\n";
      updates := updates + [begun.(segmentsDownloaded := i + 1)];
    }
  }

  /** The job after the downloads: write the list, run ffmpeg, ask ffprobe
      for the duration (a failure there only costs the duration, which
      becomes 0), take the file size, upload. */
  function AfterDownload(req: ConcatRequest, dir: string, listing: string, env: Env): (r: Reply)
    ensures r.success <==> r.code == 200
    ensures r.success <==> env.writeList(PathJoin(dir, "list.txt"), listing).None?
                           && env.ffmpeg(FfmpegArgs(PathJoin(dir, "list.txt"), req.metadata, PathJoin(dir, "output.mp3"))).None?
                           && env.stat(PathJoin(dir, "output.mp3")).Ok?
                           && env.upload(PathJoin(dir, "output.mp3"), req.outputUrl).None?
    ensures r.success ==> r.fileSize == env.stat(PathJoin(dir, "output.mp3")).value && r.error == ""
    ensures r.success ==> (r.durationMs == match GetDuration(env.probe(PathJoin(dir, "output.mp3")), env.parseMs)
                                           case Ok(ms) => ms
                                           case Err(_) => 0)
    ensures !r.success ==> r.code in {InternalError, Unavailable} && r.durationMs == 0 && r.fileSize == 0
    ensures r.code == Unavailable <==>
              (env.writeList(PathJoin(dir, "list.txt"), listing).None?
               && env.ffmpeg(FfmpegArgs(PathJoin(dir, "list.txt"), req.metadata, PathJoin(dir, "output.mp3"))).Some?
               && env.ffmpeg(FfmpegArgs(PathJoin(dir, "list.txt"), req.metadata, PathJoin(dir, "output.mp3"))).value.Cancelled?)
  {
    var listFile := PathJoin(dir, "list.txt");
    var output := PathJoin(dir, "output.mp3");
    match env.writeList(listFile, listing)
    case Some(e) => Rejection(InternalError, "Failed to write list file: " + e)
    case None =>
      match env.ffmpeg(FfmpegArgs(listFile, req.metadata, output))
      case Some(Cancelled(e)) => Rejection(Unavailable, "FFmpeg cancelled: " + e)
      case Some(Crashed(e, stderr)) => Rejection(InternalError, "FFmpeg failed: " + e + "\nStderr: " + stderr)
      case None =>
        var duration := match GetDuration(env.probe(output), env.parseMs)
                        case Ok(ms) => ms
                        case Err(_) => 0;
        match env.stat(output)
        case Err(e) => Rejection(InternalError, "Failed to stat output file: " + e)
        case Ok(size) =>
          match env.upload(output, req.outputUrl)
          case Some(e) => Rejection(InternalError, "Failed to upload result: " + e)
          case None => Reply(200, true, duration, size, "")
  }

  /** Every segment downloads: no cancellation and no failed download. */
  predicate AllDownloaded(req: ConcatRequest, dir: string, env: Env) {
    forall i :: 0 <= i < |req.segments| ==> DownloadFailure(req, dir, env, i).None?
  }

  /** The status values written while a job runs: the accepted status,
      then one per downloaded segment, each counting one more. */
  ghost predicate Progress(statuses: seq<Status>, req: ConcatRequest, now: int) {
    |statuses| >= 1
    && forall j :: 0 <= j < |statuses| ==>
         j <= |req.segments| && statuses[j] == Begin(req, now).(segmentsDownloaded := j)
  }

  lemma ProgressFrom(req: ConcatRequest, now: int, updates: seq<Status>)
    requires |updates| <= |req.segments|
    requires forall j :: 0 <= j < |updates| ==> updates[j] == Begin(req, now).(segmentsDownloaded := j + 1)
    ensures Progress([Begin(req, now)] + updates, req, now)
  {
  }

  /** The job for an accepted request, from the `processing` status on:
      the status goes through the progress values and ends idle on
      success, or as the last progress value marked as an error. */
  method RunJob(req: ConcatRequest, env: Env) returns (trace: seq<Status>, reply: Reply)
    ensures |trace| >= 2 && Progress(trace[..|trace| - 1], req, env.now)
    ensures reply.success ==> |trace| == |req.segments| + 2 && trace[|trace| - 1] == IdleStatus
    ensures !reply.success ==> trace[|trace| - 1] == Fail(trace[|trace| - 2], reply.error)
    ensures reply.success <==> reply.code == 200
    ensures reply.success <==>
              env.tempDir.Ok? && env.cancelled(0).None? && AllDownloaded(req, env.tempDir.value, env)
              && AfterDownload(req, env.tempDir.value, Listing(SegmentPaths(env.tempDir.value, |req.segments|)), env).success
    ensures env.tempDir.Err? ==>
              |trace| == 2 && reply == Rejection(InternalError, "Failed to create temp dir: " + env.tempDir.error)
    ensures env.tempDir.Ok? && env.cancelled(0).Some? ==>
              |trace| == 2 && reply == Rejection(Unavailable, "Job cancelled: " + env.cancelled(0).value)
    ensures env.tempDir.Ok? && env.cancelled(0).None? && !AllDownloaded(req, env.tempDir.value, env) ==>
              exists k :: 0 <= k < |req.segments| && |trace| == k + 2
                && (forall j :: 0 <= j < k ==> DownloadFailure(req, env.tempDir.value, env, j).None?)
                && DownloadFailure(req, env.tempDir.value, env, k) == Some(reply)
    ensures env.tempDir.Ok? && env.cancelled(0).None? && AllDownloaded(req, env.tempDir.value, env) ==>
              |trace| == |req.segments| + 2
              && reply == AfterDownload(req, env.tempDir.value, Listing(SegmentPaths(env.tempDir.value, |req.segments|)), env)
  {
    var begun := Begin(req, env.now);
    var progress := [begun];
    ProgressFrom(req, env.now, []);
    if env.tempDir.Err? {
      reply := Rejection(InternalError, "Failed to create temp dir: " + env.tempDir.error);
    } else if env.cancelled(0).Some? {
      reply := Rejection(Unavailable, "Job cancelled: " + env.cancelled(0).value);
    } else {
      progress, reply := FetchAndFinish(req, env.tempDir.value, env);
    }
    var final := if reply.success then IdleStatus else Fail(progress[|progress| - 1], reply.error);
    trace := progress + [final];
    assert trace[..|trace| - 1] == progress;
  }

  /** The job once the temp dir exists and nothing cancelled it: the
      downloads, each one counted, then the steps after them. */
  method FetchAndFinish(req: ConcatRequest, dir: string, env: Env) returns (progress: seq<Status>, reply: Reply)
    ensures |progress| >= 1 && Progress(progress, req, env.now)
    ensures reply.success <==> reply.code == 200
    ensures reply.success <==>
              AllDownloaded(req, dir, env) && AfterDownload(req, dir, Listing(SegmentPaths(dir, |req.segments|)), env).success
    ensures !AllDownloaded(req, dir, env) ==>
              exists k :: 0 <= k < |req.segments| && |progress| == k + 1
                && (forall j :: 0 <= j < k ==> DownloadFailure(req, dir, env, j).None?)
                && DownloadFailure(req, dir, env, k) == Some(reply)
    ensures AllDownloaded(req, dir, env) ==>
              |progress| == |req.segments| + 1 && reply == AfterDownload(req, dir, Listing(SegmentPaths(dir, |req.segments|)), env)
  {
    var begun := Begin(req, env.now);
    var updates, listing, failure := DownloadAll(req, dir, env, begun);
    ProgressFrom(req, env.now, updates);
    progress := [begun] + updates;
    if failure.Some? {
      reply := failure.value;
      assert DownloadFailure(req, dir, env, |updates|) == Some(reply);
    } else {
      reply := AfterDownload(req, dir, listing, env);
    }
  }

  /** `handleConcat`. `trace` is every value the shared status record is
      set to, in order; a rejected request leaves it untouched. */
  method HandleConcat(httpMethod: string, body: Result<ConcatRequest, string>, env: Env)
    returns (trace: seq<Status>, reply: Reply)
    ensures Validate(httpMethod, body).Err? ==> trace == [] && reply == Validate(httpMethod, body).error
    ensures Validate(httpMethod, body).Ok? ==> |trace| >= 2 && Progress(trace[..|trace| - 1], body.value, env.now)
    ensures reply.success <==> reply.code == 200
    ensures reply.success <==>
              Validate(httpMethod, body).Ok? && env.tempDir.Ok? && env.cancelled(0).None?
              && AllDownloaded(body.value, env.tempDir.value, env)
              && AfterDownload(body.value, env.tempDir.value, Listing(SegmentPaths(env.tempDir.value, |body.value.segments|)), env).success
    ensures reply.success ==> trace[|trace| - 1] == IdleStatus
    ensures Validate(httpMethod, body).Ok? && !reply.success ==> trace[|trace| - 1] == Fail(trace[|trace| - 2], reply.error)
    ensures Validate(httpMethod, body).Ok? && env.tempDir.Err? ==>
              |trace| == 2 && reply == Rejection(InternalError, "Failed to create temp dir: " + env.tempDir.error)
    ensures Validate(httpMethod, body).Ok? && env.tempDir.Ok? && env.cancelled(0).Some? ==>
              |trace| == 2 && reply == Rejection(Unavailable, "Job cancelled: " + env.cancelled(0).value)
    ensures Validate(httpMethod, body).Ok? && env.tempDir.Ok? && env.cancelled(0).None?
            && !AllDownloaded(body.value, env.tempDir.value, env) ==>
              exists k :: 0 <= k < |body.value.segments| && |trace| == k + 2
                && (forall j :: 0 <= j < k ==> DownloadFailure(body.value, env.tempDir.value, env, j).None?)
                && DownloadFailure(body.value, env.tempDir.value, env, k) == Some(reply)
    ensures Validate(httpMethod, body).Ok? && env.tempDir.Ok? && env.cancelled(0).None?
            && AllDownloaded(body.value, env.tempDir.value, env) ==>
              |trace| == |body.value.segments| + 2
              && reply == AfterDownload(body.value, env.tempDir.value,
                                        Listing(SegmentPaths(env.tempDir.value, |body.value.segments|)), env)
  {
    var checked := Validate(httpMethod, body);
    if checked.Err? {
      return [], checked.error;
    }
    trace, reply := RunJob(checked.value, env);
  }
}
