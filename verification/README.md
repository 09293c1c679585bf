# Strollcast director — a Dafny model

Strollcast turns research papers into two-voice podcast episodes. The
director is the pipeline that takes a markdown script, in which
`**ERIC:**` / `**MAYA:**` lines are speech and `## [...]` headers are pauses,
to a published AAC audio file (`.m4a`) and a WebVTT transcript. This project models the
director's core in Dafny and proves properties of it:

- the script parser: speaker tags, the removal of citations, asides and
  emphasis, and pause headers;
- the content-addressed audio cache. Its key is the SHA-256 of a
  `json.dumps(..., sort_keys=True)` record of text, voice and settings.
  There are two copies: a local one (files) and a serverless one (an
  object store);
- episode assembly: one clip and a 300 ms gap per line, 800 ms of
  silence per pause, and the transcript timeline;
- WebVTT rendering with `HH:MM:SS.mmm` timestamps;
- the two-pass loudness normalisation filter;
- the pre-flight cache scan and the normalisation pass;
- the serverless `generate_episode` and its uploads;
- episode identifiers: `podcast_id`, `derive_episode_folder` and arXiv id
  extraction;
- paper-content retrieval: ar5iv HTML, then the PDF, then the abstract;
- the Go concat server: request validation, the download loop, the
  ffmpeg argument list and the job status.

Modules, one per file: `Outcomes`, `Strings`, `Seqs`, `Decimal`, `Config`,
`Json`, `Utf8`, `ScriptParser`, `CacheKey`, `ObjectStore`, `CacheThrough`,
`Timeline`, `WebVtt`, `Loudness`, `Identifiers`, `Episode`, `Serverless`,
`Runs`, `HtmlText`, `PaperContent`, `ConcatServer`.

## How the outside world is represented

These are parameters of the model:

- SHA-256;
- text-to-speech synthesis, a deterministic `(text, voice) -> Option<bytes>`;
- audio durations, an oracle giving integer milliseconds;
- silence and concatenation;
- the loudness analyser's output;
- the object store's fault injection, for reads and for writes;
- how the local disk writes of each synthesised segment go (the cache
  file, then the output file);
- the loudness normaliser of the serverless generator, which may fail;
- the HTML tokeniser;
- the PDF page texts;
- the environment of the Go server: downloads, file writes, ffmpeg,
  ffprobe, float parsing, the clock and cancellation.

Python's `str.isspace` is modelled exactly, as a finite set of code points.
Go's `strings.TrimSpace` is modelled the same way, without 0x1C-0x1F.

Where the code and its description disagree, the model follows the code:

- Transcript cue numbers are the index into the timed-segment list. That
  list never holds pauses, so the numbers run 1..n with no gaps.
- The ZeRO episode generator keeps `{{src:...}}` citations, and its
  speakers are ALEX and MAYA.
- The agent script tries the PDF only when a PDF reader is installed. The
  serverless copy always tries it.
- The agent's abstract-only note carries one more sentence than the
  serverless copy's.
- The local cache treats any existing file as a hit, even an empty one.
  The serverless `generate_segment` treats an empty object as a miss.

## Model

| member | source | states |
|---|---|---|
| ScriptParser.KnownSpeaker | python/generate.py:97 | A tag is accepted exactly when it names a speaker of the dialect (ERIC/MAYA; ALEX/MAYA in the ZeRO generator, public/rajbhandari-2020-zero/generate.py:53), and the speaker returned carries that tag |
| ScriptParser.MatchLen | python/generate.py:90-92 | A non-greedy match of a citation, bold aside or aside starts and ends with that construct's delimiters and stays on one line |
| ScriptParser.SubAsideLeavesNone | python/generate.py:92 | After aside removal, no bracketed `[...]` aside is left in a single-line text |
| ScriptParser.RemoveCharKeepsNoAside | python/generate.py:93-94 | Deleting the emphasis stars cannot create a new aside |
| ScriptParser.MatchSpeakerTag | python/generate.py:84-87 | A line matches a speaker tag only if it starts with `**TAG:**`, where TAG is a non-empty run of upper-case letters; the rest is single-line |
| ScriptParser.CleanText | python/generate.py:89-95 | Cleaned speech has no `*`, no aside and no newline, and is stripped of Python whitespace (the ZeRO copy skips citation removal, public/rajbhandari-2020-zero/generate.py:47-51) |
| ScriptParser.SpeechLine | python/generate.py:85-101 | A tagged line yields one segment exactly when the speaker is known and the cleaned text is non-empty; that segment is well formed |
| ScriptParser.ParseLine | python/generate.py:78-108 | Each line yields at most one segment, and every segment is well formed |
| ScriptParser.ParseScript | modal/src/generator.py:45-71 | The serverless parser's loop produces exactly the python parser's segment list, and every segment is well formed |
| ScriptParser.ParseLinesAppend | python/generate.py:76-110 | Parsing distributes over concatenation of lines: segments follow line order |
| ScriptParser.ParseLinesWellFormed | python/generate.py:70-110 | A script yields at most one segment per line, and all of them are well formed |
| ScriptParser.HeaderLineIsPause | python/generate.py:103-108 | A `## [` header line is exactly one pause |
| ScriptParser.TagLineIsNeverPause | python/generate.py:84-101 | A speaker-tag line is never a pause, and an unknown speaker's line is dropped |
| ScriptParser.BlankLineIsSkipped | python/generate.py:79-81 | A whitespace-only line yields nothing |
| ScriptParser.PausesAreHeaders | python/generate.py:103-108 | The number of pauses equals the number of header lines |
| ScriptParser.SpeakersHaveVoices | modal/src/generator.py:64-65 | Every parsed speaker has an entry in VOICES (modal/src/app.py:35-38), so the voice lookups at modal/src/generator.py:92 and :165 cannot fail on parsed scripts |
| CacheKey.LocalRecordShape | python/generate.py:42-49 | The local cache record's fields have distinct keys |
| CacheKey.ServerlessRecordShape | modal/src/generator.py:22-31 | The serverless cache record's fields have distinct keys |
| CacheKey.LocalSortedIsSorted | python/generate.py:49 | `sort_keys=True` orders the local record's fields by key |
| CacheKey.ServerlessSortedIsSorted | modal/src/generator.py:31 | `sort_keys=True` orders the serverless record's fields by key |
| CacheKey.LocalSameMembers | python/generate.py:42-49 | Sorting keeps exactly the local record's fields |
| CacheKey.ServerlessSameMembers | modal/src/generator.py:22-31 | Sorting keeps exactly the serverless record's fields |
| CacheKey.LocalRecordInjective | python/generate.py:40-50 | Two local records are equal only for the same text and voice |
| CacheKey.ServerlessRecordInjective | modal/src/generator.py:16-32 | Two serverless records are equal only for the same text and voice |
| CacheKey.RecordsNeverCoincide | modal/src/generator.py:22-31 | A local record and a serverless record are never the same string |
| CacheKey.LocalRecordAscii | python/generate.py:50 | The local record is pure ASCII, whatever the text (ensure_ascii escaping) |
| CacheKey.LocalBytesAreAscii | python/generate.py:50 | `.encode()` of the local record is byte-for-byte its characters |
| CacheKey.HexDigest | python/generate.py:50 | A hex digest has two hex characters per byte |
| CacheKey.HexDigestInjective | python/generate.py:50 | Different digests have different hex strings |
| CacheKey.LocalKey | python/generate.py:40-50 | The local key has two characters per byte of the digest |
| CacheKey.ServerlessKey | modal/src/generator.py:16-32 | The serverless key has two characters per byte of the digest |
| CacheKey.LocalKeyDetermines | python/generate.py:40-50 | Equal local keys mean the same text and voice, or a SHA-256 collision |
| CacheKey.ServerlessKeyDetermines | modal/src/generator.py:16-32 | Equal serverless keys mean the same text and voice, or a SHA-256 collision |
| CacheKey.KeysNeverShared | modal/src/generator.py:22-31 | A local key equals a serverless key only through a SHA-256 collision |
| Json.Dumps | python/generate.py:42-49 | A dumped record is a braced object |
| Json.DumpsOrderIndependent | modal/src/generator.py:22-31 | With `sort_keys`, records with the same fields in any order dump to the same string |
| Json.SortByKey | python/generate.py:49 | Sorting yields a key-ordered permutation of the fields |
| Json.SortBySorted | python/generate.py:49 | Any key-ordered permutation of the fields is the sort's result |
| Json.SortedUnique | modal/src/generator.py:31 | Two key-ordered sequences with the same fields are equal |
| Json.Hex4RoundTrip | python/generate.py:42-49 | A `\uXXXX` escape reads back as the code unit written |
| Json.ReadEscape | python/generate.py:42-49 | The JSON escaping of any string, followed by the closing quote, reads back as that string and leaves the rest of the input |
| Json.QuoteCancel | python/generate.py:42-49 | A quoted string followed by anything determines both the string and what follows |
| Utf8.DecodeEncode | python/generate.py:50 | UTF-8 decoding undoes encoding |
| Utf8.EncodeInjective | modal/src/storage.py:114 | Different strings encode to different bytes |
| Utf8.EncodeAscii | python/generate.py:50 | An ASCII string encodes to one byte per character |
| Decimal.ParseNatToString | python/generate.py:229 | A formatted number reads back as itself |
| Decimal.NatToStringInjective | python/generate.py:571 | Different numbers format differently |
| Decimal.ZeroPad | python/generate.py:571 | `{:04d}`-style padding is at least the width, all digits, and reads back as the number (also api/container/main.go:315) |
| CacheThrough.GenerateAudioAt | python/generate.py:139-176 | A hit reports "cached" and synthesises nothing. A miss always calls synthesis, then writes the cache file and the output file inside one `try`. It reports "generated" exactly when synthesis and both writes succeed, and otherwise returns nothing. The cache then holds the clip, the partial file or nothing, as the cache write left it. No other key changes, and any entry already there is kept unchanged |
| CacheThrough.GenerateAudioIdempotent | python/generate.py:141-147 | A successful request leaves the cache in a state where repeating it is a hit with the same output and no change, whatever the disk does next |
| CacheThrough.FailedWriteLeavesHit | python/generate.py:53-67 | A failed request that left a cache file makes the next request a hit on that file without synthesis. The file is the full clip when only the output write failed, and the partial file when the cache write failed midway |
| CacheThrough.SynthesiseAndStore | modal/src/generator.py:100-117 | The miss path succeeds exactly when synthesis, normalisation and the cache write all succeed. The returned bytes are the normalised clip, and the store is the old one with that clip under the key. Each failure names the step that failed |
| CacheThrough.GenerateSegment | modal/src/generator.py:92-117 | Store read errors propagate. A non-empty cached object is returned without synthesis or write. An empty or missing one goes down the miss path |
| CacheThrough.GenerateSegmentCachesResult | modal/src/generator.py:92-117 | A hit does not touch the store. After a successful request, the same request is a hit that returns the same bytes |
| ObjectStore.GetObject | modal/src/storage.py:43-49 | A read succeeds exactly when the object exists and no fault is injected; a missing object reports NoSuchKey |
| ObjectStore.PutObject | modal/src/storage.py:63-68 | A write sets that one object and leaves every other object as it was |
| ObjectStore.SegmentKeyInjective | modal/src/storage.py:41 | Different cache keys address different objects |
| ObjectStore.GetCachedSegment | modal/src/storage.py:30-49 | Absent exactly on NoSuchKey; any other error propagates; a found object is the stored bytes |
| ObjectStore.SaveCachedSegment | modal/src/storage.py:52-68 | A write fails exactly when the service answers it with an error code, which is raised and leaves the store as it was; otherwise it puts the segment under its key |
| ObjectStore.SaveThenGet | modal/src/storage.py:30-68 | A saved segment reads back as the same bytes when neither the write nor the read faults |
| ObjectStore.SaveKeepsOthers | modal/src/storage.py:52-68 | Saving one segment does not change what any other key reads |
| ObjectStore.PublicDomain | modal/src/storage.py:93 | The public domain is the environment's value when it is set, and otherwise the default |
| ObjectStore.UploadEpisode | modal/src/storage.py:71-94 | Fails exactly when the service refuses the write, raising its code. Otherwise the `.m4a` audio is stored under `episodes/<name>.m4a`, the URL is exactly that object's public URL, and no other object changes |
| ObjectStore.UploadTranscript | modal/src/storage.py:97-119 | Fails exactly when the service refuses the write, raising its code. Otherwise the stored transcript decodes back to the VTT text, under `api/<id>.vtt`, the URL is exactly that object's public URL, and no other object changes |
| ObjectStore.UploadsKeepCache | modal/src/storage.py:85-90 | A completed upload of an episode or transcript never changes the segment cache |
| Timeline.Assemble | python/generate.py:560-617 | The clock ends at the episode length and the pieces are one per pause and two per clip. The entries are exactly the segment-by-segment `Entries` of the outcomes, one per clip in order, each starting at the clock the segments before it reach (Timeline.EntryStart). Consecutive entries never overlap and are at least 300 ms apart, more when a pause lies between (the same timeline as python/generate.py:360-404) |
| Timeline.PiecesCount | python/generate.py:573-612 | The file list has one entry per pause and two per clip |
| Timeline.ElapsedIsLength | python/generate.py:573-612 | The running clock equals 800 ms per pause plus each clip's duration and 300 ms |
| Timeline.LengthGrows | python/generate.py:573-612 | Each outcome adds its own cost to the length |
| Timeline.LogStep | python/generate.py:598-612 | Appending a clip's entry at the current clock keeps the transcript log consistent |
| Timeline.Summarise | python/generate.py:560-617 | Over the whole script, the clock reaches the episode's length, there are one piece per pause and two per clip, and the entries record the clips one for one without overlapping |
| Timeline.EntriesLog | python/generate.py:598-612 | Every prefix's entries record its clips, in order, at least 300 ms apart, the last ending at least 300 ms before the clock |
| Timeline.EntriesCount | python/generate.py:598-605 | One transcript entry per spoken clip |
| Timeline.EntryStart | python/generate.py:598-612 | The clip of segment j is the entry numbered by the clips before it. It starts at the clock the segments before it reach (800 ms per pause, each earlier clip plus 300 ms, nothing for a dropped segment) and ends its duration later |
| Timeline.PauseDelaysClip | python/generate.py:573-612 | A section break before the first clip makes it start at 800 ms |
| WebVtt.TimestampRoundTrip | python/generate.py:224-229 | `HH:MM:SS.mmm` reads back as the milliseconds it was made from, with minutes and seconds below 60 |
| WebVtt.ParseClock | python/generate.py:224-229 | Reading a clock string gives the sum of its fields in milliseconds |
| WebVtt.ClockFields | python/generate.py:229 | A clock string splits into two-digit hours, minutes and seconds and three-digit milliseconds |
| WebVtt.ClockArithmetic | python/generate.py:226-228 | Hours, minutes, seconds and milliseconds recombine to the total |
| WebVtt.Capitalize | python/generate.py:247 | Capitalising keeps the length |
| WebVtt.VoiceNames | python/generate.py:247 | Voice tags read Eric, Maya and Alex |
| WebVtt.LineCount | python/generate.py:239-253 | A transcript is a header and a blank line, then four lines per cue |
| WebVtt.CueLine | python/generate.py:241-253 | Line 2+4k+j of the transcript is line j of cue k |
| WebVtt.CueNumbers | python/generate.py:250 | Cue k is numbered k+1 |
| WebVtt.CueEndsBlank | python/generate.py:253 | Every cue ends with a blank line |
| WebVtt.TimingLineFields | python/generate.py:251 | A timing line is the start timestamp, `-->` and the end timestamp |
| WebVtt.CueTimes | python/generate.py:245-251 | Cue k's timing line carries entry k's start and end |
| WebVtt.CueVoice | python/generate.py:252 | Cue k's text line is `<v Name>` and entry k's text |
| WebVtt.LinesHaveNoNewline | python/generate.py:239-256 | With single-line texts, no transcript line contains a newline |
| WebVtt.RenderSplitsIntoLines | python/generate.py:239-256 | The rendered file splits at newlines exactly into its lines and starts with `WEBVTT` |
| Loudness.Rfind | python/generate.py:272-273 | `rfind` gives the last occurrence, or -1 exactly when there is none |
| Loudness.JsonSlice | python/generate.py:270-276 | A report is cut out exactly when a `{` comes before the last `}` |
| Loudness.JsonSliceShape | python/generate.py:272-276 | The cut-out report runs from the last `{` to the last `}` |
| Loudness.NoBraceNoReport | python/generate.py:272-279 | Output without braces gives no report |
| Loudness.AnalyzeLoudness | python/generate.py:261-279 | No report means no statistics; otherwise the statistics are the parsed report |
| Loudness.Get | python/generate.py:297-301 | A missing measurement falls back to its default |
| Loudness.MeasuredOptions | python/generate.py:297-308 | The second pass passes the five measured values, by name, then `linear=true` |
| Loudness.NormalizeFilter | python/generate.py:287-311 | Without statistics the filter is single-pass; with them it is two-pass |
| Loudness.NormalizeArgs | python/generate.py:287-311 | The ffmpeg call reads the input, applies that filter and writes the output |
| Loudness.ChosenStats | python/generate.py:383-388 | Statistics are used exactly when the analysis produced a non-empty report (an empty dict is falsy) |
| Loudness.TwoPassFilterFields | python/generate.py:305-308 | The two-pass filter's fields are the targets followed by the measured options |
| Loudness.PassesShareTarget | python/generate.py:265 | Analysis, single-pass and two-pass filters share the same I/TP/LRA targets (also :291 and :305) |
| Loudness.EmptyReportIsSinglePass | python/generate.py:383-388 | An empty analysis report falls back to single-pass normalisation |
| Episode.LocalKeys | python/generate.py:40-50 | The generator's keys are the local cache keys (python/generate.py:596) |
| Episode.GenerateOne | python/generate.py:595-617 | A pause adds silence. A line either becomes a timed clip taken from the cache, or is dropped when it was not cached and synthesis or one of the writes failed. The cache only grows, and only under that line's key. There is one count for each clip (the pause is at python/generate.py:573-576) |
| Episode.GenerateAll | python/generate.py:560-617 | The outcomes follow the segments one for one; clips are timed from the cache; a dropped line was not cached and failed to synthesise or to be written; new cache entries belong to the script's lines |
| Episode.TempNameInjective | python/generate.py:571 | Temporary names with the same stem differ for different indices (also :609) |
| Episode.StemsDiffer | python/generate.py:571 | A segment file and a pause file never share a name (also :609) |
| Episode.PiecesOrdered | python/generate.py:567-612 | Concatenation pieces follow the script's order |
| Episode.FileNamesDistinct | python/generate.py:571-611 | No two pieces of one episode share a file name |
| Episode.Excerpt | python/generate.py:340 | The reported excerpt is the text's first 50 characters, or all of a shorter text |
| Episode.MissingFrom | python/generate.py:332-340 | The scan lists, in order, exactly the speech segments whose key is not cached |
| Episode.ScanEmptyIffCached | python/generate.py:332-351 | The scan is empty exactly when every line is cached |
| Episode.NormalizePass | python/generate.py:332-404 | The pass fails, with the scan's list and before any audio work, exactly when some line is uncached; otherwise it normalises every segment |
| Episode.NormalizeOne | python/generate.py:374-398 | A normalised line is a clip whose duration is that of its normalised audio |
| Episode.NormalizeAll | python/generate.py:365-404 | Every segment is normalised in order, none dropped |
| Episode.FilterFor | python/generate.py:382-388 | The filter is two-pass exactly when analysis yields a non-empty report |
| Episode.GenerateThenNormalize | python/generate.py:332-349 | If generation drops nothing, the normalisation pass succeeds and keeps every clip (with the keys of :597) |
| Episode.ParsedScriptIsStrollcastSpeech | python/generate.py:97-101 | Parsed speakers are ERIC or MAYA, so the scan can compute their keys (:329) |
| Episode.ZeroOutcome | public/rajbhandari-2020-zero/generate.py:181-193 | A ZeRO line is a clip exactly when synthesis succeeds in the speaker's voice (voice at :186) |
| Episode.ZeroOutcomes | public/rajbhandari-2020-zero/generate.py:175-193 | One outcome per segment, in order |
| Episode.ZeroAudioFiles | public/rajbhandari-2020-zero/generate.py:172-193 | The file list has one file per pause and two per clip, and no name repeats |
| Serverless.EmptyObjectCountedAsHit | modal/src/generator.py:164-167 | As written: an empty cached object counts as a hit although `generate_segment` re-synthesises it (modal/src/generator.py:96-98) |
| Serverless.WasCachedMeansNotSynthesised | modal/src/generator.py:164-192 | Corrected: a segment counts as a hit exactly when it was not synthesised (matching modal/src/generator.py:96-98), when neither read reports a stored object as missing |
| Serverless.Speak | modal/src/generator.py:164-192 | A speech step succeeds exactly when the voice is known, the statistics read at :167 answers and segment generation succeeds. A failed statistics read fails with its code, and any other failure is generation's. It returns generation's audio and counts a hit by what the statistics read saw, which agrees with "not synthesised" when neither read reports a stored object as missing |
| Serverless.Advance | modal/src/generator.py:157-192 | A pause always succeeds, adds 800 ms of silence and keeps the store. A line succeeds exactly when its statistics read and `generate_segment` do. It then adds the audio that call returned, timed by its duration, a 300 ms gap and one count, and the store becomes the one that call left |
| Serverless.RunFrom | modal/src/generator.py:157-192 | The loop taken one segment at a time stops at the first failure, with the store as it stood. Only a speech segment can fail, and a completed run has one outcome per segment |
| Serverless.GenerateSegments | modal/src/generator.py:150-192 | The loop's result, failure included, is that of the step-by-step run. On success there is one outcome per segment, in order, none dropped, and one count per clip. Each audio part lines up with its timeline piece |
| Serverless.EpisodeAndTranscriptDiffer | modal/src/storage.py:83 | The episode and transcript objects never collide (transcript key at :109) |
| Serverless.Publish | modal/src/generator.py:200-212 | Succeeds exactly when neither upload is refused. Then both objects are stored and the URLs returned are their public URLs. A refused episode upload leaves the store as it was. A refused transcript upload leaves the episode published |
| Serverless.ClipsAreSpeech | modal/src/generator.py:219 | The reported segment count is the number of non-pause segments |
| Serverless.TranscriptLines | modal/src/generator.py:197-198 | The transcript opens with `WEBVTT` and has four lines per cue |
| Serverless.RenderTranscript | modal/src/generator.py:194-198 | The clock ends at the episode length and the clip count is the number of speech segments. The transcript is the WebVTT rendering of the timeline's entries, each cue starting at the clock the segments before it reach and lasting the clip's duration |
| Serverless.Package | modal/src/generator.py:194-222 | The transcript renders the timeline's entries, so every cue's start and end are those of its clip. The result is a summary exactly when neither upload is refused, and otherwise the refused upload's code. The summary's duration is the episode length and its segment count equals hits plus API calls. The stored episode audio is the concatenated parts, and the stored transcript decodes to the VTT |
| Serverless.EpisodeFrom | modal/src/generator.py:150-222 | A segment failure of the loop is the episode's failure, with the store as it stood. A completed loop is published exactly when neither upload is refused. On success the stored episode is the concatenation of the loop's parts, and the counts and duration agree with the segments. The transcript renders the timeline's entries |
| Serverless.GenerateEpisode | modal/src/generator.py:121-222 | Fails with "no segments" exactly when parsing yields nothing (:145-147). Otherwise it fails exactly when the segment loop fails, with that failure, or an upload is refused, with its code. On success both objects are published, and the counts and duration agree with the parsed script. The transcript renders the timeline's entries, each cue at its clip's place on the clock |
| Identifiers.PodcastIdReorders | modal/src/generator.py:200-208 | `author-year-name` becomes `name-year` (also python/generate.py:653-662 and :433-440) |
| Identifiers.PodcastIdKeepsShortNames | modal/src/generator.py:200-208 | Names with fewer than three parts are kept as they are |
| Identifiers.Significant | agent/scripts/generate_from_paper.py:349-351 | At most three lower-cased title words, none a stop word |
| Identifiers.Slugs | agent/scripts/generate_from_paper.py:352 | Each word is reduced to its letters and digits |
| Identifiers.ShortNameParts | agent/scripts/generate_from_paper.py:348-352 | The short name splits at `-` into the slugs of the significant words, and holds only slug characters and dashes |
| Identifiers.Year | agent/scripts/generate_from_paper.py:346 | The year is the first four characters of the publication date |
| Identifiers.BlankAuthorRaises | agent/scripts/generate_from_paper.py:342-343 | As written: a blank first author makes the folder derivation raise |
| Identifiers.DeriveEpisodeFolderExtends | agent/scripts/generate_from_paper.py:339-354 | Corrected: the folder agrees with the original wherever it succeeds, and uses "unknown" where it raised |
| Identifiers.LastName | agent/scripts/generate_from_paper.py:341-343 | The last name is always a word: the original's where it has one, otherwise "unknown" |
| Identifiers.FolderPodcastId | agent/scripts/generate_from_paper.py:339-354 | The derived folder's podcast id is the short name and the year |
| Identifiers.WebFirstAuthor | modal/src/generator.py:258 | The first author is stripped |
| Identifiers.WebLastName | modal/src/generator.py:259 | The web last name is always a word |
| Identifiers.TitleSlug | modal/src/generator.py:261 | The title slug has no dash |
| Identifiers.WebPodcastId | modal/src/generator.py:255-262 | A web episode's podcast id is its id slug and year (with :202-208) |
| Identifiers.DigitRun | agent/scripts/generate_from_paper.py:54-57 | The leading digit run is maximal |
| Identifiers.IdLengthMatches | agent/scripts/generate_from_paper.py:54-57 | A matched id is `dddd.ddddd`-shaped and not followed by a digit |
| Identifiers.ExtractArxivId | agent/scripts/generate_from_paper.py:50-65 | A success is always a well-formed arXiv id; a failure carries the input in its message |
| Identifiers.RawIdExtracted | agent/scripts/generate_from_paper.py:56 | A bare id extracts to itself |
| Identifiers.VersionedIdExtracted | agent/scripts/generate_from_paper.py:57 | A versioned id extracts to the id without its version (also :63) |
| Identifiers.AbsUrlExtracted | agent/scripts/generate_from_paper.py:54 | An `arxiv.org/abs/` URL extracts to its id |
| Identifiers.VersionedExample | agent/scripts/generate_from_paper.py:52-63 | `2311.12022v2` extracts to `2311.12022` |
| Identifiers.UrlExample | agent/scripts/generate_from_paper.py:52-63 | The abs URL of `2311.12022` extracts to it |
| HtmlText.OnStart | agent/scripts/generate_from_paper.py:128-139 | An opening skip tag deepens the skip count; headings and paragraphs add at most one marker; nothing else changes |
| HtmlText.OnEnd | agent/scripts/generate_from_paper.py:141-146 | A closing skip tag lowers the count, never below zero; other tags keep it; at most one marker is added |
| HtmlText.OnData | agent/scripts/generate_from_paper.py:148-152 | Text is kept, stripped and followed by a space, exactly when outside skipped elements and non-blank |
| HtmlText.Run | agent/scripts/generate_from_paper.py:117-159 | The skip count never goes negative, and the parts are markers and words |
| HtmlText.SkipDepthIsExcess | agent/scripts/generate_from_paper.py:128-146 | The skip count is the opens minus closes, less the unmatched closes |
| HtmlText.NestedSkipDepth | agent/scripts/generate_from_paper.py:128-146 | In well-nested markup the skip count is the open skip elements |
| HtmlText.DataKept | agent/scripts/generate_from_paper.py:148-152 | Text is appended exactly when outside skipped elements and non-blank |
| HtmlText.Collapse | agent/scripts/generate_from_paper.py:157-158 | No run of three newlines or two spaces is left, and only newlines and spaces are removed. No run vanishes: squeezing every run of newlines and of spaces to one copy gives the same text before and after |
| HtmlText.CollapseKeepsRuns | agent/scripts/generate_from_paper.py:157-158 | The two substitutions only shorten runs, so the squeezed text is unchanged |
| HtmlText.Tidy | agent/scripts/generate_from_paper.py:154-159 | No run of three newlines or two spaces, no whitespace at either end, a slice of the collapsed text, and every non-whitespace character of the text kept, in order |
| HtmlText.StripKeepsAbsent | agent/scripts/generate_from_paper.py:159 | Stripping cannot create a forbidden run |
| HtmlText.TidyIdempotent | agent/scripts/generate_from_paper.py:154-159 | Tidying twice is tidying once |
| Runs.CapRunsRunFree | agent/scripts/generate_from_paper.py:157-158 | After the substitution, no run of the character is longer than the cap |
| Runs.CapRunsKeepsOthers | agent/scripts/generate_from_paper.py:157-158 | The substitution only changes runs of that character |
| Runs.CapRunsIdentity | agent/scripts/generate_from_paper.py:157-158 | Text with no over-long run is unchanged |
| Runs.CapRunsPreserves | agent/scripts/generate_from_paper.py:157-158 | Capping newline runs cannot create an over-long run of spaces |
| Runs.CapRunsShortRun | agent/scripts/generate_from_paper.py:157-158 | A leading run no longer than the cap is copied whole |
| Runs.CapRunsLongRun | agent/scripts/generate_from_paper.py:157-158 | A leading run longer than the cap becomes exactly the cap's number of copies |
| Runs.CapRunsAbsorb | agent/scripts/generate_from_paper.py:157-158 | Capping at k and then at j ≤ k is capping at j |
| Runs.CapRunsCommute | agent/scripts/generate_from_paper.py:157-158 | The newline and space substitutions can be applied in either order |
| Strings.VisibleStrip | agent/scripts/generate_from_paper.py:159 | `strip()` removes whitespace only |
| PaperContent.Ar5ivContent | agent/scripts/generate_from_paper.py:162-215 | No content on failure or an error page. Content is the extracted article text, tidied and at least the minimum length (also modal/src/transcript.py:208-249) |
| PaperContent.PageHeader | agent/scripts/generate_from_paper.py:242 | Each page block starts on a new line |
| PaperContent.PdfTextEmptyIffBlank | agent/scripts/generate_from_paper.py:238-247 | The PDF text is empty exactly when every page is blank |
| PaperContent.Truncate | agent/scripts/generate_from_paper.py:253-256 | Long text keeps its first 100,000 characters followed by the note; short text is unchanged |
| PaperContent.PdfContent | agent/scripts/generate_from_paper.py:218-262 | PDF content exists exactly when a reader and pages exist and the text is long enough; it is the truncated text (also modal/src/transcript.py:252-286) |
| PaperContent.AbstractNote | agent/scripts/generate_from_paper.py:292-305 | The fallback note contains the abstract |
| PaperContent.Choose | agent/scripts/generate_from_paper.py:265-306 | ar5iv is used exactly when it gives text; else the PDF when tried and non-empty; else the note |
| PaperContent.AgentPaperContent | agent/scripts/generate_from_paper.py:265-306 | Falls back to the abstract exactly when ar5iv and the PDF both give nothing; otherwise the content is long enough |
| PaperContent.ServerlessPaperContent | modal/src/transcript.py:289-316 | The same fallback chain, always trying the PDF |
| PaperContent.CopiesAgree | modal/src/transcript.py:289-316 | With a PDF reader both copies choose the same source and the same non-abstract text |
| PaperContent.ValidateTranscriptRequest | modal/src/transcript.py:382-385 | A missing or empty arXiv id is rejected with the required-field message; otherwise it is accepted unchanged |
| ConcatServer.SegmentPaths | api/container/main.go:306-315 | One zero-padded path per segment, in order |
| ConcatServer.ListingLines | api/container/main.go:304-327 | The concat list splits into one `file '...'` line per segment |
| ConcatServer.ListingSnoc | api/container/main.go:321 | Each downloaded segment appends its line |
| ConcatServer.FixedArgs | api/container/main.go:339-347 | The fixed ffmpeg arguments have 14 entries |
| ConcatServer.Tags | api/container/main.go:349-361 | Exactly the non-empty title, artist, album and genre are tagged, in that order |
| ConcatServer.MetadataArgs | api/container/main.go:349-361 | Each tag becomes `-metadata key=value` |
| ConcatServer.TagArgsLayout | api/container/main.go:350-361 | Tag arguments are laid out two per tag |
| ConcatServer.FfmpegArgs | api/container/main.go:339-363 | The fixed arguments with loudnorm, then the metadata, then `-y` and the output |
| ConcatServer.GetDuration | api/container/main.go:490-516 | ffprobe errors propagate; empty or `N/A` output has no duration |
| ConcatServer.Validate | api/container/main.go:227-247 | Accepts exactly a POST with a decodable body, segments and an output URL; each rejection has its code and message |
| ConcatServer.DownloadedSnoc | api/container/main.go:306-327 | A successful download extends the progress trace and the listing by one |
| ConcatServer.DownloadAll | api/container/main.go:301-327 | Downloads stop at the first failure; progress counts the segments done; full success yields the complete listing |
| ConcatServer.AfterDownload | api/container/main.go:330-425 | Succeeds with code 200 exactly when the list write, ffmpeg, stat and upload succeed; an ffprobe failure only zeroes the duration; an ffmpeg run cut off by the deadline is 503 and every other failure 500 |
| ConcatServer.ProgressFrom | api/container/main.go:249-327 | The status trace starts with the begun job and counts up one per segment |
| ConcatServer.RunJob | api/container/main.go:249-425 | The status trace shows download progress. Success requires a temp dir, no cancellation, every download and the post-download steps, and resets the status to idle. A failure records its error. A missing temp dir gives 500 and an early cancellation 503, each with the source's message. A failed download at segment k stops the trace after k counted downloads, with that segment's reply. When every segment downloads, the reply is that of the steps after the download |
| ConcatServer.FetchAndFinish | api/container/main.go:303-408 | The downloads, each counted in the status, stop at the first failed segment k with that segment's reply after k counted downloads. When every segment downloads, the reply is that of the steps after the download, and it succeeds exactly when those steps do |
| ConcatServer.HandleConcat | api/container/main.go:227-428 | An invalid request is rejected without touching the status. A valid one runs the job, with the same replies and trace lengths for each failure |

## Left out

- Audio itself: ffmpeg, ffprobe, the macOS `say` preview and the
  ElevenLabs client are outside the model. Durations are an integer-
  millisecond oracle. Silence, concatenation and normalisation are
  parameters.
- Timeline, WebVtt.TimestampRoundTrip: time is integer milliseconds. The
  source's float seconds and `%06.3f` rounding are not modelled.
- ConcatServer.GetDuration: Go's `strconv.ParseFloat` is an oracle from
  text to milliseconds.
- ConcatServer.RunJob: the heartbeat goroutine, the mutex around the
  status, signal handling and the `/status` and `/health` endpoints are
  left out. The 60-minute context deadline appears only as a cancellation
  flag. `filepath.Join` path cleaning is not modelled.
- HtmlText.Run: HTMLParser's tokenisation is given as a sequence of
  start, end and data events.
- PaperContent.Ar5ivContent: the regular-expression search for the
  article element is an oracle (`ArticleOf`).
- Identifiers.Significant: `LowerAscii` lower-cases ASCII only, where
  Python's `lower()` is full Unicode.
- Identifiers.LastName: lower-cases with `LowerAscii`, ASCII only, where
  `.lower()` in agent/scripts/generate_from_paper.py:342 is full Unicode.
- Identifiers.LastNameAsWritten: the same ASCII-only lower-casing as
  Identifiers.LastName.
- Identifiers.WebLastName: the same ASCII-only lower-casing, where
  `.lower()` in modal/src/generator.py:259 is full Unicode.
- Identifiers.ExtractArxivId: `\d` is modelled as the ASCII digits 0-9.
  Python's `re` on a `str` also matches the other Unicode decimal digits.
- Identifiers.DigitRun: the same ASCII-only digit class as
  Identifiers.ExtractArxivId.
- Serverless.Speak: counts a hit with the corrected `WasCached` (a
  non-empty cached object), not the source's `is not None`. The two differ
  only when an empty object is cached; see "## Findings".
- Serverless.Speak: store faults are per object and fixed for the run.
  The statistics read and `generate_segment`'s read have separate
  oracles, but neither changes over time.
- Serverless.WasCachedMeansNotSynthesised: holds only when neither read
  reports a stored object as missing. A spurious NoSuchKey on one of the
  two reads makes the count and the synthesis disagree.
- Identifiers.WebYear: `metadata.get("year", 2024)` is any JSON value put
  through an f-string. Only a missing or integer year is modelled, and
  Identifiers.WebPodcastId also needs it non-negative. A null year, which
  renders as "None", a string, a float or a negative year is not
  modelled.
- Serverless.GenerateEpisode: its `cache_hits` and `api_calls` come from
  Serverless.Speak, so they carry the same correction.
- CacheThrough.GenerateAudioAt: a failing `shutil.copy` on the hit path
  raises out of `main` and is not modelled. Neither is a partial output
  file left by a failed output write, because the caller then skips the
  segment.
- PaperContent.PdfContent: the PDF library is replaced by its page texts.
- PaperContent.ValidateTranscriptRequest: a non-string `arxiv_id` is not
  modelled.
- The serverless `audio.py` module (modal/src/audio.py) is not part of
  this model. Its transcript writer is modelled through the python copy
  in `WebVtt`.
- Paper metadata fetching, the LLM calls and prompt filling are left out.
  They are network and model calls with no logic of the director's own.
- The database upsert (modal/src/database.py) is left out. It is a
  foreign-service write.
- Printing, progress bars and temporary-file cleanup are left out.
- CacheKey.LocalKey: SHA-256 is a parameter, so key uniqueness is stated
  up to collisions of that function.
- Episode.ZeroAudioFiles: the ZeRO generator concatenates clips without
  timing them, so its outcomes carry no duration.

## Findings

| source | as written | input that shows it | evidently intended | confidence | as-written member | corrected member |
|---|---|---|---|---|---|---|
| agent/scripts/generate_from_paper.py:342-343 | `first_author.split()[-1]` indexes an empty list when the first author is blank | `authors = [""]` (or only whitespace) | fall back to "unknown", as the empty-list case already does | medium, not executed | Identifiers.BlankAuthorRaises (Identifiers.DeriveEpisodeFolderAsWritten) | Identifiers.DeriveEpisodeFolderExtends (Identifiers.DeriveEpisodeFolder, Identifiers.LastName) |
| modal/src/generator.py:167 | `was_cached` is `get_cached_segment(...) is not None`, so an empty cached object counts as a hit, while `generate_segment` (line 97, `if cached:`) re-synthesises it and calls the API | an empty object stored under the segment's cache key | count a hit only when `generate_segment` serves from the cache | high, not executed | Serverless.EmptyObjectCountedAsHit (Serverless.WasCachedAsWritten) | Serverless.WasCachedMeansNotSynthesised (Serverless.WasCached, used by Serverless.Speak) |
