# TwelveLabs video-analysis service — Dafny model

This project models the decision and string-handling layer of the backend
service that sends a recorded mock interview to TwelveLabs and returns its
transcript and analysis (`backend/api/services/twelvelabs.py`). The service:

- checks its two settings, the API key and then the index id;
- chooses an upload file name and MIME type;
- transcodes WebM recordings to MP4 and removes the temporary files afterwards, except when ffmpeg fails, which leaves both behind;
- uploads the file and polls the asset until it is ready;
- indexes the asset and polls the indexed asset until it is ready;
- formats the transcription into timestamped lines;
- looks up the video id with up to three listing queries;
- asks for an analysis.

The remote client, Django storage, temporary files, ffmpeg and sleeping are
replaced by given values:

- each status poll is one element of a finite `seq<Option<string>>`;
- each listing query is the sequence of item ids it would return;
- the ffmpeg outcome and the temporary file names are fields of `Tools`;
- the MIME guess, the analysis call and timestamp rendering are functions
  passed in.

Modules, one per concern:

- `Wrappers` (`wrappers.dfy`): `Option`, `Result`, and `Present`, Python truthiness of an optional string.
- `Errors` (`wrappers.dfy`): the exceptions raised, with their exception class and message, and `Outcome` (done, raised, or still polling when the observed statuses ran out).
- `Text` (`text.dfy`): `str.lower`, `endswith`, `isspace`, `strip`, `join`, `rfind`.
- `Paths` (`paths.dfy`): POSIX `os.path.basename` and `os.path.splitext`.
- `Upload` (`upload.dfy`): `_looks_like_webm`, `_prepare_upload_file`, `_transcode_webm_to_mp4`.
- `Transcript` (`transcript.dfy`): `_format_transcription`. The loop is a method, proved against the function `FormattedTranscript`.
- `Polling` (`polling.dfy`): the two `_wait_for_*` loops. They are one method, `WaitUntilReady`, taking the stage as a parameter and proved against `PollOutcome`.
- `VideoId` (`videoid.dfy`): `_resolve_video_id`. The three loops are a method, proved against `ResolvedVideoId` and `IssuedQueries`.
- `Analyze` (`analyze.dfy`): `analyze_video_from_storage`, written as a function over the loop methods' specification functions.

## Model

| member | source | states |
|---|---|---|
| `Upload.LooksLikeWebmIff` | backend/api/services/twelvelabs.py:200-201 | A file looks like WebM exactly when the MIME type is `video/webm` (case-sensitive), or when the name ends in `.webm` with the letters in either case. |
| `Upload.PrepareUploadFile` | backend/api/services/twelvelabs.py:194-197 | Non-WebM input comes back as the original handle, name and MIME type with an empty cleanup list. A successful result has an empty cleanup list exactly when the input is not WebM. |
| `Upload.TranscodeWebmToMp4` | backend/api/services/twelvelabs.py:204-234 | Fails exactly when ffmpeg is missing or fails. On success: the MIME type is `video/mp4`; the name ends in `.mp4`; the cleanup list is the two temporary paths, source then destination; the handle reads the destination; the source path carries the source suffix. |
| `Upload.PreparedUploadShape` | backend/api/services/twelvelabs.py:194-234 | A successful preparation lists every temporary file it created for removal. A WebM input is uploaded as `video/mp4`, under the transcoded name, from the second temporary file. Any other input is uploaded unchanged from the storage handle. |
| `Upload.TranscodeFailureLeavesTempFiles` | backend/api/services/twelvelabs.py:209-230 | When ffmpeg is present but fails, the step raises with its stderr after both temporary files exist. It hands neither file back for removal. |
| `Upload.MissingFfmpegCreatesNothing` | backend/api/services/twelvelabs.py:205-206 | A missing ffmpeg raises before any temporary file is created. |
| `Upload.TranscodedNameReplacesExtension` | backend/api/services/twelvelabs.py:208-233 | `stem.ext` is uploaded as `stem.mp4`, and its source copy keeps the suffix `.ext`. |
| `Upload.TranscodedNameWithoutExtension` | backend/api/services/twelvelabs.py:208-233 | A name with no extension gets `.mp4` appended and a `.webm` source suffix. This includes a name whose last component has only leading dots, such as `.webm`. |
| `Upload.TranscodedNameUnchangedIff` | backend/api/services/twelvelabs.py:233 | The transcoded name equals the original exactly when the original's extension is already `.mp4`. |
| `Upload.WebmNamedFileIsRenamed` | backend/api/services/twelvelabs.py:233 | A name ending in `.webm` (in any case) is always uploaded under a different name. |
| `Paths.Basename` | backend/api/services/twelvelabs.py:57 | The base name has no `/`, is a suffix of the path, and is preceded by a `/` when it is not the whole path. |
| `Paths.BasenameEmptyIff` | backend/api/services/twelvelabs.py:57 | The base name is empty exactly when the key is empty or ends in `/`. |
| `Paths.BasenameOfJoin` | backend/api/services/twelvelabs.py:57 | The base name of `dir/name` is `name`. |
| `Paths.SplitExt` | backend/api/services/twelvelabs.py:208 | Root plus extension is the whole name. The extension is empty, or it is a dot followed by neither dots nor slashes. |
| `Paths.NoExtensionIff` | backend/api/services/twelvelabs.py:208 | There is no extension exactly when only dots precede the last dot in the last path component. |
| `Paths.SplitExtOfStemAndExtension` | backend/api/services/twelvelabs.py:233 | `stem.ext` splits into `stem` and `.ext` when the stem's last component holds a character other than a dot. |
| `Text.Strip` | backend/api/services/twelvelabs.py:191 | The stripped text is an infix of the input, the parts removed are whitespace, and it neither starts nor ends with whitespace. |
| `Transcript.LineOf` | backend/api/services/twelvelabs.py:180-189 | A segment gives a line exactly when its text is non-empty. The line ends with the text, and it is the bare text unless both timestamps are numbers. |
| `Transcript.FormatTranscription` | backend/api/services/twelvelabs.py:175-191 | The loop's result equals `FormattedTranscript`, the stripped newline-join of the segments' lines, and `""` for absent or empty input. |
| `Transcript.LinesAppend` | backend/api/services/twelvelabs.py:179-189 | The lines of `a + b` are the lines of `a` followed by those of `b`, so input order is kept and each segment contributes independently. |
| `Transcript.LinesCount` | backend/api/services/twelvelabs.py:180-189 | There is exactly one line per segment with non-empty text. |
| `Transcript.SegmentWithoutTextIsSkipped` | backend/api/services/twelvelabs.py:181-183 | Inserting a segment without text anywhere leaves the transcript unchanged. |
| `Transcript.NoTextNoTranscript` | backend/api/services/twelvelabs.py:176-191 | When no segment has text, the transcript is `""`. |
| `Transcript.TwoSegments` | backend/api/services/twelvelabs.py:186-191 | A stamped segment and an unstamped one give `[start-end] text1`, a newline and `text2`, stripped. |
| `Polling.FirstTerminal` | backend/api/services/twelvelabs.py:107-114 | It finds the first `ready` or `failed` status, with no terminal status before it, or reports that there is none. |
| `Polling.WaitUntilReady` | backend/api/services/twelvelabs.py:106-127 | The loop's result equals `PollOutcome`: done after k+1 polls when the first terminal status, at k, is `ready`; the stage's error when it is `failed`; still polling when there is none. |
| `Polling.ReturnsIffFirstTerminalIsReady` | backend/api/services/twelvelabs.py:110-113 | A wait returns after k+1 polls exactly when status k is `ready` and no earlier status is terminal. |
| `Polling.RaisesIffFirstTerminalIsFailed` | backend/api/services/twelvelabs.py:110-112 | A wait raises exactly when the first terminal status is `failed`. |
| `Polling.NonTerminalStatusesNeverEnd` | backend/api/services/twelvelabs.py:107-114 | Missing or other statuses, including `Ready` in another case, never end the loop. |
| `Polling.LaterStatusesIgnored` | backend/api/services/twelvelabs.py:110-113 | Statuses after the first terminal one do not change the outcome. |
| `Polling.NonTerminalPrefixDelays` | backend/api/services/twelvelabs.py:107-114 | Non-terminal statuses in front only add to the poll count. |
| `VideoId.FirstId` | backend/api/services/twelvelabs.py:139-141 | It finds an id exactly when some item has a non-empty id. That id is non-empty, and it belongs to the first such item. |
| `VideoId.ResolveVideoId` | backend/api/services/twelvelabs.py:130-172 | The three loops give `ResolvedVideoId`: the first id from the file-name query, else from the metadata query (when there is metadata), else from the latest-video query, else `VideoIdUnresolved`. The queries issued are `IssuedQueries`. |
| `VideoId.FailsIffNoQueryHasId` | backend/api/services/twelvelabs.py:139-172 | Resolution raises exactly when none of the queries tried yields a non-empty id. |
| `VideoId.ResolvedIdComesFromIssuedQuery` | backend/api/services/twelvelabs.py:139-170 | A resolved id is non-empty, and it comes from the last query issued. |
| `VideoId.FilenameMatchWins` | backend/api/services/twelvelabs.py:131-141 | An id from the file-name query wins, whatever the other queries hold, and no other query is issued. |
| `VideoId.MetadataQuerySkipped` | backend/api/services/twelvelabs.py:143-159 | Without system metadata the metadata query is neither issued nor consulted. |
| `VideoId.MostRecentIsTheLastResort` | backend/api/services/twelvelabs.py:161-172 | The latest-video query is issued exactly when the earlier queries found nothing. Resolution fails only after it was issued. |
| `Analyze.CheckConfig` | backend/api/services/twelvelabs.py:48-53 | The check passes exactly when both settings are non-empty. Otherwise it reports one missing-setting error. |
| `Analyze.SafeFilename` | backend/api/services/twelvelabs.py:57 | The name is never empty. It is the given name when there is one, else the key's base name when that is non-empty, else `recording.webm`. |
| `Analyze.MimeTypeFor` | backend/api/services/twelvelabs.py:58-60 | The MIME type is never empty. It is the guess when there is one, else `application/octet-stream`. |
| `Analyze.AnalyzeVideoFromStorage` | backend/api/services/twelvelabs.py:45-103 | The paths removed are the cleanup list of the upload sent, or none when nothing was sent. A result means an upload was sent, the lookup ran and the video id is non-empty. The lookup's first query searches for the chosen file name. |
| `Analyze.MissingApiKeyWins` | backend/api/services/twelvelabs.py:50-51 | A missing API key is the only error reported, whatever the index id. Nothing is sent and nothing removed. |
| `Analyze.MissingIndexIdReportedNext` | backend/api/services/twelvelabs.py:52-53 | With the key present, a missing index id is reported before any work. |
| `Analyze.DefaultFilenameIsWebm` | backend/api/services/twelvelabs.py:57 | With no name given and a key that ends in `/` or is empty, the name is `recording.webm`, which is treated as WebM whatever the MIME type. |
| `Analyze.FilenameFromObjectKey` | backend/api/services/twelvelabs.py:57 | With no name given, the key's last component is used. |
| `Analyze.UploadAndCleanup` | backend/api/services/twelvelabs.py:62-81 | The upload sent is the preparation of the chosen name and MIME type. The files removed are exactly the temporary files created, unless ffmpeg itself failed. |
| `Analyze.SuccessfulCall` | backend/api/services/twelvelabs.py:83-103 | A successful call means both waits returned. Its transcript is the formatted transcription, its video id is the resolved one, and its analysis is for that id under the chosen prompt. |
| `Analyze.AllStepsSucceed` | backend/api/services/twelvelabs.py:48-103 | When every step succeeds (configuration, preparation, both waits, the lookup), the call ends with the formatted transcript, the resolved id and that id's analysis under the chosen prompt. |
| `Analyze.LookupNameDiffersFromUploadName` | backend/api/services/twelvelabs.py:57-97 | The file-name query searches for the chosen name, not the upload name. For a name ending in `.webm`, those two names differ. |
| `Errors.ErrorKindsAndMessages` | backend/api/services/twelvelabs.py:50-230 | The two configuration errors are `ValueError`s and every other error is a `RuntimeError`. A failed transcode's message ends with ffmpeg's stderr. |

## Left out

- The TwelveLabs client: asset creation and retrieval, indexing, video listing and analysis are network calls. Their answers are fields of `Backend` and `Responses`.
- The `page`, `page_limit`, sort and filter arguments of the listing queries are not modelled. Each query's response is any finite sequence of ids.
- Django storage, `tempfile`, the file copy, `open`, handle closing and `os.remove` are file I/O. Only the names, MIME types, handles and cleanup lists they produce are kept. Removal errors, which the source ignores, are not modelled.
- `shutil.which("ffmpeg")` and the ffmpeg process are kept only as the booleans and stderr text in `Tools`.
- `time.sleep` and the real duration of polling are not modelled. The service is a finite list of observed statuses, and `Pending` stands for a loop still waiting when the list ends.
- The two-decimal rendering of timestamps is floating-point formatting. It is the `render` parameter.
- `mimetypes.guess_type` is library behaviour. It is the `guessType` parameter.
- The built-in analysis prompt is a constant text with no logic. It is `DefaultPrompt`.
- Reading the analysis text from the response (`data`, or the response's string form) is part of the `analyze` parameter.
- `Text.Lower` maps only ASCII capitals. Python's `str.lower` also maps other letters, but only characters whose lower-case form is `.`, `w`, `e`, `b` or `m` can affect the `.webm` test.
- `Paths` models POSIX paths only. The Windows alternative separator is left out.
- Transcript items with a non-string text, or with Python booleans as timestamps, are not modelled. Text is an optional string, and a timestamp is a number or absent.
- `Transcript.LineOf`: does not state the exact stamped prefix; `Transcript.TwoSegments` shows it on an example.
- The frontend (landing page, UI primitives, sticker overlay) is declarative markup and class-name assembly with no logic to verify.
