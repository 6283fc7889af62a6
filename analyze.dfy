/** `analyze_video_from_storage`: configuration checks, the choice of file
    name and MIME type, and the sequence upload, wait, index, wait,
    transcript, video-id lookup, analysis. The remote service is replaced by
    a record of what it would answer. */
module Analyze {
  import opened Wrappers
  import opened Errors
  import opened Text
  import opened Paths
  import opened Upload
  import opened Transcript
  import opened Polling
  import opened VideoId

  const DefaultFilename := "recording.webm"
  const FallbackMime := "application/octet-stream"

  /** The two settings the service reads. */
  datatype Settings = Settings(apiKey: Option<string>, indexId: Option<string>)

  datatype Config = Config(apiKey: string, indexId: string)

  /** The arguments of a call. */
  datatype Request = Request(objectKey: string, filename: Option<string>, prompt: Option<string>)

  /** The prompt sent for analysis: the caller's, or the built-in default. */
  datatype Prompt = CustomPrompt(text: string) | DefaultPrompt

  /** What the environment answers: the MIME guess for a name, the transcode
      tools, the ids and status sequences of the asset and the indexed
      asset, the transcription, the listing responses, the analysis text for
      a video id and prompt, and the rendering of a timestamp. */
  datatype Backend = Backend(
    guessType: string -> Option<string>,
    tools: Tools,
    assetId: Option<string>,
    assetStatuses: seq<Option<string>>,
    indexedAssetId: Option<string>,
    indexedAssetStatuses: seq<Option<string>>,
    transcription: Option<seq<Segment>>,
    listings: Responses,
    analyze: (string, Prompt) -> string,
    render: real -> string)

  /** `TwelveLabsResult`. */
  datatype TwelveLabsResult = TwelveLabsResult(transcript: string, analysis: string, videoId: string)

  /** A call's outcome, the upload it sent (if it got that far), the paths
      its `finally` block removes, and the listing queries it issued to
      resolve the video id (none when it stopped earlier). */
  datatype Run = Run(
    outcome: Outcome<TwelveLabsResult>,
    sent: Option<Upload>,
    removed: seq<string>,
    queries: seq<Query>)

  /** The configuration check: the API key first, then the index id. */
  function CheckConfig(settings: Settings): (r: Result<Config, Error>)
    ensures r.Success? <==> Present(settings.apiKey) && Present(settings.indexId)
    ensures r.Success? ==> r.value == Config(settings.apiKey.value, settings.indexId.value)
    ensures r.Failure? ==> r.error == MissingApiKey || r.error == MissingIndexId
  {
    if !Present(settings.apiKey) then Failure(MissingApiKey)
    else if !Present(settings.indexId) then Failure(MissingIndexId)
    else Success(Config(settings.apiKey.value, settings.indexId.value))
  }

  /** The file name used for upload and lookup: the given one, else the
      base name of the object key, else `recording.webm`. */
  function SafeFilename(filename: Option<string>, objectKey: string): (name: string)
    ensures name != ""
    ensures Present(filename) ==> name == filename.value
    ensures !Present(filename) && Basename(objectKey) != "" ==> name == Basename(objectKey)
    ensures !Present(filename) && Basename(objectKey) == "" ==> name == DefaultFilename
  {
    if Present(filename) then filename.value
    else if Basename(objectKey) != "" then Basename(objectKey)
    else DefaultFilename
  }

  /** The guessed MIME type, or `application/octet-stream` when there is none. */
  function MimeTypeFor(guess: Option<string>): (mime: string)
    ensures mime != ""
    ensures Present(guess) ==> mime == guess.value
    ensures !Present(guess) ==> mime == FallbackMime
  {
    if Present(guess) then guess.value else FallbackMime
  }

  function ChoosePrompt(prompt: Option<string>): Prompt
  {
    if Present(prompt) then CustomPrompt(prompt.value) else DefaultPrompt
  }

  /** Whether the call gets past both waits to the video-id lookup. */
  predicate ReachesLookup(be: Backend)
  {
    && Present(be.assetId) && PollOutcome(AssetProcessing, be.assetStatuses).Done?
    && Present(be.indexedAssetId) && PollOutcome(Indexing, be.indexedAssetStatuses).Done?
  }

  /** The listing queries issued for the chosen file name. */
  function LookupQueries(name: string, be: Backend): (queries: seq<Query>)
    ensures queries != [] <==> ReachesLookup(be)
    ensures queries != [] ==> queries[0] == ByFilename(name)
  {
    if ReachesLookup(be) then IssuedQueries(name, be.listings) else []
  }

  /** Everything after the upload: the asset id check and wait, indexing
      and its wait, the transcript, the video id and the analysis. */
  function AfterUpload(req: Request, be: Backend): (r: Outcome<TwelveLabsResult>)
    ensures r.Done? ==> ReachesLookup(be) && r.value.videoId != ""
  {
    if !Present(be.assetId) then Raised(AssetIdMissing)
    else match PollOutcome(AssetProcessing, be.assetStatuses)
      case Pending => Pending
      case Raised(e) => Raised(e)
      case Done(_) =>
        if !Present(be.indexedAssetId) then Raised(IndexedAssetIdMissing)
        else match PollOutcome(Indexing, be.indexedAssetStatuses)
          case Pending => Pending
          case Raised(e) => Raised(e)
          case Done(_) =>
            var transcript := FormattedTranscript(be.transcription, be.render);
            match ResolvedVideoId(be.listings)
            case Failure(e) => Raised(e)
            case Success(videoId) =>
              Done(TwelveLabsResult(transcript, be.analyze(videoId, ChoosePrompt(req.prompt)), videoId))
  }

  /** `analyze_video_from_storage`. The `finally` block removes the paths
      `_prepare_upload_file` handed back; when that step raised, it had
      handed back none. */
  function AnalyzeVideoFromStorage(settings: Settings, req: Request, be: Backend): (run: Run)
    ensures run.removed == (if run.sent.Some? then run.sent.value.cleanup else [])
    ensures run.outcome.Done? ==> run.sent.Some? && run.outcome.value.videoId != ""
    ensures run.outcome.Done? ==> run.queries != []
    ensures run.queries != [] ==>
              run.sent.Some? && run.queries[0] == ByFilename(SafeFilename(req.filename, req.objectKey))
  {
    match CheckConfig(settings)
    case Failure(e) => Run(Raised(e), None, [], [])
    case Success(_) =>
      var name := SafeFilename(req.filename, req.objectKey);
      var mime := MimeTypeFor(be.guessType(name));
      match PrepareUploadFile(name, mime, be.tools)
      case Failure(e) => Run(Raised(e), None, [], [])
      case Success(upload) =>
        Run(AfterUpload(req, be), Some(upload), upload.cleanup, LookupQueries(name, be))
  }

  // ----- properties -----

  /** A missing API key is the one error reported, whatever the index id
      and whatever else the call would meet; nothing is uploaded. */
  lemma MissingApiKeyWins(settings: Settings, req: Request, be: Backend)
    requires !Present(settings.apiKey)
    ensures CheckConfig(settings) == Failure(MissingApiKey)
    ensures AnalyzeVideoFromStorage(settings, req, be) == Run(Raised(MissingApiKey), None, [], [])
  {
  }

  /** With the key present, a missing index id is reported before any work. */
  lemma MissingIndexIdReportedNext(settings: Settings, req: Request, be: Backend)
    requires Present(settings.apiKey) && !Present(settings.indexId)
    ensures AnalyzeVideoFromStorage(settings, req, be) == Run(Raised(MissingIndexId), None, [], [])
  {
  }

  /** Without a file name, a key that names a directory (or nothing) falls
      back to `recording.webm`, which is always treated as WebM. */
  lemma DefaultFilenameIsWebm(filename: Option<string>, objectKey: string, mime: string)
    requires !Present(filename)
    requires objectKey == "" || objectKey[|objectKey| - 1] == '/'
    ensures SafeFilename(filename, objectKey) == DefaultFilename
    ensures LooksLikeWebm(SafeFilename(filename, objectKey), mime)
  {
    BasenameEmptyIff(objectKey);
    assert SafeFilename(filename, objectKey) == DefaultFilename;
    DefaultFilenameLooksLikeWebm(mime);
  }

  lemma DefaultFilenameLooksLikeWebm(mime: string)
    ensures LooksLikeWebm(DefaultFilename, mime)
  {
    var d := DefaultFilename;
    assert EndsWith(Lower(d), WebmExtension) by {
      assert Lower(d)[|d| - 5..] == WebmExtension;
    }
  }

  /** Without a file name, the last component of the key is used. */
  lemma FilenameFromObjectKey(filename: Option<string>, dir: string, name: string)
    requires !Present(filename)
    requires name != "" && '/' !in name
    ensures SafeFilename(filename, dir + "/" + name) == name
  {
    BasenameOfJoin(dir, name);
  }

  /** The upload sent is the prepared form of the chosen name and MIME type,
      and every temporary file the transcode step made is removed
      afterwards, unless ffmpeg itself failed. */
  lemma UploadAndCleanup(settings: Settings, req: Request, be: Backend)
    requires CheckConfig(settings).Success?
    ensures var name := SafeFilename(req.filename, req.objectKey);
            var mime := MimeTypeFor(be.guessType(name));
            var run := AnalyzeVideoFromStorage(settings, req, be);
            && (run.sent.Some? <==> PrepareUploadFile(name, mime, be.tools).Success?)
            && (run.sent.Some? ==> run.sent == Some(PrepareUploadFile(name, mime, be.tools).value))
            && (run.removed == TempFilesCreated(name, mime, be.tools) <==>
                  !(LooksLikeWebm(name, mime) && be.tools.ffmpegOnPath && !be.tools.ffmpegSucceeds))
  {
    var name := SafeFilename(req.filename, req.objectKey);
    var mime := MimeTypeFor(be.guessType(name));
    if PrepareUploadFile(name, mime, be.tools).Success? {
      PreparedUploadShape(name, mime, be.tools);
    }
  }

  /** A successful call uploaded, saw both waits return, and reports the
      formatted transcript, an id resolved from the listings, and the
      analysis of that id under the chosen prompt. */
  lemma SuccessfulCall(settings: Settings, req: Request, be: Backend)
    requires AnalyzeVideoFromStorage(settings, req, be).outcome.Done?
    ensures var res := AnalyzeVideoFromStorage(settings, req, be).outcome.value;
            && CheckConfig(settings).Success?
            && Present(be.assetId) && PollOutcome(AssetProcessing, be.assetStatuses).Done?
            && Present(be.indexedAssetId) && PollOutcome(Indexing, be.indexedAssetStatuses).Done?
            && res.transcript == FormattedTranscript(be.transcription, be.render)
            && ResolvedVideoId(be.listings) == Success(res.videoId)
            && res.analysis == be.analyze(res.videoId, ChoosePrompt(req.prompt))
  {
  }

  /** Conversely, a call whose every step succeeds ends with the formatted
      transcript, the resolved id and that id's analysis. */
  lemma AllStepsSucceed(settings: Settings, req: Request, be: Backend, videoId: string)
    requires CheckConfig(settings).Success?
    requires PrepareUploadFile(SafeFilename(req.filename, req.objectKey),
                               MimeTypeFor(be.guessType(SafeFilename(req.filename, req.objectKey))),
                               be.tools).Success?
    requires ReachesLookup(be)
    requires ResolvedVideoId(be.listings) == Success(videoId)
    ensures AnalyzeVideoFromStorage(settings, req, be).outcome ==
      Done(TwelveLabsResult(FormattedTranscript(be.transcription, be.render),
                            be.analyze(videoId, ChoosePrompt(req.prompt)),
                            videoId))
  {
  }

  /** The file-name query searches for the chosen name; for a recording
      named `*.webm` that is not the name it was uploaded under. */
  lemma LookupNameDiffersFromUploadName(settings: Settings, req: Request, be: Backend)
    requires CheckConfig(settings).Success?
    requires PrepareUploadFile(SafeFilename(req.filename, req.objectKey),
                               MimeTypeFor(be.guessType(SafeFilename(req.filename, req.objectKey))),
                               be.tools).Success?
    requires ReachesLookup(be)
    requires EndsWith(Lower(SafeFilename(req.filename, req.objectKey)), WebmExtension)
    ensures var run := AnalyzeVideoFromStorage(settings, req, be);
            var name := SafeFilename(req.filename, req.objectKey);
            && run.queries != []
            && run.queries[0] == ByFilename(name)
            && run.sent.value.name != name
  {
    var name := SafeFilename(req.filename, req.objectKey);
    WebmNamedFileIsRenamed(name);
  }
}
