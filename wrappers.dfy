/** The two wrappers the model uses in place of Python's `None` and of a
    value-or-exception return. */
module Wrappers {

  datatype Option<+T> = None | Some(value: T)

  datatype Result<+T, +E> = Success(value: T) | Failure(error: E)

  /** Python truthiness of an optional string: neither `None` nor `""`. */
  predicate Present(s: Option<string>)
  {
    s.Some? && s.value != ""
  }
}

/** The exceptions the service raises, and the outcome of a whole call. */
module Errors {

  datatype ExceptionKind = ValueError | RuntimeError

  datatype Error =
    | MissingApiKey
    | MissingIndexId
    | FfmpegMissing
    | FfmpegFailed(stderr: string)
    | AssetIdMissing
    | AssetProcessingFailed
    | IndexedAssetIdMissing
    | IndexingFailed
    | VideoIdUnresolved

  /** The Python exception class each error is raised as. */
  function Kind(e: Error): ExceptionKind
  {
    if e.MissingApiKey? || e.MissingIndexId? then ValueError else RuntimeError
  }

  /** The message each error carries. A failed wait only ever reports the
      status `failed`, the one terminal status that is not `ready`. */
  function Message(e: Error): string
  {
    match e
    case MissingApiKey => "TWELVELABS_API_KEY is not configured"
    case MissingIndexId => "TWELVELABS_INDEX_ID is not configured"
    case FfmpegMissing => "ffmpeg is required to transcode webm recordings for TwelveLabs."
    case FfmpegFailed(stderr) => "ffmpeg failed to transcode recording: " + stderr
    case AssetIdMissing => "Asset upload failed: missing asset ID."
    case AssetProcessingFailed => "Asset processing failed (status=failed)."
    case IndexedAssetIdMissing => "Indexing request failed: missing indexed asset ID."
    case IndexingFailed => "Indexing failed (status=failed)."
    case VideoIdUnresolved => "Unable to resolve video_id after indexing."
  }

  /** The two configuration errors are `ValueError`s and every other error
      is a `RuntimeError`; a failed transcode's message ends with ffmpeg's
      stderr. */
  lemma ErrorKindsAndMessages(e: Error)
    ensures Kind(e) == ValueError <==> e == MissingApiKey || e == MissingIndexId
    ensures e.FfmpegFailed? ==>
              |e.stderr| <= |Message(e)| && Message(e)[|Message(e)| - |e.stderr|..] == e.stderr
  {
  }

  /** What a call comes to: a value, a raised error, or still polling when
      the finite sequence of observed statuses ran out. */
  datatype Outcome<+T> = Done(value: T) | Raised(error: Error) | Pending
}
