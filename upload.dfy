/** Upload preparation: deciding whether a recording is WebM and, if so,
    transcoding it to MP4. The file copy and the ffmpeg process are reduced
    to what they hand back: a handle, a name, a MIME type and the list of
    temporary files to remove afterwards. */
module Upload {
  import opened Wrappers
  import opened Errors
  import opened Text
  import opened Paths

  const WebmMime := "video/webm"
  const Mp4Mime := "video/mp4"
  const WebmExtension := ".webm"
  const Mp4Extension := ".mp4"

  /** The file object passed to the upload: the opened storage object, or a
      local file opened for reading. */
  datatype Handle = StorageHandle | TempFile(path: string)

  /** What `_prepare_upload_file` returns. */
  datatype Upload = Upload(handle: Handle, name: string, mime: string, cleanup: seq<string>)

  /** What the transcode step learns from its environment: whether `ffmpeg`
      is on the PATH, whether it exits successfully (with its decoded stderr
      when it does not), and the directory-and-random part of each of the
      two temporary file names, to which the suffix is appended. */
  datatype Tools = Tools(
    ffmpegOnPath: bool,
    ffmpegSucceeds: bool,
    stderr: string,
    srcTemp: string,
    dstTemp: string)

  /** `_looks_like_webm`: the MIME type is compared as is, the file name
      after lower-casing. */
  predicate LooksLikeWebm(filename: string, mimeType: string)
  {
    mimeType == WebmMime || EndsWith(Lower(filename), WebmExtension)
  }

  /** The suffix of the temporary copy of the source: its extension, or
      `.webm` when it has none. */
  function SourceSuffix(filename: string): string
  {
    var ext := SplitExt(filename).1;
    if ext == "" then WebmExtension else ext
  }

  /** The upload name of a transcoded file: the extension replaced by `.mp4`. */
  function TranscodedName(filename: string): string
  {
    SplitExt(filename).0 + Mp4Extension
  }

  /** `_transcode_webm_to_mp4`: fails when ffmpeg is missing (before any
      temporary file exists) or when it fails; otherwise uploads the MP4 copy
      and hands both temporary files back for removal. */
  function TranscodeWebmToMp4(filename: string, tools: Tools): (r: Result<Upload, Error>)
    ensures r.Failure? <==> !tools.ffmpegOnPath || !tools.ffmpegSucceeds
    ensures r.Success? ==>
              && r.value.mime == Mp4Mime
              && EndsWith(r.value.name, Mp4Extension)
              && |r.value.cleanup| == 2
              && r.value.handle == TempFile(r.value.cleanup[1])
              && EndsWith(r.value.cleanup[0], SourceSuffix(filename))
              && EndsWith(r.value.cleanup[1], Mp4Extension)
  {
    if !tools.ffmpegOnPath then
      Failure(FfmpegMissing)
    else
      var srcPath := tools.srcTemp + SourceSuffix(filename);
      var dstPath := tools.dstTemp + Mp4Extension;
      if !tools.ffmpegSucceeds then
        Failure(FfmpegFailed(tools.stderr))
      else
        Success(Upload(TempFile(dstPath), TranscodedName(filename), Mp4Mime, [srcPath, dstPath]))
  }

  /** The temporary files the transcode step creates on disk, whether it
      then succeeds or raises. */
  function TempFilesCreated(filename: string, mimeType: string, tools: Tools): seq<string>
  {
    if LooksLikeWebm(filename, mimeType) && tools.ffmpegOnPath then
      [tools.srcTemp + SourceSuffix(filename), tools.dstTemp + Mp4Extension]
    else
      []
  }

  /** `_prepare_upload_file`: WebM input is transcoded, anything else passes
      through unchanged with nothing to clean up. */
  function PrepareUploadFile(filename: string, mimeType: string, tools: Tools): (r: Result<Upload, Error>)
    ensures !LooksLikeWebm(filename, mimeType) ==>
              r == Success(Upload(StorageHandle, filename, mimeType, []))
    ensures r.Success? ==> (r.value.cleanup == [] <==> !LooksLikeWebm(filename, mimeType))
  {
    if LooksLikeWebm(filename, mimeType) then
      TranscodeWebmToMp4(filename, tools)
    else
      Success(Upload(StorageHandle, filename, mimeType, []))
  }

  // ----- properties -----

  /** The WebM test, spelled out character by character: the name check
      ignores case, the MIME check does not. */
  lemma LooksLikeWebmIff(filename: string, mimeType: string)
    ensures LooksLikeWebm(filename, mimeType) <==>
              || mimeType == "video/webm"
              || (&& |filename| >= 5
                  && filename[|filename| - 5] == '.'
                  && filename[|filename| - 4] in "wW"
                  && filename[|filename| - 3] in "eE"
                  && filename[|filename| - 2] in "bB"
                  && filename[|filename| - 1] in "mM")
  {
    var n := |filename|;
    var low := Lower(filename);
    if n >= 5 {
      var tail := low[n - 5..];
      assert forall k :: 0 <= k < 5 ==> tail[k] == LowerChar(filename[n - 5 + k]);
      if tail == WebmExtension {
        assert tail[0] == '.' && tail[1] == 'w' && tail[2] == 'e' && tail[3] == 'b' && tail[4] == 'm';
        assert LowerChar(filename[n - 5]) == '.';
        assert LowerChar(filename[n - 4]) == 'w';
        assert LowerChar(filename[n - 3]) == 'e';
        assert LowerChar(filename[n - 2]) == 'b';
        assert LowerChar(filename[n - 1]) == 'm';
      }
      if && filename[n - 5] == '.' && filename[n - 4] in "wW" && filename[n - 3] in "eE"
         && filename[n - 2] in "bB" && filename[n - 1] in "mM" {
        assert tail == WebmExtension;
      }
    }
  }

  /** On the transcode path the upload is an MP4 under the transcoded name,
      read from the second temporary file; otherwise it is the input as
      given. Either way every temporary file created is listed for removal. */
  lemma PreparedUploadShape(filename: string, mimeType: string, tools: Tools)
    requires PrepareUploadFile(filename, mimeType, tools).Success?
    ensures var u := PrepareUploadFile(filename, mimeType, tools).value;
      && u.cleanup == TempFilesCreated(filename, mimeType, tools)
      && (if LooksLikeWebm(filename, mimeType) then
            && u.name == TranscodedName(filename)
            && u.mime == Mp4Mime
            && u.handle == TempFile(u.cleanup[1])
          else
            && u.name == filename
            && u.mime == mimeType
            && u.handle == StorageHandle)
  {
  }

  /** When ffmpeg is present but fails, both temporary files already exist,
      yet the step raises without handing them back, so nobody removes them. */
  lemma TranscodeFailureLeavesTempFiles(filename: string, mimeType: string, tools: Tools)
    requires LooksLikeWebm(filename, mimeType)
    requires tools.ffmpegOnPath && !tools.ffmpegSucceeds
    ensures PrepareUploadFile(filename, mimeType, tools) == Failure(FfmpegFailed(tools.stderr))
    ensures |TempFilesCreated(filename, mimeType, tools)| == 2
  {
  }

  /** A missing ffmpeg is reported before any temporary file is made. */
  lemma MissingFfmpegCreatesNothing(filename: string, mimeType: string, tools: Tools)
    requires LooksLikeWebm(filename, mimeType) && !tools.ffmpegOnPath
    ensures PrepareUploadFile(filename, mimeType, tools) == Failure(FfmpegMissing)
    ensures TempFilesCreated(filename, mimeType, tools) == []
  {
  }

  /** Extension replacement: `stem.ext` becomes `stem.mp4`, and the source
      copy keeps `.ext`. */
  lemma TranscodedNameReplacesExtension(stem: string, ext: string)
    requires '.' !in ext && '/' !in ext
    requires exists i :: LastIndexOf(stem, '/') < i < |stem| && stem[i] != '.'
    ensures TranscodedName(stem + "." + ext) == stem + Mp4Extension
    ensures SourceSuffix(stem + "." + ext) == "." + ext
  {
    SplitExtOfStemAndExtension(stem, ext);
  }

  /** A name without an extension (no dot, or only dots before the last dot
      of its last component, as in `.webm`) gets `.mp4` appended, and its
      source copy is given the `.webm` suffix. */
  lemma TranscodedNameWithoutExtension(filename: string)
    requires forall i :: LastIndexOf(filename, '/') < i < LastIndexOf(filename, '.') ==> filename[i] == '.'
    ensures TranscodedName(filename) == filename + Mp4Extension
    ensures SourceSuffix(filename) == WebmExtension
  {
    NoExtensionIff(filename);
  }

  /** The transcoded name equals the original exactly when the original's
      extension is already `.mp4`. */
  lemma TranscodedNameUnchangedIff(filename: string)
    ensures TranscodedName(filename) == filename <==> SplitExt(filename).1 == Mp4Extension
  {
    var (root, ext) := SplitExt(filename);
    if TranscodedName(filename) == filename {
      assert root + Mp4Extension == root + ext;
      assert ext == (root + ext)[|root|..];
    }
  }

  /** A file recognised by its `.webm` name is always uploaded under a
      different name. */
  lemma WebmNamedFileIsRenamed(filename: string)
    requires EndsWith(Lower(filename), WebmExtension)
    ensures TranscodedName(filename) != filename
  {
    TranscodedNameUnchangedIff(filename);
    var (root, ext) := SplitExt(filename);
    var n := |filename|;
    assert Lower(filename)[n - 5..][4] == WebmExtension[4] == 'm';
    assert LowerChar(filename[n - 1]) == 'm';
    assert |ext| > 0 ==> filename[n - 1] == (root + ext)[n - 1] == ext[|ext| - 1];
  }
}
