/** Video-id resolution after indexing. Each listing query is replaced by
    the ids of the items it would return, in order; an item's id counts
    only when it is present and non-empty. */
module VideoId {
  import opened Wrappers
  import opened Errors

  /** The listing queries, in the order they may be issued. */
  datatype Query = ByFilename(filename: string) | BySystemMetadata | MostRecent

  /** What each query would return, and whether the indexed asset carries
      system metadata (without it the metadata query is not issued). */
  datatype Responses = Responses(
    byFilename: seq<Option<string>>,
    hasSystemMetadata: bool,
    bySystemMetadata: seq<Option<string>>,
    mostRecent: seq<Option<string>>)

  /** The first present, non-empty id among the items. */
  function FirstId(items: seq<Option<string>>): (r: Option<string>)
    ensures r.Some? <==> exists i :: 0 <= i < |items| && Present(items[i])
    ensures r.Some? ==> r.value != "" && exists i :: && 0 <= i < |items| && items[i] == r
                                                       && forall j :: 0 <= j < i ==> !Present(items[j])
  {
    if |items| == 0 then None
    else if Present(items[0]) then items[0]
    else
      var r := FirstId(items[1..]);
      assert forall i :: 0 < i < |items| ==> items[i] == items[1..][i - 1];
      r
  }

  /** The id found, trying the three queries in order. */
  function ResolvedVideoId(resp: Responses): Result<string, Error>
  {
    match FirstId(resp.byFilename)
    case Some(id) => Success(id)
    case None =>
      match (if resp.hasSystemMetadata then FirstId(resp.bySystemMetadata) else None)
      case Some(id) => Success(id)
      case None =>
        match FirstId(resp.mostRecent)
        case Some(id) => Success(id)
        case None => Failure(VideoIdUnresolved)
  }

  /** The queries issued, in order. */
  function IssuedQueries(filename: string, resp: Responses): (queries: seq<Query>)
    ensures |queries| > 0 && queries[0] == ByFilename(filename)
  {
    if FirstId(resp.byFilename).Some? then [ByFilename(filename)]
    else if resp.hasSystemMetadata && FirstId(resp.bySystemMetadata).Some? then
      [ByFilename(filename), BySystemMetadata]
    else if resp.hasSystemMetadata then [ByFilename(filename), BySystemMetadata, MostRecent]
    else [ByFilename(filename), MostRecent]
  }

  /** `_resolve_video_id`. */
  method ResolveVideoId(filename: string, resp: Responses) returns (r: Result<string, Error>, queries: seq<Query>)
    ensures r == ResolvedVideoId(resp)
    ensures queries == IssuedQueries(filename, resp)
  {
    queries := [ByFilename(filename)];
    for i := 0 to |resp.byFilename|
      invariant forall j :: 0 <= j < i ==> !Present(resp.byFilename[j])
    {
      var item := resp.byFilename[i];
      if item.Some? && item.value != "" {
        return Success(item.value), queries;
      }
    }
    if resp.hasSystemMetadata {
      queries := queries + [BySystemMetadata];
      for i := 0 to |resp.bySystemMetadata|
        invariant forall j :: 0 <= j < i ==> !Present(resp.bySystemMetadata[j])
      {
        var item := resp.bySystemMetadata[i];
        if item.Some? && item.value != "" {
          return Success(item.value), queries;
        }
      }
    }
    queries := queries + [MostRecent];
    for i := 0 to |resp.mostRecent|
      invariant forall j :: 0 <= j < i ==> !Present(resp.mostRecent[j])
    {
      var item := resp.mostRecent[i];
      if item.Some? && item.value != "" {
        return Success(item.value), queries;
      }
    }
    return Failure(VideoIdUnresolved), queries;
  }

  // ----- properties -----

  /** Resolution fails exactly when no query that is tried returns an id. */
  lemma FailsIffNoQueryHasId(resp: Responses)
    ensures ResolvedVideoId(resp).Failure? <==>
              && (forall i :: 0 <= i < |resp.byFilename| ==> !Present(resp.byFilename[i]))
              && (resp.hasSystemMetadata ==>
                    forall i :: 0 <= i < |resp.bySystemMetadata| ==> !Present(resp.bySystemMetadata[i]))
              && (forall i :: 0 <= i < |resp.mostRecent| ==> !Present(resp.mostRecent[i]))
  {
  }

  /** A resolved id is non-empty and was returned by a query that was
      issued: by file name, by metadata, or as the most recent video. */
  lemma ResolvedIdComesFromIssuedQuery(filename: string, resp: Responses)
    requires ResolvedVideoId(resp).Success?
    ensures var id := ResolvedVideoId(resp).value;
            var queries := IssuedQueries(filename, resp);
            && id != ""
            && ((Some(id) in resp.byFilename && queries[|queries| - 1] == ByFilename(filename))
                || (Some(id) in resp.bySystemMetadata && queries[|queries| - 1] == BySystemMetadata)
                || (Some(id) in resp.mostRecent && queries[|queries| - 1] == MostRecent))
  {
  }

  /** An id from the file-name query wins, whatever the other queries hold,
      and no other query is issued. */
  lemma FilenameMatchWins(filename: string, resp: Responses, other: Responses)
    requires exists i :: 0 <= i < |resp.byFilename| && Present(resp.byFilename[i])
    requires other.byFilename == resp.byFilename
    ensures ResolvedVideoId(other) == ResolvedVideoId(resp)
    ensures IssuedQueries(filename, resp) == [ByFilename(filename)]
  {
  }

  /** Without system metadata the metadata query is neither issued nor
      consulted. */
  lemma MetadataQuerySkipped(filename: string, resp: Responses, answers: seq<Option<string>>)
    requires !resp.hasSystemMetadata
    ensures BySystemMetadata !in IssuedQueries(filename, resp)
    ensures ResolvedVideoId(resp.(bySystemMetadata := answers)) == ResolvedVideoId(resp)
  {
  }

  /** The most recent video is consulted only after the earlier queries
      found nothing, and resolution fails only once it has been consulted. */
  lemma MostRecentIsTheLastResort(filename: string, resp: Responses)
    ensures MostRecent in IssuedQueries(filename, resp) <==>
              && FirstId(resp.byFilename).None?
              && (resp.hasSystemMetadata ==> FirstId(resp.bySystemMetadata).None?)
    ensures ResolvedVideoId(resp).Failure? ==> MostRecent in IssuedQueries(filename, resp)
  {
  }
}
