/**
 * The parts of the v1 router (src/routes/v1.routes.ts) that decide
 * something: the query contract of `/sources`, and the global error handler
 * that turns an error into a response.
 */
module Routes {
  import opened Wrappers
  import opened Seqs
  import opened Errors
  import opened Format
  import opened Sources

  // ------------------------------------------------------------ error handler

  datatype ErrorDetails = ErrorDetails(name: string, message: string)

  /** What `createErrorResponse` is asked to send: message, code, status and optional details. */
  datatype ErrorResponse = ErrorResponse(message: string, code: string, status: int, details: Option<ErrorDetails>)

  const InternalMessage: string := "Please contact a developer or create an issue with a screenshot of this response."
  const TimeoutMessage: string := "Request timed out. Please try again."

  /** The HTTP statuses from upstream that are reported as an internal error. */
  const ServerErrorStatuses: seq<int> := [400, 401, 403, 500]

  /** The response for an unexpected error, carrying its name and message. */
  function InternalError(e: ApiError): (r: ErrorResponse)
    ensures r.status == 500 && r.code == "INTERNAL_SERVER_ERROR" && r.message == InternalMessage
    ensures r.details == Some(ErrorDetails(e.name, e.message))
  {
    ErrorResponse(InternalMessage, "INTERNAL_SERVER_ERROR", 500, Some(ErrorDetails(e.name, e.message)))
  }

  /**
   * `onError`: a timeout first, then any non-HTTP error, then the upstream
   * status. `None` is the handler returning nothing.
   */
  function OnError(e: ApiError): (r: Option<ErrorResponse>)
    ensures e.Timeout? <==> r.Some? && r.value.status == 408
    ensures e.Http? && e.status == 404 <==> r.Some? && r.value.status == 404
    ensures r.None? <==> e.Http? && e.status !in {400, 401, 403, 404, 500}
    ensures r.Some? ==> r.value.status in {404, 408, 500}
    ensures e.Timeout? ==>
      r == Some(ErrorResponse(TimeoutMessage, "REQUEST_TIMEOUT", 408, Some(ErrorDetails(e.name, e.message))))
    ensures e.Other? ==> r == Some(InternalError(e))
    ensures e.Http? && e.status == 404 ==> r == Some(ErrorResponse(e.message, "NOT_FOUND", 404, None))
    ensures e.Http? && e.status in {400, 401, 403, 500} ==> r == Some(InternalError(e))
    ensures r.Some? && r.value.status == 500 ==>
      r.value.code == "INTERNAL_SERVER_ERROR" && r.value.details == Some(ErrorDetails(e.name, e.message))
  {
    if e.Timeout? then
      Some(ErrorResponse(TimeoutMessage, "REQUEST_TIMEOUT", 408, Some(ErrorDetails(e.name, e.message))))
    else if !e.Http? then
      Some(InternalError(e))
    else if e.status == 404 then
      Some(ErrorResponse(e.message, "NOT_FOUND", 404, None))
    else if e.status in ServerErrorStatuses then
      Some(InternalError(e))
    else
      None
  }

  /** The error handler maps a malformed episode id to an internal error (500), not to a client error. */
  lemma InvalidIdIsInternalError(id: string, uriDecode: string -> Option<string>)
    requires DecodeId(id, uriDecode).Failure?
    ensures OnError(DecodeId(id, uriDecode).error).Some?
    ensures var resp := OnError(DecodeId(id, uriDecode).error).value;
      && resp.status == 500 && resp.code == "INTERNAL_SERVER_ERROR"
      && (uriDecode(id).Some? ==> resp.details == Some(ErrorDetails("Error", "Invalid ID format.")))
      && (uriDecode(id).None? ==> resp.details == Some(ErrorDetails("URIError", "URI malformed")))
  {
  }

  // ------------------------------------------------------------ /sources query

  /** The validated `/sources` query. */
  datatype SourcesQuery = SourcesQuery(id: string, subType: SubType)

  /**
   * The query schema: `id` is a required string, `subType` is "sub" or
   * "dub" and defaults to "sub". `None` is a request the schema rejects.
   */
  function ParseSourcesQuery(id: Option<string>, subType: Option<string>): (r: Option<SourcesQuery>)
    ensures r.Some? <==> id.Some? && (subType.None? || subType.value == "sub" || subType.value == "dub")
    ensures r.Some? ==> r.value.id == id.value && r.value.subType.Name() == subType.GetOr("sub")
  {
    match (id, subType)
    case (None, _) => None
    case (Some(i), None) => Some(SourcesQuery(i, Sub))
    case (Some(i), Some(t)) =>
      if t == "sub" then Some(SourcesQuery(i, Sub))
      else if t == "dub" then Some(SourcesQuery(i, Dub))
      else None
  }

  /** What a `/sources` request comes to. */
  datatype SourcesReply =
    | Rejected                      // the query schema refused the request
    | Found(source: Source)         // the success response carries the merged record
    | Failed(response: ErrorResponse)
    | Unhandled                     // the error handler returned nothing; the framework default applies

  /**
   * GET /v1/sources: validate the query, run the aggregator, and pass any
   * error it raises to the error handler.
   */
  method HandleSources(id: Option<string>, subType: Option<string>, uriDecode: string -> Option<string>,
                       watch: EpisodeRef -> Result<seq<EpisodeLink>, ApiError>,
                       resolve: string -> Result<Extraction, ApiError>,
                       schedule: seq<EpisodeLink> -> seq<nat>)
    returns (reply: SourcesReply)
    requires forall links :: IsPermutationOf(schedule(links), |links|)
    ensures reply.Rejected? <==> ParseSourcesQuery(id, subType).None?
    ensures ParseSourcesQuery(id, subType).Some? && DecodeId(id.value, uriDecode).Failure? ==>
      reply == Failed(InternalError(DecodeId(id.value, uriDecode).error))
    ensures ParseSourcesQuery(id, subType).Some? && DecodeId(id.value, uriDecode).Success? ==>
      var q, ref := ParseSourcesQuery(id, subType).value, DecodeId(id.value, uriDecode).value;
      var result := if watch(ref).Failure? then Failure(watch(ref).error)
        else var links := SelectLinks(watch(ref).value, q.subType); MergeSpec(links, schedule(links), resolve);
      && (reply.Found? <==> result.Success?)
      && (reply.Found? ==> reply.source == result.value)
      && (result.Failure? ==> (reply.Unhandled? <==> OnError(result.error).None?))
      && (reply.Failed? && result.Failure? ==> OnError(result.error) == Some(reply.response))
    ensures reply.Found? ==> forall k :: 0 <= k < |reply.source.sources| ==>
      reply.source.sources[k].isDub == (subType == Some("dub")) && reply.source.sources[k].quality == "auto"
  {
    var query := ParseSourcesQuery(id, subType);
    if query.None? {
      return Rejected;
    }
    var result := KuudereSources(query.value.id, query.value.subType, uriDecode, watch, resolve, schedule);
    match result {
      case Success(source) =>
        reply := Found(source);
      case Failure(e) =>
        match OnError(e) {
          case Some(resp) => reply := Failed(resp);
          case None => reply := Unhandled;
        }
    }
  }
}
