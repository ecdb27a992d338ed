/**
 * What the screen exchanges with the remote report service (`api/ApiService.kt`,
 * `api/ReportRequest.kt`). The service itself is not modelled: each call is
 * represented by the response it hands back.
 */
module Api {
  import opened Wrappers
  import opened Markers

  /** The signed-in user, as MapScreen receives it and as the X-User-Info header carries it. */
  datatype User = User(username: string, isAdmin: bool)

  /** The body of a create call: only five of the draft's nine fields travel. */
  datatype ReportRequest = ReportRequest(
    latitude: Double,
    longitude: Double,
    title: string,
    snippet: string,
    crimeType: string)

  /** An HTTP status that `isSuccessful` rejects: anything outside 200..299. */
  type FailureCode = c: int | !(200 <= c < 300) witness 400

  /**
   * How one call ended: a 2xx response whose body may be null, a non-2xx
   * response with its status code, or an exception with its (nullable) message.
   */
  datatype Response<T> =
    | Success(body: Option<T>)
    | HttpError(code: FailureCode)
    | Thrown(message: Option<string>)

  /**
   * A report body as the converter hands it over: a complete report, or one
   * that `toMarkerData` rejects because it holds a null where the record needs
   * a value (or, in a list, is itself null). A rejected body keeps its id, which
   * is null when the id itself is missing, and carries the (nullable) message
   * of the exception the rejection throws.
   */
  datatype Element = Complete(report: MarkerReport) | Incomplete(id: Option<string>, message: Option<string>)

  /** The test "this element makes `toMarkerData` throw" as a function value. */
  function IsIncomplete(e: Element): bool {
    e.Incomplete?
  }

  /** A well-formed server list, as the poll receives it. */
  function AsElements(rs: seq<MarkerReport>): (es: seq<Element>)
    ensures |es| == |rs|
    ensures forall i :: 0 <= i < |rs| ==> es[i] == Complete(rs[i])
  {
    seq(|rs|, i requires 0 <= i < |rs| => Complete(rs[i]))
  }

  /** The request `postReportToServer` builds from a draft. */
  function RequestOf(draft: MarkerData): (q: ReportRequest)
    ensures q.latitude == draft.latitude && q.longitude == draft.longitude
    ensures q.title == draft.title && q.snippet == draft.snippet
    ensures q.crimeType == draft.crimeType
  {
    ReportRequest(draft.latitude, draft.longitude, draft.title, draft.snippet, draft.crimeType)
  }

  /**
   * The client-chosen id, the reporter, the status and the approvers never
   * reach the server: drafts that differ only there send the same request.
   */
  lemma RequestDropsClientFields(a: MarkerData, b: MarkerData)
    requires a.latitude == b.latitude && a.longitude == b.longitude
    requires a.title == b.title && a.snippet == b.snippet && a.crimeType == b.crimeType
    ensures RequestOf(a) == RequestOf(b)
  {
  }
}
