/**
 * The travel-duration endpoint (app/api/distance/route.ts): checks its two
 * query parameters, asks the distance-matrix provider and answers with a
 * duration in seconds, falling back to 900 seconds on any failure.
 */
module DistanceRoute {
  import opened Common

  /** Travel time used whenever the provider gives no usable answer: 15 minutes. */
  const FALLBACK_SECONDS: int := 900

  /** The parts of the provider's JSON answer that are read: `rows[0].elements[0].duration.value`. */
  datatype DurationJson = DurationJson(value: Option<int>)
  datatype ElementJson = ElementJson(duration: Option<DurationJson>)
  datatype RowJson = RowJson(elements: Option<seq<ElementJson>>)
  datatype MatrixJson = MatrixJson(rows: Option<seq<RowJson>>)

  /** What the upstream request yields: a thrown error, a non-ok status, or an ok answer (whose body may fail to decode). */
  datatype Upstream = UpstreamThrew | UpstreamNotOk(status: int) | UpstreamOk(body: Option<MatrixJson>)

  /** The route's answer: an HTTP status, the `duration` field if any, and whether the `Warning` header is set. */
  datatype Response = Response(status: int, duration: Option<int>, warning: bool)

  /** `data.rows?.[0]?.elements?.[0]?.duration?.value`; an empty array has no element 0. */
  function NestedDuration(data: MatrixJson): (value: Option<int>) {
    if data.rows.None? || |data.rows.value| == 0 then None
    else
      var row := data.rows.value[0];
      if row.elements.None? || |row.elements.value| == 0 then None
      else
        var element := row.elements.value[0];
        if element.duration.None? then None else element.duration.value.value
  }

  /** The `GET` handler. Empty parameters are falsy, so they count as missing. */
  function Get(origin: Option<string>, destination: Option<string>, upstream: Upstream): (r: Response)
    ensures r.status == 400 <==> !(Truthy(origin) && Truthy(destination))
    ensures r.status == 400 ==> r.duration == None && !r.warning
    ensures r.status != 400 ==> r.status == 200 && r.duration.Some? && r.duration.value != 0
    ensures r.warning ==> r.duration == Some(FALLBACK_SECONDS)
  {
    if !Truthy(origin) || !Truthy(destination) then Response(400, None, false)
    else match upstream
      case UpstreamThrew => Response(200, Some(FALLBACK_SECONDS), false)
      case UpstreamNotOk(_) => Response(200, Some(FALLBACK_SECONDS), false)
      case UpstreamOk(None) => Response(200, Some(FALLBACK_SECONDS), false)
      case UpstreamOk(Some(data)) =>
        var value := NestedDuration(data);
        if value.None? || value.value == 0 then Response(200, Some(FALLBACK_SECONDS), true)
        else Response(200, value, false)
  }

  /** A present, non-zero nested duration is passed through unchanged. */
  lemma ValueIsReturned(origin: string, destination: string, data: MatrixJson)
    requires origin != "" && destination != ""
    requires NestedDuration(data).Some? && NestedDuration(data).value != 0
    ensures Get(Some(origin), Some(destination), UpstreamOk(Some(data))) == Response(200, NestedDuration(data), false)
  {
  }

  /** A missing path, or a duration of 0 (falsy), gives 900 seconds with status 200 and the warning header. */
  lemma InvalidAnswerFallsBack(origin: string, destination: string, data: MatrixJson)
    requires origin != "" && destination != ""
    requires NestedDuration(data).None? || NestedDuration(data) == Some(0)
    ensures Get(Some(origin), Some(destination), UpstreamOk(Some(data))) == Response(200, Some(900), true)
  {
  }

  /** A thrown error or a non-ok upstream status gives 900 seconds with status 200 and no warning. */
  lemma UpstreamFailureFallsBack(origin: string, destination: string, upstream: Upstream)
    requires origin != "" && destination != ""
    requires upstream.UpstreamThrew? || upstream.UpstreamNotOk? || upstream == UpstreamOk(None)
    ensures Get(Some(origin), Some(destination), upstream) == Response(200, Some(900), false)
  {
  }

  /** An answer without rows, or with an empty first row, has no usable duration. */
  lemma MissingPathHasNoDuration(rows: Option<seq<RowJson>>)
    requires rows.None? || (|rows.value| > 0 && rows.value[0].elements == Some([]))
    ensures NestedDuration(MatrixJson(rows)).None?
  {
  }
}
