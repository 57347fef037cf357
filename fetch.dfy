/** The provider client (rook/fetch.go): the request each family sends and
    the classification of what comes back into no data, an error or a
    decoded payload. The network round trip, basic authentication and JSON
    decoding are abstracted into an `HttpOutcome`. */
module Rook {
  import opened Wrappers
  import opened Time

  const PhysicalBase: string := "https://api.rook-connect.review/v2/processed_data/physical_health"
  const BodyBase: string := "https://api.rook-connect.review/v2/processed_data/body_health"

  const StatusOK: int := 200
  const StatusNoContent: int := 204

  /** The three metric families. */
  datatype Family = Steps | BloodGlucose | HeartRate

  /** What decoding a 200 body into the family's payload type gave. */
  datatype Decoded<P> = Decoded(payload: P) | DecodeError(err: string)

  /** One round trip: doRequest failed (building the request or the
      transport), or a response arrived with a status code, a status text
      such as "500 Internal Server Error", and a body. */
  datatype HttpOutcome<P> =
    | RequestError(err: string)
    | Response(statusCode: int, status: string, body: Decoded<P>)

  /** Fetch*'s (payload, error) pair: (nil, nil) is `NoData`. */
  datatype FetchResult<P> = NoData | Failed(err: string) | Payload(payload: P)

  /** The query of a request: url.Values, a list of values per key. */
  type Query = map<string, seq<string>>

  datatype Request = Request(url: string, query: Query)

  /** The prefix of each family's status error. */
  function ErrorLabel(f: Family): (prefix: string)
  {
    match f
    case Steps => "rook steps"
    case BloodGlucose => "rook glucose"
    case HeartRate => "rook heart rate"
  }

  /** The fixed base and path each family requests. */
  function Endpoint(f: Family): (endpoint: (string, string))
  {
    match f
    case Steps => (PhysicalBase, "/summary")
    case BloodGlucose => (BodyBase, "/events/blood_glucose")
    case HeartRate => (PhysicalBase, "/events/heart_rate")
  }

  /** FetchSteps, FetchBloodGlucose and FetchHeartRate once the request has
      been made: 204 is no data, any other status but 200 an error with the
      status text, and a 200 body either decodes or gives its decode error. */
  function Fetch<P>(f: Family, r: HttpOutcome<P>): (res: FetchResult<P>)
    ensures res.NoData? <==> r.Response? && r.statusCode == StatusNoContent
    ensures res.Payload? <==> r.Response? && r.statusCode == StatusOK && r.body.Decoded?
    ensures res.Payload? ==> res.payload == r.body.payload
    ensures r.RequestError? ==> res == Failed(r.err)
    ensures r.Response? && r.statusCode != StatusOK && r.statusCode != StatusNoContent
            ==> res == Failed(ErrorLabel(f) + ": " + r.status)
    ensures r.Response? && r.statusCode == StatusOK && r.body.DecodeError?
            ==> res == Failed(r.body.err)
  {
    match r
    case RequestError(e) => Failed(e)
    case Response(code, status, body) =>
      if code == StatusNoContent then NoData
      else if code != StatusOK then Failed(ErrorLabel(f) + ": " + status)
      else match body
        case DecodeError(e) => Failed(e)
        case Decoded(p) => Payload(p)
  }

  /** The parameter loop of doRequest: q.Set(k, v) for every parameter, in
      the map's (unspecified) order. Set leaves exactly one value per key and
      keeps the keys it is not given. */
  method SetParams(q0: Query, params: map<string, string>) returns (q: Query)
    ensures q.Keys == q0.Keys + params.Keys
    ensures forall k :: k in params ==> q[k] == [params[k]]
    ensures forall k :: k in q0 && k !in params ==> q[k] == q0[k]
  {
    q := q0;
    var todo := params.Keys;
    while todo != {}
      invariant todo <= params.Keys
      invariant q.Keys == q0.Keys + (params.Keys - todo)
      invariant forall k :: k in params && k !in todo ==> q[k] == [params[k]]
      invariant forall k :: k in q0 && k !in params ==> q[k] == q0[k]
      decreases todo
    {
      var k :| k in todo;
      q := q[k := [params[k]]];
      todo := todo - {k};
    }
  }

  /** The request Fetch* sends for `userID` and the day of `date`; `iso`
      renders a calendar day as YYYY-MM-DD (date.Format("2006-01-02")).
      The endpoint URL has no query of its own. */
  method BuildRequest(f: Family, userID: string, date: Instant, iso: int -> string) returns (req: Request)
    ensures f == Steps ==> req.url == PhysicalBase + "/summary"
    ensures f == BloodGlucose ==> req.url == BodyBase + "/events/blood_glucose"
    ensures f == HeartRate ==> req.url == PhysicalBase + "/events/heart_rate"
    ensures req.query.Keys == {"user_id", "date"}
    ensures req.query["user_id"] == [userID]
    ensures req.query["date"] == [iso(DateOf(date))]
  {
    var (base, path) := Endpoint(f);
    var q := SetParams(map[], map["user_id" := userID, "date" := iso(DateOf(date))]);
    req := Request(base + path, q);
  }
}
