/** The query handling shared by the three read endpoints of the HTTP
    server (main.go): `user_id` check, date parsing and range resolution.
    The SQL, row scanning and JSON encoding that follow are not modelled. */
module Api {
  import opened Wrappers
  import opened Time
  import R = Rook

  /** The layouts `parseDate` tries, in order: RFC 3339, then a bare date. */
  const Layouts: seq<Layout> := [RFC3339, DateOnly]

  /** The first of `layouts` under which `value` parses, or "bad date". */
  function FirstParse(layouts: seq<Layout>, value: string, parse: Parser): (parsed: Result<Instant, string>)
    decreases |layouts|
  {
    if layouts == [] then Err("bad date")
    else
      match parse(layouts[0], value)
      case Some(t) => Ok(t)
      case None => FirstParse(layouts[1..], value, parse)
  }

  /** FirstParse succeeds exactly when some layout parses, and then with the
      instant of the earliest such layout; otherwise it fails with "bad date". */
  lemma {:induction false} FirstParseIsFirstSuccess(layouts: seq<Layout>, value: string, parse: Parser)
    ensures FirstParse(layouts, value, parse).Ok? <==> exists i :: 0 <= i < |layouts| && parse(layouts[i], value).Some?
    ensures FirstParse(layouts, value, parse).Err? ==> FirstParse(layouts, value, parse).error == "bad date"
    ensures FirstParse(layouts, value, parse).Ok? ==>
              exists i :: 0 <= i < |layouts| && parse(layouts[i], value) == Some(FirstParse(layouts, value, parse).value)
                          && forall j :: 0 <= j < i ==> parse(layouts[j], value).None?
    decreases |layouts|
  {
    if layouts != [] {
      FirstParseIsFirstSuccess(layouts[1..], value, parse);
      if parse(layouts[0], value).None? {
        var rest := layouts[1..];
        if exists i :: 0 <= i < |layouts| && parse(layouts[i], value).Some? {
          var i :| 0 <= i < |layouts| && parse(layouts[i], value).Some?;
          assert rest[i - 1] == layouts[i];
        }
        if FirstParse(rest, value, parse).Ok? {
          var i :| 0 <= i < |rest| && parse(rest[i], value) == Some(FirstParse(rest, value, parse).value)
                   && forall j :: 0 <= j < i ==> parse(rest[j], value).None?;
          assert layouts[i + 1] == rest[i];
          assert forall j :: 1 <= j < i + 1 ==> layouts[j] == rest[j - 1];
        }
      } else {
        assert parse(layouts[0], value).Some?;
      }
    }
  }

  /** `parseDate`: RFC 3339 first, then `2006-01-02`, else "bad date". */
  method ParseDate(value: string, parse: Parser) returns (r: Result<Instant, string>)
    ensures r == FirstParse(Layouts, value, parse)
    ensures parse(RFC3339, value).Some? ==> r == Ok(parse(RFC3339, value).value)
    ensures parse(RFC3339, value).None? && parse(DateOnly, value).Some? ==> r == Ok(parse(DateOnly, value).value)
    ensures parse(RFC3339, value).None? && parse(DateOnly, value).None? ==> r == Err("bad date")
  {
    var i := 0;
    while i < |Layouts|
      invariant 0 <= i <= |Layouts|
      invariant FirstParse(Layouts[i..], value, parse) == FirstParse(Layouts, value, parse)
    {
      var t := parse(Layouts[i], value);
      if t.Some? {
        return Ok(t.value);
      }
      assert Layouts[i..][1..] == Layouts[i + 1..];
      i := i + 1;
    }
    r := Err("bad date");
  }

  /** What `resolveRange` gives for the raw `end` and `start` query values
      ("" when absent). */
  function ResolveRange(endParam: string, startParam: string, now: Instant, defaultDays: int, parse: Parser)
    : (r: Result<(Instant, Instant), string>)
    ensures endParam != "" && FirstParse(Layouts, endParam, parse).Err? ==> r == Err("invalid end")
    ensures ((endParam == "" || FirstParse(Layouts, endParam, parse).Ok?)
             && startParam != "" && FirstParse(Layouts, startParam, parse).Err?) ==> r == Err("invalid start")
    ensures r.Err? ==> r.error in {"invalid end", "invalid start", "start must be before end"}
    ensures r.Ok? ==> !After(r.value.0, r.value.1)
    ensures r.Ok? && endParam == "" ==> r.value.1 == now
    ensures r.Ok? && endParam != "" ==> FirstParse(Layouts, endParam, parse) == Ok(r.value.1)
    ensures r.Ok? && startParam == "" ==> r.value.0 == AddDays(r.value.1, -defaultDays)
    ensures r.Ok? && startParam != "" ==> FirstParse(Layouts, startParam, parse) == Ok(r.value.0)
  {
    var endParsed := if endParam == "" then Ok(now) else FirstParse(Layouts, endParam, parse);
    if endParsed.Err? then Err("invalid end")
    else
      var end := endParsed.value;
      var startParsed := if startParam == "" then Ok(AddDays(end, -defaultDays)) else FirstParse(Layouts, startParam, parse);
      if startParsed.Err? then Err("invalid start")
      else
        var start := startParsed.value;
        if After(start, end) then Err("start must be before end")
        else Ok((start, end))
  }

  /** A range whose start is strictly after its end is the only other way
      to fail, and a start equal to the end is accepted. */
  lemma OrderIsTheLastCheck(endParam: string, startParam: string, now: Instant, defaultDays: int, parse: Parser,
                            start: Instant, end: Instant)
    requires endParam == "" ==> end == now
    requires endParam != "" ==> FirstParse(Layouts, endParam, parse) == Ok(end)
    requires startParam == "" ==> start == AddDays(end, -defaultDays)
    requires startParam != "" ==> FirstParse(Layouts, startParam, parse) == Ok(start)
    ensures ResolveRange(endParam, startParam, now, defaultDays, parse) ==
            if After(start, end) then Err("start must be before end") else Ok((start, end))
    ensures start == end ==> ResolveRange(endParam, startParam, now, defaultDays, parse) == Ok((end, end))
  {
  }

  /** With neither bound given and a non-negative default, the range is the
      `defaultDays` calendar days ending now. */
  lemma DefaultRange(now: Instant, defaultDays: nat, parse: Parser)
    ensures ResolveRange("", "", now, defaultDays, parse) == Ok((AddDays(now, -(defaultDays as int)), now))
  {
  }

  /** The query string, as `url.Values`. */
  type Query = map<string, seq<string>>

  /** `url.Values.Get`: the first value for the key, or "" when there is none. */
  function Get(q: Query, key: string): (v: string)
    ensures (key !in q || q[key] == []) ==> v == ""
    ensures key in q && q[key] != [] ==> v == q[key][0]
  {
    if key in q && q[key] != [] then q[key][0] else ""
  }

  /** The default window of each read endpoint, in days. */
  function DefaultDays(f: R.Family): (days: int)
  {
    match f
    case BloodGlucose => 7
    case HeartRate => 7
    case Steps => 30
  }

  /** What a read endpoint queries the table with. */
  datatype RangeQuery = RangeQuery(userID: string, start: Instant, end: Instant)

  /** The checks a read endpoint makes before querying: the `user_id`
      parameter first, then the range; an `Err` is the body of the 400
      response. */
  function CheckQuery(f: R.Family, q: Query, now: Instant, parse: Parser): (r: Result<RangeQuery, string>)
    ensures Get(q, "user_id") == "" ==> r == Err("user_id required")
    ensures Get(q, "user_id") != "" ==>
              (r.Ok? <==> ResolveRange(Get(q, "end"), Get(q, "start"), now, DefaultDays(f), parse).Ok?)
    ensures Get(q, "user_id") != "" && r.Err? ==>
              r.error == ResolveRange(Get(q, "end"), Get(q, "start"), now, DefaultDays(f), parse).error
    ensures r.Ok? ==> r.value.userID == Get(q, "user_id") && r.value.userID != ""
                      && !After(r.value.start, r.value.end)
                      && ResolveRange(Get(q, "end"), Get(q, "start"), now, DefaultDays(f), parse)
                         == Ok((r.value.start, r.value.end))
  {
    var userID := Get(q, "user_id");
    if userID == "" then Err("user_id required")
    else
      match ResolveRange(Get(q, "end"), Get(q, "start"), now, DefaultDays(f), parse)
      case Err(e) => Err(e)
      case Ok(range) => Ok(RangeQuery(userID, range.0, range.1))
  }

  /** A request naming only the user reads the family's default window
      ending now: 7 days for glucose and heart rate, 30 for steps. */
  lemma DefaultWindows(f: R.Family, userID: string, now: Instant, parse: Parser)
    requires userID != ""
    ensures CheckQuery(f, map["user_id" := [userID]], now, parse)
            == Ok(RangeQuery(userID, AddDays(now, -(if f == R.Steps then 30 else 7)), now))
  {
    var q := map["user_id" := [userID]];
    assert Get(q, "end") == "" && Get(q, "start") == "";
    DefaultRange(now, DefaultDays(f), parse);
  }
}
