/** The ingestion driver (scripts/fetch_data.go, `main`): for each metric
    family, walk a day range ending now, fetch each day, skip failed and
    empty days, normalise the rest and upsert. Glucose and heart rate are
    flushed once per day; steps are collected over the range and flushed
    once at the end. Log lines are abstracted into one report per day. */
module Ingest {
  import opened Wrappers
  import opened Time
  import opened Models
  import R = Rook
  import Upsert
  import G = BloodGlucoseStore
  import H = HeartRateStore
  import St = StepsStore
  import N = Normalize

  /** The script's fixed user. */
  const ScriptUserID: string := "david1"

  /** How many days before `now` each range starts. */
  const GlucoseLookback: nat := 7
  const StepsLookback: nat := 29
  const HeartRateLookback: nat := 7

  /** What happened to one day of a range. */
  datatype DayReport<T> =
    | FetchFailed(day: Instant, err: string)
    | NoData(day: Instant)
    | Collected(day: Instant, records: seq<T>)
    | Flushed(day: Instant, records: seq<T>, storeErr: Option<string>)

  /** The days `for d := end.AddDate(0, 0, -back); !d.After(end); d = d.AddDate(0, 0, 1)` visits. */
  function Window(end: Instant, back: nat): (days: seq<Instant>)
    ensures |days| == back + 1
    ensures forall k :: 0 <= k <= back ==> days[k].day == end.day + k - back && days[k].nanos == end.nanos
  {
    seq(back + 1, k requires 0 <= k <= back => Stamp(end.day + k - back, end.nanos))
  }

  /** The window runs from `back` days before `end` through `end` itself,
      one calendar day per step, strictly increasing, never after `end`. */
  lemma WindowShape(end: Instant, back: nat)
    ensures |Window(end, back)| == back + 1
    ensures Window(end, back)[0] == AddDays(end, -(back as int)) && Window(end, back)[back] == end
    ensures forall k :: 0 <= k < back ==>
              Window(end, back)[k + 1] == AddDays(Window(end, back)[k], 1)
              && After(Window(end, back)[k + 1], Window(end, back)[k])
    ensures forall k :: 0 <= k <= back ==> !After(Window(end, back)[k], end)
    ensures forall i, j :: 0 <= i < j <= back ==> Window(end, back)[i] != Window(end, back)[j]
  {
  }

  // ---------------------------------------------------------------- glucose

  /** The report of glucose day d. */
  function GlucoseDay(userID: string, d: Instant, respond: Instant -> R.HttpOutcome<GlucoseResponse>,
                      parse: Parser, faults: Instant -> Upsert.TxFault): (report: DayReport<G.BloodGlucoseReading>)
  {
    match R.Fetch(R.BloodGlucose, respond(d))
    case Failed(e) => FetchFailed(d, e)
    case NoData => NoData(d)
    case Payload(p) =>
      var rs := N.GlucoseReadings(userID, N.GlucoseSamples(p.bloodGlucoseEvents), parse);
      Flushed(d, rs, Upsert.BatchError(faults(d), |rs|))
  }

  /** The table after the committed batches of the reported days, in order. */
  function ReplayGlucose(rows: map<G.Key, G.Row>, reports: seq<DayReport<G.BloodGlucoseReading>>): (after: map<G.Key, G.Row>)
    decreases |reports|
  {
    if reports == [] then rows
    else
      var n := |reports| - 1;
      var before := ReplayGlucose(rows, reports[..n]);
      if reports[n].Flushed? && reports[n].storeErr == None then G.ApplyBatch(before, reports[n].records)
      else before
  }

  /** The glucose loop: one fetch and one batch per day. */
  method IngestGlucose(userID: string, now: Instant, respond: Instant -> R.HttpOutcome<GlucoseResponse>,
                       parse: Parser, faults: Instant -> Upsert.TxFault, table: G.BloodGlucoseTable)
    returns (reports: seq<DayReport<G.BloodGlucoseReading>>)
    modifies table
    ensures |reports| == GlucoseLookback + 1
    ensures forall k :: 0 <= k < |reports| ==>
              reports[k] == GlucoseDay(userID, Window(now, GlucoseLookback)[k], respond, parse, faults)
    ensures table.rows == ReplayGlucose(old(table.rows), reports)
  {
    var end := now;
    var start := AddDays(end, -(GlucoseLookback as int));
    reports := [];
    var d := start;
    while !After(d, end)
      invariant d.nanos == end.nanos && start.day <= d.day <= end.day + 1
      invariant |reports| == d.day - start.day
      invariant forall k :: 0 <= k < |reports| ==>
                  reports[k] == GlucoseDay(userID, AddDays(start, k), respond, parse, faults)
      invariant table.rows == ReplayGlucose(old(table.rows), reports)
      decreases end.day - d.day
    {
      ghost var prev := reports;
      match R.Fetch(R.BloodGlucose, respond(d)) {
        case Failed(e) =>
          reports := reports + [FetchFailed(d, e)];
        case NoData =>
          reports := reports + [NoData(d)];
        case Payload(p) =>
          var readings := N.NormalizeGlucose(userID, p, parse);
          var err := table.UpsertBloodGlucoseBatch(readings, faults(d));
          reports := reports + [Flushed(d, readings, err)];
      }
      assert reports[..|prev|] == prev;
      d := AddDays(d, 1);
    }
  }

  /** Replaying a range is overlaying its committed batches on the table. */
  lemma {:induction false} ReplayGlucoseOverlay(rows: map<G.Key, G.Row>, reports: seq<DayReport<G.BloodGlucoseReading>>)
    ensures ReplayGlucose(rows, reports) == rows + ReplayGlucose(map[], reports)
    decreases |reports|
  {
    if reports != [] {
      var n := |reports| - 1;
      ReplayGlucoseOverlay(rows, reports[..n]);
      if reports[n].Flushed? && reports[n].storeErr == None {
        var c := ReplayGlucose(map[], reports[..n]);
        Upsert.Overlay(rows + c, G.Entries(reports[n].records));
        Upsert.Overlay(c, G.Entries(reports[n].records));
      }
    }
  }

  /** Running the glucose ingestion again over the same provider answers
      leaves the table as the first run left it. */
  lemma GlucoseRerunIdempotent(rows: map<G.Key, G.Row>, reports: seq<DayReport<G.BloodGlucoseReading>>)
    ensures ReplayGlucose(ReplayGlucose(rows, reports), reports) == ReplayGlucose(rows, reports)
  {
    var c := ReplayGlucose(map[], reports);
    ReplayGlucoseOverlay(rows, reports);
    ReplayGlucoseOverlay(rows + c, reports);
    assert (rows + c) + c == rows + c;
  }

  /** A day whose fetch failed or had no data adds nothing: the table is the
      one the other days alone would give. */
  lemma {:induction false} SkippedDayAddsNothing(rows: map<G.Key, G.Row>,
                                                 before: seq<DayReport<G.BloodGlucoseReading>>,
                                                 skipped: DayReport<G.BloodGlucoseReading>,
                                                 after: seq<DayReport<G.BloodGlucoseReading>>)
    requires skipped.FetchFailed? || skipped.NoData?
    ensures ReplayGlucose(rows, before + [skipped] + after) == ReplayGlucose(rows, before + after)
    decreases |after|
  {
    if after == [] {
      assert (before + [skipped] + after)[..|before|] == before;
      assert before + after == before;
    } else {
      var n := |after| - 1;
      SkippedDayAddsNothing(rows, before, skipped, after[..n]);
      assert (before + [skipped] + after)[..|before| + 1 + n] == before + [skipped] + after[..n];
      assert (before + after)[..|before| + n] == before + after[..n];
    }
  }

  // ------------------------------------------------------------- heart rate

  /** `report` is what heart-rate day d gives: the merge's readings come in
      an unspecified order. */
  ghost predicate HeartRateDay(report: DayReport<H.HeartRateReading>, userID: string, d: Instant,
                               respond: Instant -> R.HttpOutcome<HeartRateResponse>, parse: Parser,
                               faults: Instant -> Upsert.TxFault)
  {
    match R.Fetch(R.HeartRate, respond(d))
    case Failed(e) => report == FetchFailed(d, e)
    case NoData => report == NoData(d)
    case Payload(p) =>
      report.Flushed? && report.day == d
      && N.IsMerge(report.records, userID, p.heartRateEvents, parse)
      && report.storeErr == Upsert.BatchError(faults(d), |report.records|)
  }

  /** The table after the committed batches of the reported days, in order. */
  function ReplayHeartRate(rows: map<H.Key, H.Row>, reports: seq<DayReport<H.HeartRateReading>>): (after: map<H.Key, H.Row>)
    decreases |reports|
  {
    if reports == [] then rows
    else
      var n := |reports| - 1;
      var before := ReplayHeartRate(rows, reports[..n]);
      if reports[n].Flushed? && reports[n].storeErr == None then H.ApplyBatch(before, reports[n].records)
      else before
  }

  /** The heart-rate loop: one fetch, one merge and one batch per day. */
  method IngestHeartRate(userID: string, now: Instant, respond: Instant -> R.HttpOutcome<HeartRateResponse>,
                         parse: Parser, faults: Instant -> Upsert.TxFault, table: H.HeartRateTable)
    returns (reports: seq<DayReport<H.HeartRateReading>>)
    modifies table
    ensures |reports| == HeartRateLookback + 1
    ensures forall k :: 0 <= k < |reports| ==>
              HeartRateDay(reports[k], userID, Window(now, HeartRateLookback)[k], respond, parse, faults)
    ensures table.rows == ReplayHeartRate(old(table.rows), reports)
  {
    var end := now;
    var start := AddDays(end, -(HeartRateLookback as int));
    reports := [];
    var d := start;
    while !After(d, end)
      invariant d.nanos == end.nanos && start.day <= d.day <= end.day + 1
      invariant |reports| == d.day - start.day
      invariant forall k :: 0 <= k < |reports| ==>
                  HeartRateDay(reports[k], userID, AddDays(start, k), respond, parse, faults)
      invariant table.rows == ReplayHeartRate(old(table.rows), reports)
      decreases end.day - d.day
    {
      ghost var prev := reports;
      match R.Fetch(R.HeartRate, respond(d)) {
        case Failed(e) =>
          reports := reports + [FetchFailed(d, e)];
        case NoData =>
          reports := reports + [NoData(d)];
        case Payload(p) =>
          var readings := N.NormalizeHeartRate(userID, p, parse);
          var err := table.UpsertHeartRateBatch(readings, faults(d));
          reports := reports + [Flushed(d, readings, err)];
      }
      assert reports[..|prev|] == prev;
      d := AddDays(d, 1);
    }
  }

  /** Two runs over the same days and provider answers commit the same
      tables whatever order each day's merge came out in. */
  lemma {:induction false} ReplayHeartRateSameDays(rows: map<H.Key, H.Row>,
                                                   a: seq<DayReport<H.HeartRateReading>>,
                                                   b: seq<DayReport<H.HeartRateReading>>,
                                                   userID: string, days: seq<Instant>,
                                                   respond: Instant -> R.HttpOutcome<HeartRateResponse>,
                                                   parse: Parser, faults: Instant -> Upsert.TxFault)
    requires |a| == |b| == |days|
    requires forall k :: 0 <= k < |days| ==> HeartRateDay(a[k], userID, days[k], respond, parse, faults)
    requires forall k :: 0 <= k < |days| ==> HeartRateDay(b[k], userID, days[k], respond, parse, faults)
    ensures ReplayHeartRate(rows, a) == ReplayHeartRate(rows, b)
    decreases |days|
  {
    if days != [] {
      var n := |days| - 1;
      ReplayHeartRateSameDays(rows, a[..n], b[..n], userID, days[..n], respond, parse, faults);
      var before := ReplayHeartRate(rows, a[..n]);
      match R.Fetch(R.HeartRate, respond(days[n])) {
        case Failed(e) =>
        case NoData =>
        case Payload(p) =>
          SameMergeSameMembers(a[n].records, b[n].records, userID, p.heartRateEvents, parse);
          H.BatchOrderIrrelevant(before, a[n].records, b[n].records);
      }
    }
  }

  /** Two merges of the same day hold the same readings. */
  lemma SameMergeSameMembers(a: seq<H.HeartRateReading>, b: seq<H.HeartRateReading>,
                             userID: string, events: seq<HeartRateEvent>, parse: Parser)
    requires N.IsMerge(a, userID, events, parse) && N.IsMerge(b, userID, events, parse)
    ensures |a| == |b|
    ensures forall r :: r in a <==> r in b
  {
    N.MergeCount(a, userID, events, parse);
    N.MergeCount(b, userID, events, parse);
    forall r | r in a ensures r in b {
      var i :| 0 <= i < |a| && a[i] == r;
      var j :| 0 <= j < |b| && b[j].sampleTime == r.sampleTime;
    }
    forall r | r in b ensures r in a {
      var j :| 0 <= j < |b| && b[j] == r;
      var i :| 0 <= i < |a| && a[i].sampleTime == r.sampleTime;
    }
  }

  /** Replaying a range is overlaying its committed batches on the table. */
  lemma {:induction false} ReplayHeartRateOverlay(rows: map<H.Key, H.Row>, reports: seq<DayReport<H.HeartRateReading>>)
    ensures ReplayHeartRate(rows, reports) == rows + ReplayHeartRate(map[], reports)
    decreases |reports|
  {
    if reports != [] {
      var n := |reports| - 1;
      ReplayHeartRateOverlay(rows, reports[..n]);
      if reports[n].Flushed? && reports[n].storeErr == None {
        var c := ReplayHeartRate(map[], reports[..n]);
        Upsert.Overlay(rows + c, H.Entries(reports[n].records));
        Upsert.Overlay(c, H.Entries(reports[n].records));
      }
    }
  }

  /** Running the heart-rate ingestion a second time over the same days,
      provider answers and store behaviour leaves the table the first run
      left, although each run may order a day's readings differently. */
  lemma HeartRateRerunIdempotent(rows: map<H.Key, H.Row>,
                                 first: seq<DayReport<H.HeartRateReading>>,
                                 second: seq<DayReport<H.HeartRateReading>>,
                                 userID: string, now: Instant,
                                 respond: Instant -> R.HttpOutcome<HeartRateResponse>,
                                 parse: Parser, faults: Instant -> Upsert.TxFault)
    requires |first| == |second| == HeartRateLookback + 1
    requires forall k :: 0 <= k < |first| ==>
               HeartRateDay(first[k], userID, Window(now, HeartRateLookback)[k], respond, parse, faults)
    requires forall k :: 0 <= k < |second| ==>
               HeartRateDay(second[k], userID, Window(now, HeartRateLookback)[k], respond, parse, faults)
    ensures ReplayHeartRate(ReplayHeartRate(rows, first), second) == ReplayHeartRate(rows, first)
  {
    var once := ReplayHeartRate(rows, first);
    ReplayHeartRateSameDays(once, second, first, userID, Window(now, HeartRateLookback), respond, parse, faults);
    var c := ReplayHeartRate(map[], first);
    ReplayHeartRateOverlay(rows, first);
    ReplayHeartRateOverlay(once, first);
    assert (rows + c) + c == rows + c;
  }

  // ------------------------------------------------------------------ steps

  /** The report of steps day d: the day's total, dated d, is collected. */
  function StepsDay(userID: string, d: Instant, respond: Instant -> R.HttpOutcome<StepsResponse>): (report: DayReport<St.StepTotal>)
  {
    match R.Fetch(R.Steps, respond(d))
    case Failed(e) => FetchFailed(d, e)
    case NoData => NoData(d)
    case Payload(p) => Collected(d, [St.StepTotal(userID, d, p.steps)])
  }

  /** The records collected over a range, in day order. */
  function CollectedRecords<T>(reports: seq<DayReport<T>>): (records: seq<T>)
    decreases |reports|
  {
    if reports == [] then []
    else
      var n := |reports| - 1;
      CollectedRecords(reports[..n]) + if reports[n].Collected? then reports[n].records else []
  }

  /** The steps loop: totals are collected over the whole range and
      upserted in a single batch after it. */
  method IngestSteps(userID: string, now: Instant, respond: Instant -> R.HttpOutcome<StepsResponse>,
                     fault: Upsert.TxFault, table: St.StepsTable)
    returns (reports: seq<DayReport<St.StepTotal>>, storeErr: Option<string>)
    modifies table
    ensures |reports| == StepsLookback + 1
    ensures forall k :: 0 <= k < |reports| ==> reports[k] == StepsDay(userID, Window(now, StepsLookback)[k], respond)
    ensures storeErr == Upsert.BatchError(fault, |CollectedRecords(reports)|)
    ensures table.rows == if storeErr == None then St.ApplyBatch(old(table.rows), CollectedRecords(reports))
                          else old(table.rows)
  {
    var end := now;
    var start := AddDays(end, -(StepsLookback as int));
    reports := [];
    var stepTotals: seq<St.StepTotal> := [];
    var d := start;
    while !After(d, end)
      invariant d.nanos == end.nanos && start.day <= d.day <= end.day + 1
      invariant |reports| == d.day - start.day
      invariant forall k :: 0 <= k < |reports| ==> reports[k] == StepsDay(userID, AddDays(start, k), respond)
      invariant stepTotals == CollectedRecords(reports)
      invariant table.rows == old(table.rows)
      decreases end.day - d.day
    {
      ghost var prev := reports;
      match R.Fetch(R.Steps, respond(d)) {
        case Failed(e) =>
          reports := reports + [FetchFailed(d, e)];
        case NoData =>
          reports := reports + [NoData(d)];
        case Payload(p) =>
          var steps := p.steps;
          stepTotals := stepTotals + [St.StepTotal(userID, d, steps)];
          reports := reports + [Collected(d, [St.StepTotal(userID, d, steps)])];
      }
      assert reports[..|prev|] == prev;
      d := AddDays(d, 1);
    }
    storeErr := table.UpsertStepsBatch(stepTotals, fault);
  }

  /** Every step total of the batch belongs to the user, is dated with the
      day whose fetch returned it, and carries that day's step count; a day
      whose fetch failed or had no data contributes none. */
  lemma {:induction false} StepTotalsFromPayloadDays(userID: string, days: seq<Instant>,
                                                     respond: Instant -> R.HttpOutcome<StepsResponse>,
                                                     reports: seq<DayReport<St.StepTotal>>)
    requires |reports| == |days|
    requires forall k :: 0 <= k < |days| ==> reports[k] == StepsDay(userID, days[k], respond)
    ensures |CollectedRecords(reports)| <= |days|
    ensures forall i :: 0 <= i < |CollectedRecords(reports)| ==>
              var t := CollectedRecords(reports)[i];
              t.userID == userID
              && exists k :: 0 <= k < |days| && t.date == days[k]
                             && R.Fetch(R.Steps, respond(days[k])) == R.Payload(StepsResponse(t.total))
    decreases |days|
  {
    if days != [] {
      var n := |days| - 1;
      StepTotalsFromPayloadDays(userID, days[..n], respond, reports[..n]);
      var earlier := CollectedRecords(reports[..n]);
      var all := CollectedRecords(reports);
      forall i | 0 <= i < |all|
        ensures all[i].userID == userID
        ensures exists k :: 0 <= k < |days| && all[i].date == days[k]
                            && R.Fetch(R.Steps, respond(days[k])) == R.Payload(StepsResponse(all[i].total))
      {
        if i < |earlier| {
          assert all[i] == earlier[i];
          var k :| 0 <= k < n && earlier[i].date == days[..n][k]
                   && R.Fetch(R.Steps, respond(days[..n][k])) == R.Payload(StepsResponse(earlier[i].total));
          assert days[..n][k] == days[k];
        } else {
          assert reports[n] == StepsDay(userID, days[n], respond);
          assert all[i].date == days[n];
        }
      }
    }
  }

  /** Over days that are pairwise distinct (as a window's are), no two
      collected totals share a date: at most one total per day. */
  lemma {:induction false} StepTotalsOnePerDay(userID: string, days: seq<Instant>,
                                               respond: Instant -> R.HttpOutcome<StepsResponse>,
                                               reports: seq<DayReport<St.StepTotal>>)
    requires |reports| == |days|
    requires forall k :: 0 <= k < |days| ==> reports[k] == StepsDay(userID, days[k], respond)
    requires forall i, j :: 0 <= i < j < |days| ==> days[i] != days[j]
    ensures forall i, j :: 0 <= i < j < |CollectedRecords(reports)| ==>
              CollectedRecords(reports)[i].date != CollectedRecords(reports)[j].date
    decreases |days|
  {
    if days != [] {
      var n := |days| - 1;
      StepTotalsOnePerDay(userID, days[..n], respond, reports[..n]);
      StepTotalsFromPayloadDays(userID, days[..n], respond, reports[..n]);
      var earlier := CollectedRecords(reports[..n]);
      var all := CollectedRecords(reports);
      assert reports[n] == StepsDay(userID, days[n], respond);
      forall i, j | 0 <= i < j < |all| ensures all[i].date != all[j].date {
        if j >= |earlier| {
          assert all[j].date == days[n];
          assert all[i] == earlier[i];
          var k :| 0 <= k < n && earlier[i].date == days[..n][k]
                   && R.Fetch(R.Steps, respond(days[..n][k])) == R.Payload(StepsResponse(earlier[i].total));
          assert days[..n][k] == days[k];
        } else {
          assert all[i] == earlier[i] && all[j] == earlier[j];
        }
      }
    }
  }

  // ------------------------------------------------------------ the script

  /** The whole script for its fixed user: glucose, then steps, then heart
      rate, each range ending at the clock reading taken just before it. */
  method FetchData(glucoseNow: Instant, stepsNow: Instant, heartRateNow: Instant,
                   glucoseRespond: Instant -> R.HttpOutcome<GlucoseResponse>,
                   stepsRespond: Instant -> R.HttpOutcome<StepsResponse>,
                   heartRateRespond: Instant -> R.HttpOutcome<HeartRateResponse>,
                   parse: Parser,
                   glucoseFaults: Instant -> Upsert.TxFault, stepsFault: Upsert.TxFault,
                   heartRateFaults: Instant -> Upsert.TxFault,
                   glucose: G.BloodGlucoseTable, steps: St.StepsTable, heartRate: H.HeartRateTable)
    returns (glucoseReports: seq<DayReport<G.BloodGlucoseReading>>,
             stepsReports: seq<DayReport<St.StepTotal>>, stepsErr: Option<string>,
             heartRateReports: seq<DayReport<H.HeartRateReading>>)
    modifies glucose, steps, heartRate
    ensures |glucoseReports| == GlucoseLookback + 1
    ensures forall k :: 0 <= k < |glucoseReports| ==>
              glucoseReports[k] == GlucoseDay(ScriptUserID, Window(glucoseNow, GlucoseLookback)[k],
                                              glucoseRespond, parse, glucoseFaults)
    ensures glucose.rows == ReplayGlucose(old(glucose.rows), glucoseReports)
    ensures |stepsReports| == StepsLookback + 1
    ensures forall k :: 0 <= k < |stepsReports| ==>
              stepsReports[k] == StepsDay(ScriptUserID, Window(stepsNow, StepsLookback)[k], stepsRespond)
    ensures stepsErr == Upsert.BatchError(stepsFault, |CollectedRecords(stepsReports)|)
    ensures steps.rows == if stepsErr == None then St.ApplyBatch(old(steps.rows), CollectedRecords(stepsReports))
                          else old(steps.rows)
    ensures |heartRateReports| == HeartRateLookback + 1
    ensures forall k :: 0 <= k < |heartRateReports| ==>
              HeartRateDay(heartRateReports[k], ScriptUserID, Window(heartRateNow, HeartRateLookback)[k],
                           heartRateRespond, parse, heartRateFaults)
    ensures heartRate.rows == ReplayHeartRate(old(heartRate.rows), heartRateReports)
  {
    glucoseReports := IngestGlucose(ScriptUserID, glucoseNow, glucoseRespond, parse, glucoseFaults, glucose);
    stepsReports, stepsErr := IngestSteps(ScriptUserID, stepsNow, stepsRespond, stepsFault, steps);
    heartRateReports := IngestHeartRate(ScriptUserID, heartRateNow, heartRateRespond, parse, heartRateFaults, heartRate);
  }
}
