/** The sample normalisers of the ingestion script (scripts/fetch_data.go):
    one day's decoded payload becomes the readings that are upserted.
    time.Parse(time.RFC3339Nano, ·) is the oracle `parse` at RFC3339Nano. */
module Normalize {
  import opened Wrappers
  import opened Time
  import opened Models
  import G = BloodGlucoseStore
  import H = HeartRateStore

  /** The instant a sample's datetime_string parses to, if it parses. */
  function SampleTime<V>(parse: Parser, s: Sample<V>): (time: Option<Instant>)
  {
    parse(RFC3339Nano, s.dateTime)
  }

  // ---------------------------------------------------------------- glucose

  /** The samples of all events, in the order the script visits them. */
  function GlucoseSamples(events: seq<GlucoseEvent>): (samples: seq<GlucoseSample>)
    decreases |events|
  {
    if events == [] then []
    else GlucoseSamples(events[..|events| - 1]) + events[|events| - 1].samples
  }

  /** One reading, MgDL present, per sample whose timestamp parses, in
      sample order; the other samples are dropped. */
  function GlucoseReadings(userID: string, samples: seq<GlucoseSample>, parse: Parser): (readings: seq<G.BloodGlucoseReading>)
    decreases |samples|
  {
    if samples == [] then []
    else
      var n := |samples| - 1;
      var earlier := GlucoseReadings(userID, samples[..n], parse);
      match SampleTime(parse, samples[n])
      case None => earlier
      case Some(t) => earlier + [G.BloodGlucoseReading(userID, t, Some(samples[n].value))]
  }

  /** The glucose day: walk every sample of every event, appending a reading
      for each one whose timestamp parses. */
  method NormalizeGlucose(userID: string, resp: GlucoseResponse, parse: Parser)
    returns (readings: seq<G.BloodGlucoseReading>)
    ensures readings == GlucoseReadings(userID, GlucoseSamples(resp.bloodGlucoseEvents), parse)
  {
    var events := resp.bloodGlucoseEvents;
    readings := [];
    var e := 0;
    while e < |events|
      invariant 0 <= e <= |events|
      invariant readings == GlucoseReadings(userID, GlucoseSamples(events[..e]), parse)
    {
      var samples := events[e].samples;
      ghost var before := GlucoseSamples(events[..e]);
      var i := 0;
      assert before + samples[..0] == before;
      while i < |samples|
        invariant 0 <= i <= |samples|
        invariant readings == GlucoseReadings(userID, before + samples[..i], parse)
      {
        var s := samples[i];
        ghost var done := before + samples[..i];
        assert (done + [s])[..|done|] == done;
        assert before + samples[..i + 1] == done + [s];
        match parse(RFC3339Nano, s.dateTime) {
          case None =>
          case Some(t) =>
            readings := readings + [G.BloodGlucoseReading(userID, t, Some(s.value))];
        }
        i := i + 1;
      }
      assert events[..e + 1][..e] == events[..e];
      assert samples[..i] == samples;
      e := e + 1;
    }
    assert events[..e] == events;
  }

  /** Every glucose reading comes from a sample of the day that parses to its
      time, carries that sample's value as a present MgDL, and belongs to the
      user; there are never more readings than samples. */
  lemma {:induction false} GlucoseReadingsSound(userID: string, samples: seq<GlucoseSample>, parse: Parser)
    ensures |GlucoseReadings(userID, samples, parse)| <= |samples|
    ensures forall j :: 0 <= j < |GlucoseReadings(userID, samples, parse)| ==>
      var r := GlucoseReadings(userID, samples, parse)[j];
      r.userID == userID && r.mgDl.Some? &&
      exists k :: 0 <= k < |samples| && SampleTime(parse, samples[k]) == Some(r.sampleTime)
                                      && r.mgDl == Some(samples[k].value)
    decreases |samples|
  {
    if samples != [] {
      var n := |samples| - 1;
      GlucoseReadingsSound(userID, samples[..n], parse);
      var rs := GlucoseReadings(userID, samples, parse);
      var earlier := GlucoseReadings(userID, samples[..n], parse);
      forall j | 0 <= j < |rs|
        ensures rs[j].userID == userID && rs[j].mgDl.Some?
        ensures exists k :: 0 <= k < |samples| && SampleTime(parse, samples[k]) == Some(rs[j].sampleTime)
                                               && rs[j].mgDl == Some(samples[k].value)
      {
        if j < |earlier| {
          assert rs[j] == earlier[j];
          var k :| 0 <= k < n && SampleTime(parse, samples[..n][k]) == Some(earlier[j].sampleTime)
                               && earlier[j].mgDl == Some(samples[..n][k].value);
          assert samples[..n][k] == samples[k];
        } else {
          assert SampleTime(parse, samples[n]) == Some(rs[j].sampleTime);
        }
      }
    }
  }

  /** Every sample whose timestamp parses yields a reading with its time and
      value. */
  lemma {:induction false} GlucoseReadingsComplete(userID: string, samples: seq<GlucoseSample>, parse: Parser, k: nat)
    requires k < |samples| && SampleTime(parse, samples[k]).Some?
    ensures G.BloodGlucoseReading(userID, SampleTime(parse, samples[k]).value, Some(samples[k].value))
            in GlucoseReadings(userID, samples, parse)
    decreases |samples|
  {
    var n := |samples| - 1;
    if k < n {
      assert samples[..n][k] == samples[k];
      GlucoseReadingsComplete(userID, samples[..n], parse, k);
    }
  }

  /** When every timestamp parses, reading k is exactly sample k: the count
      is kept and samples sharing a timestamp are not merged. */
  lemma {:induction false} GlucoseReadingsOnePerSample(userID: string, samples: seq<GlucoseSample>, parse: Parser)
    requires forall k :: 0 <= k < |samples| ==> SampleTime(parse, samples[k]).Some?
    ensures |GlucoseReadings(userID, samples, parse)| == |samples|
    ensures forall k :: 0 <= k < |samples| ==>
      GlucoseReadings(userID, samples, parse)[k]
      == G.BloodGlucoseReading(userID, SampleTime(parse, samples[k]).value, Some(samples[k].value))
    decreases |samples|
  {
    if samples != [] {
      var n := |samples| - 1;
      forall k | 0 <= k < n ensures SampleTime(parse, samples[..n][k]).Some? {
        assert samples[..n][k] == samples[k];
      }
      GlucoseReadingsOnePerSample(userID, samples[..n], parse);
    }
  }

  // ------------------------------------------------------------- heart rate

  /** The BPM samples of all events, in the order the script visits them. */
  function BpmSamples(events: seq<HeartRateEvent>): (samples: seq<HeartRateSample>)
    decreases |events|
  {
    if events == [] then []
    else BpmSamples(events[..|events| - 1]) + events[|events| - 1].heartRate.bpmSamples
  }

  /** The RMSSD samples of all events, in the order the script visits them. */
  function RmssdSamples(events: seq<HeartRateEvent>): (samples: seq<HrvRmssdSample>)
    decreases |events|
  {
    if events == [] then []
    else RmssdSamples(events[..|events| - 1]) + events[|events| - 1].heartRate.hrvRmssdSamples
  }

  /** The SDNN samples of all events, in the order the script visits them. */
  function SdnnSamples(events: seq<HeartRateEvent>): (samples: seq<HrvSdnnSample>)
    decreases |events|
  {
    if events == [] then []
    else SdnnSamples(events[..|events| - 1]) + events[|events| - 1].heartRate.hrvSdnnSamples
  }

  /** The instants at which some sample of the stream parses. */
  function StampsIn<V>(samples: seq<Sample<V>>, parse: Parser): (stamps: set<Instant>)
    decreases |samples|
  {
    if samples == [] then {}
    else
      var n := |samples| - 1;
      StampsIn(samples[..n], parse) + match SampleTime(parse, samples[n]) case Some(t) => {t} case None => {}
  }

  /** The value of the last sample of the stream whose timestamp parses to t. */
  function LastAt<V>(samples: seq<Sample<V>>, parse: Parser, t: Instant): (value: Option<V>)
    decreases |samples|
  {
    if samples == [] then None
    else
      var n := |samples| - 1;
      if SampleTime(parse, samples[n]) == Some(t) then Some(samples[n].value)
      else LastAt(samples[..n], parse, t)
  }

  /** Every distinct parsed timestamp of the day, across the three streams. */
  function Stamps(events: seq<HeartRateEvent>, parse: Parser): (stamps: set<Instant>)
  {
    StampsIn(BpmSamples(events), parse) + StampsIn(RmssdSamples(events), parse)
      + StampsIn(SdnnSamples(events), parse)
  }

  /** The reading the day should yield at t: each field is the last sample of
      its own kind at t, and absent when that kind has no sample at t. */
  function Merged(userID: string, events: seq<HeartRateEvent>, parse: Parser, t: Instant): (reading: H.HeartRateReading)
  {
    H.HeartRateReading(userID, t,
      LastAt(BpmSamples(events), parse, t),
      LastAt(RmssdSamples(events), parse, t),
      LastAt(SdnnSamples(events), parse, t))
  }

  /** `readings` is the day's merge: one reading per distinct parsed
      timestamp, in any order, each equal to `Merged` at its time. */
  ghost predicate IsMerge(readings: seq<H.HeartRateReading>, userID: string, events: seq<HeartRateEvent>, parse: Parser)
  {
    (forall i, j :: 0 <= i < j < |readings| ==> readings[i].sampleTime != readings[j].sampleTime)
    && (forall i :: 0 <= i < |readings| ==>
          readings[i].sampleTime in Stamps(events, parse)
          && readings[i] == Merged(userID, events, parse, readings[i].sampleTime))
    && (forall t :: t in Stamps(events, parse) ==>
          exists i :: 0 <= i < |readings| && readings[i].sampleTime == t)
  }

  /** The merge map after the streams `bpm`, `rmssd` and `sdnn` have been
      (partly) walked. */
  ghost predicate Matches(m: map<Instant, H.HeartRateReading>, userID: string,
                          bpm: seq<HeartRateSample>, rmssd: seq<HrvRmssdSample>, sdnn: seq<HrvSdnnSample>,
                          parse: Parser)
  {
    m.Keys == StampsIn(bpm, parse) + StampsIn(rmssd, parse) + StampsIn(sdnn, parse)
    && forall t :: t in m ==>
         m[t] == H.HeartRateReading(userID, t, LastAt(bpm, parse, t), LastAt(rmssd, parse, t), LastAt(sdnn, parse, t))
  }

  /** The `record` closure: the reading already kept for ts, or a new one
      with every field absent, entered into the map. */
  function Record(m: map<Instant, H.HeartRateReading>, userID: string, ts: Instant)
    : (res: (map<Instant, H.HeartRateReading>, H.HeartRateReading))
    ensures ts in res.0 && res.0[ts] == res.1
    ensures ts in m ==> res.0 == m
    ensures ts !in m ==> res.0 == m[ts := res.1] && res.1.userID == userID && res.1.sampleTime == ts
                         && res.1.bpm.None? && res.1.hrvRmssd.None? && res.1.hrvSdnn.None?
  {
    if ts in m then (m, m[ts])
    else
      var r := H.HeartRateReading(userID, ts, None, None, None);
      (m[ts := r], r)
  }

  /** The heart-rate day: the merge, then the copy of the map's values into
      a slice in the map's (unspecified) order. */
  method NormalizeHeartRate(userID: string, resp: HeartRateResponse, parse: Parser)
    returns (readings: seq<H.HeartRateReading>)
    ensures IsMerge(readings, userID, resp.heartRateEvents, parse)
  {
    var m := MergeHeartRate(userID, resp.heartRateEvents, parse);
    readings := [];
    var todo := m.Keys;
    while todo != {}
      invariant todo <= m.Keys
      invariant forall i, j :: 0 <= i < j < |readings| ==> readings[i].sampleTime != readings[j].sampleTime
      invariant forall i :: 0 <= i < |readings| ==>
                  readings[i].sampleTime in m.Keys - todo && readings[i] == m[readings[i].sampleTime]
      invariant forall t :: t in m.Keys - todo ==> exists i :: 0 <= i < |readings| && readings[i].sampleTime == t
      decreases todo
    {
      var t :| t in todo;
      assert m[t].sampleTime == t;
      ghost var prev, prevTodo := readings, todo;
      readings := readings + [m[t]];
      todo := todo - {t};
      forall t' | t' in m.Keys - todo
        ensures exists i :: 0 <= i < |readings| && readings[i].sampleTime == t'
      {
        if t' == t {
          assert readings[|prev|].sampleTime == t';
        } else {
          assert t' in m.Keys - prevTodo;
          var i :| 0 <= i < |prev| && prev[i].sampleTime == t';
          assert readings[i] == prev[i];
        }
      }
    }
    assert m.Keys - todo == m.Keys;
  }

  /** The readingsMap loop: after it, the map holds one reading per distinct
      parsed timestamp of the day, equal to `Merged` at that time. */
  method MergeHeartRate(userID: string, events: seq<HeartRateEvent>, parse: Parser)
    returns (m: map<Instant, H.HeartRateReading>)
    ensures m.Keys == Stamps(events, parse)
    ensures forall t :: t in m ==> m[t] == Merged(userID, events, parse, t)
  {
    m := map[];
    var e := 0;
    while e < |events|
      invariant 0 <= e <= |events|
      invariant Matches(m, userID, BpmSamples(events[..e]), RmssdSamples(events[..e]), SdnnSamples(events[..e]), parse)
    {
      var hr := events[e].heartRate;
      ghost var B, R, S := BpmSamples(events[..e]), RmssdSamples(events[..e]), SdnnSamples(events[..e]);
      m := RecordBpm(m, userID, hr.bpmSamples, parse, B, R, S);
      m := RecordRmssd(m, userID, hr.hrvRmssdSamples, parse, B + hr.bpmSamples, R, S);
      m := RecordSdnn(m, userID, hr.hrvSdnnSamples, parse, B + hr.bpmSamples, R + hr.hrvRmssdSamples, S);
      assert events[..e + 1][..e] == events[..e];
      e := e + 1;
    }
    assert events[..e] == events;
  }

  /** One event's BPM loop: each sample that parses sets the BPM of the
      reading recorded for its timestamp. `B`, `R`, `S` are the samples of
      each kind already walked. */
  method RecordBpm(m0: map<Instant, H.HeartRateReading>, userID: string, samples: seq<HeartRateSample>, parse: Parser,
                   ghost B: seq<HeartRateSample>, ghost R: seq<HrvRmssdSample>, ghost S: seq<HrvSdnnSample>)
    returns (m: map<Instant, H.HeartRateReading>)
    requires Matches(m0, userID, B, R, S, parse)
    ensures Matches(m, userID, B + samples, R, S, parse)
  {
    m := m0;
    var i := 0;
    assert B + samples[..0] == B;
    while i < |samples|
      invariant 0 <= i <= |samples|
      invariant Matches(m, userID, B + samples[..i], R, S, parse)
    {
      var s := samples[i];
      assert B + samples[..i + 1] == (B + samples[..i]) + [s];
      match parse(RFC3339Nano, s.dateTime) {
        case None =>
          BpmStepSkip(m, userID, B + samples[..i], R, S, s, parse);
        case Some(ts) =>
          BpmStep(m, userID, B + samples[..i], R, S, s, parse, ts);
          var r;
          m, r := Record(m, userID, ts).0, Record(m, userID, ts).1;
          m := m[ts := r.(bpm := Some(s.value))];
      }
      i := i + 1;
    }
    assert samples[..i] == samples;
  }

  /** One event's RMSSD loop: each sample that parses sets the RMSSD of the
      reading recorded for its timestamp. */
  method RecordRmssd(m0: map<Instant, H.HeartRateReading>, userID: string, samples: seq<HrvRmssdSample>, parse: Parser,
                     ghost B: seq<HeartRateSample>, ghost R: seq<HrvRmssdSample>, ghost S: seq<HrvSdnnSample>)
    returns (m: map<Instant, H.HeartRateReading>)
    requires Matches(m0, userID, B, R, S, parse)
    ensures Matches(m, userID, B, R + samples, S, parse)
  {
    m := m0;
    var i := 0;
    assert R + samples[..0] == R;
    while i < |samples|
      invariant 0 <= i <= |samples|
      invariant Matches(m, userID, B, R + samples[..i], S, parse)
    {
      var s := samples[i];
      assert R + samples[..i + 1] == (R + samples[..i]) + [s];
      match parse(RFC3339Nano, s.dateTime) {
        case None =>
          RmssdStepSkip(m, userID, B, R + samples[..i], S, s, parse);
        case Some(ts) =>
          RmssdStep(m, userID, B, R + samples[..i], S, s, parse, ts);
          var r;
          m, r := Record(m, userID, ts).0, Record(m, userID, ts).1;
          m := m[ts := r.(hrvRmssd := Some(s.value))];
      }
      i := i + 1;
    }
    assert samples[..i] == samples;
  }

  /** One event's SDNN loop: each sample that parses sets the SDNN of the
      reading recorded for its timestamp. */
  method RecordSdnn(m0: map<Instant, H.HeartRateReading>, userID: string, samples: seq<HrvSdnnSample>, parse: Parser,
                    ghost B: seq<HeartRateSample>, ghost R: seq<HrvRmssdSample>, ghost S: seq<HrvSdnnSample>)
    returns (m: map<Instant, H.HeartRateReading>)
    requires Matches(m0, userID, B, R, S, parse)
    ensures Matches(m, userID, B, R, S + samples, parse)
  {
    m := m0;
    var i := 0;
    assert S + samples[..0] == S;
    while i < |samples|
      invariant 0 <= i <= |samples|
      invariant Matches(m, userID, B, R, S + samples[..i], parse)
    {
      var s := samples[i];
      assert S + samples[..i + 1] == (S + samples[..i]) + [s];
      match parse(RFC3339Nano, s.dateTime) {
        case None =>
          SdnnStepSkip(m, userID, B, R, S + samples[..i], s, parse);
        case Some(ts) =>
          SdnnStep(m, userID, B, R, S + samples[..i], s, parse, ts);
          var r;
          m, r := Record(m, userID, ts).0, Record(m, userID, ts).1;
          m := m[ts := r.(hrvSdnn := Some(s.value))];
      }
      i := i + 1;
    }
    assert samples[..i] == samples;
  }

  // Each sample changes the merge map exactly as appending it to its own
  // stream changes the expected readings.

  lemma BpmStep(m: map<Instant, H.HeartRateReading>, userID: string,
                B: seq<HeartRateSample>, R: seq<HrvRmssdSample>, S: seq<HrvSdnnSample>,
                s: HeartRateSample, parse: Parser, ts: Instant)
    requires Matches(m, userID, B, R, S, parse)
    requires SampleTime(parse, s) == Some(ts)
    ensures Matches(Record(m, userID, ts).0[ts := Record(m, userID, ts).1.(bpm := Some(s.value))],
                    userID, B + [s], R, S, parse)
  {
    AppendOne(B, s, parse);
    if ts !in m {
      LastAtStamp(R, parse, ts);
      LastAtStamp(S, parse, ts);
    }
  }

  lemma BpmStepSkip(m: map<Instant, H.HeartRateReading>, userID: string,
                    B: seq<HeartRateSample>, R: seq<HrvRmssdSample>, S: seq<HrvSdnnSample>,
                    s: HeartRateSample, parse: Parser)
    requires Matches(m, userID, B, R, S, parse)
    requires SampleTime(parse, s) == None
    ensures Matches(m, userID, B + [s], R, S, parse)
  {
    AppendOne(B, s, parse);
  }

  lemma RmssdStep(m: map<Instant, H.HeartRateReading>, userID: string,
                  B: seq<HeartRateSample>, R: seq<HrvRmssdSample>, S: seq<HrvSdnnSample>,
                  s: HrvRmssdSample, parse: Parser, ts: Instant)
    requires Matches(m, userID, B, R, S, parse)
    requires SampleTime(parse, s) == Some(ts)
    ensures Matches(Record(m, userID, ts).0[ts := Record(m, userID, ts).1.(hrvRmssd := Some(s.value))],
                    userID, B, R + [s], S, parse)
  {
    AppendOne(R, s, parse);
    if ts !in m {
      LastAtStamp(B, parse, ts);
      LastAtStamp(S, parse, ts);
    }
  }

  lemma RmssdStepSkip(m: map<Instant, H.HeartRateReading>, userID: string,
                      B: seq<HeartRateSample>, R: seq<HrvRmssdSample>, S: seq<HrvSdnnSample>,
                      s: HrvRmssdSample, parse: Parser)
    requires Matches(m, userID, B, R, S, parse)
    requires SampleTime(parse, s) == None
    ensures Matches(m, userID, B, R + [s], S, parse)
  {
    AppendOne(R, s, parse);
  }

  lemma SdnnStep(m: map<Instant, H.HeartRateReading>, userID: string,
                 B: seq<HeartRateSample>, R: seq<HrvRmssdSample>, S: seq<HrvSdnnSample>,
                 s: HrvSdnnSample, parse: Parser, ts: Instant)
    requires Matches(m, userID, B, R, S, parse)
    requires SampleTime(parse, s) == Some(ts)
    ensures Matches(Record(m, userID, ts).0[ts := Record(m, userID, ts).1.(hrvSdnn := Some(s.value))],
                    userID, B, R, S + [s], parse)
  {
    AppendOne(S, s, parse);
    if ts !in m {
      LastAtStamp(B, parse, ts);
      LastAtStamp(R, parse, ts);
    }
  }

  lemma SdnnStepSkip(m: map<Instant, H.HeartRateReading>, userID: string,
                     B: seq<HeartRateSample>, R: seq<HrvRmssdSample>, S: seq<HrvSdnnSample>,
                     s: HrvSdnnSample, parse: Parser)
    requires Matches(m, userID, B, R, S, parse)
    requires SampleTime(parse, s) == None
    ensures Matches(m, userID, B, R, S + [s], parse)
  {
    AppendOne(S, s, parse);
  }

  /** Appending one sample to a stream. */
  lemma AppendOne<V>(samples: seq<Sample<V>>, s: Sample<V>, parse: Parser)
    ensures StampsIn(samples + [s], parse)
            == StampsIn(samples, parse) + match SampleTime(parse, s) case Some(t) => {t} case None => {}
    ensures forall t :: LastAt(samples + [s], parse, t)
                        == (if SampleTime(parse, s) == Some(t) then Some(s.value) else LastAt(samples, parse, t))
  {
    assert (samples + [s])[..|samples|] == samples;
  }

  /** A stream has a last value at t exactly when some sample parses to t. */
  lemma {:induction false} LastAtStamp<V>(samples: seq<Sample<V>>, parse: Parser, t: Instant)
    ensures LastAt(samples, parse, t).Some? <==> t in StampsIn(samples, parse)
    decreases |samples|
  {
    if samples != [] {
      LastAtStamp(samples[..|samples| - 1], parse, t);
    }
  }

  /** A stream's parsed instants are exactly the instants its samples parse to. */
  lemma {:induction false} StampsInSpec<V>(samples: seq<Sample<V>>, parse: Parser, t: Instant)
    ensures t in StampsIn(samples, parse)
            <==> exists k :: 0 <= k < |samples| && SampleTime(parse, samples[k]) == Some(t)
    decreases |samples|
  {
    if samples != [] {
      var n := |samples| - 1;
      StampsInSpec(samples[..n], parse, t);
      if exists k :: 0 <= k < n && SampleTime(parse, samples[..n][k]) == Some(t) {
        var k :| 0 <= k < n && SampleTime(parse, samples[..n][k]) == Some(t);
        assert samples[..n][k] == samples[k];
      }
      if k :| 0 <= k < |samples| && SampleTime(parse, samples[k]) == Some(t) {
        if k < n {
          assert samples[..n][k] == samples[k];
        }
      }
    }
  }

  /** When two samples of one kind share a timestamp, the later one decides
      the value: the last sample at t gives the stream's value at t. */
  lemma {:induction false} LastSampleWins<V>(samples: seq<Sample<V>>, parse: Parser, k: nat)
    requires k < |samples| && SampleTime(parse, samples[k]).Some?
    requires forall j :: k < j < |samples| ==> SampleTime(parse, samples[j]) != SampleTime(parse, samples[k])
    ensures LastAt(samples, parse, SampleTime(parse, samples[k]).value) == Some(samples[k].value)
    decreases |samples|
  {
    var n := |samples| - 1;
    if k < n {
      forall j | k < j < n
        ensures SampleTime(parse, samples[..n][j]) != SampleTime(parse, samples[..n][k])
      {
        assert samples[..n][j] == samples[j];
      }
      assert samples[..n][k] == samples[k];
      LastSampleWins(samples[..n], parse, k);
    }
  }

  /** Some sample of the stream has a timestamp that parses to t. */
  ghost predicate HasSampleAt<V>(samples: seq<Sample<V>>, parse: Parser, t: Instant)
  {
    exists k :: 0 <= k < |samples| && SampleTime(parse, samples[k]) == Some(t)
  }

  /** A merged reading's field is present exactly when a sample of that kind
      parses to the reading's time; a field with no sample stays absent
      (never a zero value). */
  lemma MergedFieldPresence(userID: string, events: seq<HeartRateEvent>, parse: Parser, t: Instant)
    ensures Merged(userID, events, parse, t).bpm.Some? <==> HasSampleAt(BpmSamples(events), parse, t)
    ensures Merged(userID, events, parse, t).hrvRmssd.Some? <==> HasSampleAt(RmssdSamples(events), parse, t)
    ensures Merged(userID, events, parse, t).hrvSdnn.Some? <==> HasSampleAt(SdnnSamples(events), parse, t)
  {
    LastAtPresence(BpmSamples(events), parse, t);
    LastAtPresence(RmssdSamples(events), parse, t);
    LastAtPresence(SdnnSamples(events), parse, t);
  }

  lemma LastAtPresence<V>(samples: seq<Sample<V>>, parse: Parser, t: Instant)
    ensures LastAt(samples, parse, t).Some? <==> HasSampleAt(samples, parse, t)
  {
    LastAtStamp(samples, parse, t);
    StampsInSpec(samples, parse, t);
  }

  /** The day's merge holds exactly one reading per distinct parsed
      timestamp of the three streams. */
  lemma MergeCount(readings: seq<H.HeartRateReading>, userID: string, events: seq<HeartRateEvent>, parse: Parser)
    requires IsMerge(readings, userID, events, parse)
    ensures |readings| == |Stamps(events, parse)|
  {
    DistinctTimes(readings);
    var times := TimesOf(readings);
    forall t | t in Stamps(events, parse) ensures t in times {
      var i :| 0 <= i < |readings| && readings[i].sampleTime == t;
      TimesOfSpec(readings, i);
    }
    forall t | t in times ensures t in Stamps(events, parse) {
      TimesOfMember(readings, t);
    }
    assert times == Stamps(events, parse);
  }

  /** The sample times of a sequence of readings. */
  function TimesOf(readings: seq<H.HeartRateReading>): (times: set<Instant>)
    decreases |readings|
  {
    if readings == [] then {}
    else TimesOf(readings[..|readings| - 1]) + {readings[|readings| - 1].sampleTime}
  }

  lemma {:induction false} TimesOfSpec(readings: seq<H.HeartRateReading>, i: nat)
    requires i < |readings|
    ensures readings[i].sampleTime in TimesOf(readings)
    decreases |readings|
  {
    var n := |readings| - 1;
    if i < n {
      assert readings[..n][i] == readings[i];
      TimesOfSpec(readings[..n], i);
    }
  }

  lemma {:induction false} TimesOfMember(readings: seq<H.HeartRateReading>, t: Instant)
    requires t in TimesOf(readings)
    ensures exists i :: 0 <= i < |readings| && readings[i].sampleTime == t
    decreases |readings|
  {
    var n := |readings| - 1;
    if t != readings[n].sampleTime {
      TimesOfMember(readings[..n], t);
      var i :| 0 <= i < n && readings[..n][i].sampleTime == t;
      assert readings[i] == readings[..n][i];
    }
  }

  lemma {:induction false} TimesOfOnly(readings: seq<H.HeartRateReading>, t: Instant)
    requires forall i :: 0 <= i < |readings| ==> readings[i].sampleTime != t
    ensures t !in TimesOf(readings)
    decreases |readings|
  {
    if readings != [] {
      var n := |readings| - 1;
      forall i | 0 <= i < n ensures readings[..n][i].sampleTime != t {
        assert readings[..n][i] == readings[i];
      }
      TimesOfOnly(readings[..n], t);
    }
  }

  lemma {:induction false} DistinctTimes(readings: seq<H.HeartRateReading>)
    requires forall i, j :: 0 <= i < j < |readings| ==> readings[i].sampleTime != readings[j].sampleTime
    ensures |TimesOf(readings)| == |readings|
    decreases |readings|
  {
    if readings != [] {
      var n := |readings| - 1;
      var prefix := readings[..n];
      DistinctTimes(prefix);
      forall i | 0 <= i < n ensures prefix[i].sampleTime != readings[n].sampleTime {
        assert prefix[i] == readings[i];
      }
      TimesOfOnly(prefix, readings[n].sampleTime);
    }
  }

  /** BPM samples at T1 and T2 and RMSSD samples at T2 and T3 merge into
      exactly three readings: T1 with BPM only, T2 with BPM and RMSSD, T3
      with RMSSD only. */
  lemma MergeExample(userID: string, parse: Parser, t1: Instant, t2: Instant, t3: Instant,
                     bpm1: int, bpm2: int, rmssd2: F64, rmssd3: F64)
    requires t1 != t2 && t2 != t3 && t1 != t3
    requires parse(RFC3339Nano, "T1") == Some(t1)
    requires parse(RFC3339Nano, "T2") == Some(t2)
    requires parse(RFC3339Nano, "T3") == Some(t3)
    ensures var events := [HeartRateEvent(HeartRateData(
                             [Sample("T1", bpm1), Sample("T2", bpm2)],
                             [Sample("T2", rmssd2), Sample("T3", rmssd3)],
                             []))];
            Stamps(events, parse) == {t1, t2, t3}
            && Merged(userID, events, parse, t1) == H.HeartRateReading(userID, t1, Some(bpm1), None, None)
            && Merged(userID, events, parse, t2) == H.HeartRateReading(userID, t2, Some(bpm2), Some(rmssd2), None)
            && Merged(userID, events, parse, t3) == H.HeartRateReading(userID, t3, None, Some(rmssd3), None)
  {
    var events := [HeartRateEvent(HeartRateData(
                    [Sample("T1", bpm1), Sample("T2", bpm2)],
                    [Sample("T2", rmssd2), Sample("T3", rmssd3)],
                    []))];
    var bpm := [Sample("T1", bpm1), Sample("T2", bpm2)];
    var rmssd := [Sample("T2", rmssd2), Sample("T3", rmssd3)];
    assert events[..0] == [];
    assert BpmSamples(events) == bpm;
    assert RmssdSamples(events) == rmssd;
    assert SdnnSamples(events) == [];
    assert bpm[..1] == [Sample("T1", bpm1)] && bpm[..1][..0] == [];
    assert rmssd[..1] == [Sample("T2", rmssd2)] && rmssd[..1][..0] == [];
    assert SampleTime(parse, bpm[0]) == Some(t1) && SampleTime(parse, bpm[1]) == Some(t2);
    assert SampleTime(parse, rmssd[0]) == Some(t2) && SampleTime(parse, rmssd[1]) == Some(t3);
    assert StampsIn(bpm[..1], parse) == {t1};
    assert StampsIn(bpm, parse) == {t1, t2};
    assert StampsIn(rmssd[..1], parse) == {t2};
    assert StampsIn(rmssd, parse) == {t2, t3};
    assert LastAt(bpm, parse, t1) == Some(bpm1);
    assert LastAt(bpm, parse, t2) == Some(bpm2);
    assert LastAt(bpm[..1], parse, t3) == None;
    assert LastAt(bpm, parse, t3) == None;
    assert LastAt(rmssd[..1], parse, t1) == None;
    assert LastAt(rmssd, parse, t1) == None;
    assert LastAt(rmssd, parse, t2) == Some(rmssd2);
    assert LastAt(rmssd, parse, t3) == Some(rmssd3);
  }
}
