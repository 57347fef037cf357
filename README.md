# rookie — ingestion, normalisation and upsert, modelled in Dafny

rookie pulls personal-health metrics from the Rook provider's per-day REST
endpoints: daily step totals, blood-glucose samples, and heart-rate samples
made of BPM, HRV-RMSSD and HRV-SDNN. It normalises each day's JSON payload
into per-timestamp readings and upserts them into a local SQLite store keyed
by (user, timestamp). Steps are keyed by (user, calendar date). A small HTTP
server reads the series back over a date range.

This project models the core of that pipeline:

- `time.dfy` (`Time`) holds instants and `AddDate`/`After`/`Format`. `time.Parse` is a partial oracle.
- `models.dfy` (`Models`) holds the payload fields the pipeline reads.
- `upsert.dfy` (`Upsert`) gives what all three stores share: a table is a
  map from the conflict key to the value columns. A batch is the upsert
  statement run once per row inside one transaction, and the possible
  database failures (begin, prepare, exec of row *i*, commit) are a fault
  input.
- `heart_rate.dfy`, `blood_glucose.dfy` and `steps.dfy` (`HeartRateStore`,
  `BloodGlucoseStore`, `StepsStore`) hold one class per table. Its `rows`
  map is updated row by row and restored on rollback.
- `fetch.dfy` (`Rook`) covers the request each family sends and the
  classification of a response into no data, error or payload.
- `normalize.dfy` (`Normalize`) turns a glucose payload into readings, and
  performs the heart-rate merge. The merge joins three independently
  timestamped streams into one reading per distinct timestamp, through a
  get-or-create map.
- `ingest.dfy` (`Ingest`) holds the three day loops of the ingestion script.
  Glucose and heart rate are flushed per day. Steps are collected and
  flushed once at the end of the range.
- `api.dfy` (`Api`) covers `parseDate`, `resolveRange`, the `user_id` check
  and the default windows of the read endpoints.
- `sid.dfy` (`ShortId`) is the short random identifier encoder.

The batching policy is hardcoded per family: glucose and heart rate flush
per day, steps once at the end of the range. The model has one driver method
per family.

## Model

| member | source | states |
|---|---|---|
| Upsert.BatchError | db/heart_rate.go:37-68 | An empty batch returns no error. Otherwise the call fails exactly when a begin, prepare or commit fault occurs, or an exec fault falls on a row the batch reaches. |
| Upsert.OtherKeysUnchanged | db/heart_rate.go:17-24 | A key no entry of the batch writes keeps its presence and its row. |
| Upsert.LastWriteWins | db/heart_rate.go:54-65 | The last entry for a key decides that key's whole row. |
| Upsert.Overlay | db/heart_rate.go:17-24 | Running a batch overlays the batch's own last writes on the table. The prior row of a written key contributes nothing. |
| Upsert.Idempotent | db/heart_rate.go:17-24 | Running a batch twice leaves the table that running it once leaves. |
| Upsert.SameEntriesSameTable | db/heart_rate.go:54-65 | With pairwise distinct keys, two batches holding the same entries in any order leave the same table. |
| HeartRateStore.HeartRateTable.UpsertHeartRate | db/heart_rate.go:26-35 | The error is the exec error. On success the reading's key holds exactly its three value columns, absent ones included. |
| HeartRateStore.HeartRateTable.UpsertHeartRateBatch | db/heart_rate.go:37-68 | On success the table is the old table with the readings applied in order. On any begin, prepare, exec or commit failure it is the old table unchanged, and the error is returned. An empty batch succeeds without change. |
| HeartRateStore.BatchStoresLastReading | db/heart_rate.go:17-24 | After a batch, the last reading for a key sets its BPM, RMSSD and SDNN, absent values included. |
| HeartRateStore.NullOverwritesStoredValue | db/heart_rate.go:20-23 | A stored BPM of 60 re-ingested with BPM absent and RMSSD present becomes BPM absent with that RMSSD. |
| HeartRateStore.BatchLeavesOtherKeys | db/heart_rate.go:17-24 | Rows whose key no reading carries are untouched. |
| HeartRateStore.BatchIdempotent | db/heart_rate.go:17-24 | Applying the same batch twice equals applying it once. |
| HeartRateStore.BatchOrderIrrelevant | db/heart_rate.go:54-65 | Two batches of the same readings with distinct sample times give the same table in any order. |
| BloodGlucoseStore.BloodGlucoseTable.UpsertBloodGlucose | db/blood_glucose.go:22-25 | The error is the exec error. On success the key holds the reading's mg/dL, absent included. |
| BloodGlucoseStore.BloodGlucoseTable.UpsertBloodGlucoseBatch | db/blood_glucose.go:27-52 | All or nothing: on success the readings are applied in order; on any failure the table is unchanged and the error is returned. An empty batch is a no-op success. |
| BloodGlucoseStore.BatchStoresLastReading | db/blood_glucose.go:44-49 | The last reading for a key decides its mg/dL, absent included. |
| BloodGlucoseStore.BatchLeavesOtherKeys | db/blood_glucose.go:15-20 | Rows outside the batch are untouched. |
| BloodGlucoseStore.BatchIdempotent | db/blood_glucose.go:15-20 | Applying the same batch twice equals applying it once. |
| StepsStore.StepsTable.UpsertSteps | db/steps.go:21-24 | The error is the exec error. On success the key (user, calendar date of the total) holds the total. |
| StepsStore.StepsTable.UpsertStepsBatch | db/steps.go:26-51 | All or nothing over the totals, keyed by calendar date. An empty batch is a no-op success. |
| StepsStore.BatchStoresLastTotal | db/steps.go:43-48 | The last total for a (user, date) decides `total_steps`. |
| StepsStore.SameDateSameRow | db/steps.go:44 | Two totals of one user on the same calendar day, at different times, share a key, and the later total is stored. |
| StepsStore.BatchLeavesOtherKeys | db/steps.go:14-19 | Rows outside the batch are untouched. |
| StepsStore.BatchIdempotent | db/steps.go:14-19 | Applying the same batch twice equals applying it once. |
| Rook.Fetch | rook/fetch.go:18-42 | A request error is returned as is. Status 204 means no data. Any status other than 200 gives "rook steps/glucose/heart rate: " followed by the status text. A 200 response gives the decode error or the payload. No data and payload each hold exactly in their case. |
| Rook.SetParams | rook/fetch.go:102-106 | Every parameter is set with exactly one value. Keys not given are kept. The key set is the union. |
| Rook.BuildRequest | rook/fetch.go:13-22 | Each family's URL is its fixed base and path (steps `/summary`, glucose `/events/blood_glucose`, heart rate `/events/heart_rate`). The query is exactly `user_id` and `date`, one value each, and the date is the day's YYYY-MM-DD text. |
| Normalize.NormalizeGlucose | scripts/fetch_data.go:41-56 | The readings are those of the parsing samples of all events, in order. |
| Normalize.GlucoseReadingsSound | scripts/fetch_data.go:41-56 | No more readings than samples. Each reading has the user, and the time and mg/dL of some sample that parses to that time. |
| Normalize.GlucoseReadingsComplete | scripts/fetch_data.go:43-54 | Every sample whose timestamp parses yields a reading with that time and its value. |
| Normalize.GlucoseReadingsOnePerSample | scripts/fetch_data.go:41-56 | When all timestamps parse, reading k is sample k. Duplicate timestamps are not merged. |
| Normalize.Record | scripts/fetch_data.go:114-124 | Returns the existing entry when there is one and leaves the map unchanged. Otherwise it adds a new entry with the user, the time and every value absent. |
| Normalize.RecordBpm | scripts/fetch_data.go:127-135 | Each parsing BPM sample sets only the BPM of its timestamp's reading. The map stays the merge of the streams seen so far. |
| Normalize.RecordRmssd | scripts/fetch_data.go:137-145 | Each parsing RMSSD sample sets only the RMSSD of its timestamp's reading. |
| Normalize.RecordSdnn | scripts/fetch_data.go:147-155 | Each parsing SDNN sample sets only the SDNN of its timestamp's reading. |
| Normalize.MergeHeartRate | scripts/fetch_data.go:112-156 | The map's keys are exactly the distinct parsed timestamps of the three streams of all events. Each entry is the merged reading at its key. |
| Normalize.NormalizeHeartRate | scripts/fetch_data.go:112-161 | The readings are the merge in some order: one per distinct parsed timestamp, each the merged reading. |
| Normalize.LastSampleWins | scripts/fetch_data.go:126-156 | When samples of one kind share a timestamp, the last one decides the value. |
| Normalize.MergedFieldPresence | scripts/fetch_data.go:118-154 | A merged field is present exactly when a sample of its kind parses to that time. Otherwise it is absent, never zero. |
| Normalize.MergeCount | scripts/fetch_data.go:158-161 | A merge has exactly as many readings as distinct parsed timestamps. |
| Normalize.MergeExample | scripts/fetch_data.go:126-156 | BPM at T1 and T2 plus RMSSD at T2 and T3 give three readings: {T1: BPM}, {T2: BPM and RMSSD}, {T3: RMSSD}, with absent fields elsewhere. |
| Ingest.WindowShape | scripts/fetch_data.go:27-30 | A range runs from `back` days before its end through the end, one calendar day per step, increasing, never after the end; no day occurs twice. |
| Ingest.IngestGlucose | scripts/fetch_data.go:27-61 | Eight days ending now. Each day's report is its fetch failure, its lack of data, or its readings with the batch error. The table ends with exactly the committed batches applied in day order. |
| Ingest.SkippedDayAddsNothing | scripts/fetch_data.go:31-39 | A day whose fetch failed or had no data changes nothing. The table is what the other days alone give. |
| Ingest.GlucoseRerunIdempotent | scripts/fetch_data.go:58-60 | Replaying the same day reports a second time leaves the table as the first run left it. |
| Ingest.IngestHeartRate | scripts/fetch_data.go:90-166 | Eight days ending now. Each payload day's readings are that day's merge, upserted in one batch. The table ends with the committed batches applied in day order. |
| Ingest.SameMergeSameMembers | scripts/fetch_data.go:158-161 | Two merges of one day hold the same readings, whatever their order. |
| Ingest.ReplayHeartRateSameDays | scripts/fetch_data.go:158-165 | Two runs over the same days and answers commit the same tables, whatever order each day's merge took. |
| Ingest.HeartRateRerunIdempotent | scripts/fetch_data.go:93-165 | A second heart-rate run over the same answers leaves the table the first run left. |
| Ingest.IngestSteps | scripts/fetch_data.go:63-88 | Thirty days ending now. Each payload day contributes one total dated that day. The totals are upserted once, after the loop, all or nothing. |
| Ingest.StepTotalsFromPayloadDays | scripts/fetch_data.go:67-84 | Each collected total belongs to the user, is dated with a day whose fetch returned it, and carries that day's step count. |
| Ingest.StepTotalsOnePerDay | scripts/fetch_data.go:67-84 | Over pairwise distinct days, as a window's are, no two collected totals share a date: at most one total per day. |
| Ingest.FetchData | scripts/fetch_data.go:15-166 | For the fixed user "david1", runs glucose, then steps, then heart rate. Each range ends at its own clock reading, and the final tables are as the three loops state. |
| Api.FirstParseIsFirstSuccess | main.go:225-236 | Parsing succeeds exactly when some layout parses, with the earliest such layout's instant. Otherwise it fails with "bad date". |
| Api.ParseDate | main.go:225-236 | RFC 3339 is tried first, then `2006-01-02`. If neither parses, the result is "bad date". |
| Api.ResolveRange | main.go:238-262 | An unparsable end gives "invalid end" and is checked before the start. An unparsable start gives "invalid start". A missing end is now, and a missing start is the end minus the default days. On success, start is not after end. |
| Api.OrderIsTheLastCheck | main.go:257-261 | When both bounds resolve, the range is rejected exactly when the start is after the end. A start equal to the end is accepted. |
| Api.DefaultRange | main.go:239-248 | With no bounds, the range is the default window ending now. |
| Api.Get | main.go:36 | The first value of a query key, or "" when the key is missing or has no values. |
| Api.CheckQuery | main.go:36-46 | A missing `user_id` gives "user_id required" before the range is looked at. Otherwise the result succeeds exactly when the range resolves, and otherwise carries the range's error. |
| Api.DefaultWindows | main.go:172-181 | A request naming only the user reads the trailing 7 days for glucose and heart rate (main.go lines 42 and 112) and 30 days for steps. |
| ShortId.Sid | utils/sid.go:7-21 | The id has `size` characters. Character i is the lexicon character at the i-th random byte mod 31, so every character is in the lexicon. A size of 0 gives "". A negative size (the panic in `make`) and a random-source failure give no id. |
| ShortId.LexiconShape | utils/sid.go:5 | The lexicon has 31 characters, all between '2' and 'z'. |
| ShortId.LexiconExcludesLookAlikes | utils/sid.go:5 | 0, 1, i, l and o are not in the lexicon. |
| ShortId.LexiconDistinct | utils/sid.go:5 | No lexicon character repeats. |

## Left out

- The network round trip and basic authentication from environment variables (rook/fetch.go:108-114), and closing the response body (rook/fetch.go:26, 52, 78), are left out. Each fetch outcome is an input: a request error, or a status code, status text and decode result.
- `url.Parse` of the constant endpoint URLs (rook/fetch.go:97-100) is taken to succeed. The URLs are fixed literals.
- Rook.BuildRequest: states the query as a key-to-values map. It does not state the percent-encoded text `q.Encode()` produces.
- JSON decoding is given as its result. Of `rook/models.go`, only the fields the pipeline reads are transcribed.
- `db/db.go` (opening SQLite, the schema and the global handle) is not part of this model. Each table is the `rows` map of its class.
- How SQLite stores a `time.Time` is not modelled. Two instants hit the same row exactly when they are equal instants.
- The HTTP server setup, the read endpoints' SQL queries, row scanning and JSON encoding (main.go:13-28, 48-90, 118-169, 185-222) are left out. The `user_id` check, `parseDate` and `resolveRange` are modelled.
- Time zones, location pointers and the monotonic clock are not modelled. An instant is a day number and a time of day. `time.Parse` is an oracle. Each `time.Now()` is a parameter: the script reads the clock three times. The YYYY-MM-DD text of a request is an oracle `iso` on the day number.
- Go compares `time.Time` map keys by location as well as instant. The merge map here is keyed by instants, so two spellings of one instant in different zones are merged.
- Float values (RMSSD, SDNN) are carried as bit patterns. No arithmetic is done on them.
- Go's map iteration order is not modelled. Copying the merge map out picks keys in an unspecified order, and the heart-rate readings are specified as a set (`Normalize.IsMerge`), not a sequence.
- The debug JSON dump, progress printing and every log line are not modelled. Each day instead yields a `DayReport`.
- `godotenv` loading, context cancellation and the error returned by `Rollback` are not modelled.
- In the merge, pointer writes through `record` are map entry updates. Each reading is referenced only by its own map entry, so no aliasing is lost.
- Go `int`/`int64` conversions of JSON integers are the identity. Integers are unbounded.
- The `crypto/rand` source of `Sid` is an input. Both panics of `Sid`, a negative size in `make` and a failing random source, are `Err` results here.
