/** The heart_rate table and its upserts (db/heart_rate.go). */
module HeartRateStore {
  import opened Wrappers
  import opened Time
  import opened Models
  import Upsert

  /** HeartRateReading: one record per (user, sample time); each value
      column may be absent (NULL). */
  datatype HeartRateReading = HeartRateReading(
    userID: string,
    sampleTime: Instant,
    bpm: Option<int>,
    hrvRmssd: Option<F64>,
    hrvSdnn: Option<F64>)

  /** The conflict target (user_id, sample_time). */
  datatype Key = Key(userID: string, sampleTime: Instant)

  /** The value columns bpm, hrv_rmssd, hrv_sdnn. */
  datatype Row = Row(bpm: Option<int>, hrvRmssd: Option<F64>, hrvSdnn: Option<F64>)

  function KeyOf(r: HeartRateReading): (key: Key)
  {
    Key(r.userID, r.sampleTime)
  }

  function RowOf(r: HeartRateReading): (row: Row)
  {
    Row(r.bpm, r.hrvRmssd, r.hrvSdnn)
  }

  /** The statement executions a batch performs, in order. */
  function Entries(readings: seq<HeartRateReading>): (entries: seq<(Key, Row)>)
  {
    seq(|readings|, i requires 0 <= i < |readings| => (KeyOf(readings[i]), RowOf(readings[i])))
  }

  /** The table after a committed batch. */
  function ApplyBatch(rows: map<Key, Row>, readings: seq<HeartRateReading>): (after: map<Key, Row>)
  {
    Upsert.ApplyAll(rows, Entries(readings))
  }

  class HeartRateTable {
    var rows: map<Key, Row>

    constructor ()
      ensures rows == map[]
    {
      rows := map[];
    }

    /** UpsertHeartRate: one statement outside any transaction; `execErr`
        is what ExecContext reports. */
    method UpsertHeartRate(reading: HeartRateReading, execErr: Option<string>) returns (err: Option<string>)
      modifies this
      ensures err == execErr
      ensures rows == if err == None then old(rows)[KeyOf(reading) := RowOf(reading)] else old(rows)
    {
      err := execErr;
      if err == None {
        rows := rows[KeyOf(reading) := RowOf(reading)];
      }
    }

    /** UpsertHeartRateBatch: all readings in one transaction, in order;
        any failure rolls the table back to its state before the call. */
    method UpsertHeartRateBatch(readings: seq<HeartRateReading>, fault: Upsert.TxFault) returns (err: Option<string>)
      modifies this
      ensures err == Upsert.BatchError(fault, |readings|)
      ensures rows == if err == None then ApplyBatch(old(rows), readings) else old(rows)
    {
      if |readings| == 0 {
        return None;
      }
      if fault.BeginFails? {
        return Some(fault.msg);
      }
      if fault.PrepareFails? {
        return Some(fault.msg);
      }
      var before := rows;
      var entries := Entries(readings);
      var i := 0;
      while i < |readings|
        invariant 0 <= i <= |readings|
        invariant rows == Upsert.ApplyAll(before, entries[..i])
        invariant fault.ExecFails? ==> fault.at >= i
      {
        if fault.ExecFails? && fault.at == i {
          rows := before;
          return Some(fault.msg);
        }
        var r := readings[i];
        assert entries[..i + 1][..i] == entries[..i];
        rows := rows[KeyOf(r) := RowOf(r)];
        i := i + 1;
      }
      assert entries[..i] == entries;
      if fault.CommitFails? {
        rows := before;
        return Some(fault.msg);
      }
      err := None;
    }
  }

  /** After a committed batch, a reading that no later reading shares a key
      with decides its key's row in full: every value column, NULL included. */
  lemma BatchStoresLastReading(rows: map<Key, Row>, readings: seq<HeartRateReading>, i: nat)
    requires i < |readings|
    requires forall j :: i < j < |readings| ==> KeyOf(readings[j]) != KeyOf(readings[i])
    ensures KeyOf(readings[i]) in ApplyBatch(rows, readings)
    ensures ApplyBatch(rows, readings)[KeyOf(readings[i])]
         == Row(readings[i].bpm, readings[i].hrvRmssd, readings[i].hrvSdnn)
  {
    Upsert.LastWriteWins(rows, Entries(readings), i);
  }

  /** Re-ingesting a stored sample time with BPM absent and RMSSD present
      stores BPM absent: the NULL replaces the earlier value. */
  lemma NullOverwritesStoredValue(rows: map<Key, Row>, r: HeartRateReading, rmssd: F64)
    requires KeyOf(r) in rows && rows[KeyOf(r)] == Row(Some(60), None, None)
    requires r.bpm == None && r.hrvRmssd == Some(rmssd) && r.hrvSdnn == None
    ensures ApplyBatch(rows, [r])[KeyOf(r)] == Row(None, Some(rmssd), None)
  {
    BatchStoresLastReading(rows, [r], 0);
  }

  // Instantiates Upsert.OtherKeysUnchanged for this table's batches.
  /** Rows whose key no reading of the batch carries are untouched. */
  lemma BatchLeavesOtherKeys(rows: map<Key, Row>, readings: seq<HeartRateReading>, k: Key)
    requires forall j :: 0 <= j < |readings| ==> KeyOf(readings[j]) != k
    ensures k in ApplyBatch(rows, readings) <==> k in rows
    ensures k in rows ==> ApplyBatch(rows, readings)[k] == rows[k]
  {
    var e := Entries(readings);
    assert !Upsert.Written(e, k) by {
      forall j | 0 <= j < |e| ensures e[j].0 != k {
        assert e[j].0 == KeyOf(readings[j]);
      }
    }
    Upsert.OtherKeysUnchanged(rows, e, k);
  }

  // Instantiates Upsert.Idempotent for this table's batches.
  /** Applying the same batch twice gives the table applying it once gives. */
  lemma BatchIdempotent(rows: map<Key, Row>, readings: seq<HeartRateReading>)
    ensures ApplyBatch(ApplyBatch(rows, readings), readings) == ApplyBatch(rows, readings)
  {
    Upsert.Idempotent(rows, Entries(readings));
  }

  /** Readings with pairwise distinct keys (as one day's merge yields) leave
      the same table in whatever order they are applied. */
  lemma BatchOrderIrrelevant(rows: map<Key, Row>, a: seq<HeartRateReading>, b: seq<HeartRateReading>)
    requires forall i, j :: 0 <= i < j < |a| ==> a[i].sampleTime != a[j].sampleTime
    requires forall i, j :: 0 <= i < j < |b| ==> b[i].sampleTime != b[j].sampleTime
    requires forall r :: r in a <==> r in b
    ensures ApplyBatch(rows, a) == ApplyBatch(rows, b)
  {
    var ea, eb := Entries(a), Entries(b);
    EntriesSameMembers(a, b);
    assert Upsert.DistinctKeys(ea) && Upsert.DistinctKeys(eb);
    Upsert.SameEntriesSameTable(rows, ea, eb);
  }

  lemma EntriesSameMembers(a: seq<HeartRateReading>, b: seq<HeartRateReading>)
    requires forall r :: r in a <==> r in b
    ensures forall e :: e in Entries(a) <==> e in Entries(b)
  {
    forall e | e in Entries(a) ensures e in Entries(b) {
      var i :| 0 <= i < |a| && Entries(a)[i] == e;
      assert a[i] in b;
      var j :| 0 <= j < |b| && b[j] == a[i];
      assert Entries(b)[j] == e;
    }
    forall e | e in Entries(b) ensures e in Entries(a) {
      var j :| 0 <= j < |b| && Entries(b)[j] == e;
      assert b[j] in a;
      var i :| 0 <= i < |a| && a[i] == b[j];
      assert Entries(a)[i] == e;
    }
  }
}
