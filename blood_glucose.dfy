/** The blood_glucose table and its upserts (db/blood_glucose.go). */
module BloodGlucoseStore {
  import opened Wrappers
  import opened Time
  import Upsert

  /** BloodGlucoseReading; MgDL may be absent (NULL). */
  datatype BloodGlucoseReading = BloodGlucoseReading(userID: string, sampleTime: Instant, mgDl: Option<int>)

  /** The conflict target (user_id, sample_time). */
  datatype Key = Key(userID: string, sampleTime: Instant)

  /** The value column mg_dl. */
  datatype Row = Row(mgDl: Option<int>)

  function KeyOf(r: BloodGlucoseReading): (key: Key)
  {
    Key(r.userID, r.sampleTime)
  }

  function RowOf(r: BloodGlucoseReading): (row: Row)
  {
    Row(r.mgDl)
  }

  /** The statement executions a batch performs, in order. */
  function Entries(readings: seq<BloodGlucoseReading>): (entries: seq<(Key, Row)>)
  {
    seq(|readings|, i requires 0 <= i < |readings| => (KeyOf(readings[i]), RowOf(readings[i])))
  }

  /** The table after a committed batch. */
  function ApplyBatch(rows: map<Key, Row>, readings: seq<BloodGlucoseReading>): (after: map<Key, Row>)
  {
    Upsert.ApplyAll(rows, Entries(readings))
  }

  class BloodGlucoseTable {
    var rows: map<Key, Row>

    constructor ()
      ensures rows == map[]
    {
      rows := map[];
    }

    /** UpsertBloodGlucose: one statement outside any transaction; `execErr`
        is what ExecContext reports. */
    method UpsertBloodGlucose(reading: BloodGlucoseReading, execErr: Option<string>) returns (err: Option<string>)
      modifies this
      ensures err == execErr
      ensures rows == if err == None then old(rows)[KeyOf(reading) := RowOf(reading)] else old(rows)
    {
      err := execErr;
      if err == None {
        rows := rows[KeyOf(reading) := RowOf(reading)];
      }
    }

    /** UpsertBloodGlucoseBatch: all readings in one transaction, in order;
        any failure rolls the table back to its state before the call. */
    method UpsertBloodGlucoseBatch(readings: seq<BloodGlucoseReading>, fault: Upsert.TxFault) returns (err: Option<string>)
      modifies this
      ensures err == Upsert.BatchError(fault, |readings|)
      ensures rows == if err == None then ApplyBatch(old(rows), readings) else old(rows)
    {
      if |readings| == 0 {
        return None;
      }
      if fault.BeginFails? {
        return Some(fault.msg);
      }
      if fault.PrepareFails? {
        return Some(fault.msg);
      }
      var before := rows;
      var entries := Entries(readings);
      var i := 0;
      while i < |readings|
        invariant 0 <= i <= |readings|
        invariant rows == Upsert.ApplyAll(before, entries[..i])
        invariant fault.ExecFails? ==> fault.at >= i
      {
        if fault.ExecFails? && fault.at == i {
          rows := before;
          return Some(fault.msg);
        }
        var r := readings[i];
        assert entries[..i + 1][..i] == entries[..i];
        rows := rows[KeyOf(r) := RowOf(r)];
        i := i + 1;
      }
      assert entries[..i] == entries;
      if fault.CommitFails? {
        rows := before;
        return Some(fault.msg);
      }
      err := None;
    }
  }

  /** After a committed batch, the last reading for a key decides its mg_dl,
      NULL included. */
  lemma BatchStoresLastReading(rows: map<Key, Row>, readings: seq<BloodGlucoseReading>, i: nat)
    requires i < |readings|
    requires forall j :: i < j < |readings| ==> KeyOf(readings[j]) != KeyOf(readings[i])
    ensures KeyOf(readings[i]) in ApplyBatch(rows, readings)
    ensures ApplyBatch(rows, readings)[KeyOf(readings[i])] == Row(readings[i].mgDl)
  {
    Upsert.LastWriteWins(rows, Entries(readings), i);
  }

  // Instantiates Upsert.OtherKeysUnchanged for this table's batches.
  /** Rows whose key no reading of the batch carries are untouched. */
  lemma BatchLeavesOtherKeys(rows: map<Key, Row>, readings: seq<BloodGlucoseReading>, k: Key)
    requires forall j :: 0 <= j < |readings| ==> KeyOf(readings[j]) != k
    ensures k in ApplyBatch(rows, readings) <==> k in rows
    ensures k in rows ==> ApplyBatch(rows, readings)[k] == rows[k]
  {
    var e := Entries(readings);
    assert !Upsert.Written(e, k) by {
      forall j | 0 <= j < |e| ensures e[j].0 != k {
        assert e[j].0 == KeyOf(readings[j]);
      }
    }
    Upsert.OtherKeysUnchanged(rows, e, k);
  }

  // Instantiates Upsert.Idempotent for this table's batches.
  /** Applying the same batch twice gives the table applying it once gives. */
  lemma BatchIdempotent(rows: map<Key, Row>, readings: seq<BloodGlucoseReading>)
    ensures ApplyBatch(ApplyBatch(rows, readings), readings) == ApplyBatch(rows, readings)
  {
    Upsert.Idempotent(rows, Entries(readings));
  }
}
