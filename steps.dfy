/** The steps table and its upserts (db/steps.go). The conflict key holds
    the total's calendar date, not its instant. */
module StepsStore {
  import opened Wrappers
  import opened Time
  import Upsert

  /** StepTotal: a user's step count for the day containing `date`. */
  datatype StepTotal = StepTotal(userID: string, date: Instant, total: int)

  /** The conflict target (user_id, activity_date); activity_date is
      date.Format("2006-01-02"), represented by the calendar day. */
  datatype Key = Key(userID: string, activityDate: int)

  /** The value column total_steps. */
  datatype Row = Row(totalSteps: int)

  function KeyOf(t: StepTotal): (key: Key)
  {
    Key(t.userID, DateOf(t.date))
  }

  function RowOf(t: StepTotal): (row: Row)
  {
    Row(t.total)
  }

  /** The statement executions a batch performs, in order. */
  function Entries(totals: seq<StepTotal>): (entries: seq<(Key, Row)>)
  {
    seq(|totals|, i requires 0 <= i < |totals| => (KeyOf(totals[i]), RowOf(totals[i])))
  }

  /** The table after a committed batch. */
  function ApplyBatch(rows: map<Key, Row>, totals: seq<StepTotal>): (after: map<Key, Row>)
  {
    Upsert.ApplyAll(rows, Entries(totals))
  }

  class StepsTable {
    var rows: map<Key, Row>

    constructor ()
      ensures rows == map[]
    {
      rows := map[];
    }

    /** UpsertSteps: one statement outside any transaction; `execErr` is
        what ExecContext reports. */
    method UpsertSteps(total: StepTotal, execErr: Option<string>) returns (err: Option<string>)
      modifies this
      ensures err == execErr
      ensures rows == if err == None then old(rows)[KeyOf(total) := RowOf(total)] else old(rows)
    {
      err := execErr;
      if err == None {
        rows := rows[KeyOf(total) := RowOf(total)];
      }
    }

    /** UpsertStepsBatch: all totals in one transaction, in order; any
        failure rolls the table back to its state before the call. */
    method UpsertStepsBatch(totals: seq<StepTotal>, fault: Upsert.TxFault) returns (err: Option<string>)
      modifies this
      ensures err == Upsert.BatchError(fault, |totals|)
      ensures rows == if err == None then ApplyBatch(old(rows), totals) else old(rows)
    {
      if |totals| == 0 {
        return None;
      }
      if fault.BeginFails? {
        return Some(fault.msg);
      }
      if fault.PrepareFails? {
        return Some(fault.msg);
      }
      var before := rows;
      var entries := Entries(totals);
      var i := 0;
      while i < |totals|
        invariant 0 <= i <= |totals|
        invariant rows == Upsert.ApplyAll(before, entries[..i])
        invariant fault.ExecFails? ==> fault.at >= i
      {
        if fault.ExecFails? && fault.at == i {
          rows := before;
          return Some(fault.msg);
        }
        var t := totals[i];
        assert entries[..i + 1][..i] == entries[..i];
        rows := rows[KeyOf(t) := RowOf(t)];
        i := i + 1;
      }
      assert entries[..i] == entries;
      if fault.CommitFails? {
        rows := before;
        return Some(fault.msg);
      }
      err := None;
    }
  }

  /** After a committed batch, the last total for a (user, date) decides
      that row's total_steps. */
  lemma BatchStoresLastTotal(rows: map<Key, Row>, totals: seq<StepTotal>, i: nat)
    requires i < |totals|
    requires forall j :: i < j < |totals| ==> KeyOf(totals[j]) != KeyOf(totals[i])
    ensures KeyOf(totals[i]) in ApplyBatch(rows, totals)
    ensures ApplyBatch(rows, totals)[KeyOf(totals[i])] == Row(totals[i].total)
  {
    Upsert.LastWriteWins(rows, Entries(totals), i);
  }

  /** Two totals of one user on the same calendar date, at different times
      of day, hit the same row: the later one's total is stored. */
  lemma SameDateSameRow(rows: map<Key, Row>, first: StepTotal, second: StepTotal)
    requires first.userID == second.userID && first.date.day == second.date.day
    ensures KeyOf(first) == KeyOf(second)
    ensures ApplyBatch(rows, [first, second])[KeyOf(first)] == Row(second.total)
  {
    BatchStoresLastTotal(rows, [first, second], 1);
  }

  // Instantiates Upsert.OtherKeysUnchanged for this table's batches.
  /** Rows whose key no total of the batch carries are untouched. */
  lemma BatchLeavesOtherKeys(rows: map<Key, Row>, totals: seq<StepTotal>, k: Key)
    requires forall j :: 0 <= j < |totals| ==> KeyOf(totals[j]) != k
    ensures k in ApplyBatch(rows, totals) <==> k in rows
    ensures k in rows ==> ApplyBatch(rows, totals)[k] == rows[k]
  {
    var e := Entries(totals);
    assert !Upsert.Written(e, k) by {
      forall j | 0 <= j < |e| ensures e[j].0 != k {
        assert e[j].0 == KeyOf(totals[j]);
      }
    }
    Upsert.OtherKeysUnchanged(rows, e, k);
  }

  // Instantiates Upsert.Idempotent for this table's batches.
  /** Applying the same batch twice gives the table applying it once gives. */
  lemma BatchIdempotent(rows: map<Key, Row>, totals: seq<StepTotal>)
    ensures ApplyBatch(ApplyBatch(rows, totals), totals) == ApplyBatch(rows, totals)
  {
    Upsert.Idempotent(rows, Entries(totals));
  }
}
