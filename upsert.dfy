/** The semantics shared by the three batch stores: a prepared
    `INSERT ... ON CONFLICT(key) DO UPDATE SET <every value column> = excluded.<column>`
    run once per row inside one transaction. A table is a map from the
    conflict key to the row's value columns. */
module Upsert {
  import opened Wrappers

  /** Where, if anywhere, the database fails during one batch call: BeginTx,
      PrepareContext, the ExecContext of row `at`, or Commit. */
  datatype TxFault =
    | NoFault
    | BeginFails(msg: string)
    | PrepareFails(msg: string)
    | ExecFails(at: nat, msg: string)
    | CommitFails(msg: string)

  /** The error a batch call over `n` rows returns under fault `f`. An empty
      batch returns before a transaction is opened; an exec fault at a
      position the batch never reaches does not happen. */
  function BatchError(f: TxFault, n: nat): (e: Option<string>)
    ensures n == 0 ==> e == None
    ensures e == None <==> (n == 0 || f.NoFault? || (f.ExecFails? && f.at >= n))
  {
    if n == 0 then None
    else match f
      case NoFault => None
      case BeginFails(m) => Some(m)
      case PrepareFails(m) => Some(m)
      case ExecFails(at, m) => if at < n then Some(m) else None
      case CommitFails(m) => Some(m)
  }

  /** The table after executing the upsert for each entry in order: the
      entry's key gets exactly the entry's value columns. */
  function ApplyAll<K, V>(table: map<K, V>, entries: seq<(K, V)>): (after: map<K, V>)
    decreases |entries|
  {
    if entries == [] then table
    else
      var n := |entries| - 1;
      ApplyAll(table, entries[..n])[entries[n].0 := entries[n].1]
  }

  /** Some entry of the batch has key k. */
  ghost predicate Written<K, V>(entries: seq<(K, V)>, k: K)
  {
    exists i :: 0 <= i < |entries| && entries[i].0 == k
  }

  /** No two entries of the batch share a key. */
  ghost predicate DistinctKeys<K, V>(entries: seq<(K, V)>)
  {
    forall i, j :: 0 <= i < j < |entries| ==> entries[i].0 != entries[j].0
  }

  /** A batch leaves every key it does not write exactly as it was. */
  lemma {:induction false} OtherKeysUnchanged<K, V>(table: map<K, V>, entries: seq<(K, V)>, k: K)
    requires !Written(entries, k)
    ensures k in ApplyAll(table, entries) <==> k in table
    ensures k in table ==> ApplyAll(table, entries)[k] == table[k]
    decreases |entries|
  {
    if entries != [] {
      var n := |entries| - 1;
      assert !Written(entries[..n], k) by {
        forall i | 0 <= i < n ensures entries[..n][i].0 != k {
          assert entries[..n][i] == entries[i];
        }
      }
      OtherKeysUnchanged(table, entries[..n], k);
    }
  }

  /** The entry written last for a key decides that key's whole row. */
  lemma {:induction false} LastWriteWins<K, V>(table: map<K, V>, entries: seq<(K, V)>, i: nat)
    requires i < |entries|
    requires forall j :: i < j < |entries| ==> entries[j].0 != entries[i].0
    ensures entries[i].0 in ApplyAll(table, entries)
    ensures ApplyAll(table, entries)[entries[i].0] == entries[i].1
    decreases |entries|
  {
    var n := |entries| - 1;
    if i < n {
      forall j | i < j < n ensures entries[..n][j].0 != entries[..n][i].0 {
        assert entries[..n][j] == entries[j];
      }
      LastWriteWins(table, entries[..n], i);
    }
  }

  /** Executing a batch is overlaying the batch's own last writes on the
      table: the prior table contributes nothing to written keys. */
  lemma {:induction false} Overlay<K, V>(table: map<K, V>, entries: seq<(K, V)>)
    ensures ApplyAll(table, entries) == table + ApplyAll(map[], entries)
    decreases |entries|
  {
    if entries != [] {
      var n := |entries| - 1;
      Overlay(table, entries[..n]);
    }
  }

  /** Executing the same batch twice leaves the same table as executing it once. */
  lemma Idempotent<K, V>(table: map<K, V>, entries: seq<(K, V)>)
    ensures ApplyAll(ApplyAll(table, entries), entries) == ApplyAll(table, entries)
  {
    var written := ApplyAll(map[], entries);
    Overlay(table, entries);
    Overlay(table + written, entries);
    assert (table + written) + written == table + written;
  }

  /** With distinct keys, the order of the batch does not matter: any two
      sequences holding the same entries leave the same table. */
  lemma SameEntriesSameTable<K, V>(table: map<K, V>, a: seq<(K, V)>, b: seq<(K, V)>)
    requires DistinctKeys(a) && DistinctKeys(b)
    requires forall e :: e in a <==> e in b
    ensures ApplyAll(table, a) == ApplyAll(table, b)
  {
    var ta, tb := ApplyAll(table, a), ApplyAll(table, b);
    forall k | k in ta ensures k in tb && ta[k] == tb[k] {
      SameEntriesAt(table, a, b, k);
    }
    forall k | k in tb ensures k in ta {
      SameEntriesAt(table, a, b, k);
    }
  }

  lemma SameEntriesAt<K, V>(table: map<K, V>, a: seq<(K, V)>, b: seq<(K, V)>, k: K)
    requires DistinctKeys(a) && DistinctKeys(b)
    requires forall e :: e in a <==> e in b
    ensures k in ApplyAll(table, a) <==> k in ApplyAll(table, b)
    ensures k in ApplyAll(table, a) ==> ApplyAll(table, a)[k] == ApplyAll(table, b)[k]
  {
    if i :| 0 <= i < |a| && a[i].0 == k {
      assert a[i] in b;
      var j :| 0 <= j < |b| && b[j] == a[i];
      LastWriteWins(table, a, i);
      LastWriteWins(table, b, j);
    } else {
      assert !Written(b, k) by {
        forall j | 0 <= j < |b| ensures b[j].0 != k {
          assert b[j] in a;
        }
      }
      OtherKeysUnchanged(table, a, k);
      OtherKeysUnchanged(table, b, k);
    }
  }
}
