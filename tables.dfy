/**
 * A keyed table under `replace into`: writing an entry replaces the row with
 * the same key or inserts it, and a batch of entries is written in order.
 */
module Tables {

  /** The keys of a batch of entries. */
  function KeysOf<K, V>(entries: seq<(K, V)>): set<K> {
    set i | 0 <= i < |entries| :: entries[i].0
  }

  /** The table after writing `entries` one after another. */
  function ReplaceAll<K, V>(table: map<K, V>, entries: seq<(K, V)>): map<K, V>
    decreases |entries|
  {
    if |entries| == 0 then table
    else
      var last := entries[|entries| - 1];
      ReplaceAll(table, entries[..|entries| - 1])[last.0 := last.1]
  }

  /** A batch adds exactly its keys. */
  lemma {:induction false} ReplaceAllKeys<K, V>(table: map<K, V>, entries: seq<(K, V)>)
    ensures ReplaceAll(table, entries).Keys == table.Keys + KeysOf(entries)
    decreases |entries|
  {
    if |entries| > 0 {
      var init := entries[..|entries| - 1];
      ReplaceAllKeys(table, init);
      assert KeysOf(entries) == KeysOf(init) + {entries[|entries| - 1].0} by {
        forall k | k in KeysOf(entries) ensures k in KeysOf(init) + {entries[|entries| - 1].0} {
          var i :| 0 <= i < |entries| && entries[i].0 == k;
          if i < |entries| - 1 { assert init[i] == entries[i]; }
        }
        forall k | k in KeysOf(init) ensures k in KeysOf(entries) {
          var i :| 0 <= i < |init| && init[i].0 == k;
          assert entries[i] == init[i];
        }
      }
    }
  }

  /** Rows whose key the batch does not mention are untouched. */
  lemma {:induction false} ReplaceAllKeepsOthers<K, V>(table: map<K, V>, entries: seq<(K, V)>, k: K)
    requires forall i | 0 <= i < |entries| :: entries[i].0 != k
    ensures (k in ReplaceAll(table, entries)) == (k in table)
    ensures k in table ==> ReplaceAll(table, entries)[k] == table[k]
    decreases |entries|
  {
    if |entries| > 0 {
      ReplaceAllKeepsOthers(table, entries[..|entries| - 1], k);
    }
  }

  /** The last entry with a given key wins. */
  lemma {:induction false} ReplaceAllLastWins<K, V>(table: map<K, V>, entries: seq<(K, V)>, j: nat)
    requires j < |entries|
    requires forall i | j < i < |entries| :: entries[i].0 != entries[j].0
    ensures entries[j].0 in ReplaceAll(table, entries)
    ensures ReplaceAll(table, entries)[entries[j].0] == entries[j].1
    decreases |entries|
  {
    if j < |entries| - 1 {
      ReplaceAllLastWins(table, entries[..|entries| - 1], j);
    }
  }

  /** The position of the last entry with a given key. */
  function LastIndex<K(==), V>(entries: seq<(K, V)>, k: K): (j: nat)
    requires k in KeysOf(entries)
    ensures j < |entries| && entries[j].0 == k
    ensures forall i | j < i < |entries| :: entries[i].0 != k
    decreases |entries|
  {
    if entries[|entries| - 1].0 == k then |entries| - 1
    else
      assert k in KeysOf(entries[..|entries| - 1]) by {
        var i :| 0 <= i < |entries| && entries[i].0 == k;
        assert entries[..|entries| - 1][i] == entries[i];
      }
      LastIndex(entries[..|entries| - 1], k)
  }

  /** Every row of the result is an old row under an unmentioned key, or the last entry for its key. */
  lemma ReplaceAllRows<K, V>(table: map<K, V>, entries: seq<(K, V)>, k: K)
    requires k in ReplaceAll(table, entries)
    ensures k !in KeysOf(entries) ==> k in table && ReplaceAll(table, entries)[k] == table[k]
    ensures k in KeysOf(entries) ==> ReplaceAll(table, entries)[k] == entries[LastIndex(entries, k)].1
  {
    if k in KeysOf(entries) {
      ReplaceAllLastWins(table, entries, LastIndex(entries, k));
    } else {
      ReplaceAllKeepsOthers(table, entries, k);
      ReplaceAllKeys(table, entries);
    }
  }

  /** Writing the same batch twice leaves the same table as writing it once. */
  lemma ReplaceAllIdempotent<K, V>(table: map<K, V>, entries: seq<(K, V)>)
    ensures ReplaceAll(ReplaceAll(table, entries), entries) == ReplaceAll(table, entries)
  {
    var once := ReplaceAll(table, entries);
    var twice := ReplaceAll(once, entries);
    ReplaceAllKeys(table, entries);
    ReplaceAllKeys(once, entries);
    forall k | k in once
      ensures twice[k] == once[k]
    {
      if k in KeysOf(entries) {
        ReplaceAllLastWins(table, entries, LastIndex(entries, k));
        ReplaceAllLastWins(once, entries, LastIndex(entries, k));
      } else {
        ReplaceAllKeepsOthers(once, entries, k);
      }
    }
  }

  /** Writing one more entry updates the table at that entry's key. */
  lemma ReplaceAllSnoc<K, V>(table: map<K, V>, entries: seq<(K, V)>, entry: (K, V))
    ensures ReplaceAll(table, entries + [entry]) == ReplaceAll(table, entries)[entry.0 := entry.1]
  {
    assert (entries + [entry])[..|entries|] == entries;
  }
}
