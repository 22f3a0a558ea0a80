/** `diff_by_id`: the script of row operations that turns one keyed list into another. */
module Dirty {
  import opened Sequences
  import opened RowOps
  import opened UniqueDiff
  import opened LcsDiff
  import Lcs

  /**
    `new_rows[i]` belongs to `new_keys[i]`, so the two have the same length.
    The last clauses say which of the two algorithms answers, and with what.
   */
  method DiffById<T, K(==)>(oldKeys: seq<K>, newKeys: seq<K>, newRows: seq<T>) returns (ops: seq<RowOp<T>>)
    requires |newKeys| == |newRows|
    ensures InsertsLand(ops, newRows)
    ensures Runs(|oldKeys|, ops, |newKeys|) && ReplayAs(oldKeys, ops, newKeys) == newKeys
    ensures Unique(oldKeys) && Unique(newKeys) ==> ops == UniqueScript(oldKeys, newKeys, newRows)
    ensures !(Unique(oldKeys) && Unique(newKeys)) ==>
      && (forall k :: 0 <= k < |ops| ==> !ops[k].Move?)
      && |ops| == |oldKeys| + |newKeys| - 2 * Lcs.Length(oldKeys, newKeys)
      && RemovesBeforeInserts(ops) && InsertsAscend(ops)
  {
    if Unique(oldKeys) && Unique(newKeys) {
      ops := DiffUnique(oldKeys, newKeys, newRows);
      ScriptRuns(oldKeys, newKeys, newRows);
      ScriptIsNecessary(oldKeys, newKeys, newRows);
    } else {
      ops := DiffLcs(oldKeys, newKeys, newRows);
    }
  }

  /** From an empty list the script is one insert per row, in order, on either path. */
  lemma {:induction false} RebuildIsAppends<T, K>(ops: seq<RowOp<T>>, newKeys: seq<K>, newRows: seq<T>)
    requires |newKeys| == |newRows| && InsertsLand(ops, newRows)
    requires Runs(0, ops, |newKeys|) && ReplayAs([], ops, newKeys) == newKeys
    requires |ops| == |newKeys| && InsertsAscend(ops)
    ensures ops == Appends(newRows, 0)
  {
    LengthAfterBound(0, ops);
    forall i | 0 <= i < |ops| ensures ops[i].at == i {
      AscendingFromZero(ops, |newRows|, i);
    }
  }

  lemma {:induction false} AscendingFromZero<T>(ops: seq<RowOp<T>>, n: nat, i: nat)
    requires i < |ops| == n && InsertsAscend(ops)
    requires forall k :: 0 <= k < |ops| ==> ops[k].Insert? && ops[k].at < n
    ensures ops[i].at == i
  {
    for k := 0 to n
      invariant forall j :: 0 <= j < k ==> ops[j].at >= j
    {
      assert k > 0 ==> ops[k - 1].at < ops[k].at;
    }
    var k := n - 1;
    while k > i
      invariant i <= k < n && ops[k].at <= k
    {
      assert ops[k - 1].at < ops[k].at;
      k := k - 1;
    }
  }

  // ---------- Rows stay with their keys ----------

  /**
    Whatever the script, the row that ends up at a position either stood in the old list under the
    very key that is now there, or was inserted as that key's new row.
   */
  lemma {:induction false} RowsFollowKeys<T, K, U>(ops: seq<RowOp<U>>, oldKeys: seq<K>, oldRows: seq<T>,
      newKeys: seq<K>, newRows: seq<T>, p: nat)
    requires |oldKeys| == |oldRows| && |newKeys| == |newRows|
    requires Runs(|oldKeys|, ops, |newKeys|) && ReplayAs(oldKeys, ops, newKeys) == newKeys && p < |newKeys|
    ensures |ReplayAs(oldRows, ops, newRows)| == |newRows|
    ensures var there := (newKeys[p], ReplayAs(oldRows, ops, newRows)[p]);
      there in Pair(oldKeys, oldRows)
      || exists i: nat :: Inserts(ops, i, Pair(newKeys, newRows), there)
  {
    ReplayPair(ops, oldKeys, oldRows, newKeys, newRows);
    assert Pair(newKeys, ReplayAs(oldRows, ops, newRows))[p] == (newKeys[p], ReplayAs(oldRows, ops, newRows)[p]);
    ReplayElements(Pair(oldKeys, oldRows), ops, Pair(newKeys, newRows), p);
  }

  /** In a duplicate-free key list the key decides the row. */
  lemma {:induction false} RowOfKey<T, K>(keys: seq<K>, rows: seq<T>, key: K, row: T)
    requires |keys| == |rows| && Unique(keys) && (key, row) in Pair(keys, rows)
    ensures key in keys && rows[IndexOf(keys, key)] == row
  {
    var q := IndexOf(Pair(keys, rows), (key, row));
    assert keys[q] == key && rows[q] == row;
  }

  /** With duplicate-free keys every retained key still carries its old row after the structural pass. */
  lemma {:induction false} RetainedRowsSurvive<T, K>(oldKeys: seq<K>, oldRows: seq<T>, newKeys: seq<K>,
      newRows: seq<T>, p: nat)
    requires |oldKeys| == |oldRows| && |newKeys| == |newRows|
    requires Unique(oldKeys) && Unique(newKeys) && p < |newKeys|
    ensures var ops := UniqueScript(oldKeys, newKeys, newRows);
      && Runs(|oldRows|, ops, |newRows|)
      && |ReplayAs(oldRows, ops, newRows)| == |newRows|
      && ReplayAs(oldRows, ops, newRows)[p] ==
           if newKeys[p] in oldKeys then oldRows[IndexOf(oldKeys, newKeys[p])] else newRows[p]
  {
    var ops := UniqueScript(oldKeys, newKeys, newRows);
    ScriptRuns(oldKeys, newKeys, newRows);
    ScriptIsNecessary(oldKeys, newKeys, newRows);
    RowsFollowKeys(ops, oldKeys, oldRows, newKeys, newRows, p);
    var row := ReplayAs(oldRows, ops, newRows)[p];
    if (newKeys[p], row) in Pair(oldKeys, oldRows) {
      RowOfKey(oldKeys, oldRows, newKeys[p], row);
    } else {
      var i: nat :| Inserts(ops, i, Pair(newKeys, newRows), (newKeys[p], row));
      var at := ops[i].at;
      assert Pair(newKeys, newRows)[at] == (newKeys[at], newRows[at]);
      assert newKeys[at] !in oldKeys;
      assert at == p;
    }
  }

  // ---------- No script without moves is shorter ----------

  /** A script without moves that keeps only `|c|` elements in place pays for all the others. */
  lemma {:induction false} MovelessCost<K>(xs: seq<K>, script: seq<RowOp<K>>) returns (c: seq<K>)
    requires InBounds(|xs|, script) && forall i :: 0 <= i < |script| ==> !script[i].Move?
    ensures Lcs.IsCommon(c, xs, Replay(xs, script))
    ensures |script| >= |xs| + |Replay(xs, script)| - 2 * |c|
  {
    if script == [] {
      c := xs;
      Lcs.SelfSubsequence(xs);
    } else {
      var before, after := Replay(xs, Init(script)), Replay(xs, script);
      var d := MovelessCost(xs, Init(script));
      match Last(script)
      case Insert(at, row) =>
        c := d;
        assert RemoveAt(after, at) == before;
        Lcs.SubsequenceOfRemoved(d, after, at);
      case Remove(at) =>
        c := Lcs.SubsequenceAfterRemoval(d, before, at);
        Lcs.SubsequenceTransitive(c, d, xs);
    }
  }

  /** On the table path the script is as short as any insert/remove script between the two key lists. */
  lemma {:induction false} NoShorterMovelessScript<K>(oldKeys: seq<K>, newKeys: seq<K>, script: seq<RowOp<K>>)
    requires InBounds(|oldKeys|, script) && forall i :: 0 <= i < |script| ==> !script[i].Move?
    requires Replay(oldKeys, script) == newKeys
    ensures |script| >= |oldKeys| + |newKeys| - 2 * Lcs.Length(oldKeys, newKeys)
  {
    var c := MovelessCost(oldKeys, script);
    Lcs.LengthIsUpperBound(c, oldKeys, newKeys);
  }
}
