/** In-place reconciliation of a persistent list model with a freshly computed list of rows. */
module ListModel {
  import opened Wrappers
  import opened Sequences
  import opened RowOps
  import opened UniqueDiff
  import opened Dirty
  import Lcs

  /** The toolkit's vector model: rows that can be inserted, removed and patched in place. */
  class VecModel<T(==)> {
    var rows: seq<T>

    /** The positions patched by `SetRowData` so far, in order: each one notifies the views. */
    ghost var patches: seq<nat>

    constructor (initial: seq<T>)
      ensures rows == initial && patches == []
    {
      rows := initial;
      patches := [];
    }

    function RowCount(): nat
      reads this
    {
      |rows|
    }

    function RowData(index: nat): Option<T>
      reads this
    {
      if index < |rows| then Some(rows[index]) else None
    }

    method Insert(at: nat, row: T)
      requires at <= |rows|
      modifies `rows
      ensures rows == InsertAt(old(rows), at, row)
    {
      rows := rows[..at] + [row] + rows[at..];
    }

    method Remove(at: nat) returns (row: T)
      requires at < |rows|
      modifies `rows
      ensures rows == RemoveAt(old(rows), at) && row == old(rows)[at]
    {
      row := rows[at];
      rows := rows[..at] + rows[at + 1..];
    }

    method SetRowData(index: nat, row: T)
      requires index < |rows|
      modifies this
      ensures rows == old(rows)[index := row] && patches == old(patches) + [index]
    {
      rows := rows[index := row];
      patches := patches + [index];
    }
  }

  /** The caller's cache of the keys its model currently shows. */
  class KeyCache<K> {
    var keys: seq<K>

    constructor (initial: seq<K>)
      ensures keys == initial
    {
      keys := initial;
    }
  }

  /** The positions below `n` where `before` differs from `after`, in increasing order. */
  function Differing<T(==)>(before: seq<T>, after: seq<T>, n: nat): seq<nat>
    requires n <= |before| == |after|
  {
    if n == 0 then []
    else if before[n - 1] == after[n - 1] then Differing(before, after, n - 1)
    else Differing(before, after, n - 1) + [n - 1]
  }

  lemma {:induction false} DifferingElements<T>(before: seq<T>, after: seq<T>, n: nat, p: nat)
    requires n <= |before| == |after|
    ensures p in Differing(before, after, n) <==> p < n && before[p] != after[p]
  {
    if n > 0 {
      DifferingElements(before, after, n - 1, p);
    }
  }

  lemma {:induction false} DifferingIncreases<T>(before: seq<T>, after: seq<T>, n: nat)
    requires n <= |before| == |after|
    ensures forall i, j :: 0 <= i < j < |Differing(before, after, n)| ==>
      Differing(before, after, n)[i] < Differing(before, after, n)[j] < n
    ensures forall i :: 0 <= i < |Differing(before, after, n)| ==> Differing(before, after, n)[i] < n
  {
    if n > 0 {
      DifferingIncreases(before, after, n - 1);
    }
  }

  lemma {:induction false} DifferingSame<T>(rows: seq<T>, n: nat)
    requires n <= |rows|
    ensures Differing(rows, rows, n) == []
  {
    if n > 0 {
      DifferingSame(rows, n - 1);
    }
  }

  method ClearModel<T(==)>(model: VecModel<T>)
    modifies model`rows
    ensures model.rows == []
  {
    var count := model.RowCount();
    for i := 0 to count
      invariant |model.rows| == count - i
    {
      var _ := model.Remove(0);
    }
  }

  method ReplayOnModel<T(==)>(model: VecModel<T>, ops: seq<RowOp<T>>)
    requires InBounds(|model.rows|, ops)
    modifies model`rows
    ensures model.rows == Replay(old(model.rows), ops)
  {
    assert ops[..0] == [];
    for k := 0 to |ops|
      invariant InBounds(|old(model.rows)|, ops[..k])
      invariant model.rows == Replay(old(model.rows), ops[..k])
    {
      InBoundsPrefix(|old(model.rows)|, ops, k);
      InBoundsPrefix(|old(model.rows)|, ops, k + 1);
      assert Init(ops[..k + 1]) == ops[..k] && Last(ops[..k + 1]) == ops[k];
      match ops[k] {
        case Insert(at, row) =>
          model.Insert(at, row);
        case Remove(at) =>
          var _ := model.Remove(at);
        case Move(from, to) =>
          var row := model.Remove(from);
          model.Insert(to, row);
      }
    }
    assert ops[..|ops|] == ops;
  }

  /** Brings the rows that the script left in place up to date, one notification for each that differs. */
  method PatchRows<T(==)>(model: VecModel<T>, newRows: seq<T>)
    requires |model.rows| == |newRows|
    modifies model
    ensures model.rows == newRows
    ensures model.patches == old(model.patches) + Differing(old(model.rows), newRows, |newRows|)
  {
    ghost var replayed := model.rows;
    for index := 0 to |newRows|
      invariant |model.rows| == |newRows|
      invariant forall k :: 0 <= k < index ==> model.rows[k] == newRows[k]
      invariant forall k :: index <= k < |newRows| ==> model.rows[k] == replayed[k]
      invariant model.patches == old(model.patches) + Differing(replayed, newRows, index)
    {
      if model.RowData(index) != Some(newRows[index]) {
        model.SetRowData(index, newRows[index]);
      }
    }
  }

  /** The operations run in bounds, turn the old keys into the new, and are the script of the path that applies. */
  ghost predicate IsDiff<T, K>(oldKeys: seq<K>, newKeys: seq<K>, newRows: seq<T>, ops: seq<RowOp<T>>)
    requires |newKeys| == |newRows|
  {
    && Runs(|oldKeys|, ops, |newKeys|) && ReplayAs(oldKeys, ops, newKeys) == newKeys && InsertsLand(ops, newRows)
    && (Unique(oldKeys) && Unique(newKeys) ==> ops == UniqueScript(oldKeys, newKeys, newRows))
    && (!(Unique(oldKeys) && Unique(newKeys)) ==>
          && |ops| == |oldKeys| + |newKeys| - 2 * Lcs.Length(oldKeys, newKeys)
          && forall k :: 0 <= k < |ops| ==> !ops[k].Move?)
  }

  /** The key list the diff starts from: a cache that disagrees with the model is dropped. */
  function StartKeys<T, K>(rows: seq<T>, keys: seq<K>): seq<K> {
    if |rows| == |keys| then keys else []
  }

  function StartRows<T, K>(rows: seq<T>, keys: seq<K>): seq<T> {
    if |rows| == |keys| then rows else []
  }

  method Reconcile<T(==), K(==)>(model: VecModel<T>, cache: KeyCache<K>, newKeys: seq<K>, newRows: seq<T>)
    returns (ops: seq<RowOp<T>>)
    requires |newKeys| == |newRows|
    modifies model, cache
    ensures model.rows == newRows && cache.keys == newKeys
    // The structural pass is the diff of the cached keys, replayed in place.
    ensures |old(model.rows)| == |old(cache.keys)| ==> IsDiff(old(cache.keys), newKeys, newRows, ops)
    // Exactly the rows that still differ after it are patched, in order.
    ensures |old(model.rows)| == |old(cache.keys)| ==>
      model.patches == old(model.patches) + Differing(ReplayAs(old(model.rows), ops, newRows), newRows, |newRows|)
    // A desync costs one rebuild and nothing else.
    ensures |old(model.rows)| != |old(cache.keys)| ==> ops == Appends(newRows, 0) && model.patches == old(model.patches)
    // Repeating a call changes nothing and notifies nobody.
    ensures old(cache.keys) == newKeys && old(model.rows) == newRows ==>
      ops == [] && model.patches == old(model.patches)
  {
    ghost var start := StartKeys(model.rows, cache.keys);
    ghost var rows := StartRows(model.rows, cache.keys);
    if model.RowCount() != |cache.keys| {
      cache.keys := [];
      ClearModel(model);
    }
    ops := DiffById(cache.keys, newKeys, newRows);
    ReplayOwnRows(rows, ops, newRows);
    ReplayOnModel(model, ops);
    PatchRows(model, newRows);
    cache.keys := newKeys;
    DiffCorners(start, newKeys, newRows, ops);
    DifferingSame(newRows, |newRows|);
    if start == [] {
      ReplayAppends(newRows, newRows);
    }
  }

  /** Diffing against the same keys gives nothing; diffing against no keys gives a rebuild. */
  lemma {:induction false} DiffCorners<T, K>(start: seq<K>, newKeys: seq<K>, newRows: seq<T>, ops: seq<RowOp<T>>)
    requires |newKeys| == |newRows| && InsertsLand(ops, newRows)
    requires Runs(|start|, ops, |newKeys|) && ReplayAs(start, ops, newKeys) == newKeys
    requires Unique(start) && Unique(newKeys) ==> ops == UniqueScript(start, newKeys, newRows)
    requires !(Unique(start) && Unique(newKeys)) ==>
      |ops| == |start| + |newKeys| - 2 * Lcs.Length(start, newKeys) && InsertsAscend(ops)
    ensures start == newKeys ==> ops == []
    ensures start == [] ==> ops == Appends(newRows, 0)
  {
    if Unique(start) && Unique(newKeys) {
      if start <= newKeys {
        GrowthIsAppends(start, newKeys, newRows);
      }
    } else {
      Lcs.LengthWithItself(newKeys);
      if start == [] {
        RebuildIsAppends(ops, newKeys, newRows);
      }
    }
  }

  lemma {:induction false} InsertAtEnd<T>(xs: seq<T>, x: T)
    ensures InsertAt(xs, |xs|, x) == xs + [x]
  {
  }

  /** Appending the first rows of a list to nothing gives those rows. */
  lemma {:induction false} ReplayAppends<T>(front: seq<T>, rows: seq<T>)
    requires front <= rows
    ensures Runs(0, Appends(front, 0), |rows|)
    ensures ReplayAs<T, T>([], Appends(front, 0), rows) == front
  {
    if front == [] {
      assert Appends(front, 0) == [];
    } else {
      ReplayAppends(Init(front), rows);
      AppendsOneMore(front, 0);
      RunOne<T, T>([], Appends(Init(front), 0), rows, Insert(|front| - 1, Last(front)));
      InsertAtEnd(Init(front), Last(front));
      InitLast(front);
    }
  }

  /** With duplicate-free keys and no desync, exactly the retained keys whose row changed are patched. */
  lemma {:induction false} PatchesAreChangedRows<T, K>(oldKeys: seq<K>, oldRows: seq<T>, newKeys: seq<K>,
      newRows: seq<T>, p: nat)
    requires |oldKeys| == |oldRows| && |newKeys| == |newRows|
    requires Unique(oldKeys) && Unique(newKeys) && p < |newKeys|
    ensures var ops := UniqueScript(oldKeys, newKeys, newRows);
      && Runs(|oldRows|, ops, |newRows|)
      && |ReplayAs(oldRows, ops, newRows)| == |newRows|
      && (p in Differing(ReplayAs(oldRows, ops, newRows), newRows, |newRows|) <==>
            newKeys[p] in oldKeys && oldRows[IndexOf(oldKeys, newKeys[p])] != newRows[p])
  {
    RetainedRowsSurvive(oldKeys, oldRows, newKeys, newRows, p);
    DifferingElements(ReplayAs(oldRows, UniqueScript(oldKeys, newKeys, newRows), newRows), newRows, |newRows|, p);
  }
}
