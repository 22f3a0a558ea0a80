/**
  The script for keys with duplicates: a longest-common-subsequence table, a walk back through it,
  and a forward pass that emits the removals and inserts.
 */
module LcsDiff {
  import opened Sequences
  import opened RowOps
  import Lcs

  /** One decision of the backward walk, in forward order. */
  datatype Step = Keep | Drop | Add

  /** The steps consume exactly `a`, produce exactly `b`, and keep only equal keys. */
  ghost predicate Aligns<K>(steps: seq<Step>, a: seq<K>, b: seq<K>) {
    if steps == [] then a == [] && b == []
    else match steps[0]
      case Keep => a != [] && b != [] && a[0] == b[0] && Aligns(steps[1..], a[1..], b[1..])
      case Drop => a != [] && Aligns(steps[1..], a[1..], b)
      case Add => b != [] && Aligns(steps[1..], a, b[1..])
  }

  function Edits(steps: seq<Step>): nat {
    if steps == [] then 0 else (if steps[0].Keep? then 0 else 1) + Edits(steps[1..])
  }

  /** Between two kept keys every removal comes before every insertion. */
  ghost predicate DropsFirst(steps: seq<Step>) {
    forall i :: 0 <= i < |steps| - 1 ==> !(steps[i].Add? && steps[i + 1].Drop?)
  }

  /** The same on the emitted operations: an insert is never followed by a removal right behind it. */
  ghost predicate RemovesBeforeInserts<T>(ops: seq<RowOp<T>>) {
    forall i :: 0 <= i < |ops| - 1 && ops[i].Insert? ==> ops[i + 1] != Remove(ops[i].at + 1)
  }

  method FillTable<K(==)>(oldKeys: seq<K>, newKeys: seq<K>) returns (lcs: array2<nat>)
    ensures fresh(lcs) && lcs.Length0 == |oldKeys| + 1 && lcs.Length1 == |newKeys| + 1
    ensures forall i, j :: 0 <= i <= |oldKeys| && 0 <= j <= |newKeys| ==>
      lcs[i, j] == Lcs.Length(oldKeys[..i], newKeys[..j])
  {
    var n, m := |oldKeys|, |newKeys|;
    lcs := new nat[n + 1, m + 1]((_, _) => 0);
    for i := 0 to n
      invariant forall p, q :: 0 <= p <= n && 0 <= q <= m ==>
        lcs[p, q] == if p <= i then Lcs.Length(oldKeys[..p], newKeys[..q]) else 0
    {
      for j := 0 to m
        invariant forall p, q :: 0 <= p <= n && 0 <= q <= m ==>
          lcs[p, q] == if p <= i || (p == i + 1 && q <= j) then Lcs.Length(oldKeys[..p], newKeys[..q]) else 0
      {
        assert Init(oldKeys[..i + 1]) == oldKeys[..i] && Init(newKeys[..j + 1]) == newKeys[..j];
        lcs[i + 1, j + 1] :=
          if oldKeys[i] == newKeys[j] then lcs[i, j] + 1
          else if lcs[i, j + 1] < lcs[i + 1, j] then lcs[i + 1, j] else lcs[i, j + 1];
      }
    }
  }

  /** The cell values the backward walk compares. */
  ghost function Cell<K>(oldKeys: seq<K>, newKeys: seq<K>, i: nat, j: nat): nat
    requires i <= |oldKeys| && j <= |newKeys|
  {
    Lcs.Length(oldKeys[..i], newKeys[..j])
  }

  lemma {:induction false} CellRecurrence<K>(oldKeys: seq<K>, newKeys: seq<K>, i: nat, j: nat)
    requires 0 < i <= |oldKeys| && 0 < j <= |newKeys|
    ensures oldKeys[i - 1] == newKeys[j - 1] ==>
      Cell(oldKeys, newKeys, i, j) == Cell(oldKeys, newKeys, i - 1, j - 1) + 1
    ensures oldKeys[i - 1] != newKeys[j - 1] ==>
      Cell(oldKeys, newKeys, i, j) ==
        if Cell(oldKeys, newKeys, i - 1, j) < Cell(oldKeys, newKeys, i, j - 1)
        then Cell(oldKeys, newKeys, i, j - 1) else Cell(oldKeys, newKeys, i - 1, j)
    ensures Cell(oldKeys, newKeys, i - 1, j - 1) <= Cell(oldKeys, newKeys, i, j - 1)
  {
    assert Init(oldKeys[..i]) == oldKeys[..i - 1] && Init(newKeys[..j]) == newKeys[..j - 1];
    Lcs.LengthMonotone(oldKeys[..i], newKeys[..j - 1]);
  }

  /** The steps `done` rebuild what is behind cell (i, j) at the cost the table says, removals before inserts. */
  ghost predicate Walked<K>(oldKeys: seq<K>, newKeys: seq<K>, i: nat, j: nat, done: seq<Step>) {
    && i <= |oldKeys| && j <= |newKeys|
    && Aligns(done, oldKeys[i..], newKeys[j..])
    && Edits(done) + i + j - 2 * Cell(oldKeys, newKeys, i, j) ==
      |oldKeys| + |newKeys| - 2 * Lcs.Length(oldKeys, newKeys)
    && DropsFirst(done)
    && (done != [] && done[0].Drop? && j > 0 ==> Cell(oldKeys, newKeys, i, j - 1) < Cell(oldKeys, newKeys, i, j))
  }

  lemma {:induction false} DropsFirstInFront(done: seq<Step>, s: Step)
    requires DropsFirst(done) && (s.Add? && done != [] ==> !done[0].Drop?)
    ensures DropsFirst([s] + done)
  {
    assert forall k :: 0 < k < |[s] + done| ==> ([s] + done)[k] == done[k - 1];
  }

  lemma {:induction false} WalkKeep<K>(oldKeys: seq<K>, newKeys: seq<K>, i: nat, j: nat, done: seq<Step>)
    requires Walked(oldKeys, newKeys, i, j, done) && i > 0 && j > 0 && oldKeys[i - 1] == newKeys[j - 1]
    ensures Walked(oldKeys, newKeys, i - 1, j - 1, [Keep] + done)
  {
    CellRecurrence(oldKeys, newKeys, i, j);
    assert oldKeys[i - 1..][1..] == oldKeys[i..] && newKeys[j - 1..][1..] == newKeys[j..];
    assert ([Keep] + done)[1..] == done;
    DropsFirstInFront(done, Keep);
  }

  lemma {:induction false} WalkAdd<K>(oldKeys: seq<K>, newKeys: seq<K>, i: nat, j: nat, done: seq<Step>)
    requires Walked(oldKeys, newKeys, i, j, done) && j > 0
    requires i > 0 ==>
      oldKeys[i - 1] != newKeys[j - 1] && Cell(oldKeys, newKeys, i, j - 1) >= Cell(oldKeys, newKeys, i - 1, j)
    ensures Walked(oldKeys, newKeys, i, j - 1, [Add] + done)
  {
    if i > 0 {
      CellRecurrence(oldKeys, newKeys, i, j);
    }
    assert newKeys[j - 1..][1..] == newKeys[j..];
    assert ([Add] + done)[1..] == done;
    DropsFirstInFront(done, Add);
  }

  lemma {:induction false} WalkDrop<K>(oldKeys: seq<K>, newKeys: seq<K>, i: nat, j: nat, done: seq<Step>)
    requires Walked(oldKeys, newKeys, i, j, done) && i > 0
    requires j > 0 ==>
      oldKeys[i - 1] != newKeys[j - 1] && Cell(oldKeys, newKeys, i, j - 1) < Cell(oldKeys, newKeys, i - 1, j)
    ensures Walked(oldKeys, newKeys, i - 1, j, [Drop] + done)
  {
    if j > 0 {
      CellRecurrence(oldKeys, newKeys, i, j);
    }
    assert oldKeys[i - 1..][1..] == oldKeys[i..];
    assert ([Drop] + done)[1..] == done;
    DropsFirstInFront(done, Drop);
  }

  method WalkBack<K(==)>(oldKeys: seq<K>, newKeys: seq<K>, lcs: array2<nat>) returns (forward: seq<Step>)
    requires lcs.Length0 == |oldKeys| + 1 && lcs.Length1 == |newKeys| + 1
    requires forall i, j :: 0 <= i <= |oldKeys| && 0 <= j <= |newKeys| ==>
      lcs[i, j] == Lcs.Length(oldKeys[..i], newKeys[..j])
    ensures Aligns(forward, oldKeys, newKeys)
    ensures Edits(forward) == |oldKeys| + |newKeys| - 2 * Lcs.Length(oldKeys, newKeys)
    ensures DropsFirst(forward)
  {
    var steps: seq<Step> := [];
    var i, j := |oldKeys|, |newKeys|;
    assert oldKeys[..i] == oldKeys && newKeys[..j] == newKeys;
    while i > 0 || j > 0
      invariant 0 <= i <= |oldKeys| && 0 <= j <= |newKeys|
      invariant Walked(oldKeys, newKeys, i, j, Reverse(steps))
      decreases i + j
    {
      if i > 0 && j > 0 && oldKeys[i - 1] == newKeys[j - 1] {
        WalkKeep(oldKeys, newKeys, i, j, Reverse(steps));
        ReverseAppend(steps, Keep);
        steps := steps + [Keep];
        i := i - 1;
        j := j - 1;
      } else if j > 0 && (i == 0 || lcs[i, j - 1] >= lcs[i - 1, j]) {
        WalkAdd(oldKeys, newKeys, i, j, Reverse(steps));
        ReverseAppend(steps, Add);
        steps := steps + [Add];
        j := j - 1;
      } else {
        WalkDrop(oldKeys, newKeys, i, j, Reverse(steps));
        ReverseAppend(steps, Drop);
        steps := steps + [Drop];
        i := i - 1;
      }
    }
    assert oldKeys[0..] == oldKeys && newKeys[0..] == newKeys;
    forward := Reverse(steps);
  }

  /** The operations so far have turned the first `oldIdx` old keys into the first `newIdx` new ones. */
  ghost predicate Emitted<T, K>(steps: seq<Step>, k: nat, ops: seq<RowOp<T>>, oldKeys: seq<K>, oldIdx: nat,
                                newKeys: seq<K>, newIdx: nat, newRows: seq<T>) {
    && k <= |steps| && oldIdx <= |oldKeys| && newIdx <= |newKeys| == |newRows|
    && Aligns(steps[k..], oldKeys[oldIdx..], newKeys[newIdx..])
    && InsertsLand(ops, newRows) && (forall i :: 0 <= i < |ops| ==> !ops[i].Move?)
    && Runs(|oldKeys|, ops, |newKeys|)
    && ReplayAs(oldKeys, ops, newKeys) == newKeys[..newIdx] + oldKeys[oldIdx..]
    && |ops| + Edits(steps[k..]) == Edits(steps)
  }

  lemma {:induction false} EmitKeep<T, K>(steps: seq<Step>, k: nat, ops: seq<RowOp<T>>, oldKeys: seq<K>, oldIdx: nat,
                       newKeys: seq<K>, newIdx: nat, newRows: seq<T>)
    requires Emitted(steps, k, ops, oldKeys, oldIdx, newKeys, newIdx, newRows) && k < |steps| && steps[k].Keep?
    ensures Emitted(steps, k + 1, ops, oldKeys, oldIdx + 1, newKeys, newIdx + 1, newRows)
  {
    assert steps[k..][1..] == steps[k + 1..];
    assert oldKeys[oldIdx..][1..] == oldKeys[oldIdx + 1..] && newKeys[newIdx..][1..] == newKeys[newIdx + 1..];
    assert oldKeys[oldIdx..][0] == newKeys[newIdx..][0];
    assert newKeys[..newIdx] + oldKeys[oldIdx..] == newKeys[..newIdx + 1] + oldKeys[oldIdx + 1..];
  }

  lemma {:induction false} EmitDrop<T, K>(steps: seq<Step>, k: nat, ops: seq<RowOp<T>>, oldKeys: seq<K>, oldIdx: nat,
                       newKeys: seq<K>, newIdx: nat, newRows: seq<T>)
    requires Emitted(steps, k, ops, oldKeys, oldIdx, newKeys, newIdx, newRows) && k < |steps| && steps[k].Drop?
    ensures Emitted(steps, k + 1, ops + [Remove(newIdx)], oldKeys, oldIdx + 1, newKeys, newIdx, newRows)
  {
    assert steps[k..][1..] == steps[k + 1..];
    assert oldKeys[oldIdx..][1..] == oldKeys[oldIdx + 1..];
    assert RemoveAt(newKeys[..newIdx] + oldKeys[oldIdx..], newIdx) == newKeys[..newIdx] + oldKeys[oldIdx + 1..];
    RunOne(oldKeys, ops, newKeys, Remove(newIdx));
  }

  lemma {:induction false} EmitAdd<T, K>(steps: seq<Step>, k: nat, ops: seq<RowOp<T>>, oldKeys: seq<K>, oldIdx: nat,
                      newKeys: seq<K>, newIdx: nat, newRows: seq<T>)
    requires Emitted(steps, k, ops, oldKeys, oldIdx, newKeys, newIdx, newRows) && k < |steps| && steps[k].Add?
    ensures newIdx < |newRows|
    ensures Emitted(steps, k + 1, ops + [Insert(newIdx, newRows[newIdx])], oldKeys, oldIdx, newKeys, newIdx + 1,
      newRows)
  {
    assert steps[k..][1..] == steps[k + 1..];
    assert newKeys[newIdx..][1..] == newKeys[newIdx + 1..];
    assert InsertAt(newKeys[..newIdx] + oldKeys[oldIdx..], newIdx, newKeys[newIdx]) ==
      newKeys[..newIdx + 1] + oldKeys[oldIdx..];
    RunOne(oldKeys, ops, newKeys, Insert(newIdx, newRows[newIdx]));
  }

  /** After `k` steps no insert is followed by a removal right behind it, nor can the next step cause one. */
  ghost predicate Ordered<T>(steps: seq<Step>, k: nat, ops: seq<RowOp<T>>, pos: nat) {
    && k <= |steps|
    && RemovesBeforeInserts(ops) && InsertsAscend(ops)
    && (forall i :: 0 <= i < |ops| && ops[i].Insert? ==> ops[i].at < pos)
    && (k > 0 && ops != [] && Last(ops).Insert? ==>
          match steps[k - 1]
          case Keep => Last(ops).at + 1 < pos
          case Drop => false
          case Add => Last(ops).at < pos)
    && (k == 0 ==> ops == [])
  }

  lemma {:induction false} OrderedStep<T>(steps: seq<Step>, k: nat, ops: seq<RowOp<T>>, pos: nat,
      emitted: seq<RowOp<T>>)
    requires DropsFirst(steps) && Ordered(steps, k, ops, pos) && k < |steps|
    requires match steps[k]
             case Keep => emitted == []
             case Drop => emitted == [Remove(pos)]
             case Add => |emitted| == 1 && emitted[0].Insert? && emitted[0].at == pos
    ensures Ordered(steps, k + 1, ops + emitted, if steps[k].Drop? then pos else pos + 1)
  {
    assert k > 0 ==> !(steps[k - 1].Add? && steps[(k - 1) + 1].Drop?);
  }

  method Emit<T, K(==)>(steps: seq<Step>, ghost oldKeys: seq<K>, newKeys: seq<K>, newRows: seq<T>)
    returns (ops: seq<RowOp<T>>)
    requires |newKeys| == |newRows|
    requires Aligns(steps, oldKeys, newKeys) && DropsFirst(steps)
    ensures Emitted(steps, |steps|, ops, oldKeys, |oldKeys|, newKeys, |newKeys|, newRows)
    ensures RemovesBeforeInserts(ops) && InsertsAscend(ops)
  {
    ops := [];
    var pos, newIdx := 0, 0;
    ghost var oldIdx := 0;
    assert steps[0..] == steps && oldKeys[0..] == oldKeys && newKeys[0..] == newKeys;
    for k := 0 to |steps|
      invariant pos == newIdx
      invariant Emitted(steps, k, ops, oldKeys, oldIdx, newKeys, newIdx, newRows)
      invariant Ordered(steps, k, ops, pos)
    {
      match steps[k] {
        case Keep =>
          EmitKeep(steps, k, ops, oldKeys, oldIdx, newKeys, newIdx, newRows);
          OrderedStep(steps, k, ops, pos, []);
          assert ops + [] == ops;
          pos := pos + 1;
          oldIdx := oldIdx + 1;
        case Drop =>
          EmitDrop(steps, k, ops, oldKeys, oldIdx, newKeys, newIdx, newRows);
          OrderedStep(steps, k, ops, pos, [Remove(pos)]);
          ops := ops + [Remove(pos)];
          oldIdx := oldIdx + 1;
        case Add =>
          EmitAdd(steps, k, ops, oldKeys, oldIdx, newKeys, newIdx, newRows);
          OrderedStep(steps, k, ops, pos, [Insert(pos, newRows[newIdx])]);
          ops := ops + [Insert(pos, newRows[newIdx])];
          pos := pos + 1;
      }
      if steps[k].Keep? || steps[k].Add? {
        newIdx := newIdx + 1;
      }
    }
    assert oldKeys[oldIdx..] == [] && newKeys[newIdx..] == [];
  }

  method DiffLcs<T, K(==)>(oldKeys: seq<K>, newKeys: seq<K>, newRows: seq<T>) returns (ops: seq<RowOp<T>>)
    requires |newKeys| == |newRows|
    ensures InsertsLand(ops, newRows) && forall k :: 0 <= k < |ops| ==> !ops[k].Move?
    ensures Runs(|oldKeys|, ops, |newKeys|) && ReplayAs(oldKeys, ops, newKeys) == newKeys
    ensures |ops| == |oldKeys| + |newKeys| - 2 * Lcs.Length(oldKeys, newKeys)
    ensures RemovesBeforeInserts(ops) && InsertsAscend(ops)
  {
    var lcs := FillTable(oldKeys, newKeys);
    var steps := WalkBack(oldKeys, newKeys, lcs);
    ops := Emit(steps, oldKeys, newKeys, newRows);
    assert steps[|steps|..] == [] && newKeys[..|newKeys|] + oldKeys[|oldKeys|..] == newKeys;
  }
}
