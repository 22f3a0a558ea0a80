/**
  The script for duplicate-free keys: a working list is brought into shape position by position,
  by inserts and by moves toward the front, and its surplus is popped.
 */
module UniqueDiff {
  import opened Sequences
  import opened RowOps

  // ---------- What the script is, in closed form ----------

  /**
    The operation for position `t` of the new list, read off the two key lists alone.
    The keys still waiting are the old ones not yet placed, in their old order.
   */
  function OpFor<T, K(==)>(oldKeys: seq<K>, newKeys: seq<K>, newRows: seq<T>, t: nat): seq<RowOp<T>>
    requires t < |newKeys| == |newRows|
    requires Unique(newKeys)
  {
    var waiting := Without(oldKeys, newKeys[..t]);
    if newKeys[t] !in oldKeys then [Insert(t, newRows[t])]
    else
      assert newKeys[t] in waiting by { WithoutElement(oldKeys, newKeys[..t], newKeys[t]); }
      if waiting[0] == newKeys[t] then [] else [Move(t + IndexOf(waiting, newKeys[t]), t)]
  }

  function OpsUpTo<T, K(==)>(oldKeys: seq<K>, newKeys: seq<K>, newRows: seq<T>, t: nat): seq<RowOp<T>>
    requires t <= |newKeys| == |newRows|
    requires Unique(newKeys)
  {
    if t == 0 then [] else OpsUpTo(oldKeys, newKeys, newRows, t - 1) + OpFor(oldKeys, newKeys, newRows, t - 1)
  }

  /** `count` removals from the end that leave a list of length `keep`. */
  function DropTail<T>(keep: nat, count: nat): (r: seq<RowOp<T>>)
    ensures |r| == count
  {
    if count == 0 then [] else [Remove(keep + count - 1)] + DropTail(keep, count - 1)
  }

  lemma {:induction false} DropTailRemoves<T>(keep: nat, count: nat, i: nat)
    requires i < count
    ensures DropTail<T>(keep, count)[i] == Remove(keep + count - 1 - i)
  {
    if i > 0 {
      DropTailRemoves<T>(keep, count - 1, i - 1);
    }
  }

  function UniqueScript<T, K(==)>(oldKeys: seq<K>, newKeys: seq<K>, newRows: seq<T>): seq<RowOp<T>>
    requires |newKeys| == |newRows| && Unique(newKeys)
  {
    OpsUpTo(oldKeys, newKeys, newRows, |newKeys|) + DropTail(|newKeys|, |Without(oldKeys, newKeys)|)
  }

  /** The working list once the first `t` positions are settled. */
  function Working<K(==)>(oldKeys: seq<K>, newKeys: seq<K>, t: nat): seq<K>
    requires t <= |newKeys|
  {
    newKeys[..t] + Without(oldKeys, newKeys[..t])
  }

  lemma {:induction false} InsertBehind<K>(front: seq<K>, back: seq<K>, x: K)
    ensures InsertAt(front + back, |front|, x) == (front + [x]) + back
  {
  }

  lemma {:induction false} PullForward<K>(front: seq<K>, back: seq<K>, i: nat)
    requires i < |back|
    ensures InsertAt(RemoveAt(front + back, |front| + i), |front|, back[i]) ==
      (front + [back[i]]) + (back[..i] + back[i + 1..])
  {
    assert RemoveAt(front + back, |front| + i) == front + (back[..i] + back[i + 1..]);
    InsertBehind(front, back[..i] + back[i + 1..], back[i]);
  }

  lemma {:induction false} WorkingWithFreshKey<K>(oldKeys: seq<K>, newKeys: seq<K>, t: nat)
    requires t < |newKeys| && Unique(oldKeys) && newKeys[t] !in oldKeys
    ensures newKeys[t] !in Without(oldKeys, newKeys[..t])
    ensures Working(oldKeys, newKeys, t + 1) == InsertAt(Working(oldKeys, newKeys, t), t, newKeys[t])
  {
    assert newKeys[..t + 1] == newKeys[..t] + [newKeys[t]];
    WithoutElement(oldKeys, newKeys[..t], newKeys[t]);
    WithoutOneMore(oldKeys, newKeys[..t], newKeys[t]);
    InsertBehind(newKeys[..t], Without(oldKeys, newKeys[..t]), newKeys[t]);
  }

  lemma {:induction false} WorkingWithOldKey<K>(oldKeys: seq<K>, newKeys: seq<K>, t: nat)
    requires t < |newKeys| && Unique(oldKeys) && Unique(newKeys) && newKeys[t] in oldKeys
    ensures newKeys[t] in Without(oldKeys, newKeys[..t])
    ensures Working(oldKeys, newKeys, t + 1) ==
      var from := t + IndexOf(Without(oldKeys, newKeys[..t]), newKeys[t]);
      InsertAt(RemoveAt(Working(oldKeys, newKeys, t), from), t, newKeys[t])
  {
    var waiting := Without(oldKeys, newKeys[..t]);
    assert newKeys[..t + 1] == newKeys[..t] + [newKeys[t]];
    assert newKeys[t] !in newKeys[..t];
    WithoutElement(oldKeys, newKeys[..t], newKeys[t]);
    WithoutOneMore(oldKeys, newKeys[..t], newKeys[t]);
    PullForward(newKeys[..t], waiting, IndexOf(waiting, newKeys[t]));
  }

  lemma {:induction false} HeadInPlace<K>(front: seq<K>, waiting: seq<K>)
    requires waiting != []
    ensures IndexOf(waiting, waiting[0]) == 0
    ensures (front + [waiting[0]]) + (waiting[..0] + waiting[1..]) == front + waiting
  {
    assert [waiting[0]] + waiting[1..] == waiting;
  }

  lemma {:induction false} WorkingWithKeyInPlace<K>(oldKeys: seq<K>, newKeys: seq<K>, t: nat)
    requires t < |newKeys| && Unique(oldKeys)
    requires Without(oldKeys, newKeys[..t]) != [] && Without(oldKeys, newKeys[..t])[0] == newKeys[t]
    ensures Working(oldKeys, newKeys, t + 1) == Working(oldKeys, newKeys, t)
  {
    assert newKeys[..t + 1] == newKeys[..t] + [newKeys[t]];
    WithoutOneMore(oldKeys, newKeys[..t], newKeys[t]);
    HeadInPlace(newKeys[..t], Without(oldKeys, newKeys[..t]));
  }

  lemma {:induction false} RestIsWaiting<K>(oldKeys: seq<K>, newKeys: seq<K>, t: nat)
    requires t < |newKeys| && Unique(newKeys)
    ensures Working(oldKeys, newKeys, t)[t..] == Without(oldKeys, newKeys[..t])
    ensures newKeys[t] in Without(oldKeys, newKeys[..t]) <==> newKeys[t] in oldKeys
  {
    var front, back := newKeys[..t], Without(oldKeys, newKeys[..t]);
    assert (front + back)[|front|..] == back;
    assert newKeys[t] !in front;
    WithoutElement(oldKeys, front, newKeys[t]);
  }

  lemma {:induction false} FoundBehind<K>(front: seq<K>, back: seq<K>, x: K)
    ensures IndexFrom(front + back, x, |front|) == |front| + IndexFrom(back, x, 0)
  {
    var i, j := IndexFrom(front + back, x, |front|), IndexFrom(back, x, 0);
    assert i < |front + back| ==> (front + back)[i] == back[i - |front|];
    assert j < |back| ==> (front + back)[|front| + j] == back[j];
  }

  /** Searching the working list from position `t` on searches the waiting keys. */
  lemma {:induction false} SearchIsWaiting<K>(oldKeys: seq<K>, newKeys: seq<K>, t: nat)
    requires t < |newKeys| && Unique(newKeys)
    ensures var w, waiting := Working(oldKeys, newKeys, t), Without(oldKeys, newKeys[..t]);
      && |w| == t + |waiting| && IndexFrom(w, newKeys[t], t) == t + IndexFrom(waiting, newKeys[t], 0)
      && (waiting != [] ==> w[t] == waiting[0])
      && (newKeys[t] in oldKeys <==> IndexFrom(waiting, newKeys[t], 0) < |waiting|)
  {
    FoundBehind(newKeys[..t], Without(oldKeys, newKeys[..t]), newKeys[t]);
    RestIsWaiting(oldKeys, newKeys, t);
  }

  lemma {:induction false} KeyInPlace<T, K>(oldKeys: seq<K>, newKeys: seq<K>, newRows: seq<T>, t: nat)
    requires t < |newKeys| == |newRows| && Unique(oldKeys) && Unique(newKeys)
    requires var w := Working(oldKeys, newKeys, t); t < |w| && w[t] == newKeys[t]
    ensures Working(oldKeys, newKeys, t) == Working(oldKeys, newKeys, t + 1)
    ensures OpFor(oldKeys, newKeys, newRows, t) == []
  {
    SearchIsWaiting(oldKeys, newKeys, t);
    WorkingWithKeyInPlace(oldKeys, newKeys, t);
  }

  lemma {:induction false} KeyFurtherBack<T, K>(oldKeys: seq<K>, newKeys: seq<K>, newRows: seq<T>, t: nat, from: nat)
    requires t < |newKeys| == |newRows| && Unique(oldKeys) && Unique(newKeys)
    requires var w := Working(oldKeys, newKeys, t); from == IndexFrom(w, newKeys[t], t) < |w| && from > t
    ensures InsertAt(RemoveAt(Working(oldKeys, newKeys, t), from), t, newKeys[t]) == Working(oldKeys, newKeys, t + 1)
    ensures OpFor(oldKeys, newKeys, newRows, t) == [Move(from, t)]
  {
    SearchIsWaiting(oldKeys, newKeys, t);
    WorkingWithOldKey(oldKeys, newKeys, t);
  }

  lemma {:induction false} KeyIsFresh<T, K>(oldKeys: seq<K>, newKeys: seq<K>, newRows: seq<T>, t: nat)
    requires t < |newKeys| == |newRows| && Unique(oldKeys) && Unique(newKeys)
    requires var w := Working(oldKeys, newKeys, t); IndexFrom(w, newKeys[t], t) == |w|
    ensures InsertAt(Working(oldKeys, newKeys, t), t, newKeys[t]) == Working(oldKeys, newKeys, t + 1)
    ensures OpFor(oldKeys, newKeys, newRows, t) == [Insert(t, newRows[t])]
  {
    SearchIsWaiting(oldKeys, newKeys, t);
    WorkingWithFreshKey(oldKeys, newKeys, t);
  }

  /** One round of the target loop: settles position `target` of the working list. */
  method SettlePosition<T, K(==)>(ghost oldKeys: seq<K>, newKeys: seq<K>, newRows: seq<T>, target: nat,
                                  working: seq<K>) returns (next: seq<K>, op: seq<RowOp<T>>)
    requires target < |newKeys| == |newRows|
    requires Unique(oldKeys) && Unique(newKeys)
    requires working == Working(oldKeys, newKeys, target)
    ensures next == Working(oldKeys, newKeys, target + 1)
    ensures op == OpFor(oldKeys, newKeys, newRows, target)
  {
    var key := newKeys[target];
    if target < |working| && working[target] == key {
      KeyInPlace(oldKeys, newKeys, newRows, target);
      next, op := working, [];
    } else {
      var from := IndexFrom(working, key, target);
      if from < |working| {
        KeyFurtherBack(oldKeys, newKeys, newRows, target, from);
        var moved := working[from];
        next := InsertAt(RemoveAt(working, from), target, moved);
        op := [Move(from, target)];
      } else {
        KeyIsFresh(oldKeys, newKeys, newRows, target);
        next := InsertAt(working, target, key);
        op := [Insert(target, newRows[target])];
      }
    }
  }

  /** The pop loop: drops the surplus of the working list, last key first. */
  method PopSurplus<T, K>(keep: nat, surplus: seq<K>, settled: seq<RowOp<T>>) returns (ops: seq<RowOp<T>>)
    requires |surplus| >= keep
    ensures ops == settled + DropTail(keep, |surplus| - keep)
  {
    var working := surplus;
    ops := settled;
    while |working| > keep
      invariant |working| >= keep
      invariant ops + DropTail(keep, |working| - keep) == settled + DropTail(keep, |surplus| - keep)
    {
      var at := |working| - 1;
      ghost var rest := DropTail<T>(keep, at - keep);
      assert ops + ([Remove(at)] + rest) == (ops + [Remove(at)]) + rest;
      working := working[..at];
      ops := ops + [Remove(at)];
    }
    assert ops + [] == ops;
  }

  method DiffUnique<T, K(==)>(oldKeys: seq<K>, newKeys: seq<K>, newRows: seq<T>) returns (ops: seq<RowOp<T>>)
    requires |newKeys| == |newRows|
    requires Unique(oldKeys) && Unique(newKeys)
    ensures ops == UniqueScript(oldKeys, newKeys, newRows)
  {
    var working := oldKeys;
    ops := [];
    WithoutNothing(oldKeys, newKeys[..0]);
    for target := 0 to |newKeys|
      invariant working == Working(oldKeys, newKeys, target)
      invariant ops == OpsUpTo(oldKeys, newKeys, newRows, target)
    {
      var op;
      working, op := SettlePosition(oldKeys, newKeys, newRows, target, working);
      ops := ops + op;
    }
    assert newKeys[..|newKeys|] == newKeys;
    ops := PopSurplus(|newKeys|, working, ops);
  }

  // ---------- Replaying the script ----------

  /** One position of the script does to the working list what the closed form says. */
  lemma {:induction false} OpForStep<T, K>(oldKeys: seq<K>, newKeys: seq<K>, newRows: seq<T>, t: nat)
    requires t < |newKeys| == |newRows| && Unique(oldKeys) && Unique(newKeys)
    requires OpFor(oldKeys, newKeys, newRows, t) != []
    ensures var op := OpFor(oldKeys, newKeys, newRows, t)[0];
      && OpFor(oldKeys, newKeys, newRows, t) == [op]
      && !op.Remove?
      && (op.Insert? ==> op.at == t)
      && Fits(|Working(oldKeys, newKeys, t)|, op)
      && Working(oldKeys, newKeys, t + 1) == Apply(Working(oldKeys, newKeys, t), Naming(op, newKeys))
  {
    RestIsWaiting(oldKeys, newKeys, t);
    if newKeys[t] !in oldKeys {
      WorkingWithFreshKey(oldKeys, newKeys, t);
    } else {
      WorkingWithOldKey(oldKeys, newKeys, t);
      var w, i := Working(oldKeys, newKeys, t), IndexOf(Without(oldKeys, newKeys[..t]), newKeys[t]);
      assert w[t + i] == w[t..][i] == newKeys[t];
    }
  }

  lemma {:induction false} NoOpForStep<T, K>(oldKeys: seq<K>, newKeys: seq<K>, newRows: seq<T>, t: nat)
    requires t < |newKeys| == |newRows| && Unique(oldKeys) && Unique(newKeys)
    requires OpFor(oldKeys, newKeys, newRows, t) == []
    ensures Working(oldKeys, newKeys, t + 1) == Working(oldKeys, newKeys, t)
  {
    RestIsWaiting(oldKeys, newKeys, t);
    WorkingWithKeyInPlace(oldKeys, newKeys, t);
  }

  /** The operations so far bring the old keys to `list` without removing any. */
  ghost predicate Places<T, K>(oldKeys: seq<K>, ops: seq<RowOp<T>>, newKeys: seq<K>, list: seq<K>) {
    Runs(|oldKeys|, ops, |newKeys|) && ReplayAs(oldKeys, ops, newKeys) == list && Removed(oldKeys, ops, newKeys) == []
  }

  lemma {:induction false} PlaceOne<T, K>(oldKeys: seq<K>, ops: seq<RowOp<T>>, newKeys: seq<K>, list: seq<K>,
      op: RowOp<T>)
    requires Places(oldKeys, ops, newKeys, list)
    requires !op.Remove? && Fits(|list|, op) && (op.Insert? ==> op.at < |newKeys|)
    ensures Places(oldKeys, ops + [op], newKeys, Apply(list, Naming(op, newKeys)))
  {
    RunOne(oldKeys, ops, newKeys, op);
  }

  lemma {:induction false} PlacePosition<T, K>(oldKeys: seq<K>, ops: seq<RowOp<T>>, newKeys: seq<K>, newRows: seq<T>,
      t: nat)
    requires t < |newKeys| == |newRows| && Unique(oldKeys) && Unique(newKeys)
    requires Places(oldKeys, ops, newKeys, Working(oldKeys, newKeys, t))
    ensures Places(oldKeys, ops + OpFor(oldKeys, newKeys, newRows, t), newKeys, Working(oldKeys, newKeys, t + 1))
  {
    var op := OpFor(oldKeys, newKeys, newRows, t);
    if op == [] {
      NoOpForStep(oldKeys, newKeys, newRows, t);
      assert ops + op == ops;
    } else {
      OpForStep(oldKeys, newKeys, newRows, t);
      PlaceOne(oldKeys, ops, newKeys, Working(oldKeys, newKeys, t), op[0]);
    }
  }

  lemma {:induction false} OpsUpToPlaces<T, K>(oldKeys: seq<K>, newKeys: seq<K>, newRows: seq<T>, t: nat)
    requires t <= |newKeys| == |newRows| && Unique(oldKeys) && Unique(newKeys)
    ensures Places(oldKeys, OpsUpTo(oldKeys, newKeys, newRows, t), newKeys, Working(oldKeys, newKeys, t))
  {
    if t == 0 {
      WithoutNothing(oldKeys, newKeys[..0]);
      assert Working(oldKeys, newKeys, 0) == oldKeys;
    } else {
      OpsUpToPlaces(oldKeys, newKeys, newRows, t - 1);
      PlacePosition(oldKeys, OpsUpTo(oldKeys, newKeys, newRows, t - 1), newKeys, newRows, t - 1);
    }
  }

  /** The operations so far bring the old keys to `front + back`, and have removed `gone`. */
  ghost predicate Leaves<T, K>(oldKeys: seq<K>, ops: seq<RowOp<T>>, front: seq<K>, back: seq<K>, gone: seq<K>) {
    && Runs(|oldKeys|, ops, |front|)
    && ReplayAs(oldKeys, ops, front) == front + back
    && Removed(oldKeys, ops, front) == gone
  }

  /** Popping one more key of the surplus. */
  lemma {:induction false} DropOneMore<T, K>(oldKeys: seq<K>, ops: seq<RowOp<T>>, front: seq<K>, back: seq<K>,
      gone: seq<K>)
    requires back != [] && Leaves(oldKeys, ops, front, back, gone)
    ensures Leaves(oldKeys, ops + [Remove(|front| + |back| - 1)], front, Init(back), gone + [Last(back)])
  {
    RunOne(oldKeys, ops, front, Remove(|front| + |back| - 1));
    assert RemoveAt(front + back, |front| + |back| - 1) == front + Init(back);
  }

  lemma {:induction false} DropTailFirst<T>(ops: seq<RowOp<T>>, keep: nat, count: nat)
    requires count > 0
    ensures ops + DropTail(keep, count) == (ops + [Remove(keep + count - 1)]) + DropTail(keep, count - 1)
  {
  }

  lemma {:induction false} ReverseFromEnd<K>(gone: seq<K>, back: seq<K>)
    requires back != []
    ensures gone + Reverse(back) == (gone + [Last(back)]) + Reverse(Init(back))
  {
    InitLast(back);
    ReverseAppend(Init(back), Last(back));
  }

  lemma {:induction false} DropTailRuns<T, K>(oldKeys: seq<K>, ops: seq<RowOp<T>>, front: seq<K>, back: seq<K>,
      gone: seq<K>)
    requires Leaves(oldKeys, ops, front, back, gone)
    ensures Leaves(oldKeys, ops + DropTail(|front|, |back|), front, [], gone + Reverse(back))
    decreases |back|
  {
    if back == [] {
      assert ops + [] == ops && gone + [] == gone;
    } else {
      var next := ops + [Remove(|front| + |back| - 1)];
      DropOneMore(oldKeys, ops, front, back, gone);
      DropTailRuns(oldKeys, next, front, Init(back), gone + [Last(back)]);
      DropTailFirst(ops, |front|, |back|);
      ReverseFromEnd(gone, back);
    }
  }

  /**
    Every index of the script is in bounds, the new key list comes out, and the keys removed are
    exactly the old ones that are gone, last one first.
   */
  lemma {:induction false} ScriptRuns<T, K>(oldKeys: seq<K>, newKeys: seq<K>, newRows: seq<T>)
    requires |newKeys| == |newRows| && Unique(oldKeys) && Unique(newKeys)
    ensures var ops := UniqueScript(oldKeys, newKeys, newRows);
      && Runs(|oldKeys|, ops, |newKeys|)
      && ReplayAs(oldKeys, ops, newKeys) == newKeys
      && Removed(oldKeys, ops, newKeys) == Reverse(Without(oldKeys, newKeys))
  {
    var surplus := Without(oldKeys, newKeys);
    OpsUpToPlaces(oldKeys, newKeys, newRows, |newKeys|);
    assert newKeys[..|newKeys|] == newKeys;
    DropTailRuns(oldKeys, OpsUpTo(oldKeys, newKeys, newRows, |newKeys|), newKeys, surplus, []);
    assert newKeys + [] == newKeys && [] + Reverse(surplus) == Reverse(surplus);
  }

  // ---------- What the script contains ----------

  function Target<T>(op: RowOp<T>): nat
    requires !op.Remove?
  {
    if op.Insert? then op.at else op.to
  }

  /** Every position calls for at most one operation, aimed at that position. */
  ghost predicate IsCalledFor<T, K>(oldKeys: seq<K>, newKeys: seq<K>, newRows: seq<T>, op: RowOp<T>)
    requires |newKeys| == |newRows| && Unique(newKeys)
  {
    !op.Remove? && Target(op) < |newKeys| && OpFor(oldKeys, newKeys, newRows, Target(op)) == [op]
  }

  lemma {:induction false} OpForIsCalledFor<T, K>(oldKeys: seq<K>, newKeys: seq<K>, newRows: seq<T>, t: nat)
    requires t < |newKeys| == |newRows| && Unique(newKeys)
    ensures var op := OpFor(oldKeys, newKeys, newRows, t);
      op == [] || (op == [op[0]] && IsCalledFor(oldKeys, newKeys, newRows, op[0]) && Target(op[0]) == t)
  {
    var op := OpFor(oldKeys, newKeys, newRows, t);
    if op != [] {
      assert op == [op[0]];
      assert Target(op[0]) == t;
    }
  }

  /** The operations come in increasing order of target, each the one its target calls for, all before `t`. */
  ghost predicate InOrder<T, K>(oldKeys: seq<K>, newKeys: seq<K>, newRows: seq<T>, ops: seq<RowOp<T>>, t: nat)
    requires |newKeys| == |newRows| && Unique(newKeys)
  {
    && (forall i :: 0 <= i < |ops| ==> IsCalledFor(oldKeys, newKeys, newRows, ops[i]) && Target(ops[i]) < t)
    && (forall i, j :: 0 <= i < j < |ops| ==> Target(ops[i]) < Target(ops[j]))
  }

  lemma {:induction false} InOrderOneMore<T, K>(oldKeys: seq<K>, newKeys: seq<K>, newRows: seq<T>, ops: seq<RowOp<T>>,
      op: seq<RowOp<T>>, t: nat)
    requires |newKeys| == |newRows| && Unique(newKeys) && InOrder(oldKeys, newKeys, newRows, ops, t)
    requires op == [] || (op == [op[0]] && IsCalledFor(oldKeys, newKeys, newRows, op[0]) && Target(op[0]) == t)
    ensures InOrder(oldKeys, newKeys, newRows, ops + op, t + 1)
  {
    var all := ops + op;
    forall i | 0 <= i < |all| ensures IsCalledFor(oldKeys, newKeys, newRows, all[i]) && Target(all[i]) < t + 1 {
      assert all[i] == if i < |ops| then ops[i] else op[0];
    }
    forall i, j | 0 <= i < j < |all| ensures Target(all[i]) < Target(all[j]) {
      assert all[i] == ops[i] && all[j] == if j < |ops| then ops[j] else op[0];
    }
  }

  lemma {:induction false} OpsUpToContents<T, K>(oldKeys: seq<K>, newKeys: seq<K>, newRows: seq<T>, t: nat)
    requires t <= |newKeys| == |newRows| && Unique(newKeys)
    ensures InOrder(oldKeys, newKeys, newRows, OpsUpTo(oldKeys, newKeys, newRows, t), t)
  {
    if t > 0 {
      var ops, op := OpsUpTo(oldKeys, newKeys, newRows, t - 1), OpFor(oldKeys, newKeys, newRows, t - 1);
      OpsUpToContents(oldKeys, newKeys, newRows, t - 1);
      OpForIsCalledFor(oldKeys, newKeys, newRows, t - 1);
      InOrderOneMore(oldKeys, newKeys, newRows, ops, op, t - 1);
    }
  }

  lemma {:induction false} OpsUpToIsComplete<T, K>(oldKeys: seq<K>, newKeys: seq<K>, newRows: seq<T>, t: nat, p: nat)
    requires p < t <= |newKeys| == |newRows| && Unique(newKeys)
    requires OpFor(oldKeys, newKeys, newRows, p) != []
    ensures OpFor(oldKeys, newKeys, newRows, p)[0] in OpsUpTo(oldKeys, newKeys, newRows, t)
  {
    if p < t - 1 {
      OpsUpToIsComplete(oldKeys, newKeys, newRows, t - 1, p);
    }
  }

  /** An old key that stands before `newKeys[t]` is still waiting when position `t` is settled. */
  ghost predicate Overtakes<K>(oldKeys: seq<K>, newKeys: seq<K>, t: nat)
    requires t < |newKeys|
  {
    newKeys[t] in oldKeys && exists p :: 0 <= p < IndexOf(oldKeys, newKeys[t]) && oldKeys[p] !in newKeys[..t]
  }

  lemma {:induction false} FirstWaiting<K>(xs: seq<K>, ys: seq<K>, x: K)
    requires x in xs && x !in ys
    ensures Without(xs, ys) != []
    ensures Without(xs, ys)[0] == x <==> forall p :: 0 <= p < IndexOf(xs, x) ==> xs[p] in ys
  {
    if xs[0] in ys {
      FirstWaiting(xs[1..], ys, x);
      assert IndexOf(xs, x) == IndexOf(xs[1..], x) + 1;
      assert forall p :: 0 <= p < IndexOf(xs[1..], x) ==> xs[1..][p] == xs[p + 1];
      if forall p :: 0 <= p < IndexOf(xs[1..], x) ==> xs[1..][p] in ys {
        forall p | 0 <= p < IndexOf(xs, x) ensures xs[p] in ys {
          if p > 0 { assert xs[1..][p - 1] in ys; }
        }
      }
    }
  }

  /** Position `t` calls for an insert, a move toward the front, or nothing. */
  lemma {:induction false} OpForKind<T, K>(oldKeys: seq<K>, newKeys: seq<K>, newRows: seq<T>, t: nat)
    requires t < |newKeys| == |newRows| && Unique(newKeys)
    ensures var op := OpFor(oldKeys, newKeys, newRows, t);
      if newKeys[t] !in oldKeys then op == [Insert(t, newRows[t])]
      else if Overtakes(oldKeys, newKeys, t) then |op| == 1 && op[0].Move? && t == op[0].to < op[0].from
      else op == []
  {
    if newKeys[t] in oldKeys {
      RestIsWaiting(oldKeys, newKeys, t);
      assert newKeys[t] !in newKeys[..t];
      FirstWaiting(oldKeys, newKeys[..t], newKeys[t]);
    }
  }

  lemma {:induction false} ScriptParts<T, K>(oldKeys: seq<K>, newKeys: seq<K>, newRows: seq<T>)
    requires |newKeys| == |newRows| && Unique(newKeys)
    ensures var placed, all := OpsUpTo(oldKeys, newKeys, newRows, |newKeys|), UniqueScript(oldKeys, newKeys, newRows);
      && |placed| <= |all|
      && (forall i :: 0 <= i < |placed| ==> all[i] == placed[i])
      && (forall i :: |placed| <= i < |all| ==> all[i].Remove? && all[i].at >= |newKeys|)
  {
    var placed, surplus := OpsUpTo(oldKeys, newKeys, newRows, |newKeys|), |Without(oldKeys, newKeys)|;
    forall i | 0 <= i < surplus ensures DropTail<T>(|newKeys|, surplus)[i] == Remove(|newKeys| + surplus - 1 - i) {
      DropTailRemoves<T>(|newKeys|, surplus, i);
    }
  }

  /**
    Each operation is called for: inserts bring only keys the old list does not have, each with its
    own row; moves take only retained keys that overtake a waiting one, toward the front; targets
    increase, so no key is placed twice; removals touch only the surplus, after everything is placed.
   */
  lemma {:induction false} ScriptIsNecessary<T, K>(oldKeys: seq<K>, newKeys: seq<K>, newRows: seq<T>)
    requires |newKeys| == |newRows| && Unique(oldKeys) && Unique(newKeys)
    ensures var ops := UniqueScript(oldKeys, newKeys, newRows);
      && InsertsLand(ops, newRows)
      && (forall i :: 0 <= i < |ops| && ops[i].Insert? ==> newKeys[ops[i].at] !in oldKeys)
      && (forall i :: 0 <= i < |ops| && ops[i].Move? ==>
            ops[i].to < ops[i].from && ops[i].to < |newKeys| && Overtakes(oldKeys, newKeys, ops[i].to))
      && (forall i, j :: 0 <= i < j < |ops| && !ops[j].Remove? ==>
            !ops[i].Remove? && Target(ops[i]) < Target(ops[j]))
      && (forall i :: 0 <= i < |ops| && ops[i].Remove? ==> ops[i].at >= |newKeys|)
  {
    OpsUpToContents(oldKeys, newKeys, newRows, |newKeys|);
    ScriptParts(oldKeys, newKeys, newRows);
    var ops := UniqueScript(oldKeys, newKeys, newRows);
    forall i | 0 <= i < |ops| && !ops[i].Remove?
      ensures Target(ops[i]) < |newKeys| && OpFor(oldKeys, newKeys, newRows, Target(ops[i])) == [ops[i]]
      ensures newKeys[Target(ops[i])] in oldKeys <==> ops[i].Move?
      ensures ops[i].Insert? ==> ops[i].row == newRows[ops[i].at]
      ensures ops[i].Move? ==> ops[i].to < ops[i].from && Overtakes(oldKeys, newKeys, ops[i].to)
    {
      assert ops[i] == OpsUpTo(oldKeys, newKeys, newRows, |newKeys|)[i];
      assert IsCalledFor(oldKeys, newKeys, newRows, ops[i]);
      OpForKind(oldKeys, newKeys, newRows, Target(ops[i]));
    }
  }

  /** Nothing is left out: every new key is inserted, and every key that overtakes a waiting one is moved. */
  lemma {:induction false} ScriptIsComplete<T, K>(oldKeys: seq<K>, newKeys: seq<K>, newRows: seq<T>, t: nat)
    requires t < |newKeys| == |newRows| && Unique(oldKeys) && Unique(newKeys)
    ensures newKeys[t] !in oldKeys ==> Insert(t, newRows[t]) in UniqueScript(oldKeys, newKeys, newRows)
    ensures Overtakes(oldKeys, newKeys, t) ==>
      exists from :: Move(from, t) in UniqueScript(oldKeys, newKeys, newRows)
  {
    ScriptParts(oldKeys, newKeys, newRows);
    OpForKind(oldKeys, newKeys, newRows, t);
    var op := OpFor(oldKeys, newKeys, newRows, t);
    if op != [] {
      OpsUpToIsComplete(oldKeys, newKeys, newRows, |newKeys|, t);
      assert op[0] in OpsUpTo(oldKeys, newKeys, newRows, |newKeys|);
      assert op[0] in UniqueScript(oldKeys, newKeys, newRows);
      if op[0].Move? {
        assert op[0] == Move(op[0].from, t);
      }
    }
  }

  // ---------- Growing lists ----------

  lemma {:induction false} WithoutPrefix<K>(xs: seq<K>, t: nat)
    requires Unique(xs) && t <= |xs|
    ensures Without(xs, xs[..t]) == xs[t..]
  {
    if t == 0 {
      WithoutNothing(xs, xs[..0]);
    } else {
      WithoutPrefix(xs, t - 1);
      assert xs[..t] == xs[..t - 1] + [xs[t - 1]];
      WithoutOneMore(xs, xs[..t - 1], xs[t - 1]);
      assert IndexOf(xs[t - 1..], xs[t - 1]) == 0;
      assert xs[t - 1..][..0] + xs[t - 1..][1..] == xs[t..];
    }
  }

  lemma {:induction false} OpForOfPrefix<T, K>(oldKeys: seq<K>, newKeys: seq<K>, newRows: seq<T>, t: nat)
    requires t < |newKeys| == |newRows| && Unique(newKeys) && oldKeys <= newKeys
    ensures OpFor(oldKeys, newKeys, newRows, t) == if t < |oldKeys| then [] else [Insert(t, newRows[t])]
  {
    if t < |oldKeys| {
      assert newKeys[..t] == oldKeys[..t];
      WithoutPrefix(oldKeys, t);
    } else {
      assert newKeys[t] !in oldKeys;
    }
  }

  lemma {:induction false} OpsUpToOfPrefix<T, K>(oldKeys: seq<K>, newKeys: seq<K>, newRows: seq<T>, t: nat)
    requires t <= |newKeys| == |newRows| && Unique(newKeys) && oldKeys <= newKeys
    ensures OpsUpTo(oldKeys, newKeys, newRows, t) ==
      if t <= |oldKeys| then [] else Appends(newRows[..t], |oldKeys|)
  {
    if t > 0 {
      OpsUpToOfPrefix(oldKeys, newKeys, newRows, t - 1);
      OpForOfPrefix(oldKeys, newKeys, newRows, t - 1);
      if t > |oldKeys| {
        assert Init(newRows[..t]) == newRows[..t - 1];
        AppendsOneMore(newRows[..t], |oldKeys|);
        assert t - 1 == |oldKeys| ==> Appends(newRows[..t - 1], |oldKeys|) == [];
      }
    }
  }

  /** A list that only grew at its end is followed by inserts at the end, and nothing else. */
  lemma {:induction false} GrowthIsAppends<T, K>(oldKeys: seq<K>, newKeys: seq<K>, newRows: seq<T>)
    requires |newKeys| == |newRows| && Unique(newKeys) && oldKeys <= newKeys
    ensures Unique(oldKeys)
    ensures UniqueScript(oldKeys, newKeys, newRows) == Appends(newRows, |oldKeys|)
  {
    OpsUpToOfPrefix(oldKeys, newKeys, newRows, |newKeys|);
    WithoutEverything(oldKeys, newKeys);
    assert newRows[..|newRows|] == newRows;
  }
}
