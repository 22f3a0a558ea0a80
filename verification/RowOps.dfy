/**
  Structural edits of a keyed list, and what replaying a script of them means.
  A script is replayed left to right on a working list, exactly as the list model does it.
 */
module RowOps {
  import opened Sequences

  datatype RowOp<T> = Insert(at: nat, row: T) | Remove(at: nat) | Move(from: nat, to: nat)

  /** The indices of `op` are usable on a list of length `len`: otherwise the vector would panic. */
  predicate Fits<T>(len: int, op: RowOp<T>) {
    match op
    case Insert(at, _) => at <= len
    case Remove(at) => at < len
    case Move(from, to) => from < len && to < len
  }

  function LengthAfter<T>(len: int, ops: seq<RowOp<T>>): int {
    if ops == [] then len
    else
      var before := LengthAfter(len, Init(ops));
      match Last(ops)
      case Insert(_, _) => before + 1
      case Remove(_) => before - 1
      case Move(_, _) => before
  }

  /** Every index of the script is in bounds at the moment its operation is replayed. */
  predicate InBounds<T>(len: nat, ops: seq<RowOp<T>>) {
    ops == [] || (InBounds(len, Init(ops)) && Fits(LengthAfter(len, Init(ops)), Last(ops)))
  }

  function InsertAt<T>(xs: seq<T>, at: nat, x: T): seq<T>
    requires at <= |xs|
  {
    xs[..at] + [x] + xs[at..]
  }

  function RemoveAt<T>(xs: seq<T>, at: nat): seq<T>
    requires at < |xs|
  {
    xs[..at] + xs[at + 1..]
  }

  function Apply<T>(xs: seq<T>, op: RowOp<T>): seq<T>
    requires Fits(|xs|, op)
  {
    match op
    case Insert(at, row) => InsertAt(xs, at, row)
    case Remove(at) => RemoveAt(xs, at)
    case Move(from, to) => InsertAt(RemoveAt(xs, from), to, xs[from])
  }

  function Replay<T>(xs: seq<T>, ops: seq<RowOp<T>>): (ys: seq<T>)
    requires InBounds(|xs|, ops)
    ensures |ys| == LengthAfter(|xs|, ops)
  {
    if ops == [] then xs else Apply(Replay(xs, Init(ops)), Last(ops))
  }

  lemma {:induction false} InBoundsPrefix<T>(len: nat, ops: seq<RowOp<T>>, k: nat)
    requires InBounds(len, ops) && k <= |ops|
    ensures InBounds(len, ops[..k])
    ensures k < |ops| ==> Fits(LengthAfter(len, ops[..k]), ops[k])
  {
    if k == |ops| {
      assert ops[..k] == ops;
    } else if k == |ops| - 1 {
      assert ops[..k] == Init(ops);
    } else {
      InBoundsPrefix(len, Init(ops), k);
      assert Init(ops)[..k] == ops[..k];
    }
  }

  /** Every insert puts its row directly at the row's place in the target list. */
  ghost predicate InsertsLand<T>(ops: seq<RowOp<T>>, rows: seq<T>) {
    forall i :: 0 <= i < |ops| && ops[i].Insert? ==> ops[i].at < |rows| && ops[i].row == rows[ops[i].at]
  }

  /** Inserts fill the target list from front to back, each position at most once. */
  ghost predicate InsertsAscend<T>(ops: seq<RowOp<T>>) {
    forall i, j :: 0 <= i < j < |ops| && ops[i].Insert? && ops[j].Insert? ==> ops[i].at < ops[j].at
  }

  lemma {:induction false} LengthAfterBound<T>(len: int, ops: seq<RowOp<T>>)
    ensures LengthAfter(len, ops) <= len + |ops|
    ensures LengthAfter(len, ops) == len + |ops| ==> forall i :: 0 <= i < |ops| ==> ops[i].Insert?
  {
    if ops != [] {
      LengthAfterBound(len, Init(ops));
      assert forall i :: 0 <= i < |ops| - 1 ==> ops[i] == Init(ops)[i];
    }
  }

  /** `count` inserts of the rows from position `start` on, each at the end of the list. */
  function Appends<T>(rows: seq<T>, start: nat): (r: seq<RowOp<T>>)
    requires start <= |rows|
    ensures |r| == |rows| - start
  {
    seq(|rows| - start, i requires 0 <= i < |rows| - start => Insert(start + i, rows[start + i]))
  }

  lemma {:induction false} AppendsOneMore<T>(rows: seq<T>, start: nat)
    requires rows != [] && start < |rows|
    ensures Appends(rows, start) == Appends(Init(rows), start) + [Insert(|rows| - 1, Last(rows))]
  {
  }

  // ---------- One script, replayed on rows, on keys, or on both ----------

  /** The operation `op`, inserting `targets[at]` if it inserts at `at`. */
  function Naming<T, U>(op: RowOp<T>, targets: seq<U>): RowOp<U>
    requires op.Insert? ==> op.at < |targets|
  {
    match op
    case Insert(at, _) => Insert(at, targets[at])
    case Remove(at) => Remove(at)
    case Move(from, to) => Move(from, to)
  }

  /** The script stays in bounds, and every insert lands within a target list of length `count`. */
  predicate Runs<T>(len: nat, ops: seq<RowOp<T>>, count: nat) {
    ops != [] ==>
      && Runs(len, Init(ops), count)
      && Fits(LengthAfter(len, Init(ops)), Last(ops))
      && (Last(ops).Insert? ==> Last(ops).at < count)
  }

  /** Replaying with every inserted row named by its target position: `targets` may be keys, rows or pairs. */
  function ReplayAs<T, U>(xs: seq<U>, ops: seq<RowOp<T>>, targets: seq<U>): (ys: seq<U>)
    requires Runs(|xs|, ops, |targets|)
    ensures |ys| == LengthAfter(|xs|, ops)
  {
    if ops == [] then xs else Apply(ReplayAs(xs, Init(ops), targets), Naming(Last(ops), targets))
  }

  /** The elements such a replay takes out for good, in the order in which they go. */
  function Removed<T, U>(xs: seq<U>, ops: seq<RowOp<T>>, targets: seq<U>): seq<U>
    requires Runs(|xs|, ops, |targets|)
  {
    if ops == [] then []
    else
      var before := Removed(xs, Init(ops), targets);
      if Last(ops).Remove? then before + [ReplayAs(xs, Init(ops), targets)[Last(ops).at]] else before
  }

  lemma {:induction false} RunOne<T, U>(xs: seq<U>, ops: seq<RowOp<T>>, targets: seq<U>, op: RowOp<T>)
    requires Runs(|xs|, ops, |targets|)
    requires Fits(|ReplayAs(xs, ops, targets)|, op) && (op.Insert? ==> op.at < |targets|)
    ensures Runs(|xs|, ops + [op], |targets|)
    ensures ReplayAs(xs, ops + [op], targets) == Apply(ReplayAs(xs, ops, targets), Naming(op, targets))
    ensures Removed(xs, ops + [op], targets)
         == Removed(xs, ops, targets) + if op.Remove? then [ReplayAs(xs, ops, targets)[op.at]] else []
  {
    InitOfAppend(ops, op);
  }

  /** With its own rows as targets the named replay is the plain one. */
  lemma {:induction false} ReplayOwnRows<T>(xs: seq<T>, ops: seq<RowOp<T>>, rows: seq<T>)
    requires InsertsLand(ops, rows) && Runs(|xs|, ops, |rows|)
    ensures InBounds(|xs|, ops) && Replay(xs, ops) == ReplayAs(xs, ops, rows)
  {
    if ops != [] {
      assert InsertsLand(Init(ops), rows);
      ReplayOwnRows(xs, Init(ops), rows);
    }
  }

  function Pair<K, T>(ks: seq<K>, ts: seq<T>): (r: seq<(K, T)>)
    requires |ks| == |ts|
    ensures |r| == |ks|
    ensures forall i :: 0 <= i < |r| ==> r[i] == (ks[i], ts[i])
  {
    seq(|ks|, i requires 0 <= i < |ks| => (ks[i], ts[i]))
  }

  lemma {:induction false} PairInserted<K, T>(ks: seq<K>, ts: seq<T>, at: nat, k: K, t: T)
    requires |ks| == |ts| && at <= |ks|
    ensures InsertAt(Pair(ks, ts), at, (k, t)) == Pair(InsertAt(ks, at, k), InsertAt(ts, at, t))
  {
  }

  lemma {:induction false} PairRemoved<K, T>(ks: seq<K>, ts: seq<T>, at: nat)
    requires |ks| == |ts| && at < |ks|
    ensures RemoveAt(Pair(ks, ts), at) == Pair(RemoveAt(ks, at), RemoveAt(ts, at))
  {
  }

  lemma {:induction false} ApplyPair<K, T, U>(op: RowOp<U>, ks: seq<K>, ts: seq<T>, newKs: seq<K>, newTs: seq<T>)
    requires |ks| == |ts| && |newKs| == |newTs|
    requires Fits(|ks|, op) && (op.Insert? ==> op.at < |newKs|)
    ensures |Apply(ks, Naming(op, newKs))| == |Apply(ts, Naming(op, newTs))|
    ensures Apply(Pair(ks, ts), Naming(op, Pair(newKs, newTs)))
         == Pair(Apply(ks, Naming(op, newKs)), Apply(ts, Naming(op, newTs)))
  {
    match op
    case Insert(at, _) => PairInserted(ks, ts, at, newKs[at], newTs[at]);
    case Remove(at) => PairRemoved(ks, ts, at);
    case Move(from, to) =>
      PairRemoved(ks, ts, from);
      PairInserted(RemoveAt(ks, from), RemoveAt(ts, from), to, ks[from], ts[from]);
  }

  /** A script acts on keys and rows alike: replaying it on pairs replays it on both components. */
  lemma {:induction false} ReplayPair<K, T, U>(ops: seq<RowOp<U>>, ks: seq<K>, ts: seq<T>, newKs: seq<K>, newTs: seq<T>)
    requires |ks| == |ts| && |newKs| == |newTs|
    requires Runs(|ks|, ops, |newKs|)
    ensures |ReplayAs(ks, ops, newKs)| == |ReplayAs(ts, ops, newTs)|
    ensures ReplayAs(Pair(ks, ts), ops, Pair(newKs, newTs)) == Pair(ReplayAs(ks, ops, newKs), ReplayAs(ts, ops, newTs))
  {
    if ops != [] {
      ReplayPair(Init(ops), ks, ts, newKs, newTs);
      ApplyPair(Last(ops), ReplayAs(ks, Init(ops), newKs), ReplayAs(ts, Init(ops), newTs), newKs, newTs);
    }
  }

  /** Operation `i` of the script inserts `y`. */
  ghost predicate Inserts<T, U>(ops: seq<RowOp<T>>, i: nat, targets: seq<U>, y: U) {
    i < |ops| && ops[i].Insert? && ops[i].at < |targets| && targets[ops[i].at] == y
  }

  /** Replaying never makes an element up: all come from the start list or from an insert. */
  lemma {:induction false} ReplayElements<T, U>(xs: seq<U>, ops: seq<RowOp<T>>, targets: seq<U>, p: nat)
    requires Runs(|xs|, ops, |targets|) && p < |ReplayAs(xs, ops, targets)|
    ensures var y := ReplayAs(xs, ops, targets)[p];
      y in xs || exists i: nat :: Inserts(ops, i, targets, y)
  {
    if ops != [] {
      var before, y := ReplayAs(xs, Init(ops), targets), ReplayAs(xs, ops, targets)[p];
      if Last(ops).Insert? && targets[Last(ops).at] == y {
        assert Inserts(ops, |ops| - 1, targets, y);
      } else {
        assert y in before;
        ReplayElements(xs, Init(ops), targets, IndexOf(before, y));
        if y !in xs {
          var i: nat :| Inserts(Init(ops), i, targets, y);
          assert Inserts(ops, i, targets, y);
        }
      }
    }
  }
}
