/**
  How short can a script be? The fewest operations that turn one key list into another are counted
  exactly, for all lists, and so is when each of the two algorithms of the diff needs no more.
 */
module Minimality {
  import opened Sequences
  import opened RowOps
  import opened UniqueDiff
  import Lcs

  // ---------- Counting contents ----------

  lemma {:induction false} SmallerMultiset<K>(a: multiset<K>, b: multiset<K>)
    requires a <= b
    ensures |a| <= |b|
  {
    assert b == a + (b - a);
  }

  lemma {:induction false} SpareElement<K>(a: multiset<K>, b: multiset<K>) returns (k: K)
    requires a <= b && |a| < |b|
    ensures a[k] < b[k]
  {
    assert b == a + (b - a);
    k :| k in b - a;
  }

  /** What two multisets share, and what only one of them has. */
  lemma {:induction false} SharedAndSpare<K>(a: multiset<K>, b: multiset<K>)
    ensures |a| == |a * b| + |a - b|
    ensures |a| + |b - a| == |b| + |a - b|
  {
    assert a == a * b + (a - b);
    assert a + (b - a) == b + (a - b);
  }

  lemma {:induction false} OneMoreInCount<K>(a: multiset<K>, b: multiset<K>, x: K)
    ensures |a - b| <= |(a + multiset{x}) - b| <= |a - b| + 1
  {
    SmallerMultiset(a - b, (a + multiset{x}) - b);
    SmallerMultiset((a + multiset{x}) - b, (a - b) + multiset{x});
  }

  lemma {:induction false} OneMoreInBoth<K>(a: multiset<K>, b: multiset<K>, x: K)
    ensures (a + multiset{x}) - (b + multiset{x}) == a - b
  {
  }

  lemma {:induction false} InsertedContents<K>(xs: seq<K>, at: nat, x: K)
    requires at <= |xs|
    ensures multiset(InsertAt(xs, at, x)) == multiset(xs) + multiset{x}
  {
    assert xs == xs[..at] + xs[at..];
  }

  lemma {:induction false} RemovedContents<K>(xs: seq<K>, at: nat)
    requires at < |xs|
    ensures multiset(xs) == multiset(RemoveAt(xs, at)) + multiset{xs[at]}
  {
    assert xs == xs[..at] + [xs[at]] + xs[at + 1..];
  }

  lemma {:induction false} InitContents<K>(s: seq<K>)
    requires s != []
    ensures multiset(s) == multiset(Init(s)) + multiset{Last(s)}
  {
    InitLast(s);
  }

  lemma {:induction false} SubsequenceContents<K>(c: seq<K>, s: seq<K>)
    requires Lcs.IsSubsequence(c, s)
    ensures multiset(c) <= multiset(s)
  {
    if c != [] {
      InitContents(s);
      InitContents(c);
      if Last(c) == Last(s) && Lcs.IsSubsequence(Init(c), Init(s)) {
        SubsequenceContents(Init(c), Init(s));
      } else {
        SubsequenceContents(c, Init(s));
      }
    }
  }

  // ---------- No script is shorter than this ----------

  /** How many elements of `ys` the list `xs` has no counterpart for. */
  function Surplus<K(==)>(ys: seq<K>, xs: seq<K>): nat {
    |multiset(ys) - multiset(xs)|
  }

  lemma {:induction false} InsertCost<K>(xs: seq<K>, before: seq<K>, d: seq<K>, at: nat, row: K)
    requires at <= |before| && Lcs.IsCommon(d, xs, before)
    ensures Lcs.IsCommon(d, xs, InsertAt(before, at, row))
    ensures Surplus(InsertAt(before, at, row), xs) <= Surplus(before, xs) + 1
  {
    assert RemoveAt(InsertAt(before, at, row), at) == before;
    Lcs.SubsequenceOfRemoved(d, InsertAt(before, at, row), at);
    InsertedContents(before, at, row);
    OneMoreInCount(multiset(before), multiset(xs), row);
  }

  lemma {:induction false} RemoveCost<K>(xs: seq<K>, before: seq<K>, d: seq<K>, at: nat) returns (c: seq<K>)
    requires at < |before| && Lcs.IsCommon(d, xs, before)
    ensures Lcs.IsCommon(c, xs, RemoveAt(before, at)) && |d| - 1 <= |c|
    ensures Surplus(RemoveAt(before, at), xs) <= Surplus(before, xs)
  {
    c := Lcs.SubsequenceAfterRemoval(d, before, at);
    Lcs.SubsequenceTransitive(c, d, xs);
    RemovedContents(before, at);
    OneMoreInCount(multiset(RemoveAt(before, at)), multiset(xs), before[at]);
  }

  lemma {:induction false} MoveCost<K>(xs: seq<K>, before: seq<K>, d: seq<K>, from: nat, to: nat) returns (c: seq<K>)
    requires from < |before| && to < |before| && Lcs.IsCommon(d, xs, before)
    ensures var after := InsertAt(RemoveAt(before, from), to, before[from]);
      Lcs.IsCommon(c, xs, after) && |d| - 1 <= |c| && Surplus(after, xs) == Surplus(before, xs)
  {
    var rest := RemoveAt(before, from);
    c := Lcs.SubsequenceAfterRemoval(d, before, from);
    Lcs.SubsequenceTransitive(c, d, xs);
    assert RemoveAt(InsertAt(rest, to, before[from]), to) == rest;
    Lcs.SubsequenceOfRemoved(c, InsertAt(rest, to, before[from]), to);
    RemovedContents(before, from);
    InsertedContents(rest, to, before[from]);
  }

  /** What a script pays for: the elements that do not stay in order, and the inserts that nothing made up for. */
  lemma {:induction false} ScriptCost<K>(xs: seq<K>, script: seq<RowOp<K>>)
    returns (c: seq<K>, inserts: nat, removes: nat, moves: nat)
    requires InBounds(|xs|, script)
    ensures inserts + removes + moves == |script|
    ensures |Replay(xs, script)| == |xs| + inserts - removes
    ensures Lcs.IsCommon(c, xs, Replay(xs, script)) && |Replay(xs, script)| - |c| <= inserts + moves
    ensures Surplus(Replay(xs, script), xs) <= inserts
  {
    if script == [] {
      c, inserts, removes, moves := xs, 0, 0, 0;
      Lcs.SelfSubsequence(xs);
    } else {
      var before := Replay(xs, Init(script));
      c, inserts, removes, moves := ScriptCost(xs, Init(script));
      match Last(script)
      case Insert(at, row) =>
        InsertCost(xs, before, c, at, row);
        inserts := inserts + 1;
      case Remove(at) =>
        c := RemoveCost(xs, before, c, at);
        removes := removes + 1;
      case Move(from, to) =>
        c := MoveCost(xs, before, c, from, to);
        moves := moves + 1;
    }
  }

  /** The fewest operations that can turn `oldKeys` into `newKeys`. */
  function Fewest<K(==)>(oldKeys: seq<K>, newKeys: seq<K>): int {
    |newKeys| - Lcs.Length(oldKeys, newKeys) + Surplus(oldKeys, newKeys)
  }

  /** Inserts, removals and moves alike, duplicates or not: no script is shorter. */
  lemma {:induction false} NoShorterScript<K>(oldKeys: seq<K>, newKeys: seq<K>, script: seq<RowOp<K>>)
    requires InBounds(|oldKeys|, script) && Replay(oldKeys, script) == newKeys
    ensures |script| >= Fewest(oldKeys, newKeys)
  {
    var c, inserts, removes, moves := ScriptCost(oldKeys, script);
    Lcs.LengthIsUpperBound(c, oldKeys, newKeys);
    SharedAndSpare(multiset(oldKeys), multiset(newKeys));
  }

  // ---------- Scripts without moves ----------

  lemma {:induction false} ReplayOnPrefix<K>(front: seq<K>, back: seq<K>, script: seq<RowOp<K>>)
    requires InBounds(|front|, script)
    ensures InBounds(|front + back|, script)
    ensures LengthAfter(|front + back|, script) == LengthAfter(|front|, script) + |back|
    ensures Replay(front + back, script) == Replay(front, script) + back
  {
    if script != [] {
      ReplayOnPrefix(front, back, Init(script));
      var w := Replay(front, Init(script));
      ApplyOnPrefix(w, back, Last(script));
    }
  }

  lemma {:induction false} InsertOnPrefix<K>(front: seq<K>, back: seq<K>, at: nat, x: K)
    requires at <= |front|
    ensures InsertAt(front + back, at, x) == InsertAt(front, at, x) + back
  {
  }

  lemma {:induction false} RemoveOnPrefix<K>(front: seq<K>, back: seq<K>, at: nat)
    requires at < |front|
    ensures RemoveAt(front + back, at) == RemoveAt(front, at) + back && (front + back)[at] == front[at]
  {
  }

  lemma {:induction false} ApplyOnPrefix<K>(front: seq<K>, back: seq<K>, op: RowOp<K>)
    requires Fits(|front|, op)
    ensures Fits(|front + back|, op) && Apply(front + back, op) == Apply(front, op) + back
  {
    match op
    case Insert(at, row) => InsertOnPrefix(front, back, at, row);
    case Remove(at) => RemoveOnPrefix(front, back, at);
    case Move(from, to) =>
      RemoveOnPrefix(front, back, from);
      InsertOnPrefix(RemoveAt(front, from), back, to, front[from]);
  }

  lemma {:induction false} ReplayOneMore<K>(xs: seq<K>, script: seq<RowOp<K>>, op: RowOp<K>)
    requires InBounds(|xs|, script) && Fits(|Replay(xs, script)|, op)
    ensures InBounds(|xs|, script + [op]) && Replay(xs, script + [op]) == Apply(Replay(xs, script), op)
  {
    InitOfAppend(script, op);
  }

  lemma {:induction false} ReplayTwo<K>(xs: seq<K>, first: seq<RowOp<K>>, second: seq<RowOp<K>>)
    requires InBounds(|xs|, first) && InBounds(|Replay(xs, first)|, second)
    ensures InBounds(|xs|, first + second) && Replay(xs, first + second) == Replay(Replay(xs, first), second)
  {
    if second == [] {
      assert first + second == first;
    } else {
      ReplayTwo(xs, first, Init(second));
      assert first + second == (first + Init(second)) + [Last(second)];
      ReplayOneMore(xs, first + Init(second), Last(second));
    }
  }

  /** Removing all but a subsequence. */
  lemma {:induction false} DropTo<K>(xs: seq<K>, c: seq<K>) returns (script: seq<RowOp<K>>)
    requires Lcs.IsSubsequence(c, xs)
    ensures InBounds(|xs|, script) && Replay(xs, script) == c && |script| == |xs| - |c|
  {
    if xs == [] {
      script := [];
    } else {
      InitLast(xs);
      if c != [] && Last(c) == Last(xs) && Lcs.IsSubsequence(Init(c), Init(xs)) {
        script := DropTo(Init(xs), Init(c));
        ReplayOnPrefix(Init(xs), [Last(xs)], script);
        InitLast(c);
      } else {
        script := DropTo(Init(xs), c);
        ReplayOnPrefix(Init(xs), [Last(xs)], script);
        ReplayOneMore(xs, script, Remove(|c|));
        assert RemoveAt(c + [Last(xs)], |c|) == c;
        script := script + [Remove(|c|)];
      }
    }
  }

  /** Inserting what a subsequence lacks. */
  lemma {:induction false} GrowTo<K>(c: seq<K>, ys: seq<K>) returns (script: seq<RowOp<K>>)
    requires Lcs.IsSubsequence(c, ys)
    ensures InBounds(|c|, script) && Replay(c, script) == ys && |script| == |ys| - |c|
    decreases |ys|
  {
    if ys == [] {
      script := [];
    } else {
      InitLast(ys);
      if c != [] && Last(c) == Last(ys) && Lcs.IsSubsequence(Init(c), Init(ys)) {
        InitLast(c);
        script := GrowTo(Init(c), Init(ys));
        ReplayOnPrefix(Init(c), [Last(c)], script);
      } else {
        script := GrowTo(c, Init(ys));
        ReplayOneMore(c, script, Insert(|ys| - 1, Last(ys)));
        assert InsertAt(Init(ys), |ys| - 1, Last(ys)) == ys;
        script := script + [Insert(|ys| - 1, Last(ys))];
      }
    }
  }

  lemma {:induction false} DirectScript<K>(a: seq<K>, b: seq<K>, c: seq<K>) returns (script: seq<RowOp<K>>)
    requires Lcs.IsCommon(c, a, b)
    ensures InBounds(|a|, script) && Replay(a, script) == b && |script| == |a| + |b| - 2 * |c|
  {
    var drops := DropTo(a, c);
    var inserts := GrowTo(c, b);
    ReplayTwo(a, drops, inserts);
    script := drops + inserts;
  }

  // ---------- One element carried along ----------

  /** The list `big` is `small` with a passenger `k` at position `r`. */
  ghost predicate Carries<K>(big: seq<K>, small: seq<K>, r: nat, k: K) {
    r < |big| && big[r] == k && RemoveAt(big, r) == small
  }

  lemma {:induction false} InsertedAt<K>(xs: seq<K>, at: nat, x: K, i: nat)
    requires at <= |xs| && i <= |xs|
    ensures InsertAt(xs, at, x)[i] == if i < at then xs[i] else if i == at then x else xs[i - 1]
  {
  }

  lemma {:induction false} RemovedAt<K>(xs: seq<K>, at: nat, i: nat)
    requires at < |xs| && i < |xs| - 1
    ensures RemoveAt(xs, at)[i] == if i < at then xs[i] else xs[i + 1]
  {
  }

  /** Inserting and taking the passenger out commute, up to the shift of the later position. */
  lemma {:induction false} InsertThenRemove<K>(big: seq<K>, r: nat, at: nat, x: K)
    requires r < |big| && at < |big|
    ensures var place, seat := if at <= r then at else at + 1, if at <= r then r + 1 else r;
      RemoveAt(InsertAt(big, place, x), seat) == InsertAt(RemoveAt(big, r), at, x)
  {
    var place, seat := if at <= r then at else at + 1, if at <= r then r + 1 else r;
    var wide := InsertAt(big, place, x);
    forall i | 0 <= i < |big| ensures RemoveAt(wide, seat)[i] == InsertAt(RemoveAt(big, r), at, x)[i] {
      RemovedAt(wide, seat, i);
      InsertedAt(big, place, x, if i < seat then i else i + 1);
      InsertedAt(RemoveAt(big, r), at, x, i);
      if i < at {
        RemovedAt(big, r, i);
      } else if i > at {
        RemovedAt(big, r, i - 1);
      }
    }
  }

  lemma {:induction false} RemoveBoth<K>(big: seq<K>, r: nat, at: nat)
    requires r < |big| && at < |big| - 1
    ensures var place, seat := if at < r then at else at + 1, if at < r then r - 1 else r;
      RemoveAt(RemoveAt(big, place), seat) == RemoveAt(RemoveAt(big, r), at)
  {
    var place, seat := if at < r then at else at + 1, if at < r then r - 1 else r;
    forall i | 0 <= i < |big| - 2 ensures RemoveAt(RemoveAt(big, place), seat)[i] == RemoveAt(RemoveAt(big, r), at)[i] {
      RemovedAt(RemoveAt(big, place), seat, i);
      RemovedAt(big, place, if i < seat then i else i + 1);
      RemovedAt(RemoveAt(big, r), at, i);
      RemovedAt(big, r, if i < at then i else i + 1);
    }
  }

  lemma {:induction false} CarryInsert<K>(big: seq<K>, small: seq<K>, r: nat, k: K, at: nat, x: K)
    returns (place: nat, seat: nat)
    requires Carries(big, small, r, k) && at <= |small|
    ensures place <= |big| && Carries(InsertAt(big, place, x), InsertAt(small, at, x), seat, k)
  {
    if at <= r {
      place, seat := at, r + 1;
      InsertedAt(big, place, x, r + 1);
    } else {
      place, seat := at + 1, r;
      InsertedAt(big, place, x, r);
    }
    InsertThenRemove(big, r, at, x);
  }

  lemma {:induction false} CarryRemove<K>(big: seq<K>, small: seq<K>, r: nat, k: K, at: nat)
    returns (place: nat, seat: nat)
    requires Carries(big, small, r, k) && at < |small|
    ensures place < |big| && big[place] == small[at]
    ensures Carries(RemoveAt(big, place), RemoveAt(small, at), seat, k)
  {
    if at < r {
      place, seat := at, r - 1;
      RemovedAt(big, place, r - 1);
    } else {
      place, seat := at + 1, r;
      RemovedAt(big, place, r);
    }
    RemovedAt(big, r, at);
    RemoveBoth(big, r, at);
  }

  lemma {:induction false} CarryOp<K>(big: seq<K>, small: seq<K>, r: nat, k: K, op: RowOp<K>)
    returns (lifted: RowOp<K>, seat: nat)
    requires Carries(big, small, r, k) && Fits(|small|, op)
    ensures Fits(|big|, lifted) && Carries(Apply(big, lifted), Apply(small, op), seat, k)
  {
    match op
    case Insert(at, row) =>
      var place;
      place, seat := CarryInsert(big, small, r, k, at, row);
      lifted := Insert(place, row);
    case Remove(at) =>
      var place;
      place, seat := CarryRemove(big, small, r, k, at);
      lifted := Remove(place);
    case Move(from, to) =>
      var start, between := CarryRemove(big, small, r, k, from);
      var place;
      place, seat := CarryInsert(RemoveAt(big, start), RemoveAt(small, from), between, k, to, small[from]);
      lifted := Move(start, place);
  }

  /** A script can be followed with a passenger on board. */
  lemma {:induction false} CarryScript<K>(big: seq<K>, small: seq<K>, r: nat, k: K, script: seq<RowOp<K>>)
    returns (lifted: seq<RowOp<K>>, seat: nat)
    requires Carries(big, small, r, k) && InBounds(|small|, script)
    ensures |lifted| == |script| && InBounds(|big|, lifted)
    ensures Carries(Replay(big, lifted), Replay(small, script), seat, k)
  {
    if script == [] {
      lifted, seat := [], r;
    } else {
      var front, op;
      front, seat := CarryScript(big, small, r, k, Init(script));
      op, seat := CarryOp(Replay(big, front), Replay(small, Init(script)), seat, k, Last(script));
      ReplayOneMore(big, front, op);
      lifted := front + [op];
    }
  }

  // ---------- A script that short exists ----------

  lemma {:induction false} RemoveBeforeLast<K>(s: seq<K>, p: nat)
    requires p < |s| - 1
    ensures Init(RemoveAt(s, p)) == RemoveAt(Init(s), p) && Last(RemoveAt(s, p)) == Last(s)
  {
  }

  /** A spare copy of `k` can be taken out without touching the subsequence. */
  lemma {:induction false} SparePosition<K>(c: seq<K>, s: seq<K>, k: K) returns (p: nat)
    requires Lcs.IsSubsequence(c, s) && multiset(c)[k] < multiset(s)[k]
    ensures p < |s| && s[p] == k && Lcs.IsSubsequence(c, RemoveAt(s, p))
  {
    InitContents(s);
    if c != [] && Last(c) == Last(s) && Lcs.IsSubsequence(Init(c), Init(s)) {
      InitContents(c);
      p := SparePosition(Init(c), Init(s), k);
      RemoveBeforeLast(s, p);
    } else if Last(s) == k {
      p := |s| - 1;
      assert RemoveAt(s, p) == Init(s);
    } else {
      p := SparePosition(c, Init(s), k);
      RemoveBeforeLast(s, p);
      Lcs.Widen(c, RemoveAt(s, p));
    }
  }

  /** The passenger gets off at position `q`. */
  lemma {:induction false} LastMove<K>(big: seq<K>, b: seq<K>, seat: nat, q: nat)
    requires q < |b| && Carries(big, RemoveAt(b, q), seat, b[q])
    ensures Fits<K>(|big|, Move(seat, q)) && Apply(big, Move(seat, q)) == b
  {
    assert InsertAt(RemoveAt(b, q), q, b[q]) == b;
  }

  lemma {:induction false} OneMoveMore<K>(a: seq<K>, b: seq<K>, p: nat, q: nat, rest: seq<RowOp<K>>)
    returns (script: seq<RowOp<K>>)
    requires p < |a| && q < |b| && a[p] == b[q]
    requires InBounds(|RemoveAt(a, p)|, rest) && Replay(RemoveAt(a, p), rest) == RemoveAt(b, q)
    ensures InBounds(|a|, script) && Replay(a, script) == b && |script| == |rest| + 1
  {
    var lifted, seat := CarryScript(a, RemoveAt(a, p), p, a[p], rest);
    LastMove(Replay(a, lifted), b, seat, q);
    ReplayOneMore(a, lifted, Move(seat, q));
    script := lifted + [Move(seat, q)];
  }

  /** Keeping a common subsequence in place, one move for each further element that both lists have. */
  lemma {:induction false} ScriptVia<K>(a: seq<K>, b: seq<K>, c: seq<K>) returns (script: seq<RowOp<K>>)
    requires Lcs.IsCommon(c, a, b)
    ensures InBounds(|a|, script) && Replay(a, script) == b
    ensures |script| == |b| - |c| + Surplus(a, b)
    decreases |a|
  {
    var shared := multiset(a) * multiset(b);
    SubsequenceContents(c, a);
    SubsequenceContents(c, b);
    SmallerMultiset(multiset(c), shared);
    SharedAndSpare(multiset(a), multiset(b));
    if |c| == |shared| {
      script := DirectScript(a, b, c);
    } else {
      var k := SpareElement(multiset(c), shared);
      var p := SparePosition(c, a, k);
      var q := SparePosition(c, b, k);
      var rest := ScriptVia(RemoveAt(a, p), RemoveAt(b, q), c);
      script := OneMoveMore(a, b, p, q, rest);
      RemovedContents(a, p);
      RemovedContents(b, q);
      OneMoreInBoth(multiset(RemoveAt(a, p)), multiset(RemoveAt(b, q)), k);
    }
  }

  /** Keeping a longest common subsequence in place, `Fewest` operations are enough. */
  lemma {:induction false} ShortestScript<K>(oldKeys: seq<K>, newKeys: seq<K>) returns (script: seq<RowOp<K>>)
    ensures InBounds(|oldKeys|, script) && Replay(oldKeys, script) == newKeys
    ensures |script| == Fewest(oldKeys, newKeys)
  {
    var c := Lcs.LengthIsAttained(oldKeys, newKeys);
    script := ScriptVia(oldKeys, newKeys, c);
  }

  ghost predicate IsMinimal<K(!new)>(oldKeys: seq<K>, newKeys: seq<K>, length: int) {
    forall script: seq<RowOp<K>> ::
      InBounds(|oldKeys|, script) && Replay(oldKeys, script) == newKeys ==> length <= |script|
  }

  lemma {:induction false} MinimalIsFewest<K(!new)>(oldKeys: seq<K>, newKeys: seq<K>, length: int)
    ensures IsMinimal(oldKeys, newKeys, length) <==> length <= Fewest(oldKeys, newKeys)
  {
    var shortest := ShortestScript(oldKeys, newKeys);
    forall script: seq<RowOp<K>> | InBounds(|oldKeys|, script) && Replay(oldKeys, script) == newKeys
      ensures Fewest(oldKeys, newKeys) <= |script|
    {
      NoShorterScript(oldKeys, newKeys, script);
    }
  }

  // ---------- Exactly when the table path is minimal ----------

  lemma {:induction false} OldIsSharedOrSurplus<K>(oldKeys: seq<K>, newKeys: seq<K>)
    ensures |oldKeys| == |multiset(oldKeys) * multiset(newKeys)| + Surplus(oldKeys, newKeys)
  {
    SharedAndSpare(multiset(oldKeys), multiset(newKeys));
  }

  lemma {:induction false} LengthIsShared<K>(oldKeys: seq<K>, newKeys: seq<K>)
    ensures Lcs.Length(oldKeys, newKeys) <= |multiset(oldKeys) * multiset(newKeys)|
  {
    var c := Lcs.LengthIsAttained(oldKeys, newKeys);
    SubsequenceContents(c, oldKeys);
    SubsequenceContents(c, newKeys);
    SmallerMultiset(multiset(c), multiset(oldKeys) * multiset(newKeys));
  }

  /** The number of operations that the table path emits. */
  function TableCost<K(==)>(oldKeys: seq<K>, newKeys: seq<K>): int {
    |oldKeys| + |newKeys| - 2 * Lcs.Length(oldKeys, newKeys)
  }

  lemma {:induction false} TableCostIsFewest<K>(oldKeys: seq<K>, newKeys: seq<K>)
    ensures TableCost(oldKeys, newKeys) <= Fewest(oldKeys, newKeys)
      <==> Lcs.Length(oldKeys, newKeys) == |multiset(oldKeys) * multiset(newKeys)|
  {
    OldIsSharedOrSurplus(oldKeys, newKeys);
    LengthIsShared(oldKeys, newKeys);
  }

  /**
    The script of the table path, which has no moves, is minimal exactly when the two lists share no
    element, copies counted, beyond a longest common subsequence.
   */
  lemma {:induction false} TableIsMinimalExactlyWhen<K(!new)>(oldKeys: seq<K>, newKeys: seq<K>)
    ensures IsMinimal(oldKeys, newKeys, TableCost(oldKeys, newKeys))
      <==> Lcs.Length(oldKeys, newKeys) == |multiset(oldKeys) * multiset(newKeys)|
  {
    TableCostIsFewest(oldKeys, newKeys);
    MinimalIsFewest(oldKeys, newKeys, TableCost(oldKeys, newKeys));
  }

  /** Rotating a pair of equal keys past another costs the table path two operations, where one move does it. */
  lemma {:induction false} RotationCostsTwo<K>(x: K, y: K)
    requires x != y
    ensures !Unique([x, x, y])
    ensures TableCost([x, x, y], [y, x, x]) == 2
    ensures InBounds<K>(3, [Move(2, 0)]) && Replay([x, x, y], [Move(2, 0)]) == [y, x, x]
  {
    assert [x, x, y][0] == [x, x, y][1];
    assert Init([x, x, y]) == [x, x] && Init([x, x]) == [x] && Init([x]) == [];
    assert Init([y, x, x]) == [y, x] && Init([y, x]) == [y] && Init([y]) == [];
    assert Lcs.Length([x], [y]) == 0;
    assert Lcs.Length([x, x], [y, x]) == Lcs.Length([x], [y]) + 1;
    assert Lcs.Length([x], [y, x]) == 1;
    assert Lcs.Length([x, x], [y, x, x]) == Lcs.Length([x], [y, x]) + 1;
    assert Lcs.Length([x, x, y], [y]) == Lcs.Length([x, x], []) + 1;
    assert Lcs.Length([x, x, y], [y, x]) == 1;
    var moves: seq<RowOp<K>> := [Move(2, 0)];
    assert Init(moves) == [];
    assert RemoveAt([x, x, y], 2) == [x, x] && InsertAt([x, x], 0, y) == [y, x, x];
  }

  // ---------- Exactly when the unique-key path is minimal ----------

  /** The key at position `p` was there before, and every old key before it has been placed already. */
  ghost predicate StaysPut<K>(oldKeys: seq<K>, newKeys: seq<K>, p: nat)
    requires p < |newKeys|
  {
    newKeys[p] in oldKeys && !Overtakes(oldKeys, newKeys, p)
  }

  /** The positions below `t` whose keys stay put. */
  ghost function Staying<K>(oldKeys: seq<K>, newKeys: seq<K>, t: nat): set<nat>
    requires t <= |newKeys|
  {
    set p | 0 <= p < t && StaysPut(oldKeys, newKeys, p)
  }

  lemma {:induction false} StayingOneMore<K>(oldKeys: seq<K>, newKeys: seq<K>, t: nat)
    requires 0 < t <= |newKeys|
    ensures |Staying(oldKeys, newKeys, t)| ==
      |Staying(oldKeys, newKeys, t - 1)| + if StaysPut(oldKeys, newKeys, t - 1) then 1 else 0
  {
    var before := Staying(oldKeys, newKeys, t - 1);
    assert Staying(oldKeys, newKeys, t) == if StaysPut(oldKeys, newKeys, t - 1) then before + {t - 1} else before;
  }

  lemma {:induction false} OpForCount<T, K>(oldKeys: seq<K>, newKeys: seq<K>, newRows: seq<T>, t: nat)
    requires t < |newKeys| == |newRows| && Unique(newKeys)
    ensures |OpFor(oldKeys, newKeys, newRows, t)| == if StaysPut(oldKeys, newKeys, t) then 0 else 1
  {
    OpForKind(oldKeys, newKeys, newRows, t);
  }

  lemma {:induction false} OpsUpToLength<T, K>(oldKeys: seq<K>, newKeys: seq<K>, newRows: seq<T>, t: nat)
    requires 0 < t <= |newKeys| == |newRows| && Unique(newKeys)
    ensures |OpsUpTo(oldKeys, newKeys, newRows, t)|
         == |OpsUpTo(oldKeys, newKeys, newRows, t - 1)| + if StaysPut(oldKeys, newKeys, t - 1) then 0 else 1
  {
    OpForCount(oldKeys, newKeys, newRows, t - 1);
  }

  /** Every position calls for one operation, except those whose keys stay put. */
  lemma {:induction false} OpsCount<T, K>(oldKeys: seq<K>, newKeys: seq<K>, newRows: seq<T>, t: nat)
    requires t <= |newKeys| == |newRows| && Unique(newKeys)
    ensures |OpsUpTo(oldKeys, newKeys, newRows, t)| == t - |Staying(oldKeys, newKeys, t)|
  {
    if t > 0 {
      OpsCount(oldKeys, newKeys, newRows, t - 1);
      OpsUpToLength(oldKeys, newKeys, newRows, t);
      StayingOneMore(oldKeys, newKeys, t);
    }
  }

  /** With the keys themselves as rows the script is a plain script from one key list to the other. */
  lemma {:induction false} KeysAsRows<K>(oldKeys: seq<K>, newKeys: seq<K>)
    requires Unique(oldKeys) && Unique(newKeys)
    ensures InBounds(|oldKeys|, UniqueScript(oldKeys, newKeys, newKeys))
    ensures Replay(oldKeys, UniqueScript(oldKeys, newKeys, newKeys)) == newKeys
  {
    ScriptRuns(oldKeys, newKeys, newKeys);
    ScriptIsNecessary(oldKeys, newKeys, newKeys);
    ReplayOwnRows(oldKeys, UniqueScript(oldKeys, newKeys, newKeys), newKeys);
  }

  /** In a duplicate-free list, filtering by another list is taking the surplus. */
  lemma {:induction false} WithoutIsSurplus<K>(xs: seq<K>, ys: seq<K>)
    requires Unique(xs)
    ensures multiset(Without(xs, ys)) == multiset(xs) - multiset(ys)
  {
    if xs != [] {
      WithoutIsSurplus(xs[1..], ys);
      assert xs == [xs[0]] + xs[1..];
      assert xs[0] !in xs[1..];
    }
  }

  /**
    The diff of duplicate-free keys is minimal, moves counted, exactly when as many keys stay put as a
    longest common subsequence of the two lists has elements.
   */
  lemma {:induction false} MinimalExactlyWhen<T, K(!new)>(oldKeys: seq<K>, newKeys: seq<K>, newRows: seq<T>)
    requires |newKeys| == |newRows| && Unique(oldKeys) && Unique(newKeys)
    ensures |UniqueScript(oldKeys, newKeys, newRows)| ==
      |newKeys| - |Staying(oldKeys, newKeys, |newKeys|)| + |Without(oldKeys, newKeys)|
    ensures IsMinimal(oldKeys, newKeys, |UniqueScript(oldKeys, newKeys, newRows)|)
      <==> |Staying(oldKeys, newKeys, |newKeys|)| == Lcs.Length(oldKeys, newKeys)
  {
    OpsCount(oldKeys, newKeys, newRows, |newKeys|);
    OpsCount(oldKeys, newKeys, newKeys, |newKeys|);
    WithoutIsSurplus(oldKeys, newKeys);
    assert |multiset(Without(oldKeys, newKeys))| == |Without(oldKeys, newKeys)|;
    MinimalIsFewest(oldKeys, newKeys, |UniqueScript(oldKeys, newKeys, newRows)|);
    KeysAsRows(oldKeys, newKeys);
    NoShorterScript(oldKeys, newKeys, UniqueScript(oldKeys, newKeys, newKeys));
  }

  lemma {:induction false} NothingStays<K>(x: K, ks: seq<K>)
    requires x !in ks
    ensures Staying([x] + ks, ks, |ks|) == {}
  {
    var keys := [x] + ks;
    forall p | 0 <= p < |ks| ensures !StaysPut(keys, ks, p) {
      assert keys[0] == x && x !in ks[..p];
    }
  }

  lemma {:induction false} UniqueWithHead<K>(x: K, ks: seq<K>)
    requires Unique(ks) && x !in ks
    ensures Unique([x] + ks)
  {
  }

  lemma {:induction false} OnlyHeadGoes<K>(x: K, ks: seq<K>)
    requires x !in ks
    ensures Without([x] + ks, ks) == [x]
  {
    assert ([x] + ks)[1..] == ks;
    WithoutEverything(ks, ks);
  }

  /** The worst case: when the first key goes, one removal would do, and the diff moves every other key. */
  lemma {:induction false} LosingTheFirstKeyMovesAll<T, K>(x: K, ks: seq<K>, rows: seq<T>)
    requires |ks| == |rows| && Unique(ks) && x !in ks
    ensures Unique([x] + ks)
    ensures |UniqueScript([x] + ks, ks, rows)| == |ks| + 1
    ensures Apply([x] + ks, Remove(0)) == ks
  {
    NothingStays(x, ks);
    UniqueWithHead(x, ks);
    OpsCount([x] + ks, ks, rows, |ks|);
    OnlyHeadGoes(x, ks);
    assert RemoveAt([x] + ks, 0) == ks;
  }
}
