/** Longest common subsequences: the table recurrence, and why it gives the true maximum. */
module Lcs {
  import opened Sequences

  predicate IsSubsequence<K(==)>(c: seq<K>, s: seq<K>) {
    if c == [] then true
    else if s == [] then false
    else (Last(c) == Last(s) && IsSubsequence(Init(c), Init(s))) || IsSubsequence(c, Init(s))
  }

  predicate IsCommon<K(==)>(c: seq<K>, a: seq<K>, b: seq<K>) {
    IsSubsequence(c, a) && IsSubsequence(c, b)
  }

  /** The recurrence that fills the table, on whole sequences. */
  function Length<K(==)>(a: seq<K>, b: seq<K>): nat
    decreases |a| + |b|
  {
    if a == [] || b == [] then 0
    else if Last(a) == Last(b) then Length(Init(a), Init(b)) + 1
    else
      var up, left := Length(Init(a), b), Length(a, Init(b));
      if up < left then left else up
  }

  lemma {:induction false} InitIsSubsequence<K>(c: seq<K>, s: seq<K>)
    requires c != [] && IsSubsequence(c, s)
    ensures IsSubsequence(Init(c), s)
  {
    if Last(c) == Last(s) && IsSubsequence(Init(c), Init(s)) {
      Widen(Init(c), s);
    } else {
      InitIsSubsequence(c, Init(s));
      Widen(Init(c), s);
    }
  }

  lemma {:induction false} Widen<K>(c: seq<K>, s: seq<K>)
    requires s != [] && IsSubsequence(c, Init(s))
    ensures IsSubsequence(c, s)
  {
  }

  lemma {:induction false} DropMatchingLast<K>(c: seq<K>, s: seq<K>)
    requires c != [] && s != [] && IsSubsequence(c, s)
    ensures IsSubsequence(Init(c), Init(s))
    ensures Last(c) != Last(s) ==> IsSubsequence(c, Init(s))
  {
    if !(Last(c) == Last(s) && IsSubsequence(Init(c), Init(s))) {
      InitIsSubsequence(c, Init(s));
    }
  }

  /** No common subsequence is longer than the recurrence says. */
  lemma {:induction false} LengthIsUpperBound<K>(c: seq<K>, a: seq<K>, b: seq<K>)
    requires IsCommon(c, a, b)
    ensures |c| <= Length(a, b)
    decreases |a| + |b|
  {
    if c != [] {
      DropMatchingLast(c, a);
      DropMatchingLast(c, b);
      if Last(a) == Last(b) {
        LengthIsUpperBound(Init(c), Init(a), Init(b));
      } else if Last(c) != Last(a) {
        LengthIsUpperBound(c, Init(a), b);
      } else {
        LengthIsUpperBound(c, a, Init(b));
      }
    }
  }

  /** A common subsequence of exactly that length exists. */
  lemma {:induction false} LengthIsAttained<K>(a: seq<K>, b: seq<K>) returns (c: seq<K>)
    ensures IsCommon(c, a, b) && |c| == Length(a, b)
    decreases |a| + |b|
  {
    if a == [] || b == [] {
      c := [];
    } else if Last(a) == Last(b) {
      c := LengthIsAttained(Init(a), Init(b));
      c := c + [Last(a)];
      InitOfAppend(Init(c), Last(a));
    } else if Length(Init(a), b) < Length(a, Init(b)) {
      c := LengthIsAttained(a, Init(b));
      Widen(c, b);
    } else {
      c := LengthIsAttained(Init(a), b);
      Widen(c, a);
    }
  }

  /** The recurrence computes the length of a longest common subsequence. */
  lemma {:induction false} LengthIsLongest<K>(a: seq<K>, b: seq<K>)
    ensures exists c: seq<K> {:trigger IsCommon(c, a, b)} :: IsCommon(c, a, b) && |c| == Length(a, b)
    ensures forall c: seq<K> :: IsCommon(c, a, b) ==> |c| <= Length(a, b)
  {
    var c := LengthIsAttained(a, b);
    forall c | IsCommon(c, a, b) ensures |c| <= Length(a, b) {
      LengthIsUpperBound(c, a, b);
    }
  }

  lemma {:induction false} LengthWithItself<K>(a: seq<K>)
    ensures Length(a, a) == |a|
  {
    if a != [] {
      LengthWithItself(Init(a));
    }
  }

  /** Neighbouring cells of the table never decrease. */
  lemma {:induction false} LengthMonotone<K>(a: seq<K>, b: seq<K>)
    requires a != []
    ensures Length(Init(a), b) <= Length(a, b)
  {
    var c := LengthIsAttained(Init(a), b);
    Widen(c, a);
    LengthIsUpperBound(c, a, b);
  }

  /** Taking one element out of the longer sequence costs a subsequence at most one element. */
  lemma {:induction false} SubsequenceOfRemoved<K>(c: seq<K>, s: seq<K>, at: nat)
    requires at < |s| && IsSubsequence(c, s[..at] + s[at + 1..])
    ensures IsSubsequence(c, s)
    decreases |s|
  {
    var t := s[..at] + s[at + 1..];
    if c != [] {
      if at == |s| - 1 {
        assert t == Init(s);
      } else {
        assert Init(t) == Init(s)[..at] + Init(s)[at + 1..] && Last(t) == Last(s);
        if Last(c) == Last(t) && IsSubsequence(Init(c), Init(t)) {
          SubsequenceOfRemoved(Init(c), Init(s), at);
        } else {
          SubsequenceOfRemoved(c, Init(s), at);
        }
      }
    }
  }

  lemma {:induction false} SubsequenceAfterRemoval<K>(c: seq<K>, s: seq<K>, at: nat) returns (d: seq<K>)
    requires at < |s| && IsSubsequence(c, s)
    ensures IsSubsequence(d, s[..at] + s[at + 1..])
    ensures IsSubsequence(d, c) && |d| >= |c| - 1
    decreases |s|
  {
    var t := s[..at] + s[at + 1..];
    if c == [] {
      d := [];
    } else if at == |s| - 1 {
      assert t == Init(s);
      DropMatchingLast(c, s);
      d := Init(c);
      SelfSubsequence(Init(c));
      Widen(Init(c), c);
    } else {
      assert Init(t) == Init(s)[..at] + Init(s)[at + 1..] && Last(t) == Last(s);
      if Last(c) == Last(s) && IsSubsequence(Init(c), Init(s)) {
        d := SubsequenceAfterRemoval(Init(c), Init(s), at);
        d := d + [Last(c)];
        InitOfAppend(Init(d), Last(c));
      } else {
        d := SubsequenceAfterRemoval(c, Init(s), at);
        Widen(d, t);
      }
    }
  }

  lemma {:induction false} SelfSubsequence<K>(c: seq<K>)
    ensures IsSubsequence(c, c)
  {
    if c != [] {
      SelfSubsequence(Init(c));
    }
  }

  lemma {:induction false} SubsequenceTransitive<K>(c: seq<K>, d: seq<K>, s: seq<K>)
    requires IsSubsequence(c, d) && IsSubsequence(d, s)
    ensures IsSubsequence(c, s)
    decreases |d| + |s|
  {
    if c != [] {
      if IsSubsequence(d, Init(s)) {
        SubsequenceTransitive(c, d, Init(s));
      } else if IsSubsequence(c, Init(d)) {
        SubsequenceTransitive(c, Init(d), Init(s));
      } else {
        SubsequenceTransitive(Init(c), Init(d), Init(s));
      }
    }
  }
}
