/** Facts about sequences that several components share. */
module Sequences {

  predicate Unique<T(==)>(s: seq<T>) {
    forall i, j :: 0 <= i < j < |s| ==> s[i] != s[j]
  }

  function Init<T>(s: seq<T>): seq<T>
    requires s != []
  {
    s[..|s| - 1]
  }

  function Last<T>(s: seq<T>): T
    requires s != []
  {
    s[|s| - 1]
  }

  lemma {:induction false} InitLast<T>(s: seq<T>)
    requires s != []
    ensures s == Init(s) + [Last(s)]
  {
  }

  lemma {:induction false} InitOfAppend<T>(s: seq<T>, x: T)
    ensures Init(s + [x]) == s && Last(s + [x]) == x
  {
  }

  /** The elements of `xs` that do not occur in `ys`, in the order of `xs`. */
  function Without<T(==)>(xs: seq<T>, ys: seq<T>): seq<T>
  {
    if xs == [] then []
    else if xs[0] in ys then Without(xs[1..], ys)
    else [xs[0]] + Without(xs[1..], ys)
  }

  function Reverse<T>(s: seq<T>): (r: seq<T>)
    ensures |r| == |s|
  {
    if s == [] then [] else Reverse(s[1..]) + [s[0]]
  }

  /** The first position at or after `from` that holds `x`, or the length if there is none. */
  function IndexFrom<T(==)>(s: seq<T>, x: T, from: nat): (i: nat)
    requires from <= |s|
    ensures from <= i <= |s| && (i < |s| ==> s[i] == x)
    ensures forall k :: from <= k < i ==> s[k] != x
    decreases |s| - from
  {
    if from == |s| || s[from] == x then from else IndexFrom(s, x, from + 1)
  }

  /** The position of the first occurrence of `x`. */
  function IndexOf<T(==)>(s: seq<T>, x: T): (i: nat)
    requires x in s
    ensures i < |s| && s[i] == x
    ensures forall k :: 0 <= k < i ==> s[k] != x
  {
    IndexFrom(s, x, 0)
  }

  lemma {:induction false} WithoutElement<T>(xs: seq<T>, ys: seq<T>, x: T)
    ensures x in Without(xs, ys) <==> x in xs && x !in ys
  {
    if xs != [] {
      WithoutElement(xs[1..], ys, x);
    }
  }

  /** Removing nothing that occurs leaves the sequence alone. */
  lemma {:induction false} WithoutNothing<T>(xs: seq<T>, ys: seq<T>)
    requires forall x :: x in xs ==> x !in ys
    ensures Without(xs, ys) == xs
  {
    if xs != [] {
      assert forall x :: x in xs[1..] ==> x in xs;
      WithoutNothing(xs[1..], ys);
    }
  }

  /** Everything goes when everything is excluded. */
  lemma {:induction false} WithoutEverything<T>(xs: seq<T>, ys: seq<T>)
    requires forall x :: x in xs ==> x in ys
    ensures Without(xs, ys) == []
  {
    if xs != [] {
      assert xs[0] in xs;
      WithoutEverything(xs[1..], ys);
    }
  }

  /** `rest` is `w` without the first occurrence of `y`, or `w` itself if there is none. */
  ghost predicate LosesFirst<T>(w: seq<T>, rest: seq<T>, y: T) {
    if y in w then rest == w[..IndexOf(w, y)] + w[IndexOf(w, y) + 1..] else rest == w
  }

  lemma {:induction false} LosesHead<T>(w: seq<T>, y: T)
    ensures LosesFirst([y] + w, w, y)
  {
    assert IndexOf([y] + w, y) == 0;
    assert ([y] + w)[..0] + ([y] + w)[1..] == w;
  }

  lemma {:induction false} IndexBehindHead<T>(x: T, w: seq<T>, y: T)
    requires x != y && y in w
    ensures y in [x] + w && IndexOf([x] + w, y) == IndexOf(w, y) + 1
  {
    var i, k := IndexOf(w, y), IndexOf([x] + w, y);
    assert ([x] + w)[i + 1] == w[i] && ([x] + w)[k] == w[k - 1];
  }

  lemma {:induction false} CutBehindHead<T>(x: T, w: seq<T>, i: nat)
    requires i < |w|
    ensures ([x] + w)[..i + 1] + ([x] + w)[i + 2..] == [x] + (w[..i] + w[i + 1..])
  {
  }

  lemma {:induction false} LosesBehindHead<T>(x: T, w: seq<T>, rest: seq<T>, y: T)
    requires x != y && LosesFirst(w, rest, y)
    ensures LosesFirst([x] + w, [x] + rest, y)
  {
    if y in w {
      IndexBehindHead(x, w, y);
      CutBehindHead(x, w, IndexOf(w, y));
    }
  }

  /** Listing one more excluded element takes its only occurrence out and keeps the order. */
  lemma {:induction false} WithoutOneMore<T>(xs: seq<T>, ys: seq<T>, y: T)
    requires Unique(xs)
    ensures LosesFirst(Without(xs, ys), Without(xs, ys + [y]), y)
  {
    if xs != [] {
      var w, rest := Without(xs[1..], ys), Without(xs[1..], ys + [y]);
      WithoutOneMore(xs[1..], ys, y);
      if xs[0] !in ys {
        if xs[0] == y {
          WithoutElement(xs[1..], ys, y);
          assert rest == w;
          LosesHead(w, y);
        } else {
          LosesBehindHead(xs[0], w, rest, y);
        }
      }
    }
  }

  lemma {:induction false} ReverseAppend<T>(s: seq<T>, x: T)
    ensures Reverse(s + [x]) == [x] + Reverse(s)
  {
    if s != [] {
      assert (s + [x])[1..] == s[1..] + [x];
      ReverseAppend(s[1..], x);
    } else {
      assert (s + [x])[1..] == [];
    }
  }

  /** A duplicate-free sequence whose elements all occur in `t` is no longer than `t`. */
  lemma {:induction false} Pigeonhole<T>(s: seq<T>, t: seq<T>)
    requires Unique(s)
    requires forall x :: x in s ==> x in t
    ensures |s| <= |t|
  {
    if s != [] {
      var i := IndexOf(t, s[0]);
      var rest := t[..i] + t[i + 1..];
      forall x | x in s[1..] ensures x in rest {
        assert x != s[0];
        var k := IndexOf(t, x);
        assert if k < i then rest[k] == x else rest[k - 1] == x;
      }
      Pigeonhole(s[1..], rest);
    }
  }
}
