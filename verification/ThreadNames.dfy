/** Naming a recovered thread: a numbered suffix is counted up until no thread has the name. */
module ThreadNames {
  import opened Sequences
  import opened Decimal
  import opened Text

  /** The title, or a name made of the first eight characters of the session id if there is none. */
  function BaseName(sessionId: string, title: string): string {
    if IsBlank(title) then "Recovered " + (if |sessionId| < 8 then sessionId else sessionId[..8]) else title
  }

  /** The names tried, in order: the base name itself, then with suffix (2), (3), ... */
  function Candidate(base: string, k: nat): string {
    if k == 0 then base else base + " (" + Print(k + 1) + ")"
  }

  lemma {:induction false} CandidatesDiffer(base: string, j: nat, k: nat)
    requires Candidate(base, j) == Candidate(base, k)
    ensures j == k
  {
    if j > 0 && k > 0 {
      var lead := base + " (";
      var a, b := Candidate(base, j), Candidate(base, k);
      assert a == lead + Print(j + 1) + ")" && b == lead + Print(k + 1) + ")";
      assert a[|lead|..|a| - 1] == Print(j + 1) && b[|lead|..|b| - 1] == Print(k + 1);
      PrintInjective(j + 1, k + 1);
    }
  }

  function CandidatesUpTo(base: string, n: nat): (r: seq<string>)
    ensures |r| == n && forall i :: 0 <= i < n ==> r[i] == Candidate(base, i)
  {
    seq(n, i requires 0 <= i < n => Candidate(base, i))
  }

  /** If the first `n` candidates are all taken, there are at least `n` threads. */
  lemma {:induction false} TakenCandidates(base: string, n: nat, threads: seq<string>)
    requires forall i :: 0 <= i < n ==> Candidate(base, i) in threads
    ensures n <= |threads|
  {
    var tried := CandidatesUpTo(base, n);
    forall i, j | 0 <= i < j < n ensures tried[i] != tried[j] {
      if Candidate(base, i) == Candidate(base, j) {
        CandidatesDiffer(base, i, j);
      }
    }
    forall x | x in tried ensures x in threads {
      var i := IndexOf(tried, x);
      assert x == Candidate(base, i);
    }
    Pigeonhole(tried, threads);
  }

  /** `name` is `base` if that is free; otherwise it carries the first number from 2 that makes it so. */
  ghost predicate IsFirstFree(base: string, threads: seq<string>, name: string, steps: nat) {
    && name !in threads
    && (steps == 0 ==> name == base)
    && (steps > 0 ==> base in threads && name == base + " (" + Print(steps + 1) + ")")
    && (forall n :: 2 <= n <= steps ==> base + " (" + Print(n) + ")" in threads)
  }

  lemma {:induction false} FirstFree(base: string, threads: seq<string>, name: string, steps: nat)
    requires name !in threads && name == Candidate(base, steps)
    requires forall k :: 0 <= k < steps ==> Candidate(base, k) in threads
    ensures IsFirstFree(base, threads, name, steps)
  {
    if steps > 0 {
      assert Candidate(base, 0) in threads;
      forall n | 2 <= n <= steps ensures base + " (" + Print(n) + ")" in threads {
        assert Candidate(base, n - 1) in threads;
      }
    }
  }

  lemma {:induction false} SecondCandidate(base: string)
    ensures Candidate(base, 0) == base && Candidate(base, 1) == base + " (2)"
  {
    assert Print(2) == "2";
  }

  /** `base` is the name asked for: the title, or if there is none, what the session id gives. */
  ghost predicate IsAskedFor(sessionId: string, title: string, base: string) {
    if forall c :: c in title ==> IsSpace(c)
    then |base| <= |"Recovered "| + 8 && base <= "Recovered " + sessionId
      && (|base| < |"Recovered "| + 8 ==> base == "Recovered " + sessionId)
    else base == title
  }

  lemma {:induction false} BaseNameIsAskedFor(sessionId: string, title: string)
    ensures IsAskedFor(sessionId, title, BaseName(sessionId, title))
  {
    BlankIsAllSpaces(title);
    forall c ensures IsSpace(c) <==> c in SPACES {
      SpacesAreSpace(c);
    }
    if IsBlank(title) && |sessionId| >= 8 {
      assert "Recovered " + sessionId == ("Recovered " + sessionId[..8]) + sessionId[8..];
    }
  }

  /**
    The loop ends after at most as many suffix steps as there are threads, with a name no thread has:
    the name asked for if it is free, else the first free one of that name with (2), (3), ... behind it.
   */
  method UniqueName(sessionId: string, title: string, threads: seq<string>) returns (name: string, ghost steps: nat)
    ensures name !in threads && steps <= |threads|
    ensures exists base :: IsAskedFor(sessionId, title, base) && IsFirstFree(base, threads, name, steps)
    ensures !IsBlank(title) && title !in threads ==> name == title
    ensures !IsBlank(title) && title in threads && title + " (2)" !in threads ==> name == title + " (2)"
  {
    var base := BaseName(sessionId, title);
    name := base;
    var suffix := 2;
    steps := 0;
    while name in threads
      invariant suffix == steps + 2 && name == Candidate(base, steps)
      invariant forall k :: 0 <= k < steps ==> Candidate(base, k) in threads
      invariant steps <= |threads|
      decreases |threads| - steps
    {
      TakenCandidates(base, steps + 1, threads);
      name := base + " (" + Print(suffix) + ")";
      suffix := suffix + 1;
      steps := steps + 1;
    }
    BaseNameIsAskedFor(sessionId, title);
    FirstFree(base, threads, name, steps);
    SecondCandidate(base);
  }
}
