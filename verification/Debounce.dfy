/**
  The edit-time debounce: the sleeping attempts of all skills share one generation counter, and an
  attempt goes on only if the counter still holds the value it drew. Modelled as a transition system
  with a clock. Checking the counter, reading the edited content and publishing it are separate steps.
 */
module Debounce {
  import opened Wrappers
  import opened Sequences
  import opened Decimal

  datatype Phase = Sleeping | Superseded | Settled | Reading(content: string) | Published

  /** One `debounce` call: for which skill and when it was made, the generation it drew, and how far it got. */
  datatype Attempt = Attempt(skill: string, calledAt: nat, ticket: nat, phase: Phase)

  datatype State = State(
    now: nat,
    generation: nat,
    attempts: seq<Attempt>,
    /** The attempts that passed their check, in the order in which they did. */
    passes: seq<nat>,
    /** The attempts that have read but not yet published, in the order in which they read. */
    readers: seq<nat>,
    /** What the file of each edited skill holds. */
    content: map<string, string>,
    /** The skills with a write that has not been followed by a call yet. */
    uncalled: set<string>,
    /** The skill's own record at the vendors: what the last run for this skill published. */
    published: map<string, string>)

  datatype Action =
    | Tick(elapsed: nat)
    | Write(skill: string, text: string)
    | Call(skill: string)
    | Check(who: nat)
    | Read(who: nat)
    | Publish(who: nat)

  function Start(): State {
    State(0, 0, [], [], [], map[], {}, map[])
  }

  /** A 64-bit counter wraps around. */
  function Increment(generation: nat): nat {
    (generation + 1) % U64_LIMIT
  }

  predicate HasPassed(a: Attempt) {
    a.phase.Settled? || a.phase.Reading? || a.phase.Published?
  }

  /** A call follows a successful write, so it is for a skill that has been written. */
  predicate Enabled(s: State, delay: nat, a: Action) {
    match a
    case Call(skill) => skill in s.content
    case Check(i) => i < |s.attempts| && s.attempts[i].phase.Sleeping? && s.now >= s.attempts[i].calledAt + delay
    case Read(i) => i < |s.attempts| && s.attempts[i].phase.Settled? && s.attempts[i].skill in s.content
    case Publish(i) => i < |s.attempts| && s.attempts[i].phase.Reading? && i in s.readers
    case _ => true
  }

  function WithPhase(s: State, i: nat, phase: Phase): State
    requires i < |s.attempts|
  {
    s.(attempts := s.attempts[i := s.attempts[i].(phase := phase)])
  }

  function Step(s: State, delay: nat, a: Action): State
    requires Enabled(s, delay, a)
  {
    match a
    case Tick(elapsed) => s.(now := s.now + elapsed)
    case Write(skill, text) => s.(content := s.content[skill := text], uncalled := s.uncalled + {skill})
    case Call(skill) =>
      var ticket := Increment(s.generation);
      s.(generation := ticket, attempts := s.attempts + [Attempt(skill, s.now, ticket, Sleeping)],
         uncalled := s.uncalled - {skill})
    case Check(i) =>
      if s.generation == s.attempts[i].ticket then WithPhase(s, i, Settled).(passes := s.passes + [i])
      else WithPhase(s, i, Superseded)
    case Read(i) => WithPhase(s, i, Reading(s.content[s.attempts[i].skill])).(readers := s.readers + [i])
    case Publish(i) =>
      var at := IndexOf(s.readers, i);
      WithPhase(s, i, Published).(readers := s.readers[..at] + s.readers[at + 1..],
                                  published := s.published[s.attempts[i].skill := s.attempts[i].phase.content])
  }

  // ---------- Rate ----------

  /** Tickets count the calls modulo the counter's width. */
  ghost predicate Counted(s: State) {
    && s.generation == |s.attempts| % U64_LIMIT
    && forall i :: 0 <= i < |s.attempts| ==> s.attempts[i].ticket == (i + 1) % U64_LIMIT
  }

  /** A check passes exactly when the number of later calls is a multiple of the counter's range. */
  lemma {:induction false} CheckPassesExactlyWhen(s: State, delay: nat, i: nat)
    requires Counted(s) && Enabled(s, delay, Check(i))
    ensures HasPassed(Step(s, delay, Check(i)).attempts[i]) <==> (|s.attempts| - (i + 1)) % U64_LIMIT == 0
  {
    var n, k := |s.attempts|, i + 1;
    assert n == U64_LIMIT * (n / U64_LIMIT) + n % U64_LIMIT && k == U64_LIMIT * (k / U64_LIMIT) + k % U64_LIMIT;
    var q := n / U64_LIMIT - k / U64_LIMIT;
    assert n - k == U64_LIMIT * q + (n % U64_LIMIT - k % U64_LIMIT);
  }

  /** Fewer calls than the counter can tell apart: a check passes exactly for the newest call. */
  lemma {:induction false} NewestOnly(s: State, delay: nat, i: nat)
    requires Counted(s) && |s.attempts| <= U64_LIMIT && Enabled(s, delay, Check(i))
    ensures s.generation == s.attempts[i].ticket <==> i == |s.attempts| - 1
  {
    CheckPassesExactlyWhen(s, delay, i);
  }

  /** Calls are in order of time, and a passed call is followed by no other within `delay`. */
  ghost predicate SpacedCalls(now: nat, calls: seq<Attempt>, delay: nat) {
    && (forall i, j :: 0 <= i < j < |calls| ==> calls[i].calledAt <= calls[j].calledAt)
    && (forall i :: 0 <= i < |calls| ==> calls[i].calledAt <= now)
    && (forall i :: 0 <= i < |calls| && HasPassed(calls[i]) ==> calls[i].calledAt + delay <= now)
    && (forall i, j :: 0 <= i < j < |calls| && HasPassed(calls[i]) ==> calls[i].calledAt + delay <= calls[j].calledAt)
  }

  ghost predicate Spaced(s: State, delay: nat) {
    SpacedCalls(s.now, s.attempts, delay) && (s.attempts != [] ==> !Last(s.attempts).phase.Superseded?)
  }

  lemma {:induction false} SpacedCallsPush(now: nat, calls: seq<Attempt>, delay: nat, skill: string, ticket: nat)
    requires SpacedCalls(now, calls, delay)
    ensures SpacedCalls(now, calls + [Attempt(skill, now, ticket, Sleeping)], delay)
  {
  }

  lemma {:induction false} SpacedCallsPhase(now: nat, calls: seq<Attempt>, delay: nat, i: nat, phase: Phase)
    requires SpacedCalls(now, calls, delay) && i < |calls|
    requires HasPassed(calls[i].(phase := phase)) ==>
      HasPassed(calls[i]) || (i == |calls| - 1 && calls[i].calledAt + delay <= now)
    ensures SpacedCalls(now, calls[i := calls[i].(phase := phase)], delay)
  {
    var after := calls[i := calls[i].(phase := phase)];
    assert forall k :: 0 <= k < |calls| ==> after[k].calledAt == calls[k].calledAt;
    assert forall k :: 0 <= k < |calls| && k != i ==> after[k] == calls[k];
  }

  /** The pass log lists exactly the passed attempts, oldest call first. */
  ghost predicate Logged(s: State) {
    && (forall p :: 0 <= p < |s.passes| ==> s.passes[p] < |s.attempts| && HasPassed(s.attempts[s.passes[p]]))
    && (forall p, q :: 0 <= p < q < |s.passes| ==> s.passes[p] < s.passes[q])
    && (forall i :: 0 <= i < |s.attempts| && HasPassed(s.attempts[i]) ==> i in s.passes)
  }

  lemma {:induction false} StepKeepsCounted(s: State, delay: nat, a: Action)
    requires Counted(s) && Enabled(s, delay, a)
    ensures Counted(Step(s, delay, a)) && |Step(s, delay, a).attempts| >= |s.attempts|
  {
  }

  lemma {:induction false} CheckKeepsSpaced(s: State, delay: nat, i: nat)
    requires Counted(s) && Spaced(s, delay) && Enabled(s, delay, Check(i)) && |s.attempts| <= U64_LIMIT
    ensures Spaced(Step(s, delay, Check(i)), delay)
  {
    NewestOnly(s, delay, i);
    SpacedCallsPhase(s.now, s.attempts, delay, i, if s.generation == s.attempts[i].ticket then Settled else Superseded);
  }

  lemma {:induction false} StepKeepsSpaced(s: State, delay: nat, a: Action)
    requires Counted(s) && Spaced(s, delay) && Enabled(s, delay, a) && |s.attempts| <= U64_LIMIT
    ensures Spaced(Step(s, delay, a), delay)
  {
    match a {
      case Call(skill) => SpacedCallsPush(s.now, s.attempts, delay, skill, Increment(s.generation));
      case Check(i) => CheckKeepsSpaced(s, delay, i);
      case Read(i) => SpacedCallsPhase(s.now, s.attempts, delay, i, Reading(s.content[s.attempts[i].skill]));
      case Publish(i) => SpacedCallsPhase(s.now, s.attempts, delay, i, Published);
      case _ =>
    }
  }

  lemma {:induction false} LoggedPass(s: State, i: nat)
    requires Logged(s) && i == |s.attempts| - 1 && s.attempts[i].phase.Sleeping?
    ensures Logged(WithPhase(s, i, Settled).(passes := s.passes + [i]))
  {
    var t := WithPhase(s, i, Settled).(passes := s.passes + [i]);
    assert t.passes[|s.passes|] == i;
    assert forall p :: 0 <= p < |s.passes| ==> t.passes[p] == s.passes[p] && s.passes[p] != i;
    assert forall k :: 0 <= k < |s.attempts| && k != i ==> t.attempts[k] == s.attempts[k];
    forall k | 0 <= k < |t.attempts| && HasPassed(t.attempts[k]) ensures k in t.passes {
      if k != i {
        assert k in s.passes;
      }
    }
  }

  lemma {:induction false} LoggedSamePasses(s: State, t: State)
    requires Logged(s) && t.passes == s.passes && |t.attempts| >= |s.attempts|
    requires forall k :: 0 <= k < |t.attempts| ==>
      (HasPassed(t.attempts[k]) <==> k < |s.attempts| && HasPassed(s.attempts[k]))
    ensures Logged(t)
  {
  }

  lemma {:induction false} StepKeepsLogged(s: State, delay: nat, a: Action)
    requires Counted(s) && Logged(s) && Enabled(s, delay, a) && |s.attempts| <= U64_LIMIT
    ensures Logged(Step(s, delay, a))
  {
    if a.Check? {
      NewestOnly(s, delay, a.who);
    }
    if a.Check? && s.generation == s.attempts[a.who].ticket {
      LoggedPass(s, a.who);
    } else {
      LoggedSamePasses(s, Step(s, delay, a));
    }
  }

  // ---------- Readers ----------

  /** The reading attempts are exactly the listed ones, each listed once. */
  ghost predicate ReadersListed(s: State) {
    && Unique(s.readers)
    && (forall p :: 0 <= p < |s.readers| ==> s.readers[p] < |s.attempts| && s.attempts[s.readers[p]].phase.Reading?)
    && (forall i :: 0 <= i < |s.attempts| && s.attempts[i].phase.Reading? ==> i in s.readers)
  }

  lemma {:induction false} RemoveOnly(readers: seq<nat>, at: nat)
    requires Unique(readers) && at < |readers|
    ensures var rest := readers[..at] + readers[at + 1..];
      && Unique(rest) && (forall k :: k in rest <==> k in readers && k != readers[at])
  {
    var rest := readers[..at] + readers[at + 1..];
    forall k | k in readers && k != readers[at] ensures k in rest {
      var p := IndexOf(readers, k);
      assert rest[if p < at then p else p - 1] == k;
    }
  }

  lemma {:induction false} PublishKeepsReadersListed(s: State, delay: nat, i: nat)
    requires ReadersListed(s) && Enabled(s, delay, Publish(i))
    ensures ReadersListed(Step(s, delay, Publish(i)))
  {
    var t := Step(s, delay, Publish(i));
    RemoveOnly(s.readers, IndexOf(s.readers, i));
    assert forall k :: 0 <= k < |s.attempts| && k != i ==> t.attempts[k] == s.attempts[k];
    forall p | 0 <= p < |t.readers| ensures t.readers[p] < |t.attempts| && t.attempts[t.readers[p]].phase.Reading? {
      assert t.readers[p] in t.readers;
      assert s.readers[IndexOf(s.readers, t.readers[p])] == t.readers[p];
    }
  }

  lemma {:induction false} ReadKeepsReadersListed(s: State, delay: nat, i: nat)
    requires ReadersListed(s) && Enabled(s, delay, Read(i))
    ensures ReadersListed(Step(s, delay, Read(i)))
  {
    var t := Step(s, delay, Read(i));
    assert i !in s.readers;
    assert t.readers[|s.readers|] == i;
    assert forall p :: 0 <= p < |s.readers| ==> t.readers[p] == s.readers[p];
    assert forall k :: 0 <= k < |s.attempts| && k != i ==> t.attempts[k] == s.attempts[k];
  }

  lemma {:induction false} SamePhasesKeepReadersListed(s: State, t: State)
    requires ReadersListed(s) && t.readers == s.readers && |t.attempts| >= |s.attempts|
    requires forall k :: 0 <= k < |s.attempts| && s.attempts[k].phase.Reading? ==> t.attempts[k].phase.Reading?
    requires forall k :: 0 <= k < |t.attempts| && t.attempts[k].phase.Reading? ==>
      k < |s.attempts| && s.attempts[k].phase.Reading?
    ensures ReadersListed(t)
  {
  }

  lemma {:induction false} StepKeepsReadersListed(s: State, delay: nat, a: Action)
    requires ReadersListed(s) && Enabled(s, delay, a)
    ensures ReadersListed(Step(s, delay, a))
  {
    match a {
      case Read(i) => ReadKeepsReadersListed(s, delay, i);
      case Publish(i) => PublishKeepsReadersListed(s, delay, i);
      case _ => SamePhasesKeepReadersListed(s, Step(s, delay, a));
    }
  }

  // ---------- Whole runs ----------

  /** Every attempt is for a skill that has been written. */
  ghost predicate Known(s: State) {
    forall i :: 0 <= i < |s.attempts| ==> s.attempts[i].skill in s.content
  }

  ghost predicate Invariant(s: State, delay: nat) {
    Counted(s) && Spaced(s, delay) && Logged(s) && ReadersListed(s) && Known(s)
  }

  lemma {:induction false} StepKeepsKnown(s: State, delay: nat, a: Action)
    requires Known(s) && Enabled(s, delay, a)
    ensures Known(Step(s, delay, a))
  {
  }

  lemma {:induction false} StepKeepsInvariant(s: State, delay: nat, a: Action)
    requires Invariant(s, delay) && Enabled(s, delay, a) && |s.attempts| <= U64_LIMIT
    ensures Invariant(Step(s, delay, a), delay) && |Step(s, delay, a).attempts| >= |s.attempts|
  {
    StepKeepsCounted(s, delay, a);
    StepKeepsSpaced(s, delay, a);
    StepKeepsLogged(s, delay, a);
    StepKeepsReadersListed(s, delay, a);
    StepKeepsKnown(s, delay, a);
  }

  /** The state after the actions, or none if one of them was not enabled. */
  function Run(s: State, delay: nat, acts: seq<Action>): Option<State> {
    if acts == [] then Some(s)
    else
      match Run(s, delay, Init(acts))
      case None => None
      case Some(before) => if Enabled(before, delay, Last(acts)) then Some(Step(before, delay, Last(acts))) else None
  }

  /** The actions can all happen, and make no more calls than the counter can tell apart. */
  ghost predicate Happens(delay: nat, acts: seq<Action>) {
    Run(Start(), delay, acts).Some? && |Run(Start(), delay, acts).value.attempts| <= U64_LIMIT
  }

  /** The state after actions that can happen. */
  ghost function End(delay: nat, acts: seq<Action>): State
    requires Happens(delay, acts)
  {
    Run(Start(), delay, acts).value
  }

  lemma {:induction false} LastHappens(delay: nat, acts: seq<Action>)
    requires acts != [] && Happens(delay, acts)
    ensures Happens(delay, Init(acts)) && Enabled(End(delay, Init(acts)), delay, Last(acts))
    ensures End(delay, acts) == Step(End(delay, Init(acts)), delay, Last(acts))
  {
  }

  lemma {:induction false} PrefixHappens(delay: nat, acts: seq<Action>, k: nat)
    requires Happens(delay, acts) && k <= |acts|
    ensures Happens(delay, acts[..k])
  {
    if k == |acts| {
      assert acts[..k] == acts;
    } else {
      LastHappens(delay, acts);
      PrefixHappens(delay, Init(acts), k);
      assert Init(acts)[..k] == acts[..k];
    }
  }

  lemma {:induction false} RunKeepsInvariant(delay: nat, acts: seq<Action>)
    requires Happens(delay, acts)
    ensures Invariant(End(delay, acts), delay)
  {
    if acts != [] {
      LastHappens(delay, acts);
      RunKeepsInvariant(delay, Init(acts));
      StepKeepsInvariant(End(delay, Init(acts)), delay, Last(acts));
    }
  }

  /** Any two calls that pass were made at least `delay` apart, and they pass in the order of their calls. */
  lemma {:induction false} PassesAreSpaced(delay: nat, acts: seq<Action>, p: nat, q: nat)
    requires Happens(delay, acts) && p < q < |End(delay, acts).passes|
    ensures var s := End(delay, acts);
      && s.passes[p] < s.passes[q] < |s.attempts|
      && s.attempts[s.passes[p]].calledAt + delay <= s.attempts[s.passes[q]].calledAt
  {
    RunKeepsInvariant(delay, acts);
  }

  lemma {:induction false} SpacedTimes(s: State, delay: nat, p: nat, q: nat)
    requires SpacedCalls(s.now, s.attempts, delay) && Logged(s) && p <= q < |s.passes|
    ensures s.passes[p] < |s.attempts| && s.passes[q] < |s.attempts|
    ensures s.attempts[s.passes[p]].calledAt + (q - p) * delay <= s.attempts[s.passes[q]].calledAt
    decreases q
  {
    if p < q {
      SpacedTimes(s, delay, p, q - 1);
      assert s.passes[q - 1] < s.passes[q] < |s.attempts|;
      assert (q - p) * delay == (q - 1 - p) * delay + delay;
    }
  }

  /**
    If the p-th to the q-th passing calls were all made within a window, the q - p gaps of at least
    `delay` between them fit into it: a window of length W holds at most W / delay + 1 passing calls.
   */
  lemma {:induction false} RateBound(delay: nat, acts: seq<Action>, window: nat, p: nat, q: nat)
    requires Happens(delay, acts)
    requires var s := End(delay, acts);
      && p <= q < |s.passes| && s.passes[p] < |s.attempts| && s.passes[q] < |s.attempts|
      && s.attempts[s.passes[q]].calledAt <= s.attempts[s.passes[p]].calledAt + window
    ensures (q - p) * delay <= window
  {
    RunKeepsInvariant(delay, acts);
    SpacedTimes(End(delay, acts), delay, p, q);
  }

  /** Once every sleeper has checked, the newest call of all has passed. */
  lemma {:induction false} NewestCallPasses(delay: nat, acts: seq<Action>)
    requires Happens(delay, acts) && End(delay, acts).attempts != []
    requires forall i :: 0 <= i < |End(delay, acts).attempts| ==> !End(delay, acts).attempts[i].phase.Sleeping?
    ensures HasPassed(Last(End(delay, acts).attempts))
  {
    RunKeepsInvariant(delay, acts);
  }

  // ---------- Which calls pass ----------

  /** The number of calls, which is also the number of the next attempt. */
  function Calls(acts: seq<Action>): nat {
    if acts == [] then 0 else Calls(Init(acts)) + if Last(acts).Call? then 1 else 0
  }

  lemma {:induction false} AttemptsAreCalls(delay: nat, acts: seq<Action>)
    requires Happens(delay, acts)
    ensures |End(delay, acts).attempts| == Calls(acts)
  {
    if acts != [] {
      LastHappens(delay, acts);
      AttemptsAreCalls(delay, Init(acts));
    }
  }

  lemma {:induction false} CallsBetween(acts: seq<Action>, c: nat, t: nat)
    requires c < t <= |acts| && acts[c].Call?
    ensures Calls(acts[..t]) > Calls(acts[..c])
    ensures Calls(acts[..t]) == Calls(acts[..c]) + 1 <==> forall k :: c < k < t ==> !acts[k].Call?
  {
    assert Init(acts[..t]) == acts[..t - 1] && Last(acts[..t]) == acts[t - 1];
    if c < t - 1 {
      CallsBetween(acts, c, t - 1);
    }
  }

  /** The outcome of a check never changes again, nor do the skill of an attempt and the time of its call. */
  lemma {:induction false} OutcomeStays(s: State, delay: nat, a: Action, i: nat)
    requires Enabled(s, delay, a) && i < |s.attempts|
    ensures var t := Step(s, delay, a);
      && i < |t.attempts| && t.attempts[i].skill == s.attempts[i].skill
      && t.attempts[i].calledAt == s.attempts[i].calledAt
      && (!s.attempts[i].phase.Sleeping? ==>
            !t.attempts[i].phase.Sleeping? && (HasPassed(t.attempts[i]) <==> HasPassed(s.attempts[i])))
  {
  }

  lemma {:induction false} OutcomeLasts(delay: nat, acts: seq<Action>, t: nat, i: nat)
    requires Happens(delay, acts) && t <= |acts| && Happens(delay, acts[..t]) && i < |End(delay, acts[..t]).attempts|
    ensures var before, end := End(delay, acts[..t]), End(delay, acts);
      && i < |end.attempts| && end.attempts[i].skill == before.attempts[i].skill
      && end.attempts[i].calledAt == before.attempts[i].calledAt
      && (!before.attempts[i].phase.Sleeping? ==>
            !end.attempts[i].phase.Sleeping? && (HasPassed(end.attempts[i]) <==> HasPassed(before.attempts[i])))
  {
    if t == |acts| {
      assert acts[..t] == acts;
    } else {
      LastHappens(delay, acts);
      assert Init(acts)[..t] == acts[..t];
      OutcomeLasts(delay, Init(acts), t, i);
      OutcomeStays(End(delay, Init(acts)), delay, Last(acts), i);
    }
  }

  lemma {:induction false} StepOf(delay: nat, acts: seq<Action>, t: nat)
    requires Happens(delay, acts) && t < |acts|
    ensures Happens(delay, acts[..t]) && Happens(delay, acts[..t + 1])
    ensures Enabled(End(delay, acts[..t]), delay, acts[t])
    ensures End(delay, acts[..t + 1]) == Step(End(delay, acts[..t]), delay, acts[t])
  {
    PrefixHappens(delay, acts, t + 1);
    LastHappens(delay, acts[..t + 1]);
    assert Init(acts[..t + 1]) == acts[..t] && Last(acts[..t + 1]) == acts[t];
  }

  /** The call at position `c` makes the attempt with the number of calls before it, at the time passed until then. */
  lemma {:induction false} CallMakesAttempt(delay: nat, acts: seq<Action>, c: nat)
    requires Happens(delay, acts) && c < |acts| && acts[c].Call?
    ensures Calls(acts[..c]) < |End(delay, acts).attempts|
    ensures End(delay, acts).attempts[Calls(acts[..c])].skill == acts[c].skill
    ensures End(delay, acts).attempts[Calls(acts[..c])].calledAt == Elapsed(acts[..c])
  {
    StepOf(delay, acts, c);
    ClockIsElapsed(delay, acts[..c]);
    AttemptsAreCalls(delay, acts[..c]);
    OutcomeLasts(delay, acts, c + 1, Calls(acts[..c]));
  }

  lemma {:induction false} CheckAt(delay: nat, acts: seq<Action>, c: nat, t: nat)
    requires Happens(delay, acts) && c < t < |acts| && Happens(delay, acts[..t + 1])
    requires acts[c].Call? && acts[t] == Check(Calls(acts[..c]))
    ensures var i, after := Calls(acts[..c]), End(delay, acts[..t + 1]);
      && i < |after.attempts| && !after.attempts[i].phase.Sleeping?
      && (HasPassed(after.attempts[i]) <==> Calls(acts[..t]) == i + 1)
  {
    StepOf(delay, acts, t);
    RunKeepsInvariant(delay, acts[..t]);
    AttemptsAreCalls(delay, acts[..t]);
    NewestOnly(End(delay, acts[..t]), delay, Calls(acts[..c]));
  }

  /**
    One counter serves all skills: the call at position `c`, checked at position `t`, passes exactly
    when no call of any skill comes between. Then, and only then, it goes on to publish its skill.
   */
  lemma {:induction false} CallPassesExactlyWhen(delay: nat, acts: seq<Action>, c: nat, t: nat)
    requires Happens(delay, acts) && c < t < |acts|
    requires acts[c].Call? && acts[t] == Check(Calls(acts[..c]))
    ensures var i, end := Calls(acts[..c]), End(delay, acts);
      && i < |end.attempts| && end.attempts[i].skill == acts[c].skill && !end.attempts[i].phase.Sleeping?
      && (HasPassed(end.attempts[i]) <==> forall k :: c < k < t ==> !acts[k].Call?)
  {
    CallMakesAttempt(delay, acts, c);
    PrefixHappens(delay, acts, t + 1);
    CheckAt(delay, acts, c, t);
    CallsBetween(acts, c, t);
    OutcomeLasts(delay, acts, t + 1, Calls(acts[..c]));
  }

  // ---------- What settles ----------

  /** Every check and every run is over. */
  ghost predicate Over(s: State) {
    forall i :: 0 <= i < |s.attempts| ==> s.attempts[i].phase.Superseded? || s.attempts[i].phase.Published?
  }

  /** What is published of the skill is what its file holds. */
  predicate IsCurrent(s: State, skill: string) {
    skill in s.content && skill in s.published && s.published[skill] == s.content[skill]
  }

  /** Attempt `i` belongs to the last call for the skill. */
  ghost predicate IsLastCall(s: State, skill: string, i: nat) {
    && i < |s.attempts| && s.attempts[i].skill == skill
    && forall k :: i < k < |s.attempts| ==> s.attempts[k].skill != skill
  }

  /** The q-th outstanding read is of the skill. */
  predicate Reads(s: State, q: nat, skill: string) {
    q < |s.readers| && s.readers[q] < |s.attempts| && s.attempts[s.readers[q]].skill == skill
  }

  predicate ReadsEarlier(s: State, q: nat, skill: string) {
    exists r :: 0 <= r < q && r < |s.readers| && Reads(s, r, skill)
  }

  predicate ReadsLater(s: State, q: nat, skill: string) {
    exists r :: q < r < |s.readers| && Reads(s, r, skill)
  }

  /** The run with the newest read of a skill does not publish while an older read of it is still to be published. */
  predicate OvertakesNone(s: State, a: Action) {
    a.Publish? && a.who in s.readers && a.who < |s.attempts| ==>
      var q, skill := IndexOf(s.readers, a.who), s.attempts[a.who].skill;
      ReadsLater(s, q, skill) || !ReadsEarlier(s, q, skill)
  }

  /** The newest outstanding read of the skill has what the file holds. */
  ghost predicate NewestReadIsFresh(s: State, skill: string, q: nat) {
    && Reads(s, q, skill) && !ReadsLater(s, q, skill)
    && skill in s.content && s.attempts[s.readers[q]].phase == Reading(s.content[skill])
  }

  ghost predicate NoneReads(s: State, skill: string) {
    forall q :: 0 <= q < |s.readers| ==> !Reads(s, q, skill)
  }

  /** Attempt `i` has neither read nor published. */
  predicate HasNotRead(s: State, i: nat) {
    i < |s.attempts| && (s.attempts[i].phase.Sleeping? || s.attempts[i].phase.Superseded? ||
      s.attempts[i].phase.Settled?)
  }

  /** The skill's last content is still to be called for, read or published, or was superseded, or is out. */
  ghost predicate IsCarried(s: State, skill: string) {
    skill in s.content ==>
      || skill in s.uncalled
      || (exists i :: IsLastCall(s, skill, i) && HasNotRead(s, i))
      || (exists q :: NewestReadIsFresh(s, skill, q))
      || (NoneReads(s, skill) && IsCurrent(s, skill))
  }

  /** No read happens, no publication, and no call for the skill. */
  ghost predicate LeavesAlone(s: State, t: State, skill: string) {
    && t.readers == s.readers && |t.attempts| >= |s.attempts|
    && (forall k :: 0 <= k < |s.attempts| ==> t.attempts[k].skill == s.attempts[k].skill)
    && (forall k :: 0 <= k < |s.attempts| && s.attempts[k].phase.Reading? ==>
      t.attempts[k].phase == s.attempts[k].phase)
    && (forall k :: 0 <= k < |s.attempts| && HasNotRead(s, k) ==> HasNotRead(t, k))
    && (forall k :: |s.attempts| <= k < |t.attempts| ==> t.attempts[k].skill != skill)
    && skill in s.content && skill in t.content && t.content[skill] == s.content[skill]
    && t.published == s.published
  }

  lemma {:induction false} SameReads(s: State, t: State, skill: string, q: nat)
    requires LeavesAlone(s, t, skill) && ReadersListed(s)
    ensures Reads(t, q, skill) <==> Reads(s, q, skill)
    ensures ReadsLater(t, q, skill) <==> ReadsLater(s, q, skill)
  {
    forall r: nat ensures Reads(t, r, skill) <==> Reads(s, r, skill) {
    }
  }

  lemma {:induction false} LeftAloneIsCarried(s: State, t: State, skill: string)
    requires LeavesAlone(s, t, skill) && ReadersListed(s) && IsCarried(s, skill) && skill !in s.uncalled
    ensures IsCarried(t, skill)
  {
    if i :| IsLastCall(s, skill, i) && HasNotRead(s, i) {
      assert IsLastCall(t, skill, i) && HasNotRead(t, i);
    } else if q :| NewestReadIsFresh(s, skill, q) {
      SameReads(s, t, skill, q);
      assert NewestReadIsFresh(t, skill, q);
    } else {
      forall q | 0 <= q < |t.readers| ensures !Reads(t, q, skill) {
        SameReads(s, t, skill, q);
      }
      assert NoneReads(t, skill);
    }
  }

  lemma {:induction false} NewCallIsCarried(s: State, delay: nat, skill: string)
    requires Enabled(s, delay, Call(skill))
    ensures IsCarried(Step(s, delay, Call(skill)), skill)
  {
    var t := Step(s, delay, Call(skill));
    assert IsLastCall(t, skill, |s.attempts|) && HasNotRead(t, |s.attempts|);
  }

  /** A read of the skill is its newest, and fresh. */
  lemma {:induction false} OwnReadIsCarried(s: State, delay: nat, i: nat)
    requires ReadersListed(s) && Enabled(s, delay, Read(i))
    ensures IsCarried(Step(s, delay, Read(i)), s.attempts[i].skill)
  {
    var t := Step(s, delay, Read(i));
    assert t.readers[|s.readers|] == i;
    assert NewestReadIsFresh(t, s.attempts[i].skill, |s.readers|);
  }

  lemma {:induction false} OtherReadIsCarried(s: State, delay: nat, i: nat, skill: string)
    requires ReadersListed(s) && Enabled(s, delay, Read(i)) && s.attempts[i].skill != skill
    requires IsCarried(s, skill) && skill in s.content && skill !in s.uncalled
    ensures IsCarried(Step(s, delay, Read(i)), skill)
  {
    var t := Step(s, delay, Read(i));
    assert t.readers[|s.readers|] == i;
    assert forall q :: 0 <= q < |s.readers| ==> t.readers[q] == s.readers[q];
    assert forall k :: 0 <= k < |s.attempts| && k != i ==> t.attempts[k] == s.attempts[k];
    forall q: nat ensures Reads(t, q, skill) <==> Reads(s, q, skill) {
    }
    if k :| IsLastCall(s, skill, k) && HasNotRead(s, k) {
      assert IsLastCall(t, skill, k) && HasNotRead(t, k);
    } else if q :| NewestReadIsFresh(s, skill, q) {
      assert NewestReadIsFresh(t, skill, q);
    } else {
      assert NoneReads(t, skill);
    }
  }

  /** What is left of the outstanding reads when the one at position `at` is published. */
  lemma {:induction false} ReadsShift(s: State, delay: nat, i: nat, skill: string, q: nat)
    requires ReadersListed(s) && Enabled(s, delay, Publish(i))
    ensures Reads(Step(s, delay, Publish(i)), q, skill) <==>
      Reads(s, if q < IndexOf(s.readers, i) then q else q + 1, skill)
  {
  }

  lemma {:induction false} OtherPublishIsCarried(s: State, delay: nat, i: nat, skill: string)
    requires ReadersListed(s) && Enabled(s, delay, Publish(i)) && s.attempts[i].skill != skill
    requires IsCarried(s, skill) && skill in s.content && skill !in s.uncalled
    ensures IsCarried(Step(s, delay, Publish(i)), skill)
  {
    var t, at := Step(s, delay, Publish(i)), IndexOf(s.readers, i);
    assert forall k :: 0 <= k < |s.attempts| && k != i ==> t.attempts[k] == s.attempts[k];
    if k :| IsLastCall(s, skill, k) && HasNotRead(s, k) {
      assert IsLastCall(t, skill, k) && HasNotRead(t, k);
    } else if q :| NewestReadIsFresh(s, skill, q) {
      FreshReadShifts(s, delay, i, skill, q);
    } else {
      forall q | 0 <= q < |t.readers| ensures !Reads(t, q, skill) {
        ReadsShift(s, delay, i, skill, q);
      }
      assert NoneReads(t, skill);
    }
  }

  /** The newest read of a skill stays the newest, and fresh, when another is published. */
  lemma {:induction false} FreshReadShifts(s: State, delay: nat, i: nat, skill: string, q: nat)
    requires ReadersListed(s) && Enabled(s, delay, Publish(i)) && NewestReadIsFresh(s, skill, q) && s.readers[q] != i
    ensures exists p :: NewestReadIsFresh(Step(s, delay, Publish(i)), skill, p)
  {
    var t, at := Step(s, delay, Publish(i)), IndexOf(s.readers, i);
    var p := if q < at then q else q - 1;
    ReadsShift(s, delay, i, skill, p);
    forall r | p < r < |t.readers| ensures !Reads(t, r, skill) {
      ReadsShift(s, delay, i, skill, r);
    }
    assert t.readers[p] == s.readers[q];
    assert NewestReadIsFresh(t, skill, p);
  }

  lemma {:induction false} OwnPublishIsCarried(s: State, delay: nat, i: nat, skill: string)
    requires ReadersListed(s) && Enabled(s, delay, Publish(i)) && s.attempts[i].skill == skill
    requires IsCarried(s, skill) && skill in s.content && skill !in s.uncalled && OvertakesNone(s, Publish(i))
    ensures IsCarried(Step(s, delay, Publish(i)), skill)
  {
    var t, at := Step(s, delay, Publish(i)), IndexOf(s.readers, i);
    assert forall k :: 0 <= k < |s.attempts| && k != i ==> t.attempts[k] == s.attempts[k];
    if k :| IsLastCall(s, skill, k) && HasNotRead(s, k) {
      assert IsLastCall(t, skill, k) && HasNotRead(t, k);
    } else if q :| NewestReadIsFresh(s, skill, q) {
      if q == at {
        forall r | 0 <= r < |t.readers| ensures !Reads(t, r, skill) {
          ReadsShift(s, delay, i, skill, r);
        }
        assert NoneReads(t, skill) && IsCurrent(t, skill);
      } else {
        FreshReadShifts(s, delay, i, skill, q);
      }
    } else {
      assert Reads(s, at, skill);
    }
  }

  lemma {:induction false} StepKeepsCarried(s: State, delay: nat, a: Action, skill: string)
    requires ReadersListed(s) && IsCarried(s, skill) && Enabled(s, delay, a) && OvertakesNone(s, a)
    ensures IsCarried(Step(s, delay, a), skill)
  {
    var t := Step(s, delay, a);
    if skill in t.content && skill !in t.uncalled {
      if a == Call(skill) {
        NewCallIsCarried(s, delay, skill);
      } else if a.Read? {
        if s.attempts[a.who].skill == skill {
          OwnReadIsCarried(s, delay, a.who);
        } else {
          OtherReadIsCarried(s, delay, a.who, skill);
        }
      } else if a.Publish? {
        if s.attempts[a.who].skill == skill {
          OwnPublishIsCarried(s, delay, a.who, skill);
        } else {
          OtherPublishIsCarried(s, delay, a.who, skill);
        }
      } else {
        LeftAloneIsCarried(s, t, skill);
      }
    }
  }

  /** At every publication of the run, the newest read of the skill waits for the older ones. */
  predicate NewestReadWaits(s: State, delay: nat, acts: seq<Action>) {
    acts == [] ||
    (NewestReadWaits(s, delay, Init(acts))
     && match Run(s, delay, Init(acts))
        case None => true
        case Some(before) => OvertakesNone(before, Last(acts)))
  }

  lemma {:induction false} RunKeepsCarried(delay: nat, acts: seq<Action>, skill: string)
    requires Happens(delay, acts) && NewestReadWaits(Start(), delay, acts)
    ensures IsCarried(End(delay, acts), skill)
  {
    if acts != [] {
      LastHappens(delay, acts);
      RunKeepsCarried(delay, Init(acts), skill);
      RunKeepsInvariant(delay, Init(acts));
      StepKeepsCarried(End(delay, Init(acts)), delay, Last(acts), skill);
    }
  }

  // ---------- What the writes of a run leave ----------

  predicate Writes(a: Action, skill: string) {
    a.Write? && a.skill == skill
  }

  /** The action at position `w` is the last write to the skill. */
  ghost predicate IsLastWrite(acts: seq<Action>, w: nat, skill: string) {
    w < |acts| && Writes(acts[w], skill) && forall k :: w < k < |acts| ==> !Writes(acts[k], skill)
  }

  lemma {:induction false} StepContent(s: State, delay: nat, a: Action, skill: string)
    requires Enabled(s, delay, a)
    ensures var t := Step(s, delay, a);
      && (skill in t.content <==> skill in s.content || Writes(a, skill))
      && (skill in t.content ==> t.content[skill] == if Writes(a, skill) then a.text else s.content[skill])
      && (skill in t.uncalled <==> Writes(a, skill) || (skill in s.uncalled && a != Call(skill)))
  {
  }

  lemma {:induction false} WriteStaysLast(acts: seq<Action>, w: nat, skill: string)
    requires acts != [] && IsLastWrite(Init(acts), w, skill) && !Writes(Last(acts), skill)
    ensures IsLastWrite(acts, w, skill) && acts[w] == Init(acts)[w]
  {
  }

  /** A file that holds something holds the last text written to it. */
  lemma {:induction false} ContentIsLastWrite(delay: nat, acts: seq<Action>, skill: string) returns (w: nat)
    requires Happens(delay, acts) && skill in End(delay, acts).content
    ensures IsLastWrite(acts, w, skill) && End(delay, acts).content[skill] == acts[w].text
    ensures skill in End(delay, acts).uncalled <==> forall k :: w < k < |acts| ==> acts[k] != Call(skill)
  {
    LastHappens(delay, acts);
    StepContent(End(delay, Init(acts)), delay, Last(acts), skill);
    if Writes(Last(acts), skill) {
      w := |acts| - 1;
    } else {
      w := ContentIsLastWrite(delay, Init(acts), skill);
      WriteStaysLast(acts, w, skill);
      assert forall k :: w < k < |acts| - 1 ==> Init(acts)[k] == acts[k];
      assert (forall k :: w < k < |acts| ==> acts[k] != Call(skill)) <==>
        (forall k :: w < k < |acts| - 1 ==> Init(acts)[k] != Call(skill)) && acts[|acts| - 1] != Call(skill);
    }
  }

  /** And a skill that was written has content. */
  lemma {:induction false} WrittenHasContent(delay: nat, acts: seq<Action>, skill: string, w: nat)
    requires Happens(delay, acts) && w < |acts| && Writes(acts[w], skill)
    ensures skill in End(delay, acts).content
  {
    LastHappens(delay, acts);
    StepContent(End(delay, Init(acts)), delay, Last(acts), skill);
    if w < |acts| - 1 {
      WrittenHasContent(delay, Init(acts), skill, w);
    }
  }

  // ---------- What a publication puts out ----------

  lemma {:induction false} ReadingBefore(s: State, delay: nat, a: Action, i: nat)
    requires Enabled(s, delay, a) && i < |Step(s, delay, a).attempts| && Step(s, delay, a).attempts[i].phase.Reading?
    ensures a != Read(i) ==> i < |s.attempts| && s.attempts[i] == Step(s, delay, a).attempts[i]
    ensures a == Read(i) ==>
      && i < |s.attempts| && s.attempts[i].skill in s.content
      && Step(s, delay, a).attempts[i] == s.attempts[i].(phase := Reading(s.content[s.attempts[i].skill]))
  {
  }

  /** The file of the skill holds `text` after the actions. */
  ghost predicate Holds(delay: nat, acts: seq<Action>, skill: string, text: string) {
    Happens(delay, acts) && skill in End(delay, acts).content && End(delay, acts).content[skill] == text
  }

  /** An outstanding read has what the file held when it was made. */
  lemma {:induction false} ReadWasHeld(delay: nat, acts: seq<Action>, i: nat) returns (r: nat)
    requires Happens(delay, acts) && i < |End(delay, acts).attempts| && End(delay, acts).attempts[i].phase.Reading?
    ensures r < |acts| && acts[r] == Read(i)
    ensures var a := End(delay, acts).attempts[i]; Holds(delay, acts[..r], a.skill, a.phase.content)
  {
    LastHappens(delay, acts);
    ReadingBefore(End(delay, Init(acts)), delay, Last(acts), i);
    if Last(acts) == Read(i) {
      r := |acts| - 1;
      assert acts[..r] == Init(acts);
    } else {
      r := ReadWasHeld(delay, Init(acts), i);
      assert Init(acts)[..r] == acts[..r];
    }
  }

  /** The action publishes the skill of attempt `i`. */
  predicate Publishes(attempts: seq<Attempt>, a: Action, skill: string) {
    a.Publish? && a.who < |attempts| && attempts[a.who].skill == skill
  }

  ghost predicate IsLastPublication(attempts: seq<Attempt>, acts: seq<Action>, p: nat, skill: string) {
    && p < |acts| && Publishes(attempts, acts[p], skill)
    && forall k :: p < k < |acts| ==> !Publishes(attempts, acts[k], skill)
  }

  lemma {:induction false} StepPublished(s: State, delay: nat, a: Action, skill: string)
    requires Enabled(s, delay, a)
    ensures var t := Step(s, delay, a);
      if Publishes(s.attempts, a, skill) then
        skill in t.published && s.attempts[a.who].phase == Reading(t.published[skill])
      else if skill in s.published then
        skill in t.published && t.published[skill] == s.published[skill]
      else
        skill !in t.published
  {
  }

  lemma {:induction false} PublicationStaysLast(before: seq<Attempt>, after: seq<Attempt>, acts: seq<Action>, p: nat,
      skill: string)
    requires acts != [] && IsLastPublication(before, Init(acts), p, skill)
    requires |before| <= |after| && forall i :: 0 <= i < |before| ==> after[i].skill == before[i].skill
    requires forall k :: 0 <= k < |acts| && acts[k].Publish? ==> acts[k].who < |before|
    requires !Publishes(before, Last(acts), skill)
    ensures IsLastPublication(after, acts, p, skill) && acts[p] == Init(acts)[p]
  {
    forall k | p < k < |acts| ensures !Publishes(after, acts[k], skill) {
      if k < |acts| - 1 {
        assert Init(acts)[k] == acts[k];
      }
    }
  }

  lemma {:induction false} PublishersAreCalled(delay: nat, acts: seq<Action>, k: nat)
    requires Happens(delay, acts) && k < |acts| && acts[k].Publish?
    ensures acts[k].who < |End(delay, acts).attempts|
  {
    StepOf(delay, acts, k);
    OutcomeLasts(delay, acts, k, acts[k].who);
    AttemptsAreCalls(delay, acts);
    AttemptsAreCalls(delay, acts[..k]);
    CallsGrow(acts, k);
  }

  lemma {:induction false} CallsGrow(acts: seq<Action>, k: nat)
    requires k <= |acts|
    ensures Calls(acts[..k]) <= Calls(acts)
  {
    if k == |acts| {
      assert acts[..k] == acts;
    } else {
      CallsGrow(Init(acts), k);
      assert Init(acts)[..k] == acts[..k];
    }
  }

  /**
    What is out of a skill is what the last run that published it read: the text its file held at that
    read, not at the call and not at the publication.
   */
  lemma {:induction false} PublishedIsLastRead(delay: nat, acts: seq<Action>, skill: string) returns (r: nat, p: nat)
    requires Happens(delay, acts) && skill in End(delay, acts).published
    ensures IsLastPublication(End(delay, acts).attempts, acts, p, skill)
    ensures r < p && acts[r] == Read(acts[p].who)
    ensures Holds(delay, acts[..r], skill, End(delay, acts).published[skill])
  {
    var prior := Init(acts);
    LastHappens(delay, acts);
    var s := End(delay, prior);
    StepPublished(s, delay, Last(acts), skill);
    if Publishes(s.attempts, Last(acts), skill) {
      p := |acts| - 1;
      r := ReadWasHeld(delay, prior, Last(acts).who);
      OutcomeStays(s, delay, Last(acts), Last(acts).who);
      assert prior[..r] == acts[..r];
    } else {
      r, p := PublishedIsLastRead(delay, prior, skill);
      assert prior[..r] == acts[..r];
      LaterAttempts(delay, acts, p, skill);
    }
  }

  lemma {:induction false} LaterAttempts(delay: nat, acts: seq<Action>, p: nat, skill: string)
    requires Happens(delay, acts) && acts != [] && Happens(delay, Init(acts))
    requires IsLastPublication(End(delay, Init(acts)).attempts, Init(acts), p, skill)
    requires !Publishes(End(delay, Init(acts)).attempts, Last(acts), skill)
    ensures IsLastPublication(End(delay, acts).attempts, acts, p, skill) && acts[p] == Init(acts)[p]
  {
    var prior := Init(acts);
    LastHappens(delay, acts);
    var s, t := End(delay, prior), End(delay, acts);
    forall i | 0 <= i < |s.attempts| ensures i < |t.attempts| && t.attempts[i].skill == s.attempts[i].skill {
      OutcomeStays(s, delay, Last(acts), i);
    }
    forall k | 0 <= k < |acts| && acts[k].Publish? ensures acts[k].who < |s.attempts| {
      if k < |acts| - 1 {
        PublishersAreCalled(delay, prior, k);
        assert prior[k] == acts[k];
      }
    }
    StepKeepsCount(s, delay, Last(acts));
    PublicationStaysLast(s.attempts, t.attempts, acts, p, skill);
  }

  lemma {:induction false} StepKeepsCount(s: State, delay: nat, a: Action)
    requires Enabled(s, delay, a)
    ensures |s.attempts| <= |Step(s, delay, a).attempts|
  {
  }

  /** The time that has passed. */
  function Elapsed(acts: seq<Action>): nat {
    if acts == [] then 0 else Elapsed(Init(acts)) + if Last(acts).Tick? then Last(acts).elapsed else 0
  }

  lemma {:induction false} ClockIsElapsed(delay: nat, acts: seq<Action>)
    requires Happens(delay, acts)
    ensures End(delay, acts).now == Elapsed(acts)
  {
    if acts != [] {
      LastHappens(delay, acts);
      ClockIsElapsed(delay, Init(acts));
    }
  }

  lemma {:induction false} ReaderIsNotOver(s: State)
    requires ReadersListed(s) && s.readers != []
    ensures !Over(s)
  {
    assert s.attempts[s.readers[0]].phase.Reading?;
  }

  /**
    Runs may overlap: as long as the newest read of a skill waits for the older ones to publish, and the
    skill's last call passed its check, what settles of the skill is the last text written to it.
   */
  lemma {:induction false} SettledContentIsLatest(delay: nat, acts: seq<Action>, skill: string, i: nat)
    returns (w: nat)
    requires Happens(delay, acts) && NewestReadWaits(Start(), delay, acts)
    requires var s := End(delay, acts);
      && Over(s) && skill in s.content && skill !in s.uncalled
      && IsLastCall(s, skill, i) && HasPassed(s.attempts[i])
    ensures IsLastWrite(acts, w, skill)
    ensures skill in End(delay, acts).published && End(delay, acts).published[skill] == acts[w].text
  {
    SettledIsCurrent(delay, acts, skill, i);
    w := ContentIsLastWrite(delay, acts, skill);
  }

  lemma {:induction false} SettledIsCurrent(delay: nat, acts: seq<Action>, skill: string, i: nat)
    requires Happens(delay, acts) && NewestReadWaits(Start(), delay, acts)
    requires var s := End(delay, acts);
      && Over(s) && skill in s.content && skill !in s.uncalled
      && IsLastCall(s, skill, i) && HasPassed(s.attempts[i])
    ensures IsCurrent(End(delay, acts), skill)
  {
    RunKeepsInvariant(delay, acts);
    RunKeepsCarried(delay, acts, skill);
    if End(delay, acts).readers != [] {
      ReaderIsNotOver(End(delay, acts));
    }
  }

  // ---------- Runs that are quick enough ----------

  /** The attempt has passed its check and is not done yet. */
  predicate IsActive(a: Attempt) {
    a.phase.Settled? || a.phase.Reading?
  }

  /** Every run is done within `delay` after the earliest time at which its check could pass. */
  ghost predicate Prompt(s: State, delay: nat) {
    forall i :: 0 <= i < |s.attempts| && IsActive(s.attempts[i]) ==> s.now < s.attempts[i].calledAt + 2 * delay
  }

  ghost predicate AlwaysPrompt(delay: nat, acts: seq<Action>) {
    acts == [] ||
    (AlwaysPrompt(delay, Init(acts))
     && match Run(Start(), delay, acts)
        case None => true
        case Some(s) => Prompt(s, delay))
  }

  ghost predicate OneAtATime(s: State) {
    forall i, j :: 0 <= i < j < |s.attempts| && IsActive(s.attempts[i]) ==> !IsActive(s.attempts[j])
  }

  lemma {:induction false} CheckKeepsOneAtATime(s: State, delay: nat, i: nat)
    requires Counted(s) && Spaced(s, delay) && OneAtATime(s) && Prompt(s, delay) && |s.attempts| <= U64_LIMIT
    requires Enabled(s, delay, Check(i))
    ensures OneAtATime(Step(s, delay, Check(i)))
  {
    NewestOnly(s, delay, i);
    var t := Step(s, delay, Check(i));
    assert forall k :: 0 <= k < |s.attempts| && k != i ==> t.attempts[k] == s.attempts[k];
    if i == |s.attempts| - 1 {
      forall k | 0 <= k < i ensures !IsActive(s.attempts[k]) {
        assert HasPassed(s.attempts[k]) ==> s.attempts[k].calledAt + delay <= s.attempts[i].calledAt;
      }
    }
  }

  lemma {:induction false} StepKeepsOneAtATime(s: State, delay: nat, a: Action)
    requires Counted(s) && Spaced(s, delay) && OneAtATime(s) && Prompt(s, delay) && |s.attempts| <= U64_LIMIT
    requires Enabled(s, delay, a)
    ensures OneAtATime(Step(s, delay, a))
  {
    if a.Check? {
      CheckKeepsOneAtATime(s, delay, a.who);
    } else {
      var t := Step(s, delay, a);
      assert forall k :: 0 <= k < |t.attempts| && IsActive(t.attempts[k]) ==>
        k < |s.attempts| && IsActive(s.attempts[k]);
    }
  }

  lemma {:induction false} OneReaderAtMost(s: State)
    requires ReadersListed(s) && OneAtATime(s)
    ensures |s.readers| <= 1
  {
    assert |s.readers| > 1 ==>
      s.readers[0] != s.readers[1] && IsActive(s.attempts[s.readers[0]]) && IsActive(s.attempts[s.readers[1]]);
  }

  lemma {:induction false} OneAtATimeOvertakesNone(s: State, a: Action)
    requires ReadersListed(s) && OneAtATime(s)
    ensures OvertakesNone(s, a)
  {
    OneReaderAtMost(s);
  }

  /** Prompt runs never overlap, so the newest read never has an older one to wait for. */
  lemma {:induction false} PromptRunsWait(delay: nat, acts: seq<Action>)
    requires Happens(delay, acts) && AlwaysPrompt(delay, acts)
    ensures OneAtATime(End(delay, acts)) && Prompt(End(delay, acts), delay) && NewestReadWaits(Start(), delay, acts)
  {
    if acts != [] {
      LastHappens(delay, acts);
      PromptRunsWait(delay, Init(acts));
      RunKeepsInvariant(delay, Init(acts));
      OneAtATimeOvertakesNone(End(delay, Init(acts)), Last(acts));
      StepKeepsOneAtATime(End(delay, Init(acts)), delay, Last(acts));
    }
  }

  lemma {:induction false} StillLastCall(s: State, delay: nat, a: Action, skill: string, i: nat)
    requires IsLastCall(s, skill, i) && Enabled(s, delay, a) && a != Call(skill)
    ensures IsLastCall(Step(s, delay, a), skill, i)
  {
    var t := Step(s, delay, a);
    assert forall k :: 0 <= k < |s.attempts| ==> t.attempts[k].skill == s.attempts[k].skill;
  }

  lemma {:induction false} NoLaterCall(delay: nat, acts: seq<Action>, c: nat)
    requires Happens(delay, acts) && c < |acts| && acts[c].Call?
    requires forall k :: c < k < |acts| ==> acts[k] != acts[c]
    ensures IsLastCall(End(delay, acts), acts[c].skill, Calls(acts[..c]))
  {
    LastHappens(delay, acts);
    if c == |acts| - 1 {
      assert acts[..c] == Init(acts);
      AttemptsAreCalls(delay, Init(acts));
    } else {
      assert Init(acts)[..c] == acts[..c];
      NoLaterCall(delay, Init(acts), c);
      assert acts[|acts| - 1] != acts[c];
      StillLastCall(End(delay, Init(acts)), delay, Last(acts), acts[c].skill, Calls(acts[..c]));
    }
  }

  /**
    The last edit of a skill arrives if its last call comes behind its last write, is followed by no call
    of any skill before its check, and every run is prompt: nothing else about the schedule matters.
   */
  lemma {:induction false} LastEditArrives(delay: nat, acts: seq<Action>, w: nat, c: nat, t: nat)
    requires Happens(delay, acts) && AlwaysPrompt(delay, acts) && w < c < t < |acts|
    requires acts[c].Call? && IsLastWrite(acts, w, acts[c].skill) && acts[t] == Check(Calls(acts[..c]))
    requires forall k :: c < k < |acts| ==> acts[k] != acts[c]
    requires forall k :: c < k < t ==> !acts[k].Call?
    requires Over(End(delay, acts))
    ensures var skill, published := acts[c].skill, End(delay, acts).published;
      skill in published && published[skill] == acts[w].text
  {
    var skill := acts[c].skill;
    WrittenHasContent(delay, acts, skill, w);
    var last := ContentIsLastWrite(delay, acts, skill);
    assert last == w;
    assert acts[c] == Call(skill);
    PromptRunsWait(delay, acts);
    RunKeepsInvariant(delay, acts);
    CallPassesExactlyWhen(delay, acts, c, t);
    NoLaterCall(delay, acts, c);
    last := SettledContentIsLatest(delay, acts, skill, Calls(acts[..c]));
  }

  // ---------- When what settles is certain ----------

  /** No more writes and calls: time passes, and what was begun goes on in any order. */
  predicate OnlyContinues(acts: seq<Action>) {
    forall k :: 0 <= k < |acts| ==> !acts[k].Write? && !acts[k].Call?
  }

  /** However what was begun goes on, once everything is over what is published of the skill is current. */
  ghost predicate EveryEndIsCurrent(s: State, delay: nat, skill: string) {
    forall acts: seq<Action> ::
      OnlyContinues(acts) && Run(s, delay, acts).Some? && Over(Run(s, delay, acts).value) ==>
        IsCurrent(Run(s, delay, acts).value, skill)
  }

  /** No outstanding read of the skill is of anything but what its file holds now. */
  ghost predicate NoStaleRead(s: State, skill: string)
    requires skill in s.content
  {
    forall i :: 0 <= i < |s.attempts| && s.attempts[i].skill == skill && s.attempts[i].phase.Reading? ==>
      s.attempts[i].phase.content == s.content[skill]
  }

  /** Attempt `i` is going to publish: it has passed its check, or is asleep and the newest of all. */
  predicate IsGoing(s: State, i: nat) {
    i < |s.attempts| && (IsActive(s.attempts[i]) || (s.attempts[i].phase.Sleeping? && i == |s.attempts| - 1))
  }

  ghost predicate WillPublish(s: State, skill: string) {
    exists i :: 0 <= i < |s.attempts| && s.attempts[i].skill == skill && IsGoing(s, i)
  }

  /** Nothing stale is on its way, and the current content is out or on its way. */
  ghost predicate IsCertain(s: State, skill: string)
    requires skill in s.content
  {
    NoStaleRead(s, skill) && (WillPublish(s, skill) || IsCurrent(s, skill))
  }

  lemma {:induction false} StepKeepsGoing(s: State, delay: nat, a: Action, i: nat)
    requires Counted(s) && |s.attempts| <= U64_LIMIT && Enabled(s, delay, a) && OnlyContinues([a])
    requires i < |s.attempts| && a != Publish(i)
    ensures i < |Step(s, delay, a).attempts| && (IsGoing(Step(s, delay, a), i) <==> IsGoing(s, i))
  {
    assert !a.Write? && !a.Call? by {
      assert a == [a][0];
    }
    if a.Check? {
      NewestOnly(s, delay, a.who);
    }
  }

  lemma {:induction false} StepKeepsNoStaleRead(s: State, delay: nat, a: Action, skill: string)
    requires Enabled(s, delay, a) && OnlyContinues([a]) && skill in s.content && NoStaleRead(s, skill)
    ensures Step(s, delay, a).content == s.content && NoStaleRead(Step(s, delay, a), skill)
  {
    assert !a.Write? && !a.Call? by {
      assert a == [a][0];
    }
    var t := Step(s, delay, a);
    forall k | 0 <= k < |t.attempts| && t.attempts[k].skill == skill && t.attempts[k].phase.Reading?
      ensures t.attempts[k].phase.content == s.content[skill]
    {
      assert t.attempts[k].skill == s.attempts[k].skill;
      assert t.attempts[k] == s.attempts[k] || (a == Read(k) && t.attempts[k].phase == Reading(s.content[skill]));
    }
  }

  lemma {:induction false} StepKeepsCertain(s: State, delay: nat, a: Action, skill: string)
    requires Counted(s) && |s.attempts| <= U64_LIMIT && Enabled(s, delay, a) && OnlyContinues([a])
    requires skill in s.content && IsCertain(s, skill)
    ensures Step(s, delay, a).content == s.content && IsCertain(Step(s, delay, a), skill)
  {
    StepKeepsNoStaleRead(s, delay, a, skill);
    var t := Step(s, delay, a);
    if i :| 0 <= i < |s.attempts| && s.attempts[i].skill == skill && IsGoing(s, i) && a != Publish(i) {
      StepKeepsGoing(s, delay, a, i);
      OutcomeStays(s, delay, a, i);
      assert WillPublish(t, skill);
    } else {
      assert IsCurrent(t, skill);
    }
  }

  /** Nothing is going to publish the skill, and what is out is not current. */
  ghost predicate IsLost(s: State, skill: string) {
    !WillPublish(s, skill) && !IsCurrent(s, skill)
  }

  lemma {:induction false} StepKeepsLost(s: State, delay: nat, a: Action, skill: string)
    requires Counted(s) && |s.attempts| <= U64_LIMIT && Enabled(s, delay, a) && OnlyContinues([a])
    requires IsLost(s, skill)
    ensures IsLost(Step(s, delay, a), skill)
  {
    assert !a.Write? && !a.Call? by {
      assert a == [a][0];
    }
    var t := Step(s, delay, a);
    forall i | 0 <= i < |t.attempts| && t.attempts[i].skill == skill ensures !IsGoing(t, i) {
      OutcomeStays(s, delay, a, i);
      assert s.attempts[i].skill == skill && !IsGoing(s, i);
      if a != Publish(i) {
        StepKeepsGoing(s, delay, a, i);
      }
    }
    if a.Publish? {
      assert IsGoing(s, a.who);
      assert s.attempts[a.who].skill != skill;
    }
  }

  // Runs that only continue.

  lemma {:induction false} LastContinues(s: State, delay: nat, acts: seq<Action>)
    requires acts != [] && OnlyContinues(acts) && Run(s, delay, acts).Some?
    ensures OnlyContinues(Init(acts)) && OnlyContinues([Last(acts)]) && Run(s, delay, Init(acts)).Some?
    ensures var before := Run(s, delay, Init(acts)).value;
      Enabled(before, delay, Last(acts)) && Run(s, delay, acts).value == Step(before, delay, Last(acts))
  {
  }

  lemma {:induction false} ContinuingKeepsInvariant(s: State, delay: nat, acts: seq<Action>)
    requires Invariant(s, delay) && |s.attempts| <= U64_LIMIT && OnlyContinues(acts) && Run(s, delay, acts).Some?
    ensures Invariant(Run(s, delay, acts).value, delay) && |Run(s, delay, acts).value.attempts| == |s.attempts|
  {
    if acts != [] {
      LastContinues(s, delay, acts);
      ContinuingKeepsInvariant(s, delay, Init(acts));
      assert [Last(acts)][0] == Last(acts);
      StepKeepsInvariant(Run(s, delay, Init(acts)).value, delay, Last(acts));
    }
  }

  lemma {:induction false} ContinuingKeepsCertain(s: State, delay: nat, acts: seq<Action>, skill: string)
    requires Invariant(s, delay) && |s.attempts| <= U64_LIMIT && OnlyContinues(acts) && Run(s, delay, acts).Some?
    requires skill in s.content && IsCertain(s, skill)
    ensures Run(s, delay, acts).value.content == s.content && IsCertain(Run(s, delay, acts).value, skill)
  {
    if acts != [] {
      LastContinues(s, delay, acts);
      ContinuingKeepsInvariant(s, delay, Init(acts));
      ContinuingKeepsCertain(s, delay, Init(acts), skill);
      StepKeepsCertain(Run(s, delay, Init(acts)).value, delay, Last(acts), skill);
    }
  }

  lemma {:induction false} ContinuingKeepsLost(s: State, delay: nat, acts: seq<Action>, skill: string)
    requires Invariant(s, delay) && |s.attempts| <= U64_LIMIT && OnlyContinues(acts) && Run(s, delay, acts).Some?
    requires IsLost(s, skill)
    ensures IsLost(Run(s, delay, acts).value, skill)
  {
    if acts != [] {
      LastContinues(s, delay, acts);
      ContinuingKeepsInvariant(s, delay, Init(acts));
      ContinuingKeepsLost(s, delay, Init(acts), skill);
      StepKeepsLost(Run(s, delay, Init(acts)).value, delay, Last(acts), skill);
    }
  }

  // Bringing everything to an end.

  lemma {:induction false} RunAppend(s: State, delay: nat, acts: seq<Action>, more: seq<Action>)
    requires Run(s, delay, acts).Some?
    ensures Run(s, delay, acts + more) == Run(Run(s, delay, acts).value, delay, more)
  {
    if more == [] {
      assert acts + more == acts;
    } else {
      RunAppend(s, delay, acts, Init(more));
      assert Init(acts + more) == acts + Init(more) && Last(acts + more) == Last(more);
    }
  }

  lemma {:induction false} RunOne(s: State, delay: nat, a: Action)
    requires Enabled(s, delay, a)
    ensures Run(s, delay, [a]) == Some(Step(s, delay, a))
  {
    assert Init([a]) == [];
  }

  predicate IsDone(a: Attempt) {
    a.phase.Superseded? || a.phase.Published?
  }

  /** How many actions an attempt can still take. */
  function Left(phase: Phase): nat {
    match phase
    case Sleeping => 3
    case Settled => 2
    case Reading(_) => 1
    case Superseded => 0
    case Published => 0
  }

  /** Only attempt `i` has gone on; the clock and the files are as they were. */
  ghost predicate OnlyAdvances(s: State, t: State, i: nat) {
    && t.now == s.now && t.content == s.content && |t.attempts| == |s.attempts|
    && forall k :: 0 <= k < |s.attempts| && k != i ==> t.attempts[k] == s.attempts[k]
  }

  function NextOf(s: State, i: nat): Action
    requires i < |s.attempts|
  {
    if s.attempts[i].phase.Sleeping? then Check(i) else if s.attempts[i].phase.Settled? then Read(i) else Publish(i)
  }

  lemma {:induction false} NextAdvances(s: State, delay: nat, i: nat)
    requires Invariant(s, delay) && |s.attempts| <= U64_LIMIT && i < |s.attempts| && !IsDone(s.attempts[i])
    requires s.attempts[i].phase.Sleeping? ==> s.now >= s.attempts[i].calledAt + delay
    ensures var a := NextOf(s, i);
      && Enabled(s, delay, a) && OnlyContinues([a]) && Invariant(Step(s, delay, a), delay)
      && OnlyAdvances(s, Step(s, delay, a), i) && !Step(s, delay, a).attempts[i].phase.Sleeping?
      && Left(Step(s, delay, a).attempts[i].phase) < Left(s.attempts[i].phase)
  {
    var a := NextOf(s, i);
    StepKeepsInvariant(s, delay, a);
  }

  /** The actions, none of them a write or a call, lead from `s` to `t`. */
  ghost predicate Reaches(s: State, delay: nat, acts: seq<Action>, t: State) {
    OnlyContinues(acts) && Run(s, delay, acts) == Some(t)
  }

  lemma {:induction false} ReachesOne(s: State, delay: nat, a: Action)
    requires Enabled(s, delay, a) && OnlyContinues([a])
    ensures Reaches(s, delay, [a], Step(s, delay, a))
  {
    RunOne(s, delay, a);
  }

  lemma {:induction false} ReachesOn(s: State, delay: nat, acts: seq<Action>, t: State, more: seq<Action>, u: State)
    requires Reaches(s, delay, acts, t) && Reaches(t, delay, more, u)
    ensures Reaches(s, delay, acts + more, u)
  {
    RunAppend(s, delay, acts, more);
  }

  lemma {:induction false} Finish(s: State, delay: nat, i: nat) returns (acts: seq<Action>, t: State)
    requires Invariant(s, delay) && |s.attempts| <= U64_LIMIT && i < |s.attempts|
    requires s.attempts[i].phase.Sleeping? ==> s.now >= s.attempts[i].calledAt + delay
    ensures Reaches(s, delay, acts, t) && Invariant(t, delay)
    ensures OnlyAdvances(s, t, i) && IsDone(t.attempts[i])
    decreases Left(s.attempts[i].phase)
  {
    if IsDone(s.attempts[i]) {
      acts, t := [], s;
    } else {
      var a := NextOf(s, i);
      NextAdvances(s, delay, i);
      ReachesOne(s, delay, a);
      var more;
      more, t := Finish(Step(s, delay, a), delay, i);
      ReachesOn(s, delay, [a], Step(s, delay, a), more, t);
      acts := [a] + more;
    }
  }

  /** From `s` to `t` the first `n` attempts were brought to an end, all but `spared`, and nothing else happened. */
  ghost predicate FinishedUpTo(s: State, t: State, n: nat, spared: nat) {
    && t.now == s.now && t.content == s.content && |t.attempts| == |s.attempts|
    && (forall k :: 0 <= k < |t.attempts| && k < n && k != spared ==> IsDone(t.attempts[k]))
    && (forall k :: 0 <= k < |s.attempts| && (k >= n || k == spared) ==> t.attempts[k] == s.attempts[k])
  }

  lemma {:induction false} FinishedOneMore(s: State, t: State, u: State, n: nat, spared: nat)
    requires FinishedUpTo(s, t, n, spared) && n < |s.attempts| && n != spared
    requires OnlyAdvances(t, u, n) && IsDone(u.attempts[n])
    ensures FinishedUpTo(s, u, n + 1, spared)
  {
  }

  ghost predicate AllDue(s: State, delay: nat) {
    forall k :: 0 <= k < |s.attempts| && s.attempts[k].phase.Sleeping? ==> s.now >= s.attempts[k].calledAt + delay
  }

  lemma {:induction false} FinishNext(s: State, t: State, delay: nat, n: nat, spared: nat)
    returns (acts: seq<Action>, u: State)
    requires AllDue(s, delay) && FinishedUpTo(s, t, n, spared) && n < |s.attempts| <= U64_LIMIT && n != spared
    requires Invariant(t, delay)
    ensures Reaches(t, delay, acts, u) && Invariant(u, delay) && FinishedUpTo(s, u, n + 1, spared)
  {
    assert t.attempts[n] == s.attempts[n];
    acts, u := Finish(t, delay, n);
    FinishedOneMore(s, t, u, n, spared);
  }

  /** Finishes the first `n` attempts, all but `spared`. */
  lemma {:induction false} FinishUpTo(s: State, delay: nat, n: nat, spared: nat) returns (acts: seq<Action>, t: State)
    requires Invariant(s, delay) && AllDue(s, delay) && n <= |s.attempts| <= U64_LIMIT
    ensures Reaches(s, delay, acts, t) && Invariant(t, delay) && FinishedUpTo(s, t, n, spared)
  {
    if n == 0 {
      acts, t := [], s;
    } else {
      acts, t := FinishUpTo(s, delay, n - 1, spared);
      if n - 1 != spared {
        var more, u := FinishNext(s, t, delay, n - 1, spared);
        ReachesOn(s, delay, acts, t, more, u);
        acts, t := acts + more, u;
      }
    }
  }

  lemma {:induction false} WaitingMakesDue(s: State, delay: nat)
    requires Invariant(s, delay) && |s.attempts| <= U64_LIMIT
    ensures var t := Step(s, delay, Tick(delay));
      Reaches(s, delay, [Tick(delay)], t) && Invariant(t, delay) && AllDue(t, delay)
  {
    ReachesOne(s, delay, Tick(delay));
    StepKeepsInvariant(s, delay, Tick(delay));
  }

  /** Everything but `spared` can be brought to an end. */
  lemma {:induction false} FinishAllBut(s: State, delay: nat, spared: nat) returns (acts: seq<Action>, t: State)
    requires Invariant(s, delay) && |s.attempts| <= U64_LIMIT
    ensures Reaches(s, delay, acts, t) && Invariant(t, delay) && t.content == s.content && |t.attempts| == |s.attempts|
    ensures forall k :: 0 <= k < |t.attempts| && k != spared ==> IsDone(t.attempts[k])
    ensures spared < |s.attempts| ==> t.attempts[spared] == s.attempts[spared]
  {
    WaitingMakesDue(s, delay);
    var later := Step(s, delay, Tick(delay));
    acts, t := FinishUpTo(later, delay, |s.attempts|, spared);
    ReachesOn(s, delay, [Tick(delay)], later, acts, t);
    acts := [Tick(delay)] + acts;
  }

  lemma {:induction false} StaleReadIsLast(t: State, delay: nat, i: nat)
    requires Invariant(t, delay) && i < |t.attempts| && t.attempts[i].phase.Reading?
    requires forall k :: 0 <= k < |t.attempts| && k != i ==> IsDone(t.attempts[k])
    requires t.attempts[i].phase.content != t.content[t.attempts[i].skill]
    ensures Enabled(t, delay, Publish(i)) && Over(Step(t, delay, Publish(i)))
    ensures !IsCurrent(Step(t, delay, Publish(i)), t.attempts[i].skill)
  {
  }

  /** A stale read can be published last. */
  lemma {:induction false} StaleReadCanWin(s: State, delay: nat, i: nat) returns (acts: seq<Action>, end: State)
    requires Invariant(s, delay) && |s.attempts| <= U64_LIMIT && i < |s.attempts| && s.attempts[i].phase.Reading?
    requires s.attempts[i].phase.content != s.content[s.attempts[i].skill]
    ensures Reaches(s, delay, acts, end) && Over(end) && !IsCurrent(end, s.attempts[i].skill)
  {
    var t;
    acts, t := FinishAllBut(s, delay, i);
    StaleReadIsLast(t, delay, i);
    end := Step(t, delay, Publish(i));
    ReachesOne(t, delay, Publish(i));
    ReachesOn(s, delay, acts, t, [Publish(i)], end);
    acts := acts + [Publish(i)];
  }

  /**
    In every state that can be reached, what settles of a skill without further writes and calls is
    certain to be current exactly when no outstanding read of it is stale, and its content is out
    already or an attempt of it has passed its check or is bound to.
   */
  lemma {:induction false} EndIsCurrentExactlyWhen(s: State, delay: nat, skill: string)
    requires Invariant(s, delay) && |s.attempts| <= U64_LIMIT && skill in s.content
    ensures EveryEndIsCurrent(s, delay, skill) <==> IsCertain(s, skill)
  {
    if IsCertain(s, skill) {
      forall acts: seq<Action> | OnlyContinues(acts) && Run(s, delay, acts).Some? && Over(Run(s, delay, acts).value)
        ensures IsCurrent(Run(s, delay, acts).value, skill)
      {
        ContinuingKeepsCertain(s, delay, acts, skill);
      }
    } else if !NoStaleRead(s, skill) {
      var i :| 0 <= i < |s.attempts| && s.attempts[i].skill == skill && s.attempts[i].phase.Reading?
        && s.attempts[i].phase.content != s.content[skill];
      var acts, end := StaleReadCanWin(s, delay, i);
      assert !IsCurrent(Run(s, delay, acts).value, skill);
    } else {
      var acts, end := FinishAllBut(s, delay, |s.attempts|);
      ContinuingKeepsLost(s, delay, acts, skill);
      assert Over(Run(s, delay, acts).value);
    }
  }

  /** The same for the states that runs from the start reach. */
  lemma {:induction false} SettlingIsCertainExactlyWhen(delay: nat, acts: seq<Action>, skill: string)
    requires Happens(delay, acts) && skill in End(delay, acts).content
    ensures EveryEndIsCurrent(End(delay, acts), delay, skill) <==> IsCertain(End(delay, acts), skill)
  {
    RunKeepsInvariant(delay, acts);
    EndIsCurrentExactlyWhen(End(delay, acts), delay, skill);
  }

  // ---------- Two schedules that lose an edit ----------

  lemma {:induction false} RunOneMore(delay: nat, acts: seq<Action>, k: nat)
    requires k < |acts| && Run(Start(), delay, acts[..k]).Some?
    requires Enabled(Run(Start(), delay, acts[..k]).value, delay, acts[k])
    ensures Run(Start(), delay, acts[..k + 1]) == Some(Step(Run(Start(), delay, acts[..k]).value, delay, acts[k]))
  {
    assert Init(acts[..k + 1]) == acts[..k] && Last(acts[..k + 1]) == acts[k];
  }

  /** The first run of a skill reads, is overtaken by a whole second run of it, and only then publishes. */
  function Overtaken(delay: nat, skill: string, first: string, second: string): seq<Action> {
    [Write(skill, first), Call(skill), Tick(delay), Check(0), Read(0), Write(skill, second), Call(skill), Tick(delay),
     Check(1), Read(1), Publish(1), Publish(0)]
  }

  /** The states that the first half of this schedule goes through. */
  function OvertakenStart(delay: nat, skill: string, first: string, second: string, k: nat): State {
    match k
    case 0 => Start()
    case 1 => State(0, 0, [], [], [], map[skill := first], {skill}, map[])
    case 2 => State(0, 1, [Attempt(skill, 0, 1, Sleeping)], [], [], map[skill := first], {}, map[])
    case 3 => State(delay, 1, [Attempt(skill, 0, 1, Sleeping)], [], [], map[skill := first], {}, map[])
    case 4 => State(delay, 1, [Attempt(skill, 0, 1, Settled)], [0], [], map[skill := first], {}, map[])
    case 5 => State(delay, 1, [Attempt(skill, 0, 1, Reading(first))], [0], [0], map[skill := first], {}, map[])
    case _ => State(delay, 1, [Attempt(skill, 0, 1, Reading(first))], [0], [0], map[skill := second], {skill}, map[])
  }

  /** And those of the second half. */
  function OvertakenEnd(delay: nat, skill: string, first: string, second: string, k: nat): State {
    var stale, content := Attempt(skill, 0, 1, Reading(first)), map[skill := second];
    match k
    case 7 => State(delay, 2, [stale, Attempt(skill, delay, 2, Sleeping)], [0], [0], content, {}, map[])
    case 8 => State(delay + delay, 2, [stale, Attempt(skill, delay, 2, Sleeping)], [0], [0], content, {}, map[])
    case 9 => State(delay + delay, 2, [stale, Attempt(skill, delay, 2, Settled)], [0, 1], [0], content, {}, map[])
    case 10 => State(delay + delay, 2, [stale, Attempt(skill, delay, 2, Reading(second))], [0, 1], [0, 1], content,
      {}, map[])
    case 11 => State(delay + delay, 2, [stale, Attempt(skill, delay, 2, Published)], [0, 1], [0], content, {},
      map[skill := second])
    case _ => State(delay + delay, 2, [Attempt(skill, 0, 1, Published), Attempt(skill, delay, 2, Published)], [0, 1],
      [],
                    content, {}, map[skill := first])
  }

  function OvertakenScene(delay: nat, skill: string, first: string, second: string, k: nat): State {
    if k <= 6 then OvertakenStart(delay, skill, first, second, k) else OvertakenEnd(delay, skill, first, second, k)
  }

  lemma {:induction false} OvertakenStarts(delay: nat, skill: string, first: string, second: string, k: nat)
    requires k < 6
    ensures var s, a := OvertakenStart(delay, skill, first, second, k), Overtaken(delay, skill, first, second)[k];
      Enabled(s, delay, a) && Step(s, delay, a) == OvertakenStart(delay, skill, first, second, k + 1)
  {
  }

  lemma {:induction false} OvertakenGoesOn(delay: nat, skill: string, first: string, second: string, k: nat)
    requires 6 <= k < 10
    ensures var s, a := OvertakenScene(delay, skill, first, second, k), Overtaken(delay, skill, first, second)[k];
      Enabled(s, delay, a) && Step(s, delay, a) == OvertakenEnd(delay, skill, first, second, k + 1)
  {
  }

  lemma {:induction false} NewerPublishes(delay: nat, skill: string, first: string, second: string)
    ensures var s := OvertakenEnd(delay, skill, first, second, 10);
      Enabled(s, delay, Publish(1)) && Step(s, delay, Publish(1)) == OvertakenEnd(delay, skill, first, second, 11)
  {
    assert IndexOf([0, 1], 1) == 1;
  }

  lemma {:induction false} OlderPublishes(delay: nat, skill: string, first: string, second: string)
    ensures var s := OvertakenEnd(delay, skill, first, second, 11);
      Enabled(s, delay, Publish(0)) && Step(s, delay, Publish(0)) == OvertakenEnd(delay, skill, first, second, 12)
  {
    assert IndexOf([0], 0) == 0;
  }

  lemma {:induction false} OvertakenIsReached(delay: nat, skill: string, first: string, second: string, k: nat)
    requires k <= 12
    ensures Run(Start(), delay, Overtaken(delay, skill, first, second)[..k]) ==
      Some(OvertakenScene(delay, skill, first, second, k))
  {
    var acts := Overtaken(delay, skill, first, second);
    if k == 0 {
      assert acts[..0] == [];
    } else {
      OvertakenIsReached(delay, skill, first, second, k - 1);
      if k - 1 < 6 {
        OvertakenStarts(delay, skill, first, second, k - 1);
      } else if k - 1 < 10 {
        OvertakenGoesOn(delay, skill, first, second, k - 1);
      } else {
        NewerPublishes(delay, skill, first, second);
        OlderPublishes(delay, skill, first, second);
      }
      RunOneMore(delay, acts, k - 1);
    }
  }

  /**
    Slow runs of one skill can overlap, and then the claim that a run never propagates stale content
    fails: every check and every run is over, and the older edit is out.
   */
  lemma {:induction false} OvertakenRunPublishesStale(delay: nat, skill: string, first: string, second: string)
    requires first != second
    ensures var acts := Overtaken(delay, skill, first, second);
      && Happens(delay, acts) && Over(End(delay, acts)) && End(delay, acts).uncalled == {}
      && End(delay, acts).content == map[skill := second] && End(delay, acts).published == map[skill := first]
      && !IsCurrent(End(delay, acts), skill)
  {
    var acts := Overtaken(delay, skill, first, second);
    OvertakenIsReached(delay, skill, first, second, 12);
    assert acts[..12] == acts;
  }

  /** An edit of one skill, followed within `delay` by an edit of another. */
  function Switching(delay: nat, a: string, b: string, first: string, second: string): seq<Action> {
    [Write(a, first), Call(a), Write(b, second), Call(b), Tick(delay), Check(0), Check(1), Read(1), Publish(1)]
  }

  function SwitchingScene(delay: nat, a: string, b: string, first: string, second: string, k: nat): State {
    var content := map[a := first, b := second];
    match k
    case 0 => Start()
    case 1 => State(0, 0, [], [], [], map[a := first], {a}, map[])
    case 2 => State(0, 1, [Attempt(a, 0, 1, Sleeping)], [], [], map[a := first], {}, map[])
    case 3 => State(0, 1, [Attempt(a, 0, 1, Sleeping)], [], [], content, {b}, map[])
    case 4 => State(0, 2, [Attempt(a, 0, 1, Sleeping), Attempt(b, 0, 2, Sleeping)], [], [], content, {}, map[])
    case 5 => State(delay, 2, [Attempt(a, 0, 1, Sleeping), Attempt(b, 0, 2, Sleeping)], [], [], content, {}, map[])
    case 6 => State(delay, 2, [Attempt(a, 0, 1, Superseded), Attempt(b, 0, 2, Sleeping)], [], [], content, {}, map[])
    case 7 => State(delay, 2, [Attempt(a, 0, 1, Superseded), Attempt(b, 0, 2, Settled)], [1], [], content, {}, map[])
    case 8 => State(delay, 2, [Attempt(a, 0, 1, Superseded), Attempt(b, 0, 2, Reading(second))], [1], [1], content,
      {}, map[])
    case _ => State(delay, 2, [Attempt(a, 0, 1, Superseded), Attempt(b, 0, 2, Published)], [1], [], content, {},
      map[b := second])
  }

  lemma {:induction false} SwitchingStep(delay: nat, a: string, b: string, first: string, second: string, k: nat)
    requires a != b && k < 9
    ensures var s, act := SwitchingScene(delay, a, b, first, second, k), Switching(delay, a, b, first, second)[k];
      Enabled(s, delay, act) && Step(s, delay, act) == SwitchingScene(delay, a, b, first, second, k + 1)
  {
    if k == 8 {
      assert IndexOf(SwitchingScene(delay, a, b, first, second, k).readers, 1) == 0;
    }
  }

  lemma {:induction false} SwitchingIsReached(delay: nat, a: string, b: string, first: string, second: string, k: nat)
    requires a != b && k <= 9
    ensures Run(Start(), delay, Switching(delay, a, b, first, second)[..k]) ==
      Some(SwitchingScene(delay, a, b, first, second, k))
  {
    var acts := Switching(delay, a, b, first, second);
    if k == 0 {
      assert acts[..0] == [];
    } else {
      SwitchingIsReached(delay, a, b, first, second, k - 1);
      SwitchingStep(delay, a, b, first, second, k - 1);
      RunOneMore(delay, acts, k - 1);
    }
  }

  /**
    One counter for all skills loses the last edit of the first skill: the call for the second
    supersedes it, everything is over, every write was followed by a call, and no run has published it.
   */
  lemma {:induction false} SwitchingSkillsLosesAnEdit(delay: nat, a: string, b: string, first: string, second: string)
    requires a != b
    ensures var acts := Switching(delay, a, b, first, second);
      && Happens(delay, acts) && Over(End(delay, acts)) && End(delay, acts).uncalled == {}
      && End(delay, acts).content == map[a := first, b := second] && End(delay, acts).published == map[b := second]
      && !IsCurrent(End(delay, acts), a)
  {
    var acts := Switching(delay, a, b, first, second);
    SwitchingIsReached(delay, a, b, first, second, 9);
    assert acts[..9] == acts;
  }

  // ---------- The counter object ----------

  /** The shared counter with its sleeping attempts, as `debounce` uses it. */
  class Debouncer {
    var generation: nat
    var attempts: seq<Attempt>
    var passes: seq<nat>

    constructor ()
      ensures generation == 0 && attempts == [] && passes == []
    {
      generation := 0;
      attempts := [];
      passes := [];
    }

    /** The counter, the calls and the pass log are those of `s`. */
    ghost predicate Shows(s: State)
      reads this
    {
      generation == s.generation && attempts == s.attempts && passes == s.passes
    }

    /** A call draws a new generation and goes to sleep. */
    method Schedule(ghost s: State, ghost delay: nat, skill: string, now: nat)
      requires Shows(s) && now == s.now && Enabled(s, delay, Call(skill))
      modifies this
      ensures Shows(Step(s, delay, Call(skill)))
    {
      generation := (generation + 1) % U64_LIMIT;
      var myGeneration := generation;
      attempts := attempts + [Attempt(skill, now, myGeneration, Sleeping)];
    }

    /** After its sleep an attempt goes on only if no newer call, for whichever skill, has drawn a generation. */
    method Wake(ghost s: State, ghost delay: nat, who: nat) returns (settled: bool)
      requires Shows(s) && Enabled(s, delay, Check(who))
      modifies this
      ensures Shows(Step(s, delay, Check(who)))
      ensures Counted(s) && |s.attempts| <= U64_LIMIT ==> (settled <==> who == |s.attempts| - 1)
    {
      settled := generation == attempts[who].ticket;
      if settled {
        attempts := attempts[who := attempts[who].(phase := Settled)];
        passes := passes + [who];
      } else {
        attempts := attempts[who := attempts[who].(phase := Superseded)];
      }
      if Counted(s) && |s.attempts| <= U64_LIMIT {
        NewestOnly(s, delay, who);
      }
    }
  }
}
