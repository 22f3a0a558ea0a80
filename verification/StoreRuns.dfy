/** The transcript cache over whole runs: the index always answers as a full scan of the line file would. */
module StoreRuns {
  import opened Wrappers
  import opened Sequences
  import opened Decimal
  import opened Json
  import opened TranscriptLines
  import opened TranscriptText
  import opened JsonlStore

  /** What can happen to one thread's files; `Page` is any paged read, `DropIndex` the loss of the index file. */
  datatype Action =
    | Overwrite(messages: seq<ChatMessage>, trailer: ThreadTrailer)
    | Append(message: ChatMessage)
    | UpdateTrailer(trailer: ThreadTrailer)
    | Page
    | DropIndex

  function Step(f: ThreadFiles, a: Action): ThreadFiles {
    match a
    case Overwrite(messages, trailer) => Overwritten(f, messages, trailer)
    case Append(message) => Appended(f, message)
    case UpdateTrailer(trailer) => WithTrailer(f, trailer)
    case Page => Ensured(f)
    case DropIndex => f.(idx := None)
  }

  function RunFrom(f: ThreadFiles, acts: seq<Action>): ThreadFiles {
    if acts == [] then f else Step(RunFrom(f, Init(acts)), Last(acts))
  }

  /** The file length is reported as an unsigned 64-bit number. */
  predicate LengthFits(f: ThreadFiles) {
    |Content(f)| < U64_LIMIT
  }

  /** An append that finds no index beside existing messages would start an index with only itself in it. */
  predicate MayAppend(f: ThreadFiles) {
    f.idx.Some? || OffsetsOf(f) == []
  }

  /** Every append of the run comes where it may, and no file outgrows its length type. */
  predicate Orderly(f: ThreadFiles, acts: seq<Action>) {
    acts == [] ||
    (Orderly(f, Init(acts))
     && (Last(acts).Append? ==> MayAppend(RunFrom(f, Init(acts))))
     && LengthFits(RunFrom(f, acts)))
  }

  /** The line file is whole, and an index, if there is one, parses to exactly the scanned offsets. */
  predicate Sound(f: ThreadFiles) {
    && Terminated(Content(f)) && AllDecode(Lines(Content(f))) && LengthFits(f)
    && (f.idx.Some? ==> Terminated(f.idx.value) && NumbersIn(Lines(f.idx.value)) == OffsetsOf(f))
  }

  // ---------- Every step keeps the files sound ----------

  lemma {:induction false} RebuiltIsSound(f: ThreadFiles)
    requires Terminated(Content(f)) && AllDecode(Lines(Content(f))) && LengthFits(f)
    ensures Sound(Rebuilt(f)) && MessagesOf(Rebuilt(f)) == MessagesOf(f)
  {
    ScanIsExact(Content(f));
    IndexRoundTrip(OffsetsOf(f));
  }

  /** The index is absent, or holds no number beside a line file that is not empty. */
  predicate IndexLost(f: ThreadFiles) {
    f.idx.None? || (NumbersIn(Lines(f.idx.value)) == [] && f.jsonl.Some? && f.jsonl.value != "")
  }

  /** A paged read puts a lost index back, right to the byte, and touches nothing else. */
  lemma {:induction false} LostIndexIsPutBack(f: ThreadFiles)
    requires Terminated(Content(f)) && AllDecode(Lines(Content(f))) && LengthFits(f) && IndexLost(f)
    ensures var g := Ensured(f);
      && g.idx.Some? && NumbersIn(Lines(g.idx.value)) == OffsetsOf(f) == EnsuredOffsets(f)
      && g.jsonl == f.jsonl && g.trailer == f.trailer
  {
    RebuiltIsSound(f);
  }

  /** Any other index is taken as it is, whatever the line file holds. */
  lemma {:induction false} UsableIndexIsKept(f: ThreadFiles)
    requires !IndexLost(f)
    ensures Ensured(f) == f && EnsuredOffsets(f) == NumbersIn(Lines(f.idx.value))
  {
  }

  lemma {:induction false} MessageTextIsWhole(messages: seq<ChatMessage>)
    ensures var c := MessageText(messages);
      Terminated(c) && AllDecode(Lines(c)) && MessagesIn(Lines(c)) == messages && TrailerIn(Lines(c)) == None
  {
    if messages != [] {
      MessageTextIsWhole(Init(messages));
      AppendEncoded(MessageText(Init(messages)), Message(Last(messages)));
      InitLast(messages);
    }
  }

  /** A full rewrite loads back as exactly what was written. */
  lemma {:induction false} FullTextIsWhole(messages: seq<ChatMessage>, trailer: ThreadTrailer)
    ensures var c := FullText(messages, trailer);
      Terminated(c) && AllDecode(Lines(c)) && MessagesIn(Lines(c)) == messages && TrailerIn(Lines(c)) == Some(trailer)
  {
    MessageTextIsWhole(messages);
    AppendEncoded(MessageText(messages), Trailer(trailer));
  }

  /** The two lists are equally long and their elements are related one by one. */
  ghost predicate Pairwise<A, B>(s: seq<A>, t: seq<B>, related: (A, B) -> bool) {
    |s| == |t| && forall k :: 0 <= k < |s| ==> related(s[k], t[k])
  }

  lemma {:induction false} PairwiseAppend<A, B>(s: seq<A>, t: seq<B>, related: (A, B) -> bool, a: A)
    requires t != [] && Pairwise(s, Init(t), related) && related(a, Last(t))
    ensures Pairwise(s + [a], t, related)
  {
    forall k | 0 <= k < |t| ensures related((s + [a])[k], t[k]) {
      if k < |s| {
        assert (s + [a])[k] == s[k] && Init(t)[k] == t[k];
      }
    }
  }

  predicate IsLineOfMessage(l: RawLine, m: ChatMessage) {
    l.text == Encode(Message(m))
  }

  lemma {:induction false} MessageTextLines(messages: seq<ChatMessage>)
    ensures Pairwise(Lines(MessageText(messages)), messages, IsLineOfMessage)
  {
    if messages != [] {
      var c, line := MessageText(Init(messages)), Encode(Message(Last(messages)));
      MessageTextLines(Init(messages));
      MessageTextIsWhole(Init(messages));
      DecodeEncode(Message(Last(messages)));
      LinesAppend(c, line);
      PairwiseAppend(Lines(c), messages, IsLineOfMessage, RawLine(|c|, line));
    }
  }

  /** A rewritten file has one line a message, and the trailer line behind them; nothing else. */
  lemma {:induction false} FullTextLines(messages: seq<ChatMessage>, trailer: ThreadTrailer)
    ensures var ls := Lines(FullText(messages, trailer));
      && |ls| == |messages| + 1 && ls[|messages|].text == Encode(Trailer(trailer))
      && forall k :: 0 <= k < |messages| ==> ls[k].text == Encode(Message(messages[k]))
  {
    MessageTextLines(messages);
    MessageTextIsWhole(messages);
    DecodeEncode(Trailer(trailer));
    LinesAppend(MessageText(messages), Encode(Trailer(trailer)));
  }

  /** An index has one line an offset, and the offset in decimal digits on it; nothing else. */
  lemma {:induction false} IndexTextLines(offsets: seq<nat>)
    ensures Terminated(IndexText(offsets))
    ensures var ls := Lines(IndexText(offsets));
      |ls| == |offsets| && forall k :: 0 <= k < |ls| ==> ls[k].text == Print(offsets[k])
  {
    if offsets != [] {
      IndexTextLines(Init(offsets));
      PrintIsDigits(Last(offsets));
      assert HasNoBreak(Print(Last(offsets)));
      LinesAppend(IndexText(Init(offsets)), Print(Last(offsets)));
    }
  }

  /** What an append does to the line file. */
  lemma {:induction false} AppendKeepsLines(f: ThreadFiles, m: ChatMessage)
    requires Terminated(Content(f)) && AllDecode(Lines(Content(f)))
    ensures Terminated(Content(Appended(f, m))) && AllDecode(Lines(Content(Appended(f, m))))
    ensures OffsetsOf(Appended(f, m)) == OffsetsOf(f) + [|Content(f)|]
    ensures MessagesOf(Appended(f, m)) == MessagesOf(f) + [m]
    ensures TrailerIn(Lines(Content(Appended(f, m)))) == TrailerIn(Lines(Content(f)))
  {
    AppendEncoded(Content(f), Message(m));
  }

  function IndexOffsets(f: ThreadFiles): seq<nat> {
    if f.idx.Some? then NumbersIn(Lines(f.idx.value)) else []
  }

  /** And to the index. */
  lemma {:induction false} AppendGrowsIndex(f: ThreadFiles, m: ChatMessage)
    requires LengthFits(f) && (f.idx.Some? ==> Terminated(f.idx.value))
    ensures Appended(f, m).idx.Some? && Terminated(Appended(f, m).idx.value)
    ensures IndexOffsets(Appended(f, m)) == IndexOffsets(f) + [|Content(f)|]
  {
    NumbersAppend(if f.idx.Some? then f.idx.value else "", |Content(f)|);
    assert Lines("") == [];
  }

  lemma {:induction false} SameTail<T>(a: seq<T>, b: seq<T>, x: T)
    ensures a + [x] == b + [x] <==> a == b
  {
    assert (a + [x])[..|a|] == a && (b + [x])[..|b|] == b;
  }

  /**
    An append keeps the index right if and only if there was an index, or nothing to index; the
    messages themselves are right either way.
   */
  lemma {:induction false} AppendKeepsIndexExactlyWhen(f: ThreadFiles, m: ChatMessage)
    requires Sound(f) && LengthFits(Appended(f, m))
    ensures MessagesOf(Appended(f, m)) == MessagesOf(f) + [m]
    ensures TrailerIn(Lines(Content(Appended(f, m)))) == TrailerIn(Lines(Content(f)))
    ensures Sound(Appended(f, m)) <==> MayAppend(f)
  {
    AppendKeepsLines(f, m);
    AppendGrowsIndex(f, m);
    SameTail(IndexOffsets(f), OffsetsOf(f), |Content(f)|);
  }

  lemma {:induction false} IndexStartedByAppend(f: ThreadFiles, m: ChatMessage)
    requires f.idx.None? && LengthFits(f)
    ensures EnsuredOffsets(Appended(f, m)) == [|Content(f)|]
  {
    IndexOfOne(|Content(f)|);
    assert "" + (Print(|Content(f)|) + "\n") == Print(|Content(f)|) + "\n";
  }

  /** Reading the newest messages through an index that knows the last one only. */
  lemma {:induction false} TailOfLastOnly(g: ThreadFiles, offsets: seq<nat>, o: nat, messages: seq<ChatMessage>,
      m: ChatMessage, pageSize: nat)
    requires AllDecode(Lines(Content(g))) && g.jsonl.Some? && pageSize > 0
    requires OffsetsOf(g) == offsets + [o] && MessagesOf(g) == messages + [m] && EnsuredOffsets(g) == [o]
    ensures TailResult(g, pageSize) == Ok(MessagePage([m], false, 0))
  {
    ReadLastOnly(Content(g), offsets, o, messages, m);
    assert [o][0..1] == [o];
    assert ReadResult(g, [o]) == Ok([m]);
  }

  lemma {:induction false} ReadLastOnly(c: string, offsets: seq<nat>, o: nat, messages: seq<ChatMessage>,
      m: ChatMessage)
    requires AllDecode(Lines(c)) && OffsetsIn(Lines(c)) == offsets + [o] && MessagesIn(Lines(c)) == messages + [m]
    ensures ReadAll(c, [o]) == Some([m])
  {
    ScanIsExact(c);
    ReadSlice(c, |messages|, |messages| + 1);
    assert (offsets + [o])[|messages|..|messages| + 1] == [o];
    assert (messages + [m])[|messages|..|messages| + 1] == [m];
  }

  /** The state after the index was lost and a message appended. */
  lemma {:induction false} AppendAfterLoss(f: ThreadFiles, m: ChatMessage)
    requires Sound(f) && LengthFits(Appended(f.(idx := None), m))
    ensures var g := Appended(f.(idx := None), m);
      && AllDecode(Lines(Content(g))) && EnsuredOffsets(g) == [|Content(f)|]
      && OffsetsOf(g) == OffsetsOf(f) + [|Content(f)|] && MessagesOf(g) == MessagesOf(f) + [m]
      && LoadResult(g) == Ok(CachedThread(MessagesOf(f) + [m], TrailerIn(Lines(Content(f)))))
  {
    var lost := f.(idx := None);
    AppendKeepsLines(lost, m);
    IndexStartedByAppend(lost, m);
    BadIffNotAllDecode(Lines(Content(Appended(lost, m))));
  }

  /** `load` finds all messages, `tail` only the last, and it says that there are no more. */
  ghost predicate HidesHistory(g: ThreadFiles, messages: seq<ChatMessage>, trailer: Option<ThreadTrailer>,
      m: ChatMessage, pageSize: nat)
  {
    && LoadResult(g) == Ok(CachedThread(messages + [m], trailer))
    && TailResult(g, pageSize) == Ok(MessagePage([m], false, 0))
  }

  lemma {:induction false} AppendedHidesHistory(f: ThreadFiles, m: ChatMessage, pageSize: nat)
    requires Sound(f) && LengthFits(Appended(f.(idx := None), m)) && pageSize > 0
    ensures HidesHistory(Appended(f.(idx := None), m), MessagesOf(f), TrailerIn(Lines(Content(f))), m, pageSize)
  {
    AppendAfterLoss(f, m);
    TailOfLastOnly(Appended(f.(idx := None), m), OffsetsOf(f), |Content(f)|, MessagesOf(f), m, pageSize);
  }

  lemma {:induction false} LossThenAppend(f: ThreadFiles, a: Action, b: Action)
    requires a.DropIndex? && b.Append?
    ensures RunFrom(f, [a, b]) == Appended(f.(idx := None), b.message)
  {
    TwoSteps(f, a, b);
  }

  /** Losing the index of a thread and then appending leaves an index that hides all earlier messages. */
  lemma {:induction false} AppendAfterLossHidesHistory(f: ThreadFiles, m: ChatMessage, pageSize: nat)
    requires Sound(f) && LengthFits(Appended(f.(idx := None), m)) && pageSize > 0
    ensures HidesHistory(RunFrom(f, [DropIndex, Append(m)]), MessagesOf(f), TrailerIn(Lines(Content(f))), m, pageSize)
  {
    LossThenAppend(f, DropIndex, Append(m));
    AppendedHidesHistory(f, m, pageSize);
  }

  lemma {:induction false} LastStep(f: ThreadFiles, acts: seq<Action>, a: Action)
    ensures RunFrom(f, acts + [a]) == Step(RunFrom(f, acts), a)
  {
    InitOfAppend(acts, a);
  }

  lemma {:induction false} TwoSteps(f: ThreadFiles, a: Action, b: Action)
    ensures RunFrom(f, [a, b]) == Step(Step(f, a), b)
  {
    assert [a, b] == [a] + [b] && [a] == [] + [a];
    LastStep(f, [a], b);
    LastStep(f, [], a);
  }

  lemma {:induction false} IndexOfOne(offset: nat)
    requires offset < U64_LIMIT
    ensures NumbersIn(Lines(Print(offset) + "\n")) == [offset]
  {
    NumbersAppend("", offset);
    assert "" + (Print(offset) + "\n") == Print(offset) + "\n";
    assert Lines("") == [];
  }

  lemma {:induction false} StepKeepsSound(f: ThreadFiles, a: Action)
    requires Sound(f) && LengthFits(Step(f, a)) && (a.Append? ==> MayAppend(f))
    ensures Sound(Step(f, a))
  {
    match a
    case Overwrite(messages, trailer) =>
      FullTextIsWhole(messages, trailer);
      RebuiltIsSound(f.(jsonl := Some(FullText(messages, trailer))));
    case Append(m) => AppendKeepsIndexExactlyWhen(f, m);
    case UpdateTrailer(_) =>
    case Page => RebuiltIsSound(f);
    case DropIndex =>
  }

  lemma {:induction false} NoFilesIsSound()
    ensures Sound(NO_FILES) && MessagesOf(NO_FILES) == [] && TrailerIn(Lines(Content(NO_FILES))) == None
  {
  }

  lemma {:induction false} RunKeepsSound(f: ThreadFiles, acts: seq<Action>)
    requires Sound(f) && Orderly(f, acts)
    ensures Sound(RunFrom(f, acts))
  {
    if acts != [] {
      RunKeepsSound(f, Init(acts));
      StepKeepsSound(RunFrom(f, Init(acts)), Last(acts));
    }
  }

  // ---------- What a run has stored ----------

  /** What a reader should see: the messages, the trailer line of the last rewrite, the last trailer written. */
  datatype Log = Log(messages: seq<ChatMessage>, lineTrailer: Option<ThreadTrailer>, trailer: Option<ThreadTrailer>)

  function LogStep(log: Log, a: Action): Log {
    match a
    case Overwrite(messages, trailer) => Log(messages, Some(trailer), Some(trailer))
    case Append(message) => log.(messages := log.messages + [message])
    case UpdateTrailer(trailer) => log.(trailer := Some(trailer))
    case Page => log
    case DropIndex => log
  }

  function LogOf(acts: seq<Action>): Log {
    if acts == [] then Log([], None, None) else LogStep(LogOf(Init(acts)), Last(acts))
  }

  predicate Shows(f: ThreadFiles, log: Log) {
    && MessagesOf(f) == log.messages
    && TrailerIn(Lines(Content(f))) == log.lineTrailer
    && TrailerResult(f) == Ok(log.trailer)
  }

  lemma {:induction false} OverwriteShows(f: ThreadFiles, messages: seq<ChatMessage>, trailer: ThreadTrailer)
    ensures Shows(Overwritten(f, messages, trailer), Log(messages, Some(trailer), Some(trailer)))
  {
    FullTextIsWhole(messages, trailer);
    DecodeEncodeTrailer(trailer);
    assert Content(Overwritten(f, messages, trailer)) == FullText(messages, trailer);
    assert Overwritten(f, messages, trailer).trailer == Some(EncodeTrailer(trailer));
  }

  lemma {:induction false} TrailerShows(f: ThreadFiles, log: Log, trailer: ThreadTrailer)
    requires Shows(f, log)
    ensures Shows(WithTrailer(f, trailer), log.(trailer := Some(trailer)))
  {
    DecodeEncodeTrailer(trailer);
    assert Content(WithTrailer(f, trailer)) == Content(f);
  }

  lemma {:induction false} AppendShows(f: ThreadFiles, log: Log, m: ChatMessage)
    requires Sound(f) && Shows(f, log) && LengthFits(Appended(f, m))
    ensures Shows(Appended(f, m), log.(messages := log.messages + [m]))
  {
    AppendKeepsIndexExactlyWhen(f, m);
    assert Appended(f, m).trailer == f.trailer;
  }

  lemma {:induction false} SameFilesShow(f: ThreadFiles, log: Log, g: ThreadFiles)
    requires Shows(f, log) && Content(g) == Content(f) && g.trailer == f.trailer
    ensures Shows(g, log)
  {
  }

  lemma {:induction false} PageShows(f: ThreadFiles, log: Log)
    requires Shows(f, log)
    ensures Shows(Ensured(f), log)
  {
    SameFilesShow(f, log, Ensured(f));
  }

  lemma {:induction false} LossShows(f: ThreadFiles, log: Log)
    requires Shows(f, log)
    ensures Shows(f.(idx := None), log)
  {
    SameFilesShow(f, log, f.(idx := None));
  }

  lemma {:induction false} AppendStepShows(f: ThreadFiles, log: Log, a: Action)
    requires a.Append? && Sound(f) && Shows(f, log) && LengthFits(Step(f, a))
    ensures Shows(Step(f, a), LogStep(log, a))
  {
    AppendShows(f, log, a.message);
  }

  lemma {:induction false} StepShows(f: ThreadFiles, log: Log, a: Action)
    requires Sound(f) && Shows(f, log) && LengthFits(Step(f, a))
    ensures Shows(Step(f, a), LogStep(log, a))
  {
    match a
    case Overwrite(messages, trailer) => OverwriteShows(f, messages, trailer);
    case Append(_) => AppendStepShows(f, log, a);
    case UpdateTrailer(trailer) => TrailerShows(f, log, trailer);
    case Page => PageShows(f, log);
    case DropIndex => LossShows(f, log);
  }

  /** Through bytes, escapes and line breaks, an orderly run from an absent thread stores exactly its log. */
  lemma {:induction false} RunShowsLog(acts: seq<Action>)
    requires Orderly(NO_FILES, acts)
    ensures Sound(RunFrom(NO_FILES, acts)) && Shows(RunFrom(NO_FILES, acts), LogOf(acts))
  {
    NoFilesIsSound();
    RunKeepsSound(NO_FILES, acts);
    if acts != [] {
      RunShowsLog(Init(acts));
      StepShows(RunFrom(NO_FILES, Init(acts)), LogOf(Init(acts)), Last(acts));
    }
  }

  // ---------- Which runs are orderly ----------

  /** The actions that leave an index file behind. */
  predicate WritesIndex(a: Action) {
    a.Overwrite? || a.Append? || a.Page?
  }

  /** Some action has left an index file, and none has lost it since. */
  ghost predicate IndexLeft(acts: seq<Action>, end: nat)
    requires end <= |acts|
  {
    exists w :: 0 <= w < end && WritesIndex(acts[w]) && NotLostBetween(acts, w, end)
  }

  predicate NotLostBetween(acts: seq<Action>, w: nat, end: nat)
    requires end <= |acts|
  {
    forall d :: w < d < end ==> !acts[d].DropIndex?
  }

  lemma {:induction false} NotLostInPrefix(acts: seq<Action>, w: nat, end: nat)
    requires end <= |acts|
    ensures NotLostBetween(acts[..end], w, end) <==> NotLostBetween(acts, w, end)
  {
    assert forall d :: 0 <= d < end ==> acts[..end][d] == acts[d];
  }

  lemma {:induction false} IndexLeftInPrefix(acts: seq<Action>, end: nat)
    requires end <= |acts|
    ensures IndexLeft(acts[..end], end) <==> IndexLeft(acts, end)
  {
    forall w: nat | w < end ensures NotLostBetween(acts[..end], w, end) <==> NotLostBetween(acts, w, end) {
      NotLostInPrefix(acts, w, end);
    }
    assert forall d :: 0 <= d < end ==> acts[..end][d] == acts[d];
  }

  lemma {:induction false} IndexStays(acts: seq<Action>, end: nat)
    requires end < |acts| && IndexLeft(acts, end) && !acts[end].DropIndex?
    ensures IndexLeft(acts, end + 1)
  {
    var w :| 0 <= w < end && WritesIndex(acts[w]) && NotLostBetween(acts, w, end);
    assert NotLostBetween(acts, w, end + 1);
  }

  lemma {:induction false} IndexWasThere(acts: seq<Action>, end: nat)
    requires end < |acts| && IndexLeft(acts, end + 1) && !WritesIndex(acts[end])
    ensures IndexLeft(acts, end) && !acts[end].DropIndex?
  {
    var w :| 0 <= w < end + 1 && WritesIndex(acts[w]) && NotLostBetween(acts, w, end + 1);
    assert NotLostBetween(acts, w, end);
  }

  lemma {:induction false} IndexLeftStep(acts: seq<Action>)
    requires acts != []
    ensures IndexLeft(acts, |acts|) <==>
      WritesIndex(Last(acts)) || (IndexLeft(Init(acts), |acts| - 1) && !Last(acts).DropIndex?)
  {
    var end := |acts| - 1;
    IndexLeftInPrefix(acts, end);
    if WritesIndex(acts[end]) {
      assert NotLostBetween(acts, end, |acts|);
    } else if IndexLeft(acts, |acts|) {
      IndexWasThere(acts, end);
    } else if !acts[end].DropIndex? {
      NotStillLeft(acts, end);
    }
  }

  lemma {:induction false} NotStillLeft(acts: seq<Action>, end: nat)
    requires end < |acts| && !IndexLeft(acts, end + 1) && !acts[end].DropIndex?
    ensures !IndexLeft(acts, end)
  {
    if IndexLeft(acts, end) {
      IndexStays(acts, end);
    }
  }

  /** There is an index file after the actions. */
  predicate IndexAfter(acts: seq<Action>) {
    acts != [] && (WritesIndex(Last(acts)) || (IndexAfter(Init(acts)) && !Last(acts).DropIndex?))
  }

  lemma {:induction false} StepIndex(f: ThreadFiles, a: Action)
    ensures Step(f, a).idx.Some? <==> WritesIndex(a) || (f.idx.Some? && !a.DropIndex?)
  {
  }

  lemma {:induction false} RunIndex(acts: seq<Action>)
    ensures RunFrom(NO_FILES, acts).idx.Some? <==> IndexAfter(acts)
  {
    if acts != [] {
      RunIndex(Init(acts));
      StepIndex(RunFrom(NO_FILES, Init(acts)), Last(acts));
    }
  }

  lemma {:induction false} IndexAfterExactlyWhen(acts: seq<Action>)
    ensures IndexAfter(acts) <==> IndexLeft(acts, |acts|)
  {
    if acts != [] {
      IndexAfterExactlyWhen(Init(acts));
      IndexLeftStep(acts);
    }
  }

  lemma {:induction false} IndexIsLeft(acts: seq<Action>)
    ensures RunFrom(NO_FILES, acts).idx.Some? <==> IndexLeft(acts, |acts|)
  {
    RunIndex(acts);
    IndexAfterExactlyWhen(acts);
  }

  /** No file outgrows its length type. */
  ghost predicate AllFit(acts: seq<Action>) {
    forall k :: 0 <= k <= |acts| ==> LengthFits(RunFrom(NO_FILES, acts[..k]))
  }

  /** The append finds an index, or there are no messages to index. */
  ghost predicate AppendComesRight(acts: seq<Action>, a: nat)
    requires a < |acts|
  {
    IndexLeft(acts, a) || LogOf(acts[..a]).messages == []
  }

  ghost predicate AppendsComeRight(acts: seq<Action>) {
    forall a :: 0 <= a < |acts| && acts[a].Append? ==> AppendComesRight(acts, a)
  }

  lemma {:induction false} AppendsComeRightStep(acts: seq<Action>)
    requires acts != []
    ensures AppendsComeRight(acts) <==>
      AppendsComeRight(Init(acts)) && (Last(acts).Append? ==> AppendComesRight(acts, |acts| - 1))
  {
    forall a | 0 <= a < |acts| - 1 ensures AppendComesRight(Init(acts), a) <==> AppendComesRight(acts, a) {
      assert Init(acts)[..a] == acts[..a];
      IndexLeftInPrefix(acts, a);
      IndexLeftInPrefix(Init(acts), a);
    }
    assert forall a :: 0 <= a < |acts| - 1 ==> Init(acts)[a] == acts[a];
  }

  lemma {:induction false} AllFitStep(acts: seq<Action>)
    requires acts != []
    ensures AllFit(acts) <==> AllFit(Init(acts)) && LengthFits(RunFrom(NO_FILES, acts))
  {
    assert forall k :: 0 <= k < |acts| ==> Init(acts)[..k] == acts[..k];
    assert acts[..|acts|] == acts;
  }

  lemma {:induction false} MayAppendAfterRun(acts: seq<Action>)
    requires Orderly(NO_FILES, acts)
    ensures MayAppend(RunFrom(NO_FILES, acts)) <==> IndexLeft(acts, |acts|) || LogOf(acts).messages == []
  {
    RunShowsLog(acts);
    IndexIsLeft(acts);
    ScanIsExact(Content(RunFrom(NO_FILES, acts)));
  }

  /**
    Which runs are orderly, read off the actions: every append finds an index that some earlier action
    has left and none has lost since, or there are no messages yet. (And every file stays within its
    length type.)
   */
  lemma {:induction false} OrderlyExactlyWhen(acts: seq<Action>)
    ensures Orderly(NO_FILES, acts) <==> AllFit(acts) && AppendsComeRight(acts)
  {
    if acts == [] {
      assert acts[..0] == [];
    } else {
      OrderlyExactlyWhen(Init(acts));
      AllFitStep(acts);
      AppendsComeRightStep(acts);
      if Orderly(NO_FILES, Init(acts)) {
        MayAppendAfterRun(Init(acts));
        IndexLeftInPrefix(acts, |acts| - 1);
      }
    }
  }

  /** Between the loss of an index and the next append there is a paged read or a rewrite. */
  ghost predicate LossIsNoticed(acts: seq<Action>) {
    forall d, a :: 0 <= d < a < |acts| && acts[d].DropIndex? && acts[a].Append? ==> NoticedBetween(acts, d, a)
  }

  ghost predicate NoticedBetween(acts: seq<Action>, d: nat, a: nat)
    requires a <= |acts|
  {
    exists k :: d < k < a && (acts[k].Page? || acts[k].Overwrite?)
  }

  lemma {:induction false} NoticedIndexIsLeft(acts: seq<Action>, w: nat, a: nat)
    requires LossIsNoticed(acts) && w < a < |acts| && WritesIndex(acts[w]) && acts[a].Append?
    ensures IndexLeft(acts, a)
    decreases a - w
  {
    if !NotLostBetween(acts, w, a) {
      var d :| w < d < a && acts[d].DropIndex?;
      assert NoticedBetween(acts, d, a);
      var k :| d < k < a && (acts[k].Page? || acts[k].Overwrite?);
      NoticedIndexIsLeft(acts, k, a);
    }
  }

  lemma {:induction false} MessagesNeedAWrite(acts: seq<Action>) returns (w: nat)
    requires LogOf(acts).messages != []
    ensures w < |acts| && WritesIndex(acts[w])
  {
    if WritesIndex(Last(acts)) {
      w := |acts| - 1;
    } else {
      w := MessagesNeedAWrite(Init(acts));
    }
  }

  /** A lost index does no harm as long as a paged read, or a rewrite, comes before the next append. */
  lemma {:induction false} NoticedLossIsHarmless(acts: seq<Action>)
    requires LossIsNoticed(acts) && AllFit(acts)
    ensures Orderly(NO_FILES, acts)
  {
    forall a | 0 <= a < |acts| && acts[a].Append? ensures AppendComesRight(acts, a) {
      if LogOf(acts[..a]).messages != [] {
        var w := MessagesNeedAWrite(acts[..a]);
        NoticedIndexIsLeft(acts, w, a);
      }
    }
    OrderlyExactlyWhen(acts);
  }

  /** In particular if the index file is never lost at all. */
  lemma {:induction false} WithoutLossAppendsAreOrderly(acts: seq<Action>)
    requires AllFit(acts) && forall d :: 0 <= d < |acts| ==> !acts[d].DropIndex?
    ensures Orderly(NO_FILES, acts)
  {
    NoticedLossIsHarmless(acts);
  }

  // ---------- What a log holds ----------

  /** The messages appended, in order. */
  function MessagesAppended(acts: seq<Action>): seq<ChatMessage> {
    if acts == [] then []
    else if Last(acts).Append? then MessagesAppended(Init(acts)) + [Last(acts).message]
    else MessagesAppended(Init(acts))
  }

  lemma {:induction false} InitOfSuffix<T>(s: seq<T>, k: nat)
    requires k < |s|
    ensures s[k..] != [] && Init(s[k..]) == Init(s)[k..] && Last(s[k..]) == Last(s)
  {
  }

  lemma {:induction false} AppendedSince(acts: seq<Action>, k: nat)
    requires k < |acts|
    ensures MessagesAppended(acts[k..]) ==
      MessagesAppended(Init(acts)[k..]) + if Last(acts).Append? then [Last(acts).message] else []
  {
    InitOfSuffix(acts, k);
  }

  lemma {:induction false} LogGrows(acts: seq<Action>)
    requires acts != [] && !Last(acts).Overwrite?
    ensures LogOf(acts).messages == LogOf(Init(acts)).messages + if Last(acts).Append? then [Last(acts).message] else []
    ensures LogOf(acts).lineTrailer == LogOf(Init(acts)).lineTrailer
  {
  }

  lemma {:induction false} LogWithoutRewrite(acts: seq<Action>)
    requires forall k :: 0 <= k < |acts| ==> !acts[k].Overwrite?
    ensures LogOf(acts).messages == MessagesAppended(acts) && LogOf(acts).lineTrailer == None
  {
    if acts != [] {
      LogWithoutRewrite(Init(acts));
      LogGrows(acts);
    }
  }

  /** The messages of the last rewrite and the ones appended since; its trailer is the last trailer line. */
  lemma {:induction false} LogIsLastRewriteAndAppends(acts: seq<Action>, k: nat)
    requires k < |acts| && acts[k].Overwrite? && forall j :: k < j < |acts| ==> !acts[j].Overwrite?
    ensures LogOf(acts).messages == acts[k].messages + MessagesAppended(acts[k + 1..])
    ensures LogOf(acts).lineTrailer == Some(acts[k].trailer)
  {
    if k + 1 == |acts| {
      assert acts[k + 1..] == [];
    } else {
      LogIsLastRewriteAndAppends(Init(acts), k);
      AppendedSince(acts, k + 1);
      LogGrows(acts);
    }
  }

  predicate WritesTrailer(a: Action) {
    a.Overwrite? || a.UpdateTrailer?
  }

  ghost predicate NoTrailerAfter(acts: seq<Action>, k: int)
    requires -1 <= k < |acts|
  {
    forall j :: k < j < |acts| ==> !WritesTrailer(acts[j])
  }

  /** The trailer is that of the last action that wrote one. */
  lemma {:induction false} LogTrailerIsLastWritten(acts: seq<Action>, k: int)
    requires -1 <= k < |acts| && NoTrailerAfter(acts, k) && (k >= 0 ==> WritesTrailer(acts[k]))
    ensures LogOf(acts).trailer == if k < 0 then None else Some(acts[k].trailer)
  {
    if k + 1 < |acts| {
      LogTrailerIsLastWritten(Init(acts), k);
    }
  }

  // ---------- The index refines the full scan ----------

  /** The page of the `pageSize` messages before position `end`. */
  function Slice(messages: seq<ChatMessage>, end: nat, pageSize: nat): MessagePage
    requires end <= |messages|
  {
    var start := if pageSize < end then end - pageSize else 0;
    MessagePage(messages[start..end], start > 0, start)
  }

  /** The page ends before position `end`; it has `pageSize` messages, or all there are if there are fewer. */
  ghost predicate IsPageOf(page: MessagePage, messages: seq<ChatMessage>, end: nat, pageSize: nat)
    requires end <= |messages|
  {
    && |page.messages| == (if end < pageSize then end else pageSize)
    && page.messages == messages[end - |page.messages|..end]
    && page.oldestLoadedIndex == end - |page.messages|
    && (page.olderAvailable <==> |page.messages| < end)
  }

  lemma {:induction false} SliceIsPage(messages: seq<ChatMessage>, end: nat, pageSize: nat)
    requires end <= |messages|
    ensures IsPageOf(Slice(messages, end, pageSize), messages, end, pageSize)
  {
  }

  lemma {:induction false} SoundReads(f: ThreadFiles, end: nat, pageSize: nat)
    requires Sound(f) && end <= |MessagesOf(f)|
    ensures EnsuredOffsets(f) == OffsetsOf(f) && |EnsuredOffsets(f)| == |MessagesOf(f)|
    ensures LoadResult(f) == Ok(CachedThread(MessagesOf(f), TrailerIn(Lines(Content(f)))))
    ensures PageResult(f, end, pageSize) == Ok(Slice(MessagesOf(f), end, pageSize))
  {
    var start := SaturatingSub(end, pageSize);
    ScanIsExact(Content(f));
    BadIffNotAllDecode(Lines(Content(f)));
    ReadSlice(Content(f), start, end);
    if OffsetsOf(f)[start..end] == [] {
      assert MessagesOf(f)[start..end] == [];
    } else {
      assert Content(f) != "" by {
        assert Lines("") == [];
      }
    }
  }

  lemma {:induction false} SoundTail(f: ThreadFiles, messages: seq<ChatMessage>, pageSize: nat)
    requires Sound(f) && MessagesOf(f) == messages
    ensures |EnsuredOffsets(f)| == |messages|
    ensures LoadResult(f) == Ok(CachedThread(messages, TrailerIn(Lines(Content(f)))))
    ensures TailResult(f, pageSize).Ok? && IsPageOf(TailResult(f, pageSize).value, messages, |messages|, pageSize)
  {
    SoundReads(f, |messages|, pageSize);
    SliceIsPage(messages, |messages|, pageSize);
  }

  lemma {:induction false} SoundPredecessor(f: ThreadFiles, messages: seq<ChatMessage>, before: nat, pageSize: nat)
    requires Sound(f) && MessagesOf(f) == messages
    ensures var older, n := PredecessorResult(f, before, pageSize), |messages|;
      older.Ok? && IsPageOf(older.value, messages, if before < n then before else n, pageSize)
  {
    var end := if before < |messages| then before else |messages|;
    SoundReads(f, end, pageSize);
    SliceIsPage(messages, end, pageSize);
  }

  /**
    In every state an orderly run reaches: `load` returns the log, `tail(k)` its last k messages,
    `predecessor_page(b, k)` the k messages before position b, or before the end if b is beyond it, and
    `message_count` is n. Where fewer messages are left than asked for, the page has all of them.
   */
  lemma {:induction false} IndexRefinesScan(acts: seq<Action>, before: nat, pageSize: nat)
    requires Orderly(NO_FILES, acts)
    ensures var f, log := RunFrom(NO_FILES, acts), LogOf(acts);
      var n := |log.messages|;
      var tail, older := TailResult(f, pageSize), PredecessorResult(f, before, pageSize);
      && LoadResult(f) == Ok(CachedThread(log.messages, log.lineTrailer))
      && |EnsuredOffsets(f)| == n
      && tail.Ok? && IsPageOf(tail.value, log.messages, n, pageSize)
      && older.Ok? && IsPageOf(older.value, log.messages, if before < n then before else n, pageSize)
      && TrailerResult(f) == Ok(log.trailer)
  {
    RunShowsLog(acts);
    SoundTail(RunFrom(NO_FILES, acts), LogOf(acts).messages, pageSize);
    SoundPredecessor(RunFrom(NO_FILES, acts), LogOf(acts).messages, before, pageSize);
  }

  /** After every append the incrementally grown index parses to what a fresh scan would compute. */
  lemma {:induction false} IncrementalIndexIsRebuiltIndex(acts: seq<Action>)
    requires Orderly(NO_FILES, acts) && acts != [] && Last(acts).Append?
    ensures var f := RunFrom(NO_FILES, acts);
      f.idx.Some? && NumbersIn(Lines(f.idx.value)) == OffsetsOf(f) == NumbersIn(Lines(Rebuilt(f).idx.value))
  {
    var f := RunFrom(NO_FILES, acts);
    RunShowsLog(acts);
    RebuiltIsSound(f);
  }

  // ---------- Paging backward ----------

  predicate Grows(a: Action) {
    a.Append? || a.UpdateTrailer? || a.Page?
  }

  predicate AllGrow(acts: seq<Action>) {
    forall k :: 0 <= k < |acts| ==> Grows(acts[k])
  }

  /** Appends, trailer updates and reads only ever add messages behind the ones there are. */
  lemma {:induction false} GrowthKeepsPrefix(f: ThreadFiles, acts: seq<Action>)
    requires Sound(f) && Orderly(f, acts) && AllGrow(acts)
    ensures Sound(RunFrom(f, acts)) && MessagesOf(f) <= MessagesOf(RunFrom(f, acts))
  {
    RunKeepsSound(f, acts);
    if acts != [] {
      GrowthKeepsPrefix(f, Init(acts));
      var g := RunFrom(f, Init(acts));
      if Last(acts).Append? {
        AppendKeepsIndexExactlyWhen(g, Last(acts).message);
      }
    }
  }

  /** The page before `page`, read in state `states(i)`, if there is one and it can be read. */
  function Older(states: nat -> ThreadFiles, pageSize: nat): (nat, MessagePage) -> Option<MessagePage> {
    (i: nat, page: MessagePage) =>
      if !page.olderAvailable then None
      else
        match PredecessorResult(states(i), page.oldestLoadedIndex, pageSize)
        case Ok(older) => Some(older)
        case Err(_) => None
  }

  /**
    Paging back from `page`, each older page being read in a later state, until there is none that goes
    further back: all messages seen, oldest first.
   */
  ghost function PageBack(older: (nat, MessagePage) -> Option<MessagePage>, i: nat, page: MessagePage): seq<ChatMessage>
    decreases page.oldestLoadedIndex
  {
    var next := older(i, page);
    if next.Some? && next.value.oldestLoadedIndex < page.oldestLoadedIndex
    then PageBack(older, i + 1, next.value) + page.messages
    else page.messages
  }

  /** Every page within the messages `all` reads as that slice of them. */
  ghost predicate PagesAs(f: ThreadFiles, all: seq<ChatMessage>, pageSize: nat) {
    && |all| <= |EnsuredOffsets(f)|
    && forall end: nat :: end <= |all| ==> PageResult(f, end, pageSize) == Ok(Slice(all, end, pageSize))
  }

  lemma {:induction false} SliceOfPrefix(all: seq<ChatMessage>, messages: seq<ChatMessage>, end: nat, pageSize: nat)
    requires all <= messages && end <= |all|
    ensures Slice(messages, end, pageSize) == Slice(all, end, pageSize)
  {
  }

  lemma {:induction false} SoundPages(f: ThreadFiles, all: seq<ChatMessage>, pageSize: nat)
    requires Sound(f) && all <= MessagesOf(f)
    ensures PagesAs(f, all, pageSize)
  {
    SoundReads(f, 0, pageSize);
    forall end: nat | end <= |all| ensures PageResult(f, end, pageSize) == Ok(Slice(all, end, pageSize)) {
      SoundReads(f, end, pageSize);
      SliceOfPrefix(all, MessagesOf(f), end, pageSize);
    }
  }

  ghost predicate AlwaysPagesAs(states: nat -> ThreadFiles, all: seq<ChatMessage>, pageSize: nat) {
    forall k {:trigger PagesAs(states(k), all, pageSize)} :: PagesAs(states(k), all, pageSize)
  }

  /** Behind the page that ends at `end` comes the one that ends where it starts, and none behind the first. */
  ghost predicate ServesSlices(older: (nat, MessagePage) -> Option<MessagePage>, all: seq<ChatMessage>, pageSize: nat) {
    forall i: nat, end: nat :: end <= |all| ==> ServesSlice(older, all, pageSize, i, end)
  }

  ghost predicate ServesSlice(older: (nat, MessagePage) -> Option<MessagePage>, all: seq<ChatMessage>, pageSize: nat,
      i: nat, end: nat)
    requires end <= |all|
  {
    older(i, Slice(all, end, pageSize)) == if end <= pageSize then None else Some(Slice(all, end - pageSize, pageSize))
  }

  lemma {:induction false} OlderServesSlice(states: nat -> ThreadFiles, all: seq<ChatMessage>, pageSize: nat,
      i: nat, end: nat)
    requires PagesAs(states(i), all, pageSize) && end <= |all|
    ensures ServesSlice(Older(states, pageSize), all, pageSize, i, end)
  {
    if pageSize < end {
      assert PageResult(states(i), end - pageSize, pageSize) == Ok(Slice(all, end - pageSize, pageSize));
    }
  }

  lemma {:induction false} OlderServesSlices(states: nat -> ThreadFiles, all: seq<ChatMessage>, pageSize: nat)
    requires AlwaysPagesAs(states, all, pageSize)
    ensures ServesSlices(Older(states, pageSize), all, pageSize)
  {
    forall i: nat, end: nat | end <= |all| ensures ServesSlice(Older(states, pageSize), all, pageSize, i, end) {
      assert PagesAs(states(i), all, pageSize);
      OlderServesSlice(states, all, pageSize, i, end);
    }
  }

  lemma {:induction false} PageBackFrom(older: (nat, MessagePage) -> Option<MessagePage>, i: nat, pageSize: nat,
      all: seq<ChatMessage>, end: nat)
    requires pageSize > 0 && end <= |all| && ServesSlices(older, all, pageSize)
    ensures PageBack(older, i, Slice(all, end, pageSize)) == all[..end]
    decreases end
  {
    assert ServesSlice(older, all, pageSize, i, end);
    if pageSize < end {
      PageBackFrom(older, i + 1, pageSize, all, end - pageSize);
      assert all[..end - pageSize] + all[end - pageSize..end] == all[..end];
    } else {
      assert all[0..end] == all[..end];
    }
  }

  /** Between the i-th and the next page read, the actions `between(i)` happen, none of which removes a message. */
  ghost predicate Follows(states: nat -> ThreadFiles, between: nat -> seq<Action>, i: nat) {
    Orderly(states(i), between(i)) && AllGrow(between(i)) && states(i + 1) == RunFrom(states(i), between(i))
  }

  ghost predicate GrownFrom(all: seq<ChatMessage>, f: ThreadFiles) {
    Sound(f) && all <= MessagesOf(f)
  }

  lemma {:induction false} RunStaysGrown(all: seq<ChatMessage>, f: ThreadFiles, acts: seq<Action>)
    requires GrownFrom(all, f) && Orderly(f, acts) && AllGrow(acts)
    ensures GrownFrom(all, RunFrom(f, acts))
  {
    GrowthKeepsPrefix(f, acts);
  }

  lemma {:induction false} NextStaysGrown(states: nat -> ThreadFiles, between: nat -> seq<Action>, i: nat,
      all: seq<ChatMessage>)
    requires GrownFrom(all, states(i)) && Follows(states, between, i)
    ensures GrownFrom(all, states(i + 1))
  {
    RunStaysGrown(all, states(i), between(i));
  }

  ghost predicate AlwaysFollows(states: nat -> ThreadFiles, between: nat -> seq<Action>) {
    forall i :: Follows(states, between, i)
  }

  lemma {:induction false} StatesGrow(states: nat -> ThreadFiles, between: nat -> seq<Action>, k: nat,
      all: seq<ChatMessage>)
    requires GrownFrom(all, states(0)) && AlwaysFollows(states, between)
    ensures GrownFrom(all, states(k))
  {
    if k > 0 {
      var i: nat := k - 1;
      StatesGrow(states, between, i, all);
      assert Follows(states, between, i);
      NextStaysGrown(states, between, i, all);
    }
  }

  /**
    Backward paging tiles the transcript: starting from `tail`, following `oldest_loaded_index` until
    `older_available` is false collects every message there was at the `tail` call, without gap or
    repeat, whatever is appended, indexed or read between the pages.
   */
  lemma {:induction false} PagingTiles(states: nat -> ThreadFiles, between: nat -> seq<Action>, pageSize: nat)
    requires pageSize > 0
    requires Sound(states(0)) && AlwaysFollows(states, between)
    ensures var f := states(0); var tail := TailResult(f, pageSize);
      tail.Ok? && PageBack(Older(states, pageSize), 1, tail.value) == MessagesOf(f)
  {
    var f, all := states(0), MessagesOf(states(0));
    forall k ensures PagesAs(states(k), all, pageSize) {
      StatesGrow(states, between, k, all);
      SoundPages(states(k), all, pageSize);
    }
    SoundReads(f, |all|, pageSize);
    OlderServesSlices(states, all, pageSize);
    PageBackFrom(Older(states, pageSize), 1, pageSize, all, |all|);
    assert all[..|all|] == all;
  }
}
