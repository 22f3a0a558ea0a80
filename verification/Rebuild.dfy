/** Rebuilding a conversation from the raw, per-chunk message feed: how chunks without an id find their item. */
module Rebuild {
  import opened Wrappers
  import opened Sequences
  import opened Decimal
  import opened Text
  import L = TranscriptLines
  import C = Conversation
  import opened Grouping

  // ---------- Status messages ----------

  function Lower(s: string): (r: string)
    ensures |r| == |s|
  {
    seq(|s|, i requires 0 <= i < |s| => if 'A' <= s[i] <= 'Z' then (s[i] as int + 32) as char else s[i])
  }

  predicate Contains(s: string, part: string) {
    part <= s || (s != [] && Contains(s[1..], part))
  }

  /** Status texts are complete rows of their own, never chunks of a stream. */
  predicate IsStandaloneStatus(text: string) {
    var t := Lower(TrimLeft(TrimRight(text)));
    "reconnecting..." <= t || "unexpected status " <= t || Contains(t, "502 bad gateway") || Contains(t, "bad gateway")
  }

  predicate IsStatus(m: L.ChatMessage) {
    m.kind.Agent? && IsStandaloneStatus(m.text)
  }

  // ---------- Assigning ids ----------

  /** The run that the next chunk without an id may join, and how many synthetic ids were handed out. */
  datatype Assigner = Assigner(open: Option<(L.MessageKind, string)>, counter: nat)

  function Synthetic(n: nat): string {
    "synthetic-" + Print(n)
  }

  function NextSynthetic(a: Assigner): string {
    Synthetic(a.counter + 1)
  }

  /** The id a message gets, and the assigner after it. */
  function Assign(a: Assigner, m: L.ChatMessage): (string, Assigner) {
    match m.kind
    case Agent => AssignChunk(a, m)
    case Thinking => AssignChunk(a, m)
    case _ =>
      if m.id.Some? then (m.id.value, Assigner(None, a.counter))
      else (NextSynthetic(a), Assigner(None, a.counter + 1))
  }

  function AssignChunk(a: Assigner, m: L.ChatMessage): (string, Assigner) {
    if IsStatus(m) then (NextSynthetic(a), Assigner(None, a.counter + 1))
    else if m.id.Some? then (m.id.value, Assigner(Some((m.kind, m.id.value)), a.counter))
    else if a.open.Some? && a.open.value.0 == m.kind then (a.open.value.1, a)
    else (NextSynthetic(a), Assigner(Some((m.kind, NextSynthetic(a))), a.counter + 1))
  }

  function After(h: seq<L.ChatMessage>): Assigner {
    if h == [] then Assigner(None, 0) else Assign(After(Init(h)), Last(h)).1
  }

  function IdAt(h: seq<L.ChatMessage>, i: nat): string
    requires i < |h|
  {
    Assign(After(h[..i]), h[i]).0
  }

  function EventFor(thread: string, m: L.ChatMessage, id: string): C.ConversationEvent {
    match m.kind
    case User => C.UserMessage(thread, id, m.text)
    case Agent => C.AssistantChunk(thread, id, m.text, true)
    case Thinking => C.ThoughtChunk(thread, id, m.text, true)
    case ToolCall =>
      C.ToolCall(thread, id, if m.text != "" then Some(m.text) else None, m.status, None, m.rawInput, m.rawOutput)
  }

  /** The events a history amounts to, one a message. */
  function Events(thread: string, h: seq<L.ChatMessage>): (es: seq<C.ConversationEvent>)
    ensures |es| == |h|
  {
    if h == [] then []
    else Events(thread, Init(h)) + [EventFor(thread, Last(h), Assign(After(Init(h)), Last(h)).0)]
  }

  function Rebuilt(thread: string, h: seq<L.ChatMessage>): seq<C.TranscriptItem> {
    Folded(Events(thread, h))
  }

  /** The id of one message of the rebuild loop, and the loop's state after it. */
  method AssignId(msg: L.ChatMessage, openRun: Option<(L.MessageKind, string)>, syntheticCounter: nat)
    returns (messageId: string, run: Option<(L.MessageKind, string)>, counter: nat)
    ensures Assign(Assigner(openRun, syntheticCounter), msg) == (messageId, Assigner(run, counter))
  {
    run, counter := openRun, syntheticCounter;
    if msg.kind.User? {
      run := None;
      if msg.id.Some? {
        messageId := msg.id.value;
      } else {
        counter := counter + 1;
        messageId := Synthetic(counter);
      }
    } else if msg.kind.Agent? || msg.kind.Thinking? {
      if msg.kind.Agent? && IsStandaloneStatus(msg.text) {
        run := None;
        counter := counter + 1;
        messageId := Synthetic(counter);
      } else if msg.id.Some? {
        run := Some((msg.kind, msg.id.value));
        messageId := msg.id.value;
      } else if run.Some? && run.value.0 == msg.kind {
        messageId := run.value.1;
      } else {
        counter := counter + 1;
        messageId := Synthetic(counter);
        run := Some((msg.kind, messageId));
      }
    } else {
      run := None;
      if msg.id.Some? {
        messageId := msg.id.value;
      } else {
        counter := counter + 1;
        messageId := Synthetic(counter);
      }
    }
  }

  method RebuildFromChatMessages(thread: string, history: seq<L.ChatMessage>) returns (state: C.ConversationState)
    ensures fresh(state) && state.threadId == thread
    ensures state.items == Rebuilt(thread, history)
  {
    state := new C.ConversationState(thread);
    var openRun: Option<(L.MessageKind, string)> := None;
    var syntheticCounter: nat := 0;
    for k := 0 to |history|
      invariant fresh(state)
      invariant After(history[..k]) == Assigner(openRun, syntheticCounter)
      invariant state.items == Rebuilt(thread, history[..k])
    {
      var msg := history[k];
      assert Init(history[..k + 1]) == history[..k] && Last(history[..k + 1]) == msg;
      AddEvent(thread, history[..k + 1]);
      var messageId;
      messageId, openRun, syntheticCounter := AssignId(msg, openRun, syntheticCounter);
      var _ := state.Apply(EventFor(thread, msg, messageId));
    }
    assert history[..|history|] == history;
  }

  lemma {:induction false} AddEvent(thread: string, h: seq<L.ChatMessage>)
    requires h != []
    ensures Rebuilt(thread, h) ==
      C.Applied(Rebuilt(thread, Init(h)), EventFor(thread, Last(h), Assign(After(Init(h)), Last(h)).0))
  {
    LastEvent(thread, h);
  }

  lemma {:induction false} LastEvent(thread: string, h: seq<L.ChatMessage>)
    requires h != []
    ensures Init(Events(thread, h)) == Events(thread, Init(h))
    ensures Last(Events(thread, h)) == EventFor(thread, Last(h), Assign(After(Init(h)), Last(h)).0)
  {
  }

  lemma {:induction false} EventAt(thread: string, h: seq<L.ChatMessage>, i: nat)
    requires i < |h|
    ensures Events(thread, h)[i] == EventFor(thread, h[i], IdAt(h, i))
  {
    if i == |h| - 1 {
      assert h[..i] == Init(h);
    } else {
      EventAt(thread, Init(h), i);
      assert Init(h)[..i] == h[..i];
    }
  }

  // ---------- Synthetic ids ----------

  /** Kinds of messages and kinds of items correspond one to one. */
  function ItemKindOf(kind: L.MessageKind): C.ItemKind {
    match kind
    case User => C.UserItem
    case Agent => C.AssistantItem
    case Thinking => C.ThoughtItem
    case ToolCall => C.ToolItem
  }

  /** The key of the item that message `i` ends up in. */
  function KeyAt(h: seq<L.ChatMessage>, i: nat): C.Key
    requires i < |h|
  {
    C.Key(ItemKindOf(h[i].kind), IdAt(h, i))
  }

  /** The message brings this key along from the wire. A status never does: its own id is ignored. */
  predicate Claims(m: L.ChatMessage, key: C.Key) {
    ItemKindOf(m.kind) == key.kind && m.id == Some(key.id) && !IsStatus(m)
  }

  predicate Unclaimed(h: seq<L.ChatMessage>, key: C.Key) {
    forall k :: 0 <= k < |h| ==> !Claims(h[k], key)
  }

  lemma {:induction false} SyntheticInjective(m: nat, n: nat)
    requires Synthetic(m) == Synthetic(n)
    ensures m == n
  {
    var lead := "synthetic-";
    assert (lead + Print(m))[|lead|..] == Print(m) && (lead + Print(n))[|lead|..] == Print(n);
    PrintInjective(m, n);
  }

  lemma {:induction false} CounterGrows(h: seq<L.ChatMessage>, i: nat, j: nat)
    requires i <= j <= |h|
    ensures After(h[..i]).counter <= After(h[..j]).counter
  {
    if i < j {
      CounterGrows(h, i, j - 1);
      assert Init(h[..j]) == h[..j - 1];
    }
  }

  lemma {:induction false} UnclaimedPrefix(h: seq<L.ChatMessage>, key: C.Key, i: nat)
    requires Unclaimed(h, key) && i <= |h|
    ensures Unclaimed(h[..i], key)
  {
    forall k | 0 <= k < i ensures !Claims(h[..i][k], key) {
      assert h[..i][k] == h[k];
    }
  }

  /** An open run with a synthetic id that nobody claims has the newest synthetic id. */
  lemma {:induction false} OpenIsNewest(h: seq<L.ChatMessage>, kind: L.MessageKind, n: nat)
    requires Unclaimed(h, C.Key(ItemKindOf(kind), Synthetic(n)))
    requires After(h).open == Some((kind, Synthetic(n)))
    ensures n == After(h).counter
  {
    var m, before := Last(h), After(Init(h));
    assert !Claims(h[|h| - 1], C.Key(ItemKindOf(kind), Synthetic(n)));
    if m.id.None? && before.open == Some((kind, Synthetic(n))) {
      OpenIsNewest(Init(h), kind, n);
    } else {
      SyntheticInjective(n, before.counter + 1);
    }
  }

  /** A message with an unclaimed synthetic id has the newest one: freshly drawn, or that of the open run. */
  lemma {:induction false} SyntheticIsNewest(h: seq<L.ChatMessage>, i: nat, n: nat)
    requires i < |h| && IdAt(h, i) == Synthetic(n) && Unclaimed(h, KeyAt(h, i))
    ensures n == After(h[..i + 1]).counter
    ensures n == After(h[..i]).counter + 1
      || (n == After(h[..i]).counter && After(h[..i]).open == Some((h[i].kind, Synthetic(n))) && JoinsRuns(h[i]))
  {
    assert Init(h[..i + 1]) == h[..i] && Last(h[..i + 1]) == h[i];
    var before := After(h[..i]);
    assert !Claims(h[i], KeyAt(h, i));
    if IdAt(h, i) == NextSynthetic(before) && After(h[..i + 1]).counter == before.counter + 1 {
      SyntheticInjective(n, before.counter + 1);
    } else {
      UnclaimedPrefix(h, KeyAt(h, i), i);
      OpenIsNewest(h[..i], h[i].kind, n);
    }
  }

  /** A chunk that joins a synthetic run: no id of its own, not a status. */
  predicate JoinsRuns(m: L.ChatMessage) {
    (m.kind.Agent? || m.kind.Thinking?) && m.id.None? && !IsStatus(m)
  }

  /** Message `k` is a chunk of the run with the n-th synthetic id. */
  ghost predicate InRun(h: seq<L.ChatMessage>, k: nat, n: nat, kind: L.MessageKind)
    requires k < |h|
  {
    JoinsRuns(h[k]) && h[k].kind == kind && IdAt(h, k) == Synthetic(n)
  }

  /** If a synthetic run that nobody claims is open, the message before it belongs to it. */
  lemma {:induction false} OpenRunsBack(h: seq<L.ChatMessage>, j: nat, n: nat, kind: L.MessageKind)
    requires Unclaimed(h, C.Key(ItemKindOf(kind), Synthetic(n))) && 0 < j <= |h|
    requires After(h[..j]).open == Some((kind, Synthetic(n)))
    ensures InRun(h, j - 1, n, kind)
    ensures After(h[..j - 1]).counter == n - 1 || After(h[..j - 1]).open == Some((kind, Synthetic(n)))
  {
    assert Init(h[..j]) == h[..j - 1] && Last(h[..j]) == h[j - 1];
    var before := After(h[..j - 1]);
    assert !Claims(h[j - 1], C.Key(ItemKindOf(kind), Synthetic(n)));
    if After(h[..j]).counter == before.counter + 1 {
      SyntheticInjective(n, before.counter + 1);
    }
  }

  /** From an open synthetic run back to where its id was drawn, every message belongs to it. */
  lemma {:induction false} RunIsContiguous(h: seq<L.ChatMessage>, i: nat, j: nat, n: nat, kind: L.MessageKind, k: nat)
    requires Unclaimed(h, C.Key(ItemKindOf(kind), Synthetic(n))) && i <= k < j <= |h|
    requires n <= After(h[..i + 1]).counter && After(h[..j]).open == Some((kind, Synthetic(n)))
    ensures InRun(h, k, n, kind)
  {
    OpenRunsBack(h, j, n, kind);
    if k < j - 1 {
      CounterGrows(h, i + 1, j - 1);
      RunIsContiguous(h, i, j - 1, n, kind, k);
    }
  }

  /**
    Messages that share a synthetic id which nobody claims for their kinds form one contiguous block of
    id-less, non-status chunks of one kind: nothing else lies between them.
   */
  lemma {:induction false} SyntheticRunsAreContiguous(h: seq<L.ChatMessage>, i: nat, j: nat, n: nat)
    requires i < j < |h| && IdAt(h, i) == Synthetic(n) && IdAt(h, j) == Synthetic(n)
    requires Unclaimed(h, KeyAt(h, i)) && Unclaimed(h, KeyAt(h, j))
    ensures forall k :: i <= k <= j ==> InRun(h, k, n, h[j].kind)
  {
    SyntheticIsNewest(h, i, n);
    SyntheticIsNewest(h, j, n);
    CounterGrows(h, i + 1, j);
    forall k | i <= k <= j ensures InRun(h, k, n, h[j].kind) {
      if k < j {
        RunIsContiguous(h, i, j, n, h[j].kind, k);
      }
    }
  }

  /** Message `i` is an id-less chunk of the same stream as the message right before it. */
  predicate Continues(h: seq<L.ChatMessage>, i: nat) {
    0 < i < |h| && JoinsRuns(h[i]) && h[i - 1].kind == h[i].kind && !IsStatus(h[i - 1])
  }

  /**
    Adjacency decides the id of an id-less chunk: it has that of the message before if it continues its
    stream, whether that id is synthetic or real, and a fresh synthetic one otherwise.
   */
  lemma {:induction false} AdjacencyDecides(h: seq<L.ChatMessage>, i: nat)
    requires i < |h| && JoinsRuns(h[i])
    ensures IdAt(h, i) == if Continues(h, i) then IdAt(h, i - 1) else Synthetic(After(h[..i]).counter + 1)
  {
    if i > 0 {
      assert Init(h[..i]) == h[..i - 1] && Last(h[..i]) == h[i - 1];
    }
  }

  // ---------- Every message's id ----------

  /** The message keeps the id it brought along; a status never does. */
  predicate KeepsItsId(m: L.ChatMessage) {
    m.id.Some? && !IsStatus(m)
  }

  /** The message gets a synthetic id of its own: it neither keeps one nor continues a stream. */
  predicate DrawsId(h: seq<L.ChatMessage>, i: nat)
    requires i < |h|
  {
    !KeepsItsId(h[i]) && !Continues(h, i)
  }

  /** How many of the first `i` messages got a synthetic id of their own. */
  function Draws(h: seq<L.ChatMessage>, i: nat): nat
    requires i <= |h|
  {
    if i == 0 then 0 else Draws(h, i - 1) + if DrawsId(h, i - 1) then 1 else 0
  }

  lemma {:induction false} AssignOne(h: seq<L.ChatMessage>, i: nat)
    requires i < |h|
    ensures Assign(After(h[..i]), h[i]) == (IdAt(h, i), After(h[..i + 1]))
  {
    assert Init(h[..i + 1]) == h[..i] && Last(h[..i + 1]) == h[i];
  }

  /** The run left open by a message is its own, if it is a chunk and not a status; else there is none. */
  lemma {:induction false} OpenAfter(h: seq<L.ChatMessage>, i: nat)
    requires i < |h|
    ensures After(h[..i + 1]).open ==
      if (h[i].kind.Agent? || h[i].kind.Thinking?) && !IsStatus(h[i]) then Some((h[i].kind, IdAt(h, i))) else None
  {
    AssignOne(h, i);
  }

  lemma {:induction false} ContinuesOpen(h: seq<L.ChatMessage>, i: nat)
    requires i < |h| && JoinsRuns(h[i])
    ensures var open := After(h[..i]).open;
      && (Continues(h, i) <==> open.Some? && open.value.0 == h[i].kind)
      && (Continues(h, i) ==> open == Some((h[i].kind, IdAt(h, i - 1))))
  {
    if i > 0 {
      OpenAfter(h, i - 1);
    }
  }

  lemma {:induction false} DrawCounts(h: seq<L.ChatMessage>, i: nat)
    requires i < |h|
    ensures After(h[..i + 1]).counter == After(h[..i]).counter + if DrawsId(h, i) then 1 else 0
  {
    AssignOne(h, i);
    if JoinsRuns(h[i]) {
      ContinuesOpen(h, i);
    }
  }

  lemma {:induction false} CounterIsDraws(h: seq<L.ChatMessage>, i: nat)
    requires i <= |h|
    ensures After(h[..i]).counter == Draws(h, i)
  {
    if i > 0 {
      CounterIsDraws(h, i - 1);
      DrawCounts(h, i - 1);
    }
  }

  /**
    The id of every message, whatever its kind: the one it brought along, unless it is a status; that
    of the message before, if it continues its stream; otherwise a synthetic one, numbered by how many
    were needed up to here.
   */
  lemma {:induction false} IdIsExactly(h: seq<L.ChatMessage>, i: nat)
    requires i < |h|
    ensures IdAt(h, i) ==
      if KeepsItsId(h[i]) then h[i].id.value
      else if Continues(h, i) then IdAt(h, i - 1)
      else Synthetic(Draws(h, i) + 1)
  {
    CounterIsDraws(h, i);
    AssignOne(h, i);
    if JoinsRuns(h[i]) {
      ContinuesOpen(h, i);
    }
  }

  lemma {:induction false} SameStreamSameKey(h: seq<L.ChatMessage>, i: nat)
    requires Continues(h, i)
    ensures KeyAt(h, i) == KeyAt(h, i - 1)
  {
    AdjacencyDecides(h, i);
  }

  // ---------- What a rebuilt item says about the messages ----------

  /** The messages of the history that were assigned to `key`, in order. */
  function MessagesFor(h: seq<L.ChatMessage>, key: C.Key): seq<L.ChatMessage> {
    if h == [] then []
    else
      var id := Assign(After(Init(h)), Last(h)).0;
      if C.Key(ItemKindOf(Last(h).kind), id) == key then MessagesFor(Init(h), key) + [Last(h)]
      else MessagesFor(Init(h), key)
  }

  /** The update `u` is what the message `m` means for the item of `key`. */
  predicate IsUpdateOf(thread: string, key: C.Key, u: C.Update, m: L.ChatMessage) {
    var e := EventFor(thread, m, key.id);
    C.EventKey(e) == Some(key) && u == C.EventUpdate(e)
  }

  /** A key's updates are its messages, one for one: with the grouping theorem, each item is made of exactly them. */
  lemma {:induction false} UpdatesAreMessages(thread: string, h: seq<L.ChatMessage>, key: C.Key)
    ensures var us, ms := UpdatesFor(Events(thread, h), key), MessagesFor(h, key);
      |us| == |ms| && forall i :: 0 <= i < |us| ==> IsUpdateOf(thread, key, us[i], ms[i])
  {
    if h != [] {
      UpdatesAreMessages(thread, Init(h), key);
      LastEvent(thread, h);
      if C.EventKey(EventFor(thread, Last(h), Assign(After(Init(h)), Last(h)).0)) == Some(key) {
        NextUpdate(Events(thread, h), key);
      }
    }
  }

  function JoinedText(ms: seq<L.ChatMessage>): string {
    if ms == [] then "" else JoinedText(Init(ms)) + Last(ms).text
  }

  lemma {:induction false} TextsAreJoined(us: seq<C.Update>, ms: seq<L.ChatMessage>)
    requires |us| == |ms| && forall i :: 0 <= i < |us| ==> us[i].MoreText? && us[i].text == ms[i].text
    ensures Texts(us) == JoinedText(ms)
  {
    if us != [] {
      TextsAreJoined(Init(us), Init(ms));
    }
  }

  lemma {:induction false} StreamedSummary(thread: string, key: C.Key, us: seq<C.Update>, ms: seq<L.ChatMessage>)
    requires (key.kind.AssistantItem? || key.kind.ThoughtItem?) && us != []
    requires |us| == |ms| && forall i :: 0 <= i < |us| ==> IsUpdateOf(thread, key, us[i], ms[i])
    ensures C.Suits(key.kind, Last(us))
    ensures Summary(key, us) ==
      if key.kind.AssistantItem? then C.Assistant(key.id, JoinedText(ms), false)
      else C.Thought(key.id, JoinedText(ms), false)
  {
    forall i | 0 <= i < |us| ensures us[i].MoreText? && us[i].text == ms[i].text && us[i].completed {
      assert IsUpdateOf(thread, key, us[i], ms[i]);
    }
    TextsAreJoined(us, ms);
  }

  /** The rebuilt item of a streamed key: all its chunks' texts joined, and nothing else, and not streaming. */
  lemma {:induction false} StreamedItem(thread: string, h: seq<L.ChatMessage>, key: C.Key) returns (j: nat)
    requires key.kind.AssistantItem? || key.kind.ThoughtItem?
    requires MessagesFor(h, key) != []
    ensures j < |Rebuilt(thread, h)|
    ensures Rebuilt(thread, h)[j] ==
      if key.kind.AssistantItem? then C.Assistant(key.id, JoinedText(MessagesFor(h, key)), false)
      else C.Thought(key.id, JoinedText(MessagesFor(h, key)), false)
    ensures forall k :: 0 <= k < |Rebuilt(thread, h)| && k != j ==> C.ItemKey(Rebuilt(thread, h)[k]) != Some(key)
  {
    UpdatesAreMessages(thread, h, key);
    StreamedSummary(thread, key, UpdatesFor(Events(thread, h), key), MessagesFor(h, key));
    SeenMeansUpdates(Events(thread, h), key);
    j := ItemOfKey(Events(thread, h), key);
  }

  predicate Corresponds(kind: L.MessageKind, item: C.ItemKind) {
    || (kind.User? && item.UserItem?) || (kind.Agent? && item.AssistantItem?)
    || (kind.Thinking? && item.ThoughtItem?) || (kind.ToolCall? && item.ToolItem?)
  }

  /** The messages of one kind that got the id `id`, in order. */
  function WithKindAndId(h: seq<L.ChatMessage>, kind: L.MessageKind, id: string): seq<L.ChatMessage> {
    if h == [] then []
    else if Last(h).kind == kind && IdAt(h, |h| - 1) == id then WithKindAndId(Init(h), kind, id) + [Last(h)]
    else WithKindAndId(Init(h), kind, id)
  }

  /** An item collects the messages of its kind and id, all of them and no others. */
  lemma {:induction false} MessagesAreSelected(h: seq<L.ChatMessage>, kind: L.MessageKind, item: C.ItemKind, id: string)
    requires Corresponds(kind, item)
    ensures MessagesFor(h, C.Key(item, id)) == WithKindAndId(h, kind, id)
  {
    if h != [] {
      MessagesAreSelected(Init(h), kind, item, id);
      assert h[..|h| - 1] == Init(h);
    }
  }

  // The fields that a message supplies for a tool call.

  function TitleGiven(m: L.ChatMessage): Option<string> {
    if m.text != "" then Some(m.text) else None
  }

  function StatusGiven(m: L.ChatMessage): Option<string> {
    m.status
  }

  function InputGiven(m: L.ChatMessage): Option<string> {
    m.rawInput
  }

  function OutputGiven(m: L.ChatMessage): Option<string> {
    m.rawOutput
  }

  /** The last message that supplies the field decides it. */
  function LastSupplied(ms: seq<L.ChatMessage>, field: L.ChatMessage -> Option<string>): Option<string> {
    if ms == [] then None else if field(Last(ms)).Some? then field(Last(ms)) else LastSupplied(Init(ms), field)
  }

  ghost predicate Supplies(u: C.Update, m: L.ChatMessage, of: C.Update -> Option<string>,
      field: L.ChatMessage -> Option<string>)
  {
    of(u) == field(m)
  }

  lemma {:induction false} SuppliedIsGiven(us: seq<C.Update>, ms: seq<L.ChatMessage>, of: C.Update -> Option<string>,
      field: L.ChatMessage -> Option<string>)
    requires |us| == |ms| && forall i :: 0 <= i < |us| ==> Supplies(us[i], ms[i], of, field)
    ensures LastGiven(us, of) == LastSupplied(ms, field)
  {
    if us != [] {
      SuppliedIsGiven(Init(us), Init(ms), of, field);
      assert Supplies(us[|us| - 1], ms[|us| - 1], of, field);
    }
  }

  ghost predicate AreUpdatesOf(thread: string, key: C.Key, us: seq<C.Update>, ms: seq<L.ChatMessage>) {
    |us| == |ms| && forall i :: 0 <= i < |us| ==> IsUpdateOf(thread, key, us[i], ms[i])
  }

  lemma {:induction false} ToolUpdate(thread: string, id: string, u: C.Update, m: L.ChatMessage)
    requires IsUpdateOf(thread, C.Key(C.ToolItem, id), u, m)
    ensures Supplies(u, m, TitleOf, TitleGiven) && Supplies(u, m, StatusOf, StatusGiven)
    ensures Supplies(u, m, InputOf, InputGiven) && Supplies(u, m, ResultOf, OutputGiven)
    ensures DetailOf(u) == None
  {
  }

  lemma {:induction false} NoDetail(us: seq<C.Update>)
    requires forall i :: 0 <= i < |us| ==> DetailOf(us[i]) == None
    ensures LastGiven(us, DetailOf) == None
  {
    if us != [] {
      NoDetail(Init(us));
    }
  }

  lemma {:induction false} ToolSummary(thread: string, id: string, us: seq<C.Update>, ms: seq<L.ChatMessage>)
    requires us != [] && C.Suits(C.ToolItem, Last(us)) && AreUpdatesOf(thread, C.Key(C.ToolItem, id), us, ms)
    ensures Summary(C.Key(C.ToolItem, id), us) ==
      C.Tool(id, C.GetOr(LastSupplied(ms, TitleGiven), ""), LastSupplied(ms, StatusGiven), None,
             LastSupplied(ms, InputGiven), LastSupplied(ms, OutputGiven))
  {
    forall i | 0 <= i < |us|
      ensures Supplies(us[i], ms[i], TitleOf, TitleGiven) && Supplies(us[i], ms[i], StatusOf, StatusGiven)
      ensures Supplies(us[i], ms[i], InputOf, InputGiven) && Supplies(us[i], ms[i], ResultOf, OutputGiven)
      ensures DetailOf(us[i]) == None
    {
      assert IsUpdateOf(thread, C.Key(C.ToolItem, id), us[i], ms[i]);
      ToolUpdate(thread, id, us[i], ms[i]);
    }
    SuppliedIsGiven(us, ms, TitleOf, TitleGiven);
    SuppliedIsGiven(us, ms, StatusOf, StatusGiven);
    SuppliedIsGiven(us, ms, InputOf, InputGiven);
    SuppliedIsGiven(us, ms, ResultOf, OutputGiven);
    NoDetail(us);
  }

  lemma {:induction false} RebuiltItem(thread: string, h: seq<L.ChatMessage>, kind: C.ItemKind, id: string)
    returns (j: nat)
    requires MessagesFor(h, C.Key(kind, id)) != []
    ensures var key := C.Key(kind, id);
      && UpdatesFor(Events(thread, h), key) != []
      && AreUpdatesOf(thread, key, UpdatesFor(Events(thread, h), key), MessagesFor(h, key))
      && IsOnlyItem(Rebuilt(thread, h), j, kind, id)
      && Rebuilt(thread, h)[j] == Summary(key, UpdatesFor(Events(thread, h), key))
  {
    var es, key := Events(thread, h), C.Key(kind, id);
    UpdatesAreMessages(thread, h, key);
    SeenMeansUpdates(es, key);
    MentionedIsSeen(es, kind, id);
    j := OnlyItem(es, kind, id);
  }

  /**
    A rebuilt tool item: the last text that is not empty as its title, and the last status, raw input
    and raw output that any of its messages supplied.
   */
  lemma {:induction false} RebuiltTool(thread: string, h: seq<L.ChatMessage>, id: string) returns (j: nat)
    requires MessagesFor(h, C.Key(C.ToolItem, id)) != []
    ensures IsOnlyItem(Rebuilt(thread, h), j, C.ToolItem, id)
    ensures var ms := MessagesFor(h, C.Key(C.ToolItem, id));
      Rebuilt(thread, h)[j] ==
      C.Tool(id, C.GetOr(LastSupplied(ms, TitleGiven), ""), LastSupplied(ms, StatusGiven), None,
             LastSupplied(ms, InputGiven), LastSupplied(ms, OutputGiven))
  {
    var key := C.Key(C.ToolItem, id);
    j := RebuiltItem(thread, h, C.ToolItem, id);
    ToolSummary(thread, id, UpdatesFor(Events(thread, h), key), MessagesFor(h, key));
  }

  /** A rebuilt user item: the text of its last message. */
  lemma {:induction false} RebuiltUser(thread: string, h: seq<L.ChatMessage>, id: string) returns (j: nat)
    requires MessagesFor(h, C.Key(C.UserItem, id)) != []
    ensures IsOnlyItem(Rebuilt(thread, h), j, C.UserItem, id)
    ensures Rebuilt(thread, h)[j] == C.User(id, Last(MessagesFor(h, C.Key(C.UserItem, id))).text)
  {
    var key := C.Key(C.UserItem, id);
    j := RebuiltItem(thread, h, C.UserItem, id);
    var us, ms := UpdatesFor(Events(thread, h), key), MessagesFor(h, key);
    assert IsUpdateOf(thread, key, us[|us| - 1], ms[|us| - 1]);
  }

  // ---------- Which messages share an item ----------

  lemma {:induction false} KeyOfPrefix(h: seq<L.ChatMessage>, k: nat)
    requires h != [] && k < |Init(h)|
    ensures KeyAt(Init(h), k) == KeyAt(h, k)
  {
    assert Init(h)[..k] == h[..k];
  }

  lemma {:induction false} MessagesOfLast(h: seq<L.ChatMessage>, key: C.Key)
    requires h != []
    ensures MessagesFor(h, key) ==
      if KeyAt(h, |h| - 1) == key then MessagesFor(Init(h), key) + [Last(h)] else MessagesFor(Init(h), key)
  {
    assert h[..|h| - 1] == Init(h);
  }

  /** The messages of `key` are exactly those from `lo` up to `hi`. */
  ghost predicate IsBlock(h: seq<L.ChatMessage>, key: C.Key, lo: nat, hi: nat) {
    lo < hi <= |h| && forall k :: 0 <= k < |h| ==> (KeyAt(h, k) == key <==> lo <= k < hi)
  }

  lemma {:induction false} NoMessages(h: seq<L.ChatMessage>, key: C.Key)
    requires forall k :: 0 <= k < |h| ==> KeyAt(h, k) != key
    ensures MessagesFor(h, key) == []
  {
    if h != [] {
      forall k | 0 <= k < |Init(h)| ensures KeyAt(Init(h), k) != key {
        KeyOfPrefix(h, k);
      }
      NoMessages(Init(h), key);
      MessagesOfLast(h, key);
    }
  }

  lemma {:induction false} SomeMessage(h: seq<L.ChatMessage>, key: C.Key, k: nat)
    requires k < |h| && KeyAt(h, k) == key
    ensures MessagesFor(h, key) != []
  {
    MessagesOfLast(h, key);
    if k < |h| - 1 {
      KeyOfPrefix(h, k);
      SomeMessage(Init(h), key, k);
    }
  }

  lemma {:induction false} TwoMessages(h: seq<L.ChatMessage>, key: C.Key, i: nat, k: nat)
    requires i < k < |h| && KeyAt(h, i) == key && KeyAt(h, k) == key
    ensures |MessagesFor(h, key)| >= 2
  {
    MessagesOfLast(h, key);
    KeyOfPrefix(h, i);
    if k < |h| - 1 {
      KeyOfPrefix(h, k);
      TwoMessages(Init(h), key, i, k);
    } else {
      SomeMessage(Init(h), key, i);
    }
  }

  /** What is left of a block without the last message of the history. */
  lemma {:induction false} BlockOfPrefix(h: seq<L.ChatMessage>, key: C.Key, lo: nat, hi: nat)
    requires IsBlock(h, key, lo, hi)
    ensures KeyAt(h, |h| - 1) == key <==> hi == |h|
    ensures lo < |h| - 1 ==> IsBlock(Init(h), key, lo, if hi == |h| then hi - 1 else hi)
    ensures lo == |h| - 1 ==> forall k :: 0 <= k < |Init(h)| ==> KeyAt(Init(h), k) != key
  {
    forall k | 0 <= k < |Init(h)| ensures KeyAt(Init(h), k) == KeyAt(h, k) {
      KeyOfPrefix(h, k);
    }
  }

  lemma {:induction false} SliceOfPrefix(h: seq<L.ChatMessage>, lo: nat, hi: nat)
    requires lo <= hi < |h|
    ensures Init(h)[lo..hi] == h[lo..hi]
  {
  }

  lemma {:induction false} SliceAppend(h: seq<L.ChatMessage>, lo: nat)
    requires lo < |h|
    ensures h[lo..|h| - 1] + [Last(h)] == h[lo..|h|]
  {
  }

  lemma {:induction false} BlockIsSlice(h: seq<L.ChatMessage>, key: C.Key, lo: nat, hi: nat)
    requires IsBlock(h, key, lo, hi)
    ensures MessagesFor(h, key) == h[lo..hi]
  {
    MessagesOfLast(h, key);
    BlockOfPrefix(h, key, lo, hi);
    if hi < |h| {
      BlockIsSlice(Init(h), key, lo, hi);
      SliceOfPrefix(h, lo, hi);
    } else if lo == |h| - 1 {
      NoMessages(Init(h), key);
      assert h[lo..hi] == [Last(h)];
    } else {
      BlockIsSlice(Init(h), key, lo, hi - 1);
      SliceOfPrefix(h, lo, hi - 1);
      SliceAppend(h, lo);
    }
  }

  /** A block of the prefix, and a last message with the same unclaimed synthetic id: one block. */
  lemma {:induction false} BlockGrows(h: seq<L.ChatMessage>, key: C.Key, n: nat, lo: nat, hi: nat)
    requires h != [] && key.id == Synthetic(n) && Unclaimed(h, key)
    requires IsBlock(Init(h), key, lo, hi) && KeyAt(h, |h| - 1) == key
    ensures IsBlock(h, key, lo, |h|)
  {
    forall k | 0 <= k < |Init(h)| ensures KeyAt(h, k) == key <==> lo <= k < hi {
      KeyOfPrefix(h, k);
    }
    assert KeyAt(h, lo) == key;
    SyntheticRunsAreContiguous(h, lo, |h| - 1, n);
    forall k | lo <= k < |h| ensures KeyAt(h, k) == key {
      assert InRun(h, k, n, h[|h| - 1].kind);
    }
  }

  lemma {:induction false} BlockStays(h: seq<L.ChatMessage>, key: C.Key, lo: nat, hi: nat)
    requires h != [] && IsBlock(Init(h), key, lo, hi) && KeyAt(h, |h| - 1) != key
    ensures IsBlock(h, key, lo, hi)
  {
    forall k | 0 <= k < |Init(h)| ensures KeyAt(h, k) == key <==> lo <= k < hi {
      KeyOfPrefix(h, k);
    }
  }

  lemma {:induction false} BlockStarts(h: seq<L.ChatMessage>, key: C.Key)
    requires h != [] && MessagesFor(Init(h), key) == [] && KeyAt(h, |h| - 1) == key
    ensures IsBlock(h, key, |h| - 1, |h|)
  {
    forall k | 0 <= k < |h| - 1 ensures KeyAt(h, k) != key {
      KeyOfPrefix(h, k);
      if KeyAt(h, k) == key {
        SomeMessage(Init(h), key, k);
      }
    }
  }

  lemma {:induction false} BlockFound(h: seq<L.ChatMessage>, key: C.Key, n: nat) returns (lo: nat, hi: nat)
    requires key.id == Synthetic(n) && Unclaimed(h, key) && MessagesFor(h, key) != []
    ensures IsBlock(h, key, lo, hi)
  {
    UnclaimedPrefix(h, key, |h| - 1);
    MessagesOfLast(h, key);
    if KeyAt(h, |h| - 1) != key {
      lo, hi := BlockFound(Init(h), key, n);
      BlockStays(h, key, lo, hi);
    } else if MessagesFor(Init(h), key) == [] {
      lo, hi := |h| - 1, |h|;
      BlockStarts(h, key);
    } else {
      lo, hi := BlockFound(Init(h), key, n);
      BlockGrows(h, key, n, lo, hi);
      hi := |h|;
    }
  }

  /** A block neither begins nor ends in the middle of a stream. */
  lemma {:induction false} BlockIsMaximal(h: seq<L.ChatMessage>, key: C.Key, lo: nat, hi: nat)
    requires IsBlock(h, key, lo, hi)
    ensures !Continues(h, lo) && !Continues(h, hi)
  {
    if Continues(h, lo) {
      SameStreamSameKey(h, lo);
    }
    if Continues(h, hi) {
      SameStreamSameKey(h, hi);
    }
  }

  lemma {:induction false} BlockIsRun(h: seq<L.ChatMessage>, key: C.Key, n: nat, lo: nat, hi: nat)
    requires key.id == Synthetic(n) && Unclaimed(h, key) && IsBlock(h, key, lo, hi) && lo + 1 < hi
    ensures forall k :: lo <= k < hi ==> InRun(h, k, n, h[lo].kind)
    ensures forall k :: lo < k < hi ==> Continues(h, k)
  {
    assert KeyAt(h, lo) == key && KeyAt(h, hi - 1) == key;
    SyntheticRunsAreContiguous(h, lo, hi - 1, n);
    assert InRun(h, lo, n, h[hi - 1].kind);
    forall k | lo < k < hi ensures Continues(h, k) {
      assert InRun(h, k - 1, n, h[hi - 1].kind) && InRun(h, k, n, h[hi - 1].kind);
    }
  }

  /**
    An item with a synthetic id that nobody claims is made of one contiguous block of the history: a
    single message, or a run of id-less, non-status chunks of one kind. The block is maximal: each of
    its messages but the first continues the one before, and its first and the one behind it do not.
   */
  lemma {:induction false} SyntheticItemIsOneBlock(h: seq<L.ChatMessage>, key: C.Key, n: nat) returns (lo: nat, hi: nat)
    requires key.id == Synthetic(n) && Unclaimed(h, key) && MessagesFor(h, key) != []
    ensures IsBlock(h, key, lo, hi) && MessagesFor(h, key) == h[lo..hi]
    ensures hi - lo > 1 ==> forall k :: lo <= k < hi ==> InRun(h, k, n, h[lo].kind)
    ensures forall k :: lo <= k <= hi ==> (Continues(h, k) <==> lo < k < hi)
  {
    lo, hi := BlockFound(h, key, n);
    BlockIsMaximal(h, key, lo, hi);
    BlockIsSlice(h, key, lo, hi);
    if hi - lo > 1 {
      BlockIsRun(h, key, n, lo, hi);
    }
  }

  /**
    A standalone status keeps to itself exactly when no ordinary message of the agent claims the id it
    was given.
   */
  lemma {:induction false} StatusIsAloneExactlyWhen(h: seq<L.ChatMessage>, i: nat)
    requires i < |h| && IsStatus(h[i])
    ensures MessagesFor(h, KeyAt(h, i)) == [h[i]] <==> Unclaimed(h, KeyAt(h, i))
  {
    var n, key := After(h[..i]).counter + 1, KeyAt(h, i);
    assert key.id == Synthetic(n);
    if Unclaimed(h, key) {
      SomeMessage(h, key, i);
      var lo, hi := SyntheticItemIsOneBlock(h, key, n);
      assert hi - lo > 1 ==> InRun(h, i, n, h[lo].kind);
      assert lo == i && hi == i + 1;
    } else {
      var k :| 0 <= k < |h| && Claims(h[k], key);
      assert KeyAt(h, k) == key && k != i;
      TwoMessages(h, key, if k < i then k else i, if k < i then i else k);
    }
  }

  /** Then it is an item of its own, with exactly its own text, whatever surrounds it. */
  lemma {:induction false} StatusIsItsOwnItem(thread: string, h: seq<L.ChatMessage>, i: nat) returns (j: nat)
    requires i < |h| && IsStatus(h[i]) && Unclaimed(h, KeyAt(h, i))
    ensures j < |Rebuilt(thread, h)| && Rebuilt(thread, h)[j] == C.Assistant(IdAt(h, i), h[i].text, false)
    ensures forall k :: 0 <= k < |Rebuilt(thread, h)| && k != j ==>
      C.ItemKey(Rebuilt(thread, h)[k]) != C.ItemKey(Rebuilt(thread, h)[j])
  {
    StatusIsAloneExactlyWhen(h, i);
    assert Init([h[i]]) == [] && JoinedText([h[i]]) == "" + h[i].text == h[i].text;
    j := StreamedItem(thread, h, KeyAt(h, i));
  }

  /** A streamed item with a synthetic id that nobody claims: the joined text of one block of the history. */
  lemma {:induction false} SyntheticItemText(thread: string, h: seq<L.ChatMessage>, key: C.Key, n: nat)
    returns (j: nat, lo: nat, hi: nat)
    requires key.kind.AssistantItem? || key.kind.ThoughtItem?
    requires key.id == Synthetic(n) && Unclaimed(h, key) && MessagesFor(h, key) != []
    ensures lo < hi <= |h| && j < |Rebuilt(thread, h)|
    ensures C.ItemKey(Rebuilt(thread, h)[j]) == Some(key) && StreamText(Rebuilt(thread, h)[j]) == JoinedText(h[lo..hi])
  {
    lo, hi := SyntheticItemIsOneBlock(h, key, n);
    j := StreamedItem(thread, h, key);
  }

  function AgentMessage(text: string, id: Option<string>): L.ChatMessage {
    L.ChatMessage(L.Agent, text, None, id, None, None)
  }

  /** Two messages: an ordinary one that claims the first synthetic id, and a status behind it. */
  lemma {:induction false} ClaimedStatusIsMerged(thread: string, text: string, status: string)
    requires !IsStandaloneStatus(text) && IsStandaloneStatus(status)
    ensures Rebuilt(thread, [AgentMessage(text, Some("synthetic-1")), AgentMessage(status, None)]) ==
      [C.Assistant("synthetic-1", text + status, false)]
  {
    var a, b := AgentMessage(text, Some("synthetic-1")), AgentMessage(status, None);
    assert Init([a]) == [] && Init([a, b]) == [a];
    assert After([]) == Assigner(None, 0);
    assert After([a]) == Assigner(Some((L.Agent, "synthetic-1")), 0);
    assert Print(1) == "1" && Synthetic(1) == "synthetic-1";
    AddEvent(thread, [a]);
    AddEvent(thread, [a, b]);
    assert Rebuilt(thread, []) == [];
    assert Rebuilt(thread, [a]) == [C.Assistant("synthetic-1", text, false)];
  }

  lemma {:induction false} LetterIsNoStatus(c: char)
    requires 'a' <= c <= 'z'
    ensures !IsStandaloneStatus([c])
  {
    assert TrimRight([c]) == [c] && TrimLeft([c]) == [c] && Lower([c]) == [c];
    assert [c][1..] == "";
    assert !Contains("", "502 bad gateway") && !Contains("", "bad gateway");
    assert !Contains([c], "502 bad gateway") && !Contains([c], "bad gateway");
  }

  lemma {:induction false} ReconnectIsStatus()
    ensures IsStandaloneStatus("reconnecting...")
  {
    var status := "reconnecting...";
    assert TrimRight(status) == status && TrimLeft(status) == status;
    assert forall i :: 0 <= i < |status| ==> Lower(status)[i] == status[i];
  }

  /** The same with texts written out: the promise that a status is never merged does not hold. */
  lemma {:induction false} ReconnectIsMerged(thread: string)
    ensures Rebuilt(thread, [AgentMessage("a", Some("synthetic-1")), AgentMessage("reconnecting...", None)]) ==
      [C.Assistant("synthetic-1", "a" + "reconnecting...", false)]
  {
    LetterIsNoStatus('a');
    ReconnectIsStatus();
    ClaimedStatusIsMerged(thread, "a", "reconnecting...");
  }

  /** An id-less chunk behind one with a real id joins its item: the open run is kept, not cleared. */
  lemma {:induction false} RealIdKeepsItsRun(thread: string, id: string, text: string, more: string)
    requires !IsStandaloneStatus(text) && !IsStandaloneStatus(more)
    ensures Rebuilt(thread, [AgentMessage(text, Some(id)), AgentMessage(more, None)]) ==
      [C.Assistant(id, text + more, false)]
  {
    var a, b := AgentMessage(text, Some(id)), AgentMessage(more, None);
    assert Init([a]) == [] && Init([a, b]) == [a];
    assert After([]) == Assigner(None, 0);
    assert After([a]) == Assigner(Some((L.Agent, id)), 0);
    AddEvent(thread, [a]);
    AddEvent(thread, [a, b]);
    assert Rebuilt(thread, []) == [];
    assert Rebuilt(thread, [a]) == [C.Assistant(id, text, false)];
  }

  /** The same with texts written out. */
  lemma {:induction false} RealIdIsJoined(thread: string)
    ensures Rebuilt(thread, [AgentMessage("a", Some("x")), AgentMessage("b", None)]) ==
      [C.Assistant("x", "a" + "b", false)]
  {
    LetterIsNoStatus('a');
    LetterIsNoStatus('b');
    RealIdKeepsItsRun(thread, "x", "a", "b");
  }

  // ---------- Growing histories ----------

  lemma {:induction false} EventsGrow(thread: string, h: seq<L.ChatMessage>, more: seq<L.ChatMessage>)
    ensures Events(thread, h) <= Events(thread, h + more)
  {
    if more == [] {
      assert h + more == h;
    } else {
      EventsGrow(thread, h, Init(more));
      assert Init(h + more) == h + Init(more);
    }
  }

  /** A longer history only extends what a shorter one gave: same items first, texts only longer. */
  lemma {:induction false} RebuiltExtends(thread: string, h: seq<L.ChatMessage>, more: seq<L.ChatMessage>)
    ensures Extends(Rebuilt(thread, h), Rebuilt(thread, h + more))
    ensures |Rebuilt(thread, h + more)| <= |Rebuilt(thread, h)| + |more|
  {
    EventsGrow(thread, h, more);
    var es, all := Events(thread, h), Events(thread, h + more);
    assert all == es + all[|es|..];
    FoldedExtends(es, all[|es|..]);
  }

  // ---------- Which texts are a status ----------

  predicate IsLetterOf(c: char, p: char) {
    c == p || ('A' <= c <= 'Z' && c as int + 32 == p as int)
  }

  /** The lower-case text `part` stands at position `i` of `s`, in letters of either case. */
  ghost predicate ReadsAt(s: string, i: nat, part: string) {
    i + |part| <= |s| && forall k :: 0 <= k < |part| ==> IsLetterOf(s[i + k], part[k])
  }

  predicate NoCapitals(part: string) {
    forall k :: 0 <= k < |part| ==> !('A' <= part[k] <= 'Z')
  }

  lemma {:induction false} PrefixReads(s: string, i: nat, part: string)
    requires i <= |s| && NoCapitals(part)
    ensures part <= Lower(s)[i..] <==> ReadsAt(s, i, part)
  {
    if ReadsAt(s, i, part) {
      assert forall k :: 0 <= k < |part| ==> Lower(s)[i..][k] == part[k];
    }
  }

  ghost predicate StandsAt(s: string, i: nat, part: string) {
    i <= |s| && part <= s[i..]
  }

  lemma {:induction false} ContainsMeans(s: string, part: string) returns (i: nat)
    requires Contains(s, part)
    ensures StandsAt(s, i, part)
  {
    if part <= s {
      i := 0;
    } else {
      var k := ContainsMeans(s[1..], part);
      i := k + 1;
      assert s[i..] == s[1..][k..];
    }
  }

  lemma {:induction false} StandingIsContained(s: string, i: nat, part: string)
    requires StandsAt(s, i, part)
    ensures Contains(s, part)
  {
    if i > 0 {
      assert s[i..] == s[1..][i - 1..];
      StandingIsContained(s[1..], i - 1, part);
    }
  }

  lemma {:induction false} ContainsExactlyWhen(s: string, part: string)
    requires NoCapitals(part)
    ensures Contains(Lower(s), part) <==> exists i: nat :: ReadsAt(s, i, part)
  {
    if Contains(Lower(s), part) {
      var i := ContainsMeans(Lower(s), part);
      PrefixReads(s, i, part);
      assert ReadsAt(s, i, part);
    }
    forall i: nat | ReadsAt(s, i, part) ensures Contains(Lower(s), part) {
      PrefixReads(s, i, part);
      StandingIsContained(Lower(s), i, part);
    }
  }

  lemma {:induction false} LongerIsContained(s: string)
    requires exists i: nat :: ReadsAt(s, i, "502 bad gateway")
    ensures exists i: nat :: ReadsAt(s, i, "bad gateway")
  {
    var i: nat :| ReadsAt(s, i, "502 bad gateway");
    assert forall k :: 0 <= k < 11 ==> "bad gateway"[k] == "502 bad gateway"[k + 4];
    forall k | 0 <= k < 11 ensures IsLetterOf(s[i + 4 + k], "bad gateway"[k]) {
      assert IsLetterOf(s[i + (k + 4)], "502 bad gateway"[k + 4]);
    }
    assert ReadsAt(s, i + 4, "bad gateway");
  }

  /**
    A text is a status exactly if, white space around it aside and in letters of either case, it starts
    with one of two phrases or has a third one anywhere; the fourth phrase looked for adds nothing.
   */
  lemma {:induction false} StatusExactlyWhen(text: string)
    ensures var t := TrimLeft(TrimRight(text));
      IsStandaloneStatus(text) <==>
        || ReadsAt(t, 0, "reconnecting...") || ReadsAt(t, 0, "unexpected status ")
        || exists i: nat :: ReadsAt(t, i, "bad gateway")
  {
    var t := TrimLeft(TrimRight(text));
    PrefixReads(t, 0, "reconnecting...");
    PrefixReads(t, 0, "unexpected status ");
    ContainsExactlyWhen(t, "bad gateway");
    ContainsExactlyWhen(t, "502 bad gateway");
    if Contains(Lower(t), "502 bad gateway") {
      LongerIsContained(t);
    }
  }
}
