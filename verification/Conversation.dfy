/** The thread-scoped conversation reducer: events merge into transcript items by kind and id. */
module Conversation {
  import opened Wrappers

  datatype TranscriptItem =
    | User(messageId: string, text: string)
    | Assistant(messageId: string, text: string, streaming: bool)
    | Thought(messageId: string, text: string, streaming: bool)
    | Tool(toolCallId: string, title: string, status: Option<string>, detail: Option<string>,
           rawInput: Option<string>, rawOutput: Option<string>)
    | Terminal(terminalId: string, title: string, output: string, exitCode: Option<int>)
    | Notice(text: string)

  datatype ConversationEvent =
    | UserMessage(thread: string, messageId: string, text: string)
    | AssistantChunk(thread: string, messageId: string, text: string, completed: bool)
    | ThoughtChunk(thread: string, messageId: string, text: string, completed: bool)
    | ToolCall(thread: string, toolCallId: string, title: Option<string>, status: Option<string>,
               detail: Option<string>, rawInput: Option<string>, rawOutput: Option<string>)
    | TerminalCreated(thread: string, terminalId: string, name: string)
    | TerminalOutput(thread: string, terminalId: string, text: string)
    | TerminalExited(thread: string, terminalId: string, exitCode: int)
    | NoticeShown(thread: string, text: string)

  // ---------- Keys and updates ----------

  datatype ItemKind = UserItem | AssistantItem | ThoughtItem | ToolItem | TerminalItem

  /** Items of the same kind and id are one item; notices have no id and are never merged. */
  datatype Key = Key(kind: ItemKind, id: string)

  datatype Update =
    | SetText(text: string)
    | MoreText(text: string, completed: bool)
    | ToolFields(title: Option<string>, status: Option<string>, detail: Option<string>,
                 rawInput: Option<string>, rawOutput: Option<string>)
    | TerminalFields(title: Option<string>, output: Option<string>, exitCode: Option<int>)

  function ItemKey(item: TranscriptItem): Option<Key> {
    match item
    case User(id, _) => Some(Key(UserItem, id))
    case Assistant(id, _, _) => Some(Key(AssistantItem, id))
    case Thought(id, _, _) => Some(Key(ThoughtItem, id))
    case Tool(id, _, _, _, _, _) => Some(Key(ToolItem, id))
    case Terminal(id, _, _, _) => Some(Key(TerminalItem, id))
    case Notice(_) => None
  }

  function EventKey(e: ConversationEvent): Option<Key> {
    match e
    case UserMessage(_, id, _) => Some(Key(UserItem, id))
    case AssistantChunk(_, id, _, _) => Some(Key(AssistantItem, id))
    case ThoughtChunk(_, id, _, _) => Some(Key(ThoughtItem, id))
    case ToolCall(_, id, _, _, _, _, _) => Some(Key(ToolItem, id))
    case TerminalCreated(_, id, _) => Some(Key(TerminalItem, id))
    case TerminalOutput(_, id, _) => Some(Key(TerminalItem, id))
    case TerminalExited(_, id, _) => Some(Key(TerminalItem, id))
    case NoticeShown(_, _) => None
  }

  function EventUpdate(e: ConversationEvent): Update
    requires !e.NoticeShown?
  {
    match e
    case UserMessage(_, _, text) => SetText(text)
    case AssistantChunk(_, _, text, completed) => MoreText(text, completed)
    case ThoughtChunk(_, _, text, completed) => MoreText(text, completed)
    case ToolCall(_, _, title, status, detail, rawInput, rawOutput) =>
      ToolFields(title, status, detail, rawInput, rawOutput)
    case TerminalCreated(_, _, title) => TerminalFields(Some(title), None, None)
    case TerminalOutput(_, _, text) => TerminalFields(None, Some(text), None)
    case TerminalExited(_, _, exitCode) => TerminalFields(None, None, Some(exitCode))
  }

  predicate Suits(kind: ItemKind, u: Update) {
    match kind
    case UserItem => u.SetText?
    case AssistantItem => u.MoreText?
    case ThoughtItem => u.MoreText?
    case ToolItem => u.ToolFields?
    case TerminalItem => u.TerminalFields?
  }

  function Or<T>(given: Option<T>, stored: Option<T>): Option<T> {
    if given.Some? then given else stored
  }

  function GetOr<T>(given: Option<T>, default: T): T {
    if given.Some? then given.value else default
  }

  /** The item a first update creates. */
  function Fresh(key: Key, u: Update): TranscriptItem
    requires Suits(key.kind, u)
  {
    match key.kind
    case UserItem => User(key.id, u.text)
    case AssistantItem => Assistant(key.id, u.text, !u.completed)
    case ThoughtItem => Thought(key.id, u.text, !u.completed)
    case ToolItem => Tool(key.id, GetOr(u.title, ""), u.status, u.detail, u.rawInput, u.rawOutput)
    case TerminalItem => Terminal(key.id, GetOr(u.title, "Terminal"), GetOr(u.output, ""), u.exitCode)
  }

  /** What a later update does to the stored item. */
  function Merged(item: TranscriptItem, u: Update): TranscriptItem
    requires ItemKey(item).Some? && Suits(ItemKey(item).value.kind, u)
  {
    match item
    case User(id, _) => User(id, u.text)
    case Assistant(id, stored, _) => Assistant(id, stored + u.text, !u.completed)
    case Thought(id, stored, _) => Thought(id, stored + u.text, !u.completed)
    case Tool(id, title, status, detail, rawInput, rawOutput) =>
      Tool(id, GetOr(u.title, title), Or(u.status, status), Or(u.detail, detail),
           Or(u.rawInput, rawInput), Or(u.rawOutput, rawOutput))
    case Terminal(id, title, output, exitCode) =>
      Terminal(id, GetOr(u.title, title), output + GetOr(u.output, ""), Or(u.exitCode, exitCode))
  }

  /** The first item with this key, or the number of items if there is none. */
  function Find(items: seq<TranscriptItem>, key: Key, from: nat): (i: nat)
    requires from <= |items|
    ensures from <= i <= |items| && (i < |items| ==> ItemKey(items[i]) == Some(key))
    ensures forall k :: from <= k < i ==> ItemKey(items[k]) != Some(key)
    decreases |items| - from
  {
    if from == |items| || ItemKey(items[from]) == Some(key) then from else Find(items, key, from + 1)
  }

  function Upserted(items: seq<TranscriptItem>, key: Key, u: Update): seq<TranscriptItem>
    requires Suits(key.kind, u)
  {
    var i := Find(items, key, 0);
    if i < |items| then items[i := Merged(items[i], u)] else items + [Fresh(key, u)]
  }

  function Applied(items: seq<TranscriptItem>, e: ConversationEvent): seq<TranscriptItem> {
    match EventKey(e)
    case Some(key) => Upserted(items, key, EventUpdate(e))
    case None => items + [Notice(e.text)]
  }

  /** `after` is `before` with its stream closed, if it is a stream: same kind, same id, same text. */
  ghost predicate IsClosed(before: TranscriptItem, after: TranscriptItem) {
    && (after.Assistant? <==> before.Assistant?) && (after.Thought? <==> before.Thought?)
    && if before.Assistant? || before.Thought?
       then after.messageId == before.messageId && after.text == before.text && !after.streaming
       else after == before
  }

  // ---------- The reducer ----------

  class ConversationState {
    const threadId: string
    var items: seq<TranscriptItem>

    constructor (threadId: string)
      ensures this.threadId == threadId && items == []
    {
      this.threadId := threadId;
      items := [];
    }

    /** Closes all open streams at once, when the turn that fed them is over. */
    method MarkAllStreamingCompleted()
      modifies this
      ensures |items| == |old(items)| && forall k :: 0 <= k < |items| ==> IsClosed(old(items)[k], items[k])
    {
      for i := 0 to |items|
        invariant |items| == |old(items)|
        invariant forall k :: 0 <= k < i ==> IsClosed(old(items)[k], items[k])
        invariant forall k :: i <= k < |items| ==> items[k] == old(items)[k]
      {
        match items[i] {
          case Assistant(id, text, _) => items := items[i := Assistant(id, text, false)];
          case Thought(id, text, _) => items := items[i := Thought(id, text, false)];
          case _ =>
        }
      }
    }

    /** False for an event of another thread, which changes nothing. */
    method Apply(e: ConversationEvent) returns (accepted: bool)
      modifies this
      ensures accepted <==> e.thread == threadId
      ensures items == if accepted then Applied(old(items), e) else old(items)
    {
      if e.thread != threadId {
        return false;
      }
      match e {
        case UserMessage(_, id, text) => UpsertUser(id, text);
        case AssistantChunk(_, id, text, completed) => MergeText(id, text, completed, false);
        case ThoughtChunk(_, id, text, completed) => MergeText(id, text, completed, true);
        case ToolCall(_, id, title, status, detail, rawInput, rawOutput) =>
          UpsertTool(id, title, status, detail, rawInput, rawOutput);
        case TerminalCreated(_, id, title) => UpsertTerminal(id, Some(title), None, None);
        case TerminalOutput(_, id, text) => UpsertTerminal(id, None, Some(text), None);
        case TerminalExited(_, id, exitCode) => UpsertTerminal(id, None, None, Some(exitCode));
        case NoticeShown(_, text) => items := items + [Notice(text)];
      }
      return true;
    }

    method UpsertUser(messageId: string, text: string)
      modifies this
      ensures items == Upserted(old(items), Key(UserItem, messageId), SetText(text))
    {
      var i := Find(items, Key(UserItem, messageId), 0);
      if i < |items| {
        items := items[i := User(messageId, text)];
      } else {
        items := items + [User(messageId, text)];
      }
    }

    method MergeText(messageId: string, text: string, completed: bool, thought: bool)
      modifies this
      ensures items == Upserted(old(items), Key(if thought then ThoughtItem else AssistantItem, messageId),
                                MoreText(text, completed))
    {
      ghost var key := Key(if thought then ThoughtItem else AssistantItem, messageId);
      for i := 0 to |items|
        invariant items == old(items)
        invariant forall k :: 0 <= k < i ==> ItemKey(items[k]) != Some(key)
      {
        match items[i] {
          case Assistant(id, stored, _) =>
            if !thought && id == messageId {
              items := items[i := Assistant(id, stored + text, !completed)];
              return;
            }
          case Thought(id, stored, _) =>
            if thought && id == messageId {
              items := items[i := Thought(id, stored + text, !completed)];
              return;
            }
          case _ =>
        }
      }
      if thought {
        items := items + [Thought(messageId, text, !completed)];
      } else {
        items := items + [Assistant(messageId, text, !completed)];
      }
    }

    method UpsertTool(toolCallId: string, title: Option<string>, status: Option<string>, detail: Option<string>,
                      rawInput: Option<string>, rawOutput: Option<string>)
      modifies this
      ensures items ==
        Upserted(old(items), Key(ToolItem, toolCallId), ToolFields(title, status, detail, rawInput, rawOutput))
    {
      var i := Find(items, Key(ToolItem, toolCallId), 0);
      if i < |items| {
        var Tool(_, storedTitle, storedStatus, storedDetail, storedInput, storedOutput) := items[i];
        if title.Some? { storedTitle := title.value; }
        if status.Some? { storedStatus := status; }
        if detail.Some? { storedDetail := detail; }
        if rawInput.Some? { storedInput := rawInput; }
        if rawOutput.Some? { storedOutput := rawOutput; }
        items := items[i := Tool(toolCallId, storedTitle, storedStatus, storedDetail, storedInput, storedOutput)];
        return;
      }
      items := items + [Tool(toolCallId, GetOr(title, ""), status, detail, rawInput, rawOutput)];
    }

    method UpsertTerminal(terminalId: string, title: Option<string>, output: Option<string>, exitCode: Option<int>)
      modifies this
      ensures items == Upserted(old(items), Key(TerminalItem, terminalId), TerminalFields(title, output, exitCode))
    {
      var i := Find(items, Key(TerminalItem, terminalId), 0);
      if i < |items| {
        var Terminal(_, storedTitle, storedOutput, storedExitCode) := items[i];
        assert storedOutput + "" == storedOutput;
        if title.Some? { storedTitle := title.value; }
        if output.Some? { storedOutput := storedOutput + output.value; }
        if exitCode.Some? { storedExitCode := exitCode; }
        items := items[i := Terminal(terminalId, storedTitle, storedOutput, storedExitCode)];
        return;
      }
      items := items + [Terminal(terminalId, GetOr(title, "Terminal"), GetOr(output, ""), exitCode)];
    }
  }
}
