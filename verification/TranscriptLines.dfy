/** The lines of a transcript file: messages and trailers, tagged so that each reads back unambiguously. */
module TranscriptLines {
  import opened Wrappers
  import opened Sequences
  import opened Json

  datatype MessageKind = User | Agent | Thinking | ToolCall

  datatype ChatMessage = ChatMessage(
    kind: MessageKind,
    text: string,
    status: Option<string>,
    id: Option<string>,
    rawInput: Option<string>,
    rawOutput: Option<string>)

  datatype ThreadTrailer = ThreadTrailer(
    acpSessionId: string,
    title: Option<string>,
    updatedAt: Option<string>,
    messageCount: nat)

  datatype Line = Message(message: ChatMessage) | Trailer(trailer: ThreadTrailer)

  function KindName(kind: MessageKind): string {
    match kind
    case User => "user"
    case Agent => "agent"
    case Thinking => "thinking"
    case ToolCall => "tool_call"
  }

  function KindOfName(name: string): Option<MessageKind> {
    if name == "user" then Some(User)
    else if name == "agent" then Some(Agent)
    else if name == "thinking" then Some(Thinking)
    else if name == "tool_call" then Some(ToolCall)
    else None
  }

  function OptionalText(text: Option<string>): Scalar {
    match text
    case None => Null
    case Some(t) => Str(t)
  }

  /** A field of a record: given twice it is an error, where a raw look at the object takes the last one. */
  function Field(ms: seq<Member>, key: string): Option<Option<Scalar>> {
    if Repeats(ms, key) then None else Some(Get(ms, key))
  }

  /** An optional field: absent and null both mean none; any other type is an error. */
  function TextField(ms: seq<Member>, key: string): Option<Option<string>> {
    match Field(ms, key)
    case None => None
    case Some(None) => Some(None)
    case Some(Some(Null)) => Some(None)
    case Some(Some(Str(text))) => Some(Some(text))
    case Some(Some(Num(_))) => None
  }

  function RequiredText(ms: seq<Member>, key: string): Option<string> {
    match Field(ms, key)
    case Some(Some(Str(text))) => Some(text)
    case _ => None
  }

  function MessageMembers(m: ChatMessage): seq<Member> {
    [("kind", Str(KindName(m.kind))), ("text", Str(m.text)), ("status", OptionalText(m.status)),
     ("id", OptionalText(m.id)), ("raw_input", OptionalText(m.rawInput)), ("raw_output", OptionalText(m.rawOutput))]
  }

  function TrailerMembers(t: ThreadTrailer): seq<Member> {
    [("acpSessionId", Str(t.acpSessionId)), ("title", OptionalText(t.title)),
     ("updatedAt", OptionalText(t.updatedAt)), ("messageCount", Num(t.messageCount))]
  }

  function LineMembers(line: Line): seq<Member> {
    match line
    case Message(m) => [("line_kind", Str("message"))] + MessageMembers(m)
    case Trailer(t) => [("line_kind", Str("trailer"))] + TrailerMembers(t)
  }

  function MessageOf(ms: seq<Member>): Option<ChatMessage> {
    match (RequiredText(ms, "kind"), RequiredText(ms, "text"), TextField(ms, "status"), TextField(ms, "id"),
           TextField(ms, "raw_input"), TextField(ms, "raw_output"))
    case (Some(name), Some(text), Some(status), Some(id), Some(rawInput), Some(rawOutput)) =>
      (match KindOfName(name)
       case Some(kind) => Some(ChatMessage(kind, text, status, id, rawInput, rawOutput))
       case None => None)
    case _ => None
  }

  function TrailerOf(ms: seq<Member>): Option<ThreadTrailer> {
    match (RequiredText(ms, "acpSessionId"), TextField(ms, "title"), TextField(ms, "updatedAt"),
           Field(ms, "messageCount"))
    case (Some(session), Some(title), Some(updatedAt), Some(Some(Num(count)))) =>
      Some(ThreadTrailer(session, title, updatedAt, count))
    case _ => None
  }

  function LineOf(ms: seq<Member>): Option<Line> {
    match RequiredText(ms, "line_kind")
    case None => None
    case Some(tag) =>
      if tag == "message" then
        (match MessageOf(ms) case Some(m) => Some(Message(m)) case None => None)
      else if tag == "trailer" then
        (match TrailerOf(ms) case Some(t) => Some(Trailer(t)) case None => None)
      else None
  }

  /** The text of one line, without its line break. */
  function Encode(line: Line): string {
    WriteObject(LineMembers(line))
  }

  function Decode(text: string): Option<Line> {
    match ReadObject(text)
    case None => None
    case Some(ms) => LineOf(ms)
  }

  /** The index scan looks at the tag only, without decoding the rest. */
  predicate PeekIsMessage(text: string) {
    match ReadObject(text)
    case None => false
    case Some(ms) => Get(ms, "line_kind") == Some(Str("message"))
  }

  // ---------- Round trips ----------

  lemma {:induction false} KindRoundTrip(kind: MessageKind)
    ensures KindOfName(KindName(kind)) == Some(kind)
  {
    assert "user"[0] != "agent"[0];
  }

  lemma {:induction false} MessageFieldNames(ms: seq<Member>, m: ChatMessage)
    requires ms == [("line_kind", Str("message"))] + MessageMembers(m)
    ensures Field(ms, "line_kind") == Some(Some(Str("message")))
    ensures Field(ms, "kind") == Some(Some(Str(KindName(m.kind))))
    ensures Field(ms, "text") == Some(Some(Str(m.text)))
    ensures Field(ms, "status") == Some(Some(OptionalText(m.status)))
    ensures Field(ms, "id") == Some(Some(OptionalText(m.id)))
    ensures Field(ms, "raw_input") == Some(Some(OptionalText(m.rawInput)))
    ensures Field(ms, "raw_output") == Some(Some(OptionalText(m.rawOutput)))
  {
    assert "kind"[0] == 'k' && "text"[0] == 't';
    assert "line_kind"[0] == 'l' && "raw_input"[0] == 'r';
    GetAt(ms, 0);
    GetAt(ms, 1);
    GetAt(ms, 2);
    GetAt(ms, 3);
    GetAt(ms, 4);
    GetAt(ms, 5);
    GetAt(ms, 6);
  }

  lemma {:induction false} TrailerFieldNames(ms: seq<Member>, t: ThreadTrailer, lead: seq<Member>)
    requires lead == [] || lead == [("line_kind", Str("trailer"))]
    requires ms == lead + TrailerMembers(t)
    ensures lead != [] ==> Field(ms, "line_kind") == Some(Some(Str("trailer")))
    ensures Field(ms, "acpSessionId") == Some(Some(Str(t.acpSessionId)))
    ensures Field(ms, "title") == Some(Some(OptionalText(t.title)))
    ensures Field(ms, "updatedAt") == Some(Some(OptionalText(t.updatedAt)))
    ensures Field(ms, "messageCount") == Some(Some(Num(t.messageCount)))
  {
    assert "line_kind"[0] == 'l' && "updatedAt"[0] == 'u';
    assert "acpSessionId"[0] == 'a' && "messageCount"[0] == 'm';
    if lead != [] {
      GetAt(ms, 0);
    }
    GetAt(ms, |lead|);
    GetAt(ms, |lead| + 1);
    GetAt(ms, |lead| + 2);
    GetAt(ms, |lead| + 3);
  }

  lemma {:induction false} TextFieldOf(ms: seq<Member>, key: string, text: Option<string>)
    requires Field(ms, key) == Some(Some(OptionalText(text)))
    ensures TextField(ms, key) == Some(text)
  {
  }

  lemma {:induction false} MessageOfMembers(ms: seq<Member>, m: ChatMessage)
    requires ms == [("line_kind", Str("message"))] + MessageMembers(m)
    ensures MessageOf(ms) == Some(m) && RequiredText(ms, "line_kind") == Some("message")
  {
    MessageFieldNames(ms, m);
    KindRoundTrip(m.kind);
    TextFieldOf(ms, "status", m.status);
    TextFieldOf(ms, "id", m.id);
    TextFieldOf(ms, "raw_input", m.rawInput);
    TextFieldOf(ms, "raw_output", m.rawOutput);
    assert RequiredText(ms, "kind") == Some(KindName(m.kind)) && RequiredText(ms, "text") == Some(m.text);
  }

  lemma {:induction false} TrailerOfMembers(ms: seq<Member>, t: ThreadTrailer, lead: seq<Member>)
    requires lead == [] || lead == [("line_kind", Str("trailer"))]
    requires ms == lead + TrailerMembers(t)
    ensures TrailerOf(ms) == Some(t)
    ensures lead != [] ==> RequiredText(ms, "line_kind") == Some("trailer")
  {
    TrailerFieldNames(ms, t, lead);
    TextFieldOf(ms, "title", t.title);
    TextFieldOf(ms, "updatedAt", t.updatedAt);
    assert RequiredText(ms, "acpSessionId") == Some(t.acpSessionId);
  }

  lemma {:induction false} LineOfMembers(line: Line)
    ensures LineOf(LineMembers(line)) == Some(line)
    ensures Get(LineMembers(line), "line_kind") == Some(Str("message")) <==> line.Message?
  {
    assert "message"[0] != "trailer"[0];
    match line
    case Message(m) => MessageOfMembers(LineMembers(line), m);
    case Trailer(t) => TrailerOfMembers(LineMembers(line), t, [("line_kind", Str("trailer"))]);
  }

  /** Every line written reads back as itself, and the peek recognises exactly the messages. */
  lemma {:induction false} DecodeEncode(line: Line)
    ensures Decode(Encode(line)) == Some(line)
    ensures PeekIsMessage(Encode(line)) <==> line.Message?
    ensures HasNoBreak(Encode(line)) && Encode(line) != []
  {
    LineOfMembers(line);
    ReadWrittenObject(LineMembers(line));
    ObjectHasNoBreak(LineMembers(line));
  }

  /** The standalone trailer file holds the same fields without a tag. */
  function EncodeTrailer(t: ThreadTrailer): string {
    WriteObject(TrailerMembers(t))
  }

  function DecodeTrailer(text: string): Option<ThreadTrailer> {
    match ReadObject(text)
    case None => None
    case Some(ms) => TrailerOf(ms)
  }

  lemma {:induction false} DecodeEncodeTrailer(t: ThreadTrailer)
    ensures DecodeTrailer(EncodeTrailer(t)) == Some(t)
  {
    ReadWrittenObject(TrailerMembers(t));
    assert [] + TrailerMembers(t) == TrailerMembers(t);
    TrailerOfMembers(TrailerMembers(t), t, []);
  }

  /** On a line that decodes, peeking at the tag and decoding agree. */
  lemma {:induction false} PeekAgreesWithDecode(text: string)
    requires Decode(text).Some?
    ensures PeekIsMessage(text) <==> Decode(text).value.Message?
  {
    assert "message"[0] != "trailer"[0];
  }

  // ---------- What a line looks like, and which lines are understood ----------

  /** A field that may be missing: left out, or null, if there is no text. Given twice it is neither. */
  ghost predicate Gives(ms: seq<Member>, key: string, text: Option<string>) {
    && !Repeats(ms, key)
    && if text.Some? then Get(ms, key) == Some(Str(text.value)) else Get(ms, key).None? || Get(ms, key) == Some(Null)
  }

  /** The members, in any order and among any others, say that the line is this message. */
  ghost predicate GivesMessage(ms: seq<Member>, m: ChatMessage) {
    && Gives(ms, "line_kind", Some("message"))
    && Gives(ms, "kind", Some(KindName(m.kind)))
    && Gives(ms, "text", Some(m.text))
    && Gives(ms, "status", m.status) && Gives(ms, "id", m.id)
    && Gives(ms, "raw_input", m.rawInput) && Gives(ms, "raw_output", m.rawOutput)
  }

  ghost predicate GivesTrailer(ms: seq<Member>, t: ThreadTrailer) {
    && Gives(ms, "acpSessionId", Some(t.acpSessionId))
    && Gives(ms, "title", t.title) && Gives(ms, "updatedAt", t.updatedAt)
    && !Repeats(ms, "messageCount") && Get(ms, "messageCount") == Some(Num(t.messageCount))
  }

  lemma {:induction false} TextFieldExactlyWhen(ms: seq<Member>, key: string, text: Option<string>)
    ensures TextField(ms, key) == Some(text) <==> Gives(ms, key, text)
    ensures text.Some? ==> (RequiredText(ms, key) == text <==> Gives(ms, key, text))
  {
  }

  lemma {:induction false} KindOfNameExactlyWhen(name: string, kind: MessageKind)
    ensures KindOfName(name) == Some(kind) <==> name == KindName(kind)
  {
    KindRoundTrip(kind);
  }

  lemma {:induction false} KindExactlyWhen(ms: seq<Member>, kind: MessageKind)
    ensures (RequiredText(ms, "kind").Some? && KindOfName(RequiredText(ms, "kind").value) == Some(kind)) <==>
      Gives(ms, "kind", Some(KindName(kind)))
  {
    TextFieldExactlyWhen(ms, "kind", Some(KindName(kind)));
    if RequiredText(ms, "kind").Some? {
      KindOfNameExactlyWhen(RequiredText(ms, "kind").value, kind);
    }
  }

  lemma {:induction false} MessageOfExactlyWhen(ms: seq<Member>, m: ChatMessage)
    ensures MessageOf(ms) == Some(m) <==>
      && RequiredText(ms, "kind").Some? && KindOfName(RequiredText(ms, "kind").value) == Some(m.kind)
      && RequiredText(ms, "text") == Some(m.text)
      && TextField(ms, "status") == Some(m.status) && TextField(ms, "id") == Some(m.id)
      && TextField(ms, "raw_input") == Some(m.rawInput) && TextField(ms, "raw_output") == Some(m.rawOutput)
  {
  }

  lemma {:induction false} MessageGivenExactlyWhen(ms: seq<Member>, m: ChatMessage)
    ensures RequiredText(ms, "line_kind") == Some("message") && MessageOf(ms) == Some(m) <==> GivesMessage(ms, m)
  {
    MessageOfExactlyWhen(ms, m);
    TextFieldExactlyWhen(ms, "line_kind", Some("message"));
    KindExactlyWhen(ms, m.kind);
    TextFieldExactlyWhen(ms, "text", Some(m.text));
    TextFieldExactlyWhen(ms, "status", m.status);
    TextFieldExactlyWhen(ms, "id", m.id);
    TextFieldExactlyWhen(ms, "raw_input", m.rawInput);
    TextFieldExactlyWhen(ms, "raw_output", m.rawOutput);
  }

  lemma {:induction false} TrailerOfExactlyWhen(ms: seq<Member>, t: ThreadTrailer)
    ensures TrailerOf(ms) == Some(t) <==> GivesTrailer(ms, t)
  {
    TextFieldExactlyWhen(ms, "acpSessionId", Some(t.acpSessionId));
    TextFieldExactlyWhen(ms, "title", t.title);
    TextFieldExactlyWhen(ms, "updatedAt", t.updatedAt);
  }

  /** A line is understood as this message, or as this trailer, exactly when its object says so. */
  lemma {:induction false} DecodesExactlyWhen(text: string, m: ChatMessage, t: ThreadTrailer)
    ensures Decode(text) == Some(Message(m)) <==> ReadObject(text).Some? && GivesMessage(ReadObject(text).value, m)
    ensures Decode(text) == Some(Trailer(t)) <==>
      && ReadObject(text).Some? && Gives(ReadObject(text).value, "line_kind", Some("trailer"))
      && GivesTrailer(ReadObject(text).value, t)
    ensures DecodeTrailer(text) == Some(t) <==> ReadObject(text).Some? && GivesTrailer(ReadObject(text).value, t)
  {
    assert "message"[0] != "trailer"[0];
    if ReadObject(text).Some? {
      MessageGivenExactlyWhen(ReadObject(text).value, m);
      TrailerOfExactlyWhen(ReadObject(text).value, t);
      TextFieldExactlyWhen(ReadObject(text).value, "line_kind", Some("trailer"));
    }
  }

  lemma {:induction false} OldMembersGive(ms: seq<Member>, kind: MessageKind, text: string)
    requires ms == [("line_kind", Str("message")), ("kind", Str(KindName(kind))), ("text", Str(text))]
    ensures GivesMessage(ms, ChatMessage(kind, text, None, None, None, None))
  {
    assert "line_kind"[0] == 'l' && "kind"[0] == 'k' && "text"[0] == 't';
    assert "status"[0] == 's' && "id"[0] == 'i' && "raw_input"[0] == 'r' && "raw_output"[0] == 'r';
    GetAt(ms, 0);
    GetAt(ms, 1);
    GetAt(ms, 2);
    NoSuchMember(ms, "status");
    NoSuchMember(ms, "id");
    NoSuchMember(ms, "raw_input");
    NoSuchMember(ms, "raw_output");
  }

  lemma {:induction false} NoSuchMember(ms: seq<Member>, key: string)
    requires forall k :: 0 <= k < |ms| ==> ms[k].0 != key
    ensures Get(ms, key) == None && !Repeats(ms, key)
  {
    if ms != [] {
      NoSuchMember(Init(ms), key);
    }
  }

  /** A message line from before the optional fields existed reads with none of them. */
  lemma {:induction false} OldMessageLine(kind: MessageKind, text: string)
    ensures Decode(WriteObject([("line_kind", Str("message")), ("kind", Str(KindName(kind))), ("text", Str(text))]))
      == Some(Message(ChatMessage(kind, text, None, None, None, None)))
  {
    var ms := [("line_kind", Str("message")), ("kind", Str(KindName(kind))), ("text", Str(text))];
    var m, t := ChatMessage(kind, text, None, None, None, None), ThreadTrailer("", None, None, 0);
    OldMembersGive(ms, kind, text);
    ReadWrittenObject(ms);
    DecodesExactlyWhen(WriteObject(ms), m, t);
  }

  ghost predicate IsNamed(kind: MessageKind, name: string) {
    match kind
    case User => name == "user"
    case Agent => name == "agent"
    case Thinking => name == "thinking"
    case ToolCall => name == "tool_call"
  }

  /** The record written for a message, name by name. */
  lemma {:induction false} WrittenMessage(m: ChatMessage, name: string)
    requires IsNamed(m.kind, name)
    ensures ReadObject(Encode(Message(m))).Some?
    ensures var ms := ReadObject(Encode(Message(m))).value;
      && |ms| == 7 && ms[0] == ("line_kind", Str("message"))
      && ms[1] == ("kind", Str(name)) && ms[2] == ("text", Str(m.text))
      && ms[3] == ("status", OptionalText(m.status)) && ms[4] == ("id", OptionalText(m.id))
      && ms[5] == ("raw_input", OptionalText(m.rawInput)) && ms[6] == ("raw_output", OptionalText(m.rawOutput))
  {
    ReadWrittenObject(LineMembers(Message(m)));
  }

  /** And for a trailer: with its tag in the line file, without it in a file of its own. */
  lemma {:induction false} WrittenTrailer(t: ThreadTrailer)
    ensures var fields: seq<Member> := [
        ("acpSessionId", Str(t.acpSessionId)), ("title", OptionalText(t.title)),
        ("updatedAt", OptionalText(t.updatedAt)), ("messageCount", Num(t.messageCount))];
      && ReadObject(EncodeTrailer(t)) == Some(fields)
      && ReadObject(Encode(Trailer(t))) == Some([("line_kind", Str("trailer"))] + fields)
  {
    ReadWrittenObject(LineMembers(Trailer(t)));
    ReadWrittenObject(TrailerMembers(t));
  }
}
