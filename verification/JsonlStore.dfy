/**
  The transcript cache: for each thread a line file, an index of message offsets beside it, and a
  standalone trailer. File contents are kept in memory here, and each operation is atomic.
 */
module JsonlStore {
  import opened Wrappers
  import opened Sequences
  import opened Decimal
  import opened Text
  import opened TranscriptLines
  import opened TranscriptText

  /** `Parse` carries the number of the offending line, or zero where the code knows none. */
  datatype CacheError = Io | Parse(lineNo: nat)

  datatype CachedThread = CachedThread(messages: seq<ChatMessage>, trailer: Option<ThreadTrailer>)

  datatype MessagePage = MessagePage(messages: seq<ChatMessage>, olderAvailable: bool, oldestLoadedIndex: nat)

  /** The three files of one thread; `None` is a file that does not exist. */
  datatype ThreadFiles = ThreadFiles(jsonl: Option<string>, idx: Option<string>, trailer: Option<string>)

  const NO_FILES := ThreadFiles(None, None, None)

  // ---------- What each operation does to a thread's files ----------

  function Content(f: ThreadFiles): string {
    if f.jsonl.Some? then f.jsonl.value else ""
  }

  function OffsetsOf(f: ThreadFiles): seq<nat> {
    OffsetsIn(Lines(Content(f)))
  }

  function MessagesOf(f: ThreadFiles): seq<ChatMessage> {
    MessagesIn(Lines(Content(f)))
  }

  /** The text a full rewrite produces. */
  function MessageText(messages: seq<ChatMessage>): string {
    if messages == [] then "" else MessageText(Init(messages)) + (Encode(Message(Last(messages))) + "\n")
  }

  function FullText(messages: seq<ChatMessage>, trailer: ThreadTrailer): string {
    MessageText(messages) + (Encode(Trailer(trailer)) + "\n")
  }

  function Rebuilt(f: ThreadFiles): ThreadFiles {
    f.(idx := Some(IndexText(OffsetsOf(f))))
  }

  function Overwritten(f: ThreadFiles, messages: seq<ChatMessage>, trailer: ThreadTrailer): ThreadFiles {
    Rebuilt(f.(jsonl := Some(FullText(messages, trailer)))).(trailer := Some(EncodeTrailer(trailer)))
  }

  function Appended(f: ThreadFiles, message: ChatMessage): ThreadFiles {
    var index := if f.idx.Some? then f.idx.value else "";
    f.(jsonl := Some(Content(f) + (Encode(Message(message)) + "\n")),
       idx := Some(index + (Print(|Content(f)|) + "\n")))
  }

  function WithTrailer(f: ThreadFiles, trailer: ThreadTrailer): ThreadFiles {
    f.(trailer := Some(EncodeTrailer(trailer)))
  }

  /** The index is trusted unless it is missing, or holds nothing while the line file is not empty. */
  predicate Trusted(f: ThreadFiles) {
    f.idx.Some? && !(NumbersIn(Lines(f.idx.value)) == [] && |Content(f)| > 0)
  }

  function Ensured(f: ThreadFiles): ThreadFiles {
    if Trusted(f) then f else Rebuilt(f)
  }

  function EnsuredOffsets(f: ThreadFiles): seq<nat> {
    if Trusted(f) then NumbersIn(Lines(f.idx.value)) else OffsetsOf(f)
  }

  function LoadResult(f: ThreadFiles): Result<CachedThread, CacheError> {
    var ls := Lines(Content(f));
    match FirstBad(ls)
    case Some(n) => Err(Parse(n))
    case None => Ok(CachedThread(MessagesIn(ls), TrailerIn(ls)))
  }

  function ReadResult(f: ThreadFiles, offsets: seq<nat>): Result<seq<ChatMessage>, CacheError> {
    if offsets == [] then Ok([])
    else if f.jsonl.None? then Err(Io)
    else
      match ReadAll(f.jsonl.value, offsets)
      case Some(ms) => Ok(ms)
      case None => Err(Parse(0))
  }

  function TrailerResult(f: ThreadFiles): Result<Option<ThreadTrailer>, CacheError> {
    match f.trailer
    case None => Ok(None)
    case Some(text) =>
      match DecodeTrailer(text)
      case Some(t) => Ok(Some(t))
      case None => Err(Parse(0))
  }

  function Min(a: nat, b: nat): nat {
    if a < b then a else b
  }

  function SaturatingSub(a: nat, b: nat): nat {
    if a < b then 0 else a - b
  }

  /** The page of the `pageSize` entries before `end`. */
  function PageResult(f: ThreadFiles, end: nat, pageSize: nat): Result<MessagePage, CacheError>
    requires end <= |EnsuredOffsets(f)|
  {
    var start := SaturatingSub(end, pageSize);
    match ReadResult(f, EnsuredOffsets(f)[start..end])
    case Ok(ms) => Ok(MessagePage(ms, start > 0, start))
    case Err(e) => Err(e)
  }

  function TailResult(f: ThreadFiles, pageSize: nat): Result<MessagePage, CacheError> {
    PageResult(f, |EnsuredOffsets(f)|, pageSize)
  }

  function PredecessorResult(f: ThreadFiles, beforeIndex: nat, pageSize: nat): Result<MessagePage, CacheError> {
    PageResult(f, Min(beforeIndex, |EnsuredOffsets(f)|), pageSize)
  }

  // ---------- Stepping through the lines ----------

  lemma {:induction false} NextRawLine(c: string, i: nat, ls: seq<RawLine>, k: nat)
    requires i < |c| && k <= |ls| && LinesFrom(c, i) == ls[k..]
    ensures k < |ls| && ls[k] == RawLine(i, LineText(c, i)) && LinesFrom(c, NextLine(c, i)) == ls[k + 1..]
    ensures Init(ls[..k + 1]) == ls[..k] && Last(ls[..k + 1]) == ls[k]
  {
    assert ls[k..][0] == ls[k] && ls[k..][1..] == ls[k + 1..];
  }

  /** What one more line adds to a scan. */
  lemma {:induction false} ScanLine(ls: seq<RawLine>, k: nat)
    requires k < |ls|
    ensures OffsetsIn(ls[..k + 1]) ==
      if ls[k].text != [] && PeekIsMessage(ls[k].text) then OffsetsIn(ls[..k]) + [ls[k].start] else OffsetsIn(ls[..k])
  {
    assert Init(ls[..k + 1]) == ls[..k] && Last(ls[..k + 1]) == ls[k];
    if ls[k].text == [] {
      BlankReadsAsNothing(ls[k].text);
    }
  }

  /** The scan has read the first `k` lines, stands at byte `i`, and has found `offsets`. */
  ghost predicate Scanned(c: string, i: nat, k: nat, offsets: seq<nat>) {
    i <= |c| && k <= |Lines(c)| && LinesFrom(c, i) == Lines(c)[k..] && offsets == OffsetsIn(Lines(c)[..k])
  }

  lemma {:induction false} ScanStart(c: string)
    ensures Scanned(c, 0, 0, [])
  {
  }

  lemma {:induction false} ScanStep(c: string, i: nat, k: nat, offsets: seq<nat>, line: string, found: bool)
    requires i < |c| && Scanned(c, i, k, offsets)
    requires line == LineText(c, i) && found == (line != [] && PeekIsMessage(line))
    ensures Scanned(c, NextLine(c, i), k + 1, if found then offsets + [i] else offsets)
  {
    NextRawLine(c, i, Lines(c), k);
    ScanLine(Lines(c), k);
  }

  lemma {:induction false} ScanEnd(c: string, k: nat, offsets: seq<nat>)
    requires Scanned(c, |c|, k, offsets)
    ensures offsets == OffsetsIn(Lines(c))
  {
    assert Lines(c)[..k] == Lines(c);
  }

  /** What one more line adds to a load. */
  lemma {:induction false} LoadLine(ls: seq<RawLine>, k: nat)
    requires k < |ls| && FirstBad(ls[..k]).None?
    ensures var line := StripCr(ls[k].text);
      if IsBlank(line) then
        && FirstBad(ls[..k + 1]).None?
        && MessagesIn(ls[..k + 1]) == MessagesIn(ls[..k]) && TrailerIn(ls[..k + 1]) == TrailerIn(ls[..k])
      else
        match Decode(line)
        case None => FirstBad(ls) == Some(k + 1)
        case Some(Message(m)) =>
          && FirstBad(ls[..k + 1]).None?
          && MessagesIn(ls[..k + 1]) == MessagesIn(ls[..k]) + [m] && TrailerIn(ls[..k + 1]) == TrailerIn(ls[..k])
        case Some(Trailer(t)) =>
          && FirstBad(ls[..k + 1]).None?
          && MessagesIn(ls[..k + 1]) == MessagesIn(ls[..k]) && TrailerIn(ls[..k + 1]) == Some(t)
  {
    var text := ls[k].text;
    assert Init(ls[..k + 1]) == ls[..k] && Last(ls[..k + 1]) == ls[k];
    StripCrIgnored(text);
    assert Decode(StripCr(text)) == Decode(text);
    if IsBlank(text) {
      BlankReadsAsNothing(text);
    } else if Decode(text).None? {
      FirstBadStays(ls, k + 1);
    }
  }

  /** The load has read the first `k` lines, stands at byte `i`, and has collected `out`. */
  ghost predicate Loaded(c: string, i: nat, k: nat, out: CachedThread) {
    && i <= |c| && k <= |Lines(c)| && LinesFrom(c, i) == Lines(c)[k..]
    && FirstBad(Lines(c)[..k]).None?
    && out == CachedThread(MessagesIn(Lines(c)[..k]), TrailerIn(Lines(c)[..k]))
  }

  lemma {:induction false} LoadStart(c: string)
    ensures Loaded(c, 0, 0, CachedThread([], None))
  {
  }

  lemma {:induction false} LoadStep(c: string, i: nat, k: nat, out: CachedThread)
    requires i < |c| && Loaded(c, i, k, out)
    ensures var line, next := StripCr(LineText(c, i)), NextLine(c, i);
      if IsBlank(line) then Loaded(c, next, k + 1, out)
      else
        match Decode(line)
        case None => FirstBad(Lines(c)) == Some(k + 1)
        case Some(Message(m)) => Loaded(c, next, k + 1, out.(messages := out.messages + [m]))
        case Some(Trailer(t)) => Loaded(c, next, k + 1, out.(trailer := Some(t)))
  {
    NextRawLine(c, i, Lines(c), k);
    LoadLine(Lines(c), k);
  }

  lemma {:induction false} LoadEnd(c: string, k: nat, out: CachedThread)
    requires Loaded(c, |c|, k, out)
    ensures FirstBad(Lines(c)).None? && out == CachedThread(MessagesIn(Lines(c)), TrailerIn(Lines(c)))
  {
    assert Lines(c)[..k] == Lines(c);
  }

  lemma {:induction false} LastUpdateWins<K, V>(m: map<K, V>, key: K, first: V, second: V)
    ensures m[key := first][key := second] == m[key := second]
  {
  }

  method WriteLines(messages: seq<ChatMessage>, trailer: ThreadTrailer) returns (text: string)
    ensures text == FullText(messages, trailer)
  {
    text := "";
    for k := 0 to |messages|
      invariant text == MessageText(messages[..k])
    {
      assert Init(messages[..k + 1]) == messages[..k] && Last(messages[..k + 1]) == messages[k];
      text := text + (Encode(Message(messages[k])) + "\n");
    }
    assert messages[..|messages|] == messages;
    text := text + (Encode(Trailer(trailer)) + "\n");
  }

  /** One pass over the bytes: the start of every line whose tag says message. */
  method ScanText(content: string) returns (offsets: seq<nat>)
    ensures offsets == OffsetsIn(Lines(content))
  {
    ghost var k := 0;
    offsets := [];
    var i := 0;
    ScanStart(content);
    while i < |content|
      invariant i <= |content| && Scanned(content, i, k, offsets)
      decreases |content| - i
    {
      var lineStart, lineEnd := i, LineEnd(content, i);
      var line := content[lineStart..lineEnd];
      var found := line != [] && PeekIsMessage(line);
      ScanStep(content, i, k, offsets, line, found);
      if found {
        offsets := offsets + [lineStart];
      }
      i := if lineEnd < |content| then lineEnd + 1 else |content|;
      k := k + 1;
    }
    ScanEnd(content, k, offsets);
  }

  // ---------- The store ----------

  class Store {
    var files: map<string, ThreadFiles>

    constructor ()
      ensures files == map[]
    {
      files := map[];
    }

    function Files(thread: string): ThreadFiles
      reads this
    {
      if thread in files then files[thread] else NO_FILES
    }

    method Load(thread: string) returns (r: Result<CachedThread, CacheError>)
      ensures r == LoadResult(Files(thread))
    {
      var content := Content(Files(thread));
      var out := CachedThread([], None);
      var i, idx := 0, 0;
      LoadStart(content);
      while i < |content|
        invariant i <= |content| && Loaded(content, i, idx, out)
        decreases |content| - i
      {
        var line := StripCr(LineText(content, i));
        LoadStep(content, i, idx, out);
        if !IsBlank(line) {
          match Decode(line) {
            case None =>
              return Err(Parse(idx + 1));
            case Some(Message(m)) => out := out.(messages := out.messages + [m]);
            case Some(Trailer(t)) => out := out.(trailer := Some(t));
          }
        }
        i := NextLine(content, i);
        idx := idx + 1;
      }
      LoadEnd(content, idx, out);
      return Ok(out);
    }

    method Overwrite(thread: string, messages: seq<ChatMessage>, trailer: ThreadTrailer)
      modifies this
      ensures files == old(files)[thread := Overwritten(old(Files(thread)), messages, trailer)]
    {
      var text := WriteLines(messages, trailer);
      ghost var f := Files(thread).(jsonl := Some(text));
      ghost var g := WithTrailer(Rebuilt(f), trailer);
      assert g == Overwritten(Files(thread), messages, trailer);
      files := files[thread := Files(thread).(jsonl := Some(text))];
      var _ := RebuildIndex(thread);
      LastUpdateWins(old(files), thread, f, Rebuilt(f));
      UpdateTrailer(thread, trailer);
      LastUpdateWins(old(files), thread, Rebuilt(f), g);
    }

    method Append(thread: string, message: ChatMessage)
      modifies this
      ensures files == old(files)[thread := Appended(old(Files(thread)), message)]
    {
      var content := Content(Files(thread));
      var offset := |content|;
      ghost var f := Files(thread);
      ghost var g := f.(jsonl := Some(content + (Encode(Message(message)) + "\n")));
      files := files[thread := Files(thread).(jsonl := Some(content + (Encode(Message(message)) + "\n")))];
      AppendIndexOffset(thread, offset);
      LastUpdateWins(old(files), thread, g, Appended(f, message));
    }

    method AppendIndexOffset(thread: string, offset: nat)
      modifies this
      ensures var f := old(Files(thread));
        var index := if f.idx.Some? then f.idx.value else "";
        files == old(files)[thread := f.(idx := Some(index + (Print(offset) + "\n")))]
    {
      var f := Files(thread);
      var text := if f.idx.Some? then f.idx.value else "";
      files := files[thread := f.(idx := Some(text + (Print(offset) + "\n")))];
    }

    method UpdateTrailer(thread: string, trailer: ThreadTrailer)
      modifies this
      ensures files == old(files)[thread := WithTrailer(old(Files(thread)), trailer)]
    {
      files := files[thread := Files(thread).(trailer := Some(EncodeTrailer(trailer)))];
    }

    method ReadTrailer(thread: string) returns (r: Result<Option<ThreadTrailer>, CacheError>)
      ensures r == TrailerResult(Files(thread))
    {
      match Files(thread).trailer {
        case None => return Ok(None);
        case Some(text) =>
          match DecodeTrailer(text) {
            case Some(t) => return Ok(Some(t));
            case None => return Err(Parse(0));
          }
      }
    }

    method ComputeOffsets(thread: string) returns (offsets: seq<nat>)
      ensures offsets == OffsetsOf(Files(thread))
    {
      offsets := ScanText(Content(Files(thread)));
    }

    method WriteIndex(thread: string, offsets: seq<nat>)
      modifies this
      ensures files == old(files)[thread := old(Files(thread)).(idx := Some(IndexText(offsets)))]
    {
      var text := "";
      for k := 0 to |offsets|
        invariant text == IndexText(offsets[..k])
      {
        assert Init(offsets[..k + 1]) == offsets[..k];
        text := text + (Print(offsets[k]) + "\n");
      }
      assert offsets[..|offsets|] == offsets;
      files := files[thread := Files(thread).(idx := Some(text))];
    }

    method RebuildIndex(thread: string) returns (offsets: seq<nat>)
      modifies this
      ensures offsets == OffsetsOf(old(Files(thread)))
      ensures files == old(files)[thread := Rebuilt(old(Files(thread)))]
    {
      offsets := ComputeOffsets(thread);
      WriteIndex(thread, offsets);
    }

    method ParseIndex(content: string) returns (offsets: seq<nat>)
      ensures offsets == NumbersIn(Lines(content))
    {
      ghost var ls, k := Lines(content), 0;
      offsets := [];
      var i := 0;
      while i < |content|
        invariant i <= |content| && k <= |ls| && LinesFrom(content, i) == ls[k..]
        invariant offsets == NumbersIn(ls[..k])
        decreases |content| - i
      {
        NextRawLine(content, i, ls, k);
        var parsed := ParseU64(TrimLeft(TrimRight(LineText(content, i))));
        if parsed.Some? {
          offsets := offsets + [parsed.value];
        }
        i := NextLine(content, i);
        k := k + 1;
      }
      assert ls[..|ls|] == ls;
    }

    method EnsureIndex(thread: string) returns (offsets: seq<nat>)
      modifies this
      ensures offsets == EnsuredOffsets(old(Files(thread)))
      ensures Files(thread) == Ensured(old(Files(thread)))
      ensures forall other :: other != thread ==> Files(other) == old(Files(other))
    {
      match Files(thread).idx {
        case Some(content) =>
          offsets := ParseIndex(content);
          if offsets == [] && |Content(Files(thread))| > 0 {
            offsets := RebuildIndex(thread);
          }
        case None =>
          offsets := RebuildIndex(thread);
      }
    }

    method ReadMessagesAtOffsets(thread: string, offsets: seq<nat>) returns (r: Result<seq<ChatMessage>, CacheError>)
      ensures r == ReadResult(Files(thread), offsets)
    {
      if offsets == [] {
        return Ok([]);
      }
      if Files(thread).jsonl.None? {
        return Err(Io);
      }
      var content := Files(thread).jsonl.value;
      var out := [];
      for k := 0 to |offsets|
        invariant ReadAll(content, offsets[..k]) == Some(out)
      {
        assert Init(offsets[..k + 1]) == offsets[..k] && Last(offsets[..k + 1]) == offsets[k];
        var line := LineAt(content, offsets[k]);
        match Decode(TrimBreaks(line)) {
          case None =>
            ReadAllFails(content, offsets, k + 1);
            return Err(Parse(0));
          case Some(Message(m)) => out := out + [m];
          case Some(Trailer(_)) =>
        }
      }
      assert offsets[..|offsets|] == offsets;
      return Ok(out);
    }

    method Tail(thread: string, pageSize: nat) returns (r: Result<MessagePage, CacheError>)
      modifies this
      ensures Files(thread) == Ensured(old(Files(thread)))
      ensures forall other :: other != thread ==> Files(other) == old(Files(other))
      ensures r == TailResult(old(Files(thread)), pageSize)
    {
      var offsets := EnsureIndex(thread);
      var total := |offsets|;
      var start := SaturatingSub(total, pageSize);
      var messages := ReadMessagesAtOffsets(thread, offsets[start..total]);
      match messages {
        case Ok(ms) => return Ok(MessagePage(ms, start > 0, start));
        case Err(e) => return Err(e);
      }
    }

    method PredecessorPage(thread: string, beforeIndex: nat, pageSize: nat) returns (r: Result<MessagePage, CacheError>)
      modifies this
      ensures Files(thread) == Ensured(old(Files(thread)))
      ensures forall other :: other != thread ==> Files(other) == old(Files(other))
      ensures r == PredecessorResult(old(Files(thread)), beforeIndex, pageSize)
    {
      var offsets := EnsureIndex(thread);
      var before := Min(beforeIndex, |offsets|);
      var start := SaturatingSub(before, pageSize);
      var messages := ReadMessagesAtOffsets(thread, offsets[start..before]);
      match messages {
        case Ok(ms) => return Ok(MessagePage(ms, start > 0, start));
        case Err(e) => return Err(e);
      }
    }

    method MessageCount(thread: string) returns (n: nat)
      modifies this
      ensures Files(thread) == Ensured(old(Files(thread)))
      ensures forall other :: other != thread ==> Files(other) == old(Files(other))
      ensures n == |EnsuredOffsets(old(Files(thread)))|
    {
      var offsets := EnsureIndex(thread);
      n := |offsets|;
    }
  }

  lemma {:induction false} FirstBadStays(ls: seq<RawLine>, n: nat)
    requires 0 < n <= |ls| && FirstBad(ls[..n]).Some?
    ensures FirstBad(ls) == FirstBad(ls[..n])
  {
    if n == |ls| {
      assert ls[..n] == ls;
    } else {
      assert Init(ls)[..n] == ls[..n];
      FirstBadStays(Init(ls), n);
    }
  }

  lemma {:induction false} ReadAllFails(c: string, offsets: seq<nat>, n: nat)
    requires 0 < n <= |offsets| && ReadAll(c, offsets[..n]).None?
    ensures ReadAll(c, offsets).None?
  {
    if n == |offsets| {
      assert offsets[..n] == offsets;
    } else {
      assert Init(offsets)[..n] == offsets[..n];
      ReadAllFails(c, Init(offsets), n);
    }
  }

  // ---------- Files in any state ----------

  ghost predicate IsUnreadable(l: RawLine) {
    !IsBlank(l.text) && Decode(l.text).None?
  }

  ghost predicate IsFirstBad(ls: seq<RawLine>, n: nat) {
    0 < n <= |ls| && IsUnreadable(ls[n - 1]) && forall k :: 0 <= k < n - 1 ==> !IsUnreadable(ls[k])
  }

  /** `load` fails exactly if a line is neither blank nor decodes, and names the first such line, from one. */
  lemma {:induction false} LoadFailsExactlyWhen(f: ThreadFiles)
    ensures var ls := Lines(Content(f));
      match LoadResult(f)
      case Ok(_) => forall k :: 0 <= k < |ls| ==> !IsUnreadable(ls[k])
      case Err(e) => e.Parse? && IsFirstBad(ls, e.lineNo)
  {
    FirstBadIsFirst(Lines(Content(f)));
  }

  /** A seeked read fails if there is no file to seek in, or a line it finds does not decode. */
  lemma {:induction false} ReadFailsExactlyWhen(f: ThreadFiles, offsets: seq<nat>)
    ensures ReadResult(f, offsets) == Err(Io) <==> f.jsonl.None? && offsets != []
    ensures ReadResult(f, offsets) == Err(Parse(0)) <==>
      f.jsonl.Some? && exists o :: o in offsets && ReadAt(f.jsonl.value, o).None?
    ensures ReadResult(f, offsets).Err? ==> ReadResult(f, offsets).error in {Io, Parse(0)}
  {
    if f.jsonl.Some? {
      ReadAllFailsExactlyWhen(f.jsonl.value, offsets);
    }
  }

  /** A missing trailer is no error; a malformed one is. */
  lemma {:induction false} TrailerFailsExactlyWhen(f: ThreadFiles)
    ensures TrailerResult(f) == Ok(None) <==> f.trailer.None?
    ensures TrailerResult(f).Err? <==> f.trailer.Some? && DecodeTrailer(f.trailer.value).None?
    ensures TrailerResult(f).Err? ==> TrailerResult(f).error == Parse(0)
  {
  }

  /** Whatever the index says, right or stale: a page is cut from it by position, and read line by line. */
  lemma {:induction false} PageOfAnyIndex(f: ThreadFiles, end: nat, pageSize: nat)
    requires end <= |EnsuredOffsets(f)|
    ensures var page, start := PageResult(f, end, pageSize), if pageSize < end then end - pageSize else 0;
      && (page.Ok? ==> page.value.oldestLoadedIndex == start && (page.value.olderAvailable <==> pageSize < end))
      && (page.Ok? ==> ReadResult(f, EnsuredOffsets(f)[start..end]) == Ok(page.value.messages))
      && (page.Err? ==> ReadResult(f, EnsuredOffsets(f)[start..end]) == Err(page.error))
  {
  }
}
