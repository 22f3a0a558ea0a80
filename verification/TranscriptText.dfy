/** What the text of a transcript file and of its index mean, line by line. */
module TranscriptText {
  import opened Wrappers
  import opened Sequences
  import opened Decimal
  import opened Text
  import opened Json
  import opened TranscriptLines

  // ---------- Splitting into lines ----------

  /** A line: the byte offset it starts at and its text without the line break. */
  datatype RawLine = RawLine(start: nat, text: string)

  function LineEnd(c: string, i: nat): nat
    requires i <= |c|
  {
    IndexFrom(c, '\n', i)
  }

  function LineText(c: string, i: nat): string
    requires i <= |c|
  {
    c[i..LineEnd(c, i)]
  }

  function NextLine(c: string, i: nat): nat
    requires i <= |c|
  {
    if LineEnd(c, i) < |c| then LineEnd(c, i) + 1 else |c|
  }

  function LinesFrom(c: string, i: nat): seq<RawLine>
    requires i <= |c|
    decreases |c| - i
  {
    if i == |c| then [] else [RawLine(i, LineText(c, i))] + LinesFrom(c, NextLine(c, i))
  }

  /** All lines of a file; text after the last line break is a line too. */
  function Lines(c: string): seq<RawLine> {
    LinesFrom(c, 0)
  }

  predicate Terminated(c: string) {
    c == "" || Last(c) == '\n'
  }

  lemma {:induction false} LineEndInLonger(c: string, d: string, i: nat)
    requires i < |c| <= |d| && Terminated(c) && d[..|c|] == c
    ensures LineEnd(c, i) < |c| && LineEnd(d, i) == LineEnd(c, i)
    ensures LineText(d, i) == LineText(c, i) && NextLine(d, i) == NextLine(c, i)
  {
    assert c[|c| - 1] == '\n';
    assert forall k :: 0 <= k < |c| ==> d[k] == c[k];
  }

  /** `d` is `c` with one more line written behind it. */
  ghost predicate HasMore(c: string, line: string, d: string) {
    && |d| == |c| + |line| + 1
    && d[..|c|] == c && d[|c|..|d| - 1] == line && d[|d| - 1] == '\n'
  }

  lemma {:induction false} AppendedText(c: string, line: string)
    ensures HasMore(c, line, c + (line + "\n"))
  {
  }

  lemma {:induction false} LastLineEnd(c: string, line: string, d: string)
    requires HasMore(c, line, d) && HasNoBreak(line)
    ensures LineEnd(d, |c|) == |d| - 1
  {
    forall k | |c| <= k < |d| - 1 ensures d[k] != '\n' {
      assert d[k] == d[|c|..|d| - 1][k - |c|];
    }
  }

  lemma {:induction false} NewLastLine(c: string, line: string, d: string)
    requires HasMore(c, line, d) && HasNoBreak(line)
    ensures LinesFrom(d, |c|) == [RawLine(|c|, line)]
  {
    LastLineEnd(c, line, d);
    assert NextLine(d, |c|) == |d| && LineText(d, |c|) == line;
    assert LinesFrom(d, |d|) == [];
  }

  lemma {:induction false} LinesFromAppend(c: string, line: string, d: string, i: nat)
    requires HasMore(c, line, d) && i <= |c| && Terminated(c) && HasNoBreak(line)
    ensures LinesFrom(d, i) == LinesFrom(c, i) + [RawLine(|c|, line)]
    decreases |c| - i
  {
    if i == |c| {
      NewLastLine(c, line, d);
    } else {
      LineEndInLonger(c, d, i);
      LinesFromAppend(c, line, d, NextLine(c, i));
      assert LinesFrom(d, i) == [RawLine(i, LineText(c, i))] + LinesFrom(d, NextLine(c, i));
    }
  }

  /** Writing one more line at the end of a file adds exactly that line. */
  lemma {:induction false} LinesAppend(c: string, line: string)
    requires Terminated(c) && HasNoBreak(line)
    ensures Lines(c + (line + "\n")) == Lines(c) + [RawLine(|c|, line)]
    ensures Terminated(c + (line + "\n"))
  {
    AppendedText(c, line);
    LinesFromAppend(c, line, c + (line + "\n"), 0);
  }

  lemma {:induction false} LinesAreInPlace(c: string, i: nat, k: nat)
    requires i <= |c| && k < |LinesFrom(c, i)|
    ensures var l := LinesFrom(c, i)[k]; l.start < |c| && LineText(c, l.start) == l.text
    decreases |c| - i
  {
    if k > 0 {
      LinesAreInPlace(c, NextLine(c, i), k - 1);
    }
  }

  /** Line `k` is what stands in the file between two line breaks, or between one and an end of the file. */
  ghost predicate IsLineOf(c: string, ls: seq<RawLine>, k: nat, from: nat)
    requires k < |ls|
  {
    var l := ls[k];
    var end := l.start + |l.text|;
    && end <= |c| && l.text == c[l.start..end] && '\n' !in l.text
    && l.start == (if k == 0 then from else ls[k - 1].start + |ls[k - 1].text| + 1)
    && (if k + 1 < |ls| then end < |c| && c[end] == '\n'
        else (end == |c| && l.text != "") || (end == |c| - 1 && c[end] == '\n'))
  }

  ghost predicate AreLinesOf(c: string, ls: seq<RawLine>, from: nat) {
    (ls == [] <==> from == |c|) && forall k :: 0 <= k < |ls| ==> IsLineOf(c, ls, k, from)
  }

  lemma {:induction false} FirstLineOf(c: string, i: nat)
    requires i < |c|
    ensures var ls := LinesFrom(c, i);
      ls != [] && ls[0] == RawLine(i, LineText(c, i)) && ls[1..] == LinesFrom(c, NextLine(c, i))
    ensures '\n' !in LineText(c, i) && i + |LineText(c, i)| == LineEnd(c, i)
  {
  }

  lemma {:induction false} LinesFromAreLines(c: string, i: nat)
    requires i <= |c|
    ensures AreLinesOf(c, LinesFrom(c, i), i)
    decreases |c| - i
  {
    if i < |c| {
      var ls, rest := LinesFrom(c, i), LinesFrom(c, NextLine(c, i));
      LinesFromAreLines(c, NextLine(c, i));
      FirstLineOf(c, i);
      forall k | 0 <= k < |ls| ensures IsLineOf(c, ls, k, i) {
        if k > 0 {
          assert ls[k] == rest[k - 1] && IsLineOf(c, rest, k - 1, NextLine(c, i));
          assert k > 1 ==> ls[k - 1] == rest[k - 2];
        }
      }
    }
  }

  /** The lines of a file lie one behind the other, each up to the next line break, and cover all of it. */
  lemma {:induction false} LinesCoverText(c: string)
    ensures AreLinesOf(c, Lines(c), 0)
  {
    LinesFromAreLines(c, 0);
  }

  // ---------- What the lines of a transcript say ----------

  /** A line reader drops a carriage return before the line break. */
  function StripCr(s: string): string {
    if s != [] && Last(s) == '\r' then Init(s) else s
  }

  predicate Decodes(l: RawLine) {
    IsBlank(l.text) || Decode(l.text).Some?
  }

  predicate AllDecode(ls: seq<RawLine>) {
    ls == [] || (AllDecode(Init(ls)) && Decodes(Last(ls)))
  }

  function OffsetsIn(ls: seq<RawLine>): seq<nat> {
    if ls == [] then []
    else if PeekIsMessage(Last(ls).text) then OffsetsIn(Init(ls)) + [Last(ls).start]
    else OffsetsIn(Init(ls))
  }

  function MessagesIn(ls: seq<RawLine>): seq<ChatMessage> {
    if ls == [] then []
    else
      match Decode(Last(ls).text)
      case Some(Message(m)) => MessagesIn(Init(ls)) + [m]
      case _ => MessagesIn(Init(ls))
  }

  /** The last trailer wins. */
  function TrailerIn(ls: seq<RawLine>): Option<ThreadTrailer> {
    if ls == [] then None
    else
      match Decode(Last(ls).text)
      case Some(Trailer(t)) => Some(t)
      case _ => TrailerIn(Init(ls))
  }

  /** The number, counted from one, of the first line that neither is blank nor decodes. */
  function FirstBad(ls: seq<RawLine>): Option<nat> {
    if ls == [] then None
    else
      match FirstBad(Init(ls))
      case Some(n) => Some(n)
      case None => if Decodes(Last(ls)) then None else Some(|ls|)
  }

  lemma {:induction false} BadIffNotAllDecode(ls: seq<RawLine>)
    ensures FirstBad(ls).None? <==> AllDecode(ls)
  {
    if ls != [] {
      BadIffNotAllDecode(Init(ls));
    }
  }

  predicate IsMessageLine(l: RawLine) {
    Decode(l.text).Some? && Decode(l.text).value.Message?
  }

  predicate IsTrailerLine(l: RawLine) {
    Decode(l.text).Some? && Decode(l.text).value.Trailer?
  }

  /** How many of the first `n` lines are messages. */
  function MessageLines(ls: seq<RawLine>, n: nat): nat
    requires n <= |ls|
  {
    if n == 0 then 0 else MessageLines(ls, n - 1) + if IsMessageLine(ls[n - 1]) then 1 else 0
  }

  lemma {:induction false} MessageLinesOfPrefix(ls: seq<RawLine>, n: nat)
    requires n < |ls|
    ensures MessageLines(Init(ls), n) == MessageLines(ls, n)
  {
    if n > 0 {
      MessageLinesOfPrefix(ls, n - 1);
    }
  }

  /** The message on line `k` is in the list, behind those of the lines before. */
  ghost predicate HasMessageOf(ls: seq<RawLine>, k: nat)
    requires k < |ls| && IsMessageLine(ls[k])
  {
    MessageLines(ls, k) < |MessagesIn(ls)| && Message(MessagesIn(ls)[MessageLines(ls, k)]) == Decode(ls[k].text).value
  }

  lemma {:induction false} MessageStays(ls: seq<RawLine>, k: nat)
    requires k < |ls| - 1 && IsMessageLine(Init(ls)[k]) && HasMessageOf(Init(ls), k)
    ensures HasMessageOf(ls, k)
  {
    MessageLinesOfPrefix(ls, k);
  }

  lemma {:induction false} MessageAdded(ls: seq<RawLine>)
    requires ls != [] && IsMessageLine(Last(ls)) && |MessagesIn(Init(ls))| == MessageLines(ls, |ls| - 1)
    ensures HasMessageOf(ls, |ls| - 1)
  {
  }

  /** The messages of a file are those of its message lines, all of them, in order. */
  lemma {:induction false} MessagesAreMessageLines(ls: seq<RawLine>)
    ensures |MessagesIn(ls)| == MessageLines(ls, |ls|)
    ensures forall k :: 0 <= k < |ls| && IsMessageLine(ls[k]) ==> HasMessageOf(ls, k)
  {
    if ls != [] {
      MessagesAreMessageLines(Init(ls));
      MessageLinesOfPrefix(ls, |ls| - 1);
      forall k | 0 <= k < |ls| && IsMessageLine(ls[k]) ensures HasMessageOf(ls, k) {
        if k < |ls| - 1 {
          assert Init(ls)[k] == ls[k];
          MessageStays(ls, k);
        } else {
          MessageAdded(ls);
        }
      }
    }
  }

  /** Line `k` is the last one of its sort. */
  ghost predicate IsLastSuch(ls: seq<RawLine>, k: nat, such: RawLine -> bool) {
    k < |ls| && such(ls[k]) && forall j :: k < j < |ls| ==> !such(ls[j])
  }

  lemma {:induction false} LastSuchStays(ls: seq<RawLine>, k: nat, such: RawLine -> bool)
    requires ls != [] && IsLastSuch(Init(ls), k, such) && !such(Last(ls))
    ensures IsLastSuch(ls, k, such) && ls[k] == Init(ls)[k]
  {
    assert forall j :: 0 <= j < |ls| - 1 ==> Init(ls)[j] == ls[j];
  }

  /** The trailer of a file is that of its last trailer line. */
  lemma {:induction false} TrailerIsLastTrailerLine(ls: seq<RawLine>) returns (k: nat)
    requires TrailerIn(ls).Some?
    ensures IsLastSuch(ls, k, IsTrailerLine) && Decode(ls[k].text) == Some(Trailer(TrailerIn(ls).value))
  {
    if IsTrailerLine(Last(ls)) {
      k := |ls| - 1;
    } else {
      k := TrailerIsLastTrailerLine(Init(ls));
      LastSuchStays(ls, k, IsTrailerLine);
    }
  }

  /** A file has no trailer exactly if it has no trailer line. */
  lemma {:induction false} NoTrailerExactlyWhen(ls: seq<RawLine>)
    ensures TrailerIn(ls).None? <==> forall k :: 0 <= k < |ls| ==> !IsTrailerLine(ls[k])
  {
    if ls != [] {
      NoTrailerExactlyWhen(Init(ls));
      assert forall j :: 0 <= j < |ls| - 1 ==> Init(ls)[j] == ls[j];
    }
  }

  /** A load that fails names the first line that fails; one that does not fail has none. */
  lemma {:induction false} FirstBadIsFirst(ls: seq<RawLine>)
    ensures match FirstBad(ls)
      case Some(n) => 0 < n <= |ls| && !Decodes(ls[n - 1]) && forall k :: 0 <= k < n - 1 ==> Decodes(ls[k])
      case None => forall k :: 0 <= k < |ls| ==> Decodes(ls[k])
  {
    if ls != [] {
      FirstBadIsFirst(Init(ls));
      assert forall k :: 0 <= k < |ls| - 1 ==> Init(ls)[k] == ls[k];
    }
  }

  lemma {:induction false} BlankChars(s: string)
    requires IsBlank(s)
    ensures '{' !in s
  {
    if s != [] {
      BlankChars(Init(s));
      InitLast(s);
    }
  }

  lemma {:induction false} TrimEndKeeps(s: string)
    ensures forall c :: c in TrimEnd(s) ==> c in s
  {
    if s != [] && IsJsonSpace(Last(s)) {
      TrimEndKeeps(Init(s));
    }
  }

  lemma {:induction false} TrimStartKeeps(s: string)
    ensures forall c :: c in TrimStart(s) ==> c in s
  {
    if s != [] && IsJsonSpace(s[0]) {
      TrimStartKeeps(s[1..]);
    }
  }

  lemma {:induction false} BlankReadsAsNothing(s: string)
    requires IsBlank(s)
    ensures ReadObject(s) == None
  {
    BlankChars(s);
    TrimEndKeeps(s);
    TrimStartKeeps(TrimEnd(s));
  }

  lemma {:induction false} StripCrIgnored(s: string)
    ensures ReadObject(StripCr(s)) == ReadObject(s) && (IsBlank(StripCr(s)) <==> IsBlank(s))
  {
    if s != [] && Last(s) == '\r' {
      InitLast(s);
      TrimEndIgnores(Init(s), "\r");
    }
  }

  // ---------- Reading a line back at its offset ----------

  /** What a reader gets from a seek to `offset`: the rest of that line, with its break. */
  function LineAt(c: string, offset: nat): string {
    if offset <= |c| then c[offset..NextLine(c, offset)] else ""
  }

  function TrimBreaks(s: string): string {
    if s != [] && (Last(s) == '\n' || Last(s) == '\r') then TrimBreaks(Init(s)) else s
  }

  lemma {:induction false} TrimBreaksIgnored(s: string)
    ensures ReadObject(TrimBreaks(s)) == ReadObject(s)
  {
    if s != [] && (Last(s) == '\n' || Last(s) == '\r') {
      TrimBreaksIgnored(Init(s));
      InitLast(s);
      TrimEndIgnores(Init(s), [Last(s)]);
    }
  }

  function ReadAt(c: string, offset: nat): Option<Line> {
    Decode(TrimBreaks(LineAt(c, offset)))
  }

  /** The messages at the given offsets; a line that does not decode fails the read, a trailer is skipped. */
  function ReadAll(c: string, offsets: seq<nat>): Option<seq<ChatMessage>> {
    if offsets == [] then Some([])
    else
      match (ReadAll(c, Init(offsets)), ReadAt(c, Last(offsets)))
      case (Some(ms), Some(Message(m))) => Some(ms + [m])
      case (Some(ms), Some(Trailer(_))) => Some(ms)
      case _ => None
  }

  lemma {:induction false} ReadAtLineStart(c: string, l: RawLine)
    requires l.start < |c| && LineText(c, l.start) == l.text
    ensures ReadAt(c, l.start) == Decode(l.text)
  {
    var line := LineAt(c, l.start);
    TrimBreaksIgnored(line);
    if LineEnd(c, l.start) < |c| {
      assert line == l.text + "\n";
      TrimEndIgnores(l.text, "\n");
    } else {
      assert line == l.text;
    }
  }

  lemma {:induction false} OffsetsMatchMessages(c: string, ls: seq<RawLine>)
    requires AllDecode(ls)
    requires forall k :: 0 <= k < |ls| ==> ls[k].start < |c| && LineText(c, ls[k].start) == ls[k].text
    ensures |OffsetsIn(ls)| == |MessagesIn(ls)|
    ensures forall k :: 0 <= k < |OffsetsIn(ls)| ==> ReadAt(c, OffsetsIn(ls)[k]) == Some(Message(MessagesIn(ls)[k]))
    ensures forall k :: 0 <= k < |OffsetsIn(ls)| ==> OffsetsIn(ls)[k] < |c|
  {
    if ls != [] {
      OffsetsMatchMessages(c, Init(ls));
      var l := Last(ls);
      ReadAtLineStart(c, l);
      if IsBlank(l.text) {
        BlankReadsAsNothing(l.text);
      } else {
        PeekAgreesWithDecode(l.text);
      }
    }
  }

  /**
    The scan is exact: on any file whose non-blank lines decode, with or without a final line break,
    there is one offset per message, in order, and the line at the k-th offset is the k-th message.
   */
  lemma {:induction false} ScanIsExact(c: string)
    requires AllDecode(Lines(c))
    ensures |OffsetsIn(Lines(c))| == |MessagesIn(Lines(c))|
    ensures forall k :: 0 <= k < |OffsetsIn(Lines(c))| ==>
      OffsetsIn(Lines(c))[k] < |c| && ReadAt(c, OffsetsIn(Lines(c))[k]) == Some(Message(MessagesIn(Lines(c))[k]))
  {
    forall k | 0 <= k < |Lines(c)|
      ensures Lines(c)[k].start < |c| && LineText(c, Lines(c)[k].start) == Lines(c)[k].text
    {
      LinesAreInPlace(c, 0, k);
    }
    OffsetsMatchMessages(c, Lines(c));
  }

  lemma {:induction false} ReadAllMatches(c: string, offsets: seq<nat>, ms: seq<ChatMessage>)
    requires |offsets| == |ms|
    requires forall k :: 0 <= k < |offsets| ==> ReadAt(c, offsets[k]) == Some(Message(ms[k]))
    ensures ReadAll(c, offsets) == Some(ms)
  {
    if offsets != [] {
      ReadAllMatches(c, Init(offsets), Init(ms));
      InitLast(ms);
    } else {
      assert ms == [];
    }
  }

  lemma {:induction false} ReadAllStep(c: string, offsets: seq<nat>, o: nat)
    ensures ReadAll(c, offsets + [o]).None? <==> ReadAll(c, offsets).None? || ReadAt(c, o).None?
    ensures ReadAt(c, o).Some? && ReadAt(c, o).value.Trailer? ==> ReadAll(c, offsets + [o]) == ReadAll(c, offsets)
  {
    InitOfAppend(offsets, o);
  }

  /** A seeked read fails exactly if a line it seeks to does not decode. */
  lemma {:induction false} ReadAllFailsExactlyWhen(c: string, offsets: seq<nat>)
    ensures ReadAll(c, offsets).None? <==> exists o :: o in offsets && ReadAt(c, o).None?
  {
    if offsets != [] {
      ReadAllFailsExactlyWhen(c, Init(offsets));
      InitLast(offsets);
      ReadAllStep(c, Init(offsets), Last(offsets));
      assert forall o :: o in offsets <==> o in Init(offsets) || o == Last(offsets);
    }
  }

  lemma {:induction false} SplitBehind(a: seq<nat>, b: seq<nat>)
    requires b != []
    ensures a + b == (a + Init(b)) + [Last(b)]
  {
  }

  lemma {:induction false} ReadAllSameTail(c: string, a: seq<nat>, b: seq<nat>, after: seq<nat>)
    requires ReadAll(c, a) == ReadAll(c, b)
    ensures ReadAll(c, a + after) == ReadAll(c, b + after)
  {
    if after == [] {
      assert a + after == a && b + after == b;
    } else {
      ReadAllSameTail(c, a, b, Init(after));
      SplitBehind(a, after);
      SplitBehind(b, after);
      InitOfAppend(a + Init(after), Last(after));
      InitOfAppend(b + Init(after), Last(after));
    }
  }

  /** An offset of a trailer line, left by a stale index, reads as nothing. */
  lemma {:induction false} ReadAllSkipsTrailers(c: string, before: seq<nat>, offset: nat, after: seq<nat>)
    requires ReadAt(c, offset).Some? && ReadAt(c, offset).value.Trailer?
    ensures ReadAll(c, before + [offset] + after) == ReadAll(c, before + after)
  {
    ReadAllStep(c, before, offset);
    ReadAllSameTail(c, before + [offset], before, after);
  }

  /** Seeking to a slice of the offsets reads that slice of the messages. */
  lemma {:induction false} ReadSlice(c: string, lo: nat, hi: nat)
    requires AllDecode(Lines(c)) && lo <= hi <= |OffsetsIn(Lines(c))|
    ensures hi <= |MessagesIn(Lines(c))|
    ensures ReadAll(c, OffsetsIn(Lines(c))[lo..hi]) == Some(MessagesIn(Lines(c))[lo..hi])
  {
    ScanIsExact(c);
    ReadAllMatches(c, OffsetsIn(Lines(c))[lo..hi], MessagesIn(Lines(c))[lo..hi]);
  }

  lemma {:induction false} OneMoreOffset(ls: seq<RawLine>, l: RawLine)
    ensures OffsetsIn(ls + [l]) == if PeekIsMessage(l.text) then OffsetsIn(ls) + [l.start] else OffsetsIn(ls)
  {
    InitOfAppend(ls, l);
  }

  lemma {:induction false} OneMoreDecoded(ls: seq<RawLine>, l: RawLine, line: Line)
    requires Decode(l.text) == Some(line)
    ensures AllDecode(ls) ==> AllDecode(ls + [l])
    ensures MessagesIn(ls + [l]) == if line.Message? then MessagesIn(ls) + [line.message] else MessagesIn(ls)
    ensures TrailerIn(ls + [l]) == if line.Trailer? then Some(line.trailer) else TrailerIn(ls)
  {
    InitOfAppend(ls, l);
  }

  lemma {:induction false} OneMoreLine(ls: seq<RawLine>, l: RawLine, line: Line)
    requires AllDecode(ls) && l.text == Encode(line)
    ensures AllDecode(ls + [l])
    ensures OffsetsIn(ls + [l]) == if line.Message? then OffsetsIn(ls) + [l.start] else OffsetsIn(ls)
    ensures MessagesIn(ls + [l]) == if line.Message? then MessagesIn(ls) + [line.message] else MessagesIn(ls)
    ensures TrailerIn(ls + [l]) == if line.Trailer? then Some(line.trailer) else TrailerIn(ls)
  {
    DecodeEncode(line);
    OneMoreOffset(ls, l);
    OneMoreDecoded(ls, l, line);
  }

  /** Writing one encoded line at the end of a well-formed file: what each reading of it becomes. */
  lemma {:induction false} AppendEncoded(c: string, line: Line)
    requires Terminated(c) && AllDecode(Lines(c))
    ensures var d := c + (Encode(line) + "\n");
      && Terminated(d) && AllDecode(Lines(d))
      && OffsetsIn(Lines(d)) == (if line.Message? then OffsetsIn(Lines(c)) + [|c|] else OffsetsIn(Lines(c)))
      && MessagesIn(Lines(d)) == (if line.Message? then MessagesIn(Lines(c)) + [line.message] else MessagesIn(Lines(c)))
      && TrailerIn(Lines(d)) == (if line.Trailer? then Some(line.trailer) else TrailerIn(Lines(c)))
  {
    DecodeEncode(line);
    LinesAppend(c, Encode(line));
    OneMoreLine(Lines(c), RawLine(|c|, Encode(line)), line);
  }

  // ---------- The index text ----------

  /** The numbers of the lines that hold one; all other lines are skipped. */
  function NumbersIn(ls: seq<RawLine>): seq<nat> {
    if ls == [] then []
    else
      match ParseU64(TrimLeft(TrimRight(Last(ls).text)))
      case Some(n) => NumbersIn(Init(ls)) + [n]
      case None => NumbersIn(Init(ls))
  }

  function IndexText(offsets: seq<nat>): string {
    if offsets == [] then "" else IndexText(Init(offsets)) + (Print(Last(offsets)) + "\n")
  }

  /** Appending one printed offset to an index text appends that offset to what it parses to. */
  lemma {:induction false} NumbersAppend(text: string, offset: nat)
    requires Terminated(text) && offset < U64_LIMIT
    ensures Terminated(text + (Print(offset) + "\n"))
    ensures NumbersIn(Lines(text + (Print(offset) + "\n"))) == NumbersIn(Lines(text)) + [offset]
  {
    var line := Print(offset);
    PrintIsDigits(offset);
    assert HasNoBreak(line);
    LinesAppend(text, line);
    InitOfAppend(Lines(text), RawLine(|text|, line));
    assert IsDigit(line[0]) && IsDigit(Last(line));
    assert TrimLeft(TrimRight(line)) == line;
    ParsePrint(offset);
  }

  /** An index text parses back to the offsets it was written from. */
  lemma {:induction false} IndexRoundTrip(offsets: seq<nat>)
    requires forall k :: 0 <= k < |offsets| ==> offsets[k] < U64_LIMIT
    ensures Terminated(IndexText(offsets)) && NumbersIn(Lines(IndexText(offsets))) == offsets
  {
    if offsets == [] {
      assert Lines("") == [];
    } else {
      InitLast(offsets);
      IndexRoundTrip(Init(offsets));
      NumbersAppend(IndexText(Init(offsets)), Last(offsets));
      assert IndexText(offsets) == IndexText(Init(offsets)) + (Print(Last(offsets)) + "\n");
    }
  }
}
