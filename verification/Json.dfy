/**
  The JSON text of one record: a flat object of strings, numbers and nulls, written compactly.
  Text is a sequence of bytes, one `char` per byte; strings are escaped as section 7 of RFC 8259
  requires, so no written record contains a line break.
 */
module Json {
  import opened Wrappers
  import opened Sequences
  import opened Decimal

  datatype Scalar = Null | Num(n: nat) | Str(text: string)

  type Member = (string, Scalar)

  // ---------- Strings ----------

  function HexDigit(d: nat): char
    requires d < 16
  {
    if d < 10 then Digit(d) else (d - 10 + 'a' as int) as char
  }

  function HexValue(c: char): Option<nat> {
    if '0' <= c <= '9' then Some(c as nat - '0' as nat)
    else if 'a' <= c <= 'f' then Some(c as nat - 'a' as nat + 10)
    else if 'A' <= c <= 'F' then Some(c as nat - 'A' as nat + 10)
    else None
  }

  /** Quote, backslash and control characters are escaped; everything else stands for itself. */
  function EscapeChar(c: char): string {
    if c == '\"' then "\\\""
    else if c == '\\' then "\\\\"
    else if c == '\n' then "\\n"
    else if c == '\r' then "\\r"
    else if c == '\t' then "\\t"
    else if c as int == 8 then "\\b"
    else if c as int == 12 then "\\f"
    else if c < ' ' then "\\u00" + [HexDigit(c as int / 16), HexDigit(c as int % 16)]
    else [c]
  }

  function Escape(s: string): string {
    if s == [] then [] else EscapeChar(s[0]) + Escape(s[1..])
  }

  /** Reads what follows a backslash. Of the `u` forms only those for single-byte characters are read. */
  function ReadEscape(s: string): (r: Option<(char, string)>)
    ensures r.Some? ==> |r.value.1| < |s|
  {
    if s == [] then None
    else if s[0] == '\"' || s[0] == '\\' || s[0] == '/' then Some((s[0], s[1..]))
    else if s[0] == 'n' then Some(('\n', s[1..]))
    else if s[0] == 'r' then Some(('\r', s[1..]))
    else if s[0] == 't' then Some(('\t', s[1..]))
    else if s[0] == 'b' then Some((8 as char, s[1..]))
    else if s[0] == 'f' then Some((12 as char, s[1..]))
    else if s[0] == 'u' && |s| >= 5 && s[1] == '0' && s[2] == '0' then
      match (HexValue(s[3]), HexValue(s[4]))
      case (Some(hi), Some(lo)) => if hi < 8 then Some(((16 * hi + lo) as char, s[5..])) else None
      case _ => None
    else None
  }

  /** Reads a string after its opening quote, up to and including the closing one. */
  function ReadString(s: string): (r: Option<(string, string)>)
    ensures r.Some? ==> |r.value.1| < |s|
    decreases |s|
  {
    if s == [] then None
    else if s[0] == '\"' then Some(([], s[1..]))
    else if s[0] == '\\' then
      match ReadEscape(s[1..])
      case None => None
      case Some((c, rest)) => Prepend(c, ReadString(rest))
    else if s[0] < ' ' then None
    else Prepend(s[0], ReadString(s[1..]))
  }

  function Prepend(c: char, r: Option<(string, string)>): Option<(string, string)> {
    match r
    case None => None
    case Some((text, rest)) => Some(([c] + text, rest))
  }

  predicate NeedsEscape(c: char) {
    c == '\"' || c == '\\' || c < ' '
  }

  predicate HasShortEscape(c: char) {
    c == '\"' || c == '\\' || c == '\n' || c == '\r' || c == '\t' || c as int == 8 || c as int == 12
  }

  lemma {:induction false} HexRoundTrip(d: nat)
    requires d < 16
    ensures HexValue(HexDigit(d)) == Some(d)
  {
  }

  lemma {:induction false} ReadShortEscape(c: char, rest: string)
    requires HasShortEscape(c)
    ensures |EscapeChar(c)| == 2 && EscapeChar(c)[0] == '\\'
    ensures ReadEscape([EscapeChar(c)[1]] + rest) == Some((c, rest))
  {
    assert ([EscapeChar(c)[1]] + rest)[1..] == rest;
  }

  lemma {:induction false} ReadControlEscape(c: char, rest: string)
    requires c < ' ' && !HasShortEscape(c)
    ensures EscapeChar(c) == "\\u00" + [HexDigit(c as int / 16), HexDigit(c as int % 16)]
    ensures ReadEscape("u00" + [HexDigit(c as int / 16), HexDigit(c as int % 16)] + rest) == Some((c, rest))
  {
    var s := "u00" + [HexDigit(c as int / 16), HexDigit(c as int % 16)] + rest;
    HexRoundTrip(c as int / 16);
    HexRoundTrip(c as int % 16);
    assert s[0] == 'u' && s[1] == '0' && s[2] == '0';
    assert s[3] == HexDigit(c as int / 16) && s[4] == HexDigit(c as int % 16);
    assert s[5..] == rest;
  }

  lemma {:induction false} ReadEscapedChar(c: char, rest: string)
    requires NeedsEscape(c)
    ensures EscapeChar(c)[0] == '\\' && ReadEscape((EscapeChar(c) + rest)[1..]) == Some((c, rest))
  {
    if HasShortEscape(c) {
      ReadShortEscape(c, rest);
      assert (EscapeChar(c) + rest)[1..] == [EscapeChar(c)[1]] + rest;
    } else {
      ReadControlEscape(c, rest);
      assert (EscapeChar(c) + rest)[1..] == "u00" + [HexDigit(c as int / 16), HexDigit(c as int % 16)] + rest;
    }
  }

  lemma {:induction false} ReadEscaped(s: string, rest: string)
    ensures ReadString(Escape(s) + "\"" + rest) == Some((s, rest))
  {
    var written := Escape(s) + "\"" + rest;
    if s == [] {
      assert written == ['\"'] + rest;
    } else {
      var c, tail := s[0], Escape(s[1..]) + "\"" + rest;
      ReadEscaped(s[1..], rest);
      assert written == EscapeChar(c) + tail;
      if NeedsEscape(c) {
        ReadEscapedChar(c, tail);
        assert written[0] == '\\';
      } else {
        assert written[0] == c && written[1..] == tail;
      }
      assert s == [c] + s[1..];
    }
  }

  predicate HasNoBreak(s: string) {
    '\n' !in s
  }

  lemma {:induction false} EscapeHasNoBreak(s: string)
    ensures HasNoBreak(Escape(s))
  {
    if s != [] {
      EscapeHasNoBreak(s[1..]);
    }
  }

  // ---------- Numbers ----------

  function DigitsEnd(s: string, i: nat): (e: nat)
    requires i <= |s|
    ensures i <= e <= |s|
    ensures forall k :: i <= k < e ==> IsDigit(s[k])
    ensures e < |s| ==> !IsDigit(s[e])
    decreases |s| - i
  {
    if i < |s| && IsDigit(s[i]) then DigitsEnd(s, i + 1) else i
  }

  lemma {:induction false} DigitsAreDigits(s: string)
    requires forall k :: 0 <= k < |s| ==> IsDigit(s[k])
    ensures AllDigits(s)
  {
    if s != [] {
      DigitsAreDigits(Init(s));
    }
  }

  // ---------- Values, members, objects ----------

  function WriteValue(v: Scalar): string {
    match v
    case Null => "null"
    case Num(n) => Print(n)
    case Str(text) => "\"" + Escape(text) + "\""
  }

  function ReadValue(s: string): (r: Option<(Scalar, string)>)
    ensures r.Some? ==> |r.value.1| < |s|
  {
    if s == [] then None
    else if s[0] == '\"' then
      match ReadString(s[1..])
      case None => None
      case Some((text, rest)) => Some((Str(text), rest))
    else if "null" <= s then Some((Null, s[4..]))
    else
      var e := DigitsEnd(s, 0);
      DigitsAreDigits(s[..e]);
      if e == 0 || (e > 1 && s[0] == '0') then None else Some((Num(Value(s[..e])), s[e..]))
  }

  lemma {:induction false} ReadWrittenNumber(n: nat, rest: string)
    requires rest != [] && !IsDigit(rest[0])
    ensures ReadValue(Print(n) + rest) == Some((Num(n), rest))
  {
    var s := Print(n) + rest;
    PrintIsDigits(n);
    PrintHasNoLeadingZero(n);
    assert forall k :: 0 <= k < |Print(n)| ==> s[k] == Print(n)[k] && IsDigit(s[k]);
    assert s[|Print(n)|] == rest[0];
    assert DigitsEnd(s, 0) == |Print(n)|;
    assert s[..|Print(n)|] == Print(n) && s[|Print(n)|..] == rest;
    assert IsDigit(s[0]);
  }

  lemma {:induction false} ReadWrittenString(text: string, rest: string)
    ensures ReadValue(("\"" + Escape(text) + "\"") + rest) == Some((Str(text), rest))
  {
    var s := ("\"" + Escape(text) + "\"") + rest;
    assert s[0] == '\"' && s[1..] == Escape(text) + "\"" + rest;
    ReadEscaped(text, rest);
  }

  lemma {:induction false} ReadWrittenValue(v: Scalar, rest: string)
    requires rest != [] && !IsDigit(rest[0])
    ensures ReadValue(WriteValue(v) + rest) == Some((v, rest))
  {
    match v
    case Null =>
      var s := "null" + rest;
      assert s[0] == 'n' && "null" <= s && s[4..] == rest;
    case Num(n) => ReadWrittenNumber(n, rest);
    case Str(text) => ReadWrittenString(text, rest);
  }

  function WriteMember(m: Member): string {
    "\"" + Escape(m.0) + "\":" + WriteValue(m.1)
  }

  function WriteMembers(ms: seq<Member>): string
    requires ms != []
  {
    if |ms| == 1 then WriteMember(ms[0]) else WriteMember(ms[0]) + "," + WriteMembers(ms[1..])
  }

  function WriteObject(ms: seq<Member>): string {
    if ms == [] then "{}" else "{" + WriteMembers(ms) + "}"
  }

  function ReadMember(s: string): (r: Option<(Member, string)>)
    ensures r.Some? ==> |r.value.1| < |s|
  {
    if s == [] || s[0] != '\"' then None
    else
      match ReadString(s[1..])
      case None => None
      case Some((key, after)) =>
        if after == [] || after[0] != ':' then None
        else
          match ReadValue(after[1..])
          case None => None
          case Some((v, rest)) => Some(((key, v), rest))
  }

  /** Reads members up to and including the closing brace. */
  function ReadMembers(s: string): Option<(seq<Member>, string)>
    decreases |s|
  {
    match ReadMember(s)
    case None => None
    case Some((m, rest)) =>
      if rest == [] then None
      else if rest[0] == '}' then Some(([m], rest[1..]))
      else if rest[0] == ',' then
        match ReadMembers(rest[1..])
        case None => None
        case Some((ms, end)) => Some(([m] + ms, end))
      else None
  }

  predicate IsJsonSpace(c: char) {
    c == ' ' || c == '\t' || c == '\n' || c == '\r'
  }

  function TrimStart(s: string): string {
    if s != [] && IsJsonSpace(s[0]) then TrimStart(s[1..]) else s
  }

  function TrimEnd(s: string): string {
    if s != [] && IsJsonSpace(Last(s)) then TrimEnd(Init(s)) else s
  }

  /** Reads one object; white space may surround it, nothing else may. */
  function ReadObject(s: string): Option<seq<Member>> {
    var t := TrimStart(TrimEnd(s));
    if t == [] || t[0] != '{' then None
    else if t[1..] == "}" then Some([])
    else
      match ReadMembers(t[1..])
      case None => None
      case Some((ms, rest)) => if rest == [] then Some(ms) else None
  }

  lemma {:induction false} MemberSplit(m: Member, rest: string)
    ensures var s := WriteMember(m) + rest;
      s[0] == '\"' && s[1..] == Escape(m.0) + "\"" + (":" + (WriteValue(m.1) + rest))
  {
  }

  lemma {:induction false} ReadWrittenMember(m: Member, rest: string)
    requires rest != [] && !IsDigit(rest[0])
    ensures ReadMember(WriteMember(m) + rest) == Some((m, rest))
  {
    var after := ":" + (WriteValue(m.1) + rest);
    MemberSplit(m, rest);
    ReadEscaped(m.0, after);
    assert after[1..] == WriteValue(m.1) + rest;
    ReadWrittenValue(m.1, rest);
  }

  lemma {:induction false} ReadWrittenMembers(ms: seq<Member>)
    requires ms != []
    ensures ReadMembers(WriteMembers(ms) + "}") == Some((ms, []))
  {
    if |ms| == 1 {
      ReadWrittenMember(ms[0], "}");
      assert "}"[1..] == [];
      assert ms == [ms[0]];
    } else {
      var tail := WriteMembers(ms[1..]) + "}";
      var rest := "," + tail;
      assert WriteMembers(ms) + "}" == WriteMember(ms[0]) + rest;
      ReadWrittenMember(ms[0], rest);
      assert rest[1..] == tail && rest[0] == ',';
      ReadWrittenMembers(ms[1..]);
      assert [ms[0]] + ms[1..] == ms;
    }
  }

  lemma {:induction false} BracedIsTrimmed(s: string)
    requires s != [] && s[0] == '{' && Last(s) == '}'
    ensures TrimStart(TrimEnd(s)) == s
  {
  }

  lemma {:induction false} ReadBraced(body: string, ms: seq<Member>)
    requires body != "}" && Last("{" + body) == '}' && ReadMembers(body) == Some((ms, []))
    ensures ReadObject("{" + body) == Some(ms)
  {
    var s := "{" + body;
    BracedIsTrimmed(s);
    assert s[1..] == body;
  }

  /** Every written object reads back as itself. */
  lemma {:induction false} ReadWrittenObject(ms: seq<Member>)
    ensures ReadObject(WriteObject(ms)) == Some(ms)
  {
    if ms == [] {
      BracedIsTrimmed("{}");
      assert "{}"[1..] == "}";
    } else {
      var body := WriteMembers(ms) + "}";
      ReadWrittenMembers(ms);
      assert body[0] == '\"' && Last("{" + body) == '}';
      ReadBraced(body, ms);
      assert WriteObject(ms) == "{" + body;
    }
  }

  lemma {:induction false} MembersHaveNoBreak(ms: seq<Member>)
    requires ms != []
    ensures HasNoBreak(WriteMembers(ms))
  {
    EscapeHasNoBreak(ms[0].0);
    match ms[0].1 {
      case Null =>
      case Num(n) => PrintIsDigits(n);
      case Str(text) => EscapeHasNoBreak(text);
    }
    if |ms| > 1 {
      MembersHaveNoBreak(ms[1..]);
    }
  }

  /** A written object is one line. */
  lemma {:induction false} ObjectHasNoBreak(ms: seq<Member>)
    ensures HasNoBreak(WriteObject(ms))
  {
    if ms != [] {
      MembersHaveNoBreak(ms);
    }
  }

  // ---------- Looking members up ----------

  /** Where a name occurs more than once, the last value counts. */
  function Get(ms: seq<Member>, key: string): Option<Scalar> {
    if ms == [] then None else if Last(ms).0 == key then Some(Last(ms).1) else Get(Init(ms), key)
  }

  /** The name occurs more than once. */
  predicate Repeats(ms: seq<Member>, key: string) {
    exists i, j :: 0 <= i < j < |ms| && ms[i].0 == key && ms[j].0 == key
  }

  lemma {:induction false} GetAt(ms: seq<Member>, i: nat)
    requires i < |ms| && forall j :: 0 <= j < |ms| && j != i ==> ms[j].0 != ms[i].0
    ensures Get(ms, ms[i].0) == Some(ms[i].1) && !Repeats(ms, ms[i].0)
  {
    if i < |ms| - 1 {
      GetAt(Init(ms), i);
    }
  }

  /** White space at the end makes no difference to what is read. */
  lemma {:induction false} TrimEndIgnores(s: string, suffix: string)
    requires forall c :: c in suffix ==> IsJsonSpace(c)
    ensures ReadObject(s + suffix) == ReadObject(s)
  {
    if suffix == [] {
      assert s + suffix == s;
    } else {
      TrimEndIgnores(s, Init(suffix));
      assert Init(s + suffix) == s + Init(suffix) && Last(s + suffix) == Last(suffix);
      assert TrimEnd(s + suffix) == TrimEnd(s + Init(suffix));
    }
  }

  // ---------- The text itself ----------

  lemma {:induction false} EscapeOne(c: char)
    ensures Escape([c]) == EscapeChar(c)
  {
    assert [c][1..] == [];
  }

  /** The escapes of section 7 of RFC 8259, by example. */
  lemma {:induction false} WrittenEscapes()
    ensures Escape("\"") == "\\\"" && Escape("\\") == "\\\\" && Escape("/") == "/"
    ensures Escape("\n") == "\\n" && Escape("\r") == "\\r" && Escape("\t") == "\\t"
    ensures Escape([8 as char]) == "\\b" && Escape([12 as char]) == "\\f"
    ensures Escape([0 as char]) == "\\u0000" && Escape([27 as char]) == "\\u001b"
  {
    assert HexDigit(0) == '0' && HexDigit(1) == '1' && HexDigit(11) == 'b';
    forall c ensures Escape([c]) == EscapeChar(c) {
      EscapeOne(c);
    }
    assert "\""[0] == '\"' && "/"[0] == '/';
  }

  lemma {:induction false} WriteTwo(a: Member, b: Member)
    ensures WriteObject([a, b]) == "{" + (WriteMember(a) + "," + WriteMember(b)) + "}"
  {
    assert [a, b][1..] == [b] && WriteMembers([b]) == WriteMember(b);
    assert WriteMembers([a, b]) == WriteMember(a) + "," + WriteMember(b);
  }

  /** How a record is punctuated, by example. */
  lemma {:induction false} WrittenExample()
    ensures WriteObject([("a", Str("\n")), ("b", Null)]) == "{\"a\":\"\\n\",\"b\":null}"
  {
    EscapeOne('a');
    EscapeOne('b');
    EscapeOne('\n');
    WriteTwo(("a", Str("\n")), ("b", Null));
    assert WriteMember(("a", Str("\n"))) == "\"a\":\"\\n\"" && WriteMember(("b", Null)) == "\"b\":null";
  }
}
