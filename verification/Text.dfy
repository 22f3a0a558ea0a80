/** White space in single-byte text: space, tab, line feed, vertical tab, form feed and carriage return. */
module Text {
  import opened Sequences

  predicate IsSpace(c: char) {
    9 <= c as int <= 13 || c == ' '
  }

  predicate IsBlank(s: string) {
    s == [] || (IsSpace(Last(s)) && IsBlank(Init(s)))
  }

  function TrimLeft(s: string): string {
    if s != [] && IsSpace(s[0]) then TrimLeft(s[1..]) else s
  }

  function TrimRight(s: string): string {
    if s != [] && IsSpace(Last(s)) then TrimRight(Init(s)) else s
  }

  const SPACES := [' ', '\t', '\n', 11 as char, 12 as char, '\r']

  lemma {:induction false} SpacesAreSpace(c: char)
    ensures IsSpace(c) <==> c in SPACES
  {
    assert SPACES[0] == ' ' && SPACES[1] == '\t' && SPACES[2] == '\n' && SPACES[5] == '\r';
    assert SPACES[3] == 11 as char && SPACES[4] == 12 as char;
  }

  /** Blank means: nothing but white space. */
  lemma {:induction false} BlankIsAllSpaces(s: string)
    ensures IsBlank(s) <==> forall c :: c in s ==> c in SPACES
  {
    if s != [] {
      BlankIsAllSpaces(Init(s));
      InitLast(s);
      SpacesAreSpace(Last(s));
      assert Last(s) in s;
    }
  }

  /** Trimming takes white space off both ends, all of it, and nothing else. */
  lemma {:induction false} TrimIsExact(s: string) returns (lead: string, tail: string)
    ensures s == lead + TrimLeft(TrimRight(s)) + tail
    ensures forall c :: c in lead + tail ==> c in SPACES
    ensures var t := TrimLeft(TrimRight(s)); t != [] ==> t[0] !in SPACES && Last(t) !in SPACES
  {
    tail := TrimRightIsExact(s);
    lead := TrimLeftIsExact(TrimRight(s));
  }

  lemma {:induction false} TrimRightIsExact(s: string) returns (tail: string)
    ensures s == TrimRight(s) + tail && forall c :: c in tail ==> c in SPACES
    ensures TrimRight(s) != [] ==> Last(TrimRight(s)) !in SPACES
  {
    if s != [] && IsSpace(Last(s)) {
      var rest := TrimRightIsExact(Init(s));
      SpacesAreSpace(Last(s));
      InitLast(s);
      tail := rest + [Last(s)];
    } else {
      tail := "";
      if s != [] {
        SpacesAreSpace(Last(s));
      }
    }
  }

  lemma {:induction false} TrimLeftIsExact(s: string) returns (lead: string)
    ensures s == lead + TrimLeft(s) && forall c :: c in lead ==> c in SPACES
    ensures TrimLeft(s) != [] ==> TrimLeft(s)[0] !in SPACES && Last(TrimLeft(s)) == Last(s)
  {
    if s != [] && IsSpace(s[0]) {
      var rest := TrimLeftIsExact(s[1..]);
      SpacesAreSpace(s[0]);
      lead := [s[0]] + rest;
      assert s == [s[0]] + s[1..];
    } else {
      lead := "";
      if s != [] {
        SpacesAreSpace(s[0]);
      }
    }
  }
}
