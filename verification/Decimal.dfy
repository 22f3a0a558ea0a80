/** Decimal text of natural numbers: how offsets and numeric suffixes are written and read back. */
module Decimal {
  import opened Wrappers
  import opened Sequences

  const U64_LIMIT: nat := 0x1_0000_0000_0000_0000

  function Digit(d: nat): char
    requires d < 10
  {
    (d + '0' as int) as char
  }

  predicate IsDigit(c: char) {
    '0' <= c <= '9'
  }

  function Print(n: nat): (s: string)
    ensures s != []
  {
    if n < 10 then [Digit(n)] else Print(n / 10) + [Digit(n % 10)]
  }

  predicate AllDigits(s: string) {
    s == [] || (IsDigit(Last(s)) && AllDigits(Init(s)))
  }

  function Value(s: string): nat
    requires AllDigits(s)
  {
    if s == [] then 0 else 10 * Value(Init(s)) + (Last(s) as int - '0' as int)
  }

  /** Parsing an unsigned 64-bit number: an optional plus sign, then digits, without overflow. */
  function ParseU64(s: string): Option<nat> {
    var digits := if s != [] && s[0] == '+' then s[1..] else s;
    if digits != [] && AllDigits(digits) && Value(digits) < U64_LIMIT then Some(Value(digits)) else None
  }

  lemma {:induction false} PrintIsDigits(n: nat)
    ensures AllDigits(Print(n)) && Value(Print(n)) == n
    ensures forall c :: c in Print(n) ==> IsDigit(c)
  {
    if n < 10 {
      assert Init(Print(n)) == [];
    } else {
      PrintIsDigits(n / 10);
      InitOfAppend(Print(n / 10), Digit(n % 10));
    }
  }

  lemma {:induction false} PrintHasNoLeadingZero(n: nat)
    ensures |Print(n)| > 1 ==> Print(n)[0] != '0'
    ensures n > 0 ==> Print(n)[0] != '0'
  {
    if n >= 10 {
      PrintHasNoLeadingZero(n / 10);
    }
  }

  /** Reading back what was written gives the number, for everything a 64-bit reader can hold. */
  lemma {:induction false} ParsePrint(n: nat)
    ensures ParseU64(Print(n)) == if n < U64_LIMIT then Some(n) else None
  {
    PrintIsDigits(n);
    assert IsDigit(Print(n)[0]);
  }

  lemma {:induction false} PrintInjective(m: nat, n: nat)
    requires Print(m) == Print(n)
    ensures m == n
  {
    PrintIsDigits(m);
    PrintIsDigits(n);
  }

  /** One decimal digit after the other, the most significant first. */
  lemma {:induction false} PrintIsDecimal(n: nat, d: nat)
    requires d < 10
    ensures Print(d) == ["0123456789"[d]]
    ensures n > 0 ==> Print(10 * n + d) == Print(n) + ["0123456789"[d]]
  {
    assert Digit(d) == "0123456789"[d];
  }

  function Zeros(z: nat): string {
    if z == 0 then "" else Zeros(z - 1) + "0"
  }

  /** The text is decimal for `n`: its digits, with any number of zeros in front. */
  ghost predicate IsDecimalOf(s: string, n: nat) {
    exists z: nat :: s == Zeros(z) + Print(n)
  }

  lemma {:induction false} OneMoreZero(z: nat)
    ensures Zeros(z + 1) == Zeros(z) + ['0']
  {
  }

  lemma {:induction false} DecimalOfMore(s: string, n: nat, d: nat, z: nat)
    requires d < 10 && s == Zeros(z) + Print(n)
    ensures s + [Digit(d)] == (if n == 0 then Zeros(z + 1) else Zeros(z)) + Print(10 * n + d)
  {
    if n == 0 {
      OneMoreZero(z);
      assert Print(n) == [Digit(n)] && Digit(n) == '0' && Print(d) == [Digit(d)];
    } else {
      assert Print(10 * n + d) == Print(n) + [Digit(d)];
    }
  }

  lemma {:induction false} DecimalWithDigit(s: string, n: nat, d: nat)
    requires d < 10 && IsDecimalOf(s, n)
    ensures IsDecimalOf(s + [Digit(d)], 10 * n + d)
  {
    var z: nat :| s == Zeros(z) + Print(n);
    DecimalOfMore(s, n, d, z);
    var more := if n == 0 then z + 1 else z;
    assert s + [Digit(d)] == Zeros(more) + Print(10 * n + d);
  }

  lemma {:induction false} OneDigitIsDecimal(d: nat)
    requires d < 10
    ensures IsDecimalOf([Digit(d)], d)
  {
    assert [Digit(d)] == Zeros(0) + Print(d);
  }

  lemma {:induction false} ValueIsDecimal(s: string)
    requires s != [] && AllDigits(s)
    ensures IsDecimalOf(s, Value(s))
  {
    var d := Last(s) as int - '0' as int;
    assert Last(s) == Digit(d);
    InitLast(s);
    if Init(s) == [] {
      assert s == [Digit(d)] && Value(s) == d;
      OneDigitIsDecimal(d);
    } else {
      ValueIsDecimal(Init(s));
      DecimalWithDigit(Init(s), Value(Init(s)), d);
    }
  }

  lemma {:induction false} ZerosAreZero(z: nat)
    ensures AllDigits(Zeros(z)) && Value(Zeros(z)) == 0
  {
    if z > 0 {
      ZerosAreZero(z - 1);
      InitOfAppend(Zeros(z - 1), '0');
      assert Zeros(z) == Zeros(z - 1) + ['0'];
    }
  }

  lemma {:induction false} ZerosInFront(z: nat, s: string)
    requires AllDigits(s)
    ensures AllDigits(Zeros(z) + s) && Value(Zeros(z) + s) == Value(s)
  {
    if s == [] {
      ZerosAreZero(z);
      assert Zeros(z) + s == Zeros(z);
    } else {
      ZerosInFront(z, Init(s));
      assert Init(Zeros(z) + s) == Zeros(z) + Init(s);
    }
  }

  lemma {:induction false} DigitsExactlyWhen(s: string, n: nat)
    ensures s != [] && AllDigits(s) && Value(s) == n <==> IsDecimalOf(s, n)
  {
    if s != [] && AllDigits(s) {
      ValueIsDecimal(s);
    }
    if IsDecimalOf(s, n) {
      var z: nat :| s == Zeros(z) + Print(n);
      PrintIsDigits(n);
      ZerosInFront(z, Print(n));
    }
  }

  /** What a 64-bit reader accepts: a number that fits, with any zeros and at most one plus sign in front. */
  lemma {:induction false} ParseExactlyWhen(s: string, n: nat)
    ensures ParseU64(s) == Some(n) <==>
      n < U64_LIMIT && (IsDecimalOf(s, n) || (s != [] && s[0] == '+' && IsDecimalOf(s[1..], n)))
  {
    DigitsExactlyWhen(s, n);
    if s != [] && s[0] == '+' {
      DigitsExactlyWhen(s[1..], n);
      PlusIsNoDigit(s);
    }
  }

  lemma {:induction false} PlusIsNoDigit(s: string)
    requires s != [] && s[0] == '+'
    ensures !AllDigits(s)
  {
    if Init(s) != [] {
      PlusIsNoDigit(Init(s));
    }
  }
}
