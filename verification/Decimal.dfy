/** Unsigned decimal numbers as the driver prints them and a bench binary reads
    them. */
module Decimal {
  import opened Wrappers
  import opened LittleEndian

  function Digit(d: nat): char
    requires d < 10
  {
    '0' + d as char
  }

  predicate IsDigit(c: char) {
    '0' <= c <= '9'
  }

  function Print(n: nat): (s: string)
    ensures s != "" && s[0] != '+'
    ensures forall c | c in s :: IsDigit(c)
  {
    if n < 10 then [Digit(n)] else Print(n / 10) + [Digit(n % 10)]
  }

  function Value(s: string): nat
    requires forall c | c in s :: IsDigit(c)
  {
    if s == "" then 0
    else
      assert IsDigit(s[|s| - 1]);
      Value(s[..|s| - 1]) * 10 + (s[|s| - 1] - '0') as nat
  }

  /** A leading plus and leading zeros are accepted; an empty string, a sign
      alone, any other character and anything past 64 bits are not. */
  function ParseU64(s: string): (r: Option<Word>)
  {
    var digits := if s != "" && s[0] == '+' then s[1..] else s;
    if digits == "" || exists c :: c in digits && !IsDigit(c) then None
    else if Value(digits) < TWO64 then Some(Value(digits))
    else None
  }

  lemma {:induction false} ValueOfPrint(n: nat)
    ensures Value(Print(n)) == n
  {
    if n >= 10 {
      ValueOfPrint(n / 10);
      var s := Print(n);
      assert s[..|s| - 1] == Print(n / 10);
    } else {
      assert Print(n)[..0] == "";
    }
  }

  lemma PrintReadsBack(n: Word)
    ensures ParseU64(Print(n)) == Some(n)
  {
    ValueOfPrint(n);
  }

  const DIGITS := "0123456789"

  /** A number is printed most significant digit first, without leading zeros. */
  lemma PrintIsDecimal(n: nat, d: nat)
    requires d < 10
    ensures Print(d) == [DIGITS[d]]
    ensures n > 0 ==> Print(10 * n + d) == Print(n) + [DIGITS[d]]
  {
    assert (10 * n + d) / 10 == n && (10 * n + d) % 10 == d;
    assert DIGITS[0] == '0' && DIGITS[1] == '1' && DIGITS[2] == '2' && DIGITS[3] == '3' && DIGITS[4] == '4';
    assert DIGITS[5] == '5' && DIGITS[6] == '6' && DIGITS[7] == '7' && DIGITS[8] == '8' && DIGITS[9] == '9';
  }

  ghost predicate Zeros(s: string) {
    forall i | 0 <= i < |s| :: s[i] == '0'
  }

  lemma PrintedTimesTen(v: nat, d: nat)
    requires d < 10
    ensures Print(v) + [Digit(d)] == (if v == 0 then "0" else "") + Print(v * 10 + d)
  {
    if v > 0 {
      assert (v * 10 + d) / 10 == v && (v * 10 + d) % 10 == d;
    }
  }

  lemma OneDigitMore(zeros: string, v: nat, d: nat) returns (more: string)
    requires d < 10 && Zeros(zeros)
    ensures Zeros(more) && zeros + Print(v) + [Digit(d)] == more + Print(v * 10 + d)
  {
    PrintedTimesTen(v, d);
    var extra := if v == 0 then "0" else "";
    more := zeros + extra;
    assert zeros + Print(v) + [Digit(d)] == zeros + (Print(v) + [Digit(d)]);
    assert zeros + (extra + Print(v * 10 + d)) == more + Print(v * 10 + d);
  }

  lemma LastDigit(s: string) returns (d: nat)
    requires s != "" && forall c | c in s :: IsDigit(c)
    ensures d < 10 && s == s[..|s| - 1] + [Digit(d)]
    ensures (forall c | c in s[..|s| - 1] :: IsDigit(c)) && Value(s) == Value(s[..|s| - 1]) * 10 + d
  {
    assert IsDigit(s[|s| - 1]);
    d := (s[|s| - 1] - '0') as nat;
  }

  /** Digits are leading zeros and the print of their value. */
  lemma {:induction false} DigitsArePrinted(s: string) returns (zeros: string)
    requires s != "" && forall c | c in s :: IsDigit(c)
    ensures Zeros(zeros) && s == zeros + Print(Value(s))
  {
    var d := LastDigit(s);
    var front := s[..|s| - 1];
    if front == "" {
      zeros := "";
      assert Value(s) == d && s == [Digit(d)] && zeros + Print(d) == Print(d);
    } else {
      zeros := DigitsArePrinted(front);
      zeros := OneDigitMore(zeros, Value(front), d);
    }
  }

  lemma {:induction false} ZerosAddNothing(zeros: string, s: string)
    requires Zeros(zeros) && s != "" && forall c | c in s :: IsDigit(c)
    ensures forall c | c in zeros + s :: IsDigit(c)
    ensures Value(zeros + s) == Value(s)
    decreases |s|
  {
    var all := zeros + s;
    forall c | c in all
      ensures IsDigit(c)
    {
      assert c in zeros || c in s;
    }
    var n := |s| - 1;
    assert all[..|all| - 1] == zeros + s[..n];
    if n == 0 {
      ZerosAreZero(zeros);
      assert all[..|all| - 1] == zeros && s[..0] == "";
    } else {
      ZerosAddNothing(zeros, s[..n]);
    }
  }

  lemma {:induction false} ZerosAreZero(zeros: string)
    requires Zeros(zeros) && forall c | c in zeros :: IsDigit(c)
    ensures Value(zeros) == 0
  {
    if zeros != "" {
      ZerosAreZero(zeros[..|zeros| - 1]);
    }
  }

  /** `s` is the print of `n` after any zeros, and at most one plus before them. */
  ghost predicate Spells(s: string, zeros: string, n: nat) {
    Zeros(zeros) && (s == zeros + Print(n) || s == "+" + (zeros + Print(n)))
  }

  lemma ReadIsSpelled(s: string) returns (zeros: string)
    requires ParseU64(s).Some?
    ensures Spells(s, zeros, ParseU64(s).value)
  {
    var digits := if s != "" && s[0] == '+' then s[1..] else s;
    assert forall c | c in digits :: IsDigit(c);
    zeros := DigitsArePrinted(digits);
    assert s == digits || s == "+" + digits;
  }

  lemma SpelledIsRead(s: string, zeros: string, n: Word)
    requires Spells(s, zeros, n)
    ensures ParseU64(s) == Some(n)
  {
    var digits := zeros + Print(n);
    ZerosAddNothing(zeros, Print(n));
    ValueOfPrint(n);
    assert digits[0] in digits;
    assert s == digits || (s[0] == '+' && s[1..] == digits);
  }

  /** A 64-bit number is read exactly off its print, with any zeros before it and
      at most one plus before those; everything else is refused. */
  lemma NumbersReadIff(s: string, n: Word)
    ensures ParseU64(s) == Some(n) <==> exists zeros :: Spells(s, zeros, n)
  {
    if ParseU64(s) == Some(n) {
      var zeros := ReadIsSpelled(s);
    }
    if zeros :| Spells(s, zeros, n) {
      SpelledIsRead(s, zeros, n);
    }
  }
}
