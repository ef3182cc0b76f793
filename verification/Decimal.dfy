/** Decimal printing (`sprintf("%d")` on a port), reading (`atoi`), and the digit arithmetic both rest on. */
module Decimal {
  predicate IsDigit(c: char) {
    '0' <= c <= '9'
  }

  predicate AllDigits(s: string) {
    forall i :: 0 <= i < |s| ==> IsDigit(s[i])
  }

  function DigitValue(c: char): nat
    requires IsDigit(c)
  {
    c as int - '0' as int
  }

  function DigitChar(d: nat): (c: char)
    requires d < 10
    ensures IsDigit(c) && DigitValue(c) == d
  {
    ('0' as int + d) as char
  }

  function Print(n: nat): (s: string)
    ensures |s| > 0 && AllDigits(s)
  {
    if n < 10 then [DigitChar(n)] else Print(n / 10) + [DigitChar(n % 10)]
  }

  function Value(s: string): nat
    requires AllDigits(s)
  {
    if s == "" then 0 else 10 * Value(s[..|s| - 1]) + DigitValue(s[|s| - 1])
  }

  lemma {:induction false} ValueOfPrint(n: nat)
    ensures Value(Print(n)) == n
  {
    if n >= 10 {
      ValueOfPrint(n / 10);
      assert Print(n)[..|Print(n)| - 1] == Print(n / 10);
    }
  }

  /** A 16-bit port prints in one to five digits, five exactly from 10000 on. */
  lemma PortDigits(n: nat)
    requires n < 65536
    ensures 1 <= |Print(n)| <= 5
    ensures |Print(n)| == 5 <==> n >= 10000
  {
    assert |Print(n / 10000)| == 1;
    assert n >= 1000 ==> |Print(n / 1000)| == if n / 1000 >= 10 then 2 else 1;
    assert n >= 100 ==> |Print(n / 100)| == if n / 100 >= 100 then 3 else if n / 100 >= 10 then 2 else 1;
    assert n / 10 / 10 == n / 100 && n / 100 / 10 == n / 1000 && n / 1000 / 10 == n / 10000;
  }

  lemma PrintInjective(m: nat, n: nat)
    requires Print(m) == Print(n)
    ensures m == n
  {
    ValueOfPrint(m);
    ValueOfPrint(n);
  }

  /** Number of leading characters of `s` that are decimal digits. */
  function DigitRun(s: string): (n: nat)
    ensures n <= |s| && AllDigits(s[..n])
    ensures n < |s| ==> !IsDigit(s[n])
  {
    if s == "" || !IsDigit(s[0]) then 0
    else
      var n := DigitRun(s[1..]);
      assert s[..n + 1] == [s[0]] + s[1..][..n];
      n + 1
  }

  predicate IsSpace(c: char) {
    c == ' ' || ('\t' <= c <= '\r')
  }

  function SkipSpace(s: string): string {
    if s != "" && IsSpace(s[0]) then SkipSpace(s[1..]) else s
  }

  /** `atoi` / `strtol(…, 10)` on the mathematical integers: spaces, one optional sign, digits. */
  function Atoi(s: string): int {
    var t := SkipSpace(s);
    if t != "" && t[0] == '-' then 0 - Value(t[1..][..DigitRun(t[1..])])
    else if t != "" && t[0] == '+' then Value(t[1..][..DigitRun(t[1..])])
    else Value(t[..DigitRun(t)])
  }

  lemma AtoiOfDigits(s: string)
    requires s != "" && AllDigits(s)
    ensures Atoi(s) == Value(s)
  {
    assert IsDigit(s[0]);
    assert DigitRun(s) == |s|;
    assert s[..|s|] == s;
  }

  /** What is read from spaces, an optional sign, digits, and anything that does not go on with a digit. */
  lemma AtoiReads(spaces: string, sign: string, digits: string, rest: string)
    requires (forall c :: c in spaces ==> IsSpace(c)) && sign in {"", "+", "-"}
    requires AllDigits(digits) && (digits == "" ==> sign != "" || rest == "" || !(IsSpace(rest[0]) || rest[0] == '+' || rest[0] == '-'))
    requires rest != "" ==> !IsDigit(rest[0])
    ensures Atoi(spaces + (sign + (digits + rest))) == if sign == "-" then 0 - Value(digits) else Value(digits)
  {
    var t := sign + (digits + rest);
    assert t != "" ==> t[0] == (if sign != "" then sign[0] else if digits != "" then digits[0] else rest[0]);
    SpacesSkipped(spaces, t);
    DigitsRun(digits, rest);
    var d := digits + rest;
    assert d[..|digits|] == digits;
    assert sign != "" ==> t[1..] == d;
    assert sign == "" ==> t == d;
  }

  lemma {:induction false} SpacesSkipped(spaces: string, t: string)
    requires (forall c :: c in spaces ==> IsSpace(c)) && (t != "" ==> !IsSpace(t[0]))
    ensures SkipSpace(spaces + t) == t
  {
    if spaces != "" {
      assert (spaces + t)[0] == spaces[0] && spaces[0] in spaces && (spaces + t)[1..] == spaces[1..] + t;
      SpacesSkipped(spaces[1..], t);
    } else {
      assert spaces + t == t;
    }
  }

  lemma {:induction false} DigitsRun(digits: string, rest: string)
    requires AllDigits(digits) && (rest != "" ==> !IsDigit(rest[0]))
    ensures DigitRun(digits + rest) == |digits|
  {
    if digits != "" {
      assert (digits + rest)[1..] == digits[1..] + rest;
      DigitsRun(digits[1..], rest);
    } else {
      assert digits + rest == rest;
    }
  }
}
