/** The secondary error code that LDT operations dig out of the message of a failed UDF call. */
module LdtError {
  import opened Wrappers
  import opened Decimal

  /** A status as `processStatusCode` tells them apart. */
  datatype Status = Ok | ErrUdf | Other

  const LDT_MARK: string := ":LDT"
  const SEPARATOR: string := ": "
  const LONG_MAX: int := 0x7FFF_FFFF_FFFF_FFFF

  ghost predicate OccursAt(s: string, needle: string, i: int) {
    0 <= i <= |s| - |needle| && s[i..i + |needle|] == needle
  }

  /** `strrpos`: the last occurrence at or before `from`. */
  function LastUpTo(s: string, needle: string, from: nat): (r: Option<nat>)
    ensures r.Some? ==> r.value <= from && OccursAt(s, needle, r.value)
    ensures forall j :: OccursAt(s, needle, j) && j <= from ==> r.Some? && j <= r.value
  {
    if from + |needle| <= |s| && s[from..from + |needle|] == needle then Some(from)
    else if from == 0 then None
    else LastUpTo(s, needle, from - 1)
  }

  function StrRPos(s: string, needle: string): (r: Option<nat>)
    ensures r.None? <==> forall j :: !OccursAt(s, needle, j)
    ensures r.Some? ==> OccursAt(s, needle, r.value) && forall j :: OccursAt(s, needle, j) ==> j <= r.value
  {
    LastUpTo(s, needle, |s|)
  }

  /** `substr` from a start inside the string; a negative length counts from the end. */
  function Substr(s: string, start: nat, len: int): string
    requires start <= |s|
  {
    var end := if len < 0 then |s| + len else if start + len <= |s| then start + len else |s|;
    if start <= end then s[start..end] else ""
  }

  function TrimZeros(s: string): string {
    if s != "" && s[0] == '0' then TrimZeros(s[1..]) else s
  }

  /** `(int)` on a string: `strtol` base 10, which saturates. */
  function ToLong(s: string): (n: int)
    ensures -0x8000_0000_0000_0000 <= n <= 0x7FFF_FFFF_FFFF_FFFF
    ensures n == Atoi(s) || (n == 0x7FFF_FFFF_FFFF_FFFF < Atoi(s)) || (n == -0x8000_0000_0000_0000 > Atoi(s))
  {
    var n := Atoi(s);
    if n > LONG_MAX then LONG_MAX else if n < -LONG_MAX - 1 then -LONG_MAX - 1 else n
  }

  /** The code and message embedded in a UDF error, if both marks are present. */
  function Extract(msg: string): Option<(int, string)> {
    match (StrRPos(msg, LDT_MARK), StrRPos(msg, SEPARATOR))
    case (Some(rhs), Some(lhs)) => Some((ToLong(TrimZeros(Substr(msg, lhs + 2, rhs as int - lhs as int - 2))), msg[rhs + 1..]))
    case _ => None
  }

  // ----- correctness of the extraction

  lemma {:induction false} ValueCons(c: char, s: string)
    requires IsDigit(c) && AllDigits(s)
    ensures AllDigits([c] + s)
    ensures c == '0' ==> Value([c] + s) == Value(s)
  {
    if s != "" {
      ValueCons(c, s[..|s| - 1]);
      assert ([c] + s)[..|s|] == [c] + s[..|s| - 1];
    } else {
      assert ([c] + s)[..0] == "";
    }
  }

  /** Dropping leading zeros does not change the number. */
  lemma {:induction false} TrimKeepsValue(s: string)
    requires AllDigits(s)
    ensures AllDigits(TrimZeros(s)) && Value(TrimZeros(s)) == Value(s)
  {
    if s != "" && s[0] == '0' {
      TrimKeepsValue(s[1..]);
      ValueCons('0', s[1..]);
      assert s == ['0'] + s[1..];
    }
  }

  lemma OccursInTail(msg: string, head: string, t: string, needle: string, j: int)
    requires msg == head + t && OccursAt(msg, needle, j) && |head| <= j
    ensures OccursAt(t, needle, j - |head|)
  {
    assert msg[j..j + |needle|] == t[j - |head|..j - |head| + |needle|];
  }

  lemma MarkIsLast(msg: string, p: string, digits: string, t: string)
    requires msg == p + ": " + digits + ":LDT" + t
    requires forall j :: !OccursAt(t, LDT_MARK, j)
    ensures StrRPos(msg, LDT_MARK) == Some(|p| + 2 + |digits|)
  {
    var m := |p| + 2 + |digits|;
    var head := p + ": " + digits + ":LDT";
    assert OccursAt(msg, LDT_MARK, m);
    forall j | OccursAt(msg, LDT_MARK, j) ensures j <= m {
      assert msg[j..j + 4][0] == msg[j] == ':';
      assert msg[m + 1] == 'L' && msg[m + 2] == 'D' && msg[m + 3] == 'T';
      if j >= m + 4 {
        OccursInTail(msg, head, t, LDT_MARK, j);
        assert false;
      }
    }
  }

  lemma SeparatorIsLast(msg: string, p: string, digits: string, t: string)
    requires msg == p + ": " + digits + ":LDT" + t && AllDigits(digits)
    requires forall j :: !OccursAt(t, SEPARATOR, j)
    ensures StrRPos(msg, SEPARATOR) == Some(|p|)
  {
    var k := |p|;
    var m := k + 2 + |digits|;
    var head := p + ": " + digits + ":LDT";
    assert OccursAt(msg, SEPARATOR, k);
    assert forall i :: k + 2 <= i < m ==> IsDigit(msg[i]) by {
      assert msg[k + 2..m] == digits;
      assert forall i :: k + 2 <= i < m ==> msg[i] == msg[k + 2..m][i - (k + 2)] == digits[i - (k + 2)];
    }
    forall j | OccursAt(msg, SEPARATOR, j) ensures j <= k {
      assert msg[j..j + 2][0] == msg[j] == ':' && msg[j..j + 2][1] == msg[j + 1] == ' ';
      assert msg[k + 1] == ' ';
      assert msg[m + 1] == 'L' && msg[m + 2] == 'D' && msg[m + 3] == 'T';
      if j >= m + 4 {
        OccursInTail(msg, head, t, SEPARATOR, j);
        assert false;
      }
    }
  }

  /** For every prefix the extracted code is the decimal value of the digits, saturated at the largest
      long, and the message starts at `LDT`. */
  lemma ExtractPrinted(p: string, digits: string, t: string)
    requires digits != "" && AllDigits(digits)
    requires (forall j :: !OccursAt(t, LDT_MARK, j)) && (forall j :: !OccursAt(t, SEPARATOR, j))
    ensures Extract(p + ": " + digits + ":LDT" + t)
            == Some((if Value(digits) <= LONG_MAX then Value(digits) else LONG_MAX, "LDT" + t))
  {
    hide StrRPos, Value, Atoi, TrimZeros, LastUpTo, ToLong;
    var msg := p + ": " + digits + ":LDT" + t;
    MarkIsLast(msg, p, digits, t);
    SeparatorIsLast(msg, p, digits, t);
    assert Substr(msg, |p| + 2, |digits|) == digits;
    DigitsToLong(digits);
    assert msg[|p| + 2 + |digits| + 1..] == "LDT" + t;
  }

  ghost predicate LastAt(s: string, needle: string, i: int) {
    OccursAt(s, needle, i) && forall k :: OccursAt(s, needle, k) ==> k <= i
  }

  /** The text from one mark to the other; if they stand the other way round, the text up to as far from the end. */
  ghost function Between(s: string, from: int, to: int): string {
    var end := if from <= to then to else |s| + to - from;
    if 0 <= from <= end <= |s| then s[from..end] else ""
  }

  /** Without one of the marks nothing is extracted; with both, the message starts behind the last colon of `:LDT`. */
  lemma ExtractsIff(msg: string)
    ensures Extract(msg).Some? <==> (exists i :: OccursAt(msg, ":LDT", i)) && (exists j :: OccursAt(msg, ": ", j))
    ensures forall i :: Extract(msg).Some? && OccursAt(msg, ":LDT", i) && (forall k :: OccursAt(msg, ":LDT", k) ==> k <= i) ==>
              Extract(msg).value.1 == msg[i + 1..]
  {
    hide StrRPos, ToLong, TrimZeros, Substr, LastUpTo;
  }

  lemma LastIs(s: string, needle: string, i: int)
    requires LastAt(s, needle, i)
    ensures i >= 0 && StrRPos(s, needle) == Some(i)
  {
    hide LastUpTo;
  }

  /** And the code is what stands between the marks, without leading zeros, read as an integer. */
  lemma ExtractsBetween(msg: string, i: int, j: int)
    requires LastAt(msg, ":LDT", i) && LastAt(msg, ": ", j)
    ensures Extract(msg) == Some((ToLong(TrimZeros(Between(msg, j + 2, i))), msg[i + 1..]))
  {
    LastIs(msg, ":LDT", i);
    LastIs(msg, ": ", j);
    hide StrRPos, ToLong, TrimZeros, LastUpTo, LastAt;
    SubstrBetween(msg, j + 2, i);
    hide Substr, Between;
  }

  lemma SubstrBetween(msg: string, from: nat, to: nat)
    requires from <= |msg| && to <= |msg|
    ensures Substr(msg, from, to as int - from as int) == Between(msg, from, to)
  {}

  lemma {:induction false} TrimZerosIs(zeros: string, t: string)
    requires (forall i :: 0 <= i < |zeros| ==> zeros[i] == '0') && (t != "" ==> t[0] != '0')
    ensures TrimZeros(zeros + t) == t
  {
    if zeros != "" {
      assert (zeros + t)[0] == zeros[0] && (zeros + t)[1..] == zeros[1..] + t;
      TrimZerosIs(zeros[1..], t);
    } else {
      assert zeros + t == t;
    }
  }

  lemma DigitsToLong(digits: string)
    requires digits != "" && AllDigits(digits)
    ensures ToLong(TrimZeros(digits)) == if Value(digits) <= LONG_MAX then Value(digits) else LONG_MAX
  {
    TrimKeepsValue(digits);
    if TrimZeros(digits) != "" {
      AtoiOfDigits(TrimZeros(digits));
    }
  }

  class Ldt {
    var error: string
    var errorno: int

    constructor ()
      ensures error == "" && errorno == 0
    {
      error, errorno := "", 0;
    }

    /** `processStatusCode`; the result is whether it returns true. */
    method ProcessStatusCode(status: Status, clientError: string, clientErrorno: int) returns (handled: bool)
      modifies this
      ensures status == Ok ==> handled && error == "" && errorno == 0
      ensures status == ErrUdf && Extract(clientError).Some? ==> handled && (errorno, error) == Extract(clientError).value
      ensures status != Ok && (status == Other || Extract(clientError).None?) ==>
                !handled && error == clientError && errorno == clientErrorno
    {
      hide StrRPos, ToLong, TrimZeros;
      if status == Ok {
        error, errorno := "", 0;
        return true;
      }
      if status == ErrUdf {
        var rhs := StrRPos(clientError, LDT_MARK);
        var lhs := StrRPos(clientError, SEPARATOR);
        if rhs.Some? && lhs.Some? {
          errorno := ToLong(TrimZeros(Substr(clientError, lhs.value + 2, rhs.value as int - lhs.value as int - 2)));
          error := clientError[rhs.value + 1..];
          return true;
        }
      }
      error, errorno := clientError, clientErrorno;
      handled := false;
    }
  }
}
