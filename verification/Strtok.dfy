/**
  `strtok_r` as section 7.24.5.8 of ISO/IEC 9899:2011 describes `strtok`, with the saved position made
  explicit: first on values, then in place on a zero-terminated buffer.
 */
module Strtok {
  import opened Wrappers

  type Delims = set<char>

  datatype Step = NoToken | Token(text: string, rest: string)

  /** Length of the longest prefix made of delimiters. */
  function Span(s: string, d: Delims): (n: nat)
    ensures n <= |s| && (n < |s| ==> s[n] !in d)
    ensures forall i :: 0 <= i < n ==> s[i] in d
  {
    if s != "" && s[0] in d then 1 + Span(s[1..], d) else 0
  }

  /** Length of the longest prefix free of delimiters. */
  function CSpan(s: string, d: Delims): (n: nat)
    ensures n <= |s| && (n < |s| ==> s[n] in d)
    ensures forall i :: 0 <= i < n ==> s[i] !in d
  {
    if s != "" && s[0] !in d then 1 + CSpan(s[1..], d) else 0
  }

  /** One call: skip delimiters; no token if nothing is left; else cut at the next delimiter, which is consumed. */
  function Next(s: string, d: Delims): (t: Step)
    ensures t.Token? ==> |t.text| > 0 && |t.rest| < |s|
  {
    Cut(s[Span(s, d)..], d)
  }

  /** Cuts a string that does not start with a delimiter. */
  function Cut(u: string, d: Delims): (t: Step)
    requires u != "" ==> u[0] !in d
    ensures t.Token? ==> |t.text| > 0 && |t.rest| < |u|
  {
    if u == "" then NoToken
    else
      var n := CSpan(u, d);
      Token(u[..n], if n < |u| then u[n + 1..] else "")
  }

  ghost predicate DelimFree(s: string, d: Delims) {
    forall c :: c in s ==> c !in d
  }

  /** The standard's wording as a relation: delimiters, a non-empty delimiter-free token, and then either
      the end or one delimiter and what follows. */
  ghost predicate Cuts(s: string, d: Delims, lead: string, text: string, tail: string, rest: string) {
    && s == lead + text + tail
    && (forall c :: c in lead ==> c in d)
    && text != "" && DelimFree(text, d)
    && (if tail == "" then rest == "" else tail[0] in d && rest == tail[1..])
  }

  /** A token is found exactly as the standard cuts the string, and none exactly when all is delimiters. */
  lemma NextMeetsStandard(s: string, d: Delims)
    ensures Next(s, d) == NoToken <==> forall c :: c in s ==> c in d
    ensures forall text, rest :: Next(s, d) == Token(text, rest) <==> exists lead, tail :: Cuts(s, d, lead, text, tail, rest)
  {
    if Next(s, d).Token? {
      NextCuts(s, d);
    }
    forall lead, text, tail, rest | Cuts(s, d, lead, text, tail, rest)
      ensures Next(s, d) == Token(text, rest)
    {
      CutsUnique(s, d, lead, text, tail, rest);
    }
  }

  lemma NextCuts(s: string, d: Delims)
    requires Next(s, d).Token?
    ensures exists lead, tail :: Cuts(s, d, lead, Next(s, d).text, tail, Next(s, d).rest)
    ensures exists c :: c in s && c !in d
  {
    hide Span, CSpan, Cuts;
    var k := Span(s, d);
    var lead, u := s[..k], s[k..];
    assert u[0] == s[k];
    assert forall c :: c in lead ==> c in d;
    hide Cut;
    assert lead + u == s;
    CutCuts(lead, u, d);
    assert Next(s, d) == Cut(u, d);
    assert Cuts(s, d, lead, Next(s, d).text, u[CSpan(u, d)..], Next(s, d).rest);
  }

  lemma CutCuts(lead: string, u: string, d: Delims)
    requires u != "" && u[0] !in d && forall c :: c in lead ==> c in d
    ensures Cuts(lead + u, d, lead, Cut(u, d).text, u[CSpan(u, d)..], Cut(u, d).rest)
  {
    var n := CSpan(u, d);
    assert n > 0;
    assert lead + u == lead + u[..n] + u[n..];
  }

  lemma CutsUnique(s: string, d: Delims, lead: string, text: string, tail: string, rest: string)
    requires Cuts(s, d, lead, text, tail, rest)
    ensures Next(s, d) == Token(text, rest)
  {
    assert Span(s, d) == |lead| by {
      assert s[|lead|] == text[0] && text[0] in text;
      assert forall i :: 0 <= i < |lead| ==> s[i] == lead[i] && lead[i] in lead;
    }
    var u := s[|lead|..];
    assert u == text + tail;
    assert CSpan(u, d) == |text| by {
      assert forall i :: 0 <= i < |text| ==> u[i] == text[i] && text[i] in text;
      assert tail != "" ==> u[|text|] == tail[0];
    }
  }

  ghost predicate TokenOf(s: string, d: Delims, text: string, rest: string) {
    exists lead, tail :: Cuts(s, d, lead, text, tail, rest)
  }

  lemma NextIsToken(s: string, d: Delims, text: string, rest: string)
    ensures Next(s, d) == Token(text, rest) <==> TokenOf(s, d, text, rest)
  {
    hide Next;
    NextMeetsStandard(s, d);
  }

  /** A printed field followed by one delimiter comes back whole. */
  lemma NextOfField(field: string, c: char, rest: string, d: Delims)
    requires field != "" && DelimFree(field, d) && c in d
    ensures Next(field + [c] + rest, d) == Token(field, rest)
  {
    CutsUnique(field + [c] + rest, d, "", field, [c] + rest, rest);
  }

  lemma NextOfLastField(field: string, d: Delims)
    requires field != "" && DelimFree(field, d)
    ensures Next(field, d) == Token(field, "")
  {
    CutsUnique(field, d, "", field, "", "");
  }

  // ----- in place

  const NUL: char := '\0'

  /** The C string that starts at `i`. */
  function CStr(b: seq<char>, i: nat): (s: string)
    requires i < |b| && b[|b| - 1] == NUL
    ensures i + |s| < |b|
    decreases |b| - i
  {
    if b[i] == NUL then "" else [b[i]] + CStr(b, i + 1)
  }

  /** The C string that starts `k` characters further on. */
  lemma {:induction false} CStrDrop(b: seq<char>, i: nat, k: nat)
    requires i < |b| && b[|b| - 1] == NUL && k <= |CStr(b, i)|
    ensures CStr(b, i + k) == CStr(b, i)[k..]
    ensures b[i + k] == if k < |CStr(b, i)| then CStr(b, i)[k] else NUL
    decreases k
  {
    if k > 0 {
      CStrDrop(b, i + 1, k - 1);
      assert CStr(b, i)[k..] == CStr(b, i + 1)[k - 1..];
    }
  }

  /** Only what follows matters. */
  lemma {:induction false} CStrSuffix(b: seq<char>, c: seq<char>, i: nat)
    requires i < |b| && |c| == |b| && b[|b| - 1] == NUL == c[|b| - 1] && forall j :: i <= j < |b| ==> b[j] == c[j]
    ensures CStr(b, i) == CStr(c, i)
    decreases |b| - i
  {
    if b[i] != NUL {
      CStrSuffix(b, c, i + 1);
    }
  }

  /** One more character scanned. */
  lemma CStrStep(b: seq<char>, i: nat)
    requires i < |b| && b[|b| - 1] == NUL
    ensures if b[i] == NUL then CStr(b, i) == "" else i + 1 < |b| && CStr(b, i) != "" && CStr(b, i)[0] == b[i] && CStr(b, i)[1..] == CStr(b, i + 1)
  {}

  /** `strspn`, as a scan. */
  method Skip(buf: array<char>, from: nat, d: Delims) returns (to: nat)
    requires from < buf.Length && buf[buf.Length - 1] == NUL && NUL !in d
    ensures to == from + Span(CStr(buf[..], from), d)
  {
    ghost var b := buf[..];
    to := from;
    CStrStep(b, to);
    while buf[to] in d
      invariant from <= to < buf.Length
      invariant Span(CStr(b, from), d) == to - from + Span(CStr(b, to), d)
      decreases buf.Length - to
    {
      CStrStep(b, to);
      to := to + 1;
    }
    CStrStep(b, to);
  }

  /** `strcspn`, as a scan. */
  method Scan(buf: array<char>, from: nat, d: Delims) returns (to: nat)
    requires from < buf.Length && buf[buf.Length - 1] == NUL && NUL !in d
    ensures to == from + CSpan(CStr(buf[..], from), d)
  {
    ghost var b := buf[..];
    to := from;
    while buf[to] != NUL && buf[to] !in d
      invariant from <= to < buf.Length
      invariant CSpan(CStr(b, from), d) == to - from + CSpan(CStr(b, to), d)
      decreases buf.Length - to
    {
      CStrStep(b, to);
      to := to + 1;
    }
    CStrStep(b, to);
  }

  /** One call on the buffer: the token starts at `tok`, the next call resumes at `saved`. Cutting writes
      one terminator; nothing before the start of the call is touched. */
  method StrtokR(buf: array<char>, from: nat, d: Delims) returns (found: bool, tok: nat, saved: nat)
    requires from < buf.Length && buf[buf.Length - 1] == NUL && NUL !in d
    modifies buf
    ensures from <= tok <= saved < buf.Length && buf[buf.Length - 1] == NUL
    ensures found <==> Next(CStr(old(buf[..]), from), d).Token?
    ensures found ==> Next(CStr(old(buf[..]), from), d) == Token(CStr(buf[..], tok), CStr(buf[..], saved))
    ensures !found ==> buf[..] == old(buf[..]) && CStr(buf[..], saved) == ""
    ensures buf[..from] == old(buf[..from])
  {
    hide Span, CSpan, CStr;
    ghost var b := buf[..];
    tok := Skip(buf, from, d);
    CStrDrop(b, from, tok - from);
    CStrStep(b, tok);
    found := buf[tok] != NUL;
    if found {
      saved := CutAt(buf, tok, d);
      assert buf[..from] == buf[..tok][..from];
    } else {
      saved := tok;
    }
  }

  method CutAt(buf: array<char>, tok: nat, d: Delims) returns (saved: nat)
    requires tok < buf.Length && buf[buf.Length - 1] == NUL && NUL !in d
    requires buf[tok] != NUL && buf[tok] !in d
    modifies buf
    ensures tok < saved < buf.Length && buf[buf.Length - 1] == NUL
    ensures var u := CStr(old(buf[..]), tok);
            u != "" && u[0] !in d && Cut(u, d) == Token(CStr(buf[..], tok), CStr(buf[..], saved))
    ensures buf[..tok] == old(buf[..tok])
  {
    hide Span, CSpan, CStr;
    ghost var b := buf[..];
    CStrStep(b, tok);
    saved := Scan(buf, tok, d);
    ghost var n := saved - tok;
    CStrDrop(b, tok, n);
    if buf[saved] != NUL {
      buf[saved] := NUL;
      assert buf[..] == b[saved := NUL];
      saved := saved + 1;
      CutView(b, buf[..], tok, n);
    } else {
      assert CStr(b, tok)[..n] == CStr(b, tok);
    }
  }

  /** Writing the terminator at the cut ends the token there and leaves what follows. */
  lemma {:induction false} CutView(before: seq<char>, after: seq<char>, tok: nat, n: nat)
    requires tok < |before| && before[|before| - 1] == NUL && n < |CStr(before, tok)|
    requires after == before[tok + n := NUL]
    ensures CStr(after, tok) == CStr(before, tok)[..n]
    ensures CStr(after, tok + n + 1) == CStr(before, tok)[n + 1..]
    decreases n
  {
    if n == 0 {
      CStrSuffix(before, after, tok + 1);
    } else {
      CutView(before, after, tok + 1, n - 1);
      assert CStr(before, tok)[..n] == [before[tok]] + CStr(before, tok + 1)[..n - 1];
      assert CStr(before, tok)[n + 1..] == CStr(before, tok + 1)[n..];
    }
  }

  /** The same with the token copied out, as every caller does. */
  method NextToken(buf: array<char>, from: nat, d: Delims) returns (text: Option<string>, saved: nat)
    requires from < buf.Length && buf[buf.Length - 1] == NUL && NUL !in d
    modifies buf
    ensures from <= saved < buf.Length && buf[buf.Length - 1] == NUL
    ensures text.None? <==> Next(CStr(old(buf[..]), from), d).NoToken?
    ensures text.Some? ==> Next(CStr(old(buf[..]), from), d) == Token(text.value, CStr(buf[..], saved))
    ensures text.None? ==> CStr(buf[..], saved) == ""
  {
    ghost var want := Next(CStr(buf[..], from), d);
    var found, tok;
    found, tok, saved := StrtokR(buf, from, d);
    if found {
      ghost var b := buf[..];
      text := Some(CStr(buf[..], tok));
      assert want == Token(CStr(b, tok), CStr(b, saved));
    } else {
      text := None;
    }
  }

  /** A fresh buffer that holds the string and its terminator. */
  method Copy(path: string) returns (buf: array<char>)
    requires NUL !in path
    ensures fresh(buf) && buf.Length == |path| + 1 && buf[|path|] == NUL
    ensures CStr(buf[..], 0) == path
  {
    buf := new char[|path| + 1](i requires 0 <= i => if i < |path| then path[i] else NUL);
    CopyView(buf[..], path, 0);
    assert path[0..] == path;
  }

  lemma {:induction false} CopyView(b: seq<char>, path: string, i: nat)
    requires i <= |path| && |b| == |path| + 1 && b[|path|] == NUL && NUL !in path && forall j :: 0 <= j < |path| ==> b[j] == path[j]
    ensures CStr(b, i) == path[i..]
    decreases |path| - i
  {
    if i < |path| {
      CopyView(b, path, i + 1);
      assert path[i..] == [path[i]] + path[i + 1..];
    }
  }
}
