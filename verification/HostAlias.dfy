/**
  The two alias strings under which connections and shared-memory keys are registered, the buffers
  they are written into, and their injectivity.
 */
module HostAlias {
  import opened Decimal

  datatype Host = Host(addr: string, port: nat)

  /** `addr:port:user`. */
  function Single(h: Host, user: string): string {
    h.addr + ":" + Print(h.port) + ":" + user
  }

  /** `addr:port:user;addr:port:user;…` over the whole host list. */
  function Multi(hosts: seq<Host>, user: string): string {
    if hosts == [] then ""
    else if |hosts| == 1 then Single(hosts[0], user)
    else Single(hosts[0], user) + ";" + Multi(hosts[1..], user)
  }

  /** The two forms, spelled out. */
  lemma Spelled()
    ensures Single(Host("h", 30), "u") == "h:30:u"
    ensures Multi([Host("a", 1), Host("b", 2)], "u") == "a:1:u;b:2:u"
  {
    assert Print(30) == Print(3) + "0" && Print(3) == "3" && Print(2) == "2" && Print(1) == "1";
    assert Single(Host("a", 1), "u") == "a:1:u" && Single(Host("b", 2), "u") == "b:2:u";
    assert [Host("a", 1), Host("b", 2)][1..] == [Host("b", 2)];
    hide Single, Print;
  }

  predicate Free(s: string, c: char) {
    c !in s
  }

  predicate WellFormed(hosts: seq<Host>) {
    forall h :: h in hosts ==> Free(h.addr, ':') && Free(h.addr, ';')
  }

  // ----- injectivity

  /** A text can be cut in at most one way into a separator-free head and the rest. */
  lemma SplitUnique(a: string, x: string, b: string, y: string, c: char)
    requires Free(a, c) && Free(b, c)
    requires a + [c] + x == b + [c] + y
    ensures a == b && x == y
  {
    var s := a + [c] + x;
    assert s[|a|] == c && s[|b|] == c;
    assert forall i :: 0 <= i < |a| ==> s[i] == a[i];
    assert forall i :: 0 <= i < |b| ==> s[i] == b[i];
    assert a == s[..|a|] && b == s[..|b|];
    assert x == s[|a| + 1..] && y == s[|b| + 1..];
  }

  lemma DigitsFree(n: nat, c: char)
    requires !IsDigit(c)
    ensures Free(Print(n), c)
  {}

  /** The host's part of the alias, up to and without the colon that follows its port. */
  function Head(h: Host): string {
    h.addr + ":" + Print(h.port)
  }

  /** `h` prints the alias of the shorter `g`: its address is the head of `g`, or goes on after it with a
      colon, and the user of `g` makes up what is missing. */
  ghost predicate Absorbs(g: Host, u: string, h: Host, v: string) {
    || (h.addr == Head(g) && u == Print(h.port) + ":" + v)
    || exists w :: h.addr == Head(g) + ":" + w && u == w + ":" + Print(h.port) + ":" + v
  }

  /** The same text before a colon-free port and a user, when the addresses have one length. */
  lemma SameLength(g: Host, u: string, h: Host, v: string)
    requires |g.addr| == |h.addr| && Single(g, u) == Single(h, v)
    ensures g == h && u == v
  {
    var s := Single(g, u);
    assert s[..|g.addr|] == g.addr && s[..|h.addr|] == h.addr;
    var x, y := Print(g.port) + [':'] + u, Print(h.port) + [':'] + v;
    assert s == g.addr + (":" + x) && s == h.addr + (":" + y);
    assert s[|g.addr| + 1..] == x && s[|h.addr| + 1..] == y;
    DigitsFree(g.port, ':');
    DigitsFree(h.port, ':');
    SplitUnique(Print(g.port), u, Print(h.port), v, ':');
    PrintInjective(g.port, h.port);
  }

  /** Two ways to cut one text: the longer head starts with the shorter one. */
  lemma CutShorter(a: string, x: string, b: string, y: string)
    requires |a| <= |b| && a + x == b + y
    ensures b == a + b[|a|..] && x == b[|a|..] + y
  {
    var s := a + x;
    assert b == s[..|b|] && a == s[..|a|] && x == s[|a|..];
    assert s[|a|..] == b[|a|..] + y;
  }

  /** A colon-free head is not cut by a text that goes on with a colon. */
  lemma NotCut(a: string, x: string, b: string, y: string)
    requires Free(a, ':') && a + x == b + [':'] + y
    ensures |a| <= |b|
  {
    assert (b + [':'] + y)[|b|] == ':';
    assert forall k :: 0 <= k < |a| ==> (a + x)[k] == a[k] != ':';
  }

  lemma ShorterCollides(g: Host, u: string, h: Host, v: string)
    requires |g.addr| < |h.addr| && Single(g, u) == Single(h, v)
    ensures Absorbs(g, u, h, v)
  {
    var port, tail := Print(g.port), Print(h.port) + ":" + v;
    assert Single(g, u) == g.addr + ([':'] + (port + ([':'] + u)));
    assert Single(h, v) == h.addr + ([':'] + tail);
    CutShorter(g.addr, [':'] + (port + ([':'] + u)), h.addr, [':'] + tail);
    var w := h.addr[|g.addr|..];
    DigitsFree(g.port, ':');
    AbsorbsAfter(port, u, w, tail);
    if w == [':'] + port && u == tail {
      assert h.addr == Head(g);
    } else {
      var z :| w == [':'] + port + [':'] + z && u == z + [':'] + tail;
      assert h.addr == Head(g) + ":" + z && u == z + ":" + Print(h.port) + ":" + v;
    }
  }

  /** What the longer address has beyond the shorter: a colon, the port, and nothing or a colon and more. */
  lemma AbsorbsAfter(port: string, u: string, w: string, tail: string)
    requires Free(port, ':') && w != "" && [':'] + (port + ([':'] + u)) == w + ([':'] + tail)
    ensures (w == [':'] + port && u == tail) || exists z :: w == [':'] + port + [':'] + z && u == z + [':'] + tail
  {
    CutShorter([':'], port + ([':'] + u), w, [':'] + tail);
    var w1 := w[1..];
    assert w1 + ([':'] + tail) == w1 + [':'] + tail;
    NotCut(port, [':'] + u, w1, tail);
    CutShorter(port, [':'] + u, w1, [':'] + tail);
    var w2 := w1[|port|..];
    if w2 == "" {
      assert ([':'] + u)[1..] == u && (w2 + ([':'] + tail))[1..] == tail;
      assert w1 == port;
    } else {
      CutShorter([':'], u, w2, [':'] + tail);
      assert w == [':'] + port + [':'] + w2[1..];
      assert u == w2[1..] + [':'] + tail;
    }
  }

  lemma AbsorbedCollides(g: Host, u: string, h: Host, v: string)
    requires Absorbs(g, u, h, v)
    ensures |g.addr| < |h.addr| && Single(g, u) == Single(h, v)
  {
    assert Single(g, u) == Head(g) + (":" + u);
    assert Single(h, v) == h.addr + (":" + Print(h.port) + ":" + v);
  }

  /** For all hosts and users: two aliases are equal exactly when host and user are, or one host absorbs the other. */
  lemma SameAliasIff(g: Host, u: string, h: Host, v: string)
    ensures Single(g, u) == Single(h, v) <==> SameAlias(g, u, h, v)
  {
    if Single(g, u) == Single(h, v) {
      if |g.addr| == |h.addr| {
        SameLength(g, u, h, v);
      } else if |g.addr| < |h.addr| {
        ShorterCollides(g, u, h, v);
      } else {
        ShorterCollides(h, v, g, u);
      }
    } else if Absorbs(g, u, h, v) {
      AbsorbedCollides(g, u, h, v);
    } else if Absorbs(h, v, g, u) {
      AbsorbedCollides(h, v, g, u);
    }
  }

  ghost predicate SameAlias(g: Host, u: string, h: Host, v: string) {
    (g == h && u == v) || Absorbs(g, u, h, v) || Absorbs(h, v, g, u)
  }

  /** The address of `h` extends that of `g` by a colon and its port, and then ends or goes on with a colon. */
  predicate Extends(g: Host, h: Host) {
    h.addr == Head(g) || Head(g) + ":" <= h.addr
  }

  /** What a caller can check: two different hosts can collide, for some users, exactly when one address
      extends the other. */
  lemma CanCollideIff(g: Host, h: Host)
    requires g != h
    ensures (exists u, v :: Single(g, u) == Single(h, v)) <==> Extends(g, h) || Extends(h, g)
  {
    if u, v :| Single(g, u) == Single(h, v) {
      SameAliasIff(g, u, h, v);
    }
    if Extends(g, h) {
      var _, _ := Collision(g, h);
    } else if Extends(h, g) {
      var v, u := Collision(h, g);
      assert Single(g, u) == Single(h, v);
    }
  }

  lemma Collision(g: Host, h: Host) returns (u: string, v: string)
    requires Extends(g, h)
    ensures Single(g, u) == Single(h, v)
  {
    v := "";
    if h.addr == Head(g) {
      u := Print(h.port) + ":" + v;
    } else {
      var w := h.addr[|Head(g)| + 1..];
      assert h.addr == Head(g) + ":" + w;
      u := w + ":" + Print(h.port) + ":" + v;
    }
    assert Absorbs(g, u, h, v);
    AbsorbedCollides(g, u, h, v);
  }

  /** Under one user a collision needs that user to repeat itself, which no user can: one table entry per
      host, as long as the user is the same. */
  lemma SameUser(g: Host, h: Host, u: string)
    ensures Single(g, u) == Single(h, u) <==> g == h
  {
    SameAliasIff(g, u, h, u);
  }

  /** Colon-free addresses never collide. */
  lemma SingleInjective(g: Host, u: string, h: Host, v: string)
    requires Free(g.addr, ':') && Free(h.addr, ':')
    ensures Single(g, u) == Single(h, v) <==> g == h && u == v
  {
    SameAliasIff(g, u, h, v);
    if Absorbs(g, u, h, v) {
      AbsorbsColon(g, u, h, v);
    }
    if Absorbs(h, v, g, u) {
      AbsorbsColon(h, v, g, u);
    }
  }

  lemma AbsorbsColon(g: Host, u: string, h: Host, v: string)
    requires Absorbs(g, u, h, v)
    ensures ':' in h.addr
  {
    assert h.addr[|g.addr|] == ':';
  }

  lemma SingleFree(h: Host, user: string)
    requires Free(h.addr, ';') && Free(user, ';')
    ensures Free(Single(h, user), ';')
  {
    DigitsFree(h.port, ';');
  }

  lemma MultiCons(hosts: seq<Host>, user: string)
    requires |hosts| > 1
    ensures Multi(hosts, user) == Single(hosts[0], user) + [';'] + Multi(hosts[1..], user)
  {}

  /** The pieces of a text between semicolons. */
  function Pieces(s: string): (p: seq<string>)
    ensures |p| > 0
  {
    if s == "" then [""]
    else if s[0] == ';' then [""] + Pieces(s[1..])
    else
      var p := Pieces(s[1..]);
      [[s[0]] + p[0]] + p[1..]
  }

  lemma {:induction false} PiecesAppend(s: string, t: string)
    ensures Pieces(s + [';'] + t) == Pieces(s) + Pieces(t)
  {
    var whole := s + [';'] + t;
    if s == "" {
      assert whole[1..] == t;
    } else {
      assert whole[1..] == s[1..] + [';'] + t;
      PiecesAppend(s[1..], t);
    }
  }

  lemma {:induction false} PiecesInjective(s: string, t: string)
    requires Pieces(s) == Pieces(t)
    ensures s == t
  {
    PiecesHead(s);
    PiecesHead(t);
    if s != "" && t != "" {
      var p, q := Pieces(s), Pieces(t);
      var x, y := Pieces(s[1..]), Pieces(t[1..]);
      assert s[0] == t[0];
      if s[0] == ';' {
        assert p[1..] == x && q[1..] == y;
      } else {
        assert p[0][1..] == x[0] && p[1..] == x[1..];
        assert q[0][1..] == y[0] && q[1..] == y[1..];
        assert x == [x[0]] + x[1..] && y == [y[0]] + y[1..];
      }
      PiecesInjective(s[1..], t[1..]);
    }
  }

  lemma PiecesHead(s: string)
    ensures Pieces(s) == [""] <==> s == ""
    ensures s != "" ==> if s[0] == ';' then Pieces(s)[0] == "" else Pieces(s)[0] != "" && Pieces(s)[0][0] == s[0]
  {}

  lemma {:induction false} PiecesOfFree(s: string)
    requires Free(s, ';')
    ensures Pieces(s) == [s]
  {
    if s != "" {
      assert s[0] in s && [s[0]] + s[1..] == s;
      PiecesOfFree(s[1..]);
      assert Pieces(s) == [s];
    }
  }

  /** The pieces of each host's alias in turn. */
  function AllPieces(hosts: seq<Host>, user: string): seq<string> {
    if hosts == [] then [] else Pieces(Single(hosts[0], user)) + AllPieces(hosts[1..], user)
  }

  lemma {:induction false} PiecesOfMulti(hosts: seq<Host>, user: string)
    requires hosts != []
    ensures Pieces(Multi(hosts, user)) == AllPieces(hosts, user)
  {
    if |hosts| > 1 {
      MultiCons(hosts, user);
      PiecesAppend(Single(hosts[0], user), Multi(hosts[1..], user));
      PiecesOfMulti(hosts[1..], user);
    } else {
      assert AllPieces(hosts[1..], user) == [];
    }
  }

  /** For all host lists and users: two multi-host aliases are equal exactly when their hosts' aliases have,
      one after the other, the same pieces between semicolons. */
  lemma MultiIff(gs: seq<Host>, u: string, hs: seq<Host>, v: string)
    ensures Multi(gs, u) == Multi(hs, v) <==> AllPieces(gs, u) == AllPieces(hs, v)
  {
    if gs != [] && hs != [] {
      PiecesOfMulti(gs, u);
      PiecesOfMulti(hs, v);
      if AllPieces(gs, u) == AllPieces(hs, v) {
        PiecesInjective(Multi(gs, u), Multi(hs, v));
      }
    }
  }

  /** Nothing in the list or the user holds a semicolon. */
  predicate Unbroken(hosts: seq<Host>, user: string) {
    Free(user, ';') && forall h :: h in hosts ==> Free(h.addr, ';')
  }

  lemma {:induction false} PiecesUnbroken(hosts: seq<Host>, user: string)
    requires Unbroken(hosts, user)
    ensures |AllPieces(hosts, user)| == |hosts|
    ensures forall i :: 0 <= i < |hosts| ==> AllPieces(hosts, user)[i] == Single(hosts[i], user)
  {
    if hosts != [] {
      SingleFree(hosts[0], user);
      PiecesOfFree(Single(hosts[0], user));
      PiecesUnbroken(hosts[1..], user);
    }
  }

  /** Without semicolons: exactly when the lists are of one length and agree alias by alias. */
  lemma MultiUnbrokenIff(gs: seq<Host>, u: string, hs: seq<Host>, v: string)
    requires Unbroken(gs, u) && Unbroken(hs, v)
    ensures Multi(gs, u) == Multi(hs, v) <==> |gs| == |hs| && forall i :: 0 <= i < |gs| ==> SameAlias(gs[i], u, hs[i], v)
  {
    MultiIff(gs, u, hs, v);
    PiecesUnbroken(gs, u);
    PiecesUnbroken(hs, v);
    if |gs| == |hs| {
      forall i | 0 <= i < |gs|
        ensures SameAlias(gs[i], u, hs[i], v) <==> AllPieces(gs, u)[i] == AllPieces(hs, v)[i]
      {
        SameAliasIff(gs[i], u, hs[i], v);
      }
      assert AllPieces(gs, u) == AllPieces(hs, v) <==> forall i :: 0 <= i < |gs| ==> AllPieces(gs, u)[i] == AllPieces(hs, v)[i];
    }
  }

  /** Without colons either: exactly when the lists and, unless they are empty, the users are the same. */
  lemma MultiInjective(gs: seq<Host>, u: string, hs: seq<Host>, v: string)
    requires WellFormed(gs) && WellFormed(hs) && Free(u, ';') && Free(v, ';')
    ensures Multi(gs, u) == Multi(hs, v) <==> gs == hs && (gs == [] || u == v)
  {
    MultiUnbrokenIff(gs, u, hs, v);
    if Multi(gs, u) == Multi(hs, v) {
      forall i | 0 <= i < |gs| ensures gs[i] == hs[i] && u == v {
        assert gs[i] in gs && hs[i] in hs;
        SameAliasIff(gs[i], u, hs[i], v);
        SingleInjective(gs[i], u, hs[i], v);
      }
    }
  }

  /** Two inputs that do collide: the IPv6 loopback address, and an address `:` on port 1. */
  lemma AliasesCollide()
    ensures Single(Host("::1", 3000), "") == Single(Host(":", 1), "3000:")
    ensures Host("::1", 3000) != Host(":", 1)
  {
    assert Print(3000) == Print(300) + "0" && Print(300) == Print(30) + "0" && Print(30) == Print(3) + "0";
    assert Print(3000) == "3000" && Print(1) == "1";
  }

  /** And two hosts collide with one whose user holds a semicolon. */
  lemma ListsCollide()
    ensures Multi([Host("a", 1), Host("b", 1)], "u") == Multi([Host("a", 1)], "u;b:1:u")
  {
    assert [Host("a", 1), Host("b", 1)][1..] == [Host("b", 1)];
    assert Single(Host("a", 1), "u;b:1:u") == Single(Host("a", 1), "u") + ";" + Single(Host("b", 1), "u");
  }

  // ----- buffer sizes

  const MAX_PORT_SIZE := 6

  /** Bytes allocated for a single-host alias. */
  function SingleSize(h: Host, user: string): nat {
    |h.addr| + |user| + MAX_PORT_SIZE + 2
  }

  /** Bytes allocated for a multi-host alias: the allocation loop's sum. */
  function MultiSize(hosts: seq<Host>, user: string): nat {
    if hosts == [] then 0
    else MultiSize(hosts[..|hosts| - 1], user) + |hosts[|hosts| - 1].addr| + |user| + MAX_PORT_SIZE + 3
  }

  predicate PortsFit(hosts: seq<Host>) {
    forall h :: h in hosts ==> h.port < 65536
  }

  /** The single-host buffer always holds the alias and its terminator, and exactly so for five-digit ports. */
  lemma SingleSizeTight(h: Host, user: string)
    requires h.port < 65536
    ensures |Single(h, user)| + 1 <= SingleSize(h, user)
    ensures |Single(h, user)| + 1 == SingleSize(h, user) <==> h.port >= 10000
  {
    PortDigits(h.port);
  }

  /** Text accumulated after `i` of the `n` hosts have been appended, each but the last followed by `;`. */
  function Written(hosts: seq<Host>, user: string, i: nat): string
    requires i <= |hosts|
  {
    if i == 0 then ""
    else Written(hosts, user, i - 1) + Single(hosts[i - 1], user) + (if i != |hosts| then ";" else "")
  }

  lemma {:induction false} WrittenCons(hosts: seq<Host>, user: string, i: nat)
    requires 0 < i <= |hosts|
    ensures Written(hosts, user, i)
            == Single(hosts[0], user) + (if |hosts| > 1 then ";" else "") + Written(hosts[1..], user, i - 1)
  {
    if i > 1 {
      WrittenCons(hosts, user, i - 1);
      assert hosts[1..][i - 2] == hosts[i - 1];
    }
  }

  /** The accumulating loop ends with the recursively described alias. */
  lemma {:induction false} WrittenIsMulti(hosts: seq<Host>, user: string)
    ensures Written(hosts, user, |hosts|) == Multi(hosts, user)
  {
    if hosts != [] {
      WrittenCons(hosts, user, |hosts|);
      WrittenIsMulti(hosts[1..], user);
    }
  }

  lemma MultiSizeStep(hosts: seq<Host>, user: string, i: nat)
    requires i < |hosts|
    ensures MultiSize(hosts[..i + 1], user) == MultiSize(hosts[..i], user) + |hosts[i].addr| + |user| + MAX_PORT_SIZE + 3
  {
    assert hosts[..i + 1][..i] == hosts[..i];
  }

  lemma {:induction false} MultiSizeMonotone(hosts: seq<Host>, user: string, i: nat)
    requires i <= |hosts|
    ensures MultiSize(hosts[..i], user) <= MultiSize(hosts, user)
    decreases |hosts| - i
  {
    if i < |hosts| {
      MultiSizeStep(hosts, user, i);
      MultiSizeMonotone(hosts, user, i + 1);
    } else {
      assert hosts[..i] == hosts;
    }
  }

  /** After every host appended the buffer has used at least one byte less per host than was summed for it,
      which leaves room for the terminator. */
  lemma {:induction false} WrittenFits(hosts: seq<Host>, user: string, i: nat)
    requires i <= |hosts| && PortsFit(hosts)
    ensures |Written(hosts, user, i)| + i + (if 0 < i == |hosts| then 1 else 0) <= MultiSize(hosts[..i], user)
  {
    if i > 0 {
      WrittenFits(hosts, user, i - 1);
      MultiSizeStep(hosts, user, i - 1);
      PortDigits(hosts[i - 1].port);
    }
  }

  // ----- the builder, in place

  /** `strcat` at a known end: copies `s` and moves the terminator. */
  method Strcat(buf: array<char>, len: nat, s: string) returns (end: nat)
    requires len + |s| < buf.Length
    modifies buf
    ensures end == len + |s|
    ensures buf[..end] == old(buf[..len]) + s && buf[end] == '\0'
  {
    var k := 0;
    while k < |s|
      invariant k <= |s|
      invariant buf[..len] == old(buf[..len])
      invariant buf[len..len + k] == s[..k]
    {
      buf[len + k] := s[k];
      k := k + 1;
    }
    end := len + |s|;
    buf[end] := '\0';
    assert buf[..end] == buf[..len] + buf[len..end];
  }

  /** One round of the append loop. */
  method AppendHost(buf: array<char>, len: nat, h: Host, user: string, last: bool) returns (end: nat)
    requires len + |Single(h, user)| + (if last then 0 else 1) < buf.Length
    modifies buf
    ensures end == len + |Single(h, user)| + (if last then 0 else 1)
    ensures buf[..end] == old(buf[..len]) + Single(h, user) + (if last then "" else ";") && buf[end] == '\0'
  {
    ghost var before := buf[..len];
    end := Strcat(buf, len, h.addr);
    end := Strcat(buf, end, ":");
    end := Strcat(buf, end, Print(h.port));
    end := Strcat(buf, end, ":");
    end := Strcat(buf, end, user);
    assert buf[..end] == before + Single(h, user);
    if !last {
      end := Strcat(buf, end, ";");
    }
  }

  /** Sums the allocation, zeroes the buffer and appends every host: no write leaves the buffer. */
  method BuildMulti(hosts: seq<Host>, user: string) returns (buf: array<char>, len: nat)
    requires PortsFit(hosts)
    ensures fresh(buf) && buf.Length == MultiSize(hosts, user)
    ensures len <= buf.Length && buf[..len] == Multi(hosts, user)
    ensures hosts != [] ==> len < buf.Length && buf[len] == '\0'
  {
    var size := 0;
    for i := 0 to |hosts|
      invariant size == MultiSize(hosts[..i], user)
    {
      MultiSizeStep(hosts, user, i);
      size := size + |hosts[i].addr| + |user| + MAX_PORT_SIZE + 3;
    }
    assert hosts[..|hosts|] == hosts;
    buf := new char[size](_ => '\0');
    len := 0;
    for i := 0 to |hosts|
      invariant len <= buf.Length && buf[..len] == Written(hosts, user, i)
      invariant i == |hosts| > 0 ==> len < buf.Length && buf[len] == '\0'
    {
      WrittenFits(hosts, user, i + 1);
      MultiSizeMonotone(hosts, user, i + 1);
      var last := i == |hosts| - 1;
      ghost var text := Single(hosts[i], user) + (if last then "" else ";");
      assert Written(hosts, user, i + 1) == Written(hosts, user, i) + text;
      len := AppendHost(buf, len, hosts[i], user, last);
    }
    WrittenIsMulti(hosts, user);
  }
}
