/** The session save path `namespace|set|addr:port,addr:port,…`: parser, printer and their round trip. */
module SavePath {
  import opened Wrappers
  import opened Decimal
  import opened HostAlias
  import opened Strtok

  const BAR: Delims := {'|'}
  const COLON: Delims := {':'}
  const COMMA: Delims := {','}

  datatype Parsed = Parsed(ns: string, setName: string, hosts: seq<Host>)

  /** Sizes of the buffers for namespace and set, terminator included, and of the host array. */
  datatype Sizes = Sizes(ns: nat, setName: nat, hosts: nat)

  /** `Undefined`: a buffer or the host array is written beyond its end. */
  datatype Result = Ok(parsed: Parsed) | Failed | Undefined

  datatype HostScan = Scanned(hosts: seq<Host>) | Overrun

  /** `atoi` into the 16-bit port field. */
  function Port(text: string): (p: nat)
    ensures p < 65536 && (Atoi(text) - p) % 65536 == 0
  {
    Atoi(text) % 65536
  }

  /** The host loop with `room` entries left: an address is stored before its port is known. */
  function Fill(s: string, room: nat): HostScan
    decreases |s|
  {
    match Next(s, COLON)
    case NoToken => Scanned([])
    case Token(addr, r) =>
      if room == 0 then Overrun
      else
        match Next(r, COMMA)
        case NoToken => Scanned([])
        case Token(port, r') => Before([Host(addr, Port(port))], Fill(r', room - 1))
  }

  function Before(hosts: seq<Host>, r: HostScan): HostScan {
    match r
    case Overrun => Overrun
    case Scanned(more) => Scanned(hosts + more)
  }

  function Parse(path: string, sizes: Sizes): Result {
    match Next(path, BAR)
    case NoToken => Failed
    case Token(ns, r) =>
      if |ns| >= sizes.ns then Undefined
      else
        match Next(r, BAR)
        case NoToken => Failed
        case Token(setName, r') => if |setName| >= sizes.setName then Undefined else Finish(ns, setName, Fill(r', sizes.hosts))
  }

  function Finish(ns: string, setName: string, scan: HostScan): Result {
    match scan
    case Overrun => Undefined
    case Scanned(hosts) => if hosts == [] then Failed else Ok(Parsed(ns, setName, hosts))
  }

  // ----- what a path holds, without buffers

  /** The complete address/port pairs at the front of `s`; whatever is left is ignored. */
  function Pairs(s: string): seq<Host>
    decreases |s|
  {
    match Next(s, COLON)
    case NoToken => []
    case Token(addr, r) =>
      match Next(r, COMMA)
      case NoToken => []
      case Token(port, r') => [Host(addr, Port(port))] + Pairs(r')
  }

  /** Addresses stored: one for each pair, and one more if the last address has no port. */
  function Addresses(s: string): nat
    decreases |s|
  {
    match Next(s, COLON)
    case NoToken => 0
    case Token(addr, r) =>
      match Next(r, COMMA)
      case NoToken => 1
      case Token(port, r') => 1 + Addresses(r')
  }

  lemma {:induction false} AddressCount(s: string)
    ensures |Pairs(s)| <= Addresses(s) <= |Pairs(s)| + 1
    decreases |s|
  {
    hide Port;
    if Next(s, COLON).Token? && Next(Next(s, COLON).rest, COMMA).Token? {
      AddressCount(Next(Next(s, COLON).rest, COMMA).rest);
    }
  }

  /** The loop stays inside the array exactly when the addresses fit, and then counts exactly the complete pairs. */
  lemma {:induction false} FillIff(s: string, room: nat)
    ensures Fill(s, room) == if Addresses(s) <= room then Scanned(Pairs(s)) else Overrun
    decreases |s|
  {
    hide Port;
    if Next(s, COLON).Token? && Next(Next(s, COLON).rest, COMMA).Token? && room > 0 {
      FillIff(Next(Next(s, COLON).rest, COMMA).rest, room - 1);
    }
  }

  /** Namespace and set, cut off the front as the standard cuts them. */
  ghost predicate HasNames(path: string, ns: string, r1: string, setName: string, r2: string) {
    TokenOf(path, BAR, ns, r1) && TokenOf(r1, BAR, setName, r2)
  }

  ghost predicate HasPair(s: string, addr: string, r: string, port: string, r': string) {
    TokenOf(s, COLON, addr, r) && TokenOf(r, COMMA, port, r')
  }

  lemma NamesAre(path: string, ns: string, r1: string, setName: string, r2: string)
    ensures HasNames(path, ns, r1, setName, r2) <==> Next(path, BAR) == Token(ns, r1) && Next(r1, BAR) == Token(setName, r2)
  {
    NextIsToken(path, BAR, ns, r1);
    NextIsToken(r1, BAR, setName, r2);
  }

  lemma PairIs(s: string, addr: string, r: string, port: string, r': string)
    ensures HasPair(s, addr, r, port, r') <==> Next(s, COLON) == Token(addr, r) && Next(r, COMMA) == Token(port, r')
    ensures HasPair(s, addr, r, port, r') ==> Pairs(s) == [Host(addr, Port(port))] + Pairs(r')
  {
    NextIsToken(s, COLON, addr, r);
    NextIsToken(r, COMMA, port, r');
  }

  lemma HasPairIff(s: string)
    ensures Pairs(s) != [] <==> exists addr, r, port, r' :: HasPair(s, addr, r, port, r')
  {
    hide Next, Port;
    if addr, r, port, r' :| HasPair(s, addr, r, port, r') {
      PairIs(s, addr, r, port, r');
    }
    if Pairs(s) != [] {
      var t := Next(s, COLON);
      var u := Next(t.rest, COMMA);
      PairIs(s, t.text, t.rest, u.text, u.rest);
    }
  }

  /** On every string that holds a namespace and a set: which of the three outcomes it is, and what is parsed. */
  lemma NamedIff(path: string, sizes: Sizes, ns: string, r1: string, setName: string, r2: string)
    requires HasNames(path, ns, r1, setName, r2)
    ensures Parse(path, sizes).Undefined? <==> |ns| >= sizes.ns || |setName| >= sizes.setName || Addresses(r2) > sizes.hosts
    ensures Parse(path, sizes).Ok? <==>
              |ns| < sizes.ns && |setName| < sizes.setName && Addresses(r2) <= sizes.hosts
              && exists addr, r, port, r' :: HasPair(r2, addr, r, port, r')
    ensures Parse(path, sizes).Ok? ==> Parse(path, sizes).parsed == Parsed(ns, setName, Pairs(r2))
  {
    hide Next, Fill, Pairs, Addresses;
    NamesAre(path, ns, r1, setName, r2);
    FillIff(r2, sizes.hosts);
    HasPairIff(r2);
  }

  /** On every other string it fails, or overruns the namespace buffer. */
  lemma UnnamedIff(path: string, sizes: Sizes)
    requires forall ns, r1, setName, r2 :: !HasNames(path, ns, r1, setName, r2)
    ensures Parse(path, sizes).Failed? <==> forall ns, r1 :: TokenOf(path, BAR, ns, r1) ==> |ns| < sizes.ns
    ensures !Parse(path, sizes).Failed? ==> Parse(path, sizes).Undefined?
  {
    hide Next, Fill;
    var t := Next(path, BAR);
    forall ns, r1 ensures TokenOf(path, BAR, ns, r1) <==> t == Token(ns, r1) {
      NextIsToken(path, BAR, ns, r1);
    }
    if t.Token? && Next(t.rest, BAR).Token? {
      var u := Next(t.rest, BAR);
      NamesAre(path, t.text, t.rest, u.text, u.rest);
      assert false;
    }
    if t.Token? {
      assert TokenOf(path, BAR, t.text, t.rest);
    }
  }

  // ----- round trip

  function PrintHosts(hosts: seq<Host>): string {
    if hosts == [] then ""
    else hosts[0].addr + ":" + Print(hosts[0].port) + (if |hosts| == 1 then "" else "," + PrintHosts(hosts[1..]))
  }

  function PrintPath(p: Parsed): string {
    p.ns + "|" + p.setName + "|" + PrintHosts(p.hosts)
  }

  predicate Printable(hosts: seq<Host>) {
    forall h :: h in hosts ==> h.addr != "" && ':' !in h.addr && h.port < 65536
  }

  lemma PortOfPrint(n: nat)
    requires n < 65536
    ensures Port(Print(n)) == n
  {
    AtoiOfDigits(Print(n));
    ValueOfPrint(n);
  }

  /** One printed pair, last or followed by more, is cut off as it was printed. */
  lemma FirstPair(h: Host, last: bool, rest: string)
    requires h.addr != "" && ':' !in h.addr && (last ==> rest == "")
    ensures var s := h.addr + ":" + Print(h.port) + (if last then "" else "," + rest);
            && Next(s, COLON).Token? && Next(s, COLON).text == h.addr
            && Next(Next(s, COLON).rest, COMMA) == Token(Print(h.port), rest)
  {
    hide Next;
    var port := Print(h.port);
    var tail := port + (if last then "" else [','] + rest);
    assert h.addr + ":" + port + (if last then "" else "," + rest) == h.addr + [':'] + tail;
    NextOfField(h.addr, ':', tail, COLON);
    if last {
      assert tail == port;
      NextOfLastField(port, COMMA);
    } else {
      assert tail == port + [','] + rest;
      NextOfField(port, ',', rest, COMMA);
    }
  }

  lemma {:induction false} PairsOfPrint(hosts: seq<Host>)
    requires Printable(hosts)
    ensures Pairs(PrintHosts(hosts)) == hosts && Addresses(PrintHosts(hosts)) == |hosts|
  {
    hide Next, Print, Port;
    if hosts == [] {
      assert Next("", COLON) == NoToken by {
        NextMeetsStandard("", COLON);
      }
    } else {
      FirstPair(hosts[0], |hosts| == 1, PrintHosts(hosts[1..]));
      PortOfPrint(hosts[0].port);
      PairsOfPrint(hosts[1..]);
    }
  }

  /** Parsing a printed path gives the same namespace, set and host list back if and only if they fit their
      buffers; otherwise one of these is overrun. */
  lemma RoundTripIff(p: Parsed, sizes: Sizes)
    requires p.ns != "" && '|' !in p.ns && p.setName != "" && '|' !in p.setName
    requires p.hosts != [] && Printable(p.hosts)
    ensures Parse(PrintPath(p), sizes) ==
            if |p.ns| < sizes.ns && |p.setName| < sizes.setName && |p.hosts| <= sizes.hosts then Ok(p) else Undefined
  {
    hide Next, Fill, Pairs, Addresses;
    var hosts := PrintHosts(p.hosts);
    assert PrintPath(p) == p.ns + ['|'] + (p.setName + ['|'] + hosts);
    NextOfField(p.ns, '|', p.setName + ['|'] + hosts, BAR);
    NextOfField(p.setName, '|', hosts, BAR);
    PairsOfPrint(p.hosts);
    FillIff(hosts, sizes.hosts);
  }

  // ----- the parser

  class SessionConfig {
    const ns: array<char>        // session_p->ns_p
    const setName: array<char>   // session_p->set_p
    const hosts: array<Host>     // config_p->hosts
    var hostsSize: nat           // config_p->hosts_size

    constructor (sizes: Sizes)
      ensures Separate() && fresh(ns) && fresh(setName) && fresh(hosts) && Capacities() == sizes && hostsSize == 0
    {
      ns, setName := new char[sizes.ns](_ => NUL), new char[sizes.setName](_ => NUL);
      hosts := new Host[sizes.hosts](_ => Host("", 0));
      hostsSize := 0;
    }

    function Capacities(): Sizes {
      Sizes(ns.Length, setName.Length, hosts.Length)
    }

    ghost predicate Separate() {
      ns != setName
    }

    /** `as_config_init` and `parse_save_path` on a copy of the path, which stops in front of the first write
        that would leave its buffer. A failed parse has stored what it has read. */
    method ParseSavePath(path: string) returns (status: Status)
      requires NUL !in path && Separate()
      modifies this, ns, setName, hosts
      ensures status == StatusOf(Parse(path, Capacities()))
      ensures status == Complete ==>
                && hostsSize <= hosts.Length && hosts[..hostsSize] == Parse(path, Capacities()).parsed.hosts
                && Holds(ns[..], Parse(path, Capacities()).parsed.ns) && Holds(setName[..], Parse(path, Capacities()).parsed.setName)
      ensures status == Rejected ==> hostsSize == 0
      ensures Next(path, BAR).NoToken? ==> ns[..] == old(ns[..]) && setName[..] == old(setName[..])
      ensures status == Rejected && Next(path, BAR).Token? ==> Holds(ns[..], Next(path, BAR).text)
    {
      hide CStr, Next, Fill;
      hostsSize := 0;
      var buf := Copy(path);
      var text, saved := NextToken(buf, 0, BAR);
      if text.None? {
        return Rejected;
      }
      if |text.value| >= ns.Length {
        return Overran;
      }
      var _ := Strcat(ns, 0, text.value);
      text, saved := NextToken(buf, saved, BAR);
      if text.None? {
        return Rejected;
      }
      if |text.value| >= setName.Length {
        return Overran;
      }
      var _ := Strcat(setName, 0, text.value);
      var overran := ParseHosts(buf, saved);
      status := if overran then Overran else if hostsSize == 0 then Rejected else Complete;
    }

    /** The host loop: the address is stored, and the host counted once its port is. */
    method ParseHosts(buf: array<char>, from: nat) returns (overran: bool)
      requires from < buf.Length && buf[buf.Length - 1] == NUL && hostsSize == 0 && buf != ns && buf != setName
      modifies this`hostsSize, hosts, buf
      ensures overran <==> Fill(CStr(old(buf[..]), from), hosts.Length).Overrun?
      ensures !overran ==> hostsSize <= hosts.Length && Fill(CStr(old(buf[..]), from), hosts.Length) == Scanned(hosts[..hostsSize])
    {
      hide CStr, Next, Port;
      ghost var all := Fill(CStr(buf[..], from), hosts.Length);
      var saved: nat := from;
      BeforeNothing(all);
      while true
        invariant saved < buf.Length && buf[buf.Length - 1] == NUL
        invariant hostsSize <= hosts.Length
        invariant Before(hosts[..hostsSize], Fill(CStr(buf[..], saved), hosts.Length - hostsSize)) == all
        decreases |CStr(buf[..], saved)|
      {
        ghost var rest := Fill(CStr(buf[..], saved), hosts.Length - hostsSize);
        var addr, port;
        addr, saved := NextToken(buf, saved, COLON);
        if addr.None? {
          return false;
        }
        if hostsSize == hosts.Length {
          return true;
        }
        hosts[hostsSize] := hosts[hostsSize].(addr := addr.value);
        port, saved := NextToken(buf, saved, COMMA);
        if port.None? {
          return false;
        }
        hosts[hostsSize] := hosts[hostsSize].(port := Port(port.value));
        BeforeTwice(hosts[..hostsSize], hosts[hostsSize], Fill(CStr(buf[..], saved), hosts.Length - hostsSize - 1));
        hostsSize := hostsSize + 1;
        assert hosts[..hostsSize] == hosts[..hostsSize - 1] + [hosts[hostsSize - 1]];
      }
    }
  }

  lemma BeforeNothing(r: HostScan)
    ensures Before([], r) == r
  {
    assert r.Scanned? ==> [] + r.hosts == r.hosts;
  }

  lemma BeforeTwice(hosts: seq<Host>, h: Host, r: HostScan)
    ensures Before(hosts, Before([h], r)) == Before(hosts + [h], r)
  {
    assert r.Scanned? ==> hosts + ([h] + r.hosts) == hosts + [h] + r.hosts;
  }

  /** How a call ends. */
  datatype Status = Complete | Rejected | Overran

  function StatusOf(r: Result): Status {
    match r
    case Ok(_) => Complete
    case Failed => Rejected
    case Undefined => Overran
  }

  /** The buffer holds the text and a terminator. */
  ghost predicate Holds(b: seq<char>, text: string) {
    |text| < |b| && b[..|text|] == text && b[|text|] == NUL
  }
}
