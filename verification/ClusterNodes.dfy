/**
  Node list of a cluster, read from the two info responses `service\taddr:port\n` and
  `services\taddr:port;addr:port\n`: one buffer each, walked with changing delimiters.
 */
module ClusterNodes {
  import opened Wrappers
  import opened Strtok

  const TAB: Delims := {'\t'}
  const COLON: Delims := {':'}
  const SEMI: Delims := {';'}
  const NEWLINE: Delims := {'\n'}
  const MAX_HOST_COUNT := 128

  /** An entry of the result array, appended before its fields are known. */
  datatype Node = Node(addr: Option<string>, port: Option<string>)

  /** `Undefined`: the length of a null token is taken, the slot array is overrun, or the node list is
      released before it has been set, as every exit before the peer loop does. */
  datatype Status = Ok | Failed | Undefined

  datatype Report = Report(status: Status, nodes: seq<Node>)

  /** Address and port of the answering node; the entry is appended before either is known. */
  function Self(s: string): Report {
    match Next(s, COLON)
    case NoToken => Report(Undefined, [Node(None, None)])
    case Token(addr, r) =>
      match Next(r, NEWLINE)
      case NoToken => Report(Undefined, [Node(Some(addr), None)])
      case Token(port, _) => Report(Ok, [Node(Some(addr), Some(port))])
  }

  function Service(s: string): Report {
    match Next(s, TAB)
    case NoToken => Report(Undefined, [Node(None, None)])
    case Token(_, r) => Self(r)
  }

  function Cons(n: Node, r: Report): Report {
    Report(r.status, [n] + r.nodes)
  }

  /** One round of the peer loop: it ends the scan or yields a node and the rest. */
  datatype Round = Stop(report: Report) | More(node: Node, rest: string)

  function PeerRound(s: string, slot: nat): (r: Round)
    ensures r.More? ==> |r.rest| < |s|
  {
    match Next(s, COLON)
    case NoToken => Stop(Report(Ok, []))
    case Token(addr, r) => if slot >= MAX_HOST_COUNT then Stop(Report(Undefined, [])) else PortRound(addr, r)
  }

  /** The port token is cut at `;`; if it holds the end of the response it is cut again there and the scan ends. */
  function PortRound(addr: string, s: string): (r: Round)
    ensures r.More? ==> |r.rest| < |s|
  {
    match Next(s, SEMI)
    case NoToken => Stop(Report(Failed, [Node(Some(addr), None)]))
    case Token(port, r) => if '\n' in port then Stop(LastPort(addr, port)) else More(Node(Some(addr), Some(port)), r)
  }

  function LastPort(addr: string, port: string): Report {
    match Next(port, NEWLINE)
    case NoToken => Report(Undefined, [Node(Some(addr), None)])
    case Token(first, _) => Report(Ok, [Node(Some(addr), Some(first))])
  }

  function Peers(s: string, slot: nat): Report
    decreases |s|
  {
    match PeerRound(s, slot)
    case Stop(r) => r
    case More(node, rest) => Cons(node, Peers(rest, slot + 1))
  }

  function Nodes(service: string, services: string, nNodes: nat): Report {
    var self := Service(service);
    if self.status != Ok then self
    else
      match Next(services, TAB)
      case NoToken => self
      case Token(_, r) => if nNodes > 1 then Cons(self.nodes[0], Peers(r, 1)) else self
  }

  // ----- round trip

  datatype Peer = Peer(addr: string, port: string)

  function PrintPeers(ps: seq<Peer>): string {
    if ps == [] then "\n"
    else ps[0].addr + ":" + ps[0].port + (if |ps| == 1 then "\n" else ";" + PrintPeers(ps[1..]))
  }

  function PrintService(p: Peer): string {
    "service\t" + p.addr + ":" + p.port + "\n"
  }

  function PrintServices(ps: seq<Peer>): string {
    "services\t" + PrintPeers(ps)
  }

  predicate Clean(p: Peer) {
    p.addr != "" && ':' !in p.addr && p.port != "" && ';' !in p.port && '\n' !in p.port
  }

  function AsNode(p: Peer): Node {
    Node(Some(p.addr), Some(p.port))
  }

  function AsNodes(ps: seq<Peer>): seq<Node> {
    if ps == [] then [] else [AsNode(ps[0])] + AsNodes(ps[1..])
  }

  lemma LastRound(p: Peer, slot: nat)
    requires Clean(p) && slot < MAX_HOST_COUNT
    ensures PeerRound(p.addr + ":" + p.port + "\n", slot) == Stop(Report(Ok, [AsNode(p)]))
  {
    hide Next;
    var port := p.port + "\n";
    assert p.addr + ":" + p.port + "\n" == p.addr + [':'] + port;
    NextOfField(p.addr, ':', port, COLON);
    NextOfLastField(port, SEMI);
    assert port[|p.port|] == '\n';
    assert port == p.port + ['\n'] + "";
    NextOfField(p.port, '\n', "", NEWLINE);
  }

  lemma MiddleRound(p: Peer, rest: string, slot: nat)
    requires Clean(p) && slot < MAX_HOST_COUNT
    ensures PeerRound(p.addr + ":" + p.port + ";" + rest, slot) == More(AsNode(p), rest)
  {
    hide Next;
    var more := p.port + [';'] + rest;
    assert p.addr + ":" + p.port + ";" + rest == p.addr + [':'] + more;
    NextOfField(p.addr, ':', more, COLON);
    NextOfField(p.port, ';', rest, SEMI);
  }

  lemma FullRound(p: Peer, rest: string, slot: nat)
    requires Clean(p) && slot >= MAX_HOST_COUNT
    ensures PeerRound(p.addr + ":" + rest, slot) == Stop(Report(Undefined, []))
  {
    hide Next;
    assert p.addr + ":" + rest == p.addr + [':'] + rest;
    NextOfField(p.addr, ':', rest, COLON);
  }

  /** What a printed peer list reads as, slot by slot. */
  function Expected(ps: seq<Peer>, slot: nat): Report {
    if ps == [] then Report(Ok, [])
    else if slot >= MAX_HOST_COUNT then Report(Undefined, [])
    else if |ps| == 1 then Report(Ok, [AsNode(ps[0])])
    else Cons(AsNode(ps[0]), Expected(ps[1..], slot + 1))
  }

  lemma {:induction false} PeersOfPrint(ps: seq<Peer>, slot: nat)
    requires ps != [] && forall p :: p in ps ==> Clean(p)
    ensures Peers(PrintPeers(ps), slot) == Expected(ps, slot)
  {
    hide PeerRound;
    var p := ps[0];
    if slot >= MAX_HOST_COUNT {
      var tail := p.port + (if |ps| == 1 then "\n" else ";" + PrintPeers(ps[1..]));
      assert PrintPeers(ps) == p.addr + ":" + tail;
      FullRound(p, tail, slot);
    } else if |ps| == 1 {
      LastRound(p, slot);
      assert PrintPeers(ps) == p.addr + ":" + p.port + "\n";
    } else {
      MiddleRound(p, PrintPeers(ps[1..]), slot);
      assert PrintPeers(ps) == p.addr + ":" + p.port + ";" + PrintPeers(ps[1..]);
      PeersOfPrint(ps[1..], slot + 1);
    }
  }

  /** All peers come back, in order, exactly when every one of them still has a slot. */
  lemma {:induction false} ExpectedIff(ps: seq<Peer>, slot: nat)
    requires ps != [] && slot <= MAX_HOST_COUNT
    ensures if slot + |ps| <= MAX_HOST_COUNT then Expected(ps, slot) == Report(Ok, AsNodes(ps)) else Expected(ps, slot).status == Undefined
  {
    if |ps| == 1 {
      assert AsNodes(ps[1..]) == [];
    } else if slot < MAX_HOST_COUNT {
      ExpectedIff(ps[1..], slot + 1);
    }
  }

  lemma ServiceOfPrint(p: Peer)
    requires Clean(p)
    ensures Service(PrintService(p)) == Report(Ok, [AsNode(p)])
  {
    hide Next;
    var r := p.addr + [':'] + (p.port + ['\n'] + "");
    assert PrintService(p) == "service" + ['\t'] + r;
    NextOfField("service", '\t', r, TAB);
    NextOfField(p.addr, ':', p.port + ['\n'] + "", COLON);
    NextOfField(p.port, '\n', "", NEWLINE);
  }

  lemma NodesOfPrint(self: Peer, body: string, nNodes: nat)
    requires Clean(self) && nNodes > 1 && body != ""
    ensures Nodes(PrintService(self), "services\t" + body, nNodes) == Cons(AsNode(self), Peers(body, 1))
  {
    hide Service, Peers, Next, PrintService;
    ServiceOfPrint(self);
    assert "services\t" + body == "services" + ['\t'] + body;
    NextOfField("services", '\t', body, TAB);
  }

  /** The service response holds, as the standard cuts it, a tag, an address and a port. */
  ghost predicate HasSelf(s: string, tag: string, r1: string, addr: string, r2: string, port: string, r3: string) {
    TokenOf(s, TAB, tag, r1) && TokenOf(r1, COLON, addr, r2) && TokenOf(r2, NEWLINE, port, r3)
  }

  /** On every pair of responses: the call is undefined as soon as the service response lacks its address or
      port, and otherwise reports just these first. */
  lemma SelfIff(service: string, services: string, nNodes: nat)
    ensures Service(service).status == Ok <==> exists tag, r1, addr, r2, port, r3 :: HasSelf(service, tag, r1, addr, r2, port, r3)
    ensures Service(service).status != Ok ==> Nodes(service, services, nNodes).status == Undefined
    ensures forall tag, r1, addr, r2, port, r3 :: HasSelf(service, tag, r1, addr, r2, port, r3) ==>
              Nodes(service, services, nNodes).nodes != [] && Nodes(service, services, nNodes).nodes[0] == Node(Some(addr), Some(port))
  {
    hide Next, Peers;
    forall tag, r1, addr, r2, port, r3 | HasSelf(service, tag, r1, addr, r2, port, r3)
      ensures Service(service) == Report(Ok, [Node(Some(addr), Some(port))])
    {
      NextIsToken(service, TAB, tag, r1);
      NextIsToken(r1, COLON, addr, r2);
      NextIsToken(r2, NEWLINE, port, r3);
    }
    if Service(service).status == Ok {
      var t1 := Next(service, TAB);
      var t2 := Next(t1.rest, COLON);
      var t3 := Next(t2.rest, NEWLINE);
      NextIsToken(service, TAB, t1.text, t1.rest);
      NextIsToken(t1.rest, COLON, t2.text, t2.rest);
      NextIsToken(t2.rest, NEWLINE, t3.text, t3.rest);
      assert HasSelf(service, t1.text, t1.rest, t2.text, t2.rest, t3.text, t3.rest);
    }
  }

  /** A printed answer of a cluster of several nodes is read back as self followed by the peers, in order,
      if and only if there are 1 to 127 peers. Beyond that the slot array is overrun; without peers the
      newline is read as an address. */
  lemma RoundTripIff(self: Peer, ps: seq<Peer>, nNodes: nat)
    requires Clean(self) && (forall p :: p in ps ==> Clean(p)) && nNodes > 1
    ensures Nodes(PrintService(self), PrintServices(ps), nNodes) == Report(Ok, AsNodes([self] + ps)) <==> 1 <= |ps| <= 127
    ensures |ps| > 127 ==> Nodes(PrintService(self), PrintServices(ps), nNodes).status == Undefined
    ensures ps == [] ==> Nodes(PrintService(self), PrintServices(ps), nNodes) == Report(Failed, [AsNode(self), Node(Some("\n"), None)])
  {
    hide Next, Nodes, Peers, PrintService;
    NodesOfPrint(self, PrintPeers(ps), nNodes);
    if ps == [] {
      NoPeers(1);
    } else {
      PeersOfPrint(ps, 1);
      ExpectedIff(ps, 1);
      assert ([self] + ps)[1..] == ps;
    }
  }

  lemma NoPeers(slot: nat)
    requires slot < MAX_HOST_COUNT
    ensures Peers("\n", slot) == Report(Failed, [Node(Some("\n"), None)])
  {
    hide Next;
    NextOfLastField("\n", COLON);
    assert Next("", SEMI) == NoToken by {
      NextMeetsStandard("", SEMI);
    }
    assert PeerRound("\n", slot) == Stop(Report(Failed, [Node(Some("\n"), None)]));
  }

  /** A single-node cluster reports itself alone, whatever the peer response says. */
  lemma SingleNode(self: Peer, services: string)
    requires Clean(self)
    ensures Nodes(PrintService(self), services, 1) == Report(Ok, AsNodes([self]))
  {
    ServiceOfPrint(self);
  }

  // ----- any response

  /** The peer loop on any text, as the standard cuts it: where it ends, and with what. */
  lemma PeersCases(s: string, slot: nat)
    ensures (forall c :: c in s ==> c == ':') ==> Peers(s, slot) == Report(Ok, [])
    ensures forall addr, r :: TokenOf(s, COLON, addr, r) && slot >= 128 ==> Peers(s, slot) == Report(Undefined, [])
    ensures forall addr, r :: TokenOf(s, COLON, addr, r) && slot < 128 && (forall c :: c in r ==> c == ';') ==>
              Peers(s, slot) == Report(Failed, [Node(Some(addr), None)])
    ensures forall addr, r, port, rest :: TokenOf(s, COLON, addr, r) && TokenOf(r, SEMI, port, rest) && slot < 128 && '\n' !in port ==>
              Peers(s, slot).status == Peers(rest, slot + 1).status
              && Peers(s, slot).nodes == [Node(Some(addr), Some(port))] + Peers(rest, slot + 1).nodes
    ensures forall addr, r, port, rest, first, z ::
              TokenOf(s, COLON, addr, r) && TokenOf(r, SEMI, port, rest) && slot < 128 && '\n' in port && TokenOf(port, NEWLINE, first, z) ==>
              Peers(s, slot) == Report(Ok, [Node(Some(addr), Some(first))])
    ensures forall addr, r, port, rest ::
              TokenOf(s, COLON, addr, r) && TokenOf(r, SEMI, port, rest) && slot < 128 && port != "" && (forall c :: c in port ==> c == '\n') ==>
              Peers(s, slot) == Report(Undefined, [Node(Some(addr), None)])
  {
    hide Next, TokenOf;
    NextMeetsStandard(s, COLON);
    var t := Next(s, COLON);
    forall addr, r ensures t == Token(addr, r) <==> TokenOf(s, COLON, addr, r) {
      NextIsToken(s, COLON, addr, r);
    }
    if t.Token? {
      NextMeetsStandard(t.rest, SEMI);
      var u := Next(t.rest, SEMI);
      forall port, rest ensures u == Token(port, rest) <==> TokenOf(t.rest, SEMI, port, rest) {
        NextIsToken(t.rest, SEMI, port, rest);
      }
      if u.Token? {
        NextMeetsStandard(u.text, NEWLINE);
        assert u.text != "" && (forall c :: c in u.text ==> c == '\n') ==> u.text[0] in u.text;
        forall first, z ensures Next(u.text, NEWLINE) == Token(first, z) <==> TokenOf(u.text, NEWLINE, first, z) {
          NextIsToken(u.text, NEWLINE, first, z);
        }
      }
    }
  }

  /** Peers are read exactly when there are several nodes and the response goes on after a tag. */
  lemma NodesCases(service: string, services: string, nNodes: nat)
    requires Service(service).status == Ok
    ensures nNodes <= 1 || (forall c :: c in services ==> c == '\t') ==> Nodes(service, services, nNodes) == Service(service)
    ensures forall tag, r :: nNodes > 1 && TokenOf(services, TAB, tag, r) ==>
              Nodes(service, services, nNodes).status == Peers(r, 1).status
              && Nodes(service, services, nNodes).nodes == [Service(service).nodes[0]] + Peers(r, 1).nodes
  {
    hide Next, TokenOf, Peers;
    NextMeetsStandard(services, TAB);
    forall tag, r ensures Next(services, TAB) == Token(tag, r) <==> TokenOf(services, TAB, tag, r) {
      NextIsToken(services, TAB, tag, r);
    }
  }

  // ----- the parser

  /** `aerospike_info_get_cluster_nodes` once both info calls have answered. */
  method GetClusterNodes(service: string, services: string, nNodes: nat) returns (status: Status, nodes: seq<Node>)
    requires NUL !in service && NUL !in services
    ensures Report(status, nodes) == Nodes(service, services, nNodes)
  {
    status, nodes := ReadService(service);
    if status != Ok {
      return;
    }
    var buf := Copy(services);
    var text, saved := NextToken(buf, 0, TAB);
    if text.Some? && nNodes > 1 {
      var peers;
      status, peers := ReadPeers(buf, saved);
      nodes := nodes + peers;
    }
  }

  method ReadService(service: string) returns (status: Status, nodes: seq<Node>)
    requires NUL !in service
    ensures Report(status, nodes) == Service(service)
  {
    var buf := Copy(service);
    var text, saved := NextToken(buf, 0, TAB);
    if text.None? {
      return Undefined, [Node(None, None)];
    }
    status, nodes := ReadSelf(buf, saved);
  }

  method ReadSelf(buf: array<char>, from: nat) returns (status: Status, nodes: seq<Node>)
    requires from < buf.Length && buf[buf.Length - 1] == NUL
    modifies buf
    ensures Report(status, nodes) == Self(CStr(old(buf[..]), from))
  {
    hide CStr, Next;
    var addr, saved := NextToken(buf, from, COLON);
    if addr.None? {
      return Undefined, [Node(None, None)];
    }
    var port, _ := NextToken(buf, saved, NEWLINE);
    return if port.None? then Undefined else Ok, [Node(addr, port)];
  }

  function Append(ns: seq<Node>, r: Report): Report {
    Report(r.status, ns + r.nodes)
  }

  method ReadPeers(buf: array<char>, from: nat) returns (status: Status, nodes: seq<Node>)
    requires from < buf.Length && buf[buf.Length - 1] == NUL
    modifies buf
    ensures Report(status, nodes) == Peers(CStr(old(buf[..]), from), 1)
  {
    hide PeerRound, CStr;
    ghost var want := Peers(CStr(buf[..], from), 1);
    var saved: nat := from;
    var slot := 1;
    nodes := [];
    while true
      invariant saved < buf.Length && buf[buf.Length - 1] == NUL
      invariant Append(nodes, Peers(CStr(buf[..], saved), slot)) == want
      decreases |CStr(buf[..], saved)|
    {
      var last, more;
      last, status, more, saved := ReadPeer(buf, saved, slot);
      nodes := nodes + more;
      if last {
        return;
      }
      slot := slot + 1;
    }
  }

  method ReadPeer(buf: array<char>, from: nat, slot: nat) returns (last: bool, status: Status, nodes: seq<Node>, saved: nat)
    requires from < buf.Length && buf[buf.Length - 1] == NUL
    modifies buf
    ensures saved < buf.Length && buf[buf.Length - 1] == NUL
    ensures last ==> PeerRound(CStr(old(buf[..]), from), slot) == Stop(Report(status, nodes))
    ensures !last ==> |nodes| == 1 && PeerRound(CStr(old(buf[..]), from), slot) == More(nodes[0], CStr(buf[..], saved))
  {
    var addr;
    addr, saved := NextToken(buf, from, COLON);
    if addr.None? {
      return true, Ok, [], saved;
    }
    if slot >= MAX_HOST_COUNT {
      return true, Undefined, [], saved;
    }
    last, status, nodes, saved := ReadPort(buf, saved, addr.value);
  }

  method ReadPort(buf: array<char>, from: nat, addr: string) returns (last: bool, status: Status, nodes: seq<Node>, saved: nat)
    requires from < buf.Length && buf[buf.Length - 1] == NUL
    modifies buf
    ensures saved < buf.Length && buf[buf.Length - 1] == NUL
    ensures last ==> PortRound(addr, CStr(old(buf[..]), from)) == Stop(Report(status, nodes))
    ensures !last ==> |nodes| == 1 && PortRound(addr, CStr(old(buf[..]), from)) == More(nodes[0], CStr(buf[..], saved))
  {
    var found, tok;
    found, tok, saved := StrtokR(buf, from, SEMI);
    if !found {
      return true, Failed, [Node(Some(addr), None)], saved;
    }
    var port := CStr(buf[..], tok);
    if '\n' !in port {
      return false, Ok, [Node(Some(addr), Some(port))], saved;
    }
    // the token is cut again in place; `saved` now points into it, but the loop ends
    var first;
    first, saved := NextToken(buf, tok, NEWLINE);
    return true, if first.None? then Undefined else Ok, [Node(Some(addr), first)], saved;
  }
}
