/**
  The persistent-connection registry as a transition system over values.

  `R` names the heap cells (`aerospike_ref`) and `O` the PHP-side holders (`Aerospike_object`).
  A freed cell keeps its record, so that following a dangling pointer is visible: a step that the C
  program could only take by touching freed memory, a null pointer or the destroyed table has no
  successor (`None`).
 */
module RegistrySpec {
  import opened Wrappers
  import opened HostAlias
  import Policy

  /** `aerospike_ref`. `handle` is `as_p != NULL` and `policy` the policy fields of `as_p->config`; `shared`
      and the last four fields are history: how the cell was created, and the library calls and frees that
      reached it. */
  datatype Cell = Cell(shared: bool, handle: bool, policy: Policy.Store, refCount: int, hostsEntry: int,
                       attempts: nat, closes: nat, destroys: nat, frees: nat)

  /** `Aerospike_object`; `session` marks the one inside an `aerospike_session`. */
  datatype Obj<R> = Obj(session: bool, isPersistent: bool, asRef: Option<R>, isConn: bool)

  datatype State<R, O> = State(cells: map<R, Cell>, table: map<string, R>, up: bool, objs: map<O, Obj<R>>)

  /** `policy` is what `set_general_policies` or, for a session, the library alone has put there. */
  datatype Config = Config(hosts: seq<Host>, user: string, useShm: bool, policy: Policy.Store)

  /** The configuration of a session. */
  ghost function SessionConfig(hosts: seq<Host>, library: Policy.Store): Config {
    Config(hosts, "", false, library)
  }

  /** A call on the cluster: the policy it supplies and its options. */
  datatype Request = Request(targets: Policy.Targets, env: Policy.ScanEnv, options: seq<Policy.Opt>)

  /** How far argument checking in the constructor gets. */
  datatype Args = Unparsed | Rejected(persist: bool) | Accepted(persist: bool, cfg: Config)

  datatype Step<R, O> =
    | New(o: O)
    | Construct(o: O, args: Args, fresh_: R, connectOk: bool)
    | IsConnected(o: O, answer: bool)
    | Close(o: O)
    | Reconnect(o: O)
    | Drop(o: O)
    | Call(o: O, request: Request)
    | SessionOpen(o: O, parsed: Option<seq<Host>>, library: Policy.Store, fresh_: R, connectOk: bool)
    | SessionClose(o: O)
    | Teardown(order: seq<string>)

  ghost predicate Live<R, O>(s: State<R, O>, r: R) {
    r in s.cells && s.cells[r].frees == 0
  }

  /** The cell may be followed down to the library handle. */
  ghost predicate Usable<R, O>(s: State<R, O>, r: R) {
    Live(s, r) && s.cells[r].handle
  }

  ghost function NewCell(shared: bool, policy: Policy.Store, hostsEntry: int): Cell {
    Cell(shared, true, policy, 1, hostsEntry, 0, 0, 0, 0)
  }

  function Aliases(cfg: Config): (r: seq<string>)
    ensures |r| == |cfg.hosts|
  {
    seq(|cfg.hosts|, i requires 0 <= i < |cfg.hosts| => Single(cfg.hosts[i], cfg.user))
  }

  /** The first alias of the list that is bound wins. */
  ghost function FindAlias<R>(table: map<string, R>, aliases: seq<string>): Option<R> {
    if aliases == [] then None
    else if aliases[0] in table then Some(table[aliases[0]])
    else FindAlias(table, aliases[1..])
  }

  /** `zend_hash_add` for each alias in turn: an alias already bound keeps its binding. */
  ghost function AddAliases<R>(table: map<string, R>, aliases: seq<string>, r: R): map<string, R>
    decreases |aliases|
  {
    if aliases == [] then table
    else AddAliases(if aliases[0] in table then table else table[aliases[0] := r], aliases[1..], r)
  }

  ghost function SetCell<R, O>(s: State<R, O>, r: R, c: Cell): State<R, O> {
    s.(cells := s.cells[r := c])
  }

  ghost function SetObj<R, O>(s: State<R, O>, o: O, b: Obj<R>): State<R, O> {
    s.(objs := s.objs[o := b])
  }

  ghost function WithPrivate<R, O>(s: State<R, O>, o: O, cfg: Config, r: R): State<R, O>
    requires o in s.objs
  {
    SetObj(SetCell(s, r, NewCell(false, cfg.policy, 0)), o, s.objs[o].(asRef := Some(r)))
  }

  /** The attached holder counts as connected, whatever the state of the connection. Its own configuration is dropped. */
  ghost function WithAttached<R, O>(s: State<R, O>, o: O, r: R): State<R, O>
    requires o in s.objs && r in s.cells
  {
    var c := s.cells[r];
    SetObj(SetCell(s, r, c.(refCount := c.refCount + 1)), o, s.objs[o].(asRef := Some(r), isConn := true))
  }

  ghost function WithShared<R, O>(s: State<R, O>, o: O, cfg: Config, r: R): State<R, O>
    requires o in s.objs
  {
    SetObj(SetCell(s, r, NewCell(true, cfg.policy, |cfg.hosts|)), o, s.objs[o].(asRef := Some(r)))
      .(table := AddAliases(s.table, Aliases(cfg), r))
  }

  /** `aerospike_helper_object_from_alias_hash`: the successor and whether the status is OK.
      Key generation overwrites an earlier error status. */
  ghost function FromAlias<R, O>(s: State<R, O>, o: O, persist: bool, cfg: Config, fresh_: R): (t: Option<(State<R, O>, bool)>)
    requires o in s.objs
    ensures t.Some? ==> o in t.value.0.objs
    ensures t.Some? && cfg.hosts != [] ==> t.value.1 && t.value.0.objs[o].asRef.Some?
  {
    if cfg.hosts == [] then Some((s, cfg.useShm))
    else if !persist then Some((WithPrivate(s, o, cfg, fresh_), true))
    else if !s.up then None
    else
      match FindAlias(s.table, Aliases(cfg))
      case Some(r) => if Live(s, r) then Some((WithAttached(s, o, r), true)) else None
      case None => Some((WithShared(s, o, cfg, fresh_), true))
  }

  /** Connect unless the flag is already set, then set it on success. */
  ghost function ConnectIfNeeded<R, O>(s: State<R, O>, o: O, r: R, connectOk: bool): State<R, O>
    requires o in s.objs && r in s.cells
  {
    var b, c := s.objs[o], s.cells[r];
    if b.isConn then s
    else SetObj(SetCell(s, r, c.(attempts := c.attempts + 1)), o, b.(isConn := connectOk))
  }

  /** What constructor and session share: obtain a cell, then connect through it. */
  ghost function BindAndConnect<R, O>(s: State<R, O>, o: O, persist: bool, cfg: Config, fresh_: R, connectOk: bool): (t: Option<State<R, O>>)
    requires o in s.objs && cfg.hosts != []
    ensures t.Some? ==> o in t.value.objs
  {
    match FromAlias(s, o, persist, cfg, fresh_)
    case None => None
    case Some((s1, _)) =>
      if !Usable(s1, s1.objs[o].asRef.value) then None
      else Some(ConnectIfNeeded(s1, o, s1.objs[o].asRef.value, connectOk))
  }

  /** The call reaches the point where a cell is bound. */
  ghost predicate Binds(args: Args) {
    args.Accepted? && args.cfg.hosts != []
  }

  /** A constructor call that binds nothing. With an empty host list and shared memory the overwritten
      status lets it go on, through whatever pointer the object already holds. */
  ghost function ConstructUnbound<R, O>(s: State<R, O>, o: O, args: Args, connectOk: bool): Option<State<R, O>>
    requires o in s.objs && !Binds(args)
  {
    var b := s.objs[o].(isConn := false);
    match args
    case Unparsed => Some(SetObj(s, o, b))
    case Rejected(persist) => Some(SetObj(s, o, b.(isPersistent := persist)))
    case Accepted(persist, cfg) =>
      var s1 := SetObj(s, o, b.(isPersistent := persist));
      if !cfg.useShm then Some(s1)
      else if b.asRef.None? || !Usable(s1, b.asRef.value) then None
      else Some(ConnectIfNeeded(s1, o, b.asRef.value, connectOk))
  }

  ghost function DoConstruct<R, O>(s: State<R, O>, o: O, args: Args, fresh_: R, connectOk: bool): Option<State<R, O>>
    requires o in s.objs
  {
    if Binds(args) then
      var b := s.objs[o].(isConn := false, isPersistent := args.persist);
      BindAndConnect(SetObj(s, o, b), o, args.persist, args.cfg, fresh_, connectOk)
    else ConstructUnbound(s, o, args, connectOk)
  }

  /** `aerospike_helper_close_php_connection`. */
  ghost function HelperClose(c: Cell): Cell {
    if c.refCount >= 1 then c.(refCount := c.refCount - 1) else c
  }

  ghost predicate CallUndefined(config: Policy.Store, q: Request) {
    var r := Policy.Called(config, q.targets, q.env, q.options);
    r.Stopped? && r.why.Undefined?
  }

  /** The configuration after a call, successful or not. */
  ghost function PolicyAfter(config: Policy.Store, q: Request): Policy.Store {
    Policy.ConfigPart(Policy.Left(Policy.Called(config, q.targets, q.env, q.options)))
  }

  /** A call refuses an unconnected object, and otherwise lays its policy over the configuration of the held
      cell. Of that configuration it can change no more than the options array reaches. */
  ghost function DoCall<R, O>(s: State<R, O>, o: O, q: Request): Option<State<R, O>>
    requires o in s.objs
  {
    var b := s.objs[o];
    if !b.isConn then Some(s)
    else if b.asRef.None? || !Usable(s, b.asRef.value) then None
    else
      var c := s.cells[b.asRef.value];
      if CallUndefined(c.policy, q) then None
      else Some(SetCell(s, b.asRef.value, c.(policy := PolicyAfter(c.policy, q))))
  }

  ghost function DoIsConnected<R, O>(s: State<R, O>, o: O, answer: bool): Option<State<R, O>>
    requires o in s.objs
  {
    var b := s.objs[o];
    if b.asRef.None? then Some(s)
    else if !Live(s, b.asRef.value) then None
    else if !s.cells[b.asRef.value].handle then Some(s)
    else Some(SetObj(s, o, b.(isConn := answer)))
  }

  ghost function DoClose<R, O>(s: State<R, O>, o: O): Option<State<R, O>>
    requires o in s.objs
  {
    var b := s.objs[o];
    if b.asRef.None? then Some(s)
    else if !Live(s, b.asRef.value) then None
    else
      var r := b.asRef.value;
      var c := s.cells[r];
      if !c.handle || !b.isConn || c.refCount < 1 then Some(s)
      else
        var c1 := if b.isPersistent then HelperClose(c) else c.(closes := c.closes + 1, refCount := 0);
        Some(SetObj(SetCell(s, r, c1), o, b.(isConn := false)))
  }

  /** Whatever the library's connect answers, count and flag are set. */
  ghost function DoReconnect<R, O>(s: State<R, O>, o: O): Option<State<R, O>>
    requires o in s.objs
  {
    var b := s.objs[o];
    if b.asRef.None? then Some(s)
    else if !Live(s, b.asRef.value) then None
    else
      var r := b.asRef.value;
      var c := s.cells[r];
      if !c.handle || b.isConn || c.refCount > 0 then Some(s)
      else
        var c1 := if b.isPersistent then c.(refCount := c.refCount + 1) else c.(attempts := c.attempts + 1, refCount := 1);
        Some(SetObj(SetCell(s, r, c1), o, b.(isConn := true)))
  }

  /** A private cell closed if it is counted, destroyed and freed. */
  ghost function Freed(c: Cell): Cell {
    c.(closes := if c.refCount != 0 then c.closes + 1 else c.closes, refCount := 0,
       destroys := c.destroys + 1, handle := false, frees := c.frees + 1)
  }

  /** `Aerospike_object_free_storage`. */
  ghost function DoDrop<R, O>(s: State<R, O>, o: O): Option<State<R, O>>
    requires o in s.objs
  {
    var b := s.objs[o];
    var gone := s.(objs := s.objs - {o});
    if b.isPersistent || b.asRef.None? then Some(gone)
    else if !Usable(s, b.asRef.value) then None
    else Some(SetCell(gone, b.asRef.value, Freed(s.cells[b.asRef.value])))
  }

  /** `PS_OPEN`: a zeroed holder marked persistent; it is destroyed again on any error, and then the
      count it may have taken is not given back. */
  ghost function DoSessionOpen<R, O>(s: State<R, O>, o: O, parsed: Option<seq<Host>>, library: Policy.Store, fresh_: R, connectOk: bool): Option<State<R, O>>
    requires o !in s.objs
  {
    if parsed.None? || parsed.value == [] then Some(s)
    else
      var s1 := SetObj(s, o, Obj(true, true, None, false));
      match BindAndConnect(s1, o, true, SessionConfig(parsed.value, library), fresh_, connectOk)
      case None => None
      case Some(s2) => Some(if s2.objs[o].isConn then s2 else s2.(objs := s2.objs - {o}))
  }

  /** `PS_CLOSE`: one count is given back whatever the flag says, and the holder goes. */
  ghost function DoSessionClose<R, O>(s: State<R, O>, o: O): Option<State<R, O>>
    requires o in s.objs
  {
    var b := s.objs[o];
    var gone := s.(objs := s.objs - {o});
    if b.asRef.None? then Some(gone)
    else if !Live(s, b.asRef.value) then None
    else Some(SetCell(gone, b.asRef.value, HelperClose(s.cells[b.asRef.value])))
  }

  /** `aerospike_check_close_and_destroy` on one table entry. */
  ghost function DestroyEntry(c: Cell): Cell {
    if c.hostsEntry > 1 then c.(hostsEntry := c.hostsEntry - 1)
    else
      var c1 := if c.handle then c.(closes := c.closes + 1, destroys := c.destroys + 1) else c;
      c1.(hostsEntry := 0, handle := false, frees := c.frees + 1)
  }

  ghost predicate IsOrder<R>(table: map<string, R>, order: seq<string>) {
    && (forall a :: a in order <==> a in table)
    && (forall i, j :: 0 <= i < j < |order| ==> order[i] != order[j])
  }

  /** `zend_hash_clean`, entry by entry. */
  ghost function TeardownCells<R>(cells: map<R, Cell>, table: map<string, R>, order: seq<string>): Option<map<R, Cell>>
    requires forall a :: a in order ==> a in table
  {
    if order == [] then Some(cells)
    else
      var r := table[order[0]];
      if r !in cells || cells[r].frees != 0 then None
      else TeardownCells(cells[r := DestroyEntry(cells[r])], table, order[1..])
  }

  /** What the constructor needs so as not to follow a null or dangling pointer or a destroyed table. */
  ghost predicate ConstructDefined<R, O>(s: State<R, O>, o: O, args: Args)
    requires o in s.objs
  {
    args.Accepted? ==>
      if args.cfg.hosts == [] then args.cfg.useShm ==> s.objs[o].asRef.Some? && Usable(s, s.objs[o].asRef.value)
      else args.persist ==> BindDefined(s, args.cfg)
  }

  ghost predicate BindDefined<R, O>(s: State<R, O>, cfg: Config) {
    s.up && (FindAlias(s.table, Aliases(cfg)).Some? ==> Usable(s, FindAlias(s.table, Aliases(cfg)).value))
  }

  ghost predicate Enabled<R, O>(s: State<R, O>, step: Step<R, O>) {
    match step
    case New(o) => o !in s.objs
    case Construct(o, _, r, _) => o in s.objs && !s.objs[o].session && r !in s.cells
    case SessionOpen(o, _, _, r, _) => o !in s.objs && r !in s.cells
    case SessionClose(o) => o in s.objs && s.objs[o].session
    case Teardown(order) => s.up && IsOrder(s.table, order)
    case _ => step.o in s.objs && !s.objs[step.o].session
  }

  ghost function Apply<R, O>(s: State<R, O>, step: Step<R, O>): Option<State<R, O>>
    requires Enabled(s, step)
  {
    match step
    case New(o) => Some(SetObj(s, o, Obj(false, false, None, false)))
    case Construct(o, args, r, ok) => DoConstruct(s, o, args, r, ok)
    case IsConnected(o, answer) => DoIsConnected(s, o, answer)
    case Close(o) => DoClose(s, o)
    case Reconnect(o) => DoReconnect(s, o)
    case Drop(o) => DoDrop(s, o)
    case Call(o, q) => DoCall(s, o, q)
    case SessionOpen(o, parsed, library, r, ok) => DoSessionOpen(s, o, parsed, library, r, ok)
    case SessionClose(o) => DoSessionClose(s, o)
    case Teardown(order) =>
      match TeardownCells(s.cells, s.table, order)
      case None => None
      case Some(cells) => Some(s.(cells := cells, table := map[], up := false))
  }

  ghost function Init<R, O>(): State<R, O> {
    State(map[], map[], true, map[])
  }

  lemma ConstructDefinedIff<R, O>(s: State<R, O>, o: O, args: Args, r: R, ok: bool)
    requires o in s.objs
    ensures DoConstruct(s, o, args, r, ok).Some? <==> ConstructDefined(s, o, args)
  {
    if args.Accepted? {
      var b := s.objs[o].(isConn := false, isPersistent := args.persist);
      assert SetObj(s, o, b).table == s.table;
    }
  }
}
