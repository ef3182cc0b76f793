/** The registry over whole runs: safety, what teardown frees, and where every count comes from. */
module RegistryRuns {
  import opened Wrappers
  import opened HostAlias
  import opened RegistrySpec
  import opened RegistryProofs
  import Policy

  ghost predicate TameRun<R, O>(s: State<R, O>, steps: seq<Step<R, O>>)
    decreases |steps|
  {
    steps == [] ||
    (Enabled(s, steps[0]) && Tame(s, steps[0]) && Apply(s, steps[0]).Some? && TameRun(Apply(s, steps[0]).value, steps[1..]))
  }

  ghost function Exec<R, O>(s: State<R, O>, steps: seq<Step<R, O>>): State<R, O>
    requires TameRun(s, steps)
    decreases |steps|
  {
    if steps == [] then s else Exec(Apply(s, steps[0]).value, steps[1..])
  }

  lemma {:induction false} RunKeepsInv<R, O>(s: State<R, O>, steps: seq<Step<R, O>>)
    requires Inv(s) && TameRun(s, steps)
    ensures Inv(Exec(s, steps))
    decreases |steps|
  {
    if steps != [] {
      StepKeepsInv(s, steps[0]);
      RunKeepsInv(Apply(s, steps[0]).value, steps[1..]);
    }
  }

  // ----- aliases are never rebound, and creation fixes what teardown will count

  /** From `s` to `t` no alias is rebound and every cell keeps its kind, its aliases and, if shared, its entry count. */
  ghost predicate Extends<R, O>(s: State<R, O>, t: State<R, O>) {
    && t.up == s.up
    && (forall a :: a in s.table ==> a in t.table && t.table[a] == s.table[a])
    && (forall q :: q in s.cells ==>
          && q in t.cells && t.cells[q].shared == s.cells[q].shared
          && t.cells[q].hostsEntry == s.cells[q].hostsEntry
          && AliasesOf(t.table, q) == AliasesOf(s.table, q))
  }

  /** A shared cell that is new in `t` counts exactly its aliases just when those of `cfg` are distinct. */
  ghost predicate NewCounts<R, O>(s: State<R, O>, t: State<R, O>, cfg: Config) {
    forall q :: q in t.cells && q !in s.cells && t.cells[q].shared ==>
                  (t.cells[q].hostsEntry == |AliasesOf(t.table, q)| <==> Distinct(Aliases(cfg)))
  }

  lemma CreatedTable<R, O>(s: State<R, O>, o: O, b: Obj<R>, cfg: Config, r: R, ok: bool)
    requires Binding(s, o, b, cfg, r) && FindAlias(s.table, Aliases(cfg)).None?
    ensures Extends(s, Created(s, o, b, cfg, r, ok)) && NewCounts(s, Created(s, o, b, cfg, r, ok), cfg)
  {
    AddAliasesSpec(s.table, Aliases(cfg), r);
    CreationAliases(s.table, Aliases(cfg), r);
    forall q | q in s.cells ensures AliasesOf(AddAliases(s.table, Aliases(cfg), r), q) == AliasesOf(s.table, q) {
      CreationKeepsOthers(s.table, Aliases(cfg), r, q);
    }
  }

  lemma BindTable<R, O>(s: State<R, O>, o: O, b: Obj<R>, cfg: Config, r: R, ok: bool)
    requires Binding(s, o, b, cfg, r)
    ensures var t := BindAndConnect(SetObj(s, o, b), o, b.isPersistent, cfg, r, ok);
            t.Some? && Extends(s, t.value) && NewCounts(s, t.value, cfg)
  {
    if !b.isPersistent {
      PrivateTable(s, o, b, cfg, r, ok);
    } else if FindAlias(s.table, Aliases(cfg)).None? {
      CreateResult(s, o, b, cfg, r, ok);
      CreatedTable(s, o, b, cfg, r, ok);
    } else {
      FindAliasSpec(s.table, Aliases(cfg));
      AttachResult(s, o, b, cfg, r, ok);
    }
  }

  lemma PrivateTable<R, O>(s: State<R, O>, o: O, b: Obj<R>, cfg: Config, r: R, ok: bool)
    requires Binding(s, o, b, cfg, r) && !b.isPersistent
    ensures var t := BindAndConnect(SetObj(s, o, b), o, false, cfg, r, ok);
            t.Some? && Extends(s, t.value) && NewCounts(s, t.value, cfg)
  {}

  /** The configuration a step would register, if any. */
  ghost function StepConfig<R, O>(step: Step<R, O>): Option<Config> {
    match step
    case Construct(_, Accepted(persist, cfg), _, _) => if cfg.hosts == [] then None else Some(cfg)
    case SessionOpen(_, Some(hosts), library, _, _) => if hosts == [] then None else Some(SessionConfig(hosts, library))
    case _ => None
  }

  /** A step that registers nothing leaves the table and every cell's kind and entry count alone. */
  lemma QuietStep<R, O>(s: State<R, O>, step: Step<R, O>)
    requires Enabled(s, step) && !step.Teardown? && StepConfig(step).None? && Apply(s, step).Some?
    ensures var t := Apply(s, step).value;
            && t.up == s.up && t.table == s.table && t.cells.Keys == s.cells.Keys
            && (forall q :: q in s.cells ==>
                  t.cells[q].shared == s.cells[q].shared && t.cells[q].hostsEntry == s.cells[q].hostsEntry)
  {
    match step
    case Construct(o, args, _, ok) => QuietConstruct(s, o, args, ok);
    case _ =>
  }

  lemma QuietConstruct<R, O>(s: State<R, O>, o: O, args: Args, ok: bool)
    requires o in s.objs && !Binds(args) && ConstructUnbound(s, o, args, ok).Some?
    ensures var t := ConstructUnbound(s, o, args, ok).value;
            && t.up == s.up && t.table == s.table && t.cells.Keys == s.cells.Keys
            && (forall q :: q in s.cells ==> t.cells[q].shared == s.cells[q].shared && t.cells[q].hostsEntry == s.cells[q].hostsEntry)
  {}

  /** Before teardown no step unbinds or rebinds an alias or changes what a cell counts, and a cell is
      created counting exactly its aliases just when those of its configuration are distinct. */
  lemma StepTable<R, O>(s: State<R, O>, step: Step<R, O>)
    requires Inv(s) && s.up && Enabled(s, step) && Tame(s, step) && !step.Teardown?
    ensures Apply(s, step).Some?
    ensures Extends(s, Apply(s, step).value)
    ensures if StepConfig(step).Some? then NewCounts(s, Apply(s, step).value, StepConfig(step).value)
            else Apply(s, step).value.cells.Keys == s.cells.Keys
  {
    StepDefined(s, step);
    match step
    case Construct(o, Accepted(persist, cfg), r, ok) =>
      if cfg.hosts != [] {
        BindTable(s, o, s.objs[o].(isConn := false, isPersistent := persist), cfg, r, ok);
      } else {
        QuietStep(s, step);
      }
    case SessionOpen(o, Some(hosts), library, r, ok) =>
      if hosts != [] {
        SessionTable(s, o, hosts, library, r, ok);
      }
    case _ => QuietStep(s, step);
  }

  lemma SessionTable<R, O>(s: State<R, O>, o: O, hosts: seq<Host>, library: Policy.Store, r: R, ok: bool)
    requires Inv(s) && s.up && o !in s.objs && r !in s.cells && hosts != []
    ensures var t := DoSessionOpen(s, o, Some(hosts), library, r, ok);
            t.Some? && Extends(s, t.value) && NewCounts(s, t.value, SessionConfig(hosts, library))
  {
    BindTable(s, o, Obj(true, true, None, false), SessionConfig(hosts, library), r, ok);
  }

  /** A configuration registered while neither was known captures another exactly when a host of one and a
      host of the other have the same alias: as a rule the same host and user, otherwise one absorbing the other. */
  lemma SharesCellIff<R>(table: map<string, R>, first: Config, r: R, second: Config)
    requires FindAlias(table, Aliases(first)).None? && FindAlias(table, Aliases(second)).None?
    ensures FindAlias(AddAliases(table, Aliases(first), r), Aliases(second)) == Some(r)
            <==> exists g, h :: g in first.hosts && h in second.hosts && SameAlias(g, first.user, h, second.user)
  {
    var t := AddAliases(table, Aliases(first), r);
    AddAliasesSpec(table, Aliases(first), r);
    FindAliasSpec(table, Aliases(second));
    FindAliasSpec(t, Aliases(second));
    hide SameAlias, Single;
    if FindAlias(t, Aliases(second)).Some? {
      var a :| a in Aliases(second) && a in t && t[a] == FindAlias(t, Aliases(second)).value;
      assert a in Aliases(first);
      CommonAlias(first, second, a);
    }
    if g, h :| g in first.hosts && h in second.hosts && SameAlias(g, first.user, h, second.user) {
      SameAliasIff(g, first.user, h, second.user);
      HostAliased(first, g);
      HostAliased(second, h);
    }
  }

  lemma HostAliased(cfg: Config, h: Host)
    requires h in cfg.hosts
    ensures Single(h, cfg.user) in Aliases(cfg)
  {
    var i :| 0 <= i < |cfg.hosts| && cfg.hosts[i] == h;
    assert Aliases(cfg)[i] == Single(h, cfg.user);
  }

  lemma CommonAlias(first: Config, second: Config, a: string)
    requires a in Aliases(first) && a in Aliases(second)
    ensures exists g, h :: g in first.hosts && h in second.hosts && SameAlias(g, first.user, h, second.user)
  {
    var i :| 0 <= i < |first.hosts| && Single(first.hosts[i], first.user) == a;
    var j :| 0 <= j < |second.hosts| && Single(second.hosts[j], second.user) == a;
    assert first.hosts[i] in first.hosts && second.hosts[j] in second.hosts;
    SameAliasIff(first.hosts[i], first.user, second.hosts[j], second.user);
  }

  ghost predicate DistinctHosts(cfg: Config) {
    forall i, j :: 0 <= i < j < |cfg.hosts| ==> cfg.hosts[i] != cfg.hosts[j]
  }

  /** Within one configuration the aliases are distinct exactly when the hosts are, whatever their addresses hold. */
  lemma DistinctIffHosts(cfg: Config)
    ensures Distinct(Aliases(cfg)) <==> DistinctHosts(cfg)
  {
    forall i, j | 0 <= i < j < |cfg.hosts| ensures Aliases(cfg)[i] == Aliases(cfg)[j] <==> cfg.hosts[i] == cfg.hosts[j] {
      SameUser(cfg.hosts[i], cfg.hosts[j], cfg.user);
    }
  }

  // ----- teardown and the end of life

  /** Before teardown every shared cell counts exactly its aliases; afterwards it is freed. */
  ghost predicate Exact<R, O>(s: State<R, O>) {
    forall r :: r in s.cells && s.cells[r].shared ==>
                  if s.up then s.cells[r].hostsEntry == |AliasesOf(s.table, r)| else s.cells[r].frees == 1
  }

  /** Teardown in any order is defined; a shared cell is closed, destroyed and freed, once, exactly when
      it counted as many entries as it has aliases, and private cells are left alone. */
  lemma TeardownFreesIff<R, O>(s: State<R, O>, order: seq<string>, r: R)
    requires Inv(s) && s.up && IsOrder(s.table, order) && r in s.cells
    ensures Apply(s, Teardown(order)).Some? && r in Apply(s, Teardown(order)).value.cells
    ensures var c := Apply(s, Teardown(order)).value.cells[r];
            if !s.cells[r].shared then c == s.cells[r]
            else
              && (c.frees == 1 && c.closes == 1 && c.destroys == 1 <==> s.cells[r].hostsEntry == |AliasesOf(s.table, r)|)
              && (s.cells[r].hostsEntry != |AliasesOf(s.table, r)| ==> c.frees == 0 && c.closes == 0 && c.destroys == 0)
  {
    assert Tearable(s.cells, s.table);
    TeardownSpec(s.cells, s.table, order);
    if !s.cells[r].shared {
      assert forall a :: a in s.table ==> s.cells[s.table[a]].shared;
      assert AliasesOf(s.table, r) == {};
    }
    assert CellOk(Apply(s, Teardown(order)).value.cells[r]);
  }

  lemma TeardownKeepsCells<R, O>(s: State<R, O>, order: seq<string>)
    requires Inv(s) && s.up && IsOrder(s.table, order)
    ensures Apply(s, Teardown(order)).Some? && Apply(s, Teardown(order)).value.cells.Keys == s.cells.Keys
    ensures forall r :: r in s.cells ==> TornDown(s.cells[r], Apply(s, Teardown(order)).value.cells[r], |AliasesOf(s.table, r)|)
  {
    assert Tearable(s.cells, s.table);
    TeardownSpec(s.cells, s.table, order);
  }

  lemma {:induction false} RunExtends<R, O>(s: State<R, O>, steps: seq<Step<R, O>>)
    requires Inv(s) && s.up && TameRun(s, steps) && forall i :: 0 <= i < |steps| ==> !steps[i].Teardown?
    ensures Inv(Exec(s, steps)) && Extends(s, Exec(s, steps))
    decreases |steps|
  {
    if steps != [] {
      StepKeepsInv(s, steps[0]);
      StepTable(s, steps[0]);
      RunExtends(Apply(s, steps[0]).value, steps[1..]);
    }
  }

  /** A shared cell is eventually freed exactly when the configuration that created it named no host twice:
      whatever happens between creation and teardown, and in whatever order the table is emptied. */
  lemma FreedIffConfigDistinct<R, O>(s: State<R, O>, create: Step<R, O>, steps: seq<Step<R, O>>, order: seq<string>, r: R)
    requires Inv(s) && s.up && Enabled(s, create) && Tame(s, create) && StepConfig(create).Some? && Apply(s, create).Some?
    requires var t := Apply(s, create).value;
             && r !in s.cells && r in t.cells && t.cells[r].shared
             && TameRun(t, steps) && (forall i :: 0 <= i < |steps| ==> !steps[i].Teardown?)
             && IsOrder(Exec(t, steps).table, order) && Exec(t, steps).up
    ensures var u := Exec(Apply(s, create).value, steps);
            && Apply(u, Teardown(order)).Some? && r in Apply(u, Teardown(order)).value.cells
            && (Apply(u, Teardown(order)).value.cells[r].frees == 1 <==> DistinctHosts(StepConfig(create).value))
  {
    StepKeepsInv(s, create);
    StepTable(s, create);
    RunExtends(Apply(s, create).value, steps);
    TeardownFreesIff(Exec(Apply(s, create).value, steps), order, r);
    DistinctIffHosts(StepConfig(create).value);
  }

  ghost predicate DistinctStep<R, O>(step: Step<R, O>) {
    StepConfig(step).Some? ==> DistinctHosts(StepConfig(step).value)
  }

  lemma StepExact<R, O>(s: State<R, O>, step: Step<R, O>)
    requires Inv(s) && Exact(s) && Enabled(s, step) && Tame(s, step) && DistinctStep(step)
    ensures Apply(s, step).Some? && Exact(Apply(s, step).value)
  {
    StepKeepsInv(s, step);
    var t := Apply(s, step).value;
    match step
    case Teardown(order) =>
      TeardownKeepsCells(s, order);
      forall r | r in s.cells && t.cells[r].shared ensures t.cells[r].frees == 1 {
        TeardownFreesIff(s, order, r);
      }
    case _ =>
      if s.up {
        StepTable(s, step);
        if StepConfig(step).Some? {
          DistinctIffHosts(StepConfig(step).value);
        }
      } else {
        QuietStep(s, step);
      }
  }

  lemma {:induction false} RunExact<R, O>(s: State<R, O>, steps: seq<Step<R, O>>)
    requires Inv(s) && Exact(s) && TameRun(s, steps) && forall i :: 0 <= i < |steps| ==> DistinctStep(steps[i])
    ensures Inv(Exec(s, steps)) && Exact(Exec(s, steps))
    decreases |steps|
  {
    if steps != [] {
      StepKeepsInv(s, steps[0]);
      StepExact(s, steps[0]);
      RunExact(Apply(s, steps[0]).value, steps[1..]);
    }
  }

  /** End of life. Whatever the run, once the table is gone and no object is left, in whatever order that
      happened, every cell ever created has been destroyed and freed exactly once; a shared one was
      closed exactly once, a private one as often as it was connected. */
  lemma Lifecycle<R, O>(steps: seq<Step<R, O>>)
    requires TameRun(Init<R, O>(), steps) && forall i :: 0 <= i < |steps| ==> DistinctStep(steps[i])
    requires !Exec(Init<R, O>(), steps).up && Exec(Init<R, O>(), steps).objs == map[]
    ensures var s := Exec(Init<R, O>(), steps);
            forall r :: r in s.cells ==>
              && s.cells[r].frees == 1 && s.cells[r].destroys == 1
              && s.cells[r].closes == if s.cells[r].shared then 1 else s.cells[r].attempts
  {
    var z := Init<R, O>();
    assert Inv(z) && Exact(z);
    RunExact(z, steps);
    var s := Exec(z, steps);
    forall r | r in s.cells ensures s.cells[r].frees == 1 {
      assert !s.cells[r].shared && s.cells[r].frees == 0 ==> exists o :: o in s.objs && SoleHolder(s, o, r);
    }
  }

  /** Private cells balance at every moment: connects minus closes is the count, which is 0 or 1. */
  lemma PrivateBalance<R, O>(steps: seq<Step<R, O>>, r: R)
    requires TameRun(Init<R, O>(), steps)
    requires var s := Exec(Init<R, O>(), steps); r in s.cells && !s.cells[r].shared
    ensures var c := Exec(Init<R, O>(), steps).cells[r];
            && c.attempts - c.closes == c.refCount && 0 <= c.refCount <= 1
            && (c.frees != 0 ==> c.attempts == c.closes)
  {
    assert Inv(Init<R, O>());
    RunKeepsInv(Init<R, O>(), steps);
  }

  // ----- where the counts come from

  /** The cell whose count a step takes: created, attached to, or reconnected. */
  ghost function Takes<R, O>(s: State<R, O>, step: Step<R, O>): Option<R>
    requires Enabled(s, step)
  {
    match step
    case Construct(_, Accepted(persist, cfg), r, _) =>
      if cfg.hosts == [] then None
      else if persist && FindAlias(s.table, Aliases(cfg)).Some? then FindAlias(s.table, Aliases(cfg))
      else Some(r)
    case SessionOpen(_, Some(hosts), library, r, _) =>
      if hosts == [] then None
      else if FindAlias(s.table, Aliases(SessionConfig(hosts, library))).Some? then FindAlias(s.table, Aliases(SessionConfig(hosts, library)))
      else Some(r)
    case Reconnect(o) =>
      var b := s.objs[o];
      if b.asRef.Some? && !b.isConn && Usable(s, b.asRef.value) && s.cells[b.asRef.value].refCount <= 0 then b.asRef else None
    case _ => None
  }

  /** The cell whose count a step gives back: an accepted close, a session close, a private object dropped. */
  ghost function Gives<R, O>(s: State<R, O>, step: Step<R, O>): Option<R>
    requires Enabled(s, step)
  {
    match step
    case Close(o) =>
      var b := s.objs[o];
      if b.asRef.Some? && b.isConn && Usable(s, b.asRef.value) && s.cells[b.asRef.value].refCount >= 1 then b.asRef else None
    case SessionClose(o) =>
      var b := s.objs[o];
      if b.asRef.Some? && Live(s, b.asRef.value) && s.cells[b.asRef.value].refCount >= 1 then b.asRef else None
    case Drop(o) =>
      var b := s.objs[o];
      if b.asRef.Some? && !b.isPersistent && Usable(s, b.asRef.value) && s.cells[b.asRef.value].refCount >= 1 then b.asRef else None
    case _ => None
  }

  ghost function Count<R, O>(s: State<R, O>, r: R): int {
    if r in s.cells then s.cells[r].refCount else 0
  }

  ghost function Delta<R, O>(s: State<R, O>, step: Step<R, O>, r: R): int
    requires Enabled(s, step)
  {
    (if Takes(s, step) == Some(r) then 1 else 0) - (if Gives(s, step) == Some(r) then 1 else 0)
  }

  lemma StepBalance<R, O>(s: State<R, O>, step: Step<R, O>, r: R)
    requires Inv(s) && Enabled(s, step) && Tame(s, step)
    ensures Apply(s, step).Some?
    ensures Count(Apply(s, step).value, r) == Count(s, r) + Delta(s, step, r)
  {
    StepDefined(s, step);
    match step
    case Construct(_, Accepted(_, _), _, _) => ConstructCounts(s, step, r);
    case SessionOpen(_, _, _, _, _) => SessionCounts(s, step, r);
    case Teardown(order) => TeardownCounts(s, order, r);
    case Call(o, q) => CallKeeps(s, o, q);
    case _ => QuietCounts(s, step, r);
  }

  lemma ConstructCounts<R, O>(s: State<R, O>, step: Step<R, O>, r: R)
    requires Inv(s) && Enabled(s, step) && Tame(s, step) && Apply(s, step).Some? && step.Construct? && step.args.Accepted?
    ensures Count(Apply(s, step).value, r) == Count(s, r) + Delta(s, step, r)
  {
    if step.args.cfg.hosts != [] {
      BindCounts(s, step.o, s.objs[step.o].(isConn := false, isPersistent := step.args.persist), step.args.cfg, step.fresh_, step.connectOk, r);
    } else {
      QuietCounts(s, step, r);
    }
  }

  lemma SessionCounts<R, O>(s: State<R, O>, step: Step<R, O>, r: R)
    requires Inv(s) && s.up && Enabled(s, step) && Apply(s, step).Some? && step.SessionOpen?
    ensures Count(Apply(s, step).value, r) == Count(s, r) + Delta(s, step, r)
  {
    if step.parsed.Some? && step.parsed.value != [] {
      BindCounts(s, step.o, Obj(true, true, None, false), SessionConfig(step.parsed.value, step.library), step.fresh_, step.connectOk, r);
    }
  }

  lemma TeardownCounts<R, O>(s: State<R, O>, order: seq<string>, r: R)
    requires Inv(s) && s.up && IsOrder(s.table, order)
    ensures Apply(s, Teardown(order)).Some?
    ensures Count(Apply(s, Teardown(order)).value, r) == Count(s, r)
  {
    TeardownKeepsCells(s, order);
    assert r in s.cells ==> TornDown(s.cells[r], Apply(s, Teardown(order)).value.cells[r], |AliasesOf(s.table, r)|);
  }

  lemma QuietCounts<R, O>(s: State<R, O>, step: Step<R, O>, r: R)
    requires CellsOk(s.cells) && ObjsOk(s)
    requires Enabled(s, step) && !step.Teardown? && !step.Call? && StepConfig(step).None? && Apply(s, step).Some?
    ensures Count(Apply(s, step).value, r) == Count(s, r) + Delta(s, step, r)
  {
    match step
    case Construct(o, args, _, ok) => UnboundCounts(s, o, args, ok, r);
    case Close(o) => CloseKeepsCount(s, o, r);
    case _ =>
  }

  lemma UnboundCounts<R, O>(s: State<R, O>, o: O, args: Args, ok: bool, r: R)
    requires o in s.objs && !Binds(args) && ConstructUnbound(s, o, args, ok).Some?
    ensures Count(ConstructUnbound(s, o, args, ok).value, r) == Count(s, r)
  {}

  lemma CloseKeepsCount<R, O>(s: State<R, O>, o: O, r: R)
    requires CellsOk(s.cells) && ObjsOk(s) && Enabled(s, Close(o)) && DoClose(s, o).Some?
    ensures Count(DoClose(s, o).value, r) == Count(s, r) + Delta(s, Close(o), r)
  {}

  lemma BindCounts<R, O>(s: State<R, O>, o: O, b: Obj<R>, cfg: Config, q: R, ok: bool, r: R)
    requires Binding(s, o, b, cfg, q)
    ensures var t := BindAndConnect(SetObj(s, o, b), o, b.isPersistent, cfg, q, ok);
            var taken := if b.isPersistent && FindAlias(s.table, Aliases(cfg)).Some? then FindAlias(s.table, Aliases(cfg)) else Some(q);
            t.Some? && Count(t.value, r) == Count(s, r) + if taken == Some(r) then 1 else 0
  {
    FindAliasSpec(s.table, Aliases(cfg));
    if b.isPersistent && FindAlias(s.table, Aliases(cfg)).None? {
      CreateResult(s, o, b, cfg, q, ok);
    } else if b.isPersistent {
      AttachResult(s, o, b, cfg, q, ok);
    }
  }

  ghost function Taken<R, O>(s: State<R, O>, steps: seq<Step<R, O>>, r: R): nat
    requires TameRun(s, steps)
    decreases |steps|
  {
    if steps == [] then 0
    else (if Takes(s, steps[0]) == Some(r) then 1 else 0) + Taken(Apply(s, steps[0]).value, steps[1..], r)
  }

  ghost function Given<R, O>(s: State<R, O>, steps: seq<Step<R, O>>, r: R): nat
    requires TameRun(s, steps)
    decreases |steps|
  {
    if steps == [] then 0
    else (if Gives(s, steps[0]) == Some(r) then 1 else 0) + Given(Apply(s, steps[0]).value, steps[1..], r)
  }

  lemma {:induction false} RunBalance<R, O>(s: State<R, O>, steps: seq<Step<R, O>>, r: R)
    requires Inv(s) && TameRun(s, steps)
    ensures Inv(Exec(s, steps))
    ensures Count(Exec(s, steps), r) == Count(s, r) + Taken(s, steps, r) - Given(s, steps, r)
    decreases |steps|
  {
    if steps != [] {
      StepKeepsInv(s, steps[0]);
      StepBalance(s, steps[0], r);
      RunBalance(Apply(s, steps[0]).value, steps[1..], r);
    }
  }

  /** Over every run from the start, a cell's count is the number of times it was taken minus the number
      of times it was given back, never negative; and until teardown no library close reaches a shared cell. */
  lemma CountIsTakenMinusGiven<R, O>(steps: seq<Step<R, O>>, r: R)
    requires TameRun(Init<R, O>(), steps)
    ensures var s := Exec(Init<R, O>(), steps);
            && Count(s, r) == Taken(Init<R, O>(), steps, r) - Given(Init<R, O>(), steps, r) >= 0
            && (r in s.cells && s.cells[r].shared && s.up ==> s.cells[r].closes == 0)
  {
    assert Inv(Init<R, O>());
    RunBalance(Init<R, O>(), steps, r);
  }

  /** A session opened on an existing connection and closed again leaves every cell as it was. */
  lemma SessionPairNeutral<R, O>(s: State<R, O>, o: O, hosts: seq<Host>, library: Policy.Store, q: R, ok: bool)
    requires Inv(s) && s.up && o !in s.objs && q !in s.cells && hosts != []
    requires FindAlias(s.table, Aliases(SessionConfig(hosts, library))).Some?
    ensures var t := DoSessionOpen(s, o, Some(hosts), library, q, ok);
            && t.Some? && o in t.value.objs && t.value.objs[o].session
            && DoSessionClose(t.value, o) == Some(s)
  {
    var cfg := SessionConfig(hosts, library);
    FindAliasSpec(s.table, Aliases(cfg));
    AttachResult(s, o, Obj(true, true, None, false), cfg, q, ok);
    AttachedThenClosed(s, o, Obj(true, true, None, false), FindAlias(s.table, Aliases(cfg)).value);
  }

  lemma AttachedThenClosed<R, O>(s: State<R, O>, o: O, b: Obj<R>, q: R)
    requires o !in s.objs && q in s.cells && s.cells[q].frees == 0 && s.cells[q].refCount >= 0
    ensures DoSessionClose(Attached(s, o, b, q), o) == Some(s)
  {
    SameState(DoSessionClose(Attached(s, o, b, q), o).value, s);
  }

  /** Why the constructor's condition is needed: a persistent object constructed again, non-persistently
      and with arguments that are rejected, frees the shared cell when dropped; teardown then finds it freed. */
  lemma ReconstructionFreesTwice() returns (s1: State<nat, nat>, s2: State<nat, nat>, s3: State<nat, nat>, s4: State<nat, nat>)
    ensures var cfg := Config([Host("h", 3000)], "u", false, map[]);
            var teardown: Step<nat, nat> := Teardown([Single(Host("h", 3000), "u")]);
            && Follows(Init(), New(0), s1)
            && Follows(s1, Construct(0, Accepted(true, cfg), 7, true), s2)
            && Follows(s2, Construct(0, Rejected(false), 8, true), s3)
            && Follows(s3, Drop(0), s4)
            && Enabled(s4, teardown) && Apply(s4, teardown) == None
  {
    var alias := Single(Host("h", 3000), "u");
    s1 := Apply(Init(), New(0)).value;
    s2 := FirstConstruction(s1, map[]);
    s3, s4 := RejectedThenDropped(s2, alias);
    FreedEntry(s4, alias);
  }

  lemma RejectedThenDropped(s: State<nat, nat>, alias: string) returns (t: State<nat, nat>, u: State<nat, nat>)
    requires s.up && s.table == map[alias := 7] && s.cells.Keys == {7} && s.cells[7].frees == 0 && s.cells[7].handle
    requires s.objs == map[0 := Obj(false, true, Some(7), true)]
    ensures Follows(s, Construct(0, Rejected(false), 8, true), t) && Follows(t, Drop(0), u)
    ensures u.up && u.table == s.table && 7 in u.cells && u.cells[7].frees == 1
  {
    t := Apply(s, Construct(0, Rejected(false), 8, true)).value;
    u := Apply(t, Drop(0)).value;
  }

  lemma FreedEntry(s: State<nat, nat>, alias: string)
    requires s.up && s.table == map[alias := 7] && 7 in s.cells && s.cells[7].frees == 1
    ensures Enabled(s, Teardown([alias])) && Apply(s, Teardown([alias])) == None
  {}

  lemma FirstConstruction(s: State<nat, nat>, policy: Policy.Store) returns (t: State<nat, nat>)
    requires s == Apply(Init(), New(0)).value
    ensures Follows(s, Construct(0, Accepted(true, Config([Host("h", 3000)], "u", false, policy)), 7, true), t)
    ensures t.up && t.table == map[Single(Host("h", 3000), "u") := 7]
    ensures t.cells.Keys == {7} && t.cells[7].frees == 0 && t.cells[7].handle && t.cells[7].policy == policy
    ensures t.objs == map[0 := Obj(false, true, Some(7), true)]
  {
    var cfg := Config([Host("h", 3000)], "u", false, policy);
    var alias := Single(Host("h", 3000), "u");
    assert Aliases(cfg) == [alias] && [alias][1..] == [];
    var b := Obj(false, true, None, false);
    CreateResult(s, 0, b, cfg, 7, true);
    t := Created(s, 0, b, cfg, 7, true);
    assert AddAliases<nat>(map[], [alias], 7) == AddAliases<nat>(map[alias := 7], [], 7);
  }

  /** What becomes of a private cell whose object is constructed again: whatever happens afterwards, in any
      defined run of any length, it stays as it is, live and never freed. */
  lemma {:induction false} OrphanForever<R, O>(states: seq<State<R, O>>, steps: seq<Step<R, O>>, q: R, n: nat)
    requires |states| == |steps| + 1 && forall i :: 0 <= i < |steps| ==> Follows(states[i], steps[i], states[i + 1])
    requires Orphan(states[0], q) && n < |states|
    ensures Orphan(states[n], q) && states[n].cells[q] == states[0].cells[q] && states[n].cells[q].frees == 0
  {
    if n > 0 {
      OrphanForever(states, steps, q, n - 1);
      assert Follows(states[n - 1], steps[n - 1], states[n]);
      StepKeepsOrphan(states[n - 1], steps[n - 1], q);
    }
  }

  ghost predicate Follows<R, O>(s: State<R, O>, step: Step<R, O>, t: State<R, O>) {
    Enabled(s, step) && Apply(s, step) == Some(t)
  }
}
