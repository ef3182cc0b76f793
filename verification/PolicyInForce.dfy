/**
  Which configuration a call works on. An object that attaches to an existing connection drops the
  configuration its constructor has built: from then on the policies are those of whoever created the cell.
 */
module PolicyInForce {
  import opened Wrappers
  import opened HostAlias
  import opened RegistrySpec
  import opened RegistryProofs
  import opened RegistryRuns
  import Policy

  // ----- where the configuration of a cell comes from

  /** The configuration with which a cell enters the run. */
  ghost function Origin<R, O>(s: State<R, O>, steps: seq<Step<R, O>>, r: R): Option<Config>
    requires TameRun(s, steps)
    decreases |steps|
  {
    if steps == [] then None
    else
      var t := Apply(s, steps[0]).value;
      if r !in s.cells && r in t.cells then StepConfig(steps[0]) else Origin(t, steps[1..], r)
  }

  /** Every cell keeps its defaults, and a new one has those of the step's configuration. */
  ghost predicate Inherits<R, O>(s: State<R, O>, t: State<R, O>, cfg: Option<Config>) {
    && (forall r :: r in s.cells ==> r in t.cells && SameDefaults(s.cells[r].policy, t.cells[r].policy))
    && (forall r :: r in t.cells && r !in s.cells ==> cfg.Some? && t.cells[r].policy == cfg.value.policy)
  }

  lemma BindInherits<R, O>(s: State<R, O>, o: O, b: Obj<R>, cfg: Config, r: R, ok: bool)
    requires Binding(s, o, b, cfg, r)
    ensures var t := BindAndConnect(SetObj(s, o, b), o, b.isPersistent, cfg, r, ok);
            t.Some? && Inherits(s, t.value, Some(cfg))
  {
    if !b.isPersistent {
      BindCreatesPrivate(s, o, b, cfg, r, ok);
    } else if FindAlias(s.table, Aliases(cfg)).None? {
      CreateResult(s, o, b, cfg, r, ok);
    } else {
      FindAliasSpec(s.table, Aliases(cfg));
      AttachResult(s, o, b, cfg, r, ok);
    }
  }

  lemma StepInherits<R, O>(s: State<R, O>, step: Step<R, O>)
    requires Inv(s) && Enabled(s, step) && Tame(s, step)
    ensures Apply(s, step).Some? && Inherits(s, Apply(s, step).value, StepConfig(step))
  {
    StepDefined(s, step);
    match step
    case Construct(o, Accepted(persist, cfg), r, ok) =>
      if cfg.hosts != [] {
        BindInherits(s, o, s.objs[o].(isConn := false, isPersistent := persist), cfg, r, ok);
      } else {
        QuietInherits(s, step);
      }
    case SessionOpen(o, Some(hosts), library, r, ok) =>
      if hosts != [] {
        BindInherits(s, o, Obj(true, true, None, false), SessionConfig(hosts, library), r, ok);
      }
    case Teardown(order) =>
      TeardownKeepsCells(s, order);
      var t := Apply(s, step).value;
      assert forall r :: r in s.cells ==> TornDown(s.cells[r], t.cells[r], |AliasesOf(s.table, r)|);
    case Call(o, q) => CallKeeps(s, o, q);
    case _ => QuietInherits(s, step);
  }

  lemma QuietInherits<R, O>(s: State<R, O>, step: Step<R, O>)
    requires Enabled(s, step) && Apply(s, step).Some? && StepConfig(step).None? && !step.Teardown? && !step.Call?
    ensures Inherits(s, Apply(s, step).value, None)
  {
    match step
    case Construct(o, args, _, ok) => UnboundInherits(s, o, args, ok);
    case _ =>
  }

  lemma UnboundInherits<R, O>(s: State<R, O>, o: O, args: Args, ok: bool)
    requires o in s.objs && !Binds(args) && ConstructUnbound(s, o, args, ok).Some?
    ensures Inherits(s, ConstructUnbound(s, o, args, ok).value, None)
  {}

  lemma {:induction false} RunOrigin<R, O>(s: State<R, O>, steps: seq<Step<R, O>>, r: R)
    requires Inv(s) && TameRun(s, steps) && r in Exec(s, steps).cells
    ensures var p := Exec(s, steps).cells[r].policy;
            if r in s.cells then SameDefaults(s.cells[r].policy, p)
            else Origin(s, steps, r).Some? && SameDefaults(Origin(s, steps, r).value.policy, p)
    decreases |steps|
  {
    if steps != [] {
      StepKeepsInv(s, steps[0]);
      StepInherits(s, steps[0]);
      RunOrigin(Apply(s, steps[0]).value, steps[1..], r);
    }
  }

  // ----- the policy of a call

  /** The outcome of a call through a held cell. */
  ghost function InForce<R, O>(s: State<R, O>, o: O, q: Request): Policy.Outcome
    requires o in s.objs && s.objs[o].asRef.Some? && s.objs[o].asRef.value in s.cells
  {
    Policy.Called(s.cells[s.objs[o].asRef.value].policy, q.targets, q.env, q.options)
  }

  /** `o` ends the run holding a cell that entered it with configuration `cfg`. */
  ghost predicate HoldsFrom<R, O>(steps: seq<Step<R, O>>, o: O, cfg: Config) {
    && TameRun(Init<R, O>(), steps)
    && var s := Exec(Init<R, O>(), steps);
       && o in s.objs && s.objs[o].asRef.Some? && s.objs[o].asRef.value in s.cells
       && Origin(Init<R, O>(), steps, s.objs[o].asRef.value) == Some(cfg)
  }

  /** Over every tame run every bound object holds a cell with an origin, and its calls are based on the
      configuration of that origin. */
  lemma BaseIsOrigin<R, O>(steps: seq<Step<R, O>>, o: O)
    requires TameRun(Init<R, O>(), steps)
    requires var s := Exec(Init<R, O>(), steps); o in s.objs && s.objs[o].asRef.Some?
    ensures var s := Exec(Init<R, O>(), steps);
            && s.objs[o].asRef.value in s.cells
            && exists cfg :: HoldsFrom(steps, o, cfg) && SameDefaults(cfg.policy, s.cells[s.objs[o].asRef.value].policy)
  {
    var z := Init<R, O>();
    assert Inv(z);
    RunKeepsInv(z, steps);
    var r := Exec(z, steps).objs[o].asRef.value;
    RunOrigin(z, steps, r);
    assert HoldsFrom(steps, o, Origin(z, steps, r).value);
  }

  /** The configuration was built by a successful constructor from these layers. */
  ghost predicate BuiltFrom(cfg: Config, library: Policy.Store, ini: Policy.Ini, raw: Policy.OptVal -> int, ctor: seq<Policy.Opt>) {
    && Policy.Constructed(library, ini, raw, ctor).Done?
    && SameDefaults(Policy.Constructed(library, ini, raw, ctor).store, cfg.policy)
  }

  /** What the layers give for a field of the policy of `x`: the call's option, else the constructor's, else
      the INI value, else the library default. */
  function Layers(library: Policy.Store, ini: Policy.Ini, raw: Policy.OptVal -> int, ctor: seq<Policy.Opt>, call: seq<Policy.Opt>,
                  x: Policy.Target, part: Policy.Part): Option<int> {
    var slot := Policy.InConfig(x, part);
    Policy.Layered(CallLayer(call, x, part), Policy.LastOf(ctor, Policy.CtorCodes(slot), Policy.CtorReading(raw, part)),
                   Policy.IniValue(ini, slot), Policy.At(library, slot))
  }

  function CallLayer(call: seq<Policy.Opt>, x: Policy.Target, part: Policy.Part): Option<int> {
    Policy.LastOf(call, Policy.CallCodes(x, Policy.InCall(x, part)), Policy.CallReading(part))
  }

  ghost function FieldOf(r: Policy.Outcome, x: Policy.Target, part: Policy.Part): Option<int>
    requires r.Done?
  {
    Policy.At(r.store, Policy.InCall(x, part))
  }

  /** The policies that have defaults. */
  ghost predicate Defaulted(q: Request, x: Policy.Target) {
    Policy.OnlyPolicy(q.targets, x) && x in Policy.POLICIES && x != Policy.Admin
  }

  /** After any run every field of the policy of a successful call is its own option, else the default in the
      configuration with which the held cell was created, by a constructor or a session. */
  lemma OriginField<R, O>(steps: seq<Step<R, O>>, o: O, cfg: Config, q: Request, x: Policy.Target, part: Policy.Part)
    requires HoldsFrom(steps, o, cfg) && Defaulted(q, x)
    requires InForce(Exec(Init<R, O>(), steps), o, q).Done?
    ensures FieldOf(InForce(Exec(Init<R, O>(), steps), o, q), x, part)
            == Policy.Layered(CallLayer(q.options, x, part), None, None, Policy.At(cfg.policy, Policy.InConfig(x, part)))
  {
    BaseIsOrigin(steps, o);
    var s := Exec(Init<R, O>(), steps);
    var p := s.cells[s.objs[o].asRef.value].policy;
    hide CallLayer, Policy.Called, Policy.Layered, SameDefaults, Policy.At;
    CallLayered(p, q, x, part);
    DefaultsAt(cfg.policy, p, x, part);
  }

  /** One call on a given configuration. */
  lemma CallLayered(config: Policy.Store, q: Request, x: Policy.Target, part: Policy.Part)
    requires Defaulted(q, x) && Policy.Called(config, q.targets, q.env, q.options).Done?
    ensures FieldOf(Policy.Called(config, q.targets, q.env, q.options), x, part)
            == Policy.Layered(CallLayer(q.options, x, part), None, None, Policy.At(config, Policy.InConfig(x, part)))
  {
    hide Policy.Called, Policy.LastOf, Policy.CallCodes, Policy.CallReading, Policy.Layered;
    Policy.CallField(config, q.targets, q.env, q.options, x, Policy.InCall(x, part));
  }

  /** If that was a constructor: the call's option, else the option of the constructor that created the held
      cell, else the INI value it found, else the library default. */
  lemma FieldPrecedence<R, O>(steps: seq<Step<R, O>>, o: O, cfg: Config, library: Policy.Store, ini: Policy.Ini,
                              raw: Policy.OptVal -> int, ctor: seq<Policy.Opt>, q: Request, x: Policy.Target, part: Policy.Part)
    requires HoldsFrom(steps, o, cfg) && BuiltFrom(cfg, library, ini, raw, ctor) && Defaulted(q, x)
    requires InForce(Exec(Init<R, O>(), steps), o, q).Done?
    ensures FieldOf(InForce(Exec(Init<R, O>(), steps), o, q), x, part) == Layers(library, ini, raw, ctor, q.options, x, part)
  {
    hide InForce, HoldsFrom, Policy.Constructed, Policy.LastOf, Policy.IniValue, Policy.CallCodes, Policy.CtorCodes, Policy.CtorReading, CallLayer;
    OriginField(steps, o, cfg, q, x, part);
    Policy.ConstructedField(library, ini, raw, ctor, Policy.InConfig(x, part));
    LayersAre(library, ini, raw, ctor, q.options, x, part);
    hide Layers, Policy.Layered;
  }

  /** The layers, taken in two steps. */
  lemma LayersAre(library: Policy.Store, ini: Policy.Ini, raw: Policy.OptVal -> int, ctor: seq<Policy.Opt>, call: seq<Policy.Opt>,
                  x: Policy.Target, part: Policy.Part)
    requires Policy.Constructed(library, ini, raw, ctor).Done?
    ensures Layers(library, ini, raw, ctor, call, x, part)
            == Policy.Layered(CallLayer(call, x, part), None, None, Policy.At(Policy.Constructed(library, ini, raw, ctor).store, Policy.InConfig(x, part)))
  {
    hide Policy.Constructed, Policy.LastOf, Policy.IniValue, Policy.CtorCodes, Policy.CtorReading, CallLayer;
    Policy.ConstructedField(library, ini, raw, ctor, Policy.InConfig(x, part));
  }

  lemma TimeoutLayers(library: Policy.Store, ini: Policy.Ini, raw: Policy.OptVal -> int, ctor: seq<Policy.Opt>, call: seq<Policy.Opt>, x: Policy.Target)
    requires x in Policy.POLICIES && x != Policy.Admin
    ensures var reader := x in {Policy.Read, Policy.Info, Policy.Batch, Policy.Scan, Policy.Query};
            var codes := if x in {Policy.Read, Policy.Batch} then {2} else if reader then {2, 3} else {3};
            var entry := if reader then ini.readTimeout else ini.writeTimeout;
            Layers(library, ini, raw, ctor, call, x, Policy.Timeout) ==
            Policy.Layered(Policy.LastOf(call, codes, Policy.AsUint32), Policy.LastOf(ctor, if reader then {2} else {3}, Policy.AsUint32),
                           Policy.NonZero(entry), Policy.At(library, Policy.InConfig(x, Policy.Timeout)))
  {
    Policy.IniSpelled(ini);
    hide Policy.LastOf, Policy.IniValue, Policy.Layered;
  }

  lemma KeyLayers(library: Policy.Store, ini: Policy.Ini, raw: Policy.OptVal -> int, ctor: seq<Policy.Opt>, call: seq<Policy.Opt>, x: Policy.Target)
    requires x in {Policy.Read, Policy.Write, Policy.Operate, Policy.Remove}
    ensures Layers(library, ini, raw, ctor, call, x, Policy.KeyPolicy) ==
            Policy.Layered(Policy.LastOf(call, {12}, Policy.AsUint32), Policy.LastOf(ctor, {12}, Policy.AsUint32),
                           Policy.NonZero(ini.keyPolicy), Policy.At(library, Policy.InConfig(x, Policy.KeyPolicy)))
  {
    Policy.IniSpelled(ini);
    hide Policy.LastOf, Policy.IniValue, Policy.Layered;
  }

  /** Spelled out for the timeouts: options 2 and 3. */
  lemma TimeoutPrecedence<R, O>(steps: seq<Step<R, O>>, o: O, cfg: Config, library: Policy.Store, ini: Policy.Ini,
                                raw: Policy.OptVal -> int, ctor: seq<Policy.Opt>, q: Request, x: Policy.Target)
    requires HoldsFrom(steps, o, cfg) && BuiltFrom(cfg, library, ini, raw, ctor) && Defaulted(q, x)
    requires InForce(Exec(Init<R, O>(), steps), o, q).Done?
    ensures var reader := x in {Policy.Read, Policy.Info, Policy.Batch, Policy.Scan, Policy.Query};
            var codes := if x in {Policy.Read, Policy.Batch} then {2} else if reader then {2, 3} else {3};
            var entry := if reader then ini.readTimeout else ini.writeTimeout;
            FieldOf(InForce(Exec(Init<R, O>(), steps), o, q), x, Policy.Timeout) ==
            Policy.Layered(Policy.LastOf(q.options, codes, Policy.AsUint32), Policy.LastOf(ctor, if reader then {2} else {3}, Policy.AsUint32),
                           Policy.NonZero(entry), Policy.At(library, Policy.InConfig(x, Policy.Timeout)))
  {
    FieldPrecedence(steps, o, cfg, library, ini, raw, ctor, q, x, Policy.Timeout);
    TimeoutLayers(library, ini, raw, ctor, q.options, x);
    hide *;
  }

  /** And for the key policies: option 12. */
  lemma KeyPrecedence<R, O>(steps: seq<Step<R, O>>, o: O, cfg: Config, library: Policy.Store, ini: Policy.Ini,
                            raw: Policy.OptVal -> int, ctor: seq<Policy.Opt>, q: Request, x: Policy.Target)
    requires HoldsFrom(steps, o, cfg) && BuiltFrom(cfg, library, ini, raw, ctor) && Defaulted(q, x)
    requires x in {Policy.Read, Policy.Write, Policy.Operate, Policy.Remove}
    requires InForce(Exec(Init<R, O>(), steps), o, q).Done?
    ensures FieldOf(InForce(Exec(Init<R, O>(), steps), o, q), x, Policy.KeyPolicy) ==
            Policy.Layered(Policy.LastOf(q.options, {12}, Policy.AsUint32), Policy.LastOf(ctor, {12}, Policy.AsUint32),
                           Policy.NonZero(ini.keyPolicy), Policy.At(library, Policy.InConfig(x, Policy.KeyPolicy)))
  {
    FieldPrecedence(steps, o, cfg, library, ini, raw, ctor, q, x, Policy.KeyPolicy);
    KeyLayers(library, ini, raw, ctor, q.options, x);
    hide *;
  }

  // ----- when it is the object's own configuration

  /** A cell that was there before and that a construction with `cfg` attaches to. */
  ghost function Captured<R, O>(s: State<R, O>, persist: bool, cfg: Config): Option<R> {
    if persist then FindAlias(s.table, Aliases(cfg)) else None
  }

  /** Right after a construction: the object holds a cell with the captured configuration, else with its own. */
  lemma BoundTo<R, O>(s: State<R, O>, o: O, persist: bool, cfg: Config, r: R, ok: bool)
    requires Inv(s) && s.up && cfg.hosts != [] && Enabled(s, Construct(o, Accepted(persist, cfg), r, ok))
    requires ConstructSafe(s.objs[o], Accepted(persist, cfg))
    ensures var t := DoConstruct(s, o, Accepted(persist, cfg), r, ok);
            && t.Some? && o in t.value.objs && t.value.objs[o].asRef.Some?
            && t.value.objs[o].asRef.value in t.value.cells
            && t.value.cells[t.value.objs[o].asRef.value].policy == PolicyFor(s, persist, cfg)
  {
    var b := s.objs[o].(isConn := false, isPersistent := persist);
    if !persist {
      BindCreatesPrivate(s, o, b, cfg, r, ok);
    } else if FindAlias(s.table, Aliases(cfg)).None? {
      CreateResult(s, o, b, cfg, r, ok);
    } else {
      FindAliasSpec(s.table, Aliases(cfg));
      AttachResult(s, o, b, cfg, r, ok);
    }
  }

  ghost function PolicyFor<R, O>(s: State<R, O>, persist: bool, cfg: Config): Policy.Store {
    match Captured(s, persist, cfg)
    case Some(q) => if q in s.cells then s.cells[q].policy else map[]
    case None => cfg.policy
  }

  /** No connection is captured, or the captured one has the same default. */
  ghost predicate SameAt<R, O>(s: State<R, O>, persist: bool, cfg: Config, slot: Policy.Slot) {
    match Captured(s, persist, cfg)
    case None => true
    case Some(q) => q in s.cells && Policy.At(s.cells[q].policy, slot) == Policy.At(cfg.policy, slot)
  }

  lemma SameAtIff<R, O>(s: State<R, O>, persist: bool, cfg: Config, slot: Policy.Slot)
    requires Inv(s)
    ensures SameAt(s, persist, cfg, slot) <==> Policy.At(PolicyFor(s, persist, cfg), slot) == Policy.At(cfg.policy, slot)
  {
    FindAliasSpec(s.table, Aliases(cfg));
  }

  // ----- until it is constructed again

  /** The step does not construct `o` again, and does not end it. */
  ghost predicate LeavesBound<R, O>(step: Step<R, O>, o: O) {
    match step
    case Construct(p, _, _, _) => p != o
    case Drop(p) => p != o
    case SessionClose(p) => p != o
    case _ => true
  }

  lemma StepKeepsHolder<R, O>(s: State<R, O>, step: Step<R, O>, o: O)
    requires Inv(s) && Enabled(s, step) && Tame(s, step) && o in s.objs && LeavesBound(step, o)
    ensures Apply(s, step).Some? && o in Apply(s, step).value.objs && Apply(s, step).value.objs[o].asRef == s.objs[o].asRef
  {
    StepDefined(s, step);
    match step
    case Construct(p, args, r, ok) =>
      if Binds(args) {
        BindSparesOthers(s, p, s.objs[p].(isConn := false, isPersistent := args.persist), args.cfg, r, ok, o);
      }
    case SessionOpen(p, Some(hosts), library, r, ok) =>
      if hosts != [] {
        BindSparesOthers(s, p, Obj(true, true, None, false), SessionConfig(hosts, library), r, ok, o);
      }
    case Call(p, q) => CallKeeps(s, p, q);
    case _ =>
  }

  lemma BindSparesOthers<R, O>(s: State<R, O>, p: O, b: Obj<R>, cfg: Config, r: R, ok: bool, o: O)
    requires Binding(s, p, b, cfg, r) && o in s.objs && o != p
    ensures var t := BindAndConnect(SetObj(s, p, b), p, b.isPersistent, cfg, r, ok);
            t.Some? && o in t.value.objs && t.value.objs[o] == s.objs[o]
  {
    if !b.isPersistent {
      BindCreatesPrivate(s, p, b, cfg, r, ok);
    } else if FindAlias(s.table, Aliases(cfg)).None? {
      CreateResult(s, p, b, cfg, r, ok);
    } else {
      FindAliasSpec(s.table, Aliases(cfg));
      AttachResult(s, p, b, cfg, r, ok);
    }
  }

  lemma {:induction false} RunKeepsHolder<R, O>(s: State<R, O>, steps: seq<Step<R, O>>, o: O)
    requires Inv(s) && TameRun(s, steps) && o in s.objs && forall i :: 0 <= i < |steps| ==> LeavesBound(steps[i], o)
    ensures o in Exec(s, steps).objs && Exec(s, steps).objs[o].asRef == s.objs[o].asRef
    decreases |steps|
  {
    if steps != [] {
      StepKeepsInv(s, steps[0]);
      StepKeepsHolder(s, steps[0], o);
      RunKeepsHolder(Apply(s, steps[0]).value, steps[1..], o);
    }
  }

  /** `u` is a state that a construction in the reachable state `s` and then any tame run lead to, in which
      the object is not constructed again. */
  ghost predicate Later<R, O>(s: State<R, O>, o: O, persist: bool, cfg: Config, r: R, ok: bool, steps: seq<Step<R, O>>, u: State<R, O>) {
    && Inv(s) && s.up && cfg.hosts != [] && Enabled(s, Construct(o, Accepted(persist, cfg), r, ok))
    && ConstructSafe(s.objs[o], Accepted(persist, cfg))
    && var t := DoConstruct(s, o, Accepted(persist, cfg), r, ok);
       t.Some? && TameRun(t.value, steps) && u == Exec(t.value, steps) && forall i :: 0 <= i < |steps| ==> LeavesBound(steps[i], o)
  }

  lemma LaterPolicy<R, O>(s: State<R, O>, o: O, persist: bool, cfg: Config, r: R, ok: bool, steps: seq<Step<R, O>>, u: State<R, O>)
    requires Later(s, o, persist, cfg, r, ok, steps, u)
    ensures o in u.objs && u.objs[o].asRef.Some? && u.objs[o].asRef.value in u.cells
    ensures SameDefaults(PolicyFor(s, persist, cfg), u.cells[u.objs[o].asRef.value].policy)
  {
    var t := DoConstruct(s, o, Accepted(persist, cfg), r, ok).value;
    BoundTo(s, o, persist, cfg, r, ok);
    ConstructKeepsInvIff(s, o, Accepted(persist, cfg), r, ok);
    hide DoConstruct;
    RunKeepsHolder(t, steps, o);
    var q := t.objs[o].asRef.value;
    RunKeepsCells(t, steps, q);
    RunOrigin(t, steps, q);
  }

  lemma {:induction false} RunKeepsCells<R, O>(s: State<R, O>, steps: seq<Step<R, O>>, r: R)
    requires Inv(s) && TameRun(s, steps) && r in s.cells
    ensures r in Exec(s, steps).cells
    decreases |steps|
  {
    if steps != [] {
      StepKeepsInv(s, steps[0]);
      StepInherits(s, steps[0]);
      RunKeepsCells(Apply(s, steps[0]).value, steps[1..], r);
    }
  }

  /** From its construction on, in any tame run in which it is not constructed again, a field of the policy of
      an object's calls is the one its own layers give if and only if the call has an option for it, or no
      connection was captured, or the one that was had the same default. */
  lemma OwnFieldIff<R, O>(s: State<R, O>, o: O, persist: bool, cfg: Config, r: R, ok: bool, steps: seq<Step<R, O>>, u: State<R, O>,
                          library: Policy.Store, ini: Policy.Ini, raw: Policy.OptVal -> int, ctor: seq<Policy.Opt>, q: Request,
                          x: Policy.Target, part: Policy.Part)
    requires Later(s, o, persist, cfg, r, ok, steps, u) && BuiltFrom(cfg, library, ini, raw, ctor) && Defaulted(q, x)
    ensures o in u.objs && u.objs[o].asRef.Some? && u.objs[o].asRef.value in u.cells
    ensures InForce(u, o, q).Done? ==>
              (FieldOf(InForce(u, o, q), x, part) == Layers(library, ini, raw, ctor, q.options, x, part) <==>
                CallLayer(q.options, x, part).Some? || SameAt(s, persist, cfg, Policy.InConfig(x, part)))
  {
    LaterPolicy(s, o, persist, cfg, r, ok, steps, u);
    SameAtIff(s, persist, cfg, Policy.InConfig(x, part));
    if InForce(u, o, q).Done? {
      OwnLayers(u.cells[u.objs[o].asRef.value].policy, PolicyFor(s, persist, cfg), cfg, library, ini, raw, ctor, q, x, part);
    }
    hide Later, PolicyFor, SameAt, Layers, CallLayer, BuiltFrom, FieldOf, Defaulted, Policy.At, Policy.Called;
  }

  /** A call on a configuration with the defaults of `held`, by an object whose own layers gave `cfg`. */
  lemma OwnLayers(p: Policy.Store, held: Policy.Store, cfg: Config, library: Policy.Store, ini: Policy.Ini, raw: Policy.OptVal -> int,
                  ctor: seq<Policy.Opt>, q: Request, x: Policy.Target, part: Policy.Part)
    requires SameDefaults(held, p) && BuiltFrom(cfg, library, ini, raw, ctor) && Defaulted(q, x)
    requires Policy.Called(p, q.targets, q.env, q.options).Done?
    ensures FieldOf(Policy.Called(p, q.targets, q.env, q.options), x, part) == Layers(library, ini, raw, ctor, q.options, x, part) <==>
            CallLayer(q.options, x, part).Some? || Policy.At(held, Policy.InConfig(x, part)) == Policy.At(cfg.policy, Policy.InConfig(x, part))
  {
    hide SameDefaults, Layers, CallLayer, FieldOf, Policy.Layered, Policy.At, Policy.Called, Policy.Constructed, Policy.OnlyPolicy;
    var slot := Policy.InConfig(x, part);
    DefaultsAt(held, p, x, part);
    DefaultsAt(Policy.Constructed(library, ini, raw, ctor).store, cfg.policy, x, part);
    CallLayered(p, q, x, part);
    LayersAre(library, ini, raw, ctor, q.options, x, part);
    Policy.LayeredSame(CallLayer(q.options, x, part), Policy.At(p, slot), Policy.At(cfg.policy, slot));
  }

  lemma DefaultsAt(p: Policy.Store, q: Policy.Store, x: Policy.Target, part: Policy.Part)
    requires SameDefaults(p, q) && x in Policy.POLICIES
    ensures Policy.At(p, Policy.InConfig(x, part)) == Policy.At(q, Policy.InConfig(x, part))
  {}

  const PLAIN := Policy.Ini(0, 0, 0, 0, 0, 0, 0)

  /** A run in which it is not: the first object, without options, leaves the library's read timeout of a
      second; the second, with a timeout of five, attaches; its read runs with a second. */
  lemma SecondObjectIgnored(raw: Policy.OptVal -> int, env: Policy.ScanEnv)
    returns (s1: State<nat, nat>, s2: State<nat, nat>, s3: State<nat, nat>, s4: State<nat, nat>, first: Policy.Store, second: Policy.Store)
    ensures var library := map[Policy.InConfig(Policy.Read, Policy.Timeout) := 1000];
            var options := [Policy.Opt(Policy.Id(Policy.READ_TIMEOUT), Policy.Long(5000))];
            var read := Request({Policy.Read, Policy.Target.Config}, env, []);
            && Policy.Constructed(library, PLAIN, raw, []) == Policy.Done(first)
            && Policy.Constructed(library, PLAIN, raw, options) == Policy.Done(second)
            && Follows(Init(), New(0), s1)
            && Follows(s1, Construct(0, Accepted(true, Config([Host("h", 3000)], "u", false, first)), 7, true), s2)
            && Follows(s2, New(1), s3)
            && Follows(s3, Construct(1, Accepted(true, Config([Host("h", 3000)], "u", false, second)), 8, true), s4)
            && 1 in s4.objs && s4.objs[1].asRef == Some(7) && 7 in s4.cells
            && InForce(s4, 1, read).Done? && FieldOf(InForce(s4, 1, read), Policy.Read, Policy.Timeout) == Some(1000)
            && Layers(library, PLAIN, raw, options, [], Policy.Read, Policy.Timeout) == Some(5000)
  {
    first, second := TwoStores(raw);
    s1 := Apply(Init(), New(0)).value;
    s2 := FirstConstruction(s1, first);
    s3 := Apply(s2, New(1)).value;
    s4 := SecondConstruction(s3, second);
    ReadTimeout(raw, env, first);
  }

  lemma TwoStores(raw: Policy.OptVal -> int) returns (first: Policy.Store, second: Policy.Store)
    ensures var library := map[Policy.InConfig(Policy.Read, Policy.Timeout) := 1000];
            var options := [Policy.Opt(Policy.Id(Policy.READ_TIMEOUT), Policy.Long(5000))];
            && Policy.Constructed(library, PLAIN, raw, []) == Policy.Done(first)
            && Policy.Constructed(library, PLAIN, raw, options) == Policy.Done(second)
            && Policy.At(first, Policy.InConfig(Policy.Read, Policy.Timeout)) == Some(1000)
            && Layers(library, PLAIN, raw, options, [], Policy.Read, Policy.Timeout) == Some(5000)
  {
    var library := map[Policy.InConfig(Policy.Read, Policy.Timeout) := 1000];
    var o := Policy.Opt(Policy.Id(Policy.READ_TIMEOUT), Policy.Long(5000));
    FiveSeconds(raw, o);
    hide *;
    first := NoOptions(raw, library);
    second := OneOption(raw, library, o);
  }

  lemma FiveSeconds(raw: Policy.OptVal -> int, o: Policy.Opt)
    requires o == Policy.Opt(Policy.Id(Policy.READ_TIMEOUT), Policy.Long(5000))
    ensures Policy.CtorEffect(raw, o).Writes?
    ensures Layers(map[Policy.InConfig(Policy.Read, Policy.Timeout) := 1000], PLAIN, raw, [o], [], Policy.Read, Policy.Timeout) == Some(5000)
  {
    hide Policy.Fan;
    assert Policy.Code(o) == Some(Policy.READ_TIMEOUT);
    assert [o][..0] == [];
  }

  lemma NoOptions(raw: Policy.OptVal -> int, library: Policy.Store) returns (first: Policy.Store)
    requires library == map[Policy.InConfig(Policy.Read, Policy.Timeout) := 1000]
    ensures Policy.Constructed(library, PLAIN, raw, []) == Policy.Done(first)
    ensures Policy.At(first, Policy.InConfig(Policy.Read, Policy.Timeout)) == Some(1000)
  {
    hide Policy.WithIni, Policy.CtorEffect, Policy.Run;
    Policy.RunSucceedsIff(Policy.CtorRule(raw), [], Policy.WithIni(library, PLAIN));
    first := Policy.Constructed(library, PLAIN, raw, []).store;
    Policy.ConstructedField(library, PLAIN, raw, [], Policy.InConfig(Policy.Read, Policy.Timeout));
  }

  lemma OneOption(raw: Policy.OptVal -> int, library: Policy.Store, o: Policy.Opt) returns (second: Policy.Store)
    requires Policy.CtorEffect(raw, o).Writes?
    ensures Policy.Constructed(library, PLAIN, raw, [o]) == Policy.Done(second)
  {
    hide Policy.WithIni, Policy.CtorEffect, Policy.Run;
    Policy.RunSucceedsIff(Policy.CtorRule(raw), [o], Policy.WithIni(library, PLAIN));
    second := Policy.Constructed(library, PLAIN, raw, [o]).store;
  }

  lemma SecondConstruction(s: State<nat, nat>, policy: Policy.Store) returns (t: State<nat, nat>)
    requires s.up && s.table == map[Single(Host("h", 3000), "u") := 7] && s.cells.Keys == {7}
    requires s.cells[7].frees == 0 && s.cells[7].handle && 1 in s.objs && s.objs[1] == Obj(false, false, None, false)
    ensures Follows(s, Construct(1, Accepted(true, Config([Host("h", 3000)], "u", false, policy)), 8, true), t)
    ensures 1 in t.objs && t.objs[1].asRef == Some(7) && 7 in t.cells && t.cells[7].policy == s.cells[7].policy
  {
    var cfg := Config([Host("h", 3000)], "u", false, policy);
    var alias := Single(Host("h", 3000), "u");
    assert Aliases(cfg) == [alias];
    hide Single;
    assert FindAlias(s.table, Aliases(cfg)) == Some(7);
    var b := Obj(false, true, None, false);
    AttachResult(s, 1, b, cfg, 8, true);
    t := Attached(s, 1, b, 7);
  }

  lemma ReadTimeout(raw: Policy.OptVal -> int, env: Policy.ScanEnv, config: Policy.Store)
    requires Policy.At(config, Policy.InConfig(Policy.Read, Policy.Timeout)) == Some(1000)
    ensures var r := Policy.Called(config, {Policy.Read, Policy.Target.Config}, env, []);
            r.Done? && FieldOf(r, Policy.Read, Policy.Timeout) == Some(1000)
  {
    var t := {Policy.Read, Policy.Target.Config};
    assert t * Policy.POLICIES == {Policy.Read};
    assert Policy.Read in t * (Policy.POLICIES + {Policy.Serializer});
    Policy.RunSucceedsIff(Policy.CallRule(t, env), [], Policy.CallStart(config, t));
    hide Policy.Run;
    Policy.CallField(config, t, env, [], Policy.Read, Policy.InCall(Policy.Read, Policy.Timeout));
  }
}
