/**
  The registry on the heap: the extension's structures and the functions that update them in place,
  each proved to take exactly the corresponding step of `RegistrySpec`.
 */
module Registry {
  import opened Wrappers
  import opened HostAlias
  import opened RegistrySpec
  import opened RegistryProofs
  import Policy

  class AerospikeRef {
    var asP: bool               // as_p != NULL
    var policy: Policy.Store    // as_p->config.policies and the connect timeout beside them
    var refCount: int
    var refHostsEntry: int
    ghost const shared: bool
    ghost var attempts: nat     // library connects
    ghost var closes: nat       // library closes
    ghost var destroys: nat
    ghost var frees: nat

    /** Allocation, zeroing, `aerospike_new` and the first count. */
    constructor (ghost shared: bool, policy: Policy.Store)
      ensures View() == NewCell(shared, policy, 0)
    {
      this.policy := policy;
      asP, refCount, refHostsEntry := true, 1, 0;
      this.shared := shared;
      attempts, closes, destroys, frees := 0, 0, 0, 0;
    }

    ghost function View(): Cell
      reads this
    {
      Cell(shared, asP, policy, refCount, refHostsEntry, attempts, closes, destroys, frees)
    }

    /** `aerospike_connect` is called. */
    method CountAttempt()
      modifies this`attempts
      ensures View() == old(View()).(attempts := old(View()).attempts + 1)
    {
      attempts := attempts + 1;
    }

    /** A private connection is closed by the library, a shared one only counted down. */
    method Close(isPersistent: bool)
      modifies this`closes, this`refCount
      ensures View() == var c := old(View()); if isPersistent then HelperClose(c) else c.(closes := c.closes + 1, refCount := 0)
    {
      if !isPersistent {
        closes := closes + 1;
        refCount := 0;
      } else {
        var _ := CloseHelper();
      }
    }

    /** `aerospike_helper_close_php_connection`. */
    method CloseHelper() returns (ok: bool)
      modifies this`refCount
      ensures View() == HelperClose(old(View()))
      ensures ok <==> old(refCount) >= 1
    {
      if refCount >= 1 {
        refCount := refCount - 1;
        ok := true;
      } else {
        ok := false;
      }
    }

    /** A private connection is opened again by the library, a shared one only counted. */
    method Reopen(isPersistent: bool)
      modifies this`attempts, this`refCount
      ensures View() == var c := old(View()); if isPersistent then c.(refCount := c.refCount + 1) else c.(attempts := c.attempts + 1, refCount := 1)
    {
      if !isPersistent {
        attempts := attempts + 1;
        refCount := 1;
      } else {
        refCount := refCount + 1;
      }
    }

    method SetCount(n: int)
      modifies this`refCount
      ensures View() == old(View()).(refCount := n)
    {
      refCount := n;
    }

    method SetPolicy(policy: Policy.Store)
      modifies this`policy
      ensures View() == old(View()).(policy := policy)
    {
      this.policy := policy;
    }
  }

  class AerospikeObject {
    var isPersistent: bool
    var asRef: AerospikeRef?
    var isConn: bool
    ghost const session: bool

    ghost function Bound(): set<AerospikeRef>
      reads this
    {
      if asRef == null then {} else {asRef}
    }

    constructor (isPersistent: bool, ghost session: bool)
      ensures View() == Obj(session, isPersistent, None, false)
    {
      this.isPersistent, asRef, isConn := isPersistent, null, false;
      this.session := session;
    }

    ghost function View(): Obj<AerospikeRef>
      reads this
    {
      var bound: Option<AerospikeRef> := if asRef == null then None else (var r: AerospikeRef := asRef; Some(r));
      Obj(session, isPersistent, bound, isConn)
    }
  }

  class Extension {
    var table: map<string, AerospikeRef>                      // persistent_list_g
    var up: bool
    ghost var cells: map<AerospikeRef, Cell>                  // every cell ever allocated, as it stands
    ghost var holders: map<AerospikeObject, Obj<AerospikeRef>>

    ghost function Abs(): State<AerospikeRef, AerospikeObject>
      reads this
    {
      State(cells, table, up, holders)
    }

    /** The value view is what the heap holds, and every pointer leads to an allocated cell. */
    ghost predicate Wired()
      reads this, cells.Keys, holders.Keys
    {
      && (forall r :: r in cells ==> r.View() == cells[r])
      && (forall o :: o in holders ==> o.View() == holders[o])
      && (forall a :: a in table ==> table[a] in cells)
      && (forall o :: o in holders && o.asRef != null ==> o.asRef in cells)
    }

    /** Wired, but for one cell and one holder just changed. */
    ghost predicate WiredBut(o: AerospikeObject, r: AerospikeRef)
      reads this, cells.Keys, holders.Keys, o
    {
      && (forall q :: q in cells && q != r ==> q.View() == cells[q])
      && (forall p :: p in holders && p != o ==> p.View() == holders[p] && (p.asRef != null ==> p.asRef in cells))
      && (forall a :: a in table ==> table[a] in cells || table[a] == r)
      && (o.asRef != null ==> o.asRef in cells || o.asRef == r)
    }

    /** Records a changed cell and its changed holder in the value view. */
    ghost method Sync(o: AerospikeObject, r: AerospikeRef)
      requires WiredBut(o, r)
      modifies this`cells, this`holders
      ensures Wired() && cells == old(cells)[r := r.View()] && holders == old(holders)[o := o.View()]
    {
      cells := cells[r := r.View()];
      holders := holders[o := o.View()];
    }

    constructor ()
      ensures Wired() && Abs() == Init()
    {
      table, up, cells, holders := map[], true, map[], map[];
    }

    method IsConnected(o: AerospikeObject, answer: bool) returns (connected: bool)
      requires Wired() && o in holders && DoIsConnected(Abs(), o, answer).Some?
      modifies o`isConn, this`holders
      ensures Wired() && Some(Abs()) == DoIsConnected(old(Abs()), o, answer)
      ensures connected <==> answer && old(o.asRef != null && o.asRef.asP)
    {
      if o.asRef == null || !o.asRef.asP {
        return false;
      }
      o.isConn := answer;
      holders := holders[o := o.View()];
      connected := answer;
    }

    /** The head of every method that goes to the cluster: the policy of the call is built on the configuration
        of the held cell. */
    method Call(o: AerospikeObject, q: Request) returns (done: bool, fields: Policy.PolicyFields?)
      requires Wired() && o in holders && DoCall(Abs(), o, q).Some? && Policy.OptionsDefined(q.targets, q.env, q.options)
      modifies o.Bound(), this`cells
      ensures Wired() && Some(Abs()) == DoCall(old(Abs()), o, q)
      ensures done <==> old(o.isConn) && Policy.Called(old(o.asRef.policy), q.targets, q.env, q.options).Done?
      ensures done ==> fields != null && fields.slots == Policy.Called(old(o.asRef.policy), q.targets, q.env, q.options).store
    {
      fields := null;
      if !o.isConn {
        return false, null;
      }
      done, fields := ApplyPolicy(o.asRef, q);
    }

    /** The fields of the call on a given configuration, and that configuration afterwards. */
    method BuildPolicy(config: Policy.Store, q: Request) returns (done: bool, fields: Policy.PolicyFields, after: Policy.Store)
      requires Policy.OptionsDefined(q.targets, q.env, q.options)
      ensures fresh(fields) && after == PolicyAfter(config, q)
      ensures var called := Policy.Called(config, q.targets, q.env, q.options);
              done == called.Done? && (done ==> fields.slots == called.store)
    {
      fields := new Policy.PolicyFields(config);
      done := fields.SetPolicy(q.targets, q.env, q.options);
      after := Policy.ConfigPart(fields.slots);
    }

    method ApplyPolicy(r: AerospikeRef, q: Request) returns (done: bool, fields: Policy.PolicyFields)
      requires Wired() && r in cells && Policy.OptionsDefined(q.targets, q.env, q.options)
      modifies r, this`cells
      ensures Wired()
      ensures var called := Policy.Called(old(r.policy), q.targets, q.env, q.options);
              && done == called.Done? && (done ==> fields.slots == called.store)
              && cells == old(cells)[r := old(cells)[r].(policy := PolicyAfter(old(r.policy), q))]
    {
      hide Policy.Called, Policy.OptionsDefined, Policy.ConfigPart, Policy.Left, PolicyAfter;
      var policy;
      done, fields, policy := BuildPolicy(r.policy, q);
      r.SetPolicy(policy);
      cells := cells[r := r.View()];
    }

    method Close(o: AerospikeObject) returns (accepted: bool)
      requires Wired() && o in holders && DoClose(Abs(), o).Some?
      modifies o`isConn, o.Bound(), this`cells, this`holders
      ensures Wired() && Some(Abs()) == DoClose(old(Abs()), o)
      ensures accepted <==> old(o.isConn && o.asRef != null && o.asRef.asP && o.asRef.refCount >= 1)
      ensures accepted ==> !o.isConn
    {
      if o.asRef == null || !o.asRef.asP {
        return false;
      }
      if !o.isConn || o.asRef.refCount < 1 {
        return false;
      }
      CloseConnection(o, o.asRef);
      accepted := true;
    }

    method CloseConnection(o: AerospikeObject, r: AerospikeRef)
      requires Wired() && o in holders && o.asRef == r && r in cells
      modifies o`isConn, r, this`cells, this`holders
      ensures Wired() && !o.isConn && holders == old(holders)[o := old(holders)[o].(isConn := false)]
      ensures var c := old(cells)[r];
              cells == old(cells)[r := if o.isPersistent then HelperClose(c) else c.(closes := c.closes + 1, refCount := 0)]
    {
      r.Close(o.isPersistent);
      o.isConn := false;
      Sync(o, r);
    }

    method Reconnect(o: AerospikeObject) returns (accepted: bool)
      requires Wired() && o in holders && DoReconnect(Abs(), o).Some?
      modifies o`isConn, o.Bound(), this`cells, this`holders
      ensures Wired() && Some(Abs()) == DoReconnect(old(Abs()), o)
      ensures accepted <==> old(!o.isConn && o.asRef != null && o.asRef.asP && o.asRef.refCount <= 0)
      ensures accepted ==> o.isConn
    {
      if o.asRef == null || !o.asRef.asP {
        return false;
      }
      if o.isConn || o.asRef.refCount > 0 {
        return false;
      }
      ReopenConnection(o, o.asRef);
      accepted := true;
    }

    method ReopenConnection(o: AerospikeObject, r: AerospikeRef)
      requires Wired() && o in holders && o.asRef == r && r in cells
      modifies o`isConn, r, this`cells, this`holders
      ensures Wired() && o.isConn && holders == old(holders)[o := old(holders)[o].(isConn := true)]
      ensures var c := old(cells)[r];
              cells == old(cells)[r := if o.isPersistent then c.(refCount := c.refCount + 1) else c.(attempts := c.attempts + 1, refCount := 1)]
    {
      r.Reopen(o.isPersistent);
      o.isConn := true;
      Sync(o, r);
    }

    /** `Aerospike_object_new`. */
    method NewObject() returns (o: AerospikeObject)
      requires Wired()
      modifies this`holders
      ensures Wired() && fresh(o) && Enabled(old(Abs()), New(o)) && Apply(old(Abs()), New(o)) == Some(Abs())
    {
      o := new AerospikeObject(false, false);
      holders := holders[o := o.View()];
    }

    /** `Aerospike_object_free_storage`. */
    method FreeStorage(o: AerospikeObject)
      requires Wired() && o in holders && DoDrop(Abs(), o).Some?
      modifies o`asRef, o.Bound(), this`cells, this`holders
      ensures Wired() && Some(Abs()) == DoDrop(old(Abs()), o)
    {
      if !o.isPersistent && o.asRef != null {
        ReleasePrivate(o, o.asRef);
      }
      Forget(o);
    }

    method Forget(o: AerospikeObject)
      requires Wired()
      modifies o`asRef, this`holders
      ensures Wired() && holders == old(holders) - {o}
    {
      o.asRef := null;
      holders := holders - {o};
    }

    method ReleasePrivate(o: AerospikeObject, r: AerospikeRef)
      requires Wired() && o in holders && o.asRef == r && r in cells
      modifies r, this`cells
      ensures Wired() && cells == old(cells)[r := Freed(old(cells)[r])]
    {
      FreeRef(r);
      cells := cells[r := r.View()];
    }

    method FreeRef(r: AerospikeRef)
      modifies r
      ensures r.View() == Freed(old(r.View()))
    {
      if r.refCount != 0 {
        r.closes := r.closes + 1;
        r.refCount := 0;
      }
      r.destroys := r.destroys + 1;
      r.asP := false;
      r.frees := r.frees + 1;
    }

    /** `aerospike_helper_object_from_alias_hash`: search every alias, else create one cell under all of them.
        The shared-memory step at the exit overwrites the status of an empty host list. */
    method ObjectFromAliasHash(o: AerospikeObject, persist: bool, cfg: Config) returns (ok: bool)
      requires Wired() && o in holders
      requires persist && cfg.hosts != [] ==> BindDefined(Abs(), cfg)
      modifies o`asRef, o`isConn, table.Values`refCount, this`table, this`cells, this`holders
      ensures Wired()
      ensures cfg.hosts == [] ==> Abs() == old(Abs()) && o.asRef == old(o.asRef) && o.isConn == old(o.isConn) && ok == cfg.useShm
      ensures cfg.hosts != [] ==> o.asRef != null && (fresh(o.asRef) || o.asRef in old(table.Values))
      ensures cfg.hosts != [] ==> FromAlias<AerospikeRef, AerospikeObject>(old(Abs()), o, persist, cfg, o.asRef) == Some((Abs(), ok))
      ensures cfg.hosts != [] ==> Usable(Abs(), o.asRef)
    {
      if cfg.hosts == [] {
        return cfg.useShm;
      }
      ok := true;
      if persist {
        ObtainShared(o, cfg);
      } else {
        CreatePrivate(o, cfg);
      }
    }

    method ObtainShared(o: AerospikeObject, cfg: Config)
      requires Wired() && o in holders && cfg.hosts != [] && BindDefined(Abs(), cfg)
      modifies o`asRef, o`isConn, table.Values`refCount, this`table, this`cells, this`holders
      ensures Wired() && o.asRef != null && (fresh(o.asRef) || o.asRef in old(table.Values))
      ensures FromAlias<AerospikeRef, AerospikeObject>(old(Abs()), o, true, cfg, o.asRef) == Some((Abs(), true))
      ensures Usable(Abs(), o.asRef)
    {
      var existing := FindExisting(cfg);
      FindAliasSpec<AerospikeRef>(table, Aliases(cfg));
      if existing != null {
        Attach(o, existing);
      } else {
        Create(o, cfg);
      }
    }

    /** The search loop: the cell under the first alias that is bound. */
    method FindExisting(cfg: Config) returns (r: AerospikeRef?)
      ensures r == null ==> FindAlias<AerospikeRef>(table, Aliases(cfg)) == None
      ensures r != null ==> FindAlias<AerospikeRef>(table, Aliases(cfg)) == Some(r)
    {
      ghost var aliases := Aliases(cfg);
      var i := 0;
      while i < |cfg.hosts|
        invariant i <= |cfg.hosts|
        invariant FindAlias<AerospikeRef>(table, aliases) == FindAlias<AerospikeRef>(table, aliases[i..])
      {
        var alias := Single(cfg.hosts[i], cfg.user);
        assert alias == aliases[i..][0] && aliases[i..][1..] == aliases[i + 1..];
        if alias in table {
          return table[alias];
        }
        i := i + 1;
      }
      assert aliases[i..] == [];
      r := null;
    }

    method CreatePrivate(o: AerospikeObject, cfg: Config)
      requires Wired() && o in holders
      modifies o`asRef, this`cells, this`holders
      ensures Wired() && o.asRef != null && fresh(o.asRef)
      ensures Abs() == WithPrivate<AerospikeRef, AerospikeObject>(old(Abs()), o, cfg, o.asRef)
    {
      var r := new AerospikeRef(false, cfg.policy);
      o.asRef := r;
      Sync(o, r);
    }

    method Attach(o: AerospikeObject, r: AerospikeRef)
      requires Wired() && o in holders && r in cells && Live(Abs(), r)
      modifies o`asRef, o`isConn, r`refCount, this`cells, this`holders
      ensures Wired() && o.asRef == r
      ensures Abs() == WithAttached(old(Abs()), o, r)
    {
      o.isConn := true;
      o.asRef := r;
      r.SetCount(r.refCount + 1);
      Sync(o, r);
    }

    method Create(o: AerospikeObject, cfg: Config)
      requires Wired() && o in holders && cfg.hosts != []
      modifies o`asRef, this`table, this`cells, this`holders
      ensures Wired() && o.asRef != null && fresh(o.asRef)
      ensures Abs() == WithShared<AerospikeRef, AerospikeObject>(old(Abs()), o, cfg, o.asRef)
    {
      var r := NewShared(cfg);
      Rebind(o, r);
    }

    method NewShared(cfg: Config) returns (r: AerospikeRef)
      requires Wired()
      modifies this`table, this`cells
      ensures Wired() && fresh(r)
      ensures cells == old(cells)[r := NewCell(true, cfg.policy, |cfg.hosts|)]
      ensures table == AddAliases<AerospikeRef>(old(table), Aliases(cfg), r)
    {
      r := new AerospikeRef(true, cfg.policy);
      AddAliasesSpec<AerospikeRef>(table, Aliases(cfg), r);
      Register(r, cfg);
      cells := cells[r := r.View()];
    }

    method Rebind(o: AerospikeObject, r: AerospikeRef)
      requires Wired() && o in holders && r in cells
      modifies o`asRef, this`holders
      ensures Wired() && o.asRef == r && holders == old(holders)[o := old(holders)[o].(asRef := Some(r))]
    {
      o.asRef := r;
      holders := holders[o := o.View()];
    }

    /** The registration loop: every alias is added, and counted whether or not the add took place. */
    method Register(r: AerospikeRef, cfg: Config)
      modifies this`table, r`refHostsEntry
      ensures table == AddAliases<AerospikeRef>(old(table), Aliases(cfg), r)
      ensures r.refHostsEntry == old(r.refHostsEntry) + |cfg.hosts|
    {
      ghost var aliases, before := Aliases(cfg), table;
      var i := 0;
      while i < |cfg.hosts|
        invariant i <= |cfg.hosts|
        invariant r.refHostsEntry == old(r.refHostsEntry) + i
        invariant table == AddAliases<AerospikeRef>(before, aliases[..i], r)
      {
        var alias := Single(cfg.hosts[i], cfg.user);
        AddAliasesLast<AerospikeRef>(before, aliases[..i + 1], r);
        assert aliases[..i + 1][..i] == aliases[..i];
        if alias !in table {
          table := table[alias := r];
        }
        r.refHostsEntry := r.refHostsEntry + 1;
        i := i + 1;
      }
      assert aliases[..i] == aliases;
    }

    /** `aerospike_connect`, unless the flag says there is a connection already. */
    method Connect(o: AerospikeObject, r: AerospikeRef, connectOk: bool)
      requires Wired() && o in holders && r in cells
      modifies o`isConn, r`attempts, this`cells, this`holders
      ensures Wired() && Abs() == ConnectIfNeeded(old(Abs()), o, r, connectOk)
    {
      if !o.isConn {
        Attempt(o, r, connectOk);
      }
    }

    method Attempt(o: AerospikeObject, r: AerospikeRef, connectOk: bool)
      requires Wired() && o in holders && r in cells
      modifies o`isConn, r`attempts, this`cells, this`holders
      ensures Wired() && cells == old(cells)[r := old(cells)[r].(attempts := old(cells)[r].attempts + 1)]
      ensures holders == old(holders)[o := old(holders)[o].(isConn := connectOk)]
    {
      r.CountAttempt();
      o.isConn := connectOk;
      Sync(o, r);
    }

    method BindThenConnect(o: AerospikeObject, cfg: Config, connectOk: bool)
      requires Wired() && o in holders && cfg.hosts != [] && (o.isPersistent ==> BindDefined(Abs(), cfg))
      modifies o`asRef, o`isConn, table.Values, this`table, this`cells, this`holders
      ensures Wired() && o.asRef != null
      ensures BindAndConnect<AerospikeRef, AerospikeObject>(old(Abs()), o, o.isPersistent, cfg, o.asRef, connectOk) == Some(Abs())
    {
      hide FromAlias, ConnectIfNeeded, AddAliases, FindAlias, Aliases;
      var _ := ObjectFromAliasHash(o, o.isPersistent, cfg);
      Connect(o, o.asRef, connectOk);
    }

    method SetFlag(o: AerospikeObject, isPersistent: bool)
      requires Wired() && o in holders
      modifies o`isConn, o`isPersistent, this`holders
      ensures Wired() && o.isPersistent == isPersistent
      ensures Abs() == SetObj(old(Abs()), o, old(Abs()).objs[o].(isConn := false, isPersistent := isPersistent))
    {
      o.isConn := false;
      o.isPersistent := isPersistent;
      holders := holders[o := o.View()];
    }

    /** `__construct`. */
    method Construct(o: AerospikeObject, args: Args, connectOk: bool)
      requires Wired() && o in holders && ConstructDefined(Abs(), o, args)
      modifies o, o.Bound(), table.Values, this`table, this`cells, this`holders
      ensures Wired() && (Binds(args) ==> o.asRef != null)
      ensures if Binds(args)
              then DoConstruct<AerospikeRef, AerospikeObject>(old(Abs()), o, args, o.asRef, connectOk) == Some(Abs())
              else ConstructUnbound(old(Abs()), o, args, connectOk) == Some(Abs())
    {
      match args
      case Unparsed => SetFlag(o, o.isPersistent);
      case Rejected(persist) => SetFlag(o, persist);
      case Accepted(persist, cfg) =>
        if cfg.hosts != [] {
          SetFlag(o, persist);
          BindThenConnect(o, cfg, connectOk);
        } else {
          ConstructOnNothing(o, persist, cfg, connectOk);
        }
    }

    method ConstructOnNothing(o: AerospikeObject, persist: bool, cfg: Config, connectOk: bool)
      requires Wired() && o in holders && cfg.hosts == [] && ConstructDefined(Abs(), o, Accepted(persist, cfg))
      modifies o, o.Bound(), table.Values, this`table, this`cells, this`holders
      ensures Wired()
      ensures ConstructUnbound(old(Abs()), o, Accepted(persist, cfg), connectOk) == Some(Abs())
    {
      hide ConnectIfNeeded, FindAlias, Aliases;
      SetFlag(o, persist);
      EmptyHosts(o, cfg, connectOk);
    }

    method EmptyHosts(o: AerospikeObject, cfg: Config, connectOk: bool)
      requires Wired() && o in holders && cfg.hosts == []
      requires cfg.useShm ==> o.asRef != null && Usable(Abs(), o.asRef)
      modifies o`asRef, o`isConn, o.Bound(), table.Values`refCount, this`table, this`cells, this`holders
      ensures Wired() && o.asRef == old(o.asRef)
      ensures if cfg.useShm then o.asRef != null && Abs() == ConnectIfNeeded<AerospikeRef, AerospikeObject>(old(Abs()), o, o.asRef, connectOk)
              else Abs() == old(Abs())
    {
      var ok := ObjectFromAliasHash(o, o.isPersistent, cfg);
      if ok {
        Connect(o, o.asRef, connectOk);
      }
    }

    /** `PS_OPEN`; `parsed` is what the save path yields. */
    method SessionOpen(parsed: Option<seq<Host>>, library: Policy.Store, connectOk: bool) returns (o: AerospikeObject, ghost r: AerospikeRef?, ok: bool)
      requires Wired() && (parsed.Some? && parsed.value != [] ==> BindDefined(Abs(), SessionConfig(parsed.value, library)))
      modifies table.Values, this`table, this`cells, this`holders
      ensures Wired() && fresh(o) && ok == (o in holders)
      ensures ok <==> parsed.Some? && parsed.value != [] && (connectOk || Known(old(Abs()), SessionConfig(parsed.value, library)))
      ensures ok ==> o.isConn && o.asRef != null
      ensures parsed.None? || parsed.value == [] ==> Abs() == old(Abs())
      ensures parsed.Some? && parsed.value != [] ==> r != null
      ensures parsed.Some? && parsed.value != [] ==>
                DoSessionOpen<AerospikeRef, AerospikeObject>(old(Abs()), o, parsed, library, r, connectOk) == Some(Abs())
    {
      o := new AerospikeObject(true, true);
      r, ok := null, false;
      if parsed.Some? && parsed.value != [] {
        holders := holders[o := o.View()];
        ghost var before := Abs();
        BindThenConnect(o, Config(parsed.value, "", false, library), connectOk);
        r, ok := o.asRef, o.isConn;
        BindFlag<AerospikeRef, AerospikeObject>(before, o, SessionConfig(parsed.value, library), o.asRef, connectOk);
        assert Known(before, SessionConfig(parsed.value, library)) == Known(old(Abs()), SessionConfig(parsed.value, library));
        hide BindAndConnect, Known, BindDefined;
        if !ok {
          Forget(o);
        }
      }
    }

    /** `PS_CLOSE`. */
    method SessionClose(o: AerospikeObject) returns (ok: bool)
      requires Wired() && o in holders && DoSessionClose(Abs(), o).Some?
      modifies o`asRef, o.Bound(), this`cells, this`holders
      ensures Wired() && Some(Abs()) == DoSessionClose(old(Abs()), o)
      ensures ok <==> old(o.asRef != null && o.asRef.refCount >= 1)
    {
      ok := false;
      if o.asRef != null {
        ok := GiveBack(o.asRef);
      }
      Forget(o);
    }

    method GiveBack(r: AerospikeRef) returns (ok: bool)
      requires Wired() && r in cells
      modifies r`refCount, this`cells
      ensures Wired() && cells == old(cells)[r := HelperClose(old(cells)[r])]
      ensures ok <==> old(r.refCount) >= 1
    {
      ok := r.CloseHelper();
      cells := cells[r := r.View()];
    }

    /** `aerospike_check_close_and_destroy`. */
    method DestroyRef(r: AerospikeRef)
      modifies r
      ensures r.View() == DestroyEntry(old(r.View()))
    {
      if r.refHostsEntry > 1 {
        r.refHostsEntry := r.refHostsEntry - 1;
      } else {
        if r.asP {
          r.closes := r.closes + 1;
          r.destroys := r.destroys + 1;
        }
        r.refHostsEntry := 0;
        r.asP := false;
        r.frees := r.frees + 1;
      }
    }

    /** `aerospike_globals_dtor`: the destructor runs on every entry, in whatever order the table has. */
    method DestroyTable() returns (ghost order: seq<string>)
      requires Wired() && up && Tearable(cells, table)
      modifies this, table.Values
      ensures Wired() && Enabled(old(Abs()), Teardown(order)) && Apply(old(Abs()), Teardown(order)) == Some(Abs())
    {
      order := DestroyEntries();
      assert forall b :: b in order <==> b in table;
      table := map[];
      up := false;
    }

    method DestroyEntries() returns (ghost order: seq<string>)
      requires Wired() && Tearable(cells, table)
      modifies this`cells, table.Values
      ensures Wired() && Remaining(table, map[], order)
      ensures TeardownCells(old(cells), table, order) == Some(cells)
    {
      order := [];
      var rest := table;
      while rest.Keys != {}
        invariant Remaining(table, rest, order)
        invariant Wired() && Tearable(cells, rest)
        invariant TeardownCells(old(cells), table, order) == Some(cells)
        modifies this`cells, table.Values
        decreases rest.Keys
      {
        var a :| a in rest.Keys;
        DestroyNext(a, rest, order, old(cells));
        order := order + [a];
        rest := rest - {a};
      }
      assert rest == map[];
    }

    method DestroyNext(a: string, ghost rest: map<string, AerospikeRef>, ghost order: seq<string>, ghost start: map<AerospikeRef, Cell>)
      requires Wired() && a in rest && Remaining(table, rest, order) && Tearable(cells, rest)
      requires TeardownCells(start, table, order) == Some(cells)
      modifies this`cells, table.Values
      ensures Wired()
      ensures Tearable(cells, rest - {a}) && Remaining(table, rest - {a}, order + [a])
      ensures TeardownCells(start, table, order + [a]) == Some(cells)
    {
      TearOne(cells, rest, a);
      TeardownLast(start, table, order, a);
      DestroyAt(table[a]);
    }

    method DestroyAt(r: AerospikeRef)
      requires Wired() && r in cells
      modifies r, this`cells
      ensures Wired() && cells == old(cells)[r := DestroyEntry(old(cells)[r])]
    {
      DestroyRef(r);
      cells := cells[r := r.View()];
    }
  }

  /** `order` lists, each once, the entries of the table that are not left in `rest`. */
  ghost predicate Remaining<R>(table: map<string, R>, rest: map<string, R>, order: seq<string>) {
    && rest.Keys <= table.Keys && (forall a :: a in rest ==> rest[a] == table[a])
    && (forall a :: a in order <==> a in table && a !in rest)
    && (forall i, j :: 0 <= i < j < |order| ==> order[i] != order[j])
  }

  lemma {:induction false} TeardownLast<R>(cells: map<R, Cell>, table: map<string, R>, order: seq<string>, a: string)
    requires a in table && forall b :: b in order ==> b in table
    requires TeardownCells(cells, table, order).Some?
    requires var c := TeardownCells(cells, table, order).value; table[a] in c && c[table[a]].frees == 0
    ensures forall b :: b in order + [a] ==> b in table
    ensures var c := TeardownCells(cells, table, order).value;
            TeardownCells(cells, table, order + [a]) == Some(c[table[a] := DestroyEntry(c[table[a]])])
    decreases |order|
  {
    var longer := order + [a];
    if order != [] {
      assert longer[0] == order[0] && longer[1..] == order[1..] + [a];
      TeardownLast(cells[table[order[0]] := DestroyEntry(cells[table[order[0]]])], table, order[1..], a);
    } else {
      assert longer[1..] == [];
    }
  }

  lemma {:induction false} AddAliasesLast<R>(table: map<string, R>, aliases: seq<string>, r: R)
    requires aliases != []
    ensures var t, a := AddAliases(table, aliases[..|aliases| - 1], r), aliases[|aliases| - 1];
            AddAliases(table, aliases, r) == if a in t then t else t[a := r]
    decreases |aliases|
  {
    if |aliases| > 1 {
      AddAliasesLast(if aliases[0] in table then table else table[aliases[0] := r], aliases[1..], r);
      assert aliases[1..][..|aliases| - 2] == aliases[..|aliases| - 1][1..];
    }
  }
}
