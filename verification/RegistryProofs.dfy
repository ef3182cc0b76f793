/**
  What every run of the registry keeps, when a constructor call keeps it, and what is left once the
  table has been torn down and the objects dropped.
 */
module RegistryProofs {
  import opened Wrappers
  import opened HostAlias
  import opened RegistrySpec
  import Policy

  // ----- the invariant

  ghost function AliasesOf<R>(table: map<string, R>, r: R): set<string> {
    set a | a in table && table[a] == r
  }

  ghost predicate Holds<R, O>(s: State<R, O>, o: O, r: R) {
    o in s.objs && s.objs[o].asRef == Some(r)
  }

  /** Counters and call history of one cell. */
  ghost predicate CellOk(c: Cell) {
    && c.refCount >= 0
    && (c.frees == 0 ==> c.handle && c.destroys == 0)
    && (c.frees == 0 && c.shared ==> c.closes == 0 && c.hostsEntry >= 1)
    && (c.frees == 0 && !c.shared ==> c.hostsEntry == 0 && c.refCount <= 1 && c.attempts == c.closes + c.refCount)
    && (c.frees != 0 ==> c.frees == 1 && c.destroys == 1 && !c.handle && c.hostsEntry == 0)
    && (c.frees != 0 ==> if c.shared then c.closes == 1 else c.attempts == c.closes && c.refCount == 0)
  }

  ghost predicate TableOk<R, O>(s: State<R, O>) {
    && (forall a :: a in s.table ==> Live(s, s.table[a]) && s.cells[s.table[a]].shared)
    && (!s.up ==> s.table == map[])
    && (forall r :: r in s.cells && s.cells[r].shared && s.up ==>
          s.cells[r].frees == 0 && 1 <= |AliasesOf(s.table, r)| <= s.cells[r].hostsEntry)
  }

  /** Private cells belong to non-persistent objects, shared ones to persistent objects and sessions. */
  ghost predicate ObjsOk<R, O>(s: State<R, O>) {
    forall o :: o in s.objs ==>
      && (s.objs[o].session ==> s.objs[o].isPersistent)
      && (s.objs[o].isConn ==> s.objs[o].asRef.Some?)
      && (s.objs[o].asRef.Some? ==>
            && s.objs[o].asRef.value in s.cells
            && s.cells[s.objs[o].asRef.value].shared == s.objs[o].isPersistent
            && (!s.objs[o].isPersistent ==> Live(s, s.objs[o].asRef.value)))
  }

  ghost predicate SoleHolder<R, O>(s: State<R, O>, o: O, r: R) {
    Holds(s, o, r) && forall p :: p in s.objs && Holds(s, p, r) ==> p == o
  }

  /** A live private cell has exactly one holder. */
  ghost predicate OwnersOk<R, O>(s: State<R, O>) {
    forall r :: r in s.cells && s.cells[r].frees == 0 && !s.cells[r].shared ==>
                  exists o :: o in s.objs && SoleHolder(s, o, r)
  }

  /** Who is bound to what, without the counters. */
  ghost predicate Shape<R, O>(s: State<R, O>) {
    TableOk(s) && ObjsOk(s) && OwnersOk(s)
  }

  ghost predicate CellsOk<R>(cells: map<R, Cell>) {
    forall r :: r in cells ==> CellOk(cells[r])
  }

  ghost predicate Inv<R, O>(s: State<R, O>) {
    CellsOk(s.cells) && Shape(s)
  }

  // ----- the table

  lemma {:induction false} AddAliasesSpec<R>(table: map<string, R>, aliases: seq<string>, r: R)
    ensures var t := AddAliases(table, aliases, r);
            && (forall a :: a in table ==> a in t && t[a] == table[a])
            && (forall a :: a in aliases ==> a in t)
            && (forall a :: a in t && a !in table ==> a in aliases && t[a] == r)
    decreases |aliases|
  {
    if aliases != [] {
      AddAliasesSpec(if aliases[0] in table then table else table[aliases[0] := r], aliases[1..], r);
    }
  }

  lemma {:induction false} FindAliasSpec<R>(table: map<string, R>, aliases: seq<string>)
    ensures FindAlias(table, aliases).None? <==> forall a :: a in aliases ==> a !in table
    ensures FindAlias(table, aliases).Some? ==> exists a :: a in aliases && a in table && table[a] == FindAlias(table, aliases).value
  {
    if aliases != [] {
      FindAliasSpec(table, aliases[1..]);
      assert forall a :: a in aliases <==> a == aliases[0] || a in aliases[1..];
    }
  }

  /** The earliest bound alias of the list decides. */
  lemma {:induction false} FindsFirst<R>(table: map<string, R>, aliases: seq<string>, i: nat)
    requires i < |aliases| && aliases[i] in table && forall j :: 0 <= j < i ==> aliases[j] !in table
    ensures FindAlias(table, aliases) == Some(table[aliases[i]])
    decreases i
  {
    if i > 0 {
      FindsFirst(table, aliases[1..], i - 1);
    }
  }

  ghost predicate Distinct(xs: seq<string>) {
    forall i, j :: 0 <= i < j < |xs| ==> xs[i] != xs[j]
  }

  ghost function SetOf(xs: seq<string>): set<string> {
    set x | x in xs
  }

  lemma {:induction false} DistinctIffFull(xs: seq<string>)
    ensures |SetOf(xs)| <= |xs|
    ensures xs != [] ==> SetOf(xs) != {}
    ensures |SetOf(xs)| == |xs| <==> Distinct(xs)
  {
    if xs != [] {
      var t := xs[1..];
      DistinctIffFull(t);
      assert SetOf(xs) == {xs[0]} + SetOf(t);
      assert xs[0] in xs;
      if xs[0] in t {
        assert SetOf(xs) == SetOf(t);
      } else {
        assert |SetOf(xs)| == 1 + |SetOf(t)|;
        assert Distinct(t) ==> Distinct(xs);
      }
    }
  }

  /** Aliases bound to a fresh cell by its creation, against the count written into the cell. */
  lemma CreationAliases<R>(table: map<string, R>, aliases: seq<string>, r: R)
    requires aliases != [] && FindAlias(table, aliases).None?
    requires r !in table.Values
    ensures AliasesOf(AddAliases(table, aliases, r), r) == SetOf(aliases)
    ensures 1 <= |AliasesOf(AddAliases(table, aliases, r), r)| <= |aliases|
    ensures |AliasesOf(AddAliases(table, aliases, r), r)| == |aliases| <==> Distinct(aliases)
  {
    AddAliasesSpec(table, aliases, r);
    FindAliasSpec(table, aliases);
    assert forall a :: a in table ==> table[a] in table.Values;
    assert AliasesOf(AddAliases(table, aliases, r), r) == SetOf(aliases);
    DistinctIffFull(aliases);
  }

  /** No alias is rebound, so every other cell keeps exactly its aliases. */
  lemma CreationKeepsOthers<R>(table: map<string, R>, aliases: seq<string>, r: R, q: R)
    requires q != r
    ensures AliasesOf(AddAliases(table, aliases, r), q) == AliasesOf(table, q)
  {
    AddAliasesSpec(table, aliases, r);
  }

  /** States are equal when their maps agree pointwise. */
  lemma SameState<R, O>(s: State<R, O>, t: State<R, O>)
    requires s.cells == t.cells && s.table == t.table && s.up == t.up && s.objs == t.objs
    ensures s == t
  {}

  // ----- how the shape survives the elementary updates

  /** Nothing but counters of a cell and the connection flag of its holder changes. */
  lemma TouchShape<R, O>(s: State<R, O>, o: O, b: Obj<R>, r: R, c: Cell)
    requires Shape(s) && o in s.objs && r in s.cells
    requires b == s.objs[o].(isConn := b.isConn) && (b.isConn ==> b.asRef.Some?)
    requires c.shared == s.cells[r].shared && c.frees == s.cells[r].frees && c.hostsEntry == s.cells[r].hostsEntry
    ensures Shape(SetObj(SetCell(s, r, c), o, b))
  {
    var t := SetObj(SetCell(s, r, c), o, b);
    forall q | q in t.cells && t.cells[q].frees == 0 && !t.cells[q].shared
      ensures exists p :: p in t.objs && SoleHolder(t, p, q)
    {
      var p :| p in s.objs && SoleHolder(s, p, q);
      assert SoleHolder(t, p, q);
    }
  }

  /** `o`, new or holding nothing private, comes to hold the shared cell `r` (or nothing). */
  lemma BindShared<R, O>(s: State<R, O>, o: O, b: Obj<R>)
    requires Shape(s) && (b.asRef.Some? || b.session ==> b.isPersistent) && (b.isConn ==> b.asRef.Some?)
    requires o in s.objs && s.objs[o].asRef.Some? ==> s.cells[s.objs[o].asRef.value].shared
    requires b.asRef.Some? ==> b.asRef.value in s.cells && s.cells[b.asRef.value].shared
    ensures Shape(SetObj(s, o, b))
  {
    var t := SetObj(s, o, b);
    forall q | q in t.cells && t.cells[q].frees == 0 && !t.cells[q].shared
      ensures exists p :: p in t.objs && SoleHolder(t, p, q)
    {
      var p :| p in s.objs && SoleHolder(s, p, q);
      assert SoleHolder(t, p, q);
    }
  }

  /** A new private cell arrives together with its holder. */
  lemma BindPrivate<R, O>(s: State<R, O>, o: O, b: Obj<R>, r: R, c: Cell)
    requires Shape(s) && r !in s.cells && !b.isPersistent && !b.session && b.asRef == Some(r)
    requires o in s.objs && s.objs[o].asRef.Some? ==> s.cells[s.objs[o].asRef.value].shared
    requires !c.shared && c.frees == 0
    ensures Shape(SetObj(SetCell(s, r, c), o, b))
  {
    var t := SetObj(SetCell(s, r, c), o, b);
    assert SoleHolder(t, o, r);
    forall q | q in t.cells && q != r && t.cells[q].frees == 0 && !t.cells[q].shared
      ensures exists p :: p in t.objs && SoleHolder(t, p, q)
    {
      var p :| p in s.objs && SoleHolder(s, p, q);
      assert SoleHolder(t, p, q);
    }
  }

  /** A new shared cell arrives under all the aliases of its configuration. */
  lemma CreateShared<R, O>(s: State<R, O>, aliases: seq<string>, r: R, c: Cell)
    requires Shape(s) && s.up && r !in s.cells && aliases != [] && FindAlias(s.table, aliases).None?
    requires c.shared && c.frees == 0 && c.hostsEntry == |aliases|
    ensures Shape(SetCell(s, r, c).(table := AddAliases(s.table, aliases, r)))
  {
    var t := SetCell(s, r, c).(table := AddAliases(s.table, aliases, r));
    AddAliasesSpec(s.table, aliases, r);
    CreationAliases(s.table, aliases, r);
    forall q | q in t.cells && t.cells[q].shared
      ensures 1 <= |AliasesOf(t.table, q)| <= t.cells[q].hostsEntry
    {
      if q != r {
        CreationKeepsOthers(s.table, aliases, r, q);
      }
    }
    forall q | q in t.cells && t.cells[q].frees == 0 && !t.cells[q].shared
      ensures exists p :: p in t.objs && SoleHolder(t, p, q)
    {
      var p :| p in s.objs && SoleHolder(s, p, q);
      assert SoleHolder(t, p, q);
    }
  }

  /** A holder goes; a private cell must be freed with it. */
  lemma RemoveShape<R, O>(s: State<R, O>, o: O, cells: map<R, Cell>)
    requires Shape(s) && o in s.objs
    requires cells.Keys == s.cells.Keys
    requires forall r :: r in cells ==>
               && cells[r].shared == s.cells[r].shared
               && cells[r].hostsEntry == s.cells[r].hostsEntry
               && (if s.objs[o].asRef == Some(r) && !s.cells[r].shared then cells[r].frees != 0 else cells[r].frees == s.cells[r].frees)
    ensures Shape(s.(cells := cells, objs := s.objs - {o}))
  {
    var t := s.(cells := cells, objs := s.objs - {o});
    forall q | q in t.cells && t.cells[q].frees == 0 && !t.cells[q].shared
      ensures exists p :: p in t.objs && SoleHolder(t, p, q)
    {
      var p :| p in s.objs && SoleHolder(s, p, q);
      assert SoleHolder(t, p, q);
    }
    forall p | p in t.objs && t.objs[p].asRef.Some? && !t.objs[p].isPersistent
      ensures Live(t, t.objs[p].asRef.value)
    {
      var q := t.objs[p].asRef.value;
      var h :| h in s.objs && SoleHolder(s, h, q);
      assert Holds(s, p, q) && h == p != o;
    }
  }

  // ----- the constructor: exactly when a call keeps the invariant

  /** On an object without a cell every call is safe but one: an empty host list with shared memory.
      On an object that already has one the flag must not change, unless a shared cell is replaced. */
  ghost predicate ConstructSafe<R>(b: Obj<R>, args: Args) {
    match args
    case Unparsed => true
    case Rejected(persist) => b.asRef.None? || persist == b.isPersistent
    case Accepted(persist, cfg) =>
      if cfg.hosts == [] then
        if b.asRef.None? then !cfg.useShm
        else persist == b.isPersistent && (cfg.useShm ==> persist)
      else b.asRef.None? || b.isPersistent
  }

  ghost predicate Kept<R, O>(t: Option<State<R, O>>) {
    t.Some? && Inv(t.value)
  }

  /** `b` replaces what `o` is in `s` and is about to be bound. */
  ghost predicate Binding<R, O>(s: State<R, O>, o: O, b: Obj<R>, cfg: Config, r: R) {
    && Inv(s) && s.up && r !in s.cells && cfg.hosts != []
    && !b.isConn && (b.session ==> b.isPersistent)
    && (o in s.objs && s.objs[o].asRef.Some? ==> s.cells[s.objs[o].asRef.value].shared)
  }

  lemma BindCreatesPrivate<R, O>(s: State<R, O>, o: O, b: Obj<R>, cfg: Config, r: R, ok: bool)
    requires Binding(s, o, b, cfg, r) && !b.isPersistent
    ensures Kept(BindAndConnect(SetObj(s, o, b), o, false, cfg, r, ok))
    ensures var t := BindAndConnect(SetObj(s, o, b), o, false, cfg, r, ok).value;
            && SoleHolder(t, o, r) && r in t.cells && Live(t, r) && !t.cells[r].shared
            && t.cells[r].refCount == 1 && t.cells[r].attempts == 1 && t.cells[r].closes == 0
            && t.cells[r].policy == cfg.policy && t.table == s.table
  {
    var c := NewCell(false, cfg.policy, 0).(attempts := 1);
    var d := b.(asRef := Some(r), isConn := ok);
    PrivateView(s, o, b, cfg, r, ok);
    BindPrivate(s, o, d, r, c);
    assert SoleHolder(SetObj(SetCell(s, r, c), o, d), o, r);
  }

  lemma PrivateView<R, O>(s: State<R, O>, o: O, b: Obj<R>, cfg: Config, r: R, ok: bool)
    requires !b.isConn
    ensures ConnectIfNeeded(WithPrivate(SetObj(s, o, b), o, cfg, r), o, r, ok)
            == SetObj(SetCell(s, r, NewCell(false, cfg.policy, 0).(attempts := 1)), o, b.(asRef := Some(r), isConn := ok))
  {
    SameState(ConnectIfNeeded(WithPrivate(SetObj(s, o, b), o, cfg, r), o, r, ok),
              SetObj(SetCell(s, r, NewCell(false, cfg.policy, 0).(attempts := 1)), o, b.(asRef := Some(r), isConn := ok)));
  }

  ghost function Attached<R, O>(s: State<R, O>, o: O, b: Obj<R>, q: R): State<R, O>
    requires q in s.cells
  {
    SetObj(SetCell(s, q, s.cells[q].(refCount := s.cells[q].refCount + 1)), o, b.(asRef := Some(q), isConn := true))
  }

  lemma AttachResult<R, O>(s: State<R, O>, o: O, b: Obj<R>, cfg: Config, r: R, ok: bool)
    requires s.up && cfg.hosts != [] && FindAlias(s.table, Aliases(cfg)).Some?
    requires Usable(s, FindAlias(s.table, Aliases(cfg)).value)
    ensures BindAndConnect(SetObj(s, o, b), o, true, cfg, r, ok) == Some(Attached(s, o, b, FindAlias(s.table, Aliases(cfg)).value))
  {
    SameState(BindAndConnect(SetObj(s, o, b), o, true, cfg, r, ok).value, Attached(s, o, b, FindAlias(s.table, Aliases(cfg)).value));
  }

  lemma AttachedKeeps<R, O>(s: State<R, O>, o: O, b: Obj<R>, q: R)
    requires Inv(s) && b.isPersistent && q in s.cells && s.cells[q].shared && s.cells[q].frees == 0
    requires o in s.objs && s.objs[o].asRef.Some? ==> s.cells[s.objs[o].asRef.value].shared
    ensures Inv(Attached(s, o, b, q))
  {
    var d := b.(asRef := Some(q), isConn := true);
    var u := SetObj(s, o, d);
    BindShared(s, o, d);
    var c := s.cells[q].(refCount := s.cells[q].refCount + 1);
    TouchShape(u, o, d, q, c);
    SameState(SetObj(SetCell(u, q, c), o, d), Attached(s, o, b, q));
  }

  lemma BindAttaches<R, O>(s: State<R, O>, o: O, b: Obj<R>, cfg: Config, r: R, ok: bool)
    requires Binding(s, o, b, cfg, r) && b.isPersistent && FindAlias(s.table, Aliases(cfg)).Some?
    ensures Kept(BindAndConnect(SetObj(s, o, b), o, true, cfg, r, ok))
  {
    FindAliasSpec(s.table, Aliases(cfg));
    AttachResult(s, o, b, cfg, r, ok);
    AttachedKeeps(s, o, b, FindAlias(s.table, Aliases(cfg)).value);
  }

  ghost function Created<R, O>(s: State<R, O>, o: O, b: Obj<R>, cfg: Config, r: R, ok: bool): State<R, O> {
    var c := NewCell(true, cfg.policy, |cfg.hosts|).(attempts := 1);
    SetObj(SetCell(s, r, c).(table := AddAliases(s.table, Aliases(cfg), r)), o, b.(asRef := Some(r), isConn := ok))
  }

  lemma CreateResult<R, O>(s: State<R, O>, o: O, b: Obj<R>, cfg: Config, r: R, ok: bool)
    requires s.up && cfg.hosts != [] && FindAlias(s.table, Aliases(cfg)).None? && !b.isConn
    ensures BindAndConnect(SetObj(s, o, b), o, true, cfg, r, ok) == Some(Created(s, o, b, cfg, r, ok))
  {
    CreatedView(s, o, b, cfg, r, ok);
  }

  lemma CreatedView<R, O>(s: State<R, O>, o: O, b: Obj<R>, cfg: Config, r: R, ok: bool)
    requires !b.isConn
    ensures ConnectIfNeeded(WithShared(SetObj(s, o, b), o, cfg, r), o, r, ok) == Created(s, o, b, cfg, r, ok)
  {
    hide AddAliases, Aliases;
    SameState(ConnectIfNeeded(WithShared(SetObj(s, o, b), o, cfg, r), o, r, ok), Created(s, o, b, cfg, r, ok));
  }

  lemma CreatedKeeps<R, O>(s: State<R, O>, o: O, b: Obj<R>, cfg: Config, r: R, ok: bool)
    requires Binding(s, o, b, cfg, r) && b.isPersistent && FindAlias(s.table, Aliases(cfg)).None?
    ensures Inv(Created(s, o, b, cfg, r, ok))
  {
    var c := NewCell(true, cfg.policy, |cfg.hosts|).(attempts := 1);
    CreateShared(s, Aliases(cfg), r, c);
    BindShared(SetCell(s, r, c).(table := AddAliases(s.table, Aliases(cfg), r)), o, b.(asRef := Some(r), isConn := ok));
  }

  lemma BindCreatesShared<R, O>(s: State<R, O>, o: O, b: Obj<R>, cfg: Config, r: R, ok: bool)
    requires Binding(s, o, b, cfg, r) && b.isPersistent && FindAlias(s.table, Aliases(cfg)).None?
    ensures Kept(BindAndConnect(SetObj(s, o, b), o, true, cfg, r, ok))
  {
    CreateResult(s, o, b, cfg, r, ok);
    CreatedKeeps(s, o, b, cfg, r, ok);
  }

  lemma BindKeeps<R, O>(s: State<R, O>, o: O, b: Obj<R>, cfg: Config, r: R, ok: bool)
    requires Binding(s, o, b, cfg, r)
    ensures Kept(BindAndConnect(SetObj(s, o, b), o, b.isPersistent, cfg, r, ok))
  {
    if !b.isPersistent {
      BindCreatesPrivate(s, o, b, cfg, r, ok);
    } else if FindAlias(s.table, Aliases(cfg)).Some? {
      BindAttaches(s, o, b, cfg, r, ok);
    } else {
      BindCreatesShared(s, o, b, cfg, r, ok);
    }
  }

  /** Some alias of the configuration is bound. */
  ghost predicate Known<R, O>(s: State<R, O>, cfg: Config) {
    exists a :: a in Aliases(cfg) && a in s.table
  }

  /** What a binding leaves. A persistent holder joins the cell under its earliest known alias, one count
      more, and is connected without a connect. Otherwise a new cell, counted once and connected once,
      stands under all aliases or, for a private one, under none, and the flag says whether the connect
      succeeded. Nothing else changes. */
  lemma BindOutcome<R, O>(s: State<R, O>, o: O, b: Obj<R>, cfg: Config, r: R, ok: bool)
    requires Binding(s, o, b, cfg, r)
    ensures BindAndConnect(SetObj(s, o, b), o, b.isPersistent, cfg, r, ok).Some?
    ensures var t := BindAndConnect(SetObj(s, o, b), o, b.isPersistent, cfg, r, ok).value;
            && t.up == s.up && t.objs.Keys == s.objs.Keys + {o} && (forall p :: p in s.objs && p != o ==> t.objs[p] == s.objs[p])
            && t.objs[o] == b.(asRef := t.objs[o].asRef, isConn := t.objs[o].isConn) && t.objs[o].asRef.Some?
            && if b.isPersistent && Known(s, cfg) then Joined(s, t, o, cfg) else Added(s, t, o, b.isPersistent, cfg, r, ok)
  {
    hide Aliases;
    FindAliasSpec(s.table, Aliases(cfg));
    hide Inv;
    if !b.isPersistent {
      PrivateOutcome(s, o, b, cfg, r, ok);
      hide BindAndConnect, Added;
    } else if FindAlias(s.table, Aliases(cfg)).Some? {
      JoinOutcome(s, o, b, cfg, r, ok);
      hide BindAndConnect, Joined;
    } else {
      AddOutcome(s, o, b, cfg, r, ok);
      hide BindAndConnect, Added;
    }
  }

  lemma PrivateOutcome<R, O>(s: State<R, O>, o: O, b: Obj<R>, cfg: Config, r: R, ok: bool)
    requires Binding(s, o, b, cfg, r) && !b.isPersistent
    ensures var d := b.(asRef := Some(r), isConn := ok);
            var t := SetObj(SetCell(s, r, NewCell(false, cfg.policy, 0).(attempts := 1)), o, d);
            BindAndConnect(SetObj(s, o, b), o, false, cfg, r, ok) == Some(t) && Added(s, t, o, false, cfg, r, ok)
  {
    PrivateView(s, o, b, cfg, r, ok);
  }

  lemma JoinOutcome<R, O>(s: State<R, O>, o: O, b: Obj<R>, cfg: Config, r: R, ok: bool)
    requires Binding(s, o, b, cfg, r) && b.isPersistent && FindAlias(s.table, Aliases(cfg)).Some?
    ensures FindAlias(s.table, Aliases(cfg)).value in s.cells
    ensures var t := Attached(s, o, b, FindAlias(s.table, Aliases(cfg)).value);
            BindAndConnect(SetObj(s, o, b), o, true, cfg, r, ok) == Some(t) && Joined(s, t, o, cfg)
  {
    FindAliasSpec(s.table, Aliases(cfg));
    FoundFirst(s.table, Aliases(cfg));
    AttachResult(s, o, b, cfg, r, ok);
    hide BindAndConnect, EarliestLeadsTo, FindAlias, Aliases;
  }

  lemma AddOutcome<R, O>(s: State<R, O>, o: O, b: Obj<R>, cfg: Config, r: R, ok: bool)
    requires Binding(s, o, b, cfg, r) && b.isPersistent && FindAlias(s.table, Aliases(cfg)).None?
    ensures BindAndConnect(SetObj(s, o, b), o, true, cfg, r, ok) == Some(Created(s, o, b, cfg, r, ok))
    ensures Added(s, Created(s, o, b, cfg, r, ok), o, true, cfg, r, ok)
  {
    FindAliasSpec(s.table, Aliases(cfg));
    AddAliasesSpec(s.table, Aliases(cfg), r);
    CreateResult(s, o, b, cfg, r, ok);
    hide BindAndConnect, FindAlias, Aliases, AddAliases;
  }

  /** Whoever binds is connected afterwards if the connect succeeds or a known cell is joined. */
  lemma BindFlag<R, O>(s: State<R, O>, o: O, cfg: Config, r: R, ok: bool)
    requires o in s.objs && !s.objs[o].isConn && cfg.hosts != [] && BindAndConnect(s, o, true, cfg, r, ok).Some?
    ensures var t := BindAndConnect(s, o, true, cfg, r, ok).value; o in t.objs && (t.objs[o].isConn <==> ok || Known(s, cfg))
  {
    hide Aliases, AddAliases;
    FindAliasSpec(s.table, Aliases(cfg));
    hide FindAlias;
  }

  ghost predicate Joined<R, O>(s: State<R, O>, t: State<R, O>, o: O, cfg: Config)
    requires o in t.objs && t.objs[o].asRef.Some?
  {
    var q := t.objs[o].asRef.value;
    && t.objs[o].isConn && t.table == s.table
    && q in s.cells && t.cells == s.cells[q := s.cells[q].(refCount := s.cells[q].refCount + 1)]
    && EarliestLeadsTo(s.table, Aliases(cfg), q)
  }

  ghost predicate EarliestLeadsTo<R>(table: map<string, R>, aliases: seq<string>, q: R) {
    exists i :: 0 <= i < |aliases| && aliases[i] in table && table[aliases[i]] == q && forall j :: 0 <= j < i ==> aliases[j] !in table
  }

  ghost predicate Added<R, O>(s: State<R, O>, t: State<R, O>, o: O, persist: bool, cfg: Config, r: R, ok: bool)
    requires o in t.objs
  {
    && t.objs[o].asRef == Some(r) && t.objs[o].isConn == ok
    && t.cells == s.cells[r := Cell(persist, true, cfg.policy, 1, if persist then |cfg.hosts| else 0, 1, 0, 0, 0)]
    && (forall a :: a in s.table ==> a in t.table && t.table[a] == s.table[a])
    && (forall a :: a in t.table && a !in s.table <==> persist && a in Aliases(cfg))
    && (forall a :: a in t.table && a !in s.table ==> t.table[a] == r)
  }

  lemma {:induction false} FoundFirst<R>(table: map<string, R>, aliases: seq<string>)
    requires FindAlias(table, aliases).Some?
    ensures EarliestLeadsTo(table, aliases, FindAlias(table, aliases).value)
  {
    if aliases[0] in table {
      assert aliases[0] in table && table[aliases[0]] == FindAlias(table, aliases).value;
    } else {
      FoundFirst(table, aliases[1..]);
      var i :| 0 <= i < |aliases[1..]| && aliases[1..][i] in table && table[aliases[1..][i]] == FindAlias(table, aliases).value
               && forall j :: 0 <= j < i ==> aliases[1..][j] !in table;
      assert aliases[i + 1] == aliases[1..][i];
      assert forall j :: 0 < j < i + 1 ==> aliases[j] == aliases[1..][j - 1];
    }
  }

  /** What any constructor call does to the flags of its object, and to nothing else if it binds no cell:
      without parsed arguments the persistence flag stays, without a connect the connection flag is unset. */
  lemma ConstructOutcome<R, O>(s: State<R, O>, o: O, args: Args, r: R, ok: bool)
    requires Inv(s) && s.up && Enabled(s, Construct(o, args, r, ok)) && ConstructSafe(s.objs[o], args)
    ensures DoConstruct(s, o, args, r, ok).Some?
    ensures var b, t := s.objs[o], DoConstruct(s, o, args, r, ok).value;
            && t.up == s.up && t.objs.Keys == s.objs.Keys && (forall p :: p in s.objs && p != o ==> t.objs[p] == s.objs[p])
            && t.objs[o].isPersistent == (if args.Unparsed? then b.isPersistent else args.persist)
            && t.objs[o].session == b.session
            && if Binds(args) then
                 && t.objs[o].asRef.Some?
                 && if args.persist && Known(s, args.cfg) then Joined(s, t, o, args.cfg) else Added(s, t, o, args.persist, args.cfg, r, ok)
               else
                 && t.table == s.table && t.objs[o].asRef == b.asRef
                 && if args.Accepted? && args.cfg.useShm
                    then t.objs[o].isConn == ok && b.asRef.Some?
                         && t.cells == s.cells[b.asRef.value := s.cells[b.asRef.value].(attempts := s.cells[b.asRef.value].attempts + 1)]
                    else !t.objs[o].isConn && t.cells == s.cells
  {
    if Binds(args) {
      var b := s.objs[o].(isConn := false, isPersistent := args.persist);
      BindOutcome(s, o, b, args.cfg, r, ok);
      hide BindAndConnect, Known, Joined, Added, Inv, ConstructUnbound;
    } else {
      UnboundOutcome(s, o, args, ok);
      hide Inv, ConstructUnbound, BindAndConnect;
    }
  }

  lemma UnboundOutcome<R, O>(s: State<R, O>, o: O, args: Args, ok: bool)
    requires Inv(s) && s.up && o in s.objs && !Binds(args) && ConstructSafe(s.objs[o], args)
    ensures var b := s.objs[o];
            var d := b.(isPersistent := if args.Unparsed? then b.isPersistent else args.persist);
            ConstructUnbound(s, o, args, ok) == Some(
              if args.Accepted? && args.cfg.useShm && b.asRef.Some? && b.asRef.value in s.cells
              then SetObj(SetCell(s, b.asRef.value, s.cells[b.asRef.value].(attempts := s.cells[b.asRef.value].attempts + 1)), o, d.(isConn := ok))
              else SetObj(s, o, d.(isConn := false)))
    ensures args.Accepted? && args.cfg.useShm ==> s.objs[o].asRef.Some? && s.objs[o].asRef.value in s.cells
  {
    var b := s.objs[o];
    if args.Accepted? && args.cfg.useShm {
      EmptyListView(s, o, args.persist, args.cfg, b.asRef.value, ok);
    }
  }

  /** A constructor call, first or repeated, stays within defined behaviour and keeps the invariant
      exactly when it is safe. */
  lemma ConstructKeepsInvIff<R, O>(s: State<R, O>, o: O, args: Args, r: R, ok: bool)
    requires Inv(s) && s.up && Enabled(s, Construct(o, args, r, ok))
    ensures Kept(DoConstruct(s, o, args, r, ok)) <==> ConstructSafe(s.objs[o], args)
  {
    var b := s.objs[o];
    var t := DoConstruct(s, o, args, r, ok);
    match args
    case Unparsed =>
      SetFlags(s, o, b.(isConn := false));
    case Rejected(persist) =>
      SetFlags(s, o, b.(isConn := false, isPersistent := persist));
    case Accepted(persist, cfg) =>
      if cfg.hosts == [] {
        if !cfg.useShm || b.asRef.None? {
          SetFlags(s, o, b.(isConn := false, isPersistent := persist));
        } else {
          ConstructOverEmptyList(s, o, persist, cfg, r, ok);
        }
      } else if b.asRef.None? || b.isPersistent {
        BindKeeps(s, o, b.(isConn := false, isPersistent := persist), cfg, r, ok);
      } else if t.Some? {
        ConstructOrphans(s, o, persist, cfg, r, ok);
      }
  }

  lemma SetFlags<R, O>(s: State<R, O>, o: O, b: Obj<R>)
    requires Inv(s) && s.up && o in s.objs && !s.objs[o].session
    requires b == s.objs[o].(isConn := b.isConn, isPersistent := b.isPersistent) && (b.isConn ==> b.asRef.Some?)
    ensures Inv(SetObj(s, o, b)) <==> b.asRef.None? || b.isPersistent == s.objs[o].isPersistent
  {
    var t := SetObj(s, o, b);
    forall q | q in t.cells && t.cells[q].frees == 0 && !t.cells[q].shared
      ensures exists p :: p in t.objs && SoleHolder(t, p, q)
    {
      var p :| p in s.objs && SoleHolder(s, p, q);
      assert SoleHolder(t, p, q);
    }
    if b.asRef.Some? && b.isPersistent != s.objs[o].isPersistent {
      assert t.cells[b.asRef.value].shared != t.objs[o].isPersistent;
    }
  }

  lemma ConstructOverEmptyList<R, O>(s: State<R, O>, o: O, persist: bool, cfg: Config, r: R, ok: bool)
    requires Inv(s) && s.up && Enabled(s, Construct(o, Accepted(persist, cfg), r, ok))
    requires cfg.hosts == [] && cfg.useShm && s.objs[o].asRef.Some?
    ensures var t := DoConstruct(s, o, Accepted(persist, cfg), r, ok);
            t.Some? && (Inv(t.value) <==> persist && s.objs[o].isPersistent)
  {
    var b := s.objs[o];
    var q := b.asRef.value;
    var c := s.cells[q].(attempts := s.cells[q].attempts + 1);
    var d := b.(isConn := ok, isPersistent := persist);
    var t := DoConstruct(s, o, Accepted(persist, cfg), r, ok);
    EmptyListView(s, o, persist, cfg, q, ok);
    if persist && b.isPersistent {
      TouchShape(s, o, d, q, c);
    } else if persist != b.isPersistent {
      assert t.value.cells[q].shared != t.value.objs[o].isPersistent;
    } else {
      assert !CellOk(t.value.cells[q]);
    }
  }

  lemma EmptyListView<R, O>(s: State<R, O>, o: O, persist: bool, cfg: Config, q: R, ok: bool)
    requires o in s.objs && cfg.hosts == [] && cfg.useShm && s.objs[o].asRef == Some(q) && Usable(s, q)
    ensures ConstructUnbound(s, o, Accepted(persist, cfg), ok)
            == Some(SetObj(SetCell(s, q, s.cells[q].(attempts := s.cells[q].attempts + 1)), o, s.objs[o].(isConn := ok, isPersistent := persist)))
  {
    var t := ConstructUnbound(s, o, Accepted(persist, cfg), ok).value;
    SameState(t, SetObj(SetCell(s, q, s.cells[q].(attempts := s.cells[q].attempts + 1)), o, s.objs[o].(isConn := ok, isPersistent := persist)));
  }

  /** A live private cell that no table entry leads to and nobody holds, except perhaps `o`. */
  ghost predicate Loose<R, O>(s: State<R, O>, q: R, o: Option<O>) {
    && q in s.cells && Live(s, q) && !s.cells[q].shared
    && (forall p :: p in s.objs && Some(p) != o ==> !Holds(s, p, q))
    && (forall a :: a in s.table ==> s.table[a] != q)
  }

  ghost predicate Orphan<R, O>(s: State<R, O>, q: R) {
    Loose(s, q, None)
  }

  /** Once its only holder is bound to something else, a private cell is an orphan, untouched. */
  lemma BindLeavesOrphan<R, O>(s: State<R, O>, o: O, persist: bool, cfg: Config, r: R, ok: bool, q: R)
    requires o in s.objs && cfg.hosts != [] && r !in s.cells && Loose(s, q, Some(o))
    requires BindAndConnect(s, o, persist, cfg, r, ok).Some?
    ensures var t := BindAndConnect(s, o, persist, cfg, r, ok).value; Orphan(t, q) && t.cells[q] == s.cells[q]
  {
    hide Aliases;
    FindAliasSpec(s.table, Aliases(cfg));
    AddAliasesSpec(s.table, Aliases(cfg), r);
    var u := FromAlias(s, o, persist, cfg, r).value.0;
    hide FindAlias, AddAliases;
    var t := BindAndConnect(s, o, persist, cfg, r, ok).value;
    var to := u.objs[o].asRef;
    assert to != Some(q);
    assert u.cells[q] == s.cells[q] && t.cells[q] == s.cells[q];
    forall p | p in t.objs ensures !Holds(t, p, q) {
      assert p != o ==> Holds(s, p, q) == Holds(t, p, q);
    }
  }

  /** Replacing a private cell leaves it live with no holder. */
  lemma ConstructOrphans<R, O>(s: State<R, O>, o: O, persist: bool, cfg: Config, r: R, ok: bool)
    requires Inv(s) && s.up && Enabled(s, Construct(o, Accepted(persist, cfg), r, ok))
    requires cfg.hosts != [] && s.objs[o].asRef.Some? && !s.objs[o].isPersistent
    requires DoConstruct(s, o, Accepted(persist, cfg), r, ok).Some?
    ensures var t := DoConstruct(s, o, Accepted(persist, cfg), r, ok).value;
            !Inv(t) && Orphan(t, s.objs[o].asRef.value)
  {
    var q := s.objs[o].asRef.value;
    var h :| h in s.objs && SoleHolder(s, h, q);
    assert Holds(s, o, q);
    var u := SetObj(s, o, s.objs[o].(isConn := false, isPersistent := persist));
    assert forall p :: p in u.objs && Some(p) != Some(o) ==> Holds(u, p, q) == Holds(s, p, q);
    assert Loose(u, q, Some(o));
    BindLeavesOrphan(u, o, persist, cfg, r, ok, q);
    OrphanBreaks(DoConstruct(s, o, Accepted(persist, cfg), r, ok).value, q);
  }

  lemma OrphanBreaks<R, O>(s: State<R, O>, q: R)
    requires Orphan(s, q)
    ensures !Inv(s)
  {
    assert forall o :: o in s.objs ==> !SoleHolder(s, o, q);
  }

  /** No defined step, tame or not, finds an orphan again: it is never freed, closed or connected. */
  lemma StepKeepsOrphan<R, O>(s: State<R, O>, step: Step<R, O>, q: R)
    requires Orphan(s, q) && Enabled(s, step) && Apply(s, step).Some?
    ensures Orphan(Apply(s, step).value, q) && Apply(s, step).value.cells[q] == s.cells[q]
  {
    match step
    case Construct(o, args, r, ok) =>
      if Binds(args) {
        var u := SetObj(s, o, s.objs[o].(isConn := false, isPersistent := args.persist));
        assert forall p :: p in u.objs ==> Holds(u, p, q) == Holds(s, p, q);
        BindLeavesOrphan(u, o, args.persist, args.cfg, r, ok, q);
      } else {
        UnboundKeepsOrphan(s, o, args, ok, q);
      }
    case SessionOpen(_, _, _, _, _) => SessionKeepsOrphan(s, step, q);
    case Teardown(order) =>
      TeardownSpares(s.cells, s.table, order, q);
      assert forall p :: p in s.objs ==> Holds(Apply(s, step).value, p, q) == Holds(s, p, q);
    case _ => OtherKeepsOrphan(s, step, q);
  }

  lemma SessionKeepsOrphan<R, O>(s: State<R, O>, step: Step<R, O>, q: R)
    requires Orphan(s, q) && Enabled(s, step) && Apply(s, step).Some? && step.SessionOpen?
    ensures Orphan(Apply(s, step).value, q) && Apply(s, step).value.cells[q] == s.cells[q]
  {
    if step.parsed.Some? && step.parsed.value != [] {
      var o, cfg := step.o, SessionConfig(step.parsed.value, step.library);
      var u := SetObj(s, o, Obj(true, true, None, false));
      assert forall p :: p in u.objs && p != o ==> Holds(u, p, q) == Holds(s, p, q);
      BindLeavesOrphan(u, o, true, cfg, step.fresh_, step.connectOk, q);
      var v := BindAndConnect(u, o, true, cfg, step.fresh_, step.connectOk).value;
      hide BindAndConnect;
      assert forall p :: p in v.objs ==> !Holds(v, p, q);
      assert forall p :: p in Apply(s, step).value.objs ==> Holds(Apply(s, step).value, p, q) == Holds(v, p, q);
    }
  }

  lemma UnboundKeepsOrphan<R, O>(s: State<R, O>, o: O, args: Args, ok: bool, q: R)
    requires Orphan(s, q) && o in s.objs && !Binds(args) && ConstructUnbound(s, o, args, ok).Some?
    ensures var t := ConstructUnbound(s, o, args, ok).value; Orphan(t, q) && t.cells[q] == s.cells[q]
  {
    var t := ConstructUnbound(s, o, args, ok).value;
    assert !Holds(s, o, q);
    assert forall p :: p in t.objs ==> Holds(t, p, q) == Holds(s, p, q);
  }

  lemma OtherKeepsOrphan<R, O>(s: State<R, O>, step: Step<R, O>, q: R)
    requires Orphan(s, q) && Enabled(s, step) && Apply(s, step).Some?
    requires !step.Construct? && !step.SessionOpen? && !step.Teardown?
    ensures Orphan(Apply(s, step).value, q) && Apply(s, step).value.cells[q] == s.cells[q]
  {
    var t := Apply(s, step).value;
    assert step.o in s.objs ==> !Holds(s, step.o, q);
    assert t.cells[q] == s.cells[q] && t.table == s.table;
    forall p | p in t.objs ensures !Holds(t, p, q) {
      assert p in s.objs ==> Holds(t, p, q) == Holds(s, p, q);
    }
  }

  lemma {:induction false} TeardownSpares<R>(cells: map<R, Cell>, table: map<string, R>, order: seq<string>, q: R)
    requires (forall a :: a in order ==> a in table) && q in cells && (forall a :: a in table ==> table[a] != q)
    requires TeardownCells(cells, table, order).Some?
    ensures q in TeardownCells(cells, table, order).value && TeardownCells(cells, table, order).value[q] == cells[q]
    decreases |order|
  {
    if order != [] {
      var r := table[order[0]];
      TeardownSpares(cells[r := DestroyEntry(cells[r])], table, order[1..], q);
    }
  }

  // ----- the other steps

  /** Every table entry points to a live shared cell that counts at least its entries. */
  ghost predicate Tearable<R>(cells: map<R, Cell>, table: map<string, R>) {
    && CellsOk(cells)
    && (forall a :: a in table ==>
          && table[a] in cells && cells[table[a]].shared && cells[table[a]].frees == 0
          && |AliasesOf(table, table[a])| <= cells[table[a]].hostsEntry)
  }

  /** What teardown makes of a cell: untouched without aliases, freed exactly when its count was its entries. */
  ghost predicate TornDown(before: Cell, after: Cell, entries: nat) {
    if entries == 0 then after == before
    else
      && after.shared && after.policy == before.policy && after.refCount == before.refCount && after.attempts == before.attempts
      && (after.frees == 1 <==> before.hostsEntry == entries)
  }

  lemma RemoveAlias<R>(table: map<string, R>, a: string, q: R)
    requires a in table
    ensures AliasesOf(table - {a}, q) == AliasesOf(table, q) - {a}
    ensures |AliasesOf(table - {a}, q)| == |AliasesOf(table, q)| - (if table[a] == q then 1 else 0)
  {
    if table[a] == q {
      assert a in AliasesOf(table, q);
    } else {
      assert AliasesOf(table, q) - {a} == AliasesOf(table, q);
    }
  }

  lemma TearOne<R>(cells: map<R, Cell>, table: map<string, R>, a: string)
    requires a in table && Tearable(cells, table)
    ensures Tearable(cells[table[a] := DestroyEntry(cells[table[a]])], table - {a})
  {
    var r := table[a];
    var c := cells[r := DestroyEntry(cells[r])];
    forall b | b in table - {a}
      ensures var q := table[b]; q in c && c[q].shared && c[q].frees == 0 && |AliasesOf(table - {a}, q)| <= c[q].hostsEntry
    {
      RemoveAlias(table, a, table[b]);
      assert b in AliasesOf(table - {a}, table[b]);
    }
  }

  lemma TornDownStep(before: Cell, after: Cell, n: nat)
    requires before.frees == 0 && before.shared && 1 <= n <= before.hostsEntry
    requires TornDown(DestroyEntry(before), after, n - 1)
    ensures TornDown(before, after, n)
  {}

  lemma OrderTail<R>(table: map<string, R>, order: seq<string>)
    requires IsOrder(table, order) && order != []
    ensures order[0] in table && IsOrder(table - {order[0]}, order[1..])
  {
    assert order[0] in order;
    assert forall b :: b in order <==> b == order[0] || b in order[1..];
  }

  lemma {:induction false} TeardownSpec<R>(cells: map<R, Cell>, table: map<string, R>, order: seq<string>)
    requires IsOrder(table, order) && Tearable(cells, table)
    ensures var t := TeardownCells(cells, table, order);
            && t.Some? && t.value.Keys == cells.Keys && CellsOk(t.value)
            && (forall r :: r in cells ==> TornDown(cells[r], t.value[r], |AliasesOf(table, r)|))
    decreases |order|
  {
    if order == [] {
      assert forall a :: a in table ==> a in order;
      assert forall r :: AliasesOf(table, r) == {};
    } else {
      OrderTail(table, order);
      var a, r := order[0], table[order[0]];
      var rest, c := table - {a}, cells[r := DestroyEntry(cells[r])];
      TearOne(cells, table, a);
      TeardownSpec(c, rest, order[1..]);
      TeardownIgnores(c, table, rest, order[1..]);
      var t := TeardownCells(c, rest, order[1..]).value;
      forall q | q in cells
        ensures TornDown(cells[q], t[q], |AliasesOf(table, q)|)
      {
        RemoveAlias(table, a, q);
        if q == r {
          assert a in AliasesOf(table, r);
          TornDownStep(cells[r], t[r], |AliasesOf(table, r)|);
        }
      }
    }
  }

  /** Only the bindings named by the order are read. */
  lemma {:induction false} TeardownIgnores<R>(cells: map<R, Cell>, table: map<string, R>, rest: map<string, R>, order: seq<string>)
    requires forall a :: a in order ==> a in table && a in rest && table[a] == rest[a]
    ensures TeardownCells(cells, table, order) == TeardownCells(cells, rest, order)
    decreases |order|
  {
    if order != [] && table[order[0]] in cells {
      TeardownIgnores(cells[table[order[0]] := DestroyEntry(cells[table[order[0]]])], table, rest, order[1..]);
    }
  }

  ghost predicate Tame<R, O>(s: State<R, O>, step: Step<R, O>) {
    match step
    case New(_) => true
    case Construct(o, args, _, _) => s.up && o in s.objs && ConstructSafe(s.objs[o], args)
    case Call(_, q) => s.up && Policy.OptionsDefined(q.targets, q.env, q.options)
    case Drop(_) => true
    case Teardown(_) => true
    case _ => s.up
  }

  /** An opened session keeps its holder exactly when a known connection is joined or the connect succeeds,
      and then the holder is connected; every other holder is left alone. */
  lemma SessionOpenKeeps<R, O>(s: State<R, O>, o: O, parsed: Option<seq<Host>>, library: Policy.Store, r: R, ok: bool)
    requires Inv(s) && s.up && o !in s.objs && r !in s.cells
    ensures Kept(DoSessionOpen(s, o, parsed, library, r, ok))
    ensures var t := DoSessionOpen(s, o, parsed, library, r, ok).value;
            && (o in t.objs <==> parsed.Some? && parsed.value != [] && (ok || Known(s, Config(parsed.value, "", false, library))))
            && (o in t.objs ==> t.objs[o].isConn && t.objs[o].session && t.objs[o].isPersistent)
            && t.objs - {o} == s.objs
  {
    if parsed.Some? && parsed.value != [] {
      var b := Obj(true, true, None, false);
      var cfg := SessionConfig(parsed.value, library);
      BindKeeps(s, o, b, cfg, r, ok);
      BindOutcome(s, o, b, cfg, r, ok);
      var t := BindAndConnect(SetObj(s, o, b), o, true, cfg, r, ok).value;
      SessionEnds(s, o, parsed, library, r, ok, t);
      WithoutNew(s.objs, t.objs, o);
      hide *;
      assert t.objs[o].isConn <==> ok || Known(s, cfg) by {
        hide *;
        assert Known(s, cfg) ==> Joined(s, t, o, cfg);
        assert !Known(s, cfg) ==> Added(s, t, o, true, cfg, r, ok);
        JoinedOrAdded(s, t, o, cfg, r, ok);
      }
    }
  }

  lemma WithoutNew<O, B>(before: map<O, B>, after: map<O, B>, o: O)
    requires o !in before && after.Keys == before.Keys + {o} && forall p :: p in before ==> after[p] == before[p]
    ensures after - {o} == before
  {}

  lemma JoinedOrAdded<R, O>(s: State<R, O>, t: State<R, O>, o: O, cfg: Config, r: R, ok: bool)
    requires o in t.objs && t.objs[o].asRef.Some?
    requires if Known(s, cfg) then Joined(s, t, o, cfg) else Added(s, t, o, true, cfg, r, ok)
    ensures t.objs[o].isConn <==> ok || Known(s, cfg)
  {}

  lemma SessionEnds<R, O>(s: State<R, O>, o: O, parsed: Option<seq<Host>>, library: Policy.Store, r: R, ok: bool, t: State<R, O>)
    requires Inv(t) && o !in s.objs && parsed.Some? && parsed.value != [] && o in t.objs && t.objs[o].session
    requires BindAndConnect(SetObj(s, o, Obj(true, true, None, false)), o, true, SessionConfig(parsed.value, library), r, ok) == Some(t)
    ensures DoSessionOpen(s, o, parsed, library, r, ok) == Some(if t.objs[o].isConn then t else t.(objs := t.objs - {o}))
    ensures !t.objs[o].isConn ==> Inv(t.(objs := t.objs - {o}))
  {
    hide BindAndConnect;
    if !t.objs[o].isConn {
      RemoveShape(t, o, t.cells);
    }
  }

  lemma SessionCloseKeeps<R, O>(s: State<R, O>, o: O)
    requires Inv(s) && s.up && o in s.objs && s.objs[o].session
    ensures Kept(DoSessionClose(s, o))
    ensures var t := DoSessionClose(s, o).value; t.objs == s.objs - {o} && t.table == s.table && t.up == s.up
    ensures forall r :: r in s.cells ==>
              var held, c := s.objs[o].asRef == Some(r), s.cells[r];
              r in DoSessionClose(s, o).value.cells && DoSessionClose(s, o).value.cells[r] == if held && c.refCount >= 1 then c.(refCount := c.refCount - 1) else c
  {
    var b := s.objs[o];
    if b.asRef.Some? {
      var cells := s.cells[b.asRef.value := HelperClose(s.cells[b.asRef.value])];
      RemoveShape(s, o, cells);
      SameState(DoSessionClose(s, o).value, s.(cells := cells, objs := s.objs - {o}));
    } else {
      RemoveShape(s, o, s.cells);
    }
  }

  lemma DropKeeps<R, O>(s: State<R, O>, o: O)
    requires Inv(s) && o in s.objs && !s.objs[o].session
    ensures Kept(DoDrop(s, o))
    ensures var t := DoDrop(s, o).value;
            t.objs == s.objs - {o} && t.table == s.table && t.up == s.up && t.cells.Keys == s.cells.Keys
    ensures forall r :: r in s.cells ==>
              var c, d := s.cells[r], DoDrop(s, o).value.cells[r];
              if s.objs[o].asRef == Some(r) && !s.objs[o].isPersistent
              then c.frees == 0 && !c.shared && d.frees == 1 && d.destroys == 1 && d.closes == c.closes + c.refCount
              else d == c
  {
    var b := s.objs[o];
    if b.isPersistent || b.asRef.None? {
      RemoveShape(s, o, s.cells);
    } else {
      RemoveShape(s, o, s.cells[b.asRef.value := Freed(s.cells[b.asRef.value])]);
    }
  }

  lemma TeardownKeeps<R, O>(s: State<R, O>, order: seq<string>)
    requires Inv(s) && s.up && IsOrder(s.table, order)
    ensures Kept(Apply(s, Teardown(order)))
  {
    assert Tearable(s.cells, s.table);
    TeardownSpec(s.cells, s.table, order);
    var t := Apply(s, Teardown(order)).value;
    forall r | r in s.cells && !s.cells[r].shared ensures t.cells[r] == s.cells[r] {
      assert forall a :: a in s.table ==> s.cells[s.table[a]].shared;
      assert AliasesOf(s.table, r) == {};
    }
    forall q | q in t.cells && t.cells[q].frees == 0 && !t.cells[q].shared
      ensures exists p :: p in t.objs && SoleHolder(t, p, q)
    {
      assert TornDown(s.cells[q], t.cells[q], |AliasesOf(s.table, q)|);
      var p :| p in s.objs && SoleHolder(s, p, q);
      assert SoleHolder(t, p, q);
    }
  }

  lemma IsConnectedKeeps<R, O>(s: State<R, O>, o: O, answer: bool)
    requires Inv(s) && s.up && o in s.objs
    ensures Kept(DoIsConnected(s, o, answer))
    ensures var t := DoIsConnected(s, o, answer).value;
            && t.cells == s.cells && t.table == s.table && t.up == s.up
            && t.objs == s.objs[o := s.objs[o].(isConn := t.objs[o].isConn)]
            && (s.objs[o].asRef.Some? && Usable(s, s.objs[o].asRef.value) ==> t.objs[o].isConn == answer)
  {
    if s.objs[o].asRef.Some? {
      var r := s.objs[o].asRef.value;
      TouchShape(s, o, s.objs[o].(isConn := answer), r, s.cells[r]);
      SameState(SetObj(SetCell(s, r, s.cells[r]), o, s.objs[o].(isConn := answer)), DoIsConnected(s, o, answer).value);
    }
  }

  lemma CloseKeeps<R, O>(s: State<R, O>, o: O)
    requires Inv(s) && s.up && o in s.objs
    ensures Kept(DoClose(s, o))
    ensures forall r :: r in s.cells ==>
              var accepted := s.objs[o].asRef == Some(r) && s.objs[o].isConn && s.cells[r].refCount >= 1;
              var c, d := s.cells[r], DoClose(s, o).value.cells[r];
              if !accepted then d == c
              else if c.shared then d == c.(refCount := c.refCount - 1)
              else c.refCount == 1 && d == c.(refCount := 0, closes := c.closes + 1)
    ensures var b, t := s.objs[o], DoClose(s, o).value;
            && t.table == s.table && t.up == s.up
            && t.objs == if b.isConn && s.cells[b.asRef.value].refCount >= 1 then s.objs[o := b.(isConn := false)] else s.objs
  {
    var b := s.objs[o];
    if b.asRef.Some? && b.isConn && s.cells[b.asRef.value].handle && s.cells[b.asRef.value].refCount >= 1 {
      var r := b.asRef.value;
      var c := s.cells[r];
      var d := if b.isPersistent then c.(refCount := c.refCount - 1) else c.(closes := c.closes + 1, refCount := 0);
      TouchShape(s, o, b.(isConn := false), r, d);
      assert DoClose(s, o) == Some(SetObj(SetCell(s, r, d), o, b.(isConn := false)));
      hide DoClose, Shape;
    } else {
      assert DoClose(s, o) == Some(s);
      hide DoClose, Shape;
    }
  }

  lemma ReconnectKeeps<R, O>(s: State<R, O>, o: O)
    requires Inv(s) && s.up && o in s.objs
    ensures Kept(DoReconnect(s, o))
    ensures forall r :: r in s.cells ==>
              var accepted := s.objs[o].asRef == Some(r) && !s.objs[o].isConn && s.cells[r].frees == 0 && s.cells[r].refCount == 0;
              var c, d := s.cells[r], DoReconnect(s, o).value.cells[r];
              if !accepted then d == c
              else if c.shared then d == c.(refCount := 1)
              else d == c.(refCount := 1, attempts := c.attempts + 1)
    ensures var b, t := s.objs[o], DoReconnect(s, o).value;
            && t.table == s.table && t.up == s.up
            && t.objs == if !b.isConn && b.asRef.Some? && s.cells[b.asRef.value].refCount == 0 then s.objs[o := b.(isConn := true)] else s.objs
  {
    var b := s.objs[o];
    if b.asRef.Some? && !b.isConn && s.cells[b.asRef.value].handle && s.cells[b.asRef.value].refCount == 0 {
      var r := b.asRef.value;
      var c := s.cells[r];
      var d := if b.isPersistent then c.(refCount := 1) else c.(attempts := c.attempts + 1, refCount := 1);
      TouchShape(s, o, b.(isConn := true), r, d);
      assert DoReconnect(s, o) == Some(SetObj(SetCell(s, r, d), o, b.(isConn := true)));
      hide DoReconnect, Shape;
    } else {
      assert DoReconnect(s, o) == Some(s);
      hide DoReconnect, Shape;
    }
  }

  /** A call changes nothing but its cell's connect timeout, and that only if its options say so. */
  lemma CallKeeps<R, O>(s: State<R, O>, o: O, q: Request)
    requires Inv(s) && s.up && o in s.objs && Policy.OptionsDefined(q.targets, q.env, q.options)
    ensures Kept(DoCall(s, o, q))
    ensures var t := DoCall(s, o, q).value;
            && t == s.(cells := t.cells) && t.cells.Keys == s.cells.Keys
            && forall r :: r in s.cells ==>
                 && t.cells[r] == s.cells[r].(policy := t.cells[r].policy)
                 && (s.objs[o].asRef != Some(r) ==> t.cells[r] == s.cells[r])
                 && SameDefaults(s.cells[r].policy, t.cells[r].policy)
                 && (s.objs[o].asRef == Some(r) && s.objs[o].isConn ==> t.cells[r].policy == PolicyAfter(s.cells[r].policy, q))
    ensures !s.objs[o].isConn ==> DoCall(s, o, q) == Some(s)
  {
    hide Policy.OptionsDefined;
    assert forall p: Policy.Store :: SameDefaults(p, p);
    hide SameDefaults;
    if s.objs[o].isConn {
      CallView(s, o, q);
      CallSameDefaults(s.cells[s.objs[o].asRef.value].policy, q);
      PolicyShape(s, s.objs[o].asRef.value, PolicyAfter(s.cells[s.objs[o].asRef.value].policy, q));
      hide DoCall, PolicyAfter, Inv;
    }
  }

  lemma CallView<R, O>(s: State<R, O>, o: O, q: Request)
    requires Inv(s) && s.up && o in s.objs && s.objs[o].isConn && Policy.OptionsDefined(q.targets, q.env, q.options)
    ensures s.objs[o].asRef.Some? && s.objs[o].asRef.value in s.cells
    ensures var r := s.objs[o].asRef.value;
            DoCall(s, o, q) == Some(SetCell(s, r, s.cells[r].(policy := PolicyAfter(s.cells[r].policy, q))))
  {
    var p := s.cells[s.objs[o].asRef.value].policy;
    hide Policy.OptionsDefined, PolicyAfter;
    Policy.CallDefined(p, q.targets, q.env, q.options);
  }

  /** The invariant does not depend on what the configurations say. */
  lemma PolicyShape<R, O>(s: State<R, O>, r: R, policy: Policy.Store)
    requires Inv(s) && r in s.cells
    ensures Inv(SetCell(s, r, s.cells[r].(policy := policy)))
  {
    var t := SetCell(s, r, s.cells[r].(policy := policy));
    forall q | q in t.cells && t.cells[q].frees == 0 && !t.cells[q].shared
      ensures exists p :: p in t.objs && SoleHolder(t, p, q)
    {
      var p :| p in s.objs && SoleHolder(s, p, q);
      assert SoleHolder(t, p, q);
    }
  }

  /** The same configuration defaults, but for the connect timeout. */
  ghost predicate SameDefaults(p: Policy.Store, q: Policy.Store) {
    forall slot: Policy.Slot :: slot.InConfig? && slot != Policy.InConfig(Policy.Config, Policy.ConnTimeout) ==>
                                  Policy.At(p, slot) == Policy.At(q, slot)
  }

  lemma CallSameDefaults(p: Policy.Store, q: Request)
    ensures SameDefaults(p, PolicyAfter(p, q))
  {
    var left := Policy.Left(Policy.Called(p, q.targets, q.env, q.options));
    hide Policy.Called, Policy.Left;
    forall slot: Policy.Slot | slot.InConfig? && slot != Policy.InConfig(Policy.Config, Policy.ConnTimeout)
      ensures Policy.At(p, slot) == Policy.At(Policy.ConfigPart(left), slot)
    {
      Policy.CallKeepsConfig(p, q.targets, q.env, q.options, slot);
    }
  }

  /** A new object holds nothing, is not connected and not persistent. */
  lemma NewOutcome<R, O>(s: State<R, O>, o: O)
    requires Enabled(s, New(o))
    ensures Apply(s, New(o)) == Some(State(s.cells, s.table, s.up, s.objs[o := Obj(false, false, None, false)]))
  {}

  /** Every step of a tame run is defined behaviour and keeps the invariant. */
  lemma StepKeepsInv<R, O>(s: State<R, O>, step: Step<R, O>)
    requires Inv(s) && Enabled(s, step) && Tame(s, step)
    ensures Kept(Apply(s, step))
  {
    hide CellsOk, TableOk, ObjsOk, OwnersOk;
    match step
    case New(o) => BindShared(s, o, Obj(false, false, None, false));
    case Construct(o, args, r, ok) => ConstructKeepsInvIff(s, o, args, r, ok);
    case IsConnected(o, answer) => IsConnectedKeeps(s, o, answer);
    case Close(o) => CloseKeeps(s, o);
    case Reconnect(o) => ReconnectKeeps(s, o);
    case Call(o, q) => CallKeeps(s, o, q);
    case Drop(o) => DropKeeps(s, o);
    case SessionOpen(o, parsed, library, r, ok) => SessionOpenKeeps(s, o, parsed, library, r, ok);
    case SessionClose(o) => SessionCloseKeeps(s, o);
    case Teardown(order) => TeardownKeeps(s, order);
  }

  /** In every reachable state before teardown: each call on each holder, each binding and the teardown are defined. */
  lemma InvAllowsCalls<R, O>(s: State<R, O>, o: O, cfg: Config, answer: bool)
    requires Inv(s) && s.up && o in s.objs
    ensures DoIsConnected(s, o, answer).Some? && DoClose(s, o).Some? && DoReconnect(s, o).Some?
    ensures DoDrop(s, o).Some? && DoSessionClose(s, o).Some?
    ensures BindDefined(s, cfg) && Tearable(s.cells, s.table)
  {
    FindAliasSpec(s.table, Aliases(cfg));
  }

  lemma StepDefined<R, O>(s: State<R, O>, step: Step<R, O>)
    requires Inv(s) && Enabled(s, step) && Tame(s, step)
    ensures Apply(s, step).Some?
  {
    StepKeepsInv(s, step);
  }
}
