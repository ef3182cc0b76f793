/**
  Policy layering: library defaults, INI values, constructor options and per-call options, each laid
  over the one before by a loop that writes fields through pointers.
 */
module Policy {
  import opened Wrappers
  import opened CInt

  // ----- options

  datatype OptVal = Long(n: int) | Bool(b: bool) | Arr(first: Option<OptVal>) | OtherVal

  /** A key of a PHP options array. */
  datatype OptKey = Name(s: string) | Id(n: int)

  datatype Opt = Opt(key: OptKey, val: OptVal)

  const CONNECT_TIMEOUT := 1
  const READ_TIMEOUT := 2
  const WRITE_TIMEOUT := 3
  const RETRY := 4
  const EXISTS := 5
  const SERIALIZER := 6
  const SCAN_PRIORITY := 7
  const SCAN_PERCENTAGE := 8
  const SCAN_CONCURRENTLY := 9
  const SCAN_NOBINS := 10
  const SCAN_INCLUDELDT := 11
  const KEY := 12
  const GEN := 13
  const REPLICA := 14
  const CONSISTENCY := 15
  const COMMIT_LEVEL := 16
  const TTL := 17
  const USE_BATCH_DIRECT := 18
  const COMPRESSION := 19
  const DURABLE_DELETE := 20

  const SCAN_CODES: set<int> := {SCAN_PRIORITY, SCAN_PERCENTAGE, SCAN_CONCURRENTLY, SCAN_NOBINS, SCAN_INCLUDELDT}

  function Bit(b: bool): int {
    if b then 1 else 0
  }

  /** The options loop switches on the key cast to `int`. */
  function Code(o: Opt): Option<int> {
    if o.key.Id? then Some(Int32(o.key.n)) else None
  }

  // ----- the fields written

  datatype Target =
    | Read | Write | Operate | Remove | Info | Scan | Query | Batch | Apply | Admin
    | Serializer | ScanObject | Config

  datatype Part =
    | Timeout | Retry | Exists | KeyPolicy | Gen | Commit | Consistency | Replica | DurableDelete
    | Value | Priority | Percent | Concurrent | NoBins | IncludeLdt | ConnTimeout | BatchDirect | Compression

  /** A field of the configuration's defaults or of the policy of the current call. */
  datatype Slot = InConfig(target: Target, part: Part) | InCall(target: Target, part: Part)

  type Store = map<Slot, int>

  /** Which policy pointers a call supplies. */
  type Targets = set<Target>

  /** `writes` are the assignments of an accepted option; `Undefined` is a pointer followed that is not there. */
  datatype Effect = Rejected | Undefined | Writes(writes: Store)

  /** The first supplied pointer in the order an option tries them. */
  function First(t: Targets, order: seq<Target>): (r: Option<Target>)
    ensures r.Some? ==> exists i :: 0 <= i < |order| && order[i] == r.value && r.value in t && forall j :: 0 <= j < i ==> order[j] !in t
    ensures r.None? ==> forall j :: 0 <= j < |order| ==> order[j] !in t
  {
    if order == [] then None else if order[0] in t then Some(order[0]) else First(t, order[1..])
  }

  /** The library's setters on the scan object. */
  type ScanEnv = (Part, int) -> bool

  // ----- per-call options

  const READ_ORDER: seq<Target> := [Read, Info, Scan, Query, Batch]
  const WRITE_ORDER: seq<Target> := [Write, Operate, Remove, Info, Scan, Query, Apply, Admin]
  const RECORD_ORDER: seq<Target> := [Write, Operate, Remove]
  const KEY_ORDER: seq<Target> := [Write, Read, Operate, Remove, Apply]
  const READER_ORDER: seq<Target> := [Read, Operate]
  const DURABLE_ORDER: seq<Target> := [Write, Operate, Remove, Apply, Scan]

  function One(slot: Slot, value: int): Effect {
    Writes(map[slot := value])
  }

  function Into(t: Targets, order: seq<Target>, part: Part, n: int): Effect {
    if First(t, order).None? then Rejected else One(InCall(First(t, order).value, part), Uint32(n))
  }

  function ScanFlag(env: ScanEnv, part: Part, v: OptVal): Effect {
    if !v.Bool? || !(part == IncludeLdt || env(part, Bit(v.b))) then Rejected
    else One(InCall(ScanObject, part), Bit(v.b))
  }

  function ScanNumber(env: ScanEnv, part: Part, v: OptVal): Effect {
    if !v.Long? then Rejected
    else
      var n := if part == Percent then Int32(v.n) else Uint32(v.n);
      if (part == Percent ==> 0 <= n <= 100) && env(part, n) then One(InCall(ScanObject, part), n) else Rejected
  }

  /** Scan options are passed over by info calls and need the scan object otherwise. */
  function ScanEffect(t: Targets, env: ScanEnv, c: int, v: OptVal): Effect {
    if Info in t then Writes(map[])
    else if ScanObject !in t then Rejected
    else if c == SCAN_PRIORITY then ScanNumber(env, Priority, v)
    else if c == SCAN_PERCENTAGE then ScanNumber(env, Percent, v)
    else if c == SCAN_CONCURRENTLY then ScanFlag(env, Concurrent, v)
    else if c == SCAN_NOBINS then ScanFlag(env, NoBins, v)
    else ScanFlag(env, IncludeLdt, v)
  }

  function GenEffect(t: Targets, v: OptVal): Effect {
    if !v.Arr? || v.first.None? then Undefined
    else if v.first.value.Long? then Into(t, RECORD_ORDER, Gen, v.first.value.n)
    else Rejected
  }

  /** The option also lands in the scan object's include-LDT field, which must be there. */
  function DurableEffect(t: Targets, v: OptVal): Effect {
    if ScanObject !in t || !v.Bool? || First(t, DURABLE_ORDER).None? then Rejected
    else Writes(map[InCall(ScanObject, IncludeLdt) := Bit(v.b), InCall(First(t, DURABLE_ORDER).value, DurableDelete) := Bit(v.b)])
  }

  /** The options that carry an integer. */
  function LongEffect(t: Targets, c: int, n: int): Effect {
    if c == CONNECT_TIMEOUT then if Config in t then One(InConfig(Config, ConnTimeout), Uint32(n)) else Rejected
    else if c == READ_TIMEOUT then Into(t, READ_ORDER, Timeout, n)
    else if c == WRITE_TIMEOUT then Into(t, WRITE_ORDER, Timeout, n)
    else if c == EXISTS then if Write in t then One(InCall(Write, Part.Exists), Uint32(n)) else Rejected
    else if c == RETRY then Into(t, RECORD_ORDER, Part.Retry, n)
    else if c == SERIALIZER then if Serializer in t then One(InCall(Serializer, Value), Int8(n)) else Rejected
    else if c == KEY then Into(t, KEY_ORDER, KeyPolicy, n)
    else if c == COMMIT_LEVEL then Into(t, RECORD_ORDER, Commit, n)
    else if c == CONSISTENCY then Into(t, READER_ORDER, Part.Consistency, n)
    else if c == REPLICA then Into(t, READER_ORDER, Part.Replica, n)
    else Rejected
  }

  function CallEffect(t: Targets, env: ScanEnv, o: Opt): Effect {
    match Code(o)
    case None => Rejected
    case Some(c) =>
      if c in SCAN_CODES then ScanEffect(t, env, c, o.val)
      else if c == GEN then GenEffect(t, o.val)
      else if c == DURABLE_DELETE then DurableEffect(t, o.val)
      else if c == TTL then Writes(map[])
      else if o.val.Long? then LongEffect(t, c, o.val.n)
      else Rejected
  }

  // ----- applying options in order

  /** All effects up to the first option that is not accepted. */
  datatype Outcome = Done(store: Store) | Stopped(left: Store, why: Effect)

  function ApplyAll(effects: seq<Effect>, s: Store): Outcome
    decreases |effects|
  {
    if effects == [] then Done(s)
    else if effects[0].Writes? then ApplyAll(effects[1..], s + effects[0].writes)
    else Stopped(s, effects[0])
  }

  function Effects(f: Opt -> Effect, os: seq<Opt>): (es: seq<Effect>)
    ensures |es| == |os|
  {
    seq(|os|, i requires 0 <= i < |os| => f(os[i]))
  }

  ghost predicate AllAccepted(es: seq<Effect>) {
    forall i :: 0 <= i < |es| ==> es[i].Writes?
  }

  /** Applying succeeds exactly when every option is accepted by itself. */
  lemma {:induction false} SucceedsIff(es: seq<Effect>, s: Store)
    ensures ApplyAll(es, s).Done? <==> AllAccepted(es)
    decreases |es|
  {
    if es != [] && es[0].Writes? {
      SucceedsIff(es[1..], s + es[0].writes);
      assert forall i :: 0 < i < |es| ==> es[i] == es[1..][i - 1];
      assert forall i :: 0 <= i < |es| - 1 ==> es[1..][i] == es[i + 1];
    }
  }

  /** Position of the last option that writes a slot. */
  function LastWriter(es: seq<Effect>, slot: Slot): Option<nat> {
    if es == [] then None
    else
      var e := es[|es| - 1];
      if e.Writes? && slot in e.writes then Some(|es| - 1) else LastWriter(es[..|es| - 1], slot)
  }

  lemma {:induction false} LastWriterSpec(es: seq<Effect>, slot: Slot)
    ensures var w := LastWriter(es, slot);
            && (w.Some? ==> w.value < |es| && es[w.value].Writes? && slot in es[w.value].writes)
            && forall i :: 0 <= i < |es| && es[i].Writes? && slot in es[i].writes ==> w.Some? && i <= w.value
  {
    if es != [] {
      LastWriterSpec(es[..|es| - 1], slot);
    }
  }

  lemma {:induction false} ApplyLast(es: seq<Effect>, e: Effect, s: Store)
    requires AllAccepted(es) && e.Writes?
    ensures ApplyAll(es, s).Done?
    ensures ApplyAll(es + [e], s) == Done(ApplyAll(es, s).store + e.writes)
    decreases |es|
  {
    if es != [] {
      assert forall i :: 0 <= i < |es| - 1 ==> es[1..][i] == es[i + 1];
      ApplyLast(es[1..], e, s + es[0].writes);
      assert (es + [e])[1..] == es[1..] + [e];
    } else {
      assert (es + [e])[1..] == [];
    }
  }

  /** The value of a slot after all options: the last writer's, or what was there before. */
  lemma {:induction false} ApplyValue(es: seq<Effect>, s: Store, slot: Slot)
    requires AllAccepted(es)
    ensures var r := ApplyAll(es, s);
            && r.Done?
            && (slot in r.store <==> LastWriter(es, slot).Some? || slot in s)
            && (slot in r.store ==> r.store[slot] == match LastWriter(es, slot) case Some(i) => ValueAt(es, i, slot) case None => s[slot])
  {
    LastWriterSpec(es, slot);
    if es != [] {
      var front, e := es[..|es| - 1], es[|es| - 1];
      ApplyValue(front, s, slot);
      LastWriterSpec(front, slot);
      ApplyLast(front, e, s);
      assert front + [e] == es;
    }
  }

  function ValueAt(es: seq<Effect>, i: nat, slot: Slot): int {
    if i < |es| && es[i].Writes? && slot in es[i].writes then es[i].writes[slot] else 0
  }

  // ----- order

  type Rule = Opt -> Effect

  function Run(f: Rule, os: seq<Opt>, s: Store): Outcome {
    ApplyAll(Effects(f, os), s)
  }

  ghost predicate Accepted(f: Rule, os: seq<Opt>) {
    forall o :: o in os ==> f(o).Writes?
  }

  ghost predicate Agree(a: Effect, b: Effect) {
    a.Writes? && b.Writes? ==> forall slot :: slot in a.writes && slot in b.writes ==> a.writes[slot] == b.writes[slot]
  }

  /** No two options write different values into the same field. */
  ghost predicate Compatible(f: Rule, os: seq<Opt>) {
    forall a, b :: a in os && b in os ==> Agree(f(a), f(b))
  }

  ghost predicate OrderIrrelevant(f: Rule, os: seq<Opt>, s: Store) {
    forall ps :: multiset(ps) == multiset(os) ==> Run(f, ps, s) == Run(f, os, s)
  }

  /** Applying options succeeds exactly when each of them is accepted by itself. */
  lemma RunSucceedsIff(f: Rule, os: seq<Opt>, s: Store)
    ensures Run(f, os, s).Done? <==> Accepted(f, os)
  {
    var es := Effects(f, os);
    SucceedsIff(es, s);
    if AllAccepted(es) {
      forall o | o in os ensures f(o).Writes? {
        var i :| 0 <= i < |os| && os[i] == o;
        assert es[i] == f(o);
      }
    }
    assert forall i :: 0 <= i < |os| ==> es[i] == f(os[i]) && os[i] in os;
  }

  /** Some option wrote the final value of a slot, and every other writer agrees with it if all options do. */
  lemma RunValue(f: Rule, os: seq<Opt>, s: Store, slot: Slot)
    requires Accepted(f, os)
    ensures var r := Run(f, os, s);
            && r.Done?
            && ((forall o :: o in os ==> slot !in f(o).writes) ==> (slot in r.store <==> slot in s) && (slot in s ==> r.store[slot] == s[slot]))
            && ((exists o :: o in os && slot in f(o).writes) ==>
                  exists o :: o in os && slot in f(o).writes && slot in r.store && r.store[slot] == f(o).writes[slot])
  {
    var es := Effects(f, os);
    assert forall i :: 0 <= i < |os| ==> es[i] == f(os[i]) && os[i] in os;
    ApplyValue(es, s, slot);
    LastWriterSpec(es, slot);
    if w :| w in os && slot in f(w).writes {
      var i :| 0 <= i < |os| && os[i] == w;
      assert es[i].Writes? && slot in es[i].writes;
      var j := LastWriter(es, slot).value;
      assert os[j] in os && es[j] == f(os[j]);
    }
  }

  lemma SameMembers(ps: seq<Opt>, os: seq<Opt>)
    requires multiset(ps) == multiset(os)
    ensures forall o :: o in ps <==> o in os
  {
    forall o ensures o in ps <==> o in os {
      assert o in ps <==> o in multiset(ps);
      assert o in os <==> o in multiset(os);
    }
  }

  lemma CompatiblePermutes(f: Rule, os: seq<Opt>, ps: seq<Opt>, s: Store)
    requires Accepted(f, os) && Compatible(f, os) && multiset(ps) == multiset(os)
    ensures Run(f, ps, s) == Run(f, os, s)
  {
    SameMembers(ps, os);
    RunSucceedsIff(f, os, s);
    RunSucceedsIff(f, ps, s);
    hide Run;
    var a, b := Run(f, ps, s).store, Run(f, os, s).store;
    forall slot ensures slot in a <==> slot in b
                ensures slot in a ==> slot in b && a[slot] == b[slot]
    {
      RunValue(f, ps, s, slot);
      RunValue(f, os, s, slot);
      if w :| w in os && slot in f(w).writes {
        var x :| x in ps && slot in f(x).writes && slot in a && a[slot] == f(x).writes[slot];
        var y :| y in os && slot in f(y).writes && slot in b && b[slot] == f(y).writes[slot];
        assert Agree(f(x), f(y));
      }
    }
    assert a == b;
  }

  /** The accepted options give the same policy in every order if and only if no two of them write
      different values into the same field. */
  lemma OrderIrrelevantIff(f: Rule, os: seq<Opt>, s: Store)
    requires Accepted(f, os)
    ensures OrderIrrelevant(f, os, s) <==> Compatible(f, os)
  {
    hide Run;
    if Compatible(f, os) {
      forall ps | multiset(ps) == multiset(os) ensures Run(f, ps, s) == Run(f, os, s) {
        CompatiblePermutes(f, os, ps, s);
      }
    } else {
      var a, b :| a in os && b in os && !Agree(f(a), f(b));
      var slot :| slot in f(a).writes && slot in f(b).writes && f(a).writes[slot] != f(b).writes[slot];
      MovedLast(f, os, a, s, slot);
      MovedLast(f, os, b, s, slot);
    }
  }

  /** Some order ends with a given option, and then its value stands. */
  lemma MovedLast(f: Rule, os: seq<Opt>, o: Opt, s: Store, slot: Slot)
    requires Accepted(f, os) && o in os && slot in f(o).writes
    ensures exists ps :: multiset(ps) == multiset(os) && Run(f, ps, s).Done? && slot in Run(f, ps, s).store
                         && Run(f, ps, s).store[slot] == f(o).writes[slot]
  {
    var i :| 0 <= i < |os| && os[i] == o;
    var rest := os[..i] + os[i + 1..];
    assert os == os[..i] + [o] + os[i + 1..];
    assert multiset(rest + [o]) == multiset(os);
    RunLast(f, rest, o, s);
  }

  lemma RunLast(f: Rule, os: seq<Opt>, o: Opt, s: Store)
    requires Accepted(f, os) && f(o).Writes?
    ensures Run(f, os, s).Done? && Run(f, os + [o], s) == Done(Run(f, os, s).store + f(o).writes)
  {
    var es := Effects(f, os);
    assert forall i :: 0 <= i < |os| ==> es[i] == f(os[i]) && os[i] in os;
    ApplyLast(es, f(o), s);
    assert Effects(f, os + [o]) == es + [f(o)];
  }

  /** One round of an options loop: an accepted option extends the run, any other ends it. */
  lemma RunStep(f: Rule, os: seq<Opt>, i: nat, s: Store)
    requires i < |os| && Accepted(f, os[..i]) && Run(f, os[..i], s).Done?
    ensures f(os[i]).Writes? ==> Accepted(f, os[..i + 1])
    ensures f(os[i]).Writes? ==> Run(f, os[..i + 1], s) == Done(Run(f, os[..i], s).store + f(os[i]).writes)
    ensures !f(os[i]).Writes? ==> Run(f, os, s) == Stopped(Run(f, os[..i], s).store, f(os[i]))
  {
    assert os[..i + 1] == os[..i] + [os[i]];
    if f(os[i]).Writes? {
      RunLast(f, os[..i], os[i], s);
    } else {
      var es := Effects(f, os);
      assert es[..i] == Effects(f, os[..i]);
      assert forall j :: 0 <= j < i ==> es[j] == f(os[..i][j]) && os[..i][j] in os[..i];
      ApplyStops(es, i, s);
    }
  }

  lemma {:induction false} ApplyStops(es: seq<Effect>, i: nat, s: Store)
    requires i < |es| && AllAccepted(es[..i]) && !es[i].Writes?
    ensures ApplyAll(es[..i], s).Done? && ApplyAll(es, s) == Stopped(ApplyAll(es[..i], s).store, es[i])
    decreases i
  {
    if i > 0 {
      assert es[..i][0].Writes? && es[..i][1..] == es[1..][..i - 1];
      var front, rest := es[..i], es[1..][..i - 1];
      forall j | 0 <= j < |rest| ensures rest[j].Writes? {
        assert rest[j] == front[j + 1];
      }
      ApplyStops(es[1..], i - 1, s + es[0].writes);
    }
  }

  lemma RunNone(f: Rule, s: Store)
    ensures Run(f, [], s) == Done(s) && Accepted(f, [])
  {
    assert Effects(f, []) == [];
  }

  // ----- which per-call options clash

  function CallRule(t: Targets, env: ScanEnv): Rule {
    o => CallEffect(t, env, o)
  }

  /** Read and write timeout routed to the same policy with different values. */
  predicate TimeoutClash(t: Targets, a: Opt, b: Opt) {
    && Code(a) == Some(READ_TIMEOUT) && Code(b) == Some(WRITE_TIMEOUT)
    && First(t, READ_ORDER) == First(t, WRITE_ORDER)
    && a.val.Long? && b.val.Long? && Uint32(a.val.n) != Uint32(b.val.n)
  }

  /** Include-LDT and durable-delete with different values, unless the info call ignores the former. */
  predicate LdtClash(t: Targets, a: Opt, b: Opt) {
    Code(a) == Some(SCAN_INCLUDELDT) && Code(b) == Some(DURABLE_DELETE) && Info !in t && a.val != b.val
  }

  /** Two keys that differ as PHP keys but are the same after the cast to `int`, with different values. */
  predicate CastClash(t: Targets, a: Opt, b: Opt) {
    Code(a).Some? && Code(a) == Code(b) && Stored(t, Code(a).value, a.val) != Stored(t, Code(b).value, b.val)
  }

  predicate Clash(t: Targets, a: Opt, b: Opt) {
    TimeoutClash(t, a, b) || LdtClash(t, a, b) || CastClash(t, a, b)
  }

  /** What an accepted option's value becomes in its field; 0 for one that writes none. */
  function Stored(t: Targets, c: int, v: OptVal): int {
    if c == TTL || (Info in t && c in SCAN_CODES) then 0
    else if c == GEN then if v.Arr? && v.first.Some? && v.first.value.Long? then Uint32(v.first.value.n) else 0
    else if v.Bool? then Bit(v.b)
    else if !v.Long? then 0
    else if c == SERIALIZER then Int8(v.n)
    else if c == SCAN_PERCENTAGE then Int32(v.n)
    else Uint32(v.n)
  }

  /** The fields an accepted per-call option writes: one, none, or the two of durable delete. */
  lemma CallWrites(t: Targets, env: ScanEnv, o: Opt)
    requires CallEffect(t, env, o).Writes?
    ensures Code(o).Some?
    ensures forall slot :: slot in CallEffect(t, env, o).writes ==> slot.part in PartsOf(Code(o).value)
    ensures Code(o) == Some(READ_TIMEOUT) ==> WritesTimeout(t, env, o, READ_ORDER)
    ensures Code(o) == Some(WRITE_TIMEOUT) ==> WritesTimeout(t, env, o, WRITE_ORDER)
    ensures Code(o) == Some(SCAN_INCLUDELDT) ==> if Info in t then CallEffect(t, env, o).writes == map[] else WritesLdt(t, env, o)
    ensures Code(o) == Some(DURABLE_DELETE) ==> WritesLdt(t, env, o)
  {}

  predicate WritesTimeout(t: Targets, env: ScanEnv, o: Opt, order: seq<Target>) {
    && o.val.Long? && First(t, order).Some?
    && CallEffect(t, env, o) == One(InCall(First(t, order).value, Timeout), Uint32(o.val.n))
  }

  predicate WritesLdt(t: Targets, env: ScanEnv, o: Opt) {
    && o.val.Bool? && CallEffect(t, env, o).Writes?
    && InCall(ScanObject, IncludeLdt) in CallEffect(t, env, o).writes
    && CallEffect(t, env, o).writes[InCall(ScanObject, IncludeLdt)] == Bit(o.val.b)
  }

  /** Which kind of field each option code can write. */
  function PartsOf(c: int): set<Part> {
    if c == CONNECT_TIMEOUT then {ConnTimeout}
    else if c == READ_TIMEOUT || c == WRITE_TIMEOUT then {Timeout}
    else if c == RETRY then {Part.Retry}
    else if c == EXISTS then {Part.Exists}
    else if c == SERIALIZER then {Value}
    else if c == SCAN_PRIORITY then {Priority}
    else if c == SCAN_PERCENTAGE then {Percent}
    else if c == SCAN_CONCURRENTLY then {Concurrent}
    else if c == SCAN_NOBINS then {NoBins}
    else if c == SCAN_INCLUDELDT then {IncludeLdt}
    else if c == KEY then {KeyPolicy}
    else if c == GEN then {Gen}
    else if c == COMMIT_LEVEL then {Commit}
    else if c == CONSISTENCY then {Part.Consistency}
    else if c == REPLICA then {Part.Replica}
    else if c == DURABLE_DELETE then {DurableDelete, IncludeLdt}
    else {}
  }

  lemma AgreeIffNoClash(t: Targets, env: ScanEnv, a: Opt, b: Opt)
    requires CallEffect(t, env, a).Writes? && CallEffect(t, env, b).Writes?
    ensures Agree(CallEffect(t, env, a), CallEffect(t, env, b)) <==> !Clash(t, a, b) && !Clash(t, b, a)
  {
    hide CallEffect, Stored, First, Code;
    CallCodeKnown(t, env, a);
    if Code(a) == Code(b) {
      SameCodeAgree(t, env, a, b);
    } else if Clash(t, a, b) {
      ClashDisagrees(t, env, a, b);
    } else if Clash(t, b, a) {
      ClashDisagrees(t, env, b, a);
    } else {
      NoClashAgrees(t, env, a, b);
    }
  }

  lemma CallCodeKnown(t: Targets, env: ScanEnv, o: Opt)
    requires CallEffect(t, env, o).Writes?
    ensures Code(o).Some?
  {}

  /** Two accepted options of one code write the same fields, each its stored value into all of them. */
  lemma SameCodeAgree(t: Targets, env: ScanEnv, a: Opt, b: Opt)
    requires CallEffect(t, env, a).Writes? && CallEffect(t, env, b).Writes? && Code(a) == Code(b)
    ensures Agree(CallEffect(t, env, a), CallEffect(t, env, b)) <==> !CastClash(t, a, b)
  {
    CallStores(t, env, a);
    CallStores(t, env, b);
    hide CallEffect, Stored, CallSlots;
    var x, y := CallEffect(t, env, a).writes, CallEffect(t, env, b).writes;
    if CastClash(t, a, b) {
      var slot :| slot in x;
      assert slot in y && x[slot] != y[slot];
    }
  }

  function Reached(t: Targets, order: seq<Target>, part: Part): set<Slot> {
    if First(t, order).Some? then {InCall(First(t, order).value, part)} else {}
  }

  /** The fields an accepted option of a given code writes. */
  function CallSlots(t: Targets, c: int): set<Slot> {
    if c == TTL || (Info in t && c in SCAN_CODES) then {}
    else if c == CONNECT_TIMEOUT then {InConfig(Config, ConnTimeout)}
    else if c == READ_TIMEOUT then Reached(t, READ_ORDER, Timeout)
    else if c == WRITE_TIMEOUT then Reached(t, WRITE_ORDER, Timeout)
    else if c == RETRY then Reached(t, RECORD_ORDER, Part.Retry)
    else if c == EXISTS then {InCall(Write, Part.Exists)}
    else if c == SERIALIZER then {InCall(Serializer, Value)}
    else if c == SCAN_PRIORITY then {InCall(ScanObject, Priority)}
    else if c == SCAN_PERCENTAGE then {InCall(ScanObject, Percent)}
    else if c == SCAN_CONCURRENTLY then {InCall(ScanObject, Concurrent)}
    else if c == SCAN_NOBINS then {InCall(ScanObject, NoBins)}
    else if c == SCAN_INCLUDELDT then {InCall(ScanObject, IncludeLdt)}
    else if c == KEY then Reached(t, KEY_ORDER, KeyPolicy)
    else if c == GEN then Reached(t, RECORD_ORDER, Gen)
    else if c == COMMIT_LEVEL then Reached(t, RECORD_ORDER, Commit)
    else if c == CONSISTENCY then Reached(t, READER_ORDER, Part.Consistency)
    else if c == REPLICA then Reached(t, READER_ORDER, Part.Replica)
    else if c == DURABLE_DELETE then {InCall(ScanObject, IncludeLdt)} + Reached(t, DURABLE_ORDER, DurableDelete)
    else {}
  }

  lemma CallStores(t: Targets, env: ScanEnv, o: Opt)
    requires CallEffect(t, env, o).Writes?
    ensures Code(o).Some?
    ensures CallEffect(t, env, o).writes.Keys == CallSlots(t, Code(o).value)
    ensures forall slot :: slot in CallEffect(t, env, o).writes ==> CallEffect(t, env, o).writes[slot] == Stored(t, Code(o).value, o.val)
    ensures CallSlots(t, Code(o).value) == {} ==> Stored(t, Code(o).value, o.val) == 0
  {
    hide First;
  }

  lemma ClashDisagrees(t: Targets, env: ScanEnv, a: Opt, b: Opt)
    requires CallEffect(t, env, a).Writes? && CallEffect(t, env, b).Writes? && Code(a) != Code(b) && Clash(t, a, b)
    ensures !Agree(CallEffect(t, env, a), CallEffect(t, env, b))
  {
    CallWrites(t, env, a);
    CallWrites(t, env, b);
    hide CallEffect, First;
    var x, y := CallEffect(t, env, a).writes, CallEffect(t, env, b).writes;
    var slot := if TimeoutClash(t, a, b) then InCall(First(t, READ_ORDER).value, Timeout) else InCall(ScanObject, IncludeLdt);
    assert slot in x && slot in y && x[slot] != y[slot];
  }

  lemma NoClashAgrees(t: Targets, env: ScanEnv, a: Opt, b: Opt)
    requires CallEffect(t, env, a).Writes? && CallEffect(t, env, b).Writes? && Code(a) != Code(b)
    requires !Clash(t, a, b) && !Clash(t, b, a)
    ensures Agree(CallEffect(t, env, a), CallEffect(t, env, b))
  {
    CallWrites(t, env, a);
    CallWrites(t, env, b);
    PartsApart(Code(a).value, Code(b).value);
    hide CallEffect, First, PartsOf;
  }

  /** Only the two timeouts, and include-LDT with durable delete, can write one kind of field. */
  lemma PartsApart(c: int, d: int)
    requires c != d
    ensures PartsOf(c) !! PartsOf(d) || (c in {READ_TIMEOUT, WRITE_TIMEOUT} && d in {READ_TIMEOUT, WRITE_TIMEOUT})
            || (c in {SCAN_INCLUDELDT, DURABLE_DELETE} && d in {SCAN_INCLUDELDT, DURABLE_DELETE})
    ensures c in {SCAN_INCLUDELDT, DURABLE_DELETE} && d in {SCAN_INCLUDELDT, DURABLE_DELETE} ==> PartsOf(c) * PartsOf(d) == {IncludeLdt}
  {}

  /** For every supplied policy and every accepted options array: the result is the same in every order if
      and only if no read timeout clashes with a write timeout, no include-LDT with a durable delete, and no
      option with another one of the same code. */
  lemma CallOrderIff(t: Targets, env: ScanEnv, os: seq<Opt>, s: Store)
    requires Accepted(CallRule(t, env), os)
    ensures OrderIrrelevant(CallRule(t, env), os, s) <==> forall a, b :: a in os && b in os ==> !Clash(t, a, b)
  {
    var f := CallRule(t, env);
    OrderIrrelevantIff(f, os, s);
    AgreeIffApart(t, env, os);
    hide *;
  }

  lemma AgreeIffApart(t: Targets, env: ScanEnv, os: seq<Opt>)
    requires Accepted(CallRule(t, env), os)
    ensures (forall a, b :: a in os && b in os ==> Agree(CallRule(t, env)(a), CallRule(t, env)(b)))
            <==> forall a, b :: a in os && b in os ==> !Clash(t, a, b)
  {
    var f := CallRule(t, env);
    hide CallEffect, Clash, Agree;
    forall a, b | a in os && b in os
      ensures Agree(f(a), f(b)) <==> !Clash(t, a, b) && !Clash(t, b, a)
    {
      assert f(a) == CallEffect(t, env, a) && f(b) == CallEffect(t, env, b);
      AgreeIffNoClash(t, env, a, b);
    }
  }

  /** The keys of a PHP array, none of which the cast to `int` changes. */
  ghost predicate PlainKeys(os: seq<Opt>) {
    && (forall a, b :: a in os && b in os && a.key == b.key ==> a == b)
    && (forall a :: a in os && a.key.Id? ==> Int32(a.key.n) == a.key.n)
  }

  /** Such options never clash by code alone. */
  lemma PlainKeysApart(t: Targets, os: seq<Opt>, a: Opt, b: Opt)
    requires PlainKeys(os) && a in os && b in os
    ensures !CastClash(t, a, b)
  {}

  /** The clashing pairs exist only where both timeouts reach one policy: info, scan and query. */
  lemma ClashingTargets(x: Target)
    requires x in {Read, Write, Operate, Remove, Info, Scan, Query, Batch, Apply, Admin}
    ensures First({x}, READ_ORDER).Some? && First({x}, READ_ORDER) == First({x}, WRITE_ORDER) <==> x in {Info, Scan, Query}
  {
    FirstOfOne(x, READ_ORDER);
    FirstOfOne(x, WRITE_ORDER);
  }

  lemma {:induction false} FirstOfOne(x: Target, order: seq<Target>)
    ensures First({x}, order) == if x in order then Some(x) else None
  {
    if order != [] {
      FirstOfOne(x, order[1..]);
    }
  }

  // ----- INI values and constructor options

  /** The INI entries as integers; absent ones are 0. */
  datatype Ini = Ini(readTimeout: int, keyPolicy: int, writeTimeout: int, connectTimeout: int,
                     serializer: int, batchDirect: int, compression: int)

  const READERS: seq<Target> := [Read, Info, Batch, Scan, Query]
  const WRITERS: seq<Target> := [Write, Operate, Remove, Apply]
  const KEYED: seq<Target> := [Read, Write, Operate, Remove]

  /** The same value into one field of several default policies. */
  function Fan(ts: seq<Target>, part: Part, value: int): (s: Store)
    ensures forall slot :: slot in s <==> slot.InConfig? && slot.part == part && slot.target in ts
    ensures forall slot :: slot in s ==> s[slot] == value
  {
    if ts == [] then map[] else Fan(ts[1..], part, value)[InConfig(ts[0], part) := value]
  }

  lemma FanMore(ts: seq<Target>, x: Target, part: Part, value: int)
    ensures Fan(ts + [x], part, value) == Fan(ts, part, value)[InConfig(x, part) := value]
  {
    hide Fan;
  }

  function NonZero(n: int): Option<int> {
    if n != 0 then Some(Uint32(n)) else None
  }

  /** The value the INI entries give to a default, if they give one. */
  function IniValue(ini: Ini, slot: Slot): Option<int> {
    if slot.InCall? then None
    else if slot.part == Timeout then
      if slot.target in READERS then NonZero(ini.readTimeout) else if slot.target in WRITERS then NonZero(ini.writeTimeout) else None
    else if slot.part == KeyPolicy then if slot.target in KEYED then NonZero(ini.keyPolicy) else None
    else if slot == InConfig(Config, ConnTimeout) then NonZero(ini.connectTimeout)
    else if slot == InConfig(Serializer, Value) then Some(Int8(ini.serializer))
    else if slot == InConfig(Batch, BatchDirect) then Some(ini.batchDirect)
    else if slot == InConfig(Write, Compression) && ini.compression >= 0 then Some(ini.compression)
    else None
  }

  const INI_SLOTS: set<Slot> :=
    (set x | x in READERS + WRITERS :: InConfig(x, Timeout)) + (set x | x in KEYED :: InConfig(x, KeyPolicy))
    + {InConfig(Config, ConnTimeout), InConfig(Serializer, Value), InConfig(Batch, BatchDirect), InConfig(Write, Compression)}

  /** The INI values laid over the library's defaults, field by field. */
  function WithIni(library: Store, ini: Ini): Store {
    map slot | slot in library.Keys + INI_SLOTS && (slot in library || IniValue(ini, slot).Some?)
      :: if IniValue(ini, slot).Some? then IniValue(ini, slot).value else library[slot]
  }

  lemma WithIniAt(library: Store, ini: Ini, slot: Slot)
    ensures At(WithIni(library, ini), slot) == if IniValue(ini, slot).Some? then IniValue(ini, slot) else At(library, slot)
  {
    IniSlots(ini, slot);
    hide INI_SLOTS, IniValue;
  }

  function IniPolicies(library: Store, ini: Ini): Store {
    var a := if ini.readTimeout != 0 then library + Fan(READERS, Timeout, Uint32(ini.readTimeout)) else library;
    var b := if ini.keyPolicy != 0 then a + Fan(KEYED, KeyPolicy, Uint32(ini.keyPolicy)) else a;
    if ini.writeTimeout != 0 then b + Fan(WRITERS, Timeout, Uint32(ini.writeTimeout)) else b
  }

  lemma IniPoliciesAt(library: Store, ini: Ini, slot: Slot)
    ensures At(IniPolicies(library, ini), slot)
            == if slot.part in {Timeout, KeyPolicy} && IniValue(ini, slot).Some? then IniValue(ini, slot) else At(library, slot)
  {
    hide Fan;
    assert slot.target in READERS ==> slot.target !in WRITERS;
  }

  /** The entries that give one field each. */
  lemma IniSingles(ini: Ini, slot: Slot)
    requires !(slot.part in {Timeout, KeyPolicy} && slot.InConfig?)
    ensures IniValue(ini, slot) ==
            if slot == InConfig(Config, ConnTimeout) && ini.connectTimeout != 0 then Some(Uint32(ini.connectTimeout))
            else if slot == InConfig(Serializer, Value) then Some(Int8(ini.serializer))
            else if slot == InConfig(Batch, BatchDirect) then Some(ini.batchDirect)
            else if slot == InConfig(Write, Compression) && ini.compression >= 0 then Some(ini.compression)
            else None
  {}

  lemma IniSlots(ini: Ini, slot: Slot)
    ensures IniValue(ini, slot).Some? ==> slot in INI_SLOTS
  {
    if slot.InConfig? && slot.part == Timeout {
      assert slot == InConfig(slot.target, Timeout);
    } else if slot.InConfig? && slot.part == KeyPolicy {
      assert slot == InConfig(slot.target, KeyPolicy);
    }
  }

  function LongDefault(slots: Store, v: OptVal): Effect {
    if v.Long? then Writes(slots) else Rejected
  }

  /** The default written by a constructor option that writes only one. */
  function CtorSlot(c: int): Option<Slot> {
    if c == CONNECT_TIMEOUT then Some(InConfig(Config, ConnTimeout))
    else if c == RETRY then Some(InConfig(Config, Part.Retry))
    else if c == EXISTS then Some(InConfig(Config, Part.Exists))
    else if c == REPLICA then Some(InConfig(Config, Part.Replica))
    else if c == CONSISTENCY then Some(InConfig(Config, Part.Consistency))
    else if c == COMMIT_LEVEL then Some(InConfig(Config, Commit))
    else if c == SERIALIZER then Some(InConfig(Serializer, Value))
    else if c == USE_BATCH_DIRECT then Some(InConfig(Batch, BatchDirect))
    else if c == COMPRESSION then Some(InConfig(Write, Compression))
    else None
  }

  /** The value it writes. The serializer's type test is joined by `and` to a test that never fails, so any
      value is taken; `raw` is how a non-integer reads as one. */
  function CtorValue(raw: OptVal -> int, c: int, v: OptVal): Option<int> {
    if c == SERIALIZER then Some(Int8(if v.Long? then v.n else raw(v)))
    else if c == USE_BATCH_DIRECT then if v.Bool? then Some(Bit(v.b)) else None
    else if !v.Long? then None
    else if c == COMPRESSION then Some(Int32(v.n))
    else Some(Uint32(v.n))
  }

  function CtorEffect(raw: OptVal -> int, o: Opt): Effect {
    match Code(o)
    case None => Rejected
    case Some(c) =>
      var n := if o.val.Long? then o.val.n else 0;
      if c == READ_TIMEOUT then LongDefault(Fan(READERS, Timeout, Uint32(n)), o.val)
      else if c == WRITE_TIMEOUT then LongDefault(Fan(WRITERS, Timeout, Uint32(n)), o.val)
      else if c == KEY then LongDefault(Fan(KEYED + [Config], KeyPolicy, Uint32(n)), o.val)
      else if CtorSlot(c).None? || CtorValue(raw, c, o.val).None? then Rejected
      else One(CtorSlot(c).value, CtorValue(raw, c, o.val).value)
  }

  function CtorRule(raw: OptVal -> int): Rule {
    o => CtorEffect(raw, o)
  }

  /** Two constructor options of one code with different values, which only the cast of their keys allows. */
  predicate CtorClash(raw: OptVal -> int, a: Opt, b: Opt) {
    Code(a).Some? && Code(a) == Code(b) && CtorValue(raw, Code(a).value, a.val) != CtorValue(raw, Code(b).value, b.val)
  }

  /** An accepted constructor option writes one value into every field of its code. */
  lemma CtorStores(raw: OptVal -> int, o: Opt)
    requires CtorEffect(raw, o).Writes?
    ensures Code(o).Some? && CtorValue(raw, Code(o).value, o.val).Some?
    ensures CtorEffect(raw, o).writes.Keys == CtorSlots(Code(o).value) != {}
    ensures forall slot :: slot in CtorEffect(raw, o).writes ==> CtorEffect(raw, o).writes[slot] == CtorValue(raw, Code(o).value, o.val).value
  {
    hide Fan, CtorSlot;
    assert READERS[0] in READERS && WRITERS[0] in WRITERS && KEYED[0] in KEYED;
    var c := Code(o).value;
    assert c == READ_TIMEOUT ==> InConfig(READERS[0], Timeout) in CtorEffect(raw, o).writes;
    assert c == WRITE_TIMEOUT ==> InConfig(WRITERS[0], Timeout) in CtorEffect(raw, o).writes;
    assert c == KEY ==> InConfig(KEYED[0], KeyPolicy) in CtorEffect(raw, o).writes;
  }

  function CtorSlots(c: int): set<Slot> {
    if c == READ_TIMEOUT then Fan(READERS, Timeout, 0).Keys
    else if c == WRITE_TIMEOUT then Fan(WRITERS, Timeout, 0).Keys
    else if c == KEY then Fan(KEYED + [Config], KeyPolicy, 0).Keys
    else if CtorSlot(c).Some? then {CtorSlot(c).value} else {}
  }

  /** The constructor options that reach a default, by number: no default is reached by two. */
  function CtorCodes(slot: Slot): set<int> {
    if slot.InCall? then {}
    else if slot.part == Timeout then
      if slot.target in {Read, Info, Batch, Scan, Query} then {2} else if slot.target in {Write, Operate, Remove, Apply} then {3} else {}
    else if slot.part == KeyPolicy then if slot.target in {Read, Write, Operate, Remove, Config} then {12} else {}
    else if slot == InConfig(Config, ConnTimeout) then {1}
    else if slot == InConfig(Config, Part.Retry) then {4}
    else if slot == InConfig(Config, Part.Exists) then {5}
    else if slot == InConfig(Serializer, Value) then {6}
    else if slot == InConfig(Config, Part.Replica) then {14}
    else if slot == InConfig(Config, Part.Consistency) then {15}
    else if slot == InConfig(Config, Commit) then {16}
    else if slot == InConfig(Batch, BatchDirect) then {18}
    else if slot == InConfig(Write, Compression) then {19}
    else {}
  }

  function CtorReading(raw: OptVal -> int, part: Part): Reading {
    if part == Value then AsSerializer(raw) else if part == BatchDirect then AsBool else if part == Compression then AsInt32 else AsUint32
  }

  lemma CtorSlotsByCode(c: int, slot: Slot)
    ensures slot in CtorSlots(c) <==> c in CtorCodes(slot)
  {
    if c in {READ_TIMEOUT, WRITE_TIMEOUT, KEY} {
      CtorGroupByCode(c, slot);
    } else {
      hide Fan;
    }
  }

  lemma CtorGroupByCode(c: int, slot: Slot)
    requires c in {READ_TIMEOUT, WRITE_TIMEOUT, KEY}
    ensures slot in CtorSlots(c) <==> c in CtorCodes(slot)
  {
    hide Fan, CtorSlot;
  }

  lemma CtorValueRead(raw: OptVal -> int, o: Opt, slot: Slot)
    requires CtorEffect(raw, o).Writes? && Code(o).value in CtorCodes(slot)
    ensures CtorValue(raw, Code(o).value, o.val) == Some(ValueOf(CtorReading(raw, slot.part), o.val))
  {
    CtorPartByCode(slot, Code(o).value);
    hide Fan, CtorSlot, CtorCodes;
  }

  lemma CtorPartByCode(slot: Slot, c: int)
    requires c in CtorCodes(slot)
    ensures (slot.part == Value <==> c == SERIALIZER) && (slot.part == BatchDirect <==> c == USE_BATCH_DIRECT)
    ensures (slot.part == Compression <==> c == COMPRESSION)
  {}

  lemma CtorGoverns(raw: OptVal -> int, slot: Slot)
    ensures Governs(CtorRule(raw), CtorCodes(slot), slot, CtorReading(raw, slot.part))
  {
    var f := CtorRule(raw);
    hide CtorEffect, CtorSlots, CtorCodes, CtorValue, CtorReading, ValueOf, Code;
    forall o | f(o).Writes?
      ensures OptionGoverns(f, CtorCodes(slot), slot, CtorReading(raw, slot.part), o)
    {
      assert f(o) == CtorEffect(raw, o);
      CtorStores(raw, o);
      CtorSlotsByCode(Code(o).value, slot);
      if Code(o).value in CtorCodes(slot) {
        CtorValueRead(raw, o, slot);
      }
    }
  }

  /** Distinct constructor options never write the same field. */
  lemma CtorApart(raw: OptVal -> int, a: Opt, b: Opt)
    requires CtorEffect(raw, a).Writes? && CtorEffect(raw, b).Writes? && Code(a) != Code(b)
    ensures CtorEffect(raw, a).writes.Keys !! CtorEffect(raw, b).writes.Keys
  {
    CtorStores(raw, a);
    CtorStores(raw, b);
    hide CtorEffect, CtorSlots, CtorValue, CtorCodes, Code;
    forall slot | slot in CtorEffect(raw, a).writes ensures slot !in CtorEffect(raw, b).writes {
      CtorSlotsByCode(Code(a).value, slot);
      CtorSlotsByCode(Code(b).value, slot);
      OneCode(slot, Code(a).value, Code(b).value);
    }
  }

  lemma OneCode(slot: Slot, c: int, d: int)
    ensures c in CtorCodes(slot) && d in CtorCodes(slot) ==> c == d
  {}

  /** Which constructor options are accepted, by number. */
  predicate CtorAdmissible(o: Opt) {
    o.key.Id? &&
    var c := Int32(o.key.n);
    if c == 6 then true
    else if c == 18 then o.val.Bool?
    else c in {1, 2, 3, 4, 5, 12, 14, 15, 16, 19} && o.val.Long?
  }

  lemma CtorAcceptsIff(raw: OptVal -> int, o: Opt)
    ensures CtorEffect(raw, o).Writes? <==> CtorAdmissible(o)
  {
    hide Fan;
  }

  lemma CtorAgreeIff(raw: OptVal -> int, a: Opt, b: Opt)
    requires CtorEffect(raw, a).Writes? && CtorEffect(raw, b).Writes?
    ensures Agree(CtorEffect(raw, a), CtorEffect(raw, b)) <==> !CtorClash(raw, a, b)
  {
    CtorStores(raw, a);
    CtorStores(raw, b);
    if Code(a) != Code(b) {
      CtorApart(raw, a, b);
    }
    hide CtorEffect, CtorSlots, CtorValue;
    if CtorClash(raw, a, b) {
      var slot :| slot in CtorEffect(raw, a).writes;
      assert slot in CtorEffect(raw, b).writes;
    }
  }

  /** Constructor options give the same defaults in every order if and only if no two of them have one code
      and different values. */
  lemma CtorOrderIff(raw: OptVal -> int, os: seq<Opt>, s: Store)
    requires Accepted(CtorRule(raw), os)
    ensures OrderIrrelevant(CtorRule(raw), os, s) <==> forall a, b :: a in os && b in os ==> !CtorClash(raw, a, b)
  {
    var f := CtorRule(raw);
    OrderIrrelevantIff(f, os, s);
    hide CtorEffect, OrderIrrelevant, Agree, CtorClash;
    forall a, b | a in os && b in os ensures Agree(f(a), f(b)) <==> !CtorClash(raw, a, b) {
      assert f(a) == CtorEffect(raw, a) && f(b) == CtorEffect(raw, b);
      CtorAgreeIff(raw, a, b);
    }
  }

  /** So the order of options with ordinary keys never matters. */
  lemma CtorOrderIrrelevant(raw: OptVal -> int, os: seq<Opt>, s: Store)
    requires Accepted(CtorRule(raw), os) && PlainKeys(os)
    ensures OrderIrrelevant(CtorRule(raw), os, s)
  {
    hide OrderIrrelevant, CtorClash;
    CtorOrderIff(raw, os, s);
    forall a, b | a in os && b in os ensures !CtorClash(raw, a, b) {
      PlainKeysCtor(raw, os, a, b);
    }
  }

  lemma PlainKeysCtor(raw: OptVal -> int, os: seq<Opt>, a: Opt, b: Opt)
    requires PlainKeys(os) && a in os && b in os
    ensures !CtorClash(raw, a, b)
  {}

  /** The keys 2 and 2^32 + 2 are distinct in PHP and one code after the cast: their order decides. */
  lemma CastKeysClash(raw: OptVal -> int, s: Store)
    ensures var os := [Opt(Id(2), Long(1)), Opt(Id(0x1_0000_0002), Long(2))];
            Accepted(CtorRule(raw), os) && !OrderIrrelevant(CtorRule(raw), os, s)
  {
    var os := [Opt(Id(2), Long(1)), Opt(Id(0x1_0000_0002), Long(2))];
    assert Code(os[1]) == Some(READ_TIMEOUT) && CtorClash(raw, os[0], os[1]);
    CtorOrderIff(raw, os, s);
    assert os[0] in os && os[1] in os;
  }

  // ----- a call's policy

  const POLICIES: set<Target> := {Read, Write, Operate, Remove, Info, Scan, Query, Batch, Apply, Admin}

  /** Which default policy a call starts from. */
  function Base(t: Targets): Option<Target> {
    if Read in t && Write !in t then Some(Read)
    else if Write in t && Read !in t then Some(Write)
    else First(t, [Operate, Remove, Info, Scan, Query, Batch, Apply])
  }

  function CopyOf(config: Store, x: Target): Store {
    map part: Part | InConfig(x, part) in config :: InCall(x, part) := config[InConfig(x, part)]
  }

  /** What outlasts a call: the fields of the configuration. */
  function ConfigPart(s: Store): Store {
    map slot | slot in s && slot.InConfig? :: s[slot]
  }

  /** The store once the policies supplied, which are new for every call, have been initialised. */
  function CallStart(config: Store, t: Targets): Store {
    if Base(t).Some? then ConfigPart(config) + CopyOf(config, Base(t).value) else ConfigPart(config)
  }

  /** The defaults after construction. */
  function Constructed(library: Store, ini: Ini, raw: OptVal -> int, ctor: seq<Opt>): Outcome {
    Run(CtorRule(raw), ctor, WithIni(library, ini))
  }

  /** A call on these defaults. The defaults are copied through the configuration pointer, supplied or not. */
  function Called(config: Store, t: Targets, env: ScanEnv, call: seq<Opt>): Outcome {
    if t * (POLICIES + {Serializer}) == {} then Stopped(ConfigPart(config), Rejected)
    else if Base(t).Some? && Config !in t then Stopped(ConfigPart(config), Undefined)
    else Run(CallRule(t, env), call, CallStart(config, t))
  }

  // ----- precedence

  /** How a field takes an option's value. */
  datatype Reading = AsUint32 | AsInt32 | AsInt8 | AsBool | AsGeneration | AsSerializer(raw: OptVal -> int)

  function ValueOf(how: Reading, v: OptVal): int {
    match how
    case AsBool => if v == Bool(true) then 1 else 0
    case AsGeneration => (match v case Arr(Some(Long(n))) => Uint32(n) case _ => 0)
    case AsSerializer(raw) => Int8(if v.Long? then v.n else raw(v))
    case _ =>
      if !v.Long? then 0
      else if how == AsInt8 then Int8(v.n)
      else if how == AsInt32 then Int32(v.n)
      else Uint32(v.n)
  }

  /** The value of the last option whose code is one of `codes`. */
  function LastOf(os: seq<Opt>, codes: set<int>, how: Reading): Option<int> {
    if os == [] then None
    else
      var o := os[|os| - 1];
      if Code(o).Some? && Code(o).value in codes then Some(ValueOf(how, o.val)) else LastOf(os[..|os| - 1], codes, how)
  }

  ghost predicate OptionGoverns(f: Rule, codes: set<int>, slot: Slot, how: Reading, o: Opt) {
    f(o).Writes? ==>
      if Code(o).Some? && Code(o).value in codes then slot in f(o).writes && f(o).writes[slot] == ValueOf(how, o.val)
      else slot !in f(o).writes
  }

  /** The options with one of `codes`, and no others, write `slot`, with their own value. */
  ghost predicate Governs(f: Rule, codes: set<int>, slot: Slot, how: Reading) {
    forall o :: f(o).Writes? ==> OptionGoverns(f, codes, slot, how, o)
  }

  lemma SameStore(s: Store, t: Store)
    requires forall slot :: At(s, slot) == At(t, slot)
    ensures s == t
  {
    forall slot ensures slot in s <==> slot in t
                ensures slot in s ==> slot in t && s[slot] == t[slot]
    {
      assert At(s, slot) == At(t, slot);
    }
  }

  function At(s: Store, slot: Slot): Option<int> {
    if slot in s then Some(s[slot]) else None
  }

  lemma {:induction false} GovernedValue(f: Rule, codes: set<int>, slot: Slot, how: Reading, os: seq<Opt>, s: Store)
    requires Governs(f, codes, slot, how) && Accepted(f, os)
    ensures Run(f, os, s).Done?
    ensures At(Run(f, os, s).store, slot) == if LastOf(os, codes, how).Some? then LastOf(os, codes, how) else At(s, slot)
  {
    if os != [] {
      var front, o := os[..|os| - 1], os[|os| - 1];
      assert os == front + [o] && o in os;
      assert forall p :: p in front ==> p in os;
      assert OptionGoverns(f, codes, slot, how, o);
      GovernedValue(f, codes, slot, how, front, s);
      RunLast(f, front, o, s);
    }
  }

  /** The call options that reach a field when the policy of `x` is supplied, by number. */
  function CallCodes(x: Target, slot: Slot): set<int> {
    if slot.InConfig? then if slot == InConfig(Config, ConnTimeout) then {1} else {}
    else if slot.target == Serializer then if slot.part == Value then {6} else {}
    else if slot.target == ScanObject then
      if x == Info then {}
      else if slot.part == Priority then {7}
      else if slot.part == Percent then {8}
      else if slot.part == Concurrent then {9}
      else if slot.part == NoBins then {10}
      else if slot.part == IncludeLdt then {11, 20}
      else {}
    else if slot.target != x then {}
    else if slot.part == Timeout then
      if x in {Read, Batch} then {2} else if x in {Info, Scan, Query} then {2, 3} else if x in {Write, Operate, Remove, Apply, Admin} then {3} else {}
    else if slot.part == Part.Retry then if x in {Write, Operate, Remove} then {4} else {}
    else if slot.part == Part.Exists then if x == Write then {5} else {}
    else if slot.part == KeyPolicy then if x in {Read, Write, Operate, Remove, Apply} then {12} else {}
    else if slot.part == Gen then if x in {Write, Operate, Remove} then {13} else {}
    else if slot.part == Part.Replica then if x in {Read, Operate} then {14} else {}
    else if slot.part == Part.Consistency then if x in {Read, Operate} then {15} else {}
    else if slot.part == Commit then if x in {Write, Operate, Remove} then {16} else {}
    else if slot.part == DurableDelete then if x in {Write, Operate, Remove, Apply, Scan} then {20} else {}
    else {}
  }

  function CallReading(part: Part): Reading {
    if part in {Concurrent, NoBins, IncludeLdt, DurableDelete} then AsBool
    else if part == Gen then AsGeneration
    else if part == Value then AsInt8
    else if part == Percent then AsInt32
    else AsUint32
  }

  /** The first layer that says something. */
  function Layered(call: Option<int>, ctor: Option<int>, ini: Option<int>, library: Option<int>): Option<int> {
    if call.Some? then call else if ctor.Some? then ctor else if ini.Some? then ini else library
  }

  lemma LayeredSame(call: Option<int>, a: Option<int>, b: Option<int>)
    ensures Layered(call, None, None, a) == Layered(call, None, None, b) <==> call.Some? || a == b
  {}

  /** A call that supplies one policy, beside configuration, serializer and scan object. */
  ghost predicate OnlyPolicy(t: Targets, x: Target) {
    x in POLICIES && t * POLICIES == {x}
  }

  lemma {:induction false} FirstOnly(t: Targets, x: Target, order: seq<Target>)
    requires OnlyPolicy(t, x) && forall y :: y in order ==> y in POLICIES
    ensures First(t, order) == if x in order then Some(x) else None
  {
    if order != [] {
      assert order[0] in POLICIES && (order[0] in t <==> order[0] in t * POLICIES);
      FirstOnly(t, x, order[1..]);
    }
  }

  /** With one policy supplied every order of pointers leads to it. */
  lemma FirstsOnly(t: Targets, x: Target)
    requires OnlyPolicy(t, x)
    ensures First(t, READ_ORDER) == if x in {Read, Info, Scan, Query, Batch} then Some(x) else None
    ensures First(t, WRITE_ORDER) == if x in {Write, Operate, Remove, Info, Scan, Query, Apply, Admin} then Some(x) else None
    ensures First(t, RECORD_ORDER) == if x in {Write, Operate, Remove} then Some(x) else None
    ensures First(t, KEY_ORDER) == if x in {Write, Read, Operate, Remove, Apply} then Some(x) else None
    ensures First(t, READER_ORDER) == if x in {Read, Operate} then Some(x) else None
    ensures First(t, DURABLE_ORDER) == if x in {Write, Operate, Remove, Apply, Scan} then Some(x) else None
  {
    hide First;
    FirstOnly(t, x, READ_ORDER);
    FirstOnly(t, x, WRITE_ORDER);
    FirstOnly(t, x, RECORD_ORDER);
    FirstOnly(t, x, KEY_ORDER);
    FirstOnly(t, x, READER_ORDER);
    FirstOnly(t, x, DURABLE_ORDER);
  }

  /** What acceptance says about the policy supplied. */
  lemma AcceptedTargets(t: Targets, env: ScanEnv, x: Target, o: Opt)
    requires OnlyPolicy(t, x) && CallEffect(t, env, o).Writes?
    ensures Code(o).Some?
    ensures Code(o).value == EXISTS ==> x == Write
    ensures Code(o).value == DURABLE_DELETE ==> x in {Write, Operate, Remove, Apply, Scan}
    ensures Info in t <==> x == Info
  {
    FirstsOnly(t, x);
    assert Write in t <==> Write in t * POLICIES;
    assert Info in t <==> Info in t * POLICIES;
    hide First, ScanEffect, GenEffect, Into;
  }

  lemma CallSlotsByCode(t: Targets, x: Target, c: int, slot: Slot)
    requires OnlyPolicy(t, x) && (Info in t <==> x == Info)
    requires c == EXISTS ==> x == Write
    requires c == DURABLE_DELETE ==> x in {Write, Operate, Remove, Apply, Scan}
    ensures slot in CallSlots(t, c) <==> c in CallCodes(x, slot)
  {
    FirstsOnly(t, x);
    hide First;
    CodesOf(x, c, slot);
    if c in {READ_TIMEOUT, WRITE_TIMEOUT, KEY} {
      TimeoutSlots(t, x, c, slot);
    } else if c in {RETRY, GEN, COMMIT_LEVEL, CONSISTENCY, REPLICA} {
      RecordSlots(t, x, c, slot);
    } else if c == DURABLE_DELETE {
      DurableSlots(t, x, slot);
    } else {
      hide CallCodes, Reached;
    }
  }

  lemma TimeoutSlots(t: Targets, x: Target, c: int, slot: Slot)
    requires c in {READ_TIMEOUT, WRITE_TIMEOUT, KEY}
    requires First(t, READ_ORDER) == if x in {Read, Info, Scan, Query, Batch} then Some(x) else None
    requires First(t, WRITE_ORDER) == if x in {Write, Operate, Remove, Info, Scan, Query, Apply, Admin} then Some(x) else None
    requires First(t, KEY_ORDER) == if x in {Write, Read, Operate, Remove, Apply} then Some(x) else None
    ensures slot in CallSlots(t, c) <==> c in CallCodes(x, slot)
  {
    hide First;
  }

  lemma RecordSlots(t: Targets, x: Target, c: int, slot: Slot)
    requires c in {RETRY, GEN, COMMIT_LEVEL, CONSISTENCY, REPLICA}
    requires First(t, RECORD_ORDER) == if x in {Write, Operate, Remove} then Some(x) else None
    requires First(t, READER_ORDER) == if x in {Read, Operate} then Some(x) else None
    ensures slot in CallSlots(t, c) <==> c in CallCodes(x, slot)
  {
    hide First;
  }

  lemma DurableSlots(t: Targets, x: Target, slot: Slot)
    requires x in {Write, Operate, Remove, Apply, Scan} && First(t, DURABLE_ORDER) == Some(x)
    ensures slot in CallSlots(t, DURABLE_DELETE) <==> DURABLE_DELETE in CallCodes(x, slot)
  {
    hide First;
  }

  /** The same table read the other way round: the fields of each option. */
  lemma CodesOf(x: Target, c: int, slot: Slot)
    requires x in POLICIES
    ensures var record, scan := x in {Write, Operate, Remove}, slot.InCall? && slot.target == ScanObject && x != Info;
            c in CallCodes(x, slot) <==>
              || (c == 1 && slot == InConfig(Config, ConnTimeout))
              || (c == 2 && x in {Read, Info, Scan, Query, Batch} && slot == InCall(x, Timeout))
              || (c == 3 && x in {Write, Operate, Remove, Info, Scan, Query, Apply, Admin} && slot == InCall(x, Timeout))
              || (c == 4 && record && slot == InCall(x, Part.Retry))
              || (c == 5 && x == Write && slot == InCall(x, Part.Exists))
              || (c == 6 && slot == InCall(Serializer, Value))
              || (c == 7 && scan && slot.part == Priority) || (c == 8 && scan && slot.part == Percent)
              || (c == 9 && scan && slot.part == Concurrent) || (c == 10 && scan && slot.part == NoBins)
              || (c in {11, 20} && scan && slot.part == IncludeLdt)
              || (c == 12 && x in {Write, Read, Operate, Remove, Apply} && slot == InCall(x, KeyPolicy))
              || (c == 13 && record && slot == InCall(x, Gen))
              || (c == 14 && x in {Read, Operate} && slot == InCall(x, Part.Replica))
              || (c == 15 && x in {Read, Operate} && slot == InCall(x, Part.Consistency))
              || (c == 16 && record && slot == InCall(x, Commit))
              || (c == 20 && x in {Write, Operate, Remove, Apply, Scan} && slot == InCall(x, DurableDelete))
  {}

  lemma CallValueRead(t: Targets, env: ScanEnv, x: Target, o: Opt, slot: Slot)
    requires CallEffect(t, env, o).Writes? && Code(o).value in CallCodes(x, slot) && (Info in t <==> x == Info)
    ensures Stored(t, Code(o).value, o.val) == ValueOf(CallReading(slot.part), o.val)
  {
    hide First;
  }

  lemma CallGoverns(t: Targets, env: ScanEnv, x: Target, slot: Slot)
    requires OnlyPolicy(t, x)
    ensures Governs(CallRule(t, env), CallCodes(x, slot), slot, CallReading(slot.part))
  {
    var f := CallRule(t, env);
    hide CallEffect, CallSlots, CallCodes, Stored, CallReading, ValueOf, Code;
    forall o | f(o).Writes?
      ensures OptionGoverns(f, CallCodes(x, slot), slot, CallReading(slot.part), o)
    {
      assert f(o) == CallEffect(t, env, o);
      CallStores(t, env, o);
      AcceptedTargets(t, env, x, o);
      CallSlotsByCode(t, x, Code(o).value, slot);
      if Code(o).value in CallCodes(x, slot) {
        CallValueRead(t, env, x, o, slot);
      }
    }
  }

  /** Which call options are accepted, by number. */
  predicate CallAdmissible(t: Targets, env: ScanEnv, o: Opt) {
    o.key.Id? &&
    var c, v := Int32(o.key.n), o.val;
    var scan := ScanObject in t;
    if c == 17 then true
    else if 7 <= c <= 11 && Info in t then true
    else if c == 7 then scan && v.Long? && env(Priority, Uint32(v.n))
    else if c == 8 then scan && v.Long? && 0 <= Int32(v.n) <= 100 && env(Percent, Int32(v.n))
    else if c == 9 then scan && v.Bool? && env(Concurrent, if v.b then 1 else 0)
    else if c == 10 then scan && v.Bool? && env(NoBins, if v.b then 1 else 0)
    else if c == 11 then scan && v.Bool?
    else if c == 13 then v.Arr? && v.first.Some? && v.first.value.Long? && (Write in t || Operate in t || Remove in t)
    else if c == 20 then scan && v.Bool? && (Write in t || Operate in t || Remove in t || Apply in t || Scan in t)
    else
      v.Long? &&
      if c == 1 then Config in t
      else if c == 2 then (Read in t || Info in t || Scan in t || Query in t || Batch in t)
      else if c == 3 then (Write in t || Operate in t || Remove in t || Info in t || Scan in t || Query in t || Apply in t || Admin in t)
      else if c == 4 || c == 16 then (Write in t || Operate in t || Remove in t)
      else if c == 5 then Write in t
      else if c == 6 then Serializer in t
      else if c == 12 then (Write in t || Read in t || Operate in t || Remove in t || Apply in t)
      else if c == 14 || c == 15 then (Read in t || Operate in t)
      else false
  }

  // ----- the orders in which pointers are tried, spelled out

  lemma ReadOrder(t: Targets)
    ensures First(t, READ_ORDER) == if Read in t then Some(Read) else if Info in t then Some(Info) else if Scan in t then Some(Scan)
                                    else if Query in t then Some(Query) else if Batch in t then Some(Batch) else None
  {
    hide First;
    if Read in t {
      assert READ_ORDER[0] in t;
    } else if Info in t {
      assert READ_ORDER[1] in t;
    } else if Scan in t {
      assert READ_ORDER[2] in t;
    } else if Query in t {
      assert READ_ORDER[3] in t;
    } else if Batch in t {
      assert READ_ORDER[4] in t;
    }
    assert forall j :: 0 <= j < |READ_ORDER| ==> READ_ORDER[j] in {Read, Info, Scan, Query, Batch};
  }

  lemma WriteOrder(t: Targets)
    ensures First(t, WRITE_ORDER) == if Write in t then Some(Write) else if Operate in t then Some(Operate)
                                     else if Remove in t then Some(Remove) else if Info in t then Some(Info) else if Scan in t then Some(Scan) else if Query in t then Some(Query) else if Apply in t then Some(Apply) else if Admin in t then Some(Admin) else None
  {
    hide First;
    if Write in t {
      assert WRITE_ORDER[0] in t;
    } else if Operate in t {
      assert WRITE_ORDER[1] in t;
    } else if Remove in t {
      assert WRITE_ORDER[2] in t;
    } else if Info in t {
      assert WRITE_ORDER[3] in t;
    } else if Scan in t {
      assert WRITE_ORDER[4] in t;
    } else if Query in t {
      assert WRITE_ORDER[5] in t;
    } else if Apply in t {
      assert WRITE_ORDER[6] in t;
    } else if Admin in t {
      assert WRITE_ORDER[7] in t;
    }
    assert forall j :: 0 <= j < |WRITE_ORDER| ==> WRITE_ORDER[j] in {Write, Operate, Remove, Info, Scan, Query, Apply, Admin};
  }

  lemma RecordOrder(t: Targets)
    ensures First(t, RECORD_ORDER) == if Write in t then Some(Write) else if Operate in t then Some(Operate)
                                      else if Remove in t then Some(Remove) else None
  {
    hide First;
    if Write in t {
      assert RECORD_ORDER[0] in t;
    } else if Operate in t {
      assert RECORD_ORDER[1] in t;
    } else if Remove in t {
      assert RECORD_ORDER[2] in t;
    }
    assert forall j :: 0 <= j < |RECORD_ORDER| ==> RECORD_ORDER[j] in {Write, Operate, Remove};
  }

  lemma KeyOrder(t: Targets)
    ensures First(t, KEY_ORDER) == if Write in t then Some(Write) else if Read in t then Some(Read) else if Operate in t then Some(Operate)
                                   else if Remove in t then Some(Remove) else if Apply in t then Some(Apply) else None
  {
    hide First;
    if Write in t {
      assert KEY_ORDER[0] in t;
    } else if Read in t {
      assert KEY_ORDER[1] in t;
    } else if Operate in t {
      assert KEY_ORDER[2] in t;
    } else if Remove in t {
      assert KEY_ORDER[3] in t;
    } else if Apply in t {
      assert KEY_ORDER[4] in t;
    }
    assert forall j :: 0 <= j < |KEY_ORDER| ==> KEY_ORDER[j] in {Write, Read, Operate, Remove, Apply};
  }

  lemma ReaderOrder(t: Targets)
    ensures First(t, READER_ORDER) == if Read in t then Some(Read) else if Operate in t then Some(Operate) else None
  {
    hide First;
    if Read in t {
      assert READER_ORDER[0] in t;
    } else if Operate in t {
      assert READER_ORDER[1] in t;
    }
    assert forall j :: 0 <= j < |READER_ORDER| ==> READER_ORDER[j] in {Read, Operate};
  }

  lemma DurableOrder(t: Targets)
    ensures First(t, DURABLE_ORDER) == if Write in t then Some(Write) else if Operate in t then Some(Operate)
                                       else if Remove in t then Some(Remove) else if Apply in t then Some(Apply) else if Scan in t then Some(Scan) else None
  {
    hide First;
    if Write in t {
      assert DURABLE_ORDER[0] in t;
    } else if Operate in t {
      assert DURABLE_ORDER[1] in t;
    } else if Remove in t {
      assert DURABLE_ORDER[2] in t;
    } else if Apply in t {
      assert DURABLE_ORDER[3] in t;
    } else if Scan in t {
      assert DURABLE_ORDER[4] in t;
    }
    assert forall j :: 0 <= j < |DURABLE_ORDER| ==> DURABLE_ORDER[j] in {Write, Operate, Remove, Apply, Scan};
  }

  lemma CallAcceptsIff(t: Targets, env: ScanEnv, o: Opt)
    ensures CallEffect(t, env, o).Writes? <==> CallAdmissible(t, env, o)
  {
    ReadOrder(t);
    WriteOrder(t);
    RecordOrder(t);
    KeyOrder(t);
    ReaderOrder(t);
    DurableOrder(t);
    hide First;
  }

  /** A call succeeds exactly when something is supplied to set, there are defaults to copy from, and every
      option is admissible. */
  lemma CalledDoneIff(config: Store, t: Targets, env: ScanEnv, call: seq<Opt>)
    ensures Called(config, t, env, call).Done? <==>
            && (exists x :: x in {Read, Write, Operate, Remove, Info, Scan, Query, Batch, Apply, Admin, Serializer} && x in t)
            && (Base(t).Some? ==> Config in t)
            && forall o :: o in call ==> CallAdmissible(t, env, o)
  {
    hide CallEffect, CallAdmissible, Base;
    assert POLICIES + {Serializer} == {Read, Write, Operate, Remove, Info, Scan, Query, Batch, Apply, Admin, Serializer};
    if x :| x in POLICIES + {Serializer} && x in t {
      assert x in t * (POLICIES + {Serializer});
    }
    RunSucceedsIff(CallRule(t, env), call, CallStart(config, t));
    forall o ensures CallEffect(t, env, o).Writes? <==> CallAdmissible(t, env, o) {
      CallAcceptsIff(t, env, o);
    }
  }

  lemma StartAt(config: Store, t: Targets, x: Target, slot: Slot)
    requires OnlyPolicy(t, x)
    ensures At(CallStart(config, t), slot) == StartOf(config, x, slot)
  {
    if x != Admin {
      BaseIs(t, x);
    } else {
      NoBase(t);
    }
  }

  lemma NoBase(t: Targets)
    requires OnlyPolicy(t, Admin)
    ensures Base(t) == None
  {
    hide First;
    FirstOnly(t, Admin, [Operate, Remove, Info, Scan, Query, Batch, Apply]);
    assert Read in t <==> Read in t * POLICIES;
    assert Write in t <==> Write in t * POLICIES;
  }

  lemma BaseIs(t: Targets, x: Target)
    requires OnlyPolicy(t, x) && x != Admin
    ensures Base(t) == Some(x)
  {
    hide First;
    FirstOnly(t, x, [Operate, Remove, Info, Scan, Query, Batch, Apply]);
    assert Read in t <==> Read in t * POLICIES;
    assert Write in t <==> Write in t * POLICIES;
  }

  /** Every field after a successful call: the last option that reaches it, else what it started from, which
      for the supplied policy is its default in the configuration, and for the configuration itself. */
  lemma CallField(config: Store, t: Targets, env: ScanEnv, call: seq<Opt>, x: Target, slot: Slot)
    requires OnlyPolicy(t, x) && Called(config, t, env, call).Done?
    ensures At(Called(config, t, env, call).store, slot)
            == Layered(LastOf(call, CallCodes(x, slot), CallReading(slot.part)), None, None, StartOf(config, x, slot))
  {
    hide Run, CallRule, CallStart, LastOf, Governs, Base, CallCodes, CallReading, StartOf;
    RunSucceedsIff(CallRule(t, env), call, CallStart(config, t));
    StartAt(config, t, x, slot);
    CallGoverns(t, env, x, slot);
    GovernedValue(CallRule(t, env), CallCodes(x, slot), slot, CallReading(slot.part), call, CallStart(config, t));
  }

  function StartOf(config: Store, x: Target, slot: Slot): Option<int> {
    if slot.InConfig? then At(config, slot)
    else if slot.target == x && x != Admin then At(config, InConfig(x, slot.part))
    else None
  }

  /** Every default that a successful construction leaves: its option, else the INI value, else the library's. */
  lemma ConstructedField(library: Store, ini: Ini, raw: OptVal -> int, ctor: seq<Opt>, slot: Slot)
    requires Constructed(library, ini, raw, ctor).Done?
    ensures At(Constructed(library, ini, raw, ctor).store, slot)
            == Layered(None, LastOf(ctor, CtorCodes(slot), CtorReading(raw, slot.part)), IniValue(ini, slot), At(library, slot))
  {
    hide Run, CtorRule, WithIni, LastOf, Governs, CtorCodes, CtorReading, IniValue;
    RunSucceedsIff(CtorRule(raw), ctor, WithIni(library, ini));
    WithIniAt(library, ini, slot);
    CtorGoverns(raw, slot);
    GovernedValue(CtorRule(raw), CtorCodes(slot), slot, CtorReading(raw, slot.part), ctor, WithIni(library, ini));
  }

  /** A construction succeeds exactly when every option is admissible. */
  lemma ConstructedDoneIff(library: Store, ini: Ini, raw: OptVal -> int, ctor: seq<Opt>)
    ensures Constructed(library, ini, raw, ctor).Done? <==> forall o :: o in ctor ==> CtorAdmissible(o)
  {
    hide CtorEffect, CtorAdmissible, WithIni;
    RunSucceedsIff(CtorRule(raw), ctor, WithIni(library, ini));
    forall o ensures CtorEffect(raw, o).Writes? <==> CtorAdmissible(o) {
      CtorAcceptsIff(raw, o);
    }
  }

  /** The INI entries, field by field. */
  lemma IniSpelled(ini: Ini)
    ensures forall x :: x in {Read, Info, Batch, Scan, Query} ==>
              IniValue(ini, InConfig(x, Timeout)) == if ini.readTimeout != 0 then Some(Uint32(ini.readTimeout)) else None
    ensures forall x :: x in {Write, Operate, Remove, Apply} ==>
              IniValue(ini, InConfig(x, Timeout)) == if ini.writeTimeout != 0 then Some(Uint32(ini.writeTimeout)) else None
    ensures forall x :: x in {Read, Write, Operate, Remove} ==>
              IniValue(ini, InConfig(x, KeyPolicy)) == if ini.keyPolicy != 0 then Some(Uint32(ini.keyPolicy)) else None
    ensures IniValue(ini, InConfig(Config, ConnTimeout)) == if ini.connectTimeout != 0 then Some(Uint32(ini.connectTimeout)) else None
    ensures IniValue(ini, InConfig(Serializer, Value)) == Some(Int8(ini.serializer))
    ensures IniValue(ini, InConfig(Batch, BatchDirect)) == Some(ini.batchDirect)
    ensures IniValue(ini, InConfig(Write, Compression)) == if ini.compression >= 0 then Some(ini.compression) else None
    ensures IniValue(ini, InConfig(Config, KeyPolicy)) == None && IniValue(ini, InConfig(Admin, Timeout)) == None
  {
    Groups();
    hide READERS, WRITERS, KEYED;
  }

  lemma Groups()
    ensures forall x :: x in READERS <==> x in {Read, Info, Batch, Scan, Query}
    ensures forall x :: x in WRITERS <==> x in {Write, Operate, Remove, Apply}
    ensures forall x :: x in KEYED <==> x in {Read, Write, Operate, Remove}
  {}

  /** The only field of a configuration that a call writes is its connect timeout. */
  lemma CallKeepsConfig(config: Store, t: Targets, env: ScanEnv, call: seq<Opt>, slot: Slot)
    requires slot.InConfig? && slot != InConfig(Config, ConnTimeout)
    ensures At(Left(Called(config, t, env, call)), slot) == At(config, slot)
  {
    hide CallEffect;
    var f := CallRule(t, env);
    forall o | f(o).Writes? ensures slot !in f(o).writes {
      CallSpares(t, env, o, slot);
    }
    if t * (POLICIES + {Serializer}) != {} && !(Base(t).Some? && Config !in t) {
      RunKeeps(Effects(f, call), CallStart(config, t), slot);
    }
  }

  lemma CallSpares(t: Targets, env: ScanEnv, o: Opt, slot: Slot)
    requires CallEffect(t, env, o).Writes? && slot.InConfig? && slot != InConfig(Config, ConnTimeout)
    ensures slot !in CallEffect(t, env, o).writes
  {
    hide First;
  }

  /** The fields as a loop leaves them, whether it ended by itself or at an option not accepted. */
  function Left(r: Outcome): Store {
    match r
    case Done(s) => s
    case Stopped(s, _) => s
  }

  lemma {:induction false} RunKeeps(es: seq<Effect>, s: Store, slot: Slot)
    requires forall i :: 0 <= i < |es| && es[i].Writes? ==> slot !in es[i].writes
    ensures At(Left(ApplyAll(es, s)), slot) == At(s, slot)
    decreases |es|
  {
    if es != [] && es[0].Writes? {
      RunKeeps(es[1..], s + es[0].writes, slot);
    }
  }

  /** What a caller has to see to: defaults to copy from, and arrays in generation options. */
  ghost predicate OptionsDefined(t: Targets, env: ScanEnv, os: seq<Opt>) {
    (Base(t).Some? ==> Config in t) && forall o :: o in os ==> !CallEffect(t, env, o).Undefined?
  }

  /** A call under these conditions ends defined, whatever it starts from. */
  lemma CallDefined(config: Store, t: Targets, env: ScanEnv, os: seq<Opt>)
    requires OptionsDefined(t, env, os)
    ensures Called(config, t, env, os).Stopped? ==> Called(config, t, env, os).why.Rejected?
  {
    hide CallEffect, Base;
    var es := Effects(CallRule(t, env), os);
    assert forall i :: 0 <= i < |os| ==> es[i] == CallEffect(t, env, os[i]) && os[i] in os;
    RunStops(es, CallStart(config, t));
  }

  lemma {:induction false} RunStops(es: seq<Effect>, s: Store)
    requires forall i :: 0 <= i < |es| ==> !es[i].Undefined?
    ensures ApplyAll(es, s).Stopped? ==> ApplyAll(es, s).why.Rejected?
    decreases |es|
  {
    if es != [] && es[0].Writes? {
      RunStops(es[1..], s + es[0].writes);
    }
  }

  lemma ConfigPartTwice(s: Store)
    ensures ConfigPart(ConfigPart(s)) == ConfigPart(s)
  {}

  // ----- the loops

  class PolicyFields {
    var slots: Store

    constructor (library: Store)
      ensures slots == library
    {
      slots := library;
    }

    /** `if (write_policy_p) … else if …`, option by option. */
    method PutRead(t: Targets, n: int) returns (ok: bool)
      modifies this
      ensures ok == First(t, READ_ORDER).Some?
      ensures slots == if ok then old(slots)[InCall(First(t, READ_ORDER).value, Timeout) := Uint32(n)] else old(slots)
    {
      hide First;
      ok := true;
      if Read in t {
        assert READ_ORDER[0] in t;
        slots := slots[InCall(Read, Timeout) := Uint32(n)];
      } else if Info in t {
        assert READ_ORDER[1] in t;
        slots := slots[InCall(Info, Timeout) := Uint32(n)];
      } else if Scan in t {
        assert READ_ORDER[2] in t;
        slots := slots[InCall(Scan, Timeout) := Uint32(n)];
      } else if Query in t {
        assert READ_ORDER[3] in t;
        slots := slots[InCall(Query, Timeout) := Uint32(n)];
      } else if Batch in t {
        assert READ_ORDER[4] in t;
        slots := slots[InCall(Batch, Timeout) := Uint32(n)];
      } else {
        ok := false;
      }
    }

    method PutWrite(t: Targets, n: int) returns (ok: bool)
      modifies this
      ensures ok == First(t, WRITE_ORDER).Some?
      ensures slots == if ok then old(slots)[InCall(First(t, WRITE_ORDER).value, Timeout) := Uint32(n)] else old(slots)
    {
      hide First;
      ok := true;
      if Write in t {
        assert WRITE_ORDER[0] in t;
        slots := slots[InCall(Write, Timeout) := Uint32(n)];
      } else if Operate in t {
        assert WRITE_ORDER[1] in t;
        slots := slots[InCall(Operate, Timeout) := Uint32(n)];
      } else if Remove in t {
        assert WRITE_ORDER[2] in t;
        slots := slots[InCall(Remove, Timeout) := Uint32(n)];
      } else if Info in t {
        assert WRITE_ORDER[3] in t;
        slots := slots[InCall(Info, Timeout) := Uint32(n)];
      } else if Scan in t {
        assert WRITE_ORDER[4] in t;
        slots := slots[InCall(Scan, Timeout) := Uint32(n)];
      } else if Query in t {
        assert WRITE_ORDER[5] in t;
        slots := slots[InCall(Query, Timeout) := Uint32(n)];
      } else if Apply in t {
        assert WRITE_ORDER[6] in t;
        slots := slots[InCall(Apply, Timeout) := Uint32(n)];
      } else if Admin in t {
        assert WRITE_ORDER[7] in t;
        slots := slots[InCall(Admin, Timeout) := Uint32(n)];
      } else {
        ok := false;
      }
    }

    method PutRecord(t: Targets, part: Part, n: int) returns (ok: bool)
      modifies this
      ensures ok == First(t, RECORD_ORDER).Some?
      ensures slots == if ok then old(slots)[InCall(First(t, RECORD_ORDER).value, part) := Uint32(n)] else old(slots)
    {
      hide First;
      ok := true;
      if Write in t {
        assert RECORD_ORDER[0] in t;
        slots := slots[InCall(Write, part) := Uint32(n)];
      } else if Operate in t {
        assert RECORD_ORDER[1] in t;
        slots := slots[InCall(Operate, part) := Uint32(n)];
      } else if Remove in t {
        assert RECORD_ORDER[2] in t;
        slots := slots[InCall(Remove, part) := Uint32(n)];
      } else {
        ok := false;
      }
    }

    method PutReader(t: Targets, part: Part, n: int) returns (ok: bool)
      modifies this
      ensures ok == First(t, READER_ORDER).Some?
      ensures slots == if ok then old(slots)[InCall(First(t, READER_ORDER).value, part) := Uint32(n)] else old(slots)
    {
      hide First;
      ok := true;
      if Read in t {
        assert READER_ORDER[0] in t;
        slots := slots[InCall(Read, part) := Uint32(n)];
      } else if Operate in t {
        assert READER_ORDER[1] in t;
        slots := slots[InCall(Operate, part) := Uint32(n)];
      } else {
        ok := false;
      }
    }

    method PutKey(t: Targets, n: int) returns (ok: bool)
      modifies this
      ensures ok == First(t, KEY_ORDER).Some?
      ensures slots == if ok then old(slots)[InCall(First(t, KEY_ORDER).value, KeyPolicy) := Uint32(n)] else old(slots)
    {
      hide First;
      ok := true;
      if Write in t {
        assert KEY_ORDER[0] in t;
        slots := slots[InCall(Write, KeyPolicy) := Uint32(n)];
      } else if Read in t {
        assert KEY_ORDER[1] in t;
        slots := slots[InCall(Read, KeyPolicy) := Uint32(n)];
      } else if Operate in t {
        assert KEY_ORDER[2] in t;
        slots := slots[InCall(Operate, KeyPolicy) := Uint32(n)];
      } else if Remove in t {
        assert KEY_ORDER[3] in t;
        slots := slots[InCall(Remove, KeyPolicy) := Uint32(n)];
      } else if Apply in t {
        assert KEY_ORDER[4] in t;
        slots := slots[InCall(Apply, KeyPolicy) := Uint32(n)];
      } else {
        ok := false;
      }
    }

    /** The include-LDT field is written before the policy pointers are looked at. */
    method PutDurable(t: Targets, b: bool) returns (ok: bool)
      modifies this
      ensures ok == First(t, DURABLE_ORDER).Some?
      ensures ok ==> slots == old(slots)[InCall(ScanObject, IncludeLdt) := Bit(b)][InCall(First(t, DURABLE_ORDER).value, DurableDelete) := Bit(b)]
      ensures !ok ==> slots == old(slots)[InCall(ScanObject, IncludeLdt) := Bit(b)]
    {
      hide First;
      ok := true;
      slots := slots[InCall(ScanObject, IncludeLdt) := Bit(b)];
      if Write in t {
        assert DURABLE_ORDER[0] in t;
        slots := slots[InCall(Write, DurableDelete) := Bit(b)];
      } else if Operate in t {
        assert DURABLE_ORDER[1] in t;
        slots := slots[InCall(Operate, DurableDelete) := Bit(b)];
      } else if Remove in t {
        assert DURABLE_ORDER[2] in t;
        slots := slots[InCall(Remove, DurableDelete) := Bit(b)];
      } else if Apply in t {
        assert DURABLE_ORDER[3] in t;
        slots := slots[InCall(Apply, DurableDelete) := Bit(b)];
      } else if Scan in t {
        assert DURABLE_ORDER[4] in t;
        slots := slots[InCall(Scan, DurableDelete) := Bit(b)];
      } else {
        ok := false;
      }
    }

    method Put(slot: Slot, value: int)
      modifies this
      ensures slots == old(slots)[slot := value]
    {
      slots := slots[slot := value];
    }

    /** The scan options; an info call passes over them. */
    method ApplyScanOption(t: Targets, env: ScanEnv, c: int, v: OptVal) returns (ok: bool)
      requires c in SCAN_CODES
      modifies this
      ensures var e := ScanEffect(t, env, c, v); ok == e.Writes? && (ok ==> slots == old(slots) + e.writes)
      ensures !ok ==> ConfigPart(slots) == ConfigPart(old(slots))
    {
      if Info in t {
        assert slots + map[] == slots;
        return true;
      }
      if ScanObject !in t {
        return false;
      }
      ok := true;
      if c == SCAN_PRIORITY || c == SCAN_PERCENTAGE {
        if !v.Long? {
          return false;
        }
        if c == SCAN_PRIORITY {
          ok := env(Priority, Uint32(v.n));
          if ok {
            Put(InCall(ScanObject, Priority), Uint32(v.n));
          }
        } else {
          var percent := Int32(v.n);
          ok := 0 <= percent <= 100 && env(Percent, percent);
          if ok {
            Put(InCall(ScanObject, Percent), percent);
          }
        }
      } else {
        if !v.Bool? {
          return false;
        }
        if c == SCAN_CONCURRENTLY {
          ok := env(Concurrent, Bit(v.b));
          if ok {
            Put(InCall(ScanObject, Concurrent), Bit(v.b));
          }
        } else if c == SCAN_NOBINS {
          ok := env(NoBins, Bit(v.b));
          if ok {
            Put(InCall(ScanObject, NoBins), Bit(v.b));
          }
        } else {
          Put(InCall(ScanObject, IncludeLdt), Bit(v.b));
        }
      }
    }

    /** One round of the options loop of `set_policy_ex`. */
    method ApplyCallOption(t: Targets, env: ScanEnv, o: Opt) returns (ok: bool)
      requires !CallEffect(t, env, o).Undefined?
      modifies this
      ensures var e := CallEffect(t, env, o); ok == e.Writes? && (ok ==> slots == old(slots) + e.writes)
      ensures !ok ==> ConfigPart(slots) == ConfigPart(old(slots))
    {
      hide First;
      if o.key.Name? {
        return false;
      }
      var c, v := Int32(o.key.n), o.val;
      if c == TTL {
        assert slots + map[] == slots;
        return true;
      }
      if c in SCAN_CODES {
        ok := ApplyScanOption(t, env, c, v);
        return;
      }
      if c == DURABLE_DELETE {
        if ScanObject !in t || !v.Bool? {
          return false;
        }
        ok := PutDurable(t, v.b);
        return;
      }
      if c == GEN {
        ok := v.first.value.Long?;
        if ok {
          ok := PutRecord(t, Gen, v.first.value.n);
        }
        return;
      }
      if !v.Long? {
        return false;
      }
      ok := ApplyLongOption(t, c, v.n);
    }

    method ApplyLongOption(t: Targets, c: int, n: int) returns (ok: bool)
      modifies this
      ensures var e := LongEffect(t, c, n); ok == e.Writes? && (ok ==> slots == old(slots) + e.writes) && (!ok ==> slots == old(slots))
    {
      hide First;
      ok := true;
      if c == CONNECT_TIMEOUT {
        ok := Config in t;
        if ok {
          Put(InConfig(Config, ConnTimeout), Uint32(n));
        }
      } else if c == READ_TIMEOUT {
        ok := PutRead(t, n);
      } else if c == WRITE_TIMEOUT {
        ok := PutWrite(t, n);
      } else if c == EXISTS {
        ok := Write in t;
        if ok {
          Put(InCall(Write, Part.Exists), Uint32(n));
        }
      } else if c == RETRY {
        ok := PutRecord(t, Part.Retry, n);
      } else if c == SERIALIZER {
        ok := Serializer in t;
        if ok {
          Put(InCall(Serializer, Value), Int8(n));
        }
      } else if c == KEY {
        ok := PutKey(t, n);
      } else if c == COMMIT_LEVEL {
        ok := PutRecord(t, Commit, n);
      } else if c == CONSISTENCY {
        ok := PutReader(t, Part.Consistency, n);
      } else if c == REPLICA {
        ok := PutReader(t, Part.Replica, n);
      } else {
        ok := false;
      }
    }

    /** `set_policy_ex`: initialise the supplied policy from the defaults, then one option after another. */
    method SetPolicy(t: Targets, env: ScanEnv, os: seq<Opt>) returns (ok: bool)
      requires OptionsDefined(t, env, os)
      modifies this
      ensures ok <==> Called(old(slots), t, env, os).Done?
      ensures ok ==> slots == Called(old(slots), t, env, os).store
      ensures ConfigPart(slots) == ConfigPart(Left(Called(old(slots), t, env, os)))
    {
      hide CallEffect, First, Run, Accepted;
      if t * (POLICIES + {Serializer}) == {} {
        ConfigPartTwice(slots);
        return false;
      }
      slots := CallStart(slots, t);
      ghost var start := slots;
      ghost var f := CallRule(t, env);
      RunNone(f, start);
      assert os[..0] == [];
      var i := 0;
      while i < |os|
        invariant i <= |os|
        invariant Run(f, os[..i], start) == Done(slots) && Accepted(f, os[..i])
      {
        assert os[i] in os && f(os[i]) == CallEffect(t, env, os[i]);
        RunStep(f, os, i, start);
        ok := ApplyCallOption(t, env, os[i]);
        if !ok {
          return;
        }
        i := i + 1;
      }
      assert os[..i] == os;
      ok := true;
    }

    /** `set_config_policies`: nonzero INI values, then one constructor option after another. */
    method SetConfigPolicies(ini: Ini, raw: OptVal -> int, os: seq<Opt>) returns (ok: bool)
      modifies this
      ensures ok <==> Constructed(old(slots), ini, raw, os).Done?
      ensures ok ==> slots == Constructed(old(slots), ini, raw, os).store
    {
      hide CtorEffect, Run, Accepted, WithIni;
      ApplyIni(ini);
      ghost var start := slots;
      ghost var f := CtorRule(raw);
      RunNone(f, start);
      assert os[..0] == [];
      var i := 0;
      while i < |os|
        invariant i <= |os|
        invariant Run(f, os[..i], start) == Done(slots) && Accepted(f, os[..i])
      {
        assert os[i] in os && f(os[i]) == CtorEffect(raw, os[i]);
        RunStep(f, os, i, start);
        ok := ApplyCtorOption(raw, os[i]);
        if !ok {
          return;
        }
        i := i + 1;
      }
      assert os[..i] == os;
      ok := true;
    }

    /** The INI values one by one. */
    method ApplyIni(ini: Ini)
      modifies this
      ensures slots == WithIni(old(slots), ini)
    {
      hide Fan, WithIni, IniValue, IniPolicies;
      ApplyIniPolicies(ini);
      ghost var middle := slots;
      if ini.connectTimeout != 0 {
        slots := slots[InConfig(Config, ConnTimeout) := Uint32(ini.connectTimeout)];
      }
      slots := slots[InConfig(Serializer, Value) := Int8(ini.serializer)];
      slots := slots[InConfig(Batch, BatchDirect) := ini.batchDirect];
      if ini.compression >= 0 {
        slots := slots[InConfig(Write, Compression) := ini.compression];
      }
      forall slot ensures At(slots, slot) == At(WithIni(old(slots), ini), slot) {
        WithIniAt(old(slots), ini, slot);
        IniPoliciesAt(old(slots), ini, slot);
        if !(slot.part in {Timeout, KeyPolicy} && slot.InConfig?) {
          IniSingles(ini, slot);
        }
      }
      SameStore(slots, WithIni(old(slots), ini));
    }

    /** The timeouts and the key policy among them. */
    method ApplyIniPolicies(ini: Ini)
      modifies this
      ensures slots == IniPolicies(old(slots), ini)
    {
      hide Fan;
      if ini.readTimeout != 0 {
        PutReaders(ini.readTimeout);
      }
      if ini.keyPolicy != 0 {
        PutKeyed(ini.keyPolicy);
      }
      if ini.writeTimeout != 0 {
        PutWriters(ini.writeTimeout);
      }
    }

    method PutReaders(n: int)
      modifies this
      ensures slots == old(slots) + Fan(READERS, Timeout, Uint32(n))
    {
      hide Fan;
      slots := slots[InConfig(Read, Timeout) := Uint32(n)];
      slots := slots[InConfig(Info, Timeout) := Uint32(n)];
      slots := slots[InConfig(Batch, Timeout) := Uint32(n)];
      slots := slots[InConfig(Scan, Timeout) := Uint32(n)];
      slots := slots[InConfig(Query, Timeout) := Uint32(n)];
    }

    method PutWriters(n: int)
      modifies this
      ensures slots == old(slots) + Fan(WRITERS, Timeout, Uint32(n))
    {
      hide Fan;
      slots := slots[InConfig(Write, Timeout) := Uint32(n)];
      slots := slots[InConfig(Operate, Timeout) := Uint32(n)];
      slots := slots[InConfig(Remove, Timeout) := Uint32(n)];
      slots := slots[InConfig(Apply, Timeout) := Uint32(n)];
    }

    method PutKeyed(n: int)
      modifies this
      ensures slots == old(slots) + Fan(KEYED, KeyPolicy, Uint32(n))
    {
      hide Fan;
      slots := slots[InConfig(Read, KeyPolicy) := Uint32(n)];
      slots := slots[InConfig(Write, KeyPolicy) := Uint32(n)];
      slots := slots[InConfig(Operate, KeyPolicy) := Uint32(n)];
      slots := slots[InConfig(Remove, KeyPolicy) := Uint32(n)];
    }

    /** One round of the options loop of `set_config_policies`. */
    method ApplyCtorOption(raw: OptVal -> int, o: Opt) returns (ok: bool)
      modifies this
      ensures var e := CtorEffect(raw, o); ok == e.Writes? && (ok ==> slots == old(slots) + e.writes)
    {
      hide Fan;
      if o.key.Name? {
        return false;
      }
      var c, v := Int32(o.key.n), o.val;
      ok := true;
      if c == SERIALIZER {
        Put(InConfig(Serializer, Value), Int8(if v.Long? then v.n else raw(v)));
      } else if c == USE_BATCH_DIRECT {
        if !v.Bool? {
          return false;
        }
        Put(InConfig(Batch, BatchDirect), Bit(v.b));
      } else if !v.Long? {
        ok := false;
      } else if c == READ_TIMEOUT {
        PutReaders(v.n);
      } else if c == WRITE_TIMEOUT {
        PutWriters(v.n);
      } else if c == KEY {
        Put(InConfig(Config, KeyPolicy), Uint32(v.n));
        PutKeyed(v.n);
        FanMore(KEYED, Config, KeyPolicy, Uint32(v.n));
      } else {
        ok := ApplyCtorField(c, v.n);
      }
    }

    /** The options that write one default. */
    method ApplyCtorField(c: int, n: int) returns (ok: bool)
      modifies this
      ensures ok == (c in {COMPRESSION, CONNECT_TIMEOUT, RETRY, EXISTS, REPLICA, CONSISTENCY, COMMIT_LEVEL})
      ensures ok ==> slots == old(slots)[CtorSlot(c).value := if c == COMPRESSION then Int32(n) else Uint32(n)]
    {
      ok := true;
      if c == COMPRESSION {
        Put(InConfig(Write, Compression), Int32(n));
      } else if c == CONNECT_TIMEOUT {
        Put(InConfig(Config, ConnTimeout), Uint32(n));
      } else if c == RETRY {
        Put(InConfig(Config, Part.Retry), Uint32(n));
      } else if c == EXISTS {
        Put(InConfig(Config, Part.Exists), Uint32(n));
      } else if c == REPLICA {
        Put(InConfig(Config, Part.Replica), Uint32(n));
      } else if c == CONSISTENCY {
        Put(InConfig(Config, Part.Consistency), Uint32(n));
      } else if c == COMMIT_LEVEL {
        Put(InConfig(Config, Commit), Uint32(n));
      } else {
        ok := false;
      }
    }
  }
}
