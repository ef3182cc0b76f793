/**
  The operation compiler behind `operate` and `operateOrdered`: a loop over operation arrays with
  accumulators that survive from one array to the next, against a translation of each array by itself.
 */
module Operate {
  import opened Wrappers
  import opened CInt

  // ----- PHP side

  type PhpLong = n: int | -0x8000_0000_0000_0000 <= n < 0x8000_0000_0000_0000

  /** A zval, as far as the compiler tells them apart. `GeoObject` is an object of the GeoJSON class. */
  datatype ZVal = ZLong(n: PhpLong) | ZStr(s: string) | ZDouble(d: real) | ZArray(id: nat) | GeoObject(text: string) | OtherObject | OtherZVal

  datatype Key = Index | Name(s: string)

  datatype Field = Field(key: Key, z: ZVal)

  /** One entry of the operations array. */
  datatype Element = NotAnArray | Fields(fields: seq<Field>)

  // ----- server side

  datatype Kind =
    | Append | Prepend | Incr | Touch | Read | Write
    | ListAppend | ListInsert | ListInsertItems | ListPop | ListPopRange | ListRemove | ListRemoveRange
    | ListClear | ListSet | ListGet | ListGetRange | ListTrim | ListSize

  datatype Payload =
    | Nothing
    | Text(str: Option<string>)
    | Geo(geo: string)
    | Long(n: int)
    | Double(d: real)
    | Slot(index: int)
    | Range(start: int, count: int)
    | Item(z: ZVal)
    | SlotItem(at: int, item: ZVal)

  /** One entry of the server operation list. Insert-items is sent as `AppendItems`. */
  datatype ServerOp = ServerOp(kind: Kind, bin: Option<string>, payload: Payload) | AppendItems(abin: Option<string>, items: ZVal)

  /** The client library and server, as far as compilation asks them. `basic` numbers the library's own
      operators; the list operators are numbered here. */
  datatype Env = Env(hasDouble: bool, hasGeo: bool, basic: int -> Option<Kind>,
                     numeric: string -> bool, packs: ZVal -> bool, accepts: ServerOp -> bool)

  const LIST_KINDS: seq<Kind> :=
    [ListAppend, ListInsert, ListInsertItems, ListPop, ListPopRange, ListRemove, ListRemoveRange,
     ListClear, ListSet, ListGet, ListGetRange, ListTrim, ListSize]

  function KindOf(env: Env, op: int): Option<Kind> {
    if 1001 <= op <= 1013 then Some(LIST_KINDS[op - 1001]) else env.basic(op)
  }

  // ----- scanning one array

  /** The variables reset for each array, and what `val` and `index` set in it. `last` is the field the
      inner loop ends on. */
  datatype Local = Local(op: int, bin: Option<string>, str: Option<string>, geo: Option<string>, ttl: nat, last: Option<ZVal>,
                         val: Option<ZVal>, long: Option<PhpLong>, dbl: Option<real>, index: Option<int>)

  const EMPTY := Local(0, None, None, None, 0, None, None, None, None, None)

  function ScanVal(env: Env, ordered: bool, l: Local, z: ZVal): Option<Local> {
    var l1 := l.(val := Some(z));
    match z
    case ZStr(s) => Some(l1.(str := Some(s)))
    case ZLong(n) => Some(l1.(long := Some(n)))
    case ZDouble(d) => if !ordered && env.hasDouble then Some(l1.(dbl := Some(d))) else None
    case GeoObject(text) => if env.hasGeo && KindOf(env, l.op) == Some(Write) then Some(l1.(geo := Some(text))) else None
    case ZArray(_) => Some(l1)
    case _ => None
  }

  function ScanField(env: Env, ordered: bool, l: Local, f: Field): Option<Local> {
    var l1 := l.(last := Some(f.z));
    if f.key == Index then None
    else if f.key.s == "op" && f.z.ZLong? then Some(l1.(op := Int32(f.z.n)))
    else if f.key.s == "bin" && f.z.ZStr? then Some(l1.(bin := Some(f.z.s)))
    else if f.key.s == "val" then ScanVal(env, ordered, l1, f.z)
    else if f.key.s == "ttl" && f.z.ZLong? then Some(l1.(ttl := Uint32(f.z.n)))
    else if f.key.s == "index" && f.z.ZLong? then Some(l1.(index := Some(f.z.n)))
    else None
  }

  function Scan(env: Env, ordered: bool, l: Local, fields: seq<Field>): Option<Local>
    decreases |fields|
  {
    if fields == [] then Some(l)
    else
      match ScanField(env, ordered, l, fields[0])
      case None => None
      case Some(l1) => Scan(env, ordered, l1, fields[1..])
  }

  // ----- what the scan reads

  /** The last field of a name with an acceptable value. */
  function Last(fs: seq<Field>, name: string, fits: ZVal -> bool): Option<ZVal> {
    if fs == [] then None
    else if Last(fs[1..], name, fits).Some? then Last(fs[1..], name, fits)
    else if fs[0].key == Name(name) && fits(fs[0].z) then Some(fs[0].z)
    else None
  }

  function IsLong(z: ZVal): bool { z.ZLong? }

  function IsStr(z: ZVal): bool { z.ZStr? }

  function IsDouble(z: ZVal): bool { z.ZDouble? }

  function IsGeo(z: ZVal): bool { z.GeoObject? }

  function IsAny(z: ZVal): bool { true }

  /** Every variable holds what the last field for it gave, else what it held before. */
  ghost predicate Reads(fs: seq<Field>, before: Local, after: Local) {
    && after.op == (match Last(fs, "op", IsLong) case Some(ZLong(n)) => Int32(n) case _ => before.op)
    && after.bin == (match Last(fs, "bin", IsStr) case Some(ZStr(s)) => Some(s) case _ => before.bin)
    && after.ttl == (match Last(fs, "ttl", IsLong) case Some(ZLong(n)) => Uint32(n) case _ => before.ttl)
    && after.index == (match Last(fs, "index", IsLong) case Some(ZLong(n)) => Some(n) case _ => before.index)
    && after.str == (match Last(fs, "val", IsStr) case Some(ZStr(s)) => Some(s) case _ => before.str)
    && after.long == (match Last(fs, "val", IsLong) case Some(ZLong(n)) => Some(n) case _ => before.long)
    && after.dbl == (match Last(fs, "val", IsDouble) case Some(ZDouble(d)) => Some(d) case _ => before.dbl)
    && after.geo == (match Last(fs, "val", IsGeo) case Some(GeoObject(text)) => Some(text) case _ => before.geo)
    && after.val == (if Last(fs, "val", IsAny).Some? then Last(fs, "val", IsAny) else before.val)
    && after.last == (if fs != [] then Some(fs[|fs| - 1].z) else before.last)
  }

  /** What a field may be, given the operation named before it. */
  predicate Admissible(env: Env, ordered: bool, op: int, f: Field) {
    f.key.Name? &&
    if f.key.s == "op" || f.key.s == "ttl" || f.key.s == "index" then f.z.ZLong?
    else if f.key.s == "bin" then f.z.ZStr?
    else if f.key.s == "val" then
      || f.z.ZStr? || f.z.ZLong? || f.z.ZArray?
      || (f.z.ZDouble? && env.hasDouble && !ordered)
      || (f.z.GeoObject? && env.hasGeo && KindOf(env, op) == Some(Write))
    else false
  }

  function OpAfter(op: int, fs: seq<Field>): int {
    match Last(fs, "op", IsLong)
    case Some(ZLong(n)) => Int32(n)
    case _ => op
  }

  lemma FieldReads(env: Env, ordered: bool, l: Local, f: Field)
    ensures ScanField(env, ordered, l, f).Some? <==> Admissible(env, ordered, l.op, f)
    ensures ScanField(env, ordered, l, f).Some? ==> Reads([f], l, ScanField(env, ordered, l, f).value)
  {
    assert [f][1..] == [];
  }

  lemma LastCons(fs: seq<Field>, name: string, fits: ZVal -> bool)
    requires fs != []
    ensures Last(fs, name, fits) == if Last(fs[1..], name, fits).Some? then Last(fs[1..], name, fits) else Last([fs[0]], name, fits)
  {
    assert [fs[0]][1..] == [];
  }

  lemma LastFits(fs: seq<Field>, name: string, fits: ZVal -> bool)
    ensures Last(fs, name, fits).Some? ==> fits(Last(fs, name, fits).value)
  {}

  /** For all field lists: a scan that succeeds has read every variable from the last field for it. */
  lemma {:induction false} ScanReads(env: Env, ordered: bool, l: Local, fs: seq<Field>)
    requires Scan(env, ordered, l, fs).Some?
    ensures Reads(fs, l, Scan(env, ordered, l, fs).value)
    decreases |fs|
  {
    if fs != [] {
      var l1 := ScanField(env, ordered, l, fs[0]).value;
      FieldReads(env, ordered, l, fs[0]);
      ScanReads(env, ordered, l1, fs[1..]);
      ReadsThen(fs, l, l1, Scan(env, ordered, l, fs).value);
    }
  }

  lemma ReadsThen(fs: seq<Field>, l: Local, l1: Local, l2: Local)
    requires fs != [] && Reads([fs[0]], l, l1) && Reads(fs[1..], l1, l2)
    ensures Reads(fs, l, l2)
  {
    hide Last;
    LastCons(fs, "op", IsLong);
    LastCons(fs, "bin", IsStr);
    LastCons(fs, "ttl", IsLong);
    LastCons(fs, "index", IsLong);
    LastCons(fs, "val", IsStr);
    LastCons(fs, "val", IsLong);
    LastCons(fs, "val", IsDouble);
    LastCons(fs, "val", IsGeo);
    LastCons(fs, "val", IsAny);
    LastFits(fs[1..], "op", IsLong);
    LastFits(fs[1..], "bin", IsStr);
    LastFits(fs[1..], "ttl", IsLong);
    LastFits(fs[1..], "index", IsLong);
    LastFits(fs[1..], "val", IsStr);
    LastFits(fs[1..], "val", IsLong);
    LastFits(fs[1..], "val", IsDouble);
    LastFits(fs[1..], "val", IsGeo);
  }

  /** And it succeeds exactly when every field is admissible after the fields before it. */
  lemma {:induction false} ScanSucceedsIff(env: Env, ordered: bool, l: Local, fs: seq<Field>)
    ensures Scan(env, ordered, l, fs).Some? <==>
            forall i :: 0 <= i < |fs| ==> Admissible(env, ordered, OpAfter(l.op, fs[..i]), fs[i])
    decreases |fs|
  {
    if fs != [] {
      FieldReads(env, ordered, l, fs[0]);
      assert OpAfter(l.op, fs[..0]) == l.op;
      if ScanField(env, ordered, l, fs[0]).Some? {
        var l1 := ScanField(env, ordered, l, fs[0]).value;
        ScanSucceedsIff(env, ordered, l1, fs[1..]);
        forall i | 0 < i < |fs|
          ensures OpAfter(l.op, fs[..i]) == OpAfter(l1.op, fs[1..][..i - 1]) && fs[i] == fs[1..][i - 1]
        {
          OpAfterCons(l.op, l1.op, fs[..i]);
          assert fs[..i][1..] == fs[1..][..i - 1];
        }
        assert forall i :: 0 <= i < |fs[1..]| ==> fs[1..][i] == fs[i + 1] && OpAfter(l.op, fs[..i + 1]) == OpAfter(l1.op, fs[1..][..i]);
      }
    }
  }

  lemma OpAfterCons(op: int, op1: int, fs: seq<Field>)
    requires fs != [] && op1 == OpAfter(op, [fs[0]])
    ensures OpAfter(op, fs) == OpAfter(op1, fs[1..])
  {
    LastCons(fs, "op", IsLong);
    LastFits(fs[1..], "op", IsLong);
  }

  /** The list operators by number. */
  lemma ListOperators(env: Env)
    ensures KindOf(env, 1001) == Some(ListAppend) && KindOf(env, 1002) == Some(ListInsert) && KindOf(env, 1003) == Some(ListInsertItems)
    ensures KindOf(env, 1004) == Some(ListPop) && KindOf(env, 1005) == Some(ListPopRange) && KindOf(env, 1006) == Some(ListRemove)
    ensures KindOf(env, 1007) == Some(ListRemoveRange) && KindOf(env, 1008) == Some(ListClear) && KindOf(env, 1009) == Some(ListSet)
    ensures KindOf(env, 1010) == Some(ListGet) && KindOf(env, 1011) == Some(ListGetRange) && KindOf(env, 1012) == Some(ListTrim)
    ensures KindOf(env, 1013) == Some(ListSize)
    ensures forall op :: op < 1001 || op > 1013 ==> KindOf(env, op) == env.basic(op)
  {}

  // ----- emitting

  /** The variables that are not reset. */
  datatype Acc = Acc(offset: int, dbl: real, index: int)

  function Carry(acc: Acc, l: Local): Acc {
    Acc(if l.long.Some? then Int32(l.long.value) else acc.offset,
        if l.dbl.Some? then l.dbl.value else acc.dbl,
        if l.index.Some? then l.index.value else acc.index)
  }

  /** What one array contributes: at most one operation, and the time to live if it is a touch. */
  datatype Emit = Emit(op: Option<ServerOp>, ttl: Option<nat>)

  function Number(acc: Acc): Payload {
    if acc.offset != 0 then Long(acc.offset) else Double(acc.dbl)
  }

  /** The operation chosen by `aerospike_record_operations_ops`; `None` is an error. */
  function Choose(env: Env, acc: Acc, l: Local): Option<Emit> {
    match KindOf(env, l.op)
    case None => None
    case Some(k) =>
      var one := (p: Payload) => Some(Emit(Some(ServerOp(k, l.bin, p)), None));
      match k
      case Append | Prepend => one(Text(l.str))
      case Incr => if l.str.Some? && !env.numeric(l.str.value) then None else one(Number(acc))
      case Touch => Some(Emit(Some(ServerOp(Touch, None, Nothing)), Some(l.ttl)))
      case Read | ListClear | ListSize => one(Nothing)
      case Write => one(if l.str.Some? then Text(l.str) else if l.geo.Some? then Geo(l.geo.value) else Number(acc))
      case ListPop | ListRemove | ListGet => one(Slot(acc.index))
      case ListPopRange | ListRemoveRange | ListGetRange | ListTrim => one(Range(acc.index, Uint64(acc.offset)))
      case ListAppend => if l.last.None? || !env.packs(l.last.value) then None else one(Item(l.last.value))
      case ListInsert | ListSet => if l.last.None? || !env.packs(l.last.value) then None else one(SlotItem(acc.index, l.last.value))
      case ListInsertItems =>
        if l.last.None? || !l.last.value.ZArray? then Some(Emit(None, None))
        else if !env.packs(l.last.value) then None
        else Some(Emit(Some(AppendItems(l.bin, l.last.value)), None))
  }

  /** One array from given accumulators; `None` if it does not compile. */
  function CompileOne(env: Env, ordered: bool, acc: Acc, e: Element): Option<(Acc, Emit)> {
    if e.NotAnArray? then None
    else
      match Scan(env, ordered, EMPTY, e.fields)
      case None => None
      case Some(l) =>
        match Choose(env, Carry(acc, l), l)
        case None => None
        case Some(emit) => if emit.op.Some? && !env.accepts(emit.op.value) then None else Some((Carry(acc, l), emit))
  }

  function Prefixed(done: seq<Emit>, rest: Option<seq<Emit>>): Option<seq<Emit>> {
    if rest.None? then None else Some(done + rest.value)
  }

  /** The loop of `operate`: accumulators flow from array to array. */
  function CompileAll(env: Env, acc: Acc, es: seq<Element>): Option<seq<Emit>>
    decreases |es|
  {
    if es == [] then Some([])
    else
      match CompileOne(env, false, acc, es[0])
      case None => None
      case Some((acc1, emit)) =>
        Prefixed([emit], CompileAll(env, acc1, es[1..]))
  }

  /** A server call: the operation list and the time to live sent with it. */
  datatype Batch = Batch(ops: seq<ServerOp>, ttl: nat)

  function Add(b: Batch, emit: Emit): Batch {
    Batch(if emit.op.Some? then b.ops + [emit.op.value] else b.ops, if emit.ttl.Some? then emit.ttl.value else b.ttl)
  }

  function Collect(b: Batch, emits: seq<Emit>): Batch
    decreases |emits|
  {
    if emits == [] then b else Collect(Add(b, emits[0]), emits[1..])
  }

  // ----- the documented meaning of one array

  /** The operation an array stands for by its own fields; `None` if it is not one of the documented forms. */
  function Translate(env: Env, l: Local): Option<ServerOp> {
    match KindOf(env, l.op)
    case None => None
    case Some(k) =>
      var one := (p: Payload) => Some(ServerOp(k, l.bin, p));
      match k
      case Append | Prepend => if l.str.Some? then one(Text(l.str)) else None
      case Incr => if l.str.Some? then None else TranslateNumber(k, l)
      case Write => if l.str.Some? then one(Text(l.str)) else if l.geo.Some? then one(Geo(l.geo.value)) else TranslateNumber(k, l)
      case Touch => Some(ServerOp(Touch, None, Nothing))
      case Read | ListClear | ListSize => one(Nothing)
      case ListPop | ListRemove | ListGet => if l.index.Some? then one(Slot(l.index.value)) else None
      case ListPopRange | ListRemoveRange | ListGetRange | ListTrim =>
        if l.index.Some? && l.long.Some? then one(Range(l.index.value, l.long.value)) else None
      case ListAppend => if l.val.Some? then one(Item(l.val.value)) else None
      case ListInsert | ListSet | ListInsertItems =>
        if l.index.Some? && l.val.Some? then one(SlotItem(l.index.value, l.val.value)) else None
  }

  function TranslateNumber(k: Kind, l: Local): Option<ServerOp> {
    if l.long.Some? then Some(ServerOp(k, l.bin, Long(l.long.value)))
    else if l.dbl.Some? then Some(ServerOp(k, l.bin, Double(l.dbl.value)))
    else None
  }

  function TranslateOne(env: Env, e: Element): Option<ServerOp> {
    if e.NotAnArray? then None
    else
      match Scan(env, false, EMPTY, e.fields)
      case None => None
      case Some(l) => Translate(env, l)
  }

  // ----- exactly when the compiled operation is the documented one

  /** A number goes through as written: a nonzero 32-bit integer always, a double only if no earlier
      integer is still in the accumulator. */
  predicate NumberOk(offset: int, l: Local) {
    if l.long.Some? then l.long.value != 0 && Int32(l.long.value) == l.long.value
    else l.dbl.Some? && offset == 0
  }

  /** `offset` is the integer left over from earlier arrays. */
  predicate Faithful(env: Env, offset: int, l: Local) {
    match KindOf(env, l.op)
    case None => false
    case Some(k) =>
      match k
      case Append | Prepend => l.str.Some?
      case Incr => l.str.None? && NumberOk(offset, l)
      case Write => l.str.Some? || l.geo.Some? || NumberOk(offset, l)
      case Touch | Read | ListClear | ListSize => true
      case ListPop | ListRemove | ListGet => l.index.Some?
      case ListPopRange | ListRemoveRange | ListGetRange | ListTrim =>
        l.index.Some? && l.long.Some? && 0 <= l.long.value < 0x8000_0000
      case ListAppend => l.val.Some? && l.last == l.val
      case ListInsert | ListSet => l.index.Some? && l.val.Some? && l.last == l.val
      case ListInsertItems => false
  }

  /** For every array that compiles, from every accumulator state. */
  lemma ChooseFaithfulIff(env: Env, acc: Acc, l: Local)
    requires Choose(env, Carry(acc, l), l).Some?
    ensures Choose(env, Carry(acc, l), l).value.op == Translate(env, l) && Translate(env, l).Some? <==> Faithful(env, acc.offset, l)
  {
    if l.long.Some? {
      var n := l.long.value;
      Int32Range(n);
      assert Uint64(Int32(n)) == n <==> 0 <= n < 0x8000_0000;
    }
  }

  /** Which arrays are accepted, once read. */
  predicate Accepts(env: Env, l: Local) {
    KindOf(env, l.op).Some? &&
    var k := KindOf(env, l.op).value;
    && (k == Incr && l.str.Some? ==> env.numeric(l.str.value))
    && (k in {ListAppend, ListInsert, ListSet} ==> l.last.Some? && env.packs(l.last.value))
    && (k == ListInsertItems && l.last.Some? && l.last.value.ZArray? ==> env.packs(l.last.value))
  }

  /** A value given now, else the one left over. */
  function Now<T>(given: Option<T>, left: T): T {
    if given.Some? then given.value else left
  }

  /** The server operation for every accepted array and every left-over value, documented or not. */
  ghost predicate Sends(env: Env, acc: Acc, l: Local, e: Emit)
    requires Accepts(env, l)
  {
    var k := KindOf(env, l.op).value;
    var n := Now(if l.long.Some? then Some(Int32(l.long.value)) else None, acc.offset);
    var index := Now(l.index, acc.index);
    && e.ttl == (if k == Touch then Some(l.ttl) else None)
    && (e.op.None? <==> k == ListInsertItems && !(l.last.Some? && l.last.value.ZArray?))
    && (k == ListInsertItems && e.op.Some? ==> e.op.value == AppendItems(l.bin, l.last.value))
    && (k == Touch ==> e.op.value == ServerOp(Touch, None, Nothing))
    && (k != ListInsertItems && k != Touch ==>
          && e.op.value.ServerOp? && e.op.value.kind == k && e.op.value.bin == l.bin
          && var p := e.op.value.payload;
             && (k in {Read, ListClear, ListSize} ==> p == Nothing)
             && (k in {Append, Prepend} ==> p == Text(l.str))
             && (k == Write && l.str.Some? ==> p == Text(l.str))
             && (k == Write && l.str.None? && l.geo.Some? ==> p == Geo(l.geo.value))
             && (k == Incr || (k == Write && l.str.None? && l.geo.None?) ==> p == if n != 0 then Long(n) else Double(Now(l.dbl, acc.dbl)))
             && (k in {ListPop, ListRemove, ListGet} ==> p == Slot(index))
             && (k in {ListPopRange, ListRemoveRange, ListGetRange, ListTrim} ==> p == Range(index, Uint64(n)))
             && (k == ListAppend ==> p == Item(l.last.value))
             && (k in {ListInsert, ListSet} ==> p == SlotItem(index, l.last.value)))
  }

  lemma ChooseIff(env: Env, acc: Acc, l: Local)
    ensures Choose(env, Carry(acc, l), l).Some? <==> Accepts(env, l)
    ensures Accepts(env, l) ==> Sends(env, acc, l, Choose(env, Carry(acc, l), l).value)
  {}

  /** One array compiles exactly when it is an array of admissible fields that is accepted and whose
      operation the library accepts; and then it sends what it should and leaves the latest values behind. */
  lemma CompilesIff(env: Env, ordered: bool, acc: Acc, e: Element)
    ensures CompileOne(env, ordered, acc, e).Some? ==>
              && e.Fields? && Scan(env, ordered, EMPTY, e.fields).Some? && Accepts(env, Scan(env, ordered, EMPTY, e.fields).value)
              && var l := Scan(env, ordered, EMPTY, e.fields).value;
                 var (acc1, emit) := CompileOne(env, ordered, acc, e).value;
                 && Sends(env, acc, l, emit) && (emit.op.Some? ==> env.accepts(emit.op.value))
                 && acc1.offset == Now(if l.long.Some? then Some(Int32(l.long.value)) else None, acc.offset)
                 && acc1.dbl == Now(l.dbl, acc.dbl) && acc1.index == Now(l.index, acc.index)
    ensures CompileOne(env, ordered, acc, e).None? ==>
              || e.NotAnArray?
              || (exists i :: 0 <= i < |e.fields| && !Admissible(env, ordered, OpAfter(0, e.fields[..i]), e.fields[i]))
              || (Scan(env, ordered, EMPTY, e.fields).Some? && !Accepts(env, Scan(env, ordered, EMPTY, e.fields).value))
              || (exists emit :: Scan(env, ordered, EMPTY, e.fields).Some? && Accepts(env, Scan(env, ordered, EMPTY, e.fields).value)
                                 && Sends(env, acc, Scan(env, ordered, EMPTY, e.fields).value, emit) && emit.op.Some? && !env.accepts(emit.op.value))
  {
    hide Choose, Sends, Accepts, Scan;
    if e.Fields? {
      ScanSucceedsIff(env, ordered, EMPTY, e.fields);
      if Scan(env, ordered, EMPTY, e.fields).Some? {
        ChooseIff(env, acc, Scan(env, ordered, EMPTY, e.fields).value);
      }
    }
  }

  // ----- whole lists

  function TranslateAll(env: Env, es: seq<Element>): Option<seq<ServerOp>>
    decreases |es|
  {
    if es == [] then Some([])
    else
      match (TranslateOne(env, es[0]), TranslateAll(env, es[1..]))
      case (Some(op), Some(ops)) => Some([op] + ops)
      case _ => None
  }

  function NextOffset(offset: int, l: Local): int {
    if l.long.Some? then Int32(l.long.value) else offset
  }

  predicate FaithfulAll(env: Env, offset: int, es: seq<Element>)
    decreases |es|
  {
    es == [] ||
    (es[0].Fields? &&
     match Scan(env, false, EMPTY, es[0].fields)
     case None => false
     case Some(l) => Faithful(env, offset, l) && FaithfulAll(env, NextOffset(offset, l), es[1..]))
  }

  function Ops(emits: seq<Emit>): (ops: seq<ServerOp>)
    ensures |ops| <= |emits|
  {
    if emits == [] then []
    else (if emits[0].op.Some? then [emits[0].op.value] else []) + Ops(emits[1..])
  }

  lemma {:induction false} CollectOps(b: Batch, emits: seq<Emit>)
    ensures Collect(b, emits).ops == b.ops + Ops(emits)
    decreases |emits|
  {
    if emits != [] {
      CollectOps(Add(b, emits[0]), emits[1..]);
    }
  }

  lemma {:induction false} CompileLength(env: Env, acc: Acc, es: seq<Element>)
    requires CompileAll(env, acc, es).Some?
    ensures |CompileAll(env, acc, es).value| == |es|
    decreases |es|
  {
    if es != [] {
      CompileLength(env, CompileOne(env, false, acc, es[0]).value.0, es[1..]);
    }
  }

  lemma {:induction false} TranslateLength(env: Env, es: seq<Element>)
    requires TranslateAll(env, es).Some?
    ensures |TranslateAll(env, es).value| == |es|
    decreases |es|
  {
    if es != [] {
      TranslateLength(env, es[1..]);
    }
  }

  /** For every list that compiles, whatever the accumulators held before: the server receives the
      documented operation of every array, in order, if and only if every array is faithful given the
      integer left over from the arrays before it. */
  lemma {:induction false} CompileFaithfulIff(env: Env, acc: Acc, es: seq<Element>)
    requires CompileAll(env, acc, es).Some?
    ensures TranslateAll(env, es) == Some(Ops(CompileAll(env, acc, es).value)) <==> FaithfulAll(env, acc.offset, es)
    decreases |es|
  {
    if es != [] {
      var (acc1, emit) := CompileOne(env, false, acc, es[0]).value;
      var l := Scan(env, false, EMPTY, es[0].fields).value;
      var emits := CompileAll(env, acc1, es[1..]).value;
      hide Scan, Translate, Faithful, Choose;
      ChooseFaithfulIff(env, acc, l);
      CompileFaithfulIff(env, acc1, es[1..]);
      CompileLength(env, acc1, es[1..]);
      assert CompileAll(env, acc, es).value == [emit] + emits;
      assert ([emit] + emits)[1..] == emits;
      assert Ops([emit] + emits) == (if emit.op.Some? then [emit.op.value] else []) + Ops(emits);
      if TranslateAll(env, es).Some? {
        TranslateLength(env, es);
        var ops := TranslateAll(env, es[1..]).value;
        assert TranslateAll(env, es).value == [TranslateOne(env, es[0]).value] + ops;
        assert TranslateAll(env, es).value[1..] == ops;
        if emit.op.Some? {
          assert ([emit.op.value] + Ops(emits))[1..] == Ops(emits);
        }
      }
    }
  }

  // ----- arrays for which nothing is left to the accumulators

  /** Faithful whatever was compiled before. */
  predicate Independent(env: Env, l: Local) {
    match KindOf(env, l.op)
    case None => false
    case Some(k) =>
      var number := l.long.Some? && l.long.value != 0 && Int32(l.long.value) == l.long.value;
      match k
      case Append | Prepend => l.str.Some?
      case Incr => l.str.None? && number
      case Write => l.str.Some? || l.geo.Some? || number
      case Touch | Read | ListClear | ListSize => true
      case ListPop | ListRemove | ListGet => l.index.Some?
      case ListPopRange | ListRemoveRange | ListGetRange | ListTrim =>
        l.index.Some? && l.long.Some? && 0 <= l.long.value < 0x8000_0000
      case ListAppend => l.val.Some? && l.last == l.val
      case ListInsert | ListSet => l.index.Some? && l.val.Some? && l.last == l.val
      case ListInsertItems => false
  }

  lemma IndependentIff(env: Env, l: Local)
    ensures Independent(env, l) <==> forall offset :: Faithful(env, offset, l)
  {
    if forall offset :: Faithful(env, offset, l) {
      assert Faithful(env, 0, l) && Faithful(env, 1, l);
    }
  }

  lemma ChooseIndependent(env: Env, acc: Acc, l: Local)
    requires Independent(env, l)
    ensures Choose(env, Carry(acc, l), l) == Choose(env, Carry(Acc(0, 0.0, 0), l), l)
  {}

  /** Each array compiled by itself, from zeroed accumulators. */
  function CompileEach(env: Env, es: seq<Element>): Option<seq<Emit>>
    decreases |es|
  {
    if es == [] then Some([])
    else
      match (CompileOne(env, false, Acc(0, 0.0, 0), es[0]), CompileEach(env, es[1..]))
      case (Some((_, emit)), Some(emits)) => Some([emit] + emits)
      case _ => None
  }

  /** Every array that can be read at all and names an operation is independent. */
  predicate IndependentAll(env: Env, es: seq<Element>) {
    forall e :: e in es && e.Fields? && Scan(env, false, EMPTY, e.fields).Some? ==>
                  KindOf(env, Scan(env, false, EMPTY, e.fields).value.op).Some? ==>
                    Independent(env, Scan(env, false, EMPTY, e.fields).value)
  }

  /** On such lists the loop is a map, success and failure included, whatever the accumulators held. */
  lemma {:induction false} CompileIsMap(env: Env, acc: Acc, es: seq<Element>)
    requires IndependentAll(env, es)
    ensures CompileAll(env, acc, es) == CompileEach(env, es)
    decreases |es|
  {
    if es != [] {
      var e := es[0];
      assert e in es;
      hide Scan, Independent;
      if e.Fields? && Scan(env, false, EMPTY, e.fields).Some? {
        var l := Scan(env, false, EMPTY, e.fields).value;
        if KindOf(env, l.op).Some? {
          ChooseIndependent(env, acc, l);
        }
      }
      assert forall f :: f in es[1..] ==> f in es;
      if CompileOne(env, false, acc, e).Some? {
        CompileIsMap(env, CompileOne(env, false, acc, e).value.0, es[1..]);
      }
    }
  }

  // ----- server calls

  datatype TtlOption = Absent | Invalid | Given(ttl: nat)

  /** What the call's options amount to before any array is looked at. */
  datatype Options = Options(generationOk: bool, policyOk: bool, ttl: TtlOption)

  predicate Usable(o: Options) {
    o.generationOk && o.policyOk && !o.ttl.Invalid?
  }

  function Sent(o: Options, b: Batch): Batch {
    if o.ttl.Given? then b.(ttl := o.ttl.ttl) else b
  }

  const NO_OPS := Batch([], 0)

  /** The calls `operate` issues: none, or one with everything. `index` is whatever the uninitialised
      variable held. */
  function OperateCalls(env: Env, o: Options, index: int, es: seq<Element>): seq<Batch> {
    if !Usable(o) then []
    else
      match CompileAll(env, Acc(0, 0.0, index), es)
      case None => []
      case Some(emits) => [Sent(o, Collect(NO_OPS, emits))]
  }

  /** What becomes of a server call: refused, accepted, or accepted with a reply that cannot be turned into
      PHP values, which sets the error but does not leave the loop. */
  datatype Answer = Refused | Answered | Unconvertible

  function ResetIndex(acc: Acc): Acc {
    acc.(index := 0)
  }

  /** The calls `operateOrdered` issues from its `k`-th on; the check in front of the next array finds the error
      that an unconvertible reply left. */
  function OrderedFrom(env: Env, o: Options, acc: Acc, es: seq<Element>, answers: nat -> Answer, k: nat): (calls: seq<Batch>)
    ensures |calls| <= |es|
    decreases |es|
  {
    if es == [] then []
    else
      match CompileOne(env, true, ResetIndex(acc), es[0])
      case None => []
      case Some((acc1, emit)) =>
        [Sent(o, Add(NO_OPS, emit))] + if answers(k).Answered? then OrderedFrom(env, o, acc1, es[1..], answers, k + 1) else []
  }

  function OrderedCalls(env: Env, o: Options, index: int, es: seq<Element>, answers: nat -> Answer): seq<Batch> {
    if !Usable(o) then [] else OrderedFrom(env, o, Acc(0, 0.0, index), es, answers, 0)
  }

  /** `operate` calls the server at most once, and does so just when the options are usable and every
      array compiles. */
  lemma OperateAllOrNothing(env: Env, o: Options, index: int, es: seq<Element>)
    ensures |OperateCalls(env, o, index, es)| <= 1
    ensures OperateCalls(env, o, index, es) != [] <==>
              o.generationOk && o.policyOk && !o.ttl.Invalid? && forall i :: 0 <= i < |es| ==> CompilesAt(env, false, Acc(0, 0.0, index), es, i)
  {
    CompileAllIff(env, Acc(0, 0.0, index), es);
  }

  /** And then the one call carries the documented operations, in order, if and only if every array is
      faithful, with nothing left over in front of the first; its time to live is the option's, else that of
      the last touch, else zero. */
  lemma OperateFaithfulIff(env: Env, o: Options, index: int, es: seq<Element>)
    requires OperateCalls(env, o, index, es) != []
    ensures var call := OperateCalls(env, o, index, es)[0];
            && (TranslateAll(env, es) == Some(call.ops) <==> FaithfulAll(env, 0, es))
            && CompileAll(env, Acc(0, 0.0, index), es).Some?
            && call.ttl == if o.ttl.Given? then o.ttl.ttl else Now(LastTouch(CompileAll(env, Acc(0, 0.0, index), es).value), 0)
  {
    hide CompileAll, FaithfulAll, TranslateAll;
    CompileFaithfulIff(env, Acc(0, 0.0, index), es);
    var emits := CompileAll(env, Acc(0, 0.0, index), es).value;
    CollectOps(NO_OPS, emits);
    CollectTtl(NO_OPS, emits);
    assert NO_OPS.ops + Ops(emits) == Ops(emits);
  }

  function LastTouch(emits: seq<Emit>): Option<nat> {
    if emits == [] then None
    else if LastTouch(emits[1..]).Some? then LastTouch(emits[1..])
    else emits[0].ttl
  }

  lemma {:induction false} CollectTtl(b: Batch, emits: seq<Emit>)
    ensures Collect(b, emits).ttl == Now(LastTouch(emits), b.ttl)
    decreases |emits|
  {
    if emits != [] {
      CollectTtl(Add(b, emits[0]), emits[1..]);
    }
  }

  /** The accumulators after an array that could be read. */
  function After(env: Env, ordered: bool, acc: Acc, e: Element): Acc {
    var start := if ordered then ResetIndex(acc) else acc;
    if e.NotAnArray? || Scan(env, ordered, EMPTY, e.fields).None? then start
    else Carry(start, Scan(env, ordered, EMPTY, e.fields).value)
  }

  /** The accumulators in front of the `i`-th array. */
  function AccAt(env: Env, ordered: bool, acc: Acc, es: seq<Element>, i: nat): Acc
    requires i <= |es|
    decreases i
  {
    if i == 0 then acc else AccAt(env, ordered, After(env, ordered, acc, es[0]), es[1..], i - 1)
  }

  function OneAt(env: Env, ordered: bool, acc: Acc, es: seq<Element>, i: nat): Option<(Acc, Emit)>
    requires i < |es|
  {
    var a := AccAt(env, ordered, acc, es, i);
    CompileOne(env, ordered, if ordered then ResetIndex(a) else a, es[i])
  }

  predicate CompilesAt(env: Env, ordered: bool, acc: Acc, es: seq<Element>, i: nat)
    requires i < |es|
  {
    OneAt(env, ordered, acc, es, i).Some?
  }

  lemma {:induction false} CompileAllIff(env: Env, acc: Acc, es: seq<Element>)
    ensures CompileAll(env, acc, es).Some? <==> forall i :: 0 <= i < |es| ==> CompilesAt(env, false, acc, es, i)
    decreases |es|
  {
    if es != [] {
      hide Scan, Choose;
      var acc1 := After(env, false, acc, es[0]);
      CompileAllIff(env, acc1, es[1..]);
      assert CompilesAt(env, false, acc, es, 0) <==> CompileOne(env, false, acc, es[0]).Some?;
      assert forall i :: 0 <= i < |es| - 1 ==> CompilesAt(env, false, acc1, es[1..], i) == CompilesAt(env, false, acc, es, i + 1);
      assert forall i :: 0 < i < |es| ==> CompilesAt(env, false, acc, es, i) == CompilesAt(env, false, acc1, es[1..], i - 1);
    }
  }

  lemma {:induction false} OrderedCallAt(env: Env, o: Options, acc: Acc, es: seq<Element>, answers: nat -> Answer, k: nat, i: nat)
    requires i < |OrderedFrom(env, o, acc, es, answers, k)|
    ensures CompilesAt(env, true, acc, es, i)
    ensures OrderedFrom(env, o, acc, es, answers, k)[i] == Sent(o, Add(NO_OPS, OneAt(env, true, acc, es, i).value.1))
    ensures i < |OrderedFrom(env, o, acc, es, answers, k)| - 1 ==> answers(k + i).Answered?
    decreases i
  {
    hide Scan, Choose;
    if i > 0 {
      var acc1 := CompileOne(env, true, ResetIndex(acc), es[0]).value.0;
      assert acc1 == After(env, true, acc, es[0]);
      assert OrderedFrom(env, o, acc, es, answers, k)[1..] == OrderedFrom(env, o, acc1, es[1..], answers, k + 1);
      OrderedCallAt(env, o, acc1, es[1..], answers, k + 1, i - 1);
    }
  }

  lemma {:induction false} OrderedStop(env: Env, o: Options, acc: Acc, es: seq<Element>, answers: nat -> Answer, k: nat)
    ensures var n := |OrderedFrom(env, o, acc, es, answers, k)|;
            n < |es| ==> (n > 0 && !answers(k + n - 1).Answered?) || !CompilesAt(env, true, acc, es, n)
    decreases |es|
  {
    hide Scan, Choose;
    if es != [] && CompileOne(env, true, ResetIndex(acc), es[0]).Some? && answers(k).Answered? {
      var acc1 := CompileOne(env, true, ResetIndex(acc), es[0]).value.0;
      assert acc1 == After(env, true, acc, es[0]);
      OrderedStop(env, o, acc1, es[1..], answers, k + 1);
      var n := |OrderedFrom(env, o, acc1, es[1..], answers, k + 1)|;
      assert n < |es[1..]| ==> CompilesAt(env, true, acc1, es[1..], n) == CompilesAt(env, true, acc, es, n + 1);
    }
  }

  /** The call with one array's operation: its time to live is the option's, else the touch's, else zero. */
  function Alone(o: Options, e: Emit): Batch {
    Batch(if e.op.Some? then [e.op.value] else [], if o.ttl.Given? then o.ttl.ttl else Now(e.ttl, 0))
  }

  /** With any option unusable neither entry point calls the server. */
  lemma UnusableCallsNothing(env: Env, o: Options, index: int, es: seq<Element>, answers: nat -> Answer)
    requires !o.generationOk || !o.policyOk || o.ttl.Invalid?
    ensures OperateCalls(env, o, index, es) == [] && OrderedCalls(env, o, index, es, answers) == []
  {}

  /** `operateOrdered` calls the server once for each array, in order, up to the first that does not compile,
      the first call the server refuses, or the first reply that cannot be converted; each call carries that
      array's operation alone. */
  lemma OrderedCallsExact(env: Env, o: Options, index: int, es: seq<Element>, answers: nat -> Answer)
    requires o.generationOk && o.policyOk && !o.ttl.Invalid?
    ensures var acc := Acc(0, 0.0, index);
            var calls := OrderedCalls(env, o, index, es, answers);
            && (forall i :: 0 <= i < |calls| ==>
                  CompilesAt(env, true, acc, es, i) && calls[i] == Alone(o, OneAt(env, true, acc, es, i).value.1))
            && (forall i :: 0 <= i < |calls| - 1 ==> answers(i).Answered?)
            && (|calls| < |es| ==> (|calls| > 0 && !answers(|calls| - 1).Answered?) || !CompilesAt(env, true, acc, es, |calls|))
  {
    hide CompileOne, OrderedFrom, OneAt;
    var acc := Acc(0, 0.0, index);
    var calls := OrderedCalls(env, o, index, es, answers);
    forall i | 0 <= i < |calls|
      ensures CompilesAt(env, true, acc, es, i) && calls[i] == Alone(o, OneAt(env, true, acc, es, i).value.1)
      ensures i < |calls| - 1 ==> answers(i).Answered?
    {
      OrderedCallAt(env, o, acc, es, answers, 0, i);
    }
    OrderedStop(env, o, acc, es, answers, 0);
  }

  // ----- the two entry points against each other

  /** The index is used, so one left over from an earlier array would be too. */
  predicate TakesIndex(k: Kind) {
    k in {ListPop, ListRemove, ListGet, ListPopRange, ListRemoveRange, ListGetRange, ListTrim, ListInsert, ListSet}
  }

  /** `index` is what the variable holds in front of the list. */
  predicate IndexGiven(env: Env, index: int, es: seq<Element>)
    decreases |es|
  {
    es == [] ||
    (es[0].Fields? &&
     match Scan(env, false, EMPTY, es[0].fields)
     case None => false
     case Some(l) =>
       && (KindOf(env, l.op).Some? && TakesIndex(KindOf(env, l.op).value) && l.index.None? ==> index == 0)
       && IndexGiven(env, if l.index.Some? then l.index.value else index, es[1..]))
  }

  /** Whatever `operateOrdered` can read `operate` reads the same way; the other way round only without doubles. */
  lemma {:induction false} ScanOrdered(env: Env, l: Local, fields: seq<Field>)
    requires Scan(env, true, l, fields).Some?
    ensures Scan(env, false, l, fields) == Scan(env, true, l, fields)
    ensures Scan(env, true, l, fields).value.dbl == l.dbl
    decreases |fields|
  {
    if fields != [] {
      ScanOrdered(env, ScanField(env, true, l, fields[0]).value, fields[1..]);
    }
  }

  /** What `operateOrdered` would send if every call is answered. */
  function OrderedEmits(env: Env, acc: Acc, es: seq<Element>): Option<seq<Emit>>
    decreases |es|
  {
    if es == [] then Some([])
    else
      match CompileOne(env, true, ResetIndex(acc), es[0])
      case None => None
      case Some((acc1, emit)) =>
        Prefixed([emit], OrderedEmits(env, acc1, es[1..]))
  }

  lemma ChooseSameIff(env: Env, acc: Acc, l: Local)
    requires Choose(env, Carry(acc, l), l).Some? && Choose(env, Carry(ResetIndex(acc), l), l).Some?
    ensures var a, b := Choose(env, Carry(acc, l), l).value, Choose(env, Carry(ResetIndex(acc), l), l).value;
            && a.op.Some? == b.op.Some? && a.ttl == b.ttl
            && (a == b <==> (KindOf(env, l.op).Some? && TakesIndex(KindOf(env, l.op).value) && l.index.None? ==> acc.index == 0))
  {}

  /** When every array compiles for both, the operations sent one by one are, put together, the list that
      `operate` sends if and only if every array that takes an index has one or finds zero left over. */
  lemma {:induction false} SameOpsIff(env: Env, acc: Acc, bcc: Acc, es: seq<Element>)
    requires acc.offset == bcc.offset && acc.dbl == bcc.dbl
    requires CompileAll(env, acc, es).Some? && OrderedEmits(env, bcc, es).Some?
    ensures Ops(CompileAll(env, acc, es).value) == Ops(OrderedEmits(env, bcc, es).value) <==> IndexGiven(env, acc.index, es)
    ensures |Ops(CompileAll(env, acc, es).value)| == |Ops(OrderedEmits(env, bcc, es).value)|
    decreases |es|
  {
    if es != [] {
      ScanOrdered(env, EMPTY, es[0].fields);
      var l := Scan(env, false, EMPTY, es[0].fields).value;
      hide Scan, Choose;
      var (acc1, a) := CompileOne(env, false, acc, es[0]).value;
      var (bcc1, b) := CompileOne(env, true, ResetIndex(bcc), es[0]).value;
      assert ResetIndex(bcc) == ResetIndex(acc);
      ChooseSameIff(env, acc, l);
      SameOpsIff(env, acc1, bcc1, es[1..]);
      SameHeads(a, b, CompileAll(env, acc1, es[1..]).value, OrderedEmits(env, bcc1, es[1..]).value);
    }
  }

  lemma SameHeads(a: Emit, b: Emit, xs: seq<Emit>, ys: seq<Emit>)
    requires a.op.Some? == b.op.Some? && a.ttl == b.ttl && |Ops(xs)| == |Ops(ys)|
    ensures Ops([a] + xs) == Ops([b] + ys) <==> a == b && Ops(xs) == Ops(ys)
    ensures |Ops([a] + xs)| == |Ops([b] + ys)|
  {
    OpsCons(a, xs);
    OpsCons(b, ys);
    hide Ops;
    if a.op.Some? {
      ConsEqual(a.op.value, b.op.value, Ops(xs), Ops(ys));
    }
  }

  lemma OpsCons(e: Emit, es: seq<Emit>)
    ensures Ops([e] + es) == if e.op.Some? then [e.op.value] + Ops(es) else Ops(es)
  {
    assert ([e] + es)[1..] == es;
  }

  lemma ConsEqual<T>(x: T, y: T, xs: seq<T>, ys: seq<T>)
    ensures [x] + xs == [y] + ys <==> x == y && xs == ys
  {
    assert ([x] + xs)[0] == x && ([y] + ys)[0] == y;
    assert ([x] + xs)[1..] == xs && ([y] + ys)[1..] == ys;
  }

  function Concat(calls: seq<Batch>): seq<ServerOp> {
    if calls == [] then [] else calls[0].ops + Concat(calls[1..])
  }

  /** If every call is answered, and there is one for every array, they carry the ordered emissions. */
  lemma {:induction false} OrderedComplete(env: Env, o: Options, acc: Acc, es: seq<Element>, answers: nat -> Answer, k: nat)
    requires |OrderedFrom(env, o, acc, es, answers, k)| == |es|
    ensures OrderedEmits(env, acc, es).Some?
    ensures Concat(OrderedFrom(env, o, acc, es, answers, k)) == Ops(OrderedEmits(env, acc, es).value)
    decreases |es|
  {
    if es != [] {
      hide Scan, Choose;
      var (acc1, emit) := CompileOne(env, true, ResetIndex(acc), es[0]).value;
      var rest := OrderedFrom(env, o, acc1, es[1..], answers, k + 1);
      if answers(k).Answered? {
        OrderedComplete(env, o, acc1, es[1..], answers, k + 1);
        assert OrderedFrom(env, o, acc, es, answers, k)[1..] == rest;
        assert ([emit] + OrderedEmits(env, acc1, es[1..]).value)[1..] == OrderedEmits(env, acc1, es[1..]).value;
      } else {
        assert es[1..] == [];
        assert OrderedFrom(env, o, acc, es, answers, k)[1..] == [];
        assert Concat([]) == [];
      }
    }
  }

  /** When `operate` issues its call and `operateOrdered` one per array, the single calls put together are
      that call's list if and only if every array that takes an index has one or finds zero left over in
      `operate`'s variable. */
  lemma SameCallsIff(env: Env, o: Options, index: int, es: seq<Element>, answers: nat -> Answer)
    requires |OperateCalls(env, o, index, es)| == 1 && |OrderedCalls(env, o, index, es, answers)| == |es|
    ensures Concat(OrderedCalls(env, o, index, es, answers)) == OperateCalls(env, o, index, es)[0].ops <==> IndexGiven(env, index, es)
  {
    hide Scan, Choose, CompileAll, OrderedFrom, OrderedEmits, IndexGiven;
    var acc := Acc(0, 0.0, index);
    OrderedComplete(env, o, acc, es, answers, 0);
    SameOpsIff(env, acc, acc, es);
    CollectOps(NO_OPS, CompileAll(env, acc, es).value);
  }

  /** The leak itself: an integer write before a double write makes the second bin receive the integer. */
  lemma IntegerLeaksIntoDouble(env: Env, index: int)
    requires env.hasDouble && env.basic(2) == Some(Write) && (forall op :: env.accepts(op))
    ensures var w := (bin: string, z: ZVal) => Fields([Field(Name("op"), ZLong(2)), Field(Name("bin"), ZStr(bin)), Field(Name("val"), z)]);
            var r := CompileAll(env, Acc(0, 0.0, index), [w("a", ZLong(5)), w("b", ZDouble(1.5))]);
            r.Some? && Ops(r.value) == [ServerOp(Write, Some("a"), Long(5)), ServerOp(Write, Some("b"), Long(5))]
  {
    var w := (bin: string, z: ZVal) => Fields([Field(Name("op"), ZLong(2)), Field(Name("bin"), ZStr(bin)), Field(Name("val"), z)]);
    var a, b := w("a", ZLong(5)), w("b", ZDouble(1.5));
    ScanWrite(env, "a", ZLong(5));
    ScanWrite(env, "b", ZDouble(1.5));
    hide Scan;
    var acc1 := Acc(5, 0.0, index);
    var ea, eb := Emit(Some(ServerOp(Write, Some("a"), Long(5))), None), Emit(Some(ServerOp(Write, Some("b"), Long(5))), None);
    assert CompileOne(env, false, Acc(0, 0.0, index), a) == Some((acc1, ea));
    assert CompileOne(env, false, acc1, b) == Some((Acc(5, 1.5, index), eb));
    assert [a, b][1..] == [b] && [b][1..] == [];
    assert CompileAll(env, Acc(5, 1.5, index), []) == Some([]);
    assert [eb] + [] == [eb] && [ea] + [eb] == [ea, eb];
    assert CompileAll(env, acc1, [b]) == Some([eb]);
    assert CompileAll(env, Acc(0, 0.0, index), [a, b]) == Some([ea, eb]);
    assert [ea, eb][1..] == [eb] && [eb][1..] == [];
  }

  lemma ScanWrite(env: Env, bin: string, z: ZVal)
    requires env.hasDouble && (z.ZLong? || z.ZDouble?)
    ensures var fs := [Field(Name("op"), ZLong(2)), Field(Name("bin"), ZStr(bin)), Field(Name("val"), z)];
            Scan(env, false, EMPTY, fs)
            == Some(Local(2, Some(bin), None, None, 0, Some(z), Some(z), if z.ZLong? then Some(z.n) else None,
                          if z.ZDouble? then Some(z.d) else None, None))
  {
    var f0, f1, f2 := Field(Name("op"), ZLong(2)), Field(Name("bin"), ZStr(bin)), Field(Name("val"), z);
    assert [f0, f1, f2][1..] == [f1, f2] && [f1, f2][1..] == [f2] && [f2][1..] == [];
    var l0 := ScanField(env, false, EMPTY, f0).value;
    var l1 := ScanField(env, false, l0, f1).value;
    var l2 := ScanField(env, false, l1, f2).value;
    assert Scan(env, false, l2, []) == Some(l2);
    assert Scan(env, false, l1, [f2]) == Some(l2);
    assert Scan(env, false, l0, [f1, f2]) == Some(l2);
  }

  // ----- the loops

  /** What the inner loop leaves behind: the variables reset for each array. */
  datatype Vars = Vars(op: int, bin: Option<string>, str: Option<string>, geo: Option<string>, ttl: nat, last: Option<ZVal>)

  predicate Agrees(v: Vars, l: Local) {
    v.op == l.op && v.bin == l.bin && v.str == l.str && v.geo == l.geo && v.ttl == l.ttl && v.last == l.last
  }

  /** One field: it sets a variable, or moves an accumulator, or is refused. */
  method ReadField(env: Env, ordered: bool, f: Field, v: Vars, acc: Acc, ghost start: Acc, ghost l: Local) returns (ok: bool, v': Vars, acc': Acc)
    requires Agrees(v, l) && acc == Carry(start, l)
    ensures ok <==> ScanField(env, ordered, l, f).Some?
    ensures ok ==> Agrees(v', ScanField(env, ordered, l, f).value) && acc' == Carry(start, ScanField(env, ordered, l, f).value)
  {
    v', acc', ok := v.(last := Some(f.z)), acc, true;
    if f.key == Index {
      ok := false;
    } else if f.key.s == "op" && f.z.ZLong? {
      v' := v'.(op := Int32(f.z.n));
    } else if f.key.s == "bin" && f.z.ZStr? {
      v' := v'.(bin := Some(f.z.s));
    } else if f.key.s == "val" {
      if f.z.ZStr? {
        v' := v'.(str := Some(f.z.s));
      } else if f.z.ZLong? {
        acc' := acc.(offset := Int32(f.z.n));
      } else if f.z.ZDouble? && !ordered && env.hasDouble {
        acc' := acc.(dbl := f.z.d);
      } else if f.z.GeoObject? && env.hasGeo && KindOf(env, v.op) == Some(Write) {
        v' := v'.(geo := Some(f.z.text));
      } else if !f.z.ZArray? {
        ok := false;
      }
    } else if f.key.s == "ttl" && f.z.ZLong? {
      v' := v'.(ttl := Uint32(f.z.n));
    } else if f.key.s == "index" && f.z.ZLong? {
      acc' := acc.(index := f.z.n);
    } else {
      ok := false;
    }
  }

  /** The inner loop over one array's fields. The accumulators come in as the last array left them. */
  method ReadArray(env: Env, ordered: bool, fields: seq<Field>, acc: Acc) returns (ok: bool, v: Vars, acc': Acc, ghost l: Local)
    ensures ok <==> Scan(env, ordered, EMPTY, fields).Some?
    ensures ok ==> l == Scan(env, ordered, EMPTY, fields).value && Agrees(v, l) && acc' == Carry(acc, l)
  {
    hide ScanField;
    v, l, acc', ok := Vars(0, None, None, None, 0, None), EMPTY, acc, true;
    var i := 0;
    while i < |fields|
      invariant i <= |fields|
      invariant Scan(env, ordered, EMPTY, fields) == Scan(env, ordered, l, fields[i..])
      invariant ok && Agrees(v, l) && acc' == Carry(acc, l)
    {
      assert fields[i..][0] == fields[i] && fields[i..][1..] == fields[i + 1..];
      ghost var next := ScanField(env, ordered, l, fields[i]);
      ok, v, acc' := ReadField(env, ordered, fields[i], v, acc', acc, l);
      if !ok {
        return;
      }
      l := next.value;
      i := i + 1;
    }
    assert fields[i..] == [];
  }

  /** `aerospike_record_operations_ops`: chooses an operation and appends it, unless the library refuses. */
  method BuildOp(env: Env, v: Vars, acc: Acc, b: Batch, ghost l: Local) returns (ok: bool, b': Batch)
    requires Agrees(v, l)
    ensures ok <==> Choose(env, acc, l).Some? && (Choose(env, acc, l).value.op.Some? ==> env.accepts(Choose(env, acc, l).value.op.value))
    ensures ok ==> b' == Add(b, Choose(env, acc, l).value)
  {
    ok, b' := true, b;
    var kind := KindOf(env, v.op);
    if kind.None? {
      return false, b;
    }
    var payload := Nothing;
    match kind.value {
      case Append | Prepend => payload := Text(v.str);
      case Incr =>
        if v.str.Some? && !env.numeric(v.str.value) {
          return false, b;
        }
        payload := if acc.offset != 0 then Long(acc.offset) else Double(acc.dbl);
      case Touch =>
        b' := b.(ttl := v.ttl);
        ok, b' := Push(env, b', ServerOp(Touch, None, Nothing));
        return;
      case Read | ListClear | ListSize =>
      case Write =>
        if v.str.Some? {
          payload := Text(v.str);
        } else if v.geo.Some? {
          payload := Geo(v.geo.value);
        } else if acc.offset != 0 {
          payload := Long(acc.offset);
        } else {
          payload := Double(acc.dbl);
        }
      case ListPop | ListRemove | ListGet => payload := Slot(acc.index);
      case ListPopRange | ListRemoveRange | ListGetRange | ListTrim => payload := Range(acc.index, Uint64(acc.offset));
      case ListAppend =>
        if v.last.None? || !env.packs(v.last.value) {
          return false, b;
        }
        payload := Item(v.last.value);
      case ListInsert | ListSet =>
        if v.last.None? || !env.packs(v.last.value) {
          return false, b;
        }
        payload := SlotItem(acc.index, v.last.value);
      case ListInsertItems =>
        if v.last.None? || !v.last.value.ZArray? {
          return true, b;
        }
        if !env.packs(v.last.value) {
          return false, b;
        }
        ok, b' := Push(env, b, AppendItems(v.bin, v.last.value));
        return;
    }
    ok, b' := Push(env, b, ServerOp(kind.value, v.bin, payload));
  }

  method Push(env: Env, b: Batch, op: ServerOp) returns (ok: bool, b': Batch)
    ensures ok == env.accepts(op)
    ensures b' == if ok then b.(ops := b.ops + [op]) else b
  {
    ok := env.accepts(op);
    b' := if ok then b.(ops := b.ops + [op]) else b;
  }

  /** One array, read and compiled. */
  method CompileArray(env: Env, ordered: bool, e: Element, acc: Acc, b: Batch) returns (ok: bool, acc': Acc, b': Batch)
    ensures ok <==> CompileOne(env, ordered, acc, e).Some?
    ensures ok ==> acc' == CompileOne(env, ordered, acc, e).value.0 && b' == Add(b, CompileOne(env, ordered, acc, e).value.1)
  {
    hide Choose, Scan;
    acc', b' := acc, b;
    if e.NotAnArray? {
      return false, acc, b;
    }
    var v;
    ghost var l;
    ok, v, acc', l := ReadArray(env, ordered, e.fields, acc);
    if ok {
      ok, b' := BuildOp(env, v, acc', b, l);
    }
  }

  /** `aerospike_record_operations_operate`, up to the server call. */
  method RunOperate(env: Env, o: Options, index: int, es: seq<Element>) returns (calls: seq<Batch>)
    ensures calls == OperateCalls(env, o, index, es)
  {
    hide CompileOne;
    if !o.generationOk || !o.policyOk {
      return [];
    }
    var acc, batch := Acc(0, 0.0, index), NO_OPS;
    ghost var emits: seq<Emit> := [];
    PrefixedNil(CompileAll(env, acc, es));
    assert es[0..] == es;
    var i := 0;
    while i < |es|
      invariant i <= |es|
      invariant Prefixed(emits, CompileAll(env, acc, es[i..])) == CompileAll(env, Acc(0, 0.0, index), es)
      invariant batch == Collect(NO_OPS, emits)
    {
      assert es[i..][0] == es[i] && es[i..][1..] == es[i + 1..];
      ghost var one := CompileOne(env, false, acc, es[i]);
      var ok;
      ok, acc, batch := CompileArray(env, false, es[i], acc, batch);
      if !ok {
        return [];
      }
      CollectLast(NO_OPS, emits, one.value.1);
      PrefixedCons(emits, one.value.1, CompileAll(env, acc, es[i + 1..]));
      emits := emits + [one.value.1];
      i := i + 1;
    }
    assert es[i..] == [] && emits + [] == emits;
    if o.ttl.Invalid? {
      return [];
    }
    calls := [Sent(o, batch)];
  }

  lemma PrefixedNil(rest: Option<seq<Emit>>)
    ensures Prefixed([], rest) == rest
  {
    assert rest.Some? ==> [] + rest.value == rest.value;
  }

  lemma PrefixedCons(done: seq<Emit>, one: Emit, rest: Option<seq<Emit>>)
    ensures Prefixed(done, Prefixed([one], rest)) == Prefixed(done + [one], rest)
  {
    assert rest.Some? ==> done + ([one] + rest.value) == done + [one] + rest.value;
  }

  lemma {:induction false} CollectLast(b: Batch, emits: seq<Emit>, emit: Emit)
    ensures Collect(b, emits + [emit]) == Add(Collect(b, emits), emit)
    decreases |emits|
  {
    if emits != [] {
      CollectLast(Add(b, emits[0]), emits[1..], emit);
      assert (emits + [emit])[1..] == emits[1..] + [emit];
    } else {
      assert (emits + [emit])[1..] == [];
    }
  }

  lemma Reassociate<T>(xs: seq<T>, y: T, zs: seq<T>)
    ensures xs + ([y] + zs) == xs + [y] + zs
  {}

  /** `aerospike_record_operations_operate_ordered`: one batch and one server call per array. */
  method RunOrdered(env: Env, o: Options, index: int, es: seq<Element>, answers: nat -> Answer) returns (calls: seq<Batch>)
    ensures calls == OrderedCalls(env, o, index, es, answers)
  {
    hide CompileOne, Sent;
    calls := [];
    if !o.policyOk {
      return;
    }
    var acc, failed := Acc(0, 0.0, index), false;
    var i := 0;
    assert es[0..] == es && forall s: seq<Batch> :: [] + s == s;
    while i < |es|
      invariant i == |calls| <= |es|
      invariant i > 0 ==> Usable(o)
      invariant calls + (if failed then [] else OrderedFrom(env, o, acc, es[i..], answers, i)) == OrderedFrom(env, o, Acc(0, 0.0, index), es, answers, 0)
    {
      ghost var rest := es[i..];
      assert rest[0] == es[i] && rest[1..] == es[i + 1..];
      if !o.generationOk || failed {
        assert calls + [] == calls;
        return;
      }
      acc := acc.(index := 0);
      var ok, batch;
      ok, acc, batch := CompileArray(env, true, es[i], acc, NO_OPS);
      if !ok || o.ttl.Invalid? {
        assert calls + [] == calls;
        return;
      }
      ghost var later := if answers(i).Answered? then OrderedFrom(env, o, acc, es[i + 1..], answers, i + 1) else [];
      Reassociate(calls, Sent(o, batch), later);
      calls := calls + [Sent(o, batch)];
      if answers(i).Refused? {
        assert calls + [] == calls;
        return;
      }
      failed := answers(i).Unconvertible?;
      i := i + 1;
    }
    assert es[i..] == [] && calls + [] == calls;
  }
}
