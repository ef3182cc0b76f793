/**
  Shared-memory keys: one key per multi-host alias, searched for with a counter that is kept between
  calls, against the specification that starts every search from scratch.

  Keys are C `int`s. The base 0xA5000000 converts to a negative `int`; the counter climbs from there.
 */
module ShmKeys {
  import opened HostAlias

  const BASE: int := 0xA500_0000 - 0x1_0000_0000
  const INT_MAX: int := 0x7FFF_FFFF

  type Table = map<string, int>

  // ----- specification: no counter

  ghost predicate Taken(table: Table, k: int) {
    k in table.Values
  }

  ghost predicate LeastFree(table: Table, k: int) {
    && BASE <= k && !Taken(table, k)
    && forall j :: BASE <= j < k ==> Taken(table, j)
  }

  /** A known alias gets its old key, a new one the requested key if unused, else the least unused key from the base. */
  ghost predicate Grants(table: Table, alias: string, requested: int, key: int) {
    if alias in table then key == table[alias]
    else if requested !in table.Values then key == requested
    else LeastFree(table, key)
  }

  /** The specification leaves no choice. */
  lemma GrantsUnique(table: Table, alias: string, requested: int, k1: int, k2: int)
    requires Grants(table, alias, requested, k1) && Grants(table, alias, requested, k2)
    ensures k1 == k2
  {
    if alias !in table && requested in table.Values {
      assert BASE <= k1 < k2 ==> Taken(table, k1);
      assert BASE <= k2 < k1 ==> Taken(table, k2);
    }
  }

  datatype Call = Call(alias: string, requested: int)

  /** The keys handed out by a run of calls, according to the specification alone. */
  ghost predicate SpecRun(table: Table, calls: seq<Call>, keys: seq<int>, end: Table)
    decreases |calls|
  {
    if calls == [] then keys == [] && end == table
    else
      && keys != []
      && Grants(table, calls[0].alias, calls[0].requested, keys[0])
      && SpecRun(table[calls[0].alias := keys[0]], calls[1..], keys[1..], end)
  }

  ghost predicate Injective(table: Table) {
    forall a, b :: a in table && b in table && table[a] == table[b] ==> a == b
  }

  lemma GrantKeepsInjective(table: Table, alias: string, requested: int, key: int)
    requires Injective(table) && Grants(table, alias, requested, key)
    ensures Injective(table[alias := key])
  {
    assert forall a :: a in table ==> table[a] in table.Values;
  }

  /** Over a whole specified run: bindings persist, every call gets the key its alias ends with, and
      distinct aliases end with distinct keys. */
  lemma {:induction false} RunStable(table: Table, calls: seq<Call>, keys: seq<int>, end: Table)
    requires Injective(table) && SpecRun(table, calls, keys, end)
    ensures Injective(end) && |keys| == |calls|
    ensures forall a :: a in table ==> a in end && end[a] == table[a]
    ensures forall i :: 0 <= i < |calls| ==> calls[i].alias in end && keys[i] == end[calls[i].alias]
    ensures forall i, j :: 0 <= i < |calls| && 0 <= j < |calls| ==> (keys[i] == keys[j] <==> calls[i].alias == calls[j].alias)
    decreases |calls|
  {
    if calls != [] {
      var c := calls[0];
      GrantKeepsInjective(table, c.alias, c.requested, keys[0]);
      var next := table[c.alias := keys[0]];
      RunStable(next, calls[1..], keys[1..], end);
      forall i | 0 <= i < |calls|
        ensures calls[i].alias in end && keys[i] == end[calls[i].alias]
      {
        if i == 0 {
          assert c.alias in next;
        } else {
          assert calls[i] == calls[1..][i - 1] && keys[i] == keys[1..][i - 1];
        }
      }
    }
  }

  /** Two calls of a run get the same key exactly when the aliases of their configurations have the same
      pieces; without semicolons exactly when their hosts agree alias by alias; without colons either exactly
      when they name the same hosts in the same order for the same user. */
  lemma ConfigsShareKeyIff(table: Table, calls: seq<Call>, keys: seq<int>, end: Table, i: nat, j: nat,
                           gs: seq<Host>, u: string, hs: seq<Host>, v: string)
    requires Injective(table) && SpecRun(table, calls, keys, end) && i < |calls| && j < |calls| && |keys| == |calls|
    requires calls[i].alias == Multi(gs, u) && calls[j].alias == Multi(hs, v)
    ensures keys[i] == keys[j] <==> AllPieces(gs, u) == AllPieces(hs, v)
    ensures Unbroken(gs, u) && Unbroken(hs, v) ==>
              (keys[i] == keys[j] <==> |gs| == |hs| && forall k :: 0 <= k < |gs| ==> SameAlias(gs[k], u, hs[k], v))
    ensures Unbroken(gs, u) && Unbroken(hs, v) && WellFormed(gs) && WellFormed(hs) ==>
              (keys[i] == keys[j] <==> gs == hs && (gs == [] || u == v))
  {
    RunStable(table, calls, keys, end);
    MultiIff(gs, u, hs, v);
    if Unbroken(gs, u) && Unbroken(hs, v) {
      MultiUnbrokenIff(gs, u, hs, v);
      if WellFormed(gs) && WellFormed(hs) {
        MultiInjective(gs, u, hs, v);
      }
    }
  }

  // ----- the saved counter

  /** Everything below the counter is taken, by distinct aliases. */
  ghost predicate Saved(table: Table, counter: int) {
    && BASE <= counter && Injective(table)
    && forall k :: BASE <= k < counter ==> Taken(table, k)
  }

  ghost function Range(lo: int, hi: int): (r: set<int>)
    ensures forall k :: k in r <==> lo <= k < hi
    decreases hi - lo
  {
    if lo < hi then Range(lo, hi - 1) + {hi - 1} else {}
  }

  /** The used keys a search starting at `from` can still run into. */
  ghost function Ahead(table: Table, from: int): set<int> {
    set k | k in table.Values && from <= k
  }

  lemma {:induction false} RangeSize(lo: int, hi: int)
    requires lo <= hi
    ensures |Range(lo, hi)| == hi - lo
    decreases hi - lo
  {
    if lo < hi {
      RangeSize(lo, hi - 1);
    }
  }

  lemma SubsetSize<T>(a: set<T>, b: set<T>)
    requires a <= b
    ensures |a| <= |b|
  {
    assert b == a + (b - a);
  }

  lemma {:induction false} ValuesSize(table: Table)
    ensures |table.Values| <= |table|
    decreases |table|
  {
    if a :| a in table {
      var rest := table - {a};
      assert rest.Keys == table.Keys - {a};
      ValuesSize(rest);
      assert table.Values <= rest.Values + {table[a]} by {
        forall v | v in table.Values ensures v in rest.Values + {table[a]} {
          var b :| b in table && table[b] == v;
          assert b != a ==> b in rest && rest[b] == v;
        }
      }
      SubsetSize(table.Values, rest.Values + {table[a]});
    } else {
      assert table.Values == {};
    }
  }

  /** Pigeonhole: the counter never runs further above the base than aliases are registered. */
  lemma CounterBound(table: Table, counter: int)
    requires Saved(table, counter)
    ensures counter - BASE <= |table|
    ensures |table| <= INT_MAX - BASE ==> counter <= INT_MAX
  {
    RangeSize(BASE, counter);
    assert Range(BASE, counter) <= table.Values by {
      assert forall k :: k in Range(BASE, counter) ==> Taken(table, k);
    }
    SubsetSize(Range(BASE, counter), table.Values);
    ValuesSize(table);
  }

  // ----- the allocator

  class Allocator {
    var keys: Table     // shm_key_list
    var counter: int    // shm_key_counter

    constructor ()
      ensures keys == map[] && counter == -0x5B00_0000 == BASE && Saved(keys, counter)
    {
      keys, counter := map[], BASE;
    }

    /** The linear scan of `is_unique_shm_key`. */
    method IsUnique(key: int) returns (unique: bool)
      ensures unique <==> key !in keys.Values
    {
      var rest := keys.Keys;
      while rest != {}
        invariant rest <= keys.Keys
        invariant forall a :: a in keys && keys[a] == key ==> a in rest
      {
        var a :| a in rest;
        if keys[a] == key {
          return false;
        }
        rest := rest - {a};
      }
      unique := true;
    }

    /** Finds or generates the key for an alias. The search resumes where the last one stopped. */
    method SetKey(alias: string, requested: int) returns (key: int)
      requires Saved(keys, counter)
      modifies this
      ensures Saved(keys, counter) && old(counter) <= counter
      ensures Grants(old(keys), alias, requested, key)
      ensures keys == old(keys)[alias := key]
    {
      if |keys| == 0 {
        key := requested;
        GrantKeepsInjective(keys, alias, requested, key);
        KeepsSaved(keys, alias, key, counter);
        keys := keys[alias := key];
        return;
      }
      if alias in keys {
        key := keys[alias];
        return;
      }
      key := requested;
      var unique := IsUnique(key);
      if !unique {
        key := Search();
      }
      GrantKeepsInjective(keys, alias, requested, key);
      KeepsSaved(keys, alias, key, counter);
      keys := keys[alias := key];
    }

    /** `while (true)`: bounded because every rejected key is one of the finitely many in use. */
    method Search() returns (key: int)
      requires Saved(keys, counter)
      modifies this`counter
      ensures Saved(keys, counter) && old(counter) <= counter
      ensures key == counter && LeastFree(keys, key)
    {
      while true
        invariant Saved(keys, counter) && old(counter) <= counter
        decreases Ahead(keys, counter)
      {
        var unique := IsUnique(counter);
        if unique {
          return counter;
        }
        assert counter in Ahead(keys, counter) && counter !in Ahead(keys, counter + 1);
        counter := counter + 1;
      }
    }

    /** A run of calls hands out what the specification does, and in all of it the counter moves no
        further than there are aliases. */
    method Run(calls: seq<Call>) returns (granted: seq<int>)
      requires Saved(keys, counter)
      modifies this
      ensures Saved(keys, counter) && SpecRun(old(keys), calls, granted, keys)
      ensures counter - old(counter) <= |keys|
    {
      granted := [];
      for i := 0 to |calls|
        invariant Saved(keys, counter) && old(counter) <= counter
        invariant SpecRun(old(keys), calls[..i], granted, keys)
      {
        ghost var before := keys;
        var key := SetKey(calls[i].alias, calls[i].requested);
        SpecRunLast(old(keys), calls[..i], granted, before, calls[i], key);
        assert calls[..i] + [calls[i]] == calls[..i + 1];
        granted := granted + [key];
      }
      assert calls[..|calls|] == calls;
      CounterBound(keys, counter);
    }
  }

  lemma KeepsSaved(table: Table, alias: string, key: int, counter: int)
    requires Saved(table, counter) && alias !in table && Injective(table[alias := key])
    ensures Saved(table[alias := key], counter)
  {
    var next := table[alias := key];
    forall k | BASE <= k < counter ensures Taken(next, k) {
      assert Taken(table, k);
      var a :| a in table && table[a] == k;
      assert a in next && next[a] == k;
    }
  }

  lemma {:induction false} SpecRunLast(table: Table, calls: seq<Call>, keys: seq<int>, end: Table, c: Call, key: int)
    requires SpecRun(table, calls, keys, end) && Grants(end, c.alias, c.requested, key)
    ensures SpecRun(table, calls + [c], keys + [key], end[c.alias := key])
    decreases |calls|
  {
    if calls != [] {
      SpecRunLast(table[calls[0].alias := keys[0]], calls[1..], keys[1..], end, c, key);
      assert (calls + [c])[1..] == calls[1..] + [c] && (keys + [key])[1..] == keys[1..] + [key];
    } else {
      assert (calls + [c])[1..] == [] && (keys + [key])[1..] == [];
    }
  }
}
