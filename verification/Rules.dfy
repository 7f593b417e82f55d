/**
 The table of rule executors, kept as a map of maps. Readers get an inner map without copying it,
 so writers never change one: they publish a changed copy. A key of the informer names a rule as
 "bus:rule"; a deletion has only the key to go by.

 An inner map is an object here, so that a write into a published one would show. Executors are
 numbered in the order of their creation. One Handle is one atomic step.
 */
module Rules {
  import opened Wrappers
  import opened RuleTargets
  import Maps

  // ---------- keys ----------

  const COLON := ':'

  function Key(bus: string, name: string): string
  {
    bus + [COLON] + name
  }

  /** strings.Split(s, ":") */
  function Split(s: string): (parts: seq<string>)
    ensures |parts| >= 1
  {
    if s == [] then [[]]
    else
      var rest := Split(s[1..]);
      if s[0] == COLON then [[]] + rest else [[s[0]] + rest[0]] + rest[1..]
  }

  lemma {:induction false} SplitPlain(s: string)
    requires COLON !in s
    ensures Split(s) == [s]
  {
    if s != [] {
      SplitPlain(s[1..]);
      assert [s[0]] + s[1..] == s;
    }
  }

  lemma {:induction false} SplitAtColon(s: string, t: string)
    requires COLON !in s
    ensures Split(s + [COLON] + t) == [s] + Split(t)
  {
    var all := s + [COLON] + t;
    if s == [] {
      assert all[1..] == t;
    } else {
      assert all[1..] == s[1..] + [COLON] + t;
      SplitAtColon(s[1..], t);
      assert [s[0]] + s[1..] == s;
    }
  }

  function Colons(s: string): nat
  {
    if s == [] then 0 else (if s[0] == COLON then 1 else 0) + Colons(s[1..])
  }

  lemma {:induction false} SplitCounts(s: string)
    ensures |Split(s)| == Colons(s) + 1
    ensures Colons(s) == 0 <==> COLON !in s
  {
    if s != [] {
      SplitCounts(s[1..]);
    }
  }

  lemma {:induction false} ColonsConcat(s: string, t: string)
    ensures Colons(s + t) == Colons(s) + Colons(t)
  {
    if s == [] {
      assert s + t == t;
    } else {
      assert (s + t)[1..] == s[1..] + t;
      ColonsConcat(s[1..], t);
    }
  }

  /** A key gives back the two names exactly if neither of them contains a colon. Otherwise it has
      more than two parts. */
  lemma SplitKey(bus: string, name: string)
    ensures Key(bus, name) == bus + ":" + name
    ensures |Split(Key(bus, name))| == 2 <==> ':' !in bus && ':' !in name
    ensures ':' !in bus && ':' !in name ==> Split(Key(bus, name)) == [bus, name]
  {
    SplitCounts(Key(bus, name));
    ColonsConcat(bus + [COLON], name);
    ColonsConcat(bus, [COLON]);
    SplitCounts(bus);
    SplitCounts(name);
    if COLON !in bus && COLON !in name {
      SplitAtColon(bus, name);
      SplitPlain(name);
    }
  }

  // ---------- the table ----------

  type Table = map<(string, string), nat>

  /** What one Handle does to the table: `value` is what the reflector holds for the key, and `ok`
      says whether a new executor could be created. */
  function Handled(table: Table, next: nat, key: string, value: Option<Rule>, ok: bool): Table
  {
    match value
    case Some(r) =>
      if (r.busName, r.name) !in table && ok then table[(r.busName, r.name) := next] else table
    case None =>
      if |Split(key)| == 2 then table - {(Split(key)[0], Split(key)[1])} else table
  }

  /** A new rule gets the next executor if one can be created, and a known one keeps its own. */
  lemma UpdatingMeans(table: Table, next: nat, r: Rule, ok: bool)
    ensures Handled(table, next, Key(r.busName, r.name), Some(r), ok)
         == if ok && (r.busName, r.name) !in table then table[(r.busName, r.name) := next] else table
  {
  }

  /** A key without further colons takes its rule out of the table, any other key changes nothing. */
  lemma DeletingMeans(table: Table, next: nat, key: string, ok: bool)
    ensures forall bus, name :: key == Key(bus, name) && ':' !in bus && ':' !in name ==>
      Handled(table, next, key, None, ok) == table - {(bus, name)}
    ensures (forall bus, name :: key == Key(bus, name) ==> ':' in bus || ':' in name) ==>
      Handled(table, next, key, None, ok) == table
  {
    forall bus, name | key == Key(bus, name)
      ensures |Split(key)| == 2 <==> ':' !in bus && ':' !in name
      ensures ':' !in bus && ':' !in name ==> Split(key) == [bus, name]
    {
      SplitKey(bus, name);
    }
    if |Split(key)| == 2 {
      SplitJoins(key);
      SplitKey(Split(key)[0], Split(key)[1]);
    }
  }

  // ---------- runs ----------

  datatype Step = Step(key: string, value: Option<Rule>, ok: bool)

  /** The table after a run of Handle steps, and the number of the next executor. */
  function After(steps: seq<Step>): (Table, nat)
  {
    if steps == [] then (map[], 0)
    else
      var last := steps[|steps| - 1];
      var (table, next) := After(steps[..|steps| - 1]);
      (Handled(table, next, last.key, last.value, last.ok), NextNumber(table, next, last))
  }

  function NextNumber(table: Table, next: nat, s: Step): nat
  {
    if s.value.Some? && (s.value.value.busName, s.value.value.name) !in table && s.ok then next + 1 else next
  }

  /** The reflector files every value under its rule's own key. */
  ghost predicate Filed(s: Step)
  {
    s.value.Some? ==> s.key == Key(s.value.value.busName, s.value.value.name)
  }

  /** The value of the key was present when the key was handled last. */
  ghost predicate LastPresent(steps: seq<Step>, key: string)
  {
    steps != [] &&
    var last := steps[|steps| - 1];
    if last.key == key then last.value.Some? else LastPresent(steps[..|steps| - 1], key)
  }

  /** Two colon-free names are what their key says, whatever names another rule of that key has. */
  lemma KeyNames(bus: string, name: string, b: string, n: string)
    requires COLON !in bus && COLON !in name && Key(b, n) == Key(bus, name)
    ensures b == bus && n == name
  {
    SplitKey(bus, name);
    SplitKey(b, n);
    assert [b, n][0] == b && [b, n][1] == n;
  }

  /** Step i created an executor for the key, or would have if there had been none, and the key was
      never gone afterwards. */
  ghost predicate CreatedFor(steps: seq<Step>, key: string, i: int)
  {
    && 0 <= i < |steps| && steps[i].key == key && steps[i].value.Some? && steps[i].ok
    && forall j :: i < j < |steps| && steps[j].key == key ==> steps[j].value.Some?
  }

  /** Over every run an executor exists for a rule with colon-free names exactly if one could be
      created since the rule was gone last. Other rules may fail or have colons. */
  lemma {:induction false} TableFollowsSteps(steps: seq<Step>, bus: string, name: string)
    requires forall i :: 0 <= i < |steps| ==> Filed(steps[i])
    requires COLON !in bus && COLON !in name
    ensures (bus, name) in After(steps).0 <==> exists i :: CreatedFor(steps, Key(bus, name), i)
    decreases |steps|
  {
    if steps != [] {
      var init, last := steps[..|steps| - 1], steps[|steps| - 1];
      var key := Key(bus, name);
      SplitKey(bus, name);
      if last.value.Some? {
        var r := last.value.value;
        if last.key == key {
          KeyNames(bus, name, r.busName, r.name);
          assert last.ok ==> CreatedFor(steps, key, |steps| - 1);
        }
      } else if |Split(last.key)| == 2 {
        SplitJoins(last.key);
      }
      TableFollowsSteps(init, bus, name);
      forall i
        ensures i < |init| ==> (CreatedFor(steps, key, i) <==>
          CreatedFor(init, key, i) && (last.key == key ==> last.value.Some?))
      {
        assert forall j :: 0 <= j < |init| ==> steps[j] == init[j];
      }
    }
  }

  /** If its creations succeed, a rule with colon-free names has an executor exactly if it was there
      when its key was handled last. */
  lemma {:induction false} TableFollowsReflector(steps: seq<Step>, bus: string, name: string)
    requires forall i :: 0 <= i < |steps| ==> Filed(steps[i]) && (steps[i].key == Key(bus, name) ==> steps[i].ok)
    requires COLON !in bus && COLON !in name
    ensures (bus, name) in After(steps).0 <==> LastPresent(steps, Key(bus, name))
    decreases |steps|
  {
    if steps != [] {
      var last := steps[|steps| - 1];
      SplitKey(bus, name);
      if last.value.Some? {
        var r := last.value.value;
        if last.key == Key(bus, name) {
          KeyNames(bus, name, r.busName, r.name);
        }
      } else if |Split(last.key)| == 2 {
        SplitJoins(last.key);
      }
      TableFollowsReflector(steps[..|steps| - 1], bus, name);
    }
  }

  lemma {:induction false} SplitJoins(key: string)
    requires |Split(key)| == 2
    ensures Key(Split(key)[0], Split(key)[1]) == key
    decreases |key|
  {
    if key[0] == COLON {
      SplitCounts(key[1..]);
      SplitPlain(key[1..]);
      assert [COLON] + key[1..] == key;
    } else {
      SplitJoins(key[1..]);
      assert [key[0]] + key[1..] == key;
    }
  }

  /** Some executor was created for the rule. */
  ghost predicate EverCreated(steps: seq<Step>, bus: string, name: string)
  {
    exists i :: 0 <= i < |steps| && steps[i].ok && steps[i].value.Some?
      && steps[i].value.value.busName == bus && steps[i].value.value.name == name
  }

  /** A rule with a colon in one of its names is never taken out of the table again: over every run
      it has an executor exactly if it ever got one, whether it is still there or not. */
  lemma {:induction false} ColonsStay(steps: seq<Step>, bus: string, name: string)
    requires COLON in bus || COLON in name
    ensures (bus, name) in After(steps).0 <==> EverCreated(steps, bus, name)
    decreases |steps|
  {
    if steps != [] {
      var init, last := steps[..|steps| - 1], steps[|steps| - 1];
      ColonsStay(init, bus, name);
      assert EverCreated(init, bus, name) ==> EverCreated(steps, bus, name);
      if last.value.None? && |Split(last.key)| == 2 {
        SplitPartsPlain(last.key);
      }
    }
  }

  lemma {:induction false} SplitPartsPlain(s: string)
    ensures forall i :: 0 <= i < |Split(s)| ==> COLON !in Split(s)[i]
  {
    if s != [] {
      SplitPartsPlain(s[1..]);
    }
  }

  // ---------- the published maps ----------

  /** An inner map: rule names to executors. */
  class Bindings {
    var executors: map<string, nat>

    constructor (executors: map<string, nat>)
      ensures this.executors == executors
    {
      this.executors := executors;
    }
  }

  type Nested = map<string, map<string, nat>>

  /** The map of maps and the table say the same. */
  ghost predicate Flat(inner: Nested, table: Table)
  {
    && (forall bus, name :: (bus, name) in table <==> bus in inner && name in inner[bus])
    && (forall bus, name :: (bus, name) in table ==> table[(bus, name)] == inner[bus][name])
  }

  function InnerOf(inner: Nested, bus: string): map<string, nat>
  {
    if bus in inner then inner[bus] else map[]
  }

  lemma FlatAdd(inner: Nested, table: Table, bus: string, name: string, e: nat)
    requires Flat(inner, table)
    ensures Flat(inner[bus := InnerOf(inner, bus)[name := e]], table[(bus, name) := e])
  {
  }

  lemma FlatRemove(inner: Nested, table: Table, bus: string, name: string)
    requires Flat(inner, table) && bus in inner
    ensures Flat(inner[bus := inner[bus] - {name}], table - {(bus, name)})
  {
  }

  /** Executors in the table are open, in one place each, and all others were closed once. */
  ghost predicate OncePerPlace(table: Table, closes: seq<nat>)
  {
    && (forall p, q :: p in table && q in table && table[p] == table[q] ==> p == q)
    && (forall p :: p in table ==> table[p] < |closes|)
    && (forall n :: 0 <= n < |closes| ==> closes[n] == if n in table.Values then 0 else 1)
  }

  lemma Opening(table: Table, closes: seq<nat>, p: (string, string))
    requires OncePerPlace(table, closes) && p !in table
    ensures OncePerPlace(table[p := |closes|], closes + [0])
  {
    Maps.ValuesAfterInsert(table, p, |closes|);
  }

  lemma Closing(table: Table, closes: seq<nat>, p: (string, string))
    requires OncePerPlace(table, closes) && p in table
    ensures OncePerPlace(table - {p}, closes[table[p] := closes[table[p]] + 1])
  {
    Maps.ValuesAfterRemove(table, p);
    assert table[p] in table.Values;
  }

  /** Of all executors just this one has been closed, for the first time. */
  ghost predicate ClosedOnce(e: nat, was: seq<nat>, closes: seq<nat>)
  {
    e < |was| && was[e] == 0 && closes == was[e := 1]
  }

  ghost predicate Sound(inner: Nested, table: Table, closes: seq<nat>, next: nat)
  {
    Flat(inner, table) && |closes| == next && OncePerPlace(table, closes)
  }

  lemma Adding(inner: Nested, table: Table, closes: seq<nat>, next: nat, bus: string, name: string)
    requires Sound(inner, table, closes, next) && (bus, name) !in table
    ensures Sound(inner[bus := InnerOf(inner, bus)[name := next]], table[(bus, name) := next], closes + [0], next + 1)
  {
    Opening(table, closes, (bus, name));
    FlatAdd(inner, table, bus, name, next);
  }

  lemma Removing(inner: Nested, table: Table, closes: seq<nat>, next: nat, bus: string, name: string)
    requires Sound(inner, table, closes, next) && (bus, name) in table
    ensures
      var e := table[(bus, name)];
      Sound(inner[bus := inner[bus] - {name}], table - {(bus, name)}, closes[e := closes[e] + 1], next)
  {
    Closing(table, closes, (bus, name));
    FlatRemove(inner, table, bus, name);
  }

  lemma SoundAt(inner: Nested, table: Table, closes: seq<nat>, next: nat, bus: string, name: string)
    requires Sound(inner, table, closes, next)
    ensures |closes| == next
    ensures (bus, name) in table <==> bus in inner && name in inner[bus]
    ensures (bus, name) in table ==> inner[bus][name] == table[(bus, name)] < |closes|
    ensures (bus, name) in table ==> closes[table[(bus, name)]] == 0
  {
  }

  class RuleTable {
    var executors: map<string, Bindings>
    var next: nat
    ghost var inner: Nested  // the contents of the current inner maps
    ghost var table: Table
    ghost var published: set<Bindings>  // every inner map that a reader may still hold
    ghost var closes: seq<nat>  // how often each executor was closed

    ghost predicate Mirrored()
      reads this, executors.Values
    {
      && executors.Values <= published && executors.Keys == inner.Keys
      && forall bus :: bus in executors ==> executors[bus].executors == inner[bus]
    }

    ghost predicate Valid()
      reads this, executors.Values
    {
      Mirrored() && Sound(inner, table, closes, next)
    }

    constructor ()
      ensures Valid() && table == map[] && published == {}
    {
      executors, next, inner, table, published, closes := map[], 0, map[], map[], {}, [];
    }

    method GetExecutors(bus: string) returns (b: Option<Bindings>)
      requires Valid()
      ensures b.Some? ==> b.value in published
      ensures forall name :: (b.Some? && name in b.value.executors) <==> (bus, name) in table
      ensures forall name :: b.Some? && name in b.value.executors ==> b.value.executors[name] == table[(bus, name)]
    {
      b := if bus in executors then Some(executors[bus]) else None;
    }

    /** Publishes a new inner map for the bus. */
    method Publish(bus: string, m: map<string, nat>)
      requires Mirrored()
      modifies `executors, `published, `inner
      ensures Mirrored() && inner == old(inner)[bus := m]
      ensures old(published) <= published && fresh(published - old(published))
    {
      var b := new Bindings(m);
      executors := executors[bus := b];
      inner := inner[bus := m];
      published := published + {b};
    }

    /** updateRule: the executor of a known rule is updated in place, a new rule gets an executor. */
    method UpdateRule(r: Rule, ok: bool) returns (err: bool)
      requires Valid()
      modifies this
      ensures Valid() && old(published) <= published && fresh(published - old(published))
      ensures table == Handled(old(table), old(next), Key(r.busName, r.name), Some(r), ok)
      ensures next == NextNumber(old(table), old(next), Step(Key(r.busName, r.name), Some(r), ok))
      ensures err == !ok
    {
      hide Sound, Split;
      SoundAt(inner, table, closes, next, r.busName, r.name);
      var rulesPerBus := if r.busName in executors then executors[r.busName].executors else map[];
      if r.name in rulesPerBus || !ok {
        return !ok;
      }
      Adding(inner, table, closes, next, r.busName, r.name);
      Publish(r.busName, rulesPerBus[r.name := next]);
      table := table[(r.busName, r.name) := next];
      next, closes := next + 1, closes + [0];
      err := false;
    }

    method Remove(bus: string, name: string)
      requires Valid() && (bus, name) in table
      modifies this
      ensures Valid() && old(published) <= published && fresh(published - old(published))
      ensures table == old(table) - {(bus, name)} && next == old(next)
      ensures ClosedOnce(old(table)[(bus, name)], old(closes), closes)
    {
      hide Sound;
      SoundAt(inner, table, closes, next, bus, name);
      var rulesPerBus := executors[bus].executors;
      Removing(inner, table, closes, next, bus, name);
      Publish(bus, rulesPerBus - {name});
      table := table - {(bus, name)};
      closes := closes[rulesPerBus[name] := closes[rulesPerBus[name]] + 1];
    }

    /** deleteRule: takes the rule out of a copy of the inner map and closes its executor. */
    method DeleteRule(key: string) returns (err: bool)
      requires Valid()
      modifies this
      ensures Valid() && old(published) <= published && fresh(published - old(published))
      ensures table == Handled(old(table), old(next), key, None, true) && next == old(next)
      ensures err <==> |Split(key)| != 2
      ensures table == old(table) ==> closes == old(closes)
      ensures table != old(table) ==> exists p :: p in old(table) && ClosedOnce(old(table)[p], old(closes), closes)
    {
      var names := Split(key);
      if |names| != 2 {
        return true;
      }
      var bus, name := names[0], names[1];
      if bus in executors && name in executors[bus].executors {
        Remove(bus, name);
        assert (bus, name) in old(table) && (bus, name) !in table;
      } else {
        assert table - {(bus, name)} == table;
      }
      err := false;
    }

    /** One step of the handler. Inner maps that were published before are not in its frame: a
        reader that holds one sees the same bindings for ever. */
    method Handle(key: string, value: Option<Rule>, ok: bool) returns (err: bool)
      requires Valid() && (value.Some? ==> key == Key(value.value.busName, value.value.name))
      modifies this
      ensures Valid() && old(published) <= published && fresh(published - old(published))
      ensures table == Handled(old(table), old(next), key, value, ok)
      ensures next == NextNumber(old(table), old(next), Step(key, value, ok))
      ensures err <==> if value.Some? then !ok else |Split(key)| != 2
    {
      if value.Some? {
        err := UpdateRule(value.value, ok);
      } else {
        err := DeleteRule(key);
      }
    }
  }
}
