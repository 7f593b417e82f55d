/**
 The pattern compiler: NewMatcher and parsePattern turn a JSON tree into a closure over event
 fields. `Means` says recursively when a pattern matches an event.
 */
module Patterns {
  import opened Wrappers
  import opened Events
  import opened Operators
  import opened PatternPaths
  import opened Reorderings

  /** The closures, by their captured variables. */
  datatype EventMatchFunc =
    | FieldFn(path: Slice, expected: Json)
    | ListFn(path: Slice, values: set<Json>, orFcs: seq<seq<MatchFunc>>)
    | AllFn(fcs: seq<EventMatchFunc>)

  /** An empty pattern never matches; other closures come with the memory their paths are in. */
  datatype Matcher = Never | Matcher(mem: Memory, fc: EventMatchFunc)

  // ---------- what patterns mean ----------

  /** Some listed value occurs in the field, or some non-empty item's operators all accept it. */
  ghost predicate ListMeans(cidr: CidrParser, items: seq<Json>, val: Val)
  {
    || Listed(items, val)
    || exists i :: 0 <= i < |items| && items[i].Obj? && items[i].fields != [] && AllAccept(cidr, items[i].fields, val)
  }

  ghost predicate AllAccept(cidr: CidrParser, fields: seq<Field>, val: Val)
  {
    forall k :: 0 <= k < |fields| ==> OpMeans(cidr, fields[k].key, fields[k].val, val)
  }

  /** An object demands all of its fields; a leaf looks its path up, and fails on malformed data. */
  ghost predicate Means(cidr: CidrParser, p: Json, path: seq<string>, e: Event)
    decreases p
  {
    match p
    case Obj(fields) => forall k :: 0 <= k < |fields| ==> Means(cidr, fields[k].val, path + [fields[k].key], e)
    case List(items) => FieldAt(e, path).Value? && ListMeans(cidr, items, FieldAt(e, path).v)
    case _ => FieldAt(e, path) == Value(Data(p))
  }

  /** The pattern as a whole: an empty one matches nothing. */
  ghost predicate Matches(cidr: CidrParser, pattern: seq<Field>, e: Event)
  {
    pattern != [] && Means(cidr, Obj(pattern), [], e)
  }

  /** The patterns that can be compiled. */
  ghost predicate Good(cidr: CidrParser, p: Json)
    decreases p
  {
    match p
    case Obj(fields) => forall k :: 0 <= k < |fields| ==> Good(cidr, fields[k].val)
    case List(items) => forall i :: 0 <= i < |items| ==> GoodItem(cidr, items[i])
    case _ => p.Str? || p.Num?
  }

  /** Compiling the pattern panics: the first thing in it that cannot be compiled does so. */
  ghost predicate PatternPanics(cidr: CidrParser, p: Json)
    decreases p
  {
    match p
    case Obj(fields) =>
      exists k :: 0 <= k < |fields| && PatternPanics(cidr, fields[k].val)
        && forall l :: 0 <= l < k ==> Good(cidr, fields[l].val)
    case List(items) => ItemsPanic(cidr, items)
    case _ => false
  }

  /** Only lists inside lists make a pattern panic. */
  lemma {:induction false} PatternPanicsOnlyIfNested(cidr: CidrParser, p: Json)
    requires PatternPanics(cidr, p)
    ensures ListsNest(p)
    decreases p
  {
    if p.Obj? {
      var k :| 0 <= k < |p.fields| && PatternPanics(cidr, p.fields[k].val);
      PatternPanicsOnlyIfNested(cidr, p.fields[k].val);
    } else {
      ItemsPanicOnlyIfNested(cidr, p.items);
    }
  }

  /** A list inside a list panics where it is the first thing that cannot be compiled, as here; behind
      something else that cannot, and where no values are listed, the pattern is rejected. */
  lemma PanickingPattern(cidr: CidrParser, key: string, inner: seq<Json>)
    ensures PatternPanics(cidr, Obj([Field(key, List([List(inner)]))]))
    ensures !PatternPanics(cidr, Obj([Field("bad", Null), Field(key, List([List(inner)]))]))
    ensures !PatternPanics(cidr, Obj([Field(key, List([Obj([Field("prefix", List([List(inner)]))])]))]))
  {
    var nested := List([List(inner)]);
    assert nested.items[0] == List(inner) && ItemPanics(cidr, nested.items[0]);
    var first := [Field(key, nested)];
    assert first[0].val == nested && PatternPanics(cidr, first[0].val);
    var second := [Field("bad", Null), Field(key, nested)];
    assert !Good(cidr, second[0].val) && !PatternPanics(cidr, second[0].val);
    var op := [Field("prefix", nested)];
    assert !Panics(cidr, op[0].key, op[0].val);
    var items := [Obj(op)];
    assert forall i :: 0 <= i < |items| ==> !ItemPanics(cidr, items[i]);
    var third := [Field(key, List(items))];
    assert !PatternPanics(cidr, third[0].val);
  }

  /** Compiling the pattern panics in some order of its objects. */
  ghost predicate PatternMayPanic(cidr: CidrParser, p: Json)
    decreases p
  {
    match p
    case Obj(fields) => exists k :: 0 <= k < |fields| && PatternMayPanic(cidr, fields[k].val)
    case List(items) => ItemsMayPanic(cidr, items)
    case _ => false
  }

  lemma {:induction false} PatternPanicsOnlyIfMay(cidr: CidrParser, p: Json, q: Json)
    requires Reorder(p, q) && PatternPanics(cidr, q)
    ensures PatternMayPanic(cidr, p)
    decreases p
  {
    if p.Obj? {
      var j :| 0 <= j < |q.fields| && PatternPanics(cidr, q.fields[j].val);
      var i := TwinFor(p.fields, q.fields, j);
      PatternPanicsOnlyIfMay(cidr, p.fields[i].val, q.fields[j].val);
    } else {
      ItemsPanicOnlyIfMay(cidr, p.items, q.items);
    }
  }

  lemma {:induction false} PanickingPatternOrder(cidr: CidrParser, p: Json) returns (q: Json)
    requires PatternMayPanic(cidr, p) && Distinct(p)
    ensures Reorder(p, q) && Distinct(q) && PatternPanics(cidr, q)
    decreases p
  {
    if p.Obj? {
      var k :| 0 <= k < |p.fields| && PatternMayPanic(cidr, p.fields[k].val);
      var v := PanickingPatternOrder(cidr, p.fields[k].val);
      ReorderExchange(p, 0, k, v);
      ExchangeKeepsDistinct(p.fields, 0, k, v);
      q := Obj(Exchanged(p.fields, 0, k, v));
      assert PatternPanics(cidr, q.fields[0].val);
    } else {
      var others := PanickingItems(cidr, p.items);
      q := List(others);
    }
  }

  /** Whether something else is rejected before it panics depends on the order of the objects; it
      panics in some order exactly if some list in it does, or some operator in one of its lists. */
  lemma PanicsInSomeOrder(cidr: CidrParser, p: Json)
    requires Distinct(p)
    ensures (exists q :: Reorder(p, q) && Distinct(q) && PatternPanics(cidr, q)) <==> PatternMayPanic(cidr, p)
  {
    if q :| Reorder(p, q) && Distinct(q) && PatternPanics(cidr, q) {
      PatternPanicsOnlyIfMay(cidr, p, q);
    }
    if PatternMayPanic(cidr, p) {
      var q := PanickingPatternOrder(cidr, p);
      assert Reorder(p, q) && Distinct(q) && PatternPanics(cidr, q);
    }
  }

  ghost predicate RiskyLookup(e: Event, path: seq<string>)
  {
    var got := FieldAt(e, path);
    got.Panic? || (got.Value? && !Tame(got.v))
  }

  /** Some lookup of the pattern has a negative index, or yields an object or a list with a list or
      object in it for a list of the pattern. A single value is compared with anything safely. */
  ghost predicate RiskyAt(p: Json, path: seq<string>, e: Event)
    decreases p
  {
    if p.Obj? then exists k :: 0 <= k < |p.fields| && RiskyAt(p.fields[k].val, path + [p.fields[k].key], e)
    else if p.List? then RiskyLookup(e, path)
    else FieldAt(e, path).Panic?
  }

  lemma ListInAnyOrder(cidr: CidrParser, items: seq<Json>, others: seq<Json>, val: Val)
    requires Reorder(List(items), List(others))
    ensures ListMeans(cidr, items, val) == ListMeans(cidr, others, val)
  {
    ListedInAnyOrder(items, others, val);
    forall i | 0 <= i < |items| && items[i].Obj?
      ensures others[i].Obj? && |items[i].fields| == |others[i].fields|
      ensures AllAccept(cidr, items[i].fields, val) == AllAccept(cidr, others[i].fields, val)
    {
      FieldsInAnyOrder(cidr, items[i].fields, others[i].fields, val);
      CoveredAccept(cidr, items[i].fields, others[i].fields, val);
      CoveredAccept(cidr, others[i].fields, items[i].fields, val);
    }
    assert forall i :: 0 <= i < |items| ==> Reorder(items[i], others[i]);
  }

  lemma CoveredAccept(cidr: CidrParser, fields: seq<Field>, others: seq<Field>, val: Val)
    requires Covered(fields, others, Accepting(cidr, val))
    ensures AllAccept(cidr, others, val) ==> AllAccept(cidr, fields, val)
  {
    forall k | 0 <= k < |fields| && AllAccept(cidr, others, val)
      ensures OpMeans(cidr, fields[k].key, fields[k].val, val)
    {
      assert CoveredAt(fields[k], others, Accepting(cidr, val));
    }
  }

  /** The order in which objects are ranged over does not matter: neither that of the pattern's own
      fields, nor that of the operators in its lists. */
  lemma {:induction false} OrderIsIrrelevant(cidr: CidrParser, p: Json, q: Json, path: seq<string>, e: Event)
    requires Reorder(p, q)
    ensures Means(cidr, p, path, e) == Means(cidr, q, path, e)
    ensures RiskyAt(p, path, e) == RiskyAt(q, path, e)
    ensures Good(cidr, p) == Good(cidr, q)
    decreases p
  {
    if p.Obj? {
      forall i | 0 <= i < |p.fields|
        ensures Means(cidr, q, path, e) ==> Means(cidr, p.fields[i].val, path + [p.fields[i].key], e)
        ensures RiskyAt(p.fields[i].val, path + [p.fields[i].key], e) ==> RiskyAt(q, path, e)
        ensures Good(cidr, q) ==> Good(cidr, p.fields[i].val)
      {
        var j := TwinOf(p.fields, q.fields, i);
        OrderIsIrrelevant(cidr, p.fields[i].val, q.fields[j].val, path + [p.fields[i].key], e);
      }
      forall j | 0 <= j < |q.fields|
        ensures Means(cidr, p, path, e) ==> Means(cidr, q.fields[j].val, path + [q.fields[j].key], e)
        ensures RiskyAt(q.fields[j].val, path + [q.fields[j].key], e) ==> RiskyAt(p, path, e)
        ensures Good(cidr, p) ==> Good(cidr, q.fields[j].val)
      {
        var i := TwinFor(p.fields, q.fields, j);
        OrderIsIrrelevant(cidr, p.fields[i].val, q.fields[j].val, path + [p.fields[i].key], e);
      }
    } else if p.List? {
      forall val {
        ListInAnyOrder(cidr, p.items, q.items, val);
      }
      forall i | 0 <= i < |p.items|
        ensures GoodItem(cidr, p.items[i]) == GoodItem(cidr, q.items[i])
      {
        GoodItemInAnyOrder(cidr, p.items[i], q.items[i]);
      }
    }
  }

  // ---------- what compiled closures answer ----------

  ghost predicate AllHold(fcs: seq<MatchFunc>, val: Val)
  {
    forall k :: 0 <= k < |fcs| ==> Holds(fcs[k], val)
  }

  ghost predicate ListHolds(values: set<Json>, orFcs: seq<seq<MatchFunc>>, val: Val)
  {
    || Found(values, val)
    || exists i :: 0 <= i < |orFcs| && orFcs[i] != [] && AllHold(orFcs[i], val)
  }

  ghost predicate InMemory(fc: EventMatchFunc, mem: Memory)
    decreases fc
  {
    match fc
    case AllFn(fcs) => forall k :: 0 <= k < |fcs| ==> InMemory(fcs[k], mem)
    case _ => IsSlice(mem, fc.path)
  }

  ghost predicate Answers(fc: EventMatchFunc, mem: Memory, e: Event)
    requires InMemory(fc, mem)
    decreases fc
  {
    match fc
    case FieldFn(path, expected) => FieldAt(e, Read(mem, path)) == Value(Data(expected))
    case ListFn(path, values, orFcs) =>
      var got := FieldAt(e, Read(mem, path));
      got.Value? && ListHolds(values, orFcs, got.v)
    case AllFn(fcs) => forall k :: 0 <= k < |fcs| ==> Answers(fcs[k], mem, e)
  }

  /** Some lookup of the closure could panic on this event. */
  ghost predicate Risky(fc: EventMatchFunc, mem: Memory, e: Event)
    requires InMemory(fc, mem)
    decreases fc
  {
    match fc
    case AllFn(fcs) => exists k :: 0 <= k < |fcs| && Risky(fcs[k], mem, e)
    case ListFn(path, _, _) => RiskyLookup(e, Read(mem, path))
    case FieldFn(path, _) => FieldAt(e, Read(mem, path)).Panic?
  }

  // ---------- when a call crashes ----------

  /** An operator crashes before one is reached that does not hold. */
  ghost predicate AllCrash(order: Order, fcs: seq<MatchFunc>, val: Val)
  {
    exists k :: 0 <= k < |fcs| && Crashes(order, fcs[k], val)
      && forall l :: 0 <= l < k ==> !Crashes(order, fcs[l], val) && Holds(fcs[l], val)
  }

  /** The field is looked up with a crash, or is not listed and some item crashes before one is
      reached whose operators all hold. */
  ghost predicate ListCrashes(order: Order, values: set<Json>, orFcs: seq<seq<MatchFunc>>, val: Val)
  {
    || LookUpCrashes(values, val)
    || (!Found(values, val)
        && exists i :: 0 <= i < |orFcs| && AllCrash(order, orFcs[i], val)
             && forall j :: 0 <= j < i ==>
                  !AllCrash(order, orFcs[j], val) && (orFcs[j] == [] || !AllHold(orFcs[j], val)))
  }

  ghost predicate EventCrashes(order: Order, fc: EventMatchFunc, mem: Memory, e: Event)
    requires InMemory(fc, mem)
    decreases fc
  {
    match fc
    case FieldFn(path, _) => FieldAt(e, Read(mem, path)).Panic?
    case ListFn(path, values, orFcs) =>
      var got := FieldAt(e, Read(mem, path));
      got.Panic? || (got.Value? && ListCrashes(order, values, orFcs, got.v))
    case AllFn(fcs) =>
      exists k :: 0 <= k < |fcs| && EventCrashes(order, fcs[k], mem, e)
        && forall l :: 0 <= l < k ==> !EventCrashes(order, fcs[l], mem, e) && Answers(fcs[l], mem, e)
  }

  lemma {:induction false} CrashesOnlyIfRisky(order: Order, fc: EventMatchFunc, mem: Memory, e: Event)
    requires InMemory(fc, mem) && EventCrashes(order, fc, mem, e)
    ensures Risky(fc, mem, e)
    decreases fc
  {
    match fc
    case FieldFn(_, _) =>
    case ListFn(path, _, orFcs) =>
      var got := FieldAt(e, Read(mem, path));
      if got.Value? && Tame(got.v) {
        forall i, k | 0 <= i < |orFcs| && 0 <= k < |orFcs[i]|
          ensures !Crashes(order, orFcs[i][k], got.v)
        {
          TameNeverCrashes(order, orFcs[i][k], got.v);
        }
      }
    case AllFn(fcs) =>
      var k :| 0 <= k < |fcs| && EventCrashes(order, fcs[k], mem, e);
      CrashesOnlyIfRisky(order, fcs[k], mem, e);
  }

  /** Some lookup or list of the closure crashes by itself. */
  ghost predicate SomeLeafCrashes(order: Order, fc: EventMatchFunc, mem: Memory, e: Event)
    requires InMemory(fc, mem)
    decreases fc
  {
    match fc
    case AllFn(fcs) => exists k :: 0 <= k < |fcs| && SomeLeafCrashes(order, fcs[k], mem, e)
    case _ => EventCrashes(order, fc, mem, e)
  }

  /** The closures of every object are called in another order. */
  ghost predicate Shuffled(fc: EventMatchFunc, other: EventMatchFunc)
    decreases fc, 0
  {
    match fc
    case AllFn(fcs) =>
      && other.AllFn? && |fcs| == |other.fcs|
      && (forall k {:trigger ShuffledTo(fcs[k], other.fcs)} :: 0 <= k < |fcs| ==> ShuffledTo(fcs[k], other.fcs))
      && (forall l {:trigger ShuffledFrom(fcs, other.fcs[l])} :: 0 <= l < |other.fcs| ==>
            ShuffledFrom(fcs, other.fcs[l]))
    case _ => other == fc
  }

  ghost predicate ShuffledTo(fc: EventMatchFunc, others: seq<EventMatchFunc>)
    decreases fc, 1
  {
    exists l :: 0 <= l < |others| && Shuffled(fc, others[l])
  }

  ghost predicate ShuffledFrom(fcs: seq<EventMatchFunc>, other: EventMatchFunc)
    decreases fcs
  {
    exists k :: 0 <= k < |fcs| && Shuffled(fcs[k], other)
  }

  lemma {:induction false} ShuffledReflexive(fc: EventMatchFunc)
    ensures Shuffled(fc, fc)
    decreases fc
  {
    if fc.AllFn? {
      forall k | 0 <= k < |fc.fcs|
        ensures ShuffledTo(fc.fcs[k], fc.fcs) && ShuffledFrom(fc.fcs, fc.fcs[k])
      {
        ShuffledReflexive(fc.fcs[k]);
      }
    }
  }

  lemma {:induction false} ShuffledInMemory(fc: EventMatchFunc, other: EventMatchFunc, mem: Memory)
    requires Shuffled(fc, other) && InMemory(fc, mem)
    ensures InMemory(other, mem)
    decreases fc
  {
    if fc.AllFn? {
      forall l | 0 <= l < |other.fcs|
        ensures InMemory(other.fcs[l], mem)
      {
        assert ShuffledFrom(fc.fcs, other.fcs[l]);
        var k :| 0 <= k < |fc.fcs| && Shuffled(fc.fcs[k], other.fcs[l]);
        ShuffledInMemory(fc.fcs[k], other.fcs[l], mem);
      }
    }
  }

  lemma {:induction false} CrashIsALeafs(
    order: Order, fc: EventMatchFunc, other: EventMatchFunc, mem: Memory, e: Event)
    requires Shuffled(fc, other) && InMemory(fc, mem) && InMemory(other, mem) && EventCrashes(order, other, mem, e)
    ensures SomeLeafCrashes(order, fc, mem, e)
    decreases fc
  {
    if fc.AllFn? {
      var l :| 0 <= l < |other.fcs| && EventCrashes(order, other.fcs[l], mem, e);
      assert ShuffledFrom(fc.fcs, other.fcs[l]);
      var k :| 0 <= k < |fc.fcs| && Shuffled(fc.fcs[k], other.fcs[l]);
      CrashIsALeafs(order, fc.fcs[k], other.fcs[l], mem, e);
    }
  }

  /** The closure that crashes is called first, in every object on the way. */
  lemma {:induction false} LeafFirst(order: Order, fc: EventMatchFunc, mem: Memory, e: Event)
    returns (other: EventMatchFunc)
    requires InMemory(fc, mem) && SomeLeafCrashes(order, fc, mem, e)
    ensures Shuffled(fc, other) && InMemory(other, mem) && EventCrashes(order, other, mem, e)
    decreases fc
  {
    other := fc;
    if fc.AllFn? {
      var k :| 0 <= k < |fc.fcs| && SomeLeafCrashes(order, fc.fcs[k], mem, e);
      var first := LeafFirst(order, fc.fcs[k], mem, e);
      ShuffledExchange(fc.fcs, k, first);
      other := AllFn(ToFront(fc.fcs, k, first));
      ShuffledInMemory(fc, other, mem);
      assert EventCrashes(order, other.fcs[0], mem, e);
    }
  }

  function ToFront(fcs: seq<EventMatchFunc>, k: nat, first: EventMatchFunc): seq<EventMatchFunc>
    requires k < |fcs|
  {
    fcs[k := fcs[0]][0 := first]
  }

  lemma ShuffledExchange(fcs: seq<EventMatchFunc>, k: nat, first: EventMatchFunc)
    requires k < |fcs| && Shuffled(fcs[k], first)
    ensures Shuffled(AllFn(fcs), AllFn(ToFront(fcs, k, first)))
  {
    var others := ToFront(fcs, k, first);
    forall i | 0 <= i < |fcs|
      ensures ShuffledTo(fcs[i], others) && ShuffledFrom(fcs, others[i])
    {
      var l := if i == 0 then k else if i == k then 0 else i;
      ShuffledReflexive(fcs[i]);
      ShuffledReflexive(fcs[l]);
      assert Shuffled(fcs[i], others[l]) && Shuffled(fcs[l], others[i]);
    }
  }

  /** Whether a call crashes may depend on the order in which the pattern was ranged over; it does in
      some order exactly if one of its leaves crashes. */
  lemma CrashesInSomeOrder(order: Order, fc: EventMatchFunc, mem: Memory, e: Event)
    requires InMemory(fc, mem)
    ensures (exists other :: Shuffled(fc, other) && InMemory(other, mem) && EventCrashes(order, other, mem, e))
            <==> SomeLeafCrashes(order, fc, mem, e)
  {
    if other :| Shuffled(fc, other) && InMemory(other, mem) && EventCrashes(order, other, mem, e) {
      CrashIsALeafs(order, fc, other, mem, e);
    }
    if SomeLeafCrashes(order, fc, mem, e) {
      var other := LeafFirst(order, fc, mem, e);
      assert Shuffled(fc, other) && InMemory(other, mem) && EventCrashes(order, other, mem, e);
    }
  }

  // ---------- calling closures ----------

  method RunAll(order: Order, fcs: seq<MatchFunc>, val: Val) returns (r: Outcome)
    requires Rearranges(order)
    ensures r.Crash? <==> AllCrash(order, fcs, val)
    ensures r.Is? ==> r.res == AllHold(fcs, val)
  {
    var res := true;
    for k := 0 to |fcs|
      invariant res && forall l :: 0 <= l < k ==> !Crashes(order, fcs[l], val) && Holds(fcs[l], val)
    {
      var mr := Run(order, fcs[k], val);
      if mr.Crash? {
        return Crash;
      }
      if !mr.res {
        res := false;
        break;
      }
    }
    r := Is(res);
  }

  method RunList(order: Order, values: set<Json>, orFcs: seq<seq<MatchFunc>>, val: Val) returns (r: Outcome)
    requires Rearranges(order)
    ensures r.Crash? <==> ListCrashes(order, values, orFcs, val)
    ensures r.Is? ==> r.res == ListHolds(values, orFcs, val)
  {
    var found := LookUp(values, val);
    if found.Crash? || found.res {
      return found;
    }
    for i := 0 to |orFcs|
      invariant forall j :: 0 <= j < i ==>
        !AllCrash(order, orFcs[j], val) && (orFcs[j] == [] || !AllHold(orFcs[j], val))
    {
      if |orFcs[i]| == 0 {
        continue;
      }
      var all := RunAll(order, orFcs[i], val);
      if all.Crash? || all.res {
        return all;
      }
    }
    r := Is(false);
  }

  method RunEvent(order: Order, fc: EventMatchFunc, mem: Memory, e: Event) returns (r: Outcome)
    requires Rearranges(order) && InMemory(fc, mem)
    ensures r.Crash? <==> EventCrashes(order, fc, mem, e)
    ensures r.Is? ==> r.res == Answers(fc, mem, e)
    decreases fc
  {
    match fc
    case FieldFn(path, expected) =>
      var got := GetFieldByPath(e, Read(mem, path));
      r := if got.Panic? then Crash else if got.DataError? then Is(false) else Is(got.v == Data(expected));
    case ListFn(path, values, orFcs) =>
      var got := GetFieldByPath(e, Read(mem, path));
      if !got.Value? {
        return if got.Panic? then Crash else Is(false);
      }
      r := RunList(order, values, orFcs, got.v);
    case AllFn(fcs) =>
      for k := 0 to |fcs|
        invariant forall l :: 0 <= l < k ==> !EventCrashes(order, fcs[l], mem, e) && Answers(fcs[l], mem, e)
      {
        var mr := RunEvent(order, fcs[k], mem, e);
        if mr.Crash? || !mr.res {
          return mr;
        }
      }
      r := Is(true);
  }

  // ---------- compiling ----------

  ghost function Slices(fc: EventMatchFunc): seq<Slice>
    decreases fc
  {
    match fc
    case AllFn(fcs) => SlicesOf(fcs)
    case _ => [fc.path]
  }

  ghost function SlicesOf(fcs: seq<EventMatchFunc>): seq<Slice>
    decreases fcs
  {
    if fcs == [] then [] else SlicesOf(fcs[..|fcs| - 1]) + Slices(fcs[|fcs| - 1])
  }

  /** fc has the shape of p, and its leaves judge values as p does. */
  ghost predicate Compiled(cidr: CidrParser, fc: EventMatchFunc, p: Json)
    decreases p
  {
    match p
    case Obj(fields) =>
      && fc.AllFn? && |fc.fcs| == |fields|
      && forall k :: 0 <= k < |fields| ==> Compiled(cidr, fc.fcs[k], fields[k].val)
    case List(items) => fc.ListFn? && forall val :: ListHolds(fc.values, fc.orFcs, val) == ListMeans(cidr, items, val)
    case _ => fc.FieldFn? && fc.expected == p
  }

  /** One more item of a list: a value, or an object of operators. */
  lemma ListMeansNext(cidr: CidrParser, items: seq<Json>, item: Json, val: Val)
    ensures ListMeans(cidr, items + [item], val) <==>
              || ListMeans(cidr, items, val)
              || (Hashable(item) && ValueIn(item, val))
              || (item.Obj? && item.fields != [] && AllAccept(cidr, item.fields, val))
  {
    var all := items + [item];
    assert all[|items|] == item;
    assert forall i :: 0 <= i < |items| ==> all[i] == items[i];
  }

  lemma ListHoldsValue(values: set<Json>, orFcs: seq<seq<MatchFunc>>, item: Json, val: Val)
    ensures ListHolds(values + {item}, orFcs, val) <==> ListHolds(values, orFcs, val) || ValueIn(item, val)
  {
  }

  lemma ListHoldsNext(values: set<Json>, orFcs: seq<seq<MatchFunc>>, andFcs: seq<MatchFunc>, val: Val)
    ensures ListHolds(values, orFcs + [andFcs], val) <==>
              ListHolds(values, orFcs, val) || (andFcs != [] && AllHold(andFcs, val))
  {
    var all := orFcs + [andFcs];
    assert all[|orFcs|] == andFcs;
    assert forall i :: 0 <= i < |orFcs| ==> all[i] == orFcs[i];
  }

  /** The operators of one object in a list. */
  method NewAnd(cidr: CidrParser, fields: seq<Field>) returns (r: Built<seq<MatchFunc>>)
    requires Distinct(Obj(fields))
    ensures r.Built? <==> AllGood(cidr, fields)
    ensures r.Built? ==> |r.fc| == |fields| && forall val :: AllHold(r.fc, val) == AllAccept(cidr, fields, val)
    ensures r.Panicked? <==> SomePanics(cidr, fields)
  {
    var andFcs := [];
    for k := 0 to |fields|
      invariant |andFcs| == k
      invariant forall l :: 0 <= l < k ==> Same(cidr, andFcs[l], fields[l])
      invariant forall l :: 0 <= l < k ==>
        GoodOp(cidr, fields[l].key, fields[l].val) && !Panics(cidr, fields[l].key, fields[l].val)
    {
      var f := New(cidr, fields[k].key, fields[k].val);
      if !f.Built? {
        return if f.Panicked? then Panicked else Rejected;
      }
      andFcs := andFcs + [f.fc];
    }
    forall val
      ensures AllHold(andFcs, val) == AllAccept(cidr, fields, val)
    {
      assert forall k :: 0 <= k < |fields| ==> Same(cidr, andFcs[k], fields[k]);
    }
    r := Built(andFcs);
  }

  lemma NothingListed(cidr: CidrParser)
    ensures forall val :: !ListHolds({}, [], val) && !ListMeans(cidr, [], val)
  {
  }

  method NewList(cidr: CidrParser, items: seq<Json>, path: Slice) returns (r: Built<EventMatchFunc>)
    requires Distinct(List(items))
    ensures r.Built? <==> Good(cidr, List(items))
    ensures r.Built? ==> Compiled(cidr, r.fc, List(items)) && r.fc.path == path
    ensures r.Panicked? <==> PatternPanics(cidr, List(items))
  {
    hide ListHolds, ListMeans, SomePanics, AllGood, ItemsPanic, Panics, GoodOp;
    var values: set<Json> := {};
    var orFcs := [];
    NothingListed(cidr);
    for i := 0 to |items|
      invariant forall j :: 0 <= j < i ==> GoodItem(cidr, items[j]) && !ItemPanics(cidr, items[j])
      invariant forall val :: ListHolds(values, orFcs, val) == ListMeans(cidr, items[..i], val)
    {
      var item := items[i];
      assert items[..i] + [item] == items[..i + 1];
      forall val {
        ListMeansNext(cidr, items[..i], item, val);
      }
      if !item.Obj? {
        if item.List? {
          BadItemDecides(cidr, items, i);
          return Panicked;
        }
        forall val {
          ListHoldsValue(values, orFcs, item, val);
        }
        values := values + {item};
      } else {
        var f := NewAnd(cidr, item.fields);
        if !f.Built? {
          BadItemDecides(cidr, items, i);
          return if f.Panicked? then Panicked else Rejected;
        }
        forall val {
          ListHoldsNext(values, orFcs, f.fc, val);
        }
        orFcs := orFcs + [f.fc];
      }
    }
    assert items[..|items|] == items;
    GoodItemsSuffice(cidr, items);
    r := Built(ListFn(path, values, orFcs));
  }

  /** Compiles p under the path `root`, leaving the leaves' paths where Layout says. */
  method ParsePattern(cidr: CidrParser, mem: Memory, root: Slice, p: Json)
    returns (r: Built<EventMatchFunc>, after: Memory)
    requires IsSlice(mem, root) && Distinct(p)
    ensures r.Built? <==> Good(cidr, p)
    ensures r.Built? ==>
      Compiled(cidr, r.fc, p) && after == Layout(mem, root, p).0 && Slices(r.fc) == Layout(mem, root, p).1
    ensures r.Panicked? <==> PatternPanics(cidr, p)
    decreases p, 0
  {
    after := mem;
    match p
    case Str(_) => r := Built(FieldFn(root, p));
    case Num(_) => r := Built(FieldFn(root, p));
    case List(items) => r := NewList(cidr, items, root);
    case Obj(fields) =>
      r, after := ParseFields(cidr, mem, root, fields);
    case _ => r := Rejected;
  }

  lemma ConcatAssociates(a: seq<Slice>, b: seq<Slice>, c: seq<Slice>)
    ensures a + (b + c) == a + b + c
  {
  }

  lemma SlicesOfSnoc(fcs: seq<EventMatchFunc>, f: EventMatchFunc)
    ensures SlicesOf(fcs + [f]) == SlicesOf(fcs) + Slices(f)
  {
    assert (fcs + [f])[..|fcs|] == fcs;
  }

  lemma LayoutFieldsNext(mem: Memory, root: Slice, fields: seq<Field>)
    requires IsSlice(mem, root) && fields != []
    ensures
      var (m1, child) := Append(mem, root, fields[0].key);
      var (m2, first) := Layout(m1, child, fields[0].val);
      var (m3, rest) := LayoutFields(m2, root, fields[1..]);
      IsSlice(m2, root) && LayoutFields(mem, root, fields) == (m3, first + rest)
  {
  }

  lemma NothingLaidOut(mem: Memory, root: Slice)
    requires IsSlice(mem, root)
    ensures LayoutFields(mem, root, []) == (mem, [])
  {
  }

  lemma BadFieldDecides(cidr: CidrParser, fields: seq<Field>, k: nat)
    requires k < |fields| && !Good(cidr, fields[k].val)
    requires forall l :: 0 <= l < k ==> Good(cidr, fields[l].val) && !PatternPanics(cidr, fields[l].val)
    ensures !Good(cidr, Obj(fields))
    ensures PatternPanics(cidr, Obj(fields)) <==> PatternPanics(cidr, fields[k].val)
  {
  }

  lemma GoodFieldsSuffice(cidr: CidrParser, fcs: seq<EventMatchFunc>, fields: seq<Field>)
    requires |fcs| == |fields| && forall k :: 0 <= k < |fields| ==> Compiled(cidr, fcs[k], fields[k].val)
    requires forall k :: 0 <= k < |fields| ==> Good(cidr, fields[k].val) && !PatternPanics(cidr, fields[k].val)
    ensures Good(cidr, Obj(fields)) && !PatternPanics(cidr, Obj(fields))
    ensures Compiled(cidr, AllFn(fcs), Obj(fields)) && Slices(AllFn(fcs)) == SlicesOf(fcs)
  {
  }

  method ParseFields(cidr: CidrParser, mem: Memory, root: Slice, fields: seq<Field>)
    returns (r: Built<EventMatchFunc>, after: Memory)
    requires IsSlice(mem, root) && Distinct(Obj(fields))
    ensures r.Built? <==> Good(cidr, Obj(fields))
    ensures r.Built? ==> Compiled(cidr, r.fc, Obj(fields))
    ensures r.Built? ==> after == LayoutFields(mem, root, fields).0 && Slices(r.fc) == LayoutFields(mem, root, fields).1
    ensures r.Panicked? <==> PatternPanics(cidr, Obj(fields))
    decreases fields, 1
  {
    hide Append, Layout, LayoutFields, Kept, Placed, Compiled, IsSlice, Good, PatternPanics, Slices;
    after := mem;
    var fcs := [];
    assert fields[0..] == fields && SlicesOf([]) == [];
    for k := 0 to |fields|
      invariant IsSlice(after, root) && |fcs| == k
      invariant forall l :: 0 <= l < k ==> Good(cidr, fields[l].val) && !PatternPanics(cidr, fields[l].val)
      invariant forall l :: 0 <= l < k ==> Compiled(cidr, fcs[l], fields[l].val)
      invariant LayoutFields(mem, root, fields).0 == LayoutFields(after, root, fields[k..]).0
      invariant LayoutFields(mem, root, fields).1 == SlicesOf(fcs) + LayoutFields(after, root, fields[k..]).1
    {
      ghost var before := after;
      var (m1, child) := Append(after, root, fields[k].key);
      var f;
      f, after := ParsePattern(cidr, m1, child, fields[k].val);
      if !f.Built? {
        BadFieldDecides(cidr, fields, k);
        return f, after;
      }
      LayoutFieldsNext(before, root, fields[k..]);
      assert fields[k..][1..] == fields[k + 1..];
      SlicesOfSnoc(fcs, f.fc);
      ConcatAssociates(SlicesOf(fcs), Slices(f.fc), LayoutFields(after, root, fields[k + 1..]).1);
      fcs := fcs + [f.fc];
    }
    NothingLaidOut(after, root);
    GoodFieldsSuffice(cidr, fcs, fields);
    r := Built(AllFn(fcs));
  }

  lemma {:induction false} SlicesOfCons(fcs: seq<EventMatchFunc>)
    requires fcs != []
    ensures SlicesOf(fcs) == Slices(fcs[0]) + SlicesOf(fcs[1..])
    decreases |fcs|
  {
    hide Slices;
    var n := |fcs| - 1;
    if n > 0 {
      SlicesOfCons(fcs[..n]);
      assert fcs[1..][..n - 1] == fcs[..n][1..];
      SlicesOfLast(fcs);
      SlicesOfLast(fcs[1..]);
      ConcatAssociates(Slices(fcs[0]), SlicesOf(fcs[..n][1..]), Slices(fcs[n]));
    }
  }

  lemma SlicesOfLast(fcs: seq<EventMatchFunc>)
    requires fcs != []
    ensures SlicesOf(fcs) == SlicesOf(fcs[..|fcs| - 1]) + Slices(fcs[|fcs| - 1])
  {
  }

  lemma {:induction false} OneSlicePerLeaf(cidr: CidrParser, fc: EventMatchFunc, p: Json, prefix: seq<string>)
    requires Compiled(cidr, fc, p)
    ensures |Slices(fc)| == |TruePaths(p, prefix)|
    decreases p, 0
  {
    if p.Obj? {
      OneSlicePerField(cidr, fc.fcs, p.fields, prefix);
    }
  }

  lemma {:induction false} OneSlicePerField(
    cidr: CidrParser, fcs: seq<EventMatchFunc>, fields: seq<Field>, prefix: seq<string>)
    requires |fcs| == |fields| && forall k :: 0 <= k < |fields| ==> Compiled(cidr, fcs[k], fields[k].val)
    ensures |SlicesOf(fcs)| == |TruePathsOf(fields, prefix)|
    decreases fields, 1
  {
    if fields != [] {
      SlicesOfCons(fcs);
      OneSlicePerLeaf(cidr, fcs[0], fields[0].val, prefix + [fields[0].key]);
      OneSlicePerField(cidr, fcs[1..], fields[1..], prefix);
    }
  }

  /** With intact paths, a compiled closure answers what the pattern means. */
  lemma {:induction false} CompiledMeans(
    cidr: CidrParser, fc: EventMatchFunc, p: Json, mem: Memory, prefix: seq<string>, e: Event)
    requires Compiled(cidr, fc, p) && Intact(mem, Slices(fc), TruePaths(p, prefix))
    ensures InMemory(fc, mem)
    ensures Answers(fc, mem, e) == Means(cidr, p, prefix, e) && Risky(fc, mem, e) == RiskyAt(p, prefix, e)
    decreases p, 0
  {
    if p.Obj? {
      CompiledFieldsMean(cidr, fc.fcs, p.fields, mem, prefix, e);
    } else {
      assert Slices(fc)[0] == fc.path && TruePaths(p, prefix)[0] == prefix;
    }
  }

  lemma {:induction false} CompiledFieldsMean(
    cidr: CidrParser, fcs: seq<EventMatchFunc>, fields: seq<Field>, mem: Memory, prefix: seq<string>, e: Event)
    requires |fcs| == |fields| && forall k :: 0 <= k < |fields| ==> Compiled(cidr, fcs[k], fields[k].val)
    requires Intact(mem, SlicesOf(fcs), TruePathsOf(fields, prefix))
    ensures forall k :: 0 <= k < |fields| ==>
      && InMemory(fcs[k], mem)
      && Answers(fcs[k], mem, e) == Means(cidr, fields[k].val, prefix + [fields[k].key], e)
      && Risky(fcs[k], mem, e) == RiskyAt(fields[k].val, prefix + [fields[k].key], e)
    decreases fields, 1
  {
    if fields != [] {
      var path := prefix + [fields[0].key];
      SlicesOfCons(fcs);
      OneSlicePerLeaf(cidr, fcs[0], fields[0].val, path);
      IntactConcat(
        mem, Slices(fcs[0]), SlicesOf(fcs[1..]), TruePaths(fields[0].val, path), TruePathsOf(fields[1..], prefix));
      CompiledMeans(cidr, fcs[0], fields[0].val, mem, path, e);
      CompiledFieldsMean(cidr, fcs[1..], fields[1..], mem, prefix, e);
      forall k | 1 <= k < |fields|
        ensures fcs[k] == fcs[1..][k - 1] && fields[k] == fields[1..][k - 1]
      {
      }
    }
  }

  // ---------- matchers ----------

  ghost predicate Usable(m: Matcher)
  {
    m.Matcher? ==> InMemory(m.fc, m.mem)
  }

  ghost predicate MatcherAnswers(m: Matcher, e: Event)
    requires Usable(m)
  {
    m.Matcher? && Answers(m.fc, m.mem, e)
  }

  ghost predicate MatcherCrashes(order: Order, m: Matcher, e: Event)
    requires Usable(m)
  {
    m.Matcher? && EventCrashes(order, m.fc, m.mem, e)
  }

  ghost predicate MatcherRisky(m: Matcher, e: Event)
    requires Usable(m)
  {
    m.Matcher? && Risky(m.fc, m.mem, e)
  }

  lemma LayoutUsable(fc: EventMatchFunc, mem: Memory)
    requires forall s :: s in Slices(fc) ==> IsSlice(mem, s)
    ensures InMemory(fc, mem)
    decreases fc
  {
    if fc.AllFn? {
      forall k | 0 <= k < |fc.fcs|
        ensures InMemory(fc.fcs[k], mem)
      {
        forall s | s in Slices(fc.fcs[k])
          ensures s in SlicesOf(fc.fcs)
        {
          SlicesOfHas(fc.fcs, k, s);
        }
        LayoutUsable(fc.fcs[k], mem);
      }
    }
  }

  lemma {:induction false} SlicesOfHas(fcs: seq<EventMatchFunc>, k: nat, s: Slice)
    requires k < |fcs| && s in Slices(fcs[k])
    ensures s in SlicesOf(fcs)
    decreases |fcs|
  {
    if k < |fcs| - 1 {
      SlicesOfHas(fcs[..|fcs| - 1], k, s);
    }
  }

  /** NewMatcher: accepts exactly the good patterns. The matcher answers what the pattern means on
      every event if no two siblings share a block with a leaf in it. */
  method NewMatcher(cidr: CidrParser, pattern: seq<Field>) returns (r: Built<Matcher>)
    requires Distinct(Obj(pattern))
    ensures r.Built? <==> Good(cidr, Obj(pattern))
    ensures r.Panicked? <==> PatternPanics(cidr, Obj(pattern))
    ensures r.Built? ==> Usable(r.fc)
    ensures r.Built? && SafeOrder(Obj(pattern), 0, 0) ==>
      forall e ::
        && MatcherAnswers(r.fc, e) == Matches(cidr, pattern, e)
        && MatcherRisky(r.fc, e) == RiskyAt(Obj(pattern), [], e)
  {
    if |pattern| == 0 {
      return Built(Never);
    }
    var f, mem := ParsePattern(cidr, [[]], NoPath, Obj(pattern));
    if !f.Built? {
      return if f.Panicked? then Panicked else Rejected;
    }
    r := Built(Matcher(mem, f.fc));
    LayoutUsable(f.fc, mem);
    if SafeOrder(Obj(pattern), 0, 0) {
      assert Read([[]], NoPath) == [];
      IntactIffSafe([[]], NoPath, Obj(pattern));
      forall e {
        CompiledMeans(cidr, f.fc, Obj(pattern), mem, [], e);
      }
    }
  }

  /** Calling a matcher: it crashes exactly when that is said to happen in this order, and only on
      risky lookups; otherwise it gives the closure's answer. */
  method Pattern(order: Order, m: Matcher, e: Event) returns (r: Outcome)
    requires Rearranges(order) && Usable(m)
    ensures r.Crash? <==> MatcherCrashes(order, m, e)
    ensures r.Crash? ==> MatcherRisky(m, e)
    ensures r.Is? ==> r.res == MatcherAnswers(m, e)
  {
    match m
    case Never => r := Is(false);
    case Matcher(mem, fc) =>
      r := RunEvent(order, fc, mem, e);
      if r.Crash? {
        CrashesOnlyIfRisky(order, fc, mem, e);
      }
  }

  /** Whatever order the runtime picks, a safe pattern's matcher answers what the pattern means. */
  method MatchInAnyOrder(cidr: CidrParser, pattern: seq<Field>, ranged: seq<Field>, order: Order, e: Event)
    returns (r: Built<Outcome>)
    requires Rearranges(order) && Distinct(Obj(ranged)) && Reorder(Obj(pattern), Obj(ranged))
    requires Safe(Obj(pattern), 0, 0)
    ensures r.Built? <==> Good(cidr, Obj(pattern))
    ensures r.Panicked? <==> PatternPanics(cidr, Obj(ranged))
    ensures r.Built? && r.fc.Is? ==> r.fc.res == Matches(cidr, pattern, e)
    ensures r.Built? && !RiskyAt(Obj(pattern), [], e) ==> r.fc.Is?
  {
    SafeInEveryOrder(Obj(pattern), Obj(ranged), 0, 0);
    OrderIsIrrelevant(cidr, Obj(pattern), Obj(ranged), [], e);
    var m := NewMatcher(cidr, ranged);
    if !m.Built? {
      return if m.Panicked? then Panicked else Rejected;
    }
    var outcome := Pattern(order, m.fc, e);
    r := Built(outcome);
  }
}
