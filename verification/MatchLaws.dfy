/**
 What patterns with one key accept, said of the fields of the event and of strings and numbers. These
 laws hold of the compiled matchers, in every order.
 */
module MatchLaws {
  import opened Wrappers
  import opened Events
  import opened Operators
  import opened Patterns
  import opened PatternPaths
  import opened Reorderings

  // ---------- single operators ----------

  lemma PrefixLaw(cidr: CidrParser, p: string, val: Val)
    ensures OpMeans(cidr, "prefix", Str(p), val) <==> exists rest :: val == Data(Str(p + rest))
  {
    if OpMeans(cidr, "prefix", Str(p), val) {
      assert val == Data(Str(p + val.j.s[|p|..]));
    }
  }

  lemma SuffixLaw(cidr: CidrParser, p: string, val: Val)
    ensures OpMeans(cidr, "suffix", Str(p), val) <==> exists front :: val == Data(Str(front + p))
  {
    if OpMeans(cidr, "suffix", Str(p), val) {
      assert val == Data(Str(val.j.s[..|val.j.s| - |p|] + p));
    }
  }

  lemma CompareLaw(bound: real, x: real)
    ensures Compare(Comparison(">", bound), x) <==> x > bound
    ensures Compare(Comparison(">=", bound), x) <==> x >= bound
    ensures Compare(Comparison("=", bound), x) <==> x == bound
    ensures Compare(Comparison("<", bound), x) <==> x < bound
    ensures Compare(Comparison("<=", bound), x) <==> x <= bound
  {
  }

  /** A comparison with one bound accepts the numbers on its side, and nothing that is no number. */
  lemma NumericLaw(cidr: CidrParser, op: string, bound: real, val: Val)
    requires op in [">", ">=", "=", "<", "<="]
    ensures OpMeans(cidr, "numeric", List([Str(op), Num(bound)]), val) <==>
      exists x :: val == Data(Num(x)) && match op
                                         case ">" => x > bound
                                         case ">=" => x >= bound
                                         case "=" => x == bound
                                         case "<" => x < bound
                                         case _ => x <= bound
  {
    var items := [Str(op), Num(bound)];
    assert IsBound(items, 0) && BoundAt(items, 0) == Comparison(op, bound);
    assert |items| / 2 == 1;
    if val.Data? && val.j.Num? {
      CompareLaw(bound, val.j.n);
    }
  }

  lemma RangeLaw(cidr: CidrParser, low: real, high: real, val: Val)
    ensures OpMeans(cidr, "numeric", List([Str(">"), Num(low), Str("<="), Num(high)]), val) <==>
      exists x :: val == Data(Num(x)) && low < x <= high
  {
    var items := [Str(">"), Num(low), Str("<="), Num(high)];
    assert IsBound(items, 0) && BoundAt(items, 0) == Comparison(">", low);
    assert IsBound(items, 1) && BoundAt(items, 1) == Comparison("<=", high);
    assert |items| / 2 == 2;
    if val.Data? && val.j.Num? {
      CompareLaw(low, val.j.n);
      CompareLaw(high, val.j.n);
    }
  }

  /** What can be a key of a map, and so a listed value. */
  lemma MapKeys(s: string, n: real, b: bool, items: seq<Json>, fields: seq<Field>)
    ensures Hashable(Str(s)) && Hashable(Num(n)) && Hashable(Bool(b)) && Hashable(Null)
    ensures !Hashable(List(items)) && !Hashable(Obj(fields))
  {
  }

  /** Other comparisons, and bounds that are no numbers, are refused. */
  lemma OtherComparisons(cidr: CidrParser, op: string, bound: Json)
    requires op !in [">", ">=", "=", "<", "<="] || !bound.Num?
    ensures !GoodOp(cidr, "numeric", List([Str(op), bound]))
  {
    var items := [Str(op), bound];
    assert |items| / 2 == 1 && !IsBound(items, 0);
  }

  /** Texts and numbers are the only single values a pattern can demand, and the only operators are
      the six. */
  lemma Refused(cidr: CidrParser, key: string, name: string, spec: Json)
    requires name !in ["prefix", "suffix", "exists", "numeric", "cidr", "anything-but"]
    ensures !Good(cidr, Obj([Field(key, Null)])) && !Good(cidr, Obj([Field(key, Bool(true))]))
    ensures !Good(cidr, Obj([Field(key, Bool(false))]))
    ensures !Good(cidr, Obj([Field(key, List([Obj([Field(name, spec)])]))]))
  {
    var nulls, trues, falses := [Field(key, Null)], [Field(key, Bool(true))], [Field(key, Bool(false))];
    assert !Good(cidr, nulls[0].val) && !Good(cidr, trues[0].val) && !Good(cidr, falses[0].val);
    OneOperator(cidr, name, spec, Absent);
    var ops := [Field(key, List([Obj([Field(name, spec)])]))];
    assert !Good(cidr, ops[0].val);
  }

  // ---------- one key ----------

  lemma OneValue(cidr: CidrParser, v: Json, val: Val)
    requires Hashable(v)
    ensures ListMeans(cidr, [v], val) <==> ValueIn(v, val)
    ensures Good(cidr, List([v])) && Distinct(List([v]))
  {
    assert [v][0] == v;
  }

  lemma OneOperator(cidr: CidrParser, name: string, spec: Json, val: Val)
    ensures
      var item := Obj([Field(name, spec)]);
      && (ListMeans(cidr, [item], val) <==> OpMeans(cidr, name, spec, val))
      && (Good(cidr, List([item])) <==> GoodOp(cidr, name, spec))
      && (Distinct(spec) ==> Distinct(List([item])))
  {
    var fields := [Field(name, spec)];
    var items := [Obj(fields)];
    assert fields[0] == Field(name, spec) && items[0] == Obj(fields);
    assert AllGood(cidr, fields) <==> GoodOp(cidr, name, spec);
    assert GoodItem(cidr, items[0]) <==> AllGood(cidr, fields);
  }

  /** A pattern with one leaf is safe, and its meaning is that of the leaf. */
  lemma OneLeaf(cidr: CidrParser, key: string, leaf: Json, e: Event)
    requires !leaf.Obj?
    ensures
      var pattern := [Field(key, leaf)];
      && Safe(Obj(pattern), 0, 0) && Reorder(Obj(pattern), Obj(pattern))
      && (Distinct(leaf) ==> Distinct(Obj(pattern)))
      && (Good(cidr, Obj(pattern)) <==> Good(cidr, leaf))
      && (Matches(cidr, pattern, e) <==> Means(cidr, leaf, [key], e))
      && (RiskyAt(Obj(pattern), [], e) <==> RiskyAt(leaf, [key], e))
  {
    var pattern := [Field(key, leaf)];
    assert pattern[0].val == leaf && [] + [key] == [key];
    ReorderReflexive(Obj(pattern));
  }

  /** The same below the data. */
  lemma OneDataLeaf(cidr: CidrParser, key: string, leaf: Json, e: Event)
    requires !leaf.Obj?
    ensures
      var pattern := [Field("data", Obj([Field(key, leaf)]))];
      && Safe(Obj(pattern), 0, 0) && Reorder(Obj(pattern), Obj(pattern))
      && (Distinct(leaf) ==> Distinct(Obj(pattern)))
      && (Good(cidr, Obj(pattern)) <==> Good(cidr, leaf))
      && (Matches(cidr, pattern, e) <==> Means(cidr, leaf, ["data", key], e))
      && (RiskyAt(Obj(pattern), [], e) <==> RiskyAt(leaf, ["data", key], e))
  {
    var inner := [Field(key, leaf)];
    var pattern := [Field("data", Obj(inner))];
    assert inner[0].val == leaf && pattern[0].val == Obj(inner);
    assert [] + ["data"] == ["data"] && ["data"] + [key] == ["data", key];
    assert Means(cidr, pattern[0].val, ["data"], e) <==> Means(cidr, inner[0].val, ["data", key], e);
    ReorderReflexive(Obj(pattern));
  }

  // ---------- compiled matchers ----------

  /** {"source": [s]} */
  method SourceIs(cidr: CidrParser, s: string, order: Order, e: Event) returns (r: Built<Outcome>)
    requires Rearranges(order)
    ensures r == Built(Is(e.source == s))
  {
    var leaf := List([Str(s)]);
    OneLeaf(cidr, "source", leaf, e);
    OneValue(cidr, Str(s), Data(Str(e.source)));
    assert Means(cidr, leaf, ["source"], e) <==> e.source == s;
    r := MatchInAnyOrder(cidr, [Field("source", leaf)], [Field("source", leaf)], order, e);
  }

  /** {"type": s} */
  method TypeIs(cidr: CidrParser, s: string, order: Order, e: Event) returns (r: Built<Outcome>)
    requires Rearranges(order)
    ensures r == Built(Is(e.kind == s))
  {
    OneLeaf(cidr, "type", Str(s), e);
    r := MatchInAnyOrder(cidr, [Field("type", Str(s))], [Field("type", Str(s))], order, e);
  }

  /** {"source": [{"prefix": p}]} */
  method SourceStartsWith(cidr: CidrParser, p: string, order: Order, e: Event) returns (r: Built<Outcome>)
    requires Rearranges(order)
    ensures r == Built(Is(exists rest :: e.source == p + rest))
  {
    var item := Obj([Field("prefix", Str(p))]);
    var leaf := List([item]);
    OneLeaf(cidr, "source", leaf, e);
    OneOperator(cidr, "prefix", Str(p), Data(Str(e.source)));
    PrefixLaw(cidr, p, Data(Str(e.source)));
    r := MatchInAnyOrder(cidr, [Field("source", leaf)], [Field("source", leaf)], order, e);
  }

  /** {"type": [{"anything-but": s}]} */
  method TypeIsNot(cidr: CidrParser, s: string, order: Order, e: Event) returns (r: Built<Outcome>)
    requires Rearranges(order)
    ensures r == Built(Is(e.kind != s))
  {
    var item := Obj([Field("anything-but", Str(s))]);
    var leaf := List([item]);
    OneLeaf(cidr, "type", leaf, e);
    OneOperator(cidr, "anything-but", Str(s), Data(Str(e.kind)));
    r := MatchInAnyOrder(cidr, [Field("type", leaf)], [Field("type", leaf)], order, e);
  }

  /** {"source": [{"cidr": c}]} */
  method SourceIsWithin(cidr: CidrParser, c: string, order: Order, e: Event) returns (r: Built<Outcome>)
    requires Rearranges(order)
    ensures r == if cidr(c) == None then Rejected else Built(Is(cidr(c).value(e.source)))
  {
    var leaf := List([Obj([Field("cidr", Str(c))])]);
    OneLeaf(cidr, "source", leaf, e);
    OneOperator(cidr, "cidr", Str(c), Data(Str(e.source)));
    StringsNeverPanic(cidr, "source", "cidr", c);
    r := MatchInAnyOrder(cidr, [Field("source", leaf)], [Field("source", leaf)], order, e);
  }

  lemma StringsNeverPanic(cidr: CidrParser, key: string, name: string, s: string)
    ensures !PatternPanics(cidr, Obj([Field(key, List([Obj([Field(name, Str(s))])]))]))
  {
    var ops := [Field(name, Str(s))];
    var fields := [Field(key, List([Obj(ops)]))];
    assert !ListsNest(ops[0].val) && !ListsNest([Obj(ops)][0]);
    assert !ListsNest(fields[0].val) && !ListsNest(Obj(fields));
    if PatternPanics(cidr, Obj(fields)) {
      PatternPanicsOnlyIfNested(cidr, Obj(fields));
    }
  }

  /** {"type": [{"anything-but": [a, b]}]} */
  method TypeIsNeither(cidr: CidrParser, a: string, b: string, order: Order, e: Event) returns (r: Built<Outcome>)
    requires Rearranges(order)
    ensures r == Built(Is(e.kind != a && e.kind != b))
  {
    var spec := List([Str(a), Str(b)]);
    var leaf := List([Obj([Field("anything-but", spec)])]);
    OneLeaf(cidr, "type", leaf, e);
    OneOperator(cidr, "anything-but", spec, Data(Str(e.kind)));
    ButTwoValues(cidr, a, b, Data(Str(e.kind)));
    r := MatchInAnyOrder(cidr, [Field("type", leaf)], [Field("type", leaf)], order, e);
  }

  lemma ButTwoValues(cidr: CidrParser, a: string, b: string, val: Val)
    requires val.Data? && !val.j.List?
    ensures
      var spec := List([Str(a), Str(b)]);
      && GoodOp(cidr, "anything-but", spec) && Distinct(spec)
      && (OpMeans(cidr, "anything-but", spec, val) <==> val.j != Str(a) && val.j != Str(b))
  {
    var items := [Str(a), Str(b)];
    assert items[0] == Str(a) && items[1] == Str(b);
    assert forall i, k :: !IsOpAt(items, i, k);
  }

  /** {"source": [s], "type": [t]}: both keys have to match. */
  method SourceAndTypeAre(cidr: CidrParser, s: string, t: string, order: Order, e: Event)
    returns (r: Built<Outcome>)
    requires Rearranges(order)
    ensures r == Built(Is(e.source == s && e.kind == t))
  {
    var pattern := [Field("source", List([Str(s)])), Field("type", List([Str(t)]))];
    OneValue(cidr, Str(s), Data(Str(e.source)));
    OneValue(cidr, Str(t), Data(Str(e.kind)));
    TwoLeaves(cidr, pattern, e);
    assert Means(cidr, pattern[0].val, ["source"], e) <==> e.source == s;
    assert Means(cidr, pattern[1].val, ["type"], e) <==> e.kind == t;
    r := MatchInAnyOrder(cidr, pattern, pattern, order, e);
  }

  lemma TwoLeaves(cidr: CidrParser, pattern: seq<Field>, e: Event)
    requires |pattern| == 2 && pattern[0].key != pattern[1].key && !pattern[0].val.Obj? && !pattern[1].val.Obj?
    ensures Safe(Obj(pattern), 0, 0) && Reorder(Obj(pattern), Obj(pattern))
    ensures Distinct(pattern[0].val) && Distinct(pattern[1].val) ==> Distinct(Obj(pattern))
    ensures Good(cidr, Obj(pattern)) <==> Good(cidr, pattern[0].val) && Good(cidr, pattern[1].val)
    ensures Matches(cidr, pattern, e) <==>
      Means(cidr, pattern[0].val, [pattern[0].key], e) && Means(cidr, pattern[1].val, [pattern[1].key], e)
    ensures RiskyAt(Obj(pattern), [], e) <==>
      RiskyAt(pattern[0].val, [pattern[0].key], e) || RiskyAt(pattern[1].val, [pattern[1].key], e)
  {
    ReorderReflexive(Obj(pattern));
    assert [] + [pattern[0].key] == [pattern[0].key] && [] + [pattern[1].key] == [pattern[1].key];
  }

  /** {"source": [a, b]}: one of the values is enough. */
  method SourceIsOneOf(cidr: CidrParser, a: string, b: string, order: Order, e: Event) returns (r: Built<Outcome>)
    requires Rearranges(order)
    ensures r == Built(Is(e.source == a || e.source == b))
  {
    var items := [Str(a), Str(b)];
    OneLeaf(cidr, "source", List(items), e);
    assert Listed(items, Data(Str(e.source))) <==> e.source == a || e.source == b by {
      assert items[0] == Str(a) && items[1] == Str(b);
    }
    assert Means(cidr, List(items), ["source"], e) <==> e.source == a || e.source == b;
    r := MatchInAnyOrder(cidr, [Field("source", List(items))], [Field("source", List(items))], order, e);
  }

  /** {"source": [{"prefix": p, "suffix": q}]}: all operators of an object have to hold. */
  method SourceStartsAndEnds(cidr: CidrParser, p: string, q: string, order: Order, e: Event)
    returns (r: Built<Outcome>)
    requires Rearranges(order)
    ensures r == Built(Is((exists rest :: e.source == p + rest) && exists front :: e.source == front + q))
  {
    var fields := [Field("prefix", Str(p)), Field("suffix", Str(q))];
    var leaf := List([Obj(fields)]);
    OneLeaf(cidr, "source", leaf, e);
    TwoOperators(cidr, fields, Data(Str(e.source)));
    PrefixLaw(cidr, p, Data(Str(e.source)));
    SuffixLaw(cidr, q, Data(Str(e.source)));
    r := MatchInAnyOrder(cidr, [Field("source", leaf)], [Field("source", leaf)], order, e);
  }

  lemma TwoOperators(cidr: CidrParser, fields: seq<Field>, val: Val)
    requires |fields| == 2 && fields[0].key != fields[1].key && Distinct(fields[0].val) && Distinct(fields[1].val)
    ensures ListMeans(cidr, [Obj(fields)], val) <==>
      OpMeans(cidr, fields[0].key, fields[0].val, val) && OpMeans(cidr, fields[1].key, fields[1].val, val)
    ensures Good(cidr, List([Obj(fields)])) <==>
      GoodOp(cidr, fields[0].key, fields[0].val) && GoodOp(cidr, fields[1].key, fields[1].val)
    ensures Distinct(List([Obj(fields)]))
  {
    var items := [Obj(fields)];
    assert items[0] == Obj(fields);
    assert GoodItem(cidr, items[0]) <==> AllGood(cidr, fields);
    assert Distinct(Obj(fields));
  }

  /** {} */
  method NothingMatchesEmpty(cidr: CidrParser, order: Order, e: Event) returns (r: Built<Outcome>)
    requires Rearranges(order)
    ensures r == Built(Is(false))
  {
    ReorderReflexive(Obj([]));
    r := MatchInAnyOrder(cidr, [], [], order, e);
  }

  /** The data is an object with this field, the first of its key. */
  ghost predicate HasField(e: Event, key: string, v: Json)
  {
    && e.data.Some? && e.data.value.Obj?
    && var fields := e.data.value.fields;
       exists i :: 0 <= i < |fields| && fields[i] == Field(key, v) && forall j :: 0 <= j < i ==> fields[j].key != key
  }

  /** {"data": {key: s}} */
  method DataFieldIs(cidr: CidrParser, key: string, s: string, order: Order, e: Event) returns (r: Built<Outcome>)
    requires Rearranges(order)
    ensures e.data.Some? && e.data.value.Obj? ==> r == Built(Is(HasField(e, key, Str(s))))
    ensures e.data == None ==> r == Built(Is(false))
  {
    var pattern := [Field("data", Obj([Field(key, Str(s))]))];
    OneDataLeaf(cidr, key, Str(s), e);
    DataField(e, key);
    r := MatchInAnyOrder(cidr, pattern, pattern, order, e);
  }

  /** {"data": {key: [s]}}: the value, or a list with it. */
  method DataFieldAmong(cidr: CidrParser, key: string, s: string, order: Order, e: Event) returns (r: Built<Outcome>)
    requires Rearranges(order)
    ensures r.Built?
    ensures e.data.Some? && e.data.value.Obj? && r.fc.Is? ==>
      (r.fc.res <==> HasField(e, key, Str(s)) || exists items :: HasField(e, key, List(items)) && Str(s) in items)
    ensures (forall v :: HasField(e, key, v) ==> v.Str?) && e.data.Some? && e.data.value.Obj? ==> r.fc.Is?
  {
    var leaf := List([Str(s)]);
    var pattern := [Field("data", Obj([Field(key, leaf)]))];
    var got := FieldAt(e, ["data", key]);
    var val := if got.Value? then got.v else Absent;
    OneDataLeaf(cidr, key, leaf, e);
    OneValue(cidr, Str(s), val);
    DataField(e, key);
    hide HasField, FieldAt, Good;
    r := MatchInAnyOrder(cidr, pattern, pattern, order, e);
  }

  /** {"data": {key: [{"exists": given}]}} */
  method DataFieldExists(cidr: CidrParser, key: string, given: bool, order: Order, e: Event)
    returns (r: Built<Outcome>)
    requires Rearranges(order)
    ensures r.Built?
    ensures e.data.Some? && e.data.value.Obj? && r.fc.Is? ==> (r.fc.res <==> given == exists v :: HasField(e, key, v))
  {
    var leaf := List([Obj([Field("exists", Bool(given))])]);
    var pattern := [Field("data", Obj([Field(key, leaf)]))];
    var got := FieldAt(e, ["data", key]);
    var val := if got.Value? then got.v else Absent;
    OneDataLeaf(cidr, key, leaf, e);
    OneOperator(cidr, "exists", Bool(given), val);
    DataField(e, key);
    if e.data.Some? && e.data.value.Obj? {
      DataFieldOrAbsent(e, key);
    }
    hide HasField, FieldAt;
    r := MatchInAnyOrder(cidr, pattern, pattern, order, e);
  }

  lemma DataFieldOrAbsent(e: Event, key: string)
    requires e.data.Some? && e.data.value.Obj?
    ensures FieldAt(e, ["data", key]) == Value(Absent) || exists v :: FieldAt(e, ["data", key]) == Value(Data(v))
  {
    WalkOn(e, ["data"], key);
    assert ["data"] + [key] == ["data", key];
  }

  /** {"data": {key: [{"numeric": [">", low, "<=", high]}]}} */
  method DataFieldWithin(cidr: CidrParser, key: string, low: real, high: real, order: Order, e: Event)
    returns (r: Built<Outcome>)
    requires Rearranges(order)
    ensures r.Built?
    ensures e.data.Some? && e.data.value.Obj? && r.fc.Is? ==>
      (r.fc.res <==> exists x :: HasField(e, key, Num(x)) && low < x <= high)
    ensures (exists x :: HasField(e, key, Num(x))) ==> r.fc.Is?
  {
    var spec := List([Str(">"), Num(low), Str("<="), Num(high)]);
    var leaf := List([Obj([Field("numeric", spec)])]);
    var pattern := [Field("data", Obj([Field(key, leaf)]))];
    var got := FieldAt(e, ["data", key]);
    var val := if got.Value? then got.v else Absent;
    RangeIsGood(cidr, low, high);
    OneDataLeaf(cidr, key, leaf, e);
    OneOperator(cidr, "numeric", spec, val);
    DataField(e, key);
    RangeLaw(cidr, low, high, val);
    hide OpMeans, GoodOp, HasField, FieldAt;
    r := MatchInAnyOrder(cidr, pattern, pattern, order, e);
  }

  lemma RangeIsGood(cidr: CidrParser, low: real, high: real)
    ensures
      var spec := List([Str(">"), Num(low), Str("<="), Num(high)]);
      GoodOp(cidr, "numeric", spec) && Distinct(spec)
  {
    var items := [Str(">"), Num(low), Str("<="), Num(high)];
    assert |items| / 2 == 2 && IsBound(items, 0) && IsBound(items, 1);
  }

  /** Looking a field of the data up finds it exactly if the data has it. */
  lemma DataField(e: Event, key: string)
    ensures e.data == None ==> FieldAt(e, ["data", key]) == DataError
    ensures e.data.Some? && e.data.value.Obj? ==>
      forall v :: FieldAt(e, ["data", key]) == Value(Data(v)) <==> HasField(e, key, v)
    ensures e.data.Some? && e.data.value.Obj? ==> FieldAt(e, ["data", key]).Value?
  {
    if e.data.Some? && e.data.value.Obj? {
      var fields := e.data.value.fields;
      WalkOn(e, ["data"], key);
      assert ["data"] + [key] == ["data", key];
      FindIs(fields, key);
    }
  }

  lemma {:induction false} FindIs(fields: seq<Field>, key: string)
    ensures forall v :: Find(fields, key) == Some(v) <==>
      exists i :: 0 <= i < |fields| && fields[i] == Field(key, v) && forall j :: 0 <= j < i ==> fields[j].key != key
    decreases |fields|
  {
    if fields != [] {
      FindIs(fields[1..], key);
      forall i | 1 <= i < |fields|
        ensures fields[i] == fields[1..][i - 1]
      {
      }
      assert fields[0].key == key ==> fields[0] == Field(key, fields[0].val);
    }
  }
}
