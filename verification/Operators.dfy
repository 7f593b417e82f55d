/**
 The match functions that a pattern can name: prefix, suffix, exists, numeric, cidr and
 anything-but.

 A closure is represented by the variables it captures. `New` builds it, as the constructors in
 the source do, and `Run` calls it. `OpMeans` says, without either of them, when an operator with
 a given specification accepts a value.
 */
module Operators {
  import opened Wrappers
  import opened Events

  /** net.ParseCIDR and IPNet.Contains, which are library code. */
  type CidrParser = string -> Option<string -> bool>

  datatype Comparison = Comparison(op: string, bound: real)

  datatype MatchFunc =
    | PrefixFn(prefix: string)
    | SuffixFn(suffix: string)
    | ExistsFn(exists_: bool)
    | NumericFn(comparisons: seq<Comparison>)
    | NeverFn
    | CidrFn(contains: string -> bool)
    | NotScalarFn(scalar: Json)
    | NotListFn(values: set<Json>, groups: seq<Group>)
    | NotObjFn(groups: seq<Group>)
    | AlwaysFn

  /** An entry of the map from operator names to their match functions. */
  datatype Group = Group(name: string, fcs: seq<MatchFunc>)

  datatype Built<+T> = Built(fc: T) | Rejected | Panicked

  datatype Outcome = Is(res: bool) | Crash

  // ---------- what operators mean ----------

  /** The values of a field: the elements of a list, or the single value. */
  ghost predicate ValueIn(v: Json, val: Val)
  {
    val.Data? && if val.j.List? then v in val.j.items else v == val.j
  }

  /** Some listed value equals the field, or one of the elements of a list field. */
  ghost predicate Listed(items: seq<Json>, val: Val)
  {
    exists i :: 0 <= i < |items| && Hashable(items[i]) && ValueIn(items[i], val)
  }

  predicate IsComparison(op: string)
  {
    op == ">" || op == ">=" || op == "=" || op == "<" || op == "<="
  }

  predicate Compare(c: Comparison, x: real)
  {
    match c.op
    case ">" => x > c.bound
    case ">=" => x >= c.bound
    case "=" => x == c.bound
    case "<" => x < c.bound
    case _ => x <= c.bound
  }

  /** The k-th operator of the i-th item of a list. */
  ghost predicate IsOpAt(items: seq<Json>, i: int, k: int)
  {
    0 <= i < |items| && items[i].Obj? && 0 <= k < |items[i].fields|
  }

  ghost predicate OpMeans(cidr: CidrParser, name: string, spec: Json, val: Val)
    decreases spec, 1
  {
    match name
    case "prefix" => spec.Str? && val.Data? && val.j.Str? && spec.s <= val.j.s
    case "suffix" =>
      spec.Str? && val.Data? && val.j.Str? && |spec.s| <= |val.j.s| && val.j.s[|val.j.s| - |spec.s|..] == spec.s
    case "exists" => spec.Bool? && (spec.b <==> val != Absent)
    case "numeric" =>
      && spec.List? && |spec.items| >= 2 && val.Data? && val.j.Num?
      && forall k :: 0 <= k < |spec.items| / 2 ==> IsBound(spec.items, k) && Compare(BoundAt(spec.items, k), val.j.n)
    case "cidr" => spec.Str? && cidr(spec.s).Some? && val.Data? && val.j.Str? && cidr(spec.s).value(val.j.s)
    case "anything-but" => ButMeans(cidr, spec, val)
    case _ => false
  }

  /** anything-but accepts what its specification does not describe. A list describes its listed
      values, and what satisfies every operator name that occurs in it, each through one of its
      specifications. An object describes what satisfies all of its operators, unless it is empty. */
  ghost predicate ButMeans(cidr: CidrParser, spec: Json, val: Val)
    decreases spec, 0
  {
    match spec
    case List(items) =>
      && !Listed(items, val)
      && ((forall i, k :: !IsOpAt(items, i, k)) || exists i, k :: NobodyAccepts(cidr, items, i, k, val))
    case Obj(fields) =>
      fields == [] || exists k :: 0 <= k < |fields| && !OpMeans(cidr, fields[k].key, fields[k].val, val)
    case _ => val != Data(spec)
  }

  /** No specification in the list under the name of the operator at (i, k) accepts the value. */
  ghost predicate NobodyAccepts(cidr: CidrParser, items: seq<Json>, i: int, k: int, val: Val)
    decreases items
  {
    && IsOpAt(items, i, k)
    && forall j, l :: IsOpAt(items, j, l) && items[j].fields[l].key == items[i].fields[k].key
         ==> !OpMeans(cidr, items[j].fields[l].key, items[j].fields[l].val, val)
  }

  /** The pair of items 2k and 2k+1 of a numeric specification is a comparison. */
  predicate IsBound(items: seq<Json>, k: nat)
    requires k < |items| / 2
  {
    items[2 * k].Str? && IsComparison(items[2 * k].s) && items[2 * k + 1].Num?
  }

  function BoundAt(items: seq<Json>, k: nat): Comparison
    requires k < |items| / 2 && IsBound(items, k)
  {
    Comparison(items[2 * k].s, items[2 * k + 1].n)
  }

  /** The keys of an object are distinct, at every level. */
  ghost predicate Distinct(j: Json)
  {
    match j
    case List(items) => forall i :: 0 <= i < |items| ==> Distinct(items[i])
    case Obj(fields) =>
      && (forall i, k :: 0 <= i < |fields| && 0 <= k < |fields| && fields[i].key == fields[k].key ==> i == k)
      && forall i :: 0 <= i < |fields| ==> Distinct(fields[i].val)
    case _ => true
  }

  /** The specifications that can be compiled. */
  ghost predicate GoodOp(cidr: CidrParser, name: string, spec: Json)
    decreases spec
  {
    match name
    case "prefix" => spec.Str?
    case "suffix" => spec.Str?
    case "exists" => spec.Bool?
    case "numeric" => spec.List? && forall k :: 0 <= k < |spec.items| / 2 ==> IsBound(spec.items, k)
    case "cidr" => spec.Str? && cidr(spec.s).Some?
    case "anything-but" =>
      (match spec
       case List(items) => forall i :: 0 <= i < |items| ==> GoodItem(cidr, items[i])
       case Obj(fields) => AllGood(cidr, fields)
       case _ => spec.Str? || spec.Num?)
    case _ => false
  }

  /** All operators of an object can be compiled. */
  ghost predicate AllGood(cidr: CidrParser, fields: seq<Field>)
    decreases fields
  {
    forall k :: 0 <= k < |fields| ==> GoodOp(cidr, fields[k].key, fields[k].val)
  }

  /** An item of a list can be compiled. */
  ghost predicate GoodItem(cidr: CidrParser, item: Json)
    decreases item
  {
    !item.List? && (item.Obj? ==> AllGood(cidr, item.fields))
  }

  /** Compiling the operator panics instead of rejecting it: the first thing in it that cannot be
      compiled is a list inside a list, which is no map key, or an operator of which this is true. */
  ghost predicate Panics(cidr: CidrParser, name: string, spec: Json)
    decreases spec
  {
    && name == "anything-but"
    && match spec
       case List(items) => ItemsPanic(cidr, items)
       case Obj(fields) => SomePanics(cidr, fields)
       case _ => false
  }

  ghost predicate SomePanics(cidr: CidrParser, fields: seq<Field>)
    decreases fields
  {
    exists k :: 0 <= k < |fields| && Panics(cidr, fields[k].key, fields[k].val)
      && forall l :: 0 <= l < k ==> GoodOp(cidr, fields[l].key, fields[l].val)
  }

  ghost predicate ItemPanics(cidr: CidrParser, item: Json)
    decreases item
  {
    item.List? || (item.Obj? && SomePanics(cidr, item.fields))
  }

  ghost predicate ItemsPanic(cidr: CidrParser, items: seq<Json>)
    decreases items
  {
    exists i :: 0 <= i < |items| && ItemPanics(cidr, items[i]) && forall j :: 0 <= j < i ==> GoodItem(cidr, items[j])
  }

  /** Compiling the operator panics in some order of its objects: only the items of lists have an order. */
  ghost predicate MayPanic(cidr: CidrParser, name: string, spec: Json)
    decreases spec
  {
    && name == "anything-but"
    && match spec
       case List(items) => ItemsMayPanic(cidr, items)
       case Obj(fields) => SomeMayPanic(cidr, fields)
       case _ => false
  }

  ghost predicate SomeMayPanic(cidr: CidrParser, fields: seq<Field>)
    decreases fields
  {
    exists k :: 0 <= k < |fields| && MayPanic(cidr, fields[k].key, fields[k].val)
  }

  ghost predicate ItemMayPanic(cidr: CidrParser, item: Json)
    decreases item
  {
    item.List? || (item.Obj? && SomeMayPanic(cidr, item.fields))
  }

  ghost predicate ItemsMayPanic(cidr: CidrParser, items: seq<Json>)
    decreases items
  {
    exists i :: 0 <= i < |items| && ItemMayPanic(cidr, items[i]) && forall j :: 0 <= j < i ==> GoodItem(cidr, items[j])
  }

  /** A list occurs directly inside a list. */
  ghost predicate ListsNest(j: Json)
  {
    match j
    case List(items) => exists i :: 0 <= i < |items| && (items[i].List? || ListsNest(items[i]))
    case Obj(fields) => exists i :: 0 <= i < |fields| && ListsNest(fields[i].val)
    case _ => false
  }

  lemma {:induction false} PanicsOnlyIfNested(cidr: CidrParser, name: string, spec: Json)
    requires Panics(cidr, name, spec)
    ensures ListsNest(spec)
    decreases spec, 0
  {
    if spec.List? {
      ItemsPanicOnlyIfNested(cidr, spec.items);
    } else {
      SomePanicsOnlyIfNested(cidr, spec.fields);
    }
  }

  lemma {:induction false} SomePanicsOnlyIfNested(cidr: CidrParser, fields: seq<Field>)
    requires SomePanics(cidr, fields)
    ensures ListsNest(Obj(fields))
    decreases fields, 0
  {
    var k :| 0 <= k < |fields| && Panics(cidr, fields[k].key, fields[k].val);
    PanicsOnlyIfNested(cidr, fields[k].key, fields[k].val);
  }

  lemma {:induction false} ItemsPanicOnlyIfNested(cidr: CidrParser, items: seq<Json>)
    requires ItemsPanic(cidr, items)
    ensures ListsNest(List(items))
    decreases items, 0
  {
    var i :| 0 <= i < |items| && ItemPanics(cidr, items[i]);
    if items[i].Obj? {
      SomePanicsOnlyIfNested(cidr, items[i].fields);
    }
  }

  // ---------- what a compiled closure answers ----------

  ghost predicate Holds(fc: MatchFunc, val: Val)
    decreases fc
  {
    match fc
    case PrefixFn(prefix) => val.Data? && val.j.Str? && prefix <= val.j.s
    case SuffixFn(suffix) =>
      val.Data? && val.j.Str? && |suffix| <= |val.j.s| && val.j.s[|val.j.s| - |suffix|..] == suffix
    case ExistsFn(e) => e <==> val != Absent
    case NumericFn(comparisons) =>
      val.Data? && val.j.Num? && forall k :: 0 <= k < |comparisons| ==> Compare(comparisons[k], val.j.n)
    case NeverFn => false
    case CidrFn(contains) => val.Data? && val.j.Str? && contains(val.j.s)
    case NotScalarFn(scalar) => val != Data(scalar)
    case NotListFn(values, groups) =>
      && !(exists v :: v in values && ValueIn(v, val))
      && (groups == [] || exists a :: 0 <= a < |groups| && NoneHolds(groups[a].fcs, val))
    case NotObjFn(groups) =>
      exists a :: 0 <= a < |groups| && NoneHolds(groups[a].fcs, val)
    case AlwaysFn => true
  }

  ghost predicate NoneHolds(fcs: seq<MatchFunc>, val: Val)
    decreases fcs
  {
    forall j :: 0 <= j < |fcs| ==> !Holds(fcs[j], val)
  }

  ghost predicate Same(cidr: CidrParser, fc: MatchFunc, op: Field)
  {
    forall val :: Holds(fc, val) == OpMeans(cidr, op.key, op.val, val)
  }

  // The entries of the map, seen only through a relation between match functions and operators.

  type Relation = (MatchFunc, Field) -> bool

  /** The groups hold one match function per operator, filed under the operator's name. */
  ghost predicate Grouped(groups: seq<Group>, ops: seq<Field>, same: Relation)
  {
    && (forall a, b :: 0 <= a < |groups| && 0 <= b < |groups| && groups[a].name == groups[b].name ==> a == b)
    && (forall a :: 0 <= a < |groups| ==> groups[a].fcs != [])
    && (forall k {:trigger Filed(groups, ops[k], same)} :: 0 <= k < |ops| ==> Filed(groups, ops[k], same))
    && (forall a, j {:trigger Stems(groups[a].name, groups[a].fcs[j], ops, same)} ::
          0 <= a < |groups| && 0 <= j < |groups[a].fcs| ==> Stems(groups[a].name, groups[a].fcs[j], ops, same))
  }

  ghost predicate Filed(groups: seq<Group>, op: Field, same: Relation)
  {
    exists a, j :: 0 <= a < |groups| && 0 <= j < |groups[a].fcs| &&
      groups[a].name == op.key && same(groups[a].fcs[j], op)
  }

  ghost predicate Stems(name: string, fc: MatchFunc, ops: seq<Field>, same: Relation)
  {
    exists k :: 0 <= k < |ops| && ops[k].key == name && same(fc, ops[k])
  }

  function Add(groups: seq<Group>, name: string, fc: MatchFunc): seq<Group>
  {
    if groups == [] then [Group(name, [fc])]
    else if groups[0].name == name then [Group(name, groups[0].fcs + [fc])] + groups[1..]
    else [groups[0]] + Add(groups[1..], name, fc)
  }

  /** Add changes one group, which is the one with the name or a new one at the end. */
  lemma {:induction false} AddAt(groups: seq<Group>, name: string, fc: MatchFunc) returns (a: nat)
    ensures
      var r := Add(groups, name, fc);
      && a <= |groups| && a < |r| && |r| == (if a < |groups| then |groups| else |groups| + 1)
      && (forall b :: 0 <= b < |groups| && b != a ==> r[b] == groups[b])
      && (a < |groups| ==> groups[a].name == name)
      && (a == |groups| ==> forall b :: 0 <= b < |groups| ==> groups[b].name != name)
      && r[a] == Group(name, (if a < |groups| then groups[a].fcs else []) + [fc])
    decreases |groups|
  {
    if groups == [] || groups[0].name == name {
      a := 0;
    } else {
      var rest := groups[1..];
      var b := AddAt(rest, name, fc);
      a := b + 1;
      assert forall i :: 0 <= i < |rest| ==> groups[i + 1] == rest[i];
      var r := Add(groups, name, fc);
      forall i | 0 <= i < |groups| && i != a
        ensures r[i] == groups[i]
      {
        assert i > 0 ==> r[i] == Add(rest, name, fc)[i - 1];
      }
      assert r[a] == Add(rest, name, fc)[b];
    }
  }

  lemma AddKeepsFiled(groups: seq<Group>, was: Field, name: string, fc: MatchFunc, same: Relation)
    requires Filed(groups, was, same)
    ensures Filed(Add(groups, name, fc), was, same)
  {
    var r := Add(groups, name, fc);
    var a := AddAt(groups, name, fc);
    var b, j :|
      0 <= b < |groups| && 0 <= j < |groups[b].fcs| && groups[b].name == was.key && same(groups[b].fcs[j], was);
    assert r[b].name == groups[b].name && r[b].fcs[j] == groups[b].fcs[j];
  }

  lemma AddKeepsGrouped(groups: seq<Group>, ops: seq<Field>, op: Field, fc: MatchFunc, same: Relation)
    requires Grouped(groups, ops, same) && same(fc, op)
    ensures Grouped(Add(groups, op.key, fc), ops + [op], same)
  {
    var r := Add(groups, op.key, fc);
    var a := AddAt(groups, op.key, fc);
    var all := ops + [op];
    forall k | 0 <= k < |all|
      ensures Filed(r, all[k], same)
    {
      if k < |ops| {
        assert Filed(groups, ops[k], same);
        AddKeepsFiled(groups, ops[k], op.key, fc, same);
      } else {
        assert r[a].fcs[|r[a].fcs| - 1] == fc;
      }
    }
    forall b, j | 0 <= b < |r| && 0 <= j < |r[b].fcs|
      ensures Stems(r[b].name, r[b].fcs[j], all, same)
    {
      if b < |groups| && j < |groups[b].fcs| {
        assert Stems(groups[b].name, groups[b].fcs[j], ops, same);
        var k :| 0 <= k < |ops| && ops[k].key == groups[b].name && same(groups[b].fcs[j], ops[k]);
        assert all[k] == ops[k];
      } else {
        assert all[|ops|] == op;
      }
    }
  }

  ghost predicate GroupFails(groups: seq<Group>, a: int, holds: MatchFunc -> bool)
  {
    0 <= a < |groups| && forall j :: 0 <= j < |groups[a].fcs| ==> !holds(groups[a].fcs[j])
  }

  /** No specification filed under the name of the k-th operator accepts. */
  ghost predicate NameFails(ops: seq<Field>, k: int, means: Field -> bool)
  {
    0 <= k < |ops| && forall l :: 0 <= l < |ops| && ops[l].key == ops[k].key ==> !means(ops[l])
  }

  /** Some group fails as a whole just if some operator name fails in all of its specifications. */
  lemma SomeGroupFails(
    groups: seq<Group>, ops: seq<Field>, same: Relation, holds: MatchFunc -> bool, means: Field -> bool)
    requires Grouped(groups, ops, same)
    requires forall fc, op :: same(fc, op) ==> holds(fc) == means(op)
    ensures (exists a :: GroupFails(groups, a, holds)) <==> (exists k :: NameFails(ops, k, means))
    ensures groups == [] <==> ops == []
  {
    forall a | GroupFails(groups, a, holds)
      ensures exists k :: NameFails(ops, k, means)
    {
      assert Stems(groups[a].name, groups[a].fcs[0], ops, same);
      var k :| 0 <= k < |ops| && ops[k].key == groups[a].name;
      forall l | 0 <= l < |ops| && ops[l].key == ops[k].key
        ensures !means(ops[l])
      {
        assert Filed(groups, ops[l], same);
      }
      assert NameFails(ops, k, means);
    }
    forall k | NameFails(ops, k, means)
      ensures exists a :: GroupFails(groups, a, holds)
    {
      assert Filed(groups, ops[k], same);
      var a :| 0 <= a < |groups| && groups[a].name == ops[k].key;
      forall j | 0 <= j < |groups[a].fcs|
        ensures !holds(groups[a].fcs[j])
      {
        assert Stems(groups[a].name, groups[a].fcs[j], ops, same);
      }
      assert GroupFails(groups, a, holds);
    }
    if ops != [] {
      assert Filed(groups, ops[0], same);
    }
    if groups != [] {
      assert Stems(groups[0].name, groups[0].fcs[0], ops, same);
    }
  }

  // ---------- building closures ----------

  ghost function SameFor(cidr: CidrParser): Relation
  {
    (fc, op) => Same(cidr, fc, op)
  }

  ghost function Holding(val: Val): MatchFunc -> bool
  {
    fc => Holds(fc, val)
  }

  ghost function Accepting(cidr: CidrParser, val: Val): Field -> bool
  {
    (op: Field) => OpMeans(cidr, op.key, op.val, val)
  }

  /** The operators of the objects in a list. */
  function Flat(items: seq<Json>): seq<Field>
  {
    if items == [] then []
    else
      var last := items[|items| - 1];
      Flat(items[..|items| - 1]) + if last.Obj? then last.fields else []
  }

  lemma {:induction false} FlatHas(items: seq<Json>, op: Field)
    ensures op in Flat(items) <==> exists i, k :: IsOpAt(items, i, k) && items[i].fields[k] == op
    decreases |items|
  {
    if items != [] {
      var n := |items| - 1;
      var init := items[..n];
      FlatHas(init, op);
      if i, k :| IsOpAt(init, i, k) && init[i].fields[k] == op {
        assert IsOpAt(items, i, k);
      }
      if items[n].Obj? && op in items[n].fields {
        var k :| 0 <= k < |items[n].fields| && items[n].fields[k] == op;
        assert IsOpAt(items, n, k);
      }
      if i, k :| IsOpAt(items, i, k) && items[i].fields[k] == op && i < n {
        assert IsOpAt(init, i, k);
      }
    }
  }

  ghost function Scalars(items: seq<Json>): set<Json>
  {
    set v | v in items && Hashable(v)
  }

  lemma ScalarsListed(items: seq<Json>, val: Val)
    ensures Listed(items, val) <==> exists v :: v in Scalars(items) && ValueIn(v, val)
  {
    if v :| v in Scalars(items) && ValueIn(v, val) {
      var i :| 0 <= i < |items| && items[i] == v;
    }
    if i :| 0 <= i < |items| && Hashable(items[i]) && ValueIn(items[i], val) {
      assert items[i] in Scalars(items);
    }
  }

  /** No specification in the list under the name of the operator at (i, k) accepts. */
  ghost predicate NameFailsAt(items: seq<Json>, i: int, k: int, means: Field -> bool)
  {
    && IsOpAt(items, i, k)
    && forall j, l :: IsOpAt(items, j, l) && items[j].fields[l].key == items[i].fields[k].key
         ==> !means(items[j].fields[l])
  }

  lemma FlatNameFails(items: seq<Json>, means: Field -> bool)
    ensures (exists k :: NameFails(Flat(items), k, means)) <==> exists i, k :: NameFailsAt(items, i, k, means)
    ensures Flat(items) == [] <==> forall i, k :: !IsOpAt(items, i, k)
  {
    var ops := Flat(items);
    forall i, k | IsOpAt(items, i, k)
      ensures items[i].fields[k] in ops
    {
      FlatHas(items, items[i].fields[k]);
    }
    if i, k :| NameFailsAt(items, i, k, means) {
      var n :| 0 <= n < |ops| && ops[n] == items[i].fields[k];
      forall l | 0 <= l < |ops| && ops[l].key == ops[n].key
        ensures !means(ops[l])
      {
        FlatHas(items, ops[l]);
      }
      assert NameFails(ops, n, means);
    }
    if n :| NameFails(ops, n, means) {
      FlatHas(items, ops[n]);
      var i, k :| IsOpAt(items, i, k) && items[i].fields[k] == ops[n];
      assert NameFailsAt(items, i, k, means);
    }
    if ops != [] {
      FlatHas(items, ops[0]);
    }
  }

  /** The list form of anything-but in terms of the flattened operators. */
  lemma ListMeaning(cidr: CidrParser, items: seq<Json>, val: Val)
    ensures ButMeans(cidr, List(items), val) <==>
              && !Listed(items, val)
              && (Flat(items) == [] || exists k :: NameFails(Flat(items), k, Accepting(cidr, val)))
  {
    FlatNameFails(items, Accepting(cidr, val));
    forall i, k
      ensures NameFailsAt(items, i, k, Accepting(cidr, val)) <==> NobodyAccepts(cidr, items, i, k, val)
    {
    }
  }

  lemma GroupFailsMeaning(groups: seq<Group>, a: int, val: Val)
    ensures GroupFails(groups, a, Holding(val)) <==> 0 <= a < |groups| && NoneHolds(groups[a].fcs, val)
  {
  }

  lemma NotListIsBut(cidr: CidrParser, items: seq<Json>, groups: seq<Group>, val: Val)
    requires Grouped(groups, Flat(items), SameFor(cidr))
    ensures Holds(NotListFn(Scalars(items), groups), val) == ButMeans(cidr, List(items), val)
  {
    SomeGroupFails(groups, Flat(items), SameFor(cidr), Holding(val), Accepting(cidr, val));
    ScalarsListed(items, val);
    ListMeaning(cidr, items, val);
    forall a {
      GroupFailsMeaning(groups, a, val);
    }
  }

  lemma NotObjIsBut(cidr: CidrParser, fields: seq<Field>, groups: seq<Group>, val: Val)
    requires Distinct(Obj(fields)) && fields != []
    requires Grouped(groups, fields, SameFor(cidr))
    ensures Holds(NotObjFn(groups), val) == ButMeans(cidr, Obj(fields), val)
  {
    SomeGroupFails(groups, fields, SameFor(cidr), Holding(val), Accepting(cidr, val));
    forall a {
      GroupFailsMeaning(groups, a, val);
    }
    forall k | 0 <= k < |fields|
      ensures NameFails(fields, k, Accepting(cidr, val)) <==> !OpMeans(cidr, fields[k].key, fields[k].val, val)
    {
    }
  }

  method NewNumeric(items: seq<Json>) returns (r: Built<MatchFunc>)
    ensures r.Built? <==> forall k :: 0 <= k < |items| / 2 ==> IsBound(items, k)
    ensures r.Built? ==> forall val ::
      Holds(r.fc, val) == (|items| >= 2 && val.Data? && val.j.Num? &&
        forall k :: 0 <= k < |items| / 2 ==> Compare(BoundAt(items, k), val.j.n))
    ensures !r.Panicked?
  {
    if |items| < 2 {
      return Built(NeverFn);
    }
    var comparisons := [];
    for k := 0 to |items| / 2
      invariant |comparisons| == k
      invariant forall l :: 0 <= l < k ==> IsBound(items, l) && comparisons[l] == BoundAt(items, l)
    {
      if !items[2 * k + 1].Num? || !items[2 * k].Str? || !IsComparison(items[2 * k].s) {
        assert !IsBound(items, k);
        return Rejected;
      }
      comparisons := comparisons + [Comparison(items[2 * k].s, items[2 * k + 1].n)];
    }
    r := Built(NumericFn(comparisons));
  }

  /** Builds the match function with the given name from its specification. */
  method New(cidr: CidrParser, name: string, spec: Json) returns (r: Built<MatchFunc>)
    requires Distinct(spec)
    ensures r.Built? <==> GoodOp(cidr, name, spec)
    ensures r.Built? ==> Same(cidr, r.fc, Field(name, spec))
    ensures r.Panicked? <==> Panics(cidr, name, spec)
    decreases spec, 2
  {
    if name == "prefix" {
      r := if spec.Str? then Built(PrefixFn(spec.s)) else Rejected;
    } else if name == "suffix" {
      r := if spec.Str? then Built(SuffixFn(spec.s)) else Rejected;
    } else if name == "exists" {
      r := if spec.Bool? then Built(ExistsFn(spec.b)) else Rejected;
    } else if name == "numeric" {
      if spec.List? {
        r := NewNumeric(spec.items);
      } else {
        r := Rejected;
      }
    } else if name == "cidr" {
      r := if spec.Str? && cidr(spec.s).Some? then Built(CidrFn(cidr(spec.s).value)) else Rejected;
    } else if name == "anything-but" {
      r := NewAnythingBut(cidr, spec);
    } else {
      r := Rejected;
    }
  }

  method NewAnythingBut(cidr: CidrParser, spec: Json) returns (r: Built<MatchFunc>)
    requires Distinct(spec)
    ensures r.Built? <==> GoodOp(cidr, "anything-but", spec)
    ensures r.Built? ==> forall val :: Holds(r.fc, val) == ButMeans(cidr, spec, val)
    ensures r.Panicked? <==> Panics(cidr, "anything-but", spec)
    decreases spec, 1
  {
    match spec
    case List(items) => r := NewButList(cidr, items);
    case Obj(fields) =>
      if |fields| == 0 {
        return Built(AlwaysFn);
      }
      var f, groups := AddAll(cidr, fields, [], []);
      if f != None {
        return f.value;
      }
      assert [] + fields == fields;
      forall val {
        NotObjIsBut(cidr, fields, groups, val);
      }
      r := Built(NotObjFn(groups));
    case _ =>
      r := if spec.Str? || spec.Num? then Built(NotScalarFn(spec)) else Rejected;
  }

  /** Builds a match function for each of the operators and adds it to the groups; stops at the
      first that cannot be built. */
  method AddAll(cidr: CidrParser, fields: seq<Field>, groups: seq<Group>, ghost ops: seq<Field>)
    returns (failure: Option<Built<MatchFunc>>, all: seq<Group>)
    requires Distinct(Obj(fields)) && Grouped(groups, ops, SameFor(cidr))
    ensures failure == None <==> AllGood(cidr, fields)
    ensures failure == None ==> Grouped(all, ops + fields, SameFor(cidr))
    ensures failure.Some? ==> !failure.value.Built?
    ensures (failure.Some? && failure.value.Panicked?) <==> SomePanics(cidr, fields)
    decreases fields, 0
  {
    all := groups;
    assert ops + fields[..0] == ops;
    for k := 0 to |fields|
      invariant Grouped(all, ops + fields[..k], SameFor(cidr))
      invariant forall l :: 0 <= l < k ==>
        GoodOp(cidr, fields[l].key, fields[l].val) && !Panics(cidr, fields[l].key, fields[l].val)
    {
      var f := New(cidr, fields[k].key, fields[k].val);
      if !f.Built? {
        return Some(f), all;
      }
      AddKeepsGrouped(all, ops + fields[..k], fields[k], f.fc, SameFor(cidr));
      assert ops + fields[..k] + [fields[k]] == ops + fields[..k + 1];
      all := Add(all, fields[k].key, f.fc);
    }
    assert fields[..|fields|] == fields;
    failure := None;
  }

  lemma BadItemDecides(cidr: CidrParser, items: seq<Json>, i: nat)
    requires i < |items| && !GoodItem(cidr, items[i])
    requires forall j :: 0 <= j < i ==> GoodItem(cidr, items[j]) && !ItemPanics(cidr, items[j])
    ensures !GoodOp(cidr, "anything-but", List(items))
    ensures ItemsPanic(cidr, items) <==> ItemPanics(cidr, items[i])
    ensures Panics(cidr, "anything-but", List(items)) <==> ItemPanics(cidr, items[i])
  {
  }

  lemma GoodItemsSuffice(cidr: CidrParser, items: seq<Json>)
    requires forall i :: 0 <= i < |items| ==> GoodItem(cidr, items[i]) && !ItemPanics(cidr, items[i])
    ensures GoodOp(cidr, "anything-but", List(items))
    ensures !ItemsPanic(cidr, items) && !Panics(cidr, "anything-but", List(items))
  {
  }

  lemma NextItem(items: seq<Json>, i: nat)
    requires i < |items|
    ensures Scalars(items[..i + 1]) == Scalars(items[..i]) + if Hashable(items[i]) then {items[i]} else {}
    ensures Flat(items[..i + 1]) == if items[i].Obj? then Flat(items[..i]) + items[i].fields else Flat(items[..i])
  {
    assert items[..i + 1][..i] == items[..i];
    assert items[..i + 1] == items[..i] + [items[i]];
  }

  method NewButList(cidr: CidrParser, items: seq<Json>) returns (r: Built<MatchFunc>)
    requires Distinct(List(items))
    ensures r.Built? <==> GoodOp(cidr, "anything-but", List(items))
    ensures r.Built? ==> forall val :: Holds(r.fc, val) == ButMeans(cidr, List(items), val)
    ensures r.Panicked? <==> Panics(cidr, "anything-but", List(items))
    decreases items, 0
  {
    hide Grouped, SameFor, GoodOp, Panics, ItemsPanic, SomePanics, AllGood, Flat, Scalars, Holds, ButMeans;
    var values := {};
    var groups := [];
    NothingYet(cidr, items);
    for i := 0 to |items|
      invariant values == Scalars(items[..i])
      invariant Grouped(groups, Flat(items[..i]), SameFor(cidr))
      invariant forall j :: 0 <= j < i ==> GoodItem(cidr, items[j]) && !ItemPanics(cidr, items[j])
    {
      NextItem(items, i);
      var item := items[i];
      if !item.Obj? {
        if item.List? {
          BadItemDecides(cidr, items, i);
          return Panicked;
        }
        values := values + {item};
        continue;
      }
      var f;
      f, groups := AddAll(cidr, item.fields, groups, Flat(items[..i]));
      if f != None {
        BadItemDecides(cidr, items, i);
        return f.value;
      }
    }
    assert items[..|items|] == items;
    GoodItemsSuffice(cidr, items);
    forall val {
      NotListIsBut(cidr, items, groups, val);
    }
    r := Built(NotListFn(values, groups));
  }

  lemma NothingYet(cidr: CidrParser, items: seq<Json>)
    ensures Scalars(items[..0]) == {} && Grouped([], Flat(items[..0]), SameFor(cidr))
  {
  }

  // ---------- when a call crashes ----------

  /** Values that can be looked up in a set of listed values without a panic. */
  ghost predicate Tame(val: Val)
  {
    val.Data? ==> !val.j.Obj? && (val.j.List? ==> forall v :: v in val.j.items ==> Hashable(v))
  }

  ghost predicate Found(values: set<Json>, val: Val)
  {
    exists v :: v in values && ValueIn(v, val)
  }

  /** The field is an object, or a list in which an element that cannot be a map key comes before any
      listed one. */
  ghost predicate LookUpCrashes(values: set<Json>, val: Val)
  {
    val.Data? && (val.j.Obj? || (val.j.List? && Trips(values, val.j.items)))
  }

  ghost predicate Trips(values: set<Json>, items: seq<Json>)
  {
    exists i :: 0 <= i < |items| && !Hashable(items[i]) && forall j :: 0 <= j < i ==> items[j] !in values
  }

  /** The order in which the entries of a map are ranged over. */
  type Order = seq<Group> -> seq<Group>

  ghost predicate Rearranges(order: Order)
  {
    forall groups :: Rearranged(order, groups)
  }

  ghost predicate Rearranged(order: Order, groups: seq<Group>)
  {
    (forall g :: g in order(groups) ==> g in groups) && forall g :: g in groups ==> g in order(groups)
  }

  /** A call of the closure crashes when its maps are ranged over in this order. */
  ghost predicate Crashes(order: Order, fc: MatchFunc, val: Val)
    decreases fc
  {
    match fc
    case NotListFn(values, groups) =>
      LookUpCrashes(values, val) || (!Found(values, val) && SomeGroupCrashes(order, groups, val))
    case NotObjFn(groups) => SomeGroupCrashes(order, groups, val)
    case _ => false
  }

  /** Some group crashes before one is reached of which none holds. */
  ghost predicate SomeGroupCrashes(order: Order, groups: seq<Group>, val: Val)
    decreases groups
  {
    var o := order(groups);
    exists a {:trigger o[a]} :: 0 <= a < |o| && o[a] in groups && GroupCrashes(order, o[a], val)
      && forall b {:trigger o[b]} :: 0 <= b < a ==>
           !(o[b] in groups && GroupCrashes(order, o[b], val)) && !NoneHolds(o[b].fcs, val)
  }

  /** A function of the group crashes before one is reached that holds. */
  ghost predicate GroupCrashes(order: Order, g: Group, val: Val)
    decreases g
  {
    exists j :: 0 <= j < |g.fcs| && Crashes(order, g.fcs[j], val)
      && forall l :: 0 <= l < j ==> !Crashes(order, g.fcs[l], val) && !Holds(g.fcs[l], val)
  }

  lemma TameNeverCrashes(order: Order, fc: MatchFunc, val: Val)
    requires Tame(val)
    ensures !Crashes(order, fc, val)
    decreases fc
  {
    if fc.NotListFn? || fc.NotObjFn? {
      forall g | g in fc.groups
        ensures !GroupCrashes(order, g, val)
      {
        forall j | 0 <= j < |g.fcs|
          ensures !Crashes(order, g.fcs[j], val)
        {
          TameNeverCrashes(order, g.fcs[j], val);
        }
      }
    }
  }

  // ---------- calling closures ----------

  /** Is some value of the field one of `values`? */
  method LookUp(values: set<Json>, val: Val) returns (r: Outcome)
    ensures r.Crash? <==> LookUpCrashes(values, val)
    ensures r.Is? ==> (r.res <==> Found(values, val))
  {
    if !val.Data? {
      return Is(false);
    }
    if !val.j.List? {
      return if Hashable(val.j) then Is(val.j in values) else Crash;
    }
    var items := val.j.items;
    for i := 0 to |items|
      invariant forall j :: 0 <= j < i ==> items[j] !in values && Hashable(items[j])
    {
      if !Hashable(items[i]) {
        return Crash;
      }
      if items[i] in values {
        return Is(true);
      }
    }
    r := Is(false);
  }

  /** Does none of the match functions hold? They are called in turn until one does. */
  method NoneHold(order: Order, g: Group, val: Val) returns (r: Outcome)
    requires Rearranges(order)
    ensures r.Crash? <==> GroupCrashes(order, g, val)
    ensures r.Is? ==> r.res == NoneHolds(g.fcs, val)
    decreases g, 0
  {
    for j := 0 to |g.fcs|
      invariant forall l :: 0 <= l < j ==> !Crashes(order, g.fcs[l], val) && !Holds(g.fcs[l], val)
    {
      var mr := Run(order, g.fcs[j], val);
      if mr.Crash? {
        return Crash;
      }
      if mr.res {
        return Is(false);
      }
    }
    r := Is(true);
  }

  /** Is there a group of which none holds? The map of groups is ranged over in the given order. */
  method SomeGroupHoldsNone(order: Order, groups: seq<Group>, val: Val) returns (r: Outcome)
    requires Rearranges(order)
    ensures r.Crash? <==> SomeGroupCrashes(order, groups, val)
    ensures r.Is? ==> (r.res <==> exists a :: 0 <= a < |groups| && NoneHolds(groups[a].fcs, val))
    decreases groups, 0
  {
    hide GroupCrashes, NoneHolds;
    var o := order(groups);
    assert Rearranged(order, groups);
    for a := 0 to |o|
      invariant forall b :: 0 <= b < a ==> !GroupCrashes(order, o[b], val) && !NoneHolds(o[b].fcs, val)
    {
      assert o[a] in groups;
      var none := NoneHold(order, o[a], val);
      if none.Crash? {
        return Crash;
      }
      if none.res {
        ghost var m :| 0 <= m < |groups| && groups[m] == o[a];
        return Is(true);
      }
    }
    forall m | 0 <= m < |groups|
      ensures !NoneHolds(groups[m].fcs, val)
    {
      assert groups[m] in o;
    }
    r := Is(false);
  }

  method RunNumeric(comparisons: seq<Comparison>, val: Val) returns (ok: bool)
    ensures ok == Holds(NumericFn(comparisons), val)
  {
    if !val.Data? || !val.j.Num? {
      return false;
    }
    for k := 0 to |comparisons|
      invariant forall l :: 0 <= l < k ==> Compare(comparisons[l], val.j.n)
    {
      if !Compare(comparisons[k], val.j.n) {
        return false;
      }
    }
    ok := true;
  }

  /** Calls the closure: it crashes exactly when that is said to happen in this order, and otherwise
      the answer is the right one, which does not depend on the order. */
  method Run(order: Order, fc: MatchFunc, val: Val) returns (r: Outcome)
    requires Rearranges(order)
    ensures r.Crash? <==> Crashes(order, fc, val)
    ensures r.Is? ==> r.res == Holds(fc, val)
    decreases fc, 1
  {
    match fc
    case PrefixFn(prefix) => r := Is(val.Data? && val.j.Str? && prefix <= val.j.s);
    case SuffixFn(suffix) =>
      r := Is(val.Data? && val.j.Str? && |suffix| <= |val.j.s| && val.j.s[|val.j.s| - |suffix|..] == suffix);
    case ExistsFn(e) => r := Is(e == (val != Absent));
    case NumericFn(comparisons) =>
      var ok := RunNumeric(comparisons, val);
      r := Is(ok);
    case NeverFn => r := Is(false);
    case CidrFn(contains) => r := Is(val.Data? && val.j.Str? && contains(val.j.s));
    case NotScalarFn(scalar) => r := Is(val != Data(scalar));
    case NotListFn(values, groups) =>
      r := LookUp(values, val);
      if r.Crash? {
        return;
      }
      if r.res {
        return Is(false);
      }
      if |groups| == 0 {
        assert Rearranged(order, groups);
        return Is(true);
      }
      r := SomeGroupHoldsNone(order, groups, val);
    case NotObjFn(groups) => r := SomeGroupHoldsNone(order, groups, val);
    case AlwaysFn => r := Is(true);
  }

  // ---------- anything-but is a negation ----------

  /** Around a single operator, anything-but is its negation. */
  lemma ButNegates(cidr: CidrParser, name: string, spec: Json, val: Val)
    ensures OpMeans(cidr, "anything-but", Obj([Field(name, spec)]), val) == !OpMeans(cidr, name, spec, val)
  {
    var fields := [Field(name, spec)];
    assert fields[0].key == name && fields[0].val == spec;
  }

  /** Twice around a string or a number, it is equality. */
  lemma ButTwiceIsEquality(cidr: CidrParser, scalar: Json, val: Val)
    requires scalar.Str? || scalar.Num?
    ensures OpMeans(cidr, "anything-but", Obj([Field("anything-but", scalar)]), val) <==> val == Data(scalar)
  {
    ButNegates(cidr, "anything-but", scalar, val);
  }
}
