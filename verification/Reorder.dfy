/**
 The orders in which the objects of a JSON tree may be ranged over, at every level: in the pattern
 itself, in the operator objects of its lists, and in the specifications of anything-but. What
 operators mean, and whether they can be compiled, does not depend on them; whether something that
 cannot be compiled is rejected or panics does.
 */
module Reorderings {
  import opened Events
  import opened Operators

  /** q is p with the fields of every object ranged over in another order. Lists keep theirs. */
  ghost predicate Reorder(p: Json, q: Json)
    decreases p
  {
    match p
    case Obj(fields) =>
      && q.Obj? && |fields| == |q.fields|
      && (forall i {:trigger HasTwin(fields[i], q.fields)} :: 0 <= i < |fields| ==> HasTwin(fields[i], q.fields))
      && (forall j {:trigger IsTwin(fields, q.fields[j])} :: 0 <= j < |q.fields| ==> IsTwin(fields, q.fields[j]))
    case List(items) =>
      q.List? && |items| == |q.items| && forall i :: 0 <= i < |items| ==> Reorder(items[i], q.items[i])
    case _ => p == q
  }

  ghost predicate HasTwin(f: Field, fields: seq<Field>)
    decreases f
  {
    exists j :: 0 <= j < |fields| && f.key == fields[j].key && Reorder(f.val, fields[j].val)
  }

  ghost predicate IsTwin(fields: seq<Field>, f: Field)
    decreases fields
  {
    exists i :: 0 <= i < |fields| && fields[i].key == f.key && Reorder(fields[i].val, f.val)
  }

  lemma TwinOf(fields: seq<Field>, others: seq<Field>, i: nat) returns (j: nat)
    requires Reorder(Obj(fields), Obj(others)) && i < |fields|
    ensures j < |others| && fields[i].key == others[j].key && Reorder(fields[i].val, others[j].val)
  {
    assert HasTwin(fields[i], others);
    j :| 0 <= j < |others| && fields[i].key == others[j].key && Reorder(fields[i].val, others[j].val);
  }

  lemma TwinFor(fields: seq<Field>, others: seq<Field>, j: nat) returns (i: nat)
    requires Reorder(Obj(fields), Obj(others)) && j < |others|
    ensures i < |fields| && fields[i].key == others[j].key && Reorder(fields[i].val, others[j].val)
  {
    assert IsTwin(fields, others[j]);
    i :| 0 <= i < |fields| && fields[i].key == others[j].key && Reorder(fields[i].val, others[j].val);
  }

  lemma {:induction false} ReorderReflexive(p: Json)
    ensures Reorder(p, p)
    decreases p
  {
    if p.Obj? {
      forall i | 0 <= i < |p.fields|
        ensures HasTwin(p.fields[i], p.fields) && IsTwin(p.fields, p.fields[i])
      {
        ReorderReflexive(p.fields[i].val);
      }
    } else if p.List? {
      forall i | 0 <= i < |p.items|
        ensures Reorder(p.items[i], p.items[i])
      {
        ReorderReflexive(p.items[i]);
      }
    }
  }

  /** An object with two of its fields exchanged, and one of them reordered inside. */
  lemma ReorderExchange(p: Json, i: nat, j: nat, v: Json)
    requires p.Obj? && i < |p.fields| && j < |p.fields| && Reorder(p.fields[j].val, v)
    ensures Reorder(p, Obj(Exchanged(p.fields, i, j, v)))
  {
    var fs := Exchanged(p.fields, i, j, v);
    forall k | 0 <= k < |fs|
      ensures HasTwin(p.fields[k], fs) && IsTwin(p.fields, fs[k])
    {
      var l := if k == i then j else if k == j then i else k;
      assert p.fields[k].key == fs[l].key && p.fields[l].key == fs[k].key;
      ReorderReflexive(p.fields[k].val);
      ReorderReflexive(p.fields[l].val);
    }
  }

  lemma ExchangeKeepsDistinct(fields: seq<Field>, i: nat, j: nat, v: Json)
    requires i < |fields| && j < |fields| && Distinct(Obj(fields)) && Distinct(v)
    ensures Distinct(Obj(Exchanged(fields, i, j, v)))
  {
  }

  function Exchanged(fields: seq<Field>, i: nat, j: nat, v: Json): seq<Field>
    requires i < |fields| && j < |fields|
  {
    fields[j := fields[i]][i := Field(fields[j].key, v)]
  }

  // ---------- operators in any order ----------

  /** For every operator there is one among the others with its name that accepts just as it does. */
  ghost predicate Covered(ops: seq<Field>, others: seq<Field>, means: Field -> bool)
  {
    forall k :: 0 <= k < |ops| ==> CoveredAt(ops[k], others, means)
  }

  ghost predicate CoveredAt(op: Field, others: seq<Field>, means: Field -> bool)
  {
    exists l :: 0 <= l < |others| && others[l].key == op.key && means(others[l]) == means(op)
  }

  lemma NothingCovered(means: Field -> bool)
    ensures Covered([], [], means)
  {
  }

  lemma CoveredConcat(a: seq<Field>, b: seq<Field>, c: seq<Field>, d: seq<Field>, means: Field -> bool)
    requires Covered(a, b, means) && Covered(c, d, means)
    ensures Covered(a + c, b + d, means)
  {
    forall k | 0 <= k < |a + c|
      ensures CoveredAt((a + c)[k], b + d, means)
    {
      if k < |a| {
        assert CoveredAt(a[k], b, means);
        var l :| 0 <= l < |b| && b[l].key == a[k].key && means(b[l]) == means(a[k]);
        assert (b + d)[l] == b[l];
      } else {
        assert CoveredAt(c[k - |a|], d, means);
        var l :| 0 <= l < |d| && d[l].key == c[k - |a|].key && means(d[l]) == means(c[k - |a|]);
        assert (b + d)[|b| + l] == d[l];
      }
    }
  }

  /** If one name fails in all of its specifications here, it does so there. */
  lemma FailingCovered(ops: seq<Field>, others: seq<Field>, means: Field -> bool)
    requires Covered(ops, others, means) && Covered(others, ops, means)
    ensures (exists k :: NameFails(ops, k, means)) ==> exists l :: NameFails(others, l, means)
  {
    if k :| NameFails(ops, k, means) {
      assert CoveredAt(ops[k], others, means);
      var l :| 0 <= l < |others| && others[l].key == ops[k].key;
      forall m | 0 <= m < |others| && others[m].key == others[l].key
        ensures !means(others[m])
      {
        assert CoveredAt(others[m], ops, means);
      }
      assert NameFails(others, l, means);
    }
  }

  lemma ListedInAnyOrder(items: seq<Json>, others: seq<Json>, val: Val)
    requires Reorder(List(items), List(others))
    ensures Listed(items, val) == Listed(others, val)
  {
    assert forall i :: 0 <= i < |items| ==> Reorder(items[i], others[i]);
    assert forall i :: 0 <= i < |items| && (Hashable(items[i]) || Hashable(others[i])) ==> items[i] == others[i];
  }

  /** What an operator means does not depend on any order. */
  lemma {:induction false} OpInAnyOrder(cidr: CidrParser, name: string, spec: Json, other: Json, val: Val)
    requires Reorder(spec, other)
    ensures OpMeans(cidr, name, spec, val) == OpMeans(cidr, name, other, val)
    decreases spec, 2
  {
    if name == "anything-but" {
      ButInAnyOrder(cidr, spec, other, val);
    } else if name == "numeric" && spec.List? {
      BoundsInAnyOrder(spec.items, other.items);
    }
  }

  lemma BoundsInAnyOrder(items: seq<Json>, others: seq<Json>)
    requires Reorder(List(items), List(others))
    ensures |items| == |others|
    ensures forall k :: 0 <= k < |items| / 2 ==> IsBound(items, k) == IsBound(others, k)
    ensures forall k :: 0 <= k < |items| / 2 && IsBound(items, k) ==> BoundAt(items, k) == BoundAt(others, k)
  {
    forall i | 0 <= i < |items|
      ensures items[i].Str? || items[i].Num? || others[i].Str? || others[i].Num? ==> items[i] == others[i]
    {
      assert Reorder(items[i], others[i]);
    }
  }

  lemma {:induction false} ButInAnyOrder(cidr: CidrParser, spec: Json, other: Json, val: Val)
    requires Reorder(spec, other)
    ensures ButMeans(cidr, spec, val) == ButMeans(cidr, other, val)
    decreases spec, 1
  {
    if spec.List? {
      ItemsInAnyOrder(cidr, spec.items, other.items, val);
      ListedInAnyOrder(spec.items, other.items, val);
      CoveredLists(cidr, spec.items, other.items, val);
    } else if spec.Obj? {
      FieldsInAnyOrder(cidr, spec.fields, other.fields, val);
      CoveredObjects(cidr, spec.fields, other.fields, val);
      CoveredObjects(cidr, other.fields, spec.fields, val);
    }
  }

  lemma CoveredObjects(cidr: CidrParser, fields: seq<Field>, others: seq<Field>, val: Val)
    requires Covered(fields, others, Accepting(cidr, val)) && |fields| == |others|
    ensures ButMeans(cidr, Obj(fields), val) ==> ButMeans(cidr, Obj(others), val)
  {
    if k :| 0 <= k < |fields| && !OpMeans(cidr, fields[k].key, fields[k].val, val) {
      assert CoveredAt(fields[k], others, Accepting(cidr, val));
      var l :| 0 <= l < |others| && Accepting(cidr, val)(others[l]) == Accepting(cidr, val)(fields[k]);
      assert !OpMeans(cidr, others[l].key, others[l].val, val);
    }
  }

  lemma CoveredLists(cidr: CidrParser, items: seq<Json>, others: seq<Json>, val: Val)
    requires Covered(Flat(items), Flat(others), Accepting(cidr, val))
    requires Covered(Flat(others), Flat(items), Accepting(cidr, val))
    requires Listed(items, val) == Listed(others, val)
    ensures ButMeans(cidr, List(items), val) == ButMeans(cidr, List(others), val)
  {
    hide Listed, ButMeans, NameFails;
    var means := Accepting(cidr, val);
    ListMeaning(cidr, items, val);
    ListMeaning(cidr, others, val);
    FailingCovered(Flat(items), Flat(others), means);
    FailingCovered(Flat(others), Flat(items), means);
    assert Flat(items) != [] ==> CoveredAt(Flat(items)[0], Flat(others), means);
    assert Flat(others) != [] ==> CoveredAt(Flat(others)[0], Flat(items), means);
  }

  lemma {:induction false} FieldsInAnyOrder(cidr: CidrParser, fields: seq<Field>, others: seq<Field>, val: Val)
    requires Reorder(Obj(fields), Obj(others))
    ensures Covered(fields, others, Accepting(cidr, val)) && Covered(others, fields, Accepting(cidr, val))
    decreases fields, 0
  {
    var means := Accepting(cidr, val);
    forall i | 0 <= i < |fields|
      ensures CoveredAt(fields[i], others, means)
    {
      var j := TwinOf(fields, others, i);
      OpInAnyOrder(cidr, fields[i].key, fields[i].val, others[j].val, val);
    }
    forall j | 0 <= j < |others|
      ensures CoveredAt(others[j], fields, means)
    {
      var i := TwinFor(fields, others, j);
      OpInAnyOrder(cidr, fields[i].key, fields[i].val, others[j].val, val);
    }
  }

  lemma {:induction false} ItemsInAnyOrder(cidr: CidrParser, items: seq<Json>, others: seq<Json>, val: Val)
    requires Reorder(List(items), List(others))
    ensures Covered(Flat(items), Flat(others), Accepting(cidr, val))
    ensures Covered(Flat(others), Flat(items), Accepting(cidr, val))
    decreases items, 0
  {
    hide Covered, Accepting;
    if items == [] {
      NothingCovered(Accepting(cidr, val));
    } else {
      var n := |items| - 1;
      ItemsInAnyOrder(cidr, items[..n], others[..n], val);
      assert Reorder(items[n], others[n]);
      if items[n].Obj? {
        FieldsInAnyOrder(cidr, items[n].fields, others[n].fields, val);
        ObjectLast(items, others, Accepting(cidr, val));
        ObjectLast(others, items, Accepting(cidr, val));
      } else {
        assert Flat(items[..n]) + [] == Flat(items[..n]) && Flat(others[..n]) + [] == Flat(others[..n]);
      }
    }
  }

  lemma ObjectLast(items: seq<Json>, others: seq<Json>, means: Field -> bool)
    requires |items| == |others| != 0 && items[|items| - 1].Obj? && others[|others| - 1].Obj?
    requires Covered(Flat(items[..|items| - 1]), Flat(others[..|others| - 1]), means)
    requires Covered(items[|items| - 1].fields, others[|others| - 1].fields, means)
    ensures Covered(Flat(items), Flat(others), means)
  {
    var n := |items| - 1;
    CoveredConcat(Flat(items[..n]), Flat(others[..n]), items[n].fields, others[n].fields, means);
  }

  /** Nor does it depend on any order whether an operator can be compiled. */
  lemma {:induction false} GoodInAnyOrder(cidr: CidrParser, name: string, spec: Json, other: Json)
    requires Reorder(spec, other)
    ensures GoodOp(cidr, name, spec) == GoodOp(cidr, name, other)
    decreases spec, 1
  {
    if name == "anything-but" && spec.Obj? {
      AllGoodInAnyOrder(cidr, spec.fields, other.fields);
    } else if name == "anything-but" && spec.List? {
      forall i | 0 <= i < |spec.items|
        ensures GoodItem(cidr, spec.items[i]) == GoodItem(cidr, other.items[i])
      {
        GoodItemInAnyOrder(cidr, spec.items[i], other.items[i]);
      }
    } else if name == "numeric" && spec.List? {
      BoundsInAnyOrder(spec.items, other.items);
    }
  }

  lemma {:induction false} GoodItemInAnyOrder(cidr: CidrParser, item: Json, other: Json)
    requires Reorder(item, other)
    ensures GoodItem(cidr, item) == GoodItem(cidr, other)
    decreases item, 0
  {
    if item.Obj? {
      AllGoodInAnyOrder(cidr, item.fields, other.fields);
    }
  }

  lemma {:induction false} AllGoodInAnyOrder(cidr: CidrParser, fields: seq<Field>, others: seq<Field>)
    requires Reorder(Obj(fields), Obj(others))
    ensures AllGood(cidr, fields) == AllGood(cidr, others)
    decreases fields, 0
  {
    forall i | 0 <= i < |fields|
      ensures AllGood(cidr, others) ==> GoodOp(cidr, fields[i].key, fields[i].val)
    {
      var j := TwinOf(fields, others, i);
      GoodInAnyOrder(cidr, fields[i].key, fields[i].val, others[j].val);
    }
    forall j | 0 <= j < |others|
      ensures AllGood(cidr, fields) ==> GoodOp(cidr, others[j].key, others[j].val)
    {
      var i := TwinFor(fields, others, j);
      GoodInAnyOrder(cidr, fields[i].key, fields[i].val, others[j].val);
    }
  }

  // ---------- panics in some order ----------

  lemma {:induction false} PanicsOnlyIfMay(cidr: CidrParser, name: string, spec: Json, other: Json)
    requires Reorder(spec, other) && Panics(cidr, name, other)
    ensures MayPanic(cidr, name, spec)
    decreases spec, 0
  {
    if spec.Obj? {
      SomePanicsOnlyIfMay(cidr, spec.fields, other.fields);
    } else {
      ItemsPanicOnlyIfMay(cidr, spec.items, other.items);
    }
  }

  lemma {:induction false} SomePanicsOnlyIfMay(cidr: CidrParser, fields: seq<Field>, others: seq<Field>)
    requires Reorder(Obj(fields), Obj(others)) && SomePanics(cidr, others)
    ensures SomeMayPanic(cidr, fields)
    decreases fields, 0
  {
    var j :| 0 <= j < |others| && Panics(cidr, others[j].key, others[j].val);
    var i := TwinFor(fields, others, j);
    PanicsOnlyIfMay(cidr, fields[i].key, fields[i].val, others[j].val);
  }

  lemma {:induction false} ItemsPanicOnlyIfMay(cidr: CidrParser, items: seq<Json>, others: seq<Json>)
    requires Reorder(List(items), List(others)) && ItemsPanic(cidr, others)
    ensures ItemsMayPanic(cidr, items)
    decreases items, 0
  {
    var i :| 0 <= i < |others| && ItemPanics(cidr, others[i]) && forall j :: 0 <= j < i ==> GoodItem(cidr, others[j]);
    assert Reorder(items[i], others[i]);
    if items[i].Obj? {
      SomePanicsOnlyIfMay(cidr, items[i].fields, others[i].fields);
    }
    forall j | 0 <= j < i
      ensures GoodItem(cidr, items[j])
    {
      GoodItemInAnyOrder(cidr, items[j], others[j]);
    }
    assert ItemMayPanic(cidr, items[i]);
  }

  /** An order in which the operator panics: in every object on the way, what panics comes first. */
  lemma {:induction false} PanickingOrder(cidr: CidrParser, name: string, spec: Json) returns (other: Json)
    requires MayPanic(cidr, name, spec) && Distinct(spec)
    ensures Reorder(spec, other) && Distinct(other) && Panics(cidr, name, other)
    decreases spec, 0
  {
    if spec.Obj? {
      var others := PanickingFields(cidr, spec.fields);
      other := Obj(others);
    } else {
      var others := PanickingItems(cidr, spec.items);
      other := List(others);
    }
  }

  lemma {:induction false} PanickingFields(cidr: CidrParser, fields: seq<Field>) returns (others: seq<Field>)
    requires SomeMayPanic(cidr, fields) && Distinct(Obj(fields))
    ensures Reorder(Obj(fields), Obj(others)) && Distinct(Obj(others)) && SomePanics(cidr, others)
    decreases fields, 0
  {
    var k :| 0 <= k < |fields| && MayPanic(cidr, fields[k].key, fields[k].val);
    var v := PanickingOrder(cidr, fields[k].key, fields[k].val);
    ReorderExchange(Obj(fields), 0, k, v);
    ExchangeKeepsDistinct(fields, 0, k, v);
    others := Exchanged(fields, 0, k, v);
    assert others[0] == Field(fields[k].key, v);
  }

  lemma {:induction false} PanickingItems(cidr: CidrParser, items: seq<Json>) returns (others: seq<Json>)
    requires ItemsMayPanic(cidr, items) && Distinct(List(items))
    ensures Reorder(List(items), List(others)) && Distinct(List(others)) && ItemsPanic(cidr, others)
    decreases items, 0
  {
    var i :| 0 <= i < |items| && ItemMayPanic(cidr, items[i]) && forall j :: 0 <= j < i ==> GoodItem(cidr, items[j]);
    var item := items[i];
    ReorderReflexive(item);
    if item.Obj? {
      var fields := PanickingFields(cidr, item.fields);
      item := Obj(fields);
    }
    others := items[i := item];
    forall j | 0 <= j < |items|
      ensures Reorder(items[j], others[j])
    {
      ReorderReflexive(items[j]);
    }
    assert ItemPanics(cidr, others[i]);
  }
}
