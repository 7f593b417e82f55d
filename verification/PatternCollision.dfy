/**
 What a collision of paths does to a match: two sibling leaves on the fourth level of a pattern are
 both looked up under the second key, so a matcher rejects the event it was written for.
 */
module PatternCollisions {
  import opened Wrappers
  import opened Events
  import opened Operators
  import opened PatternPaths
  import opened Patterns

  lemma LayoutOne(mem: Memory, root: Slice, key: string, p: Json)
    requires IsSlice(mem, root)
    ensures
      var (m1, child) := Append(mem, root, key);
      Layout(mem, root, Obj([Field(key, p)])) == Layout(m1, child, p)
  {
    var fields := [Field(key, p)];
    LayoutFieldsNext(mem, root, fields);
    assert fields[1..] == [];
    var (m1, child) := Append(mem, root, key);
    assert Layout(m1, child, p).1 + [] == Layout(m1, child, p).1;
  }

  function Datas(n: nat): (s: seq<string>)
    ensures |s| == n && forall i :: 0 <= i < n ==> s[i] == "data"
  {
    seq(n, _ => "data")
  }

  /** The block in which the two leaves are compiled has room for one of them only. */
  lemma SharedBlock(mem: Memory, root: Slice, x: string, y: string)
    requires IsSlice(mem, root) && root.len == 3 && |mem[root.block]| == 4 && Read(mem, root) == Datas(3)
    ensures
      var (after, slices) := Layout(mem, root, Siblings(0, x, y));
      && |slices| == 2 && IsSlice(after, slices[0]) && IsSlice(after, slices[1])
      && Read(after, slices[0]) == Read(after, slices[1]) == Datas(3) + [y]
  {
    var fields := Siblings(0, x, y).fields;
    LayoutFieldsNext(mem, root, fields);
    var (m1, first) := Append(mem, root, x);
    LayoutFieldsNext(m1, root, fields[1..]);
    assert fields[1..][1..] == [];
    var (m2, second) := Append(m1, root, y);
    assert first == second;
  }

  /** Both leaves end up with the path of the second one. */
  lemma CollidingPaths(x: string, y: string)
    ensures
      var (mem, slices) := Layout([[]], NoPath, Siblings(3, x, y));
      && |slices| == 2 && IsSlice(mem, slices[0]) && IsSlice(mem, slices[1])
      && Read(mem, slices[0]) == Read(mem, slices[1]) == Datas(3) + [y]
  {
    LayoutOne([[]], NoPath, "data", Siblings(2, x, y));
    var (m1, s1) := Append([[]], NoPath, "data");
    LayoutOne(m1, s1, "data", Siblings(1, x, y));
    var (m2, s2) := Append(m1, s1, "data");
    LayoutOne(m2, s2, "data", Siblings(0, x, y));
    var (m3, s3) := Append(m2, s2, "data");
    SharedBlock(m3, s3, x, y);
  }

  lemma {:induction false} CompiledSiblings(
    cidr: CidrParser, order: Order, fc: EventMatchFunc, depth: nat, x: string, y: string, mem: Memory, e: Event)
    requires Compiled(cidr, fc, Siblings(depth, x, y)) && InMemory(fc, mem)
    ensures |Slices(fc)| == 2 && IsSlice(mem, Slices(fc)[0]) && IsSlice(mem, Slices(fc)[1])
    ensures
      var first, second := FieldAt(e, Read(mem, Slices(fc)[0])), FieldAt(e, Read(mem, Slices(fc)[1]));
      && (Answers(fc, mem, e) <==> first == Value(Data(Str("1"))) && second == Value(Data(Str("2"))))
      && (EventCrashes(order, fc, mem, e) ==> first.Panic? || second.Panic?)
    decreases depth
  {
    var fields := Siblings(depth, x, y).fields;
    if depth == 0 {
      assert Compiled(cidr, fc.fcs[0], fields[0].val) && Compiled(cidr, fc.fcs[1], fields[1].val);
      SlicesOfCons(fc.fcs);
      SlicesOfCons(fc.fcs[1..]);
      assert fc.fcs[1..][1..] == [];
      assert Slices(fc) == [fc.fcs[0].path, fc.fcs[1].path];
      if EventCrashes(order, fc, mem, e) {
        var k :| 0 <= k < |fc.fcs| && EventCrashes(order, fc.fcs[k], mem, e);
        assert k == 0 || k == 1;
      }
    } else {
      assert Compiled(cidr, fc.fcs[0], fields[0].val);
      SlicesOfCons(fc.fcs);
      assert fc.fcs[1..] == [];
      assert Slices(fc) == Slices(fc.fcs[0]);
      CompiledSiblings(cidr, order, fc.fcs[0], depth - 1, x, y, mem, e);
    }
  }

  lemma WalkSiblings(depth: nat, x: string, y: string, key: string, prefix: seq<string>)
    requires x != y && (key == x || key == y) && |prefix| == depth && forall i :: 0 <= i < depth ==> prefix[i] == "data"
    ensures Walk(Siblings(depth, x, y), prefix + [key]) == Value(Data(Str(if key == x then "1" else "2")))
    decreases depth
  {
    var path := prefix + [key];
    if depth == 0 {
      var fields := Siblings(0, x, y).fields;
      assert path == [key] && path[1..] == [];
      assert fields[1..][0] == fields[1];
      assert Find(fields, key) == Some(Str(if key == x then "1" else "2"));
    } else {
      assert path[1..] == prefix[1..] + [key];
      WalkSiblings(depth - 1, x, y, key, prefix[1..]);
    }
  }

  lemma {:induction false} SiblingsMean(cidr: CidrParser, depth: nat, x: string, y: string, e: Event)
    requires depth <= 3
    requires FieldAt(e, Datas(3) + [x]) == Value(Data(Str("1"))) && FieldAt(e, Datas(3) + [y]) == Value(Data(Str("2")))
    ensures Good(cidr, Siblings(depth, x, y)) && Means(cidr, Siblings(depth, x, y), Datas(3 - depth), e)
    decreases depth
  {
    if depth > 0 {
      SiblingsMean(cidr, depth - 1, x, y, e);
      assert Datas(3 - depth) + ["data"] == Datas(4 - depth);
    }
  }

  /** With two leaves on the fourth level, the event that has exactly the values of the pattern is
      rejected: both are compared with the value under the second key. */
  method CollisionRejects(cidr: CidrParser, order: Order, x: string, y: string, e: Event) returns (r: Built<Outcome>)
    requires Rearranges(order) && x != y && e.data == Some(Siblings(2, x, y))
    ensures Matches(cidr, Siblings(3, x, y).fields, e)
    ensures r == Built(Is(false))
  {
    var p := Siblings(3, x, y);
    SiblingsDistinct(3, x, y);
    CollidingPaths(x, y);
    WalkSiblings(2, x, y, x, Datas(2));
    WalkSiblings(2, x, y, y, Datas(2));
    assert (Datas(3) + [x])[1..] == Datas(2) + [x] && (Datas(3) + [y])[1..] == Datas(2) + [y];
    SiblingsMean(cidr, 3, x, y, e);
    assert Datas(0) == [];
    var f, mem := ParsePattern(cidr, [[]], NoPath, p);
    LayoutUsable(f.fc, mem);
    CompiledSiblings(cidr, order, f.fc, 3, x, y, mem, e);
    var outcome := Pattern(order, Matcher(mem, f.fc), e);
    r := Built(outcome);
  }
}
