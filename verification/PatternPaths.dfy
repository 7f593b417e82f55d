/**
 The paths that a compiled pattern keeps for its leaves.

 The compiler walks down an object with `append(rootPath, key)`. A slice is a window on a block of
 memory; appending writes into the block when there is room and copies into a larger block when
 there is not. Siblings therefore share a block, and whether a leaf still reads its own path in the
 end depends on the shape of the pattern. `SafeOrder` and `Safe` say exactly when it does.
 */
module PatternPaths {
  import opened Events
  import opened Operators
  import opened Reorderings

  /** Memory blocks by number; the length of a block is its capacity. */
  type Memory = seq<seq<string>>

  datatype Slice = Slice(block: nat, len: nat)

  /** Go doubles small slices and grows large ones by a quarter and a constant. */
  function Grow(cap: nat): (r: nat)
    ensures r > cap
  {
    if cap == 0 then 1 else if cap < 256 then 2 * cap else cap + (cap + 768) / 4
  }

  /** Below 256 a full block is doubled, beyond it grows by a quarter and 192. */
  lemma Growth(cap: nat)
    ensures Grow(0) == 1
    ensures 1 <= cap <= 256 ==> Grow(cap) == cap + cap
    ensures 256 <= cap ==> 4 * (Grow(cap) - 192) <= 5 * cap < 4 * (Grow(cap) - 191)
  {
  }

  predicate IsSlice(mem: Memory, s: Slice)
  {
    s.block < |mem| && s.len <= |mem[s.block]|
  }

  function Read(mem: Memory, s: Slice): seq<string>
    requires IsSlice(mem, s)
  {
    mem[s.block][..s.len]
  }

  function Append(mem: Memory, s: Slice, key: string): (r: (Memory, Slice))
    requires IsSlice(mem, s)
    ensures IsSlice(r.0, r.1) && Read(r.0, r.1) == Read(mem, s) + [key]
  {
    var block := mem[s.block];
    if s.len < |block| then (mem[s.block := block[s.len := key]], Slice(s.block, s.len + 1))
    else (mem + [block + [key] + seq(Grow(|block|) - |block| - 1, _ => "")], Slice(|mem|, s.len + 1))
  }

  /** The new slice shares the block exactly if there is room, and then only the cell behind the old
      slice is overwritten; otherwise nothing that could be read before has changed. */
  lemma AppendShares(mem: Memory, s: Slice, key: string)
    requires IsSlice(mem, s)
    ensures
      var (after, t) := Append(mem, s, key);
      && (t.block == s.block <==> s.len < |mem[s.block]|)
      && (t.block == s.block ==>
            && |after| == |mem|
            && (forall b :: 0 <= b < |mem| && b != s.block ==> after[b] == mem[b])
            && after[s.block] == mem[s.block][..s.len] + [key] + mem[s.block][s.len + 1..])
      && (t.block != s.block ==> t.block == |mem| && mem <= after)
  {
    var block := mem[s.block];
    if s.len < |block| {
      assert block[s.len := key] == block[..s.len] + [key] + block[s.len + 1..];
    }
  }

  /** The capacity of the block that a child of a slice ends up in. */
  function NextCap(len: nat, cap: nat): nat
  {
    if len < cap then cap else Grow(cap)
  }

  // ---------- where the compiler puts the paths ----------

  /** The memory after compiling p under `root`, and the slices kept by its leaves. */
  function Layout(mem: Memory, root: Slice, p: Json): (r: (Memory, seq<Slice>))
    requires IsSlice(mem, root)
    ensures Kept(mem, root, r.0) && Placed(mem, root, r.0, r.1)
    decreases p
  {
    if p.Obj? then LayoutFields(mem, root, p.fields) else (mem, [root])
  }

  function LayoutFields(mem: Memory, root: Slice, fields: seq<Field>): (r: (Memory, seq<Slice>))
    requires IsSlice(mem, root)
    ensures Kept(mem, root, r.0) && Placed(mem, root, r.0, r.1)
    decreases fields
  {
    if fields == [] then (mem, [])
    else
      var (m1, child) := Append(mem, root, fields[0].key);
      var (m2, first) := Layout(m1, child, fields[0].val);
      var (m3, rest) := LayoutFields(m2, root, fields[1..]);
      (m3, first + rest)
  }

  /** Compiling under `root` writes only behind `root` in its block and into new blocks. */
  ghost predicate Kept(mem: Memory, root: Slice, after: Memory)
    requires IsSlice(mem, root)
  {
    && |mem| <= |after|
    && (forall b :: 0 <= b < |mem| ==> |after[b]| == |mem[b]|)
    && (forall b :: 0 <= b < |mem| && b != root.block ==> after[b] == mem[b])
    && (forall i :: 0 <= i < root.len ==> after[root.block][i] == mem[root.block][i])
  }

  /** The leaves' slices extend `root`, in its block or in new blocks. */
  ghost predicate Placed(mem: Memory, root: Slice, after: Memory, slices: seq<Slice>)
  {
    forall i :: 0 <= i < |slices| ==>
      && IsSlice(after, slices[i]) && root.len <= slices[i].len
      && (slices[i].block == root.block || |mem| <= slices[i].block)
  }

  // ---------- where they should be ----------

  /** The leaves' true paths, in the order of Layout. */
  function TruePaths(p: Json, prefix: seq<string>): (r: seq<seq<string>>)
    ensures forall i :: 0 <= i < |r| ==> prefix <= r[i]
    decreases p
  {
    if p.Obj? then TruePathsOf(p.fields, prefix) else [prefix]
  }

  function TruePathsOf(fields: seq<Field>, prefix: seq<string>): (r: seq<seq<string>>)
    ensures forall i :: 0 <= i < |r| ==> prefix <= r[i]
    decreases fields
  {
    if fields == [] then []
    else TruePaths(fields[0].val, prefix + [fields[0].key]) + TruePathsOf(fields[1..], prefix)
  }

  ghost predicate Intact(mem: Memory, slices: seq<Slice>, paths: seq<seq<string>>)
  {
    && |slices| == |paths|
    && forall i :: 0 <= i < |slices| ==> IsSlice(mem, slices[i]) && Read(mem, slices[i]) == paths[i]
  }

  /** Some leaf of p, compiled at this length and capacity, keeps its path in the block of its root. */
  predicate Exposed(p: Json, len: nat, cap: nat)
    decreases p
  {
    if p.Obj? then len < cap && ExposedFields(p.fields, len, cap) else true
  }

  predicate ExposedFields(fields: seq<Field>, len: nat, cap: nat)
    decreases fields
  {
    fields != [] && (Exposed(fields[0].val, len + 1, cap) || ExposedFields(fields[1..], len, cap))
  }

  /** Siblings that share a block have no leaf in it, except the last one compiled. */
  predicate SafeOrder(p: Json, len: nat, cap: nat)
    decreases p
  {
    p.Obj? ==> SafeFields(p.fields, len, cap)
  }

  predicate SafeFields(fields: seq<Field>, len: nat, cap: nat)
    decreases fields
  {
    fields == [] || (
      && SafeOrder(fields[0].val, len + 1, NextCap(len, cap))
      && (len < cap && |fields| > 1 ==> !Exposed(fields[0].val, len + 1, cap))
      && SafeFields(fields[1..], len, cap))
  }

  ghost predicate InBlock(slices: seq<Slice>, block: nat)
  {
    exists i :: 0 <= i < |slices| && slices[i].block == block
  }

  // ---------- the leaves in the block of the root ----------

  lemma {:induction false} ExposedMeansInBlock(mem: Memory, root: Slice, p: Json)
    requires IsSlice(mem, root)
    ensures InBlock(Layout(mem, root, p).1, root.block) <==> Exposed(p, root.len, |mem[root.block]|)
    decreases p
  {
    if p.Obj? {
      if root.len < |mem[root.block]| {
        ExposedFieldsMeansInBlock(mem, root, p.fields);
      } else {
        FullBlockUnused(mem, root, p.fields);
      }
    } else {
      assert Layout(mem, root, p).1[0] == root;
    }
  }

  lemma InBlockConcat(a: seq<Slice>, b: seq<Slice>, block: nat)
    ensures InBlock(a + b, block) <==> InBlock(a, block) || InBlock(b, block)
  {
    if i :| 0 <= i < |a| && a[i].block == block {
      assert (a + b)[i].block == block;
    }
    if i :| 0 <= i < |b| && b[i].block == block {
      assert (a + b)[|a| + i].block == block;
    }
  }

  lemma {:induction false} ExposedFieldsMeansInBlock(mem: Memory, root: Slice, fields: seq<Field>)
    requires IsSlice(mem, root) && root.len < |mem[root.block]|
    ensures InBlock(LayoutFields(mem, root, fields).1, root.block)
            <==> ExposedFields(fields, root.len, |mem[root.block]|)
    decreases fields
  {
    if fields != [] {
      var (m1, child) := Append(mem, root, fields[0].key);
      var (m2, first) := Layout(m1, child, fields[0].val);
      var (m3, rest) := LayoutFields(m2, root, fields[1..]);
      ExposedMeansInBlock(m1, child, fields[0].val);
      ExposedFieldsMeansInBlock(m2, root, fields[1..]);
      InBlockConcat(first, rest, root.block);
    }
  }

  /** From a full block every child is copied away. */
  lemma {:induction false} FullBlockUnused(mem: Memory, root: Slice, fields: seq<Field>)
    requires IsSlice(mem, root) && root.len == |mem[root.block]|
    ensures !InBlock(LayoutFields(mem, root, fields).1, root.block)
    decreases fields
  {
    if fields != [] {
      var (m1, child) := Append(mem, root, fields[0].key);
      var (m2, first) := Layout(m1, child, fields[0].val);
      var (m3, rest) := LayoutFields(m2, root, fields[1..]);
      FullBlockUnused(m2, root, fields[1..]);
      InBlockConcat(first, rest, root.block);
    }
  }

  /** The last sibling is the last to write its key behind a root that has room. */
  lemma {:induction false} LastKeyStays(mem: Memory, root: Slice, fields: seq<Field>)
    requires IsSlice(mem, root) && root.len < |mem[root.block]| && fields != []
    ensures LayoutFields(mem, root, fields).0[root.block][root.len] == fields[|fields| - 1].key
    decreases fields
  {
    var (m1, child) := Append(mem, root, fields[0].key);
    var (m2, first) := Layout(m1, child, fields[0].val);
    if |fields| > 1 {
      LastKeyStays(m2, root, fields[1..]);
    }
  }

  lemma IntactConcat(mem: Memory, s: seq<Slice>, t: seq<Slice>, ps: seq<seq<string>>, qs: seq<seq<string>>)
    requires |s| == |ps|
    ensures Intact(mem, s + t, ps + qs) <==> Intact(mem, s, ps) && Intact(mem, t, qs)
  {
    if Intact(mem, s + t, ps + qs) {
      forall i | 0 <= i < |s|
        ensures IsSlice(mem, s[i]) && Read(mem, s[i]) == ps[i]
      {
        assert (s + t)[i] == s[i] && (ps + qs)[i] == ps[i];
      }
      forall i | 0 <= i < |t|
        ensures IsSlice(mem, t[i]) && Read(mem, t[i]) == qs[i]
      {
        assert (s + t)[|s| + i] == t[i] && (ps + qs)[|s| + i] == qs[i];
      }
    }
  }

  lemma {:induction false} OnePathPerLeaf(mem: Memory, root: Slice, p: Json, prefix: seq<string>)
    requires IsSlice(mem, root)
    ensures |Layout(mem, root, p).1| == |TruePaths(p, prefix)|
    decreases p
  {
    if p.Obj? {
      OnePathPerField(mem, root, p.fields, prefix);
    }
  }

  lemma {:induction false} OnePathPerField(mem: Memory, root: Slice, fields: seq<Field>, prefix: seq<string>)
    requires IsSlice(mem, root)
    ensures |LayoutFields(mem, root, fields).1| == |TruePathsOf(fields, prefix)|
    decreases fields
  {
    if fields != [] {
      var (m1, child) := Append(mem, root, fields[0].key);
      var (m2, first) := Layout(m1, child, fields[0].val);
      OnePathPerLeaf(m1, child, fields[0].val, prefix + [fields[0].key]);
      OnePathPerField(m2, root, fields[1..], prefix);
    }
  }

  /** What later siblings do to the paths of an earlier one: nothing if none of its leaves is in
      the shared block, and otherwise those leaves lose their key. */
  lemma LaterSiblings(
    mem: Memory, root: Slice, slices: seq<Slice>, paths: seq<seq<string>>, key: string, rest: seq<Field>)
    requires IsSlice(mem, root) && |slices| == |paths|
    requires forall i :: 0 <= i < |slices| ==> IsSlice(mem, slices[i])
    requires forall i :: 0 <= i < |paths| ==> Read(mem, root) + [key] <= paths[i]
    requires forall k :: 0 <= k < |rest| ==> rest[k].key != key
    requires InBlock(slices, root.block) ==> root.len < |mem[root.block]|
    ensures
      var m := LayoutFields(mem, root, rest).0;
      Intact(m, slices, paths) <==> Intact(mem, slices, paths) && (rest != [] ==> !InBlock(slices, root.block))
  {
    var m := LayoutFields(mem, root, rest).0;
    if !InBlock(slices, root.block) {
      assert forall i :: 0 <= i < |slices| ==> m[slices[i].block] == mem[slices[i].block];
    } else if rest != [] {
      LastKeyStays(mem, root, rest);
      var i :| 0 <= i < |slices| && slices[i].block == root.block;
      assert paths[i][root.len] == key;
      if root.len < slices[i].len {
        assert Read(m, slices[i])[root.len] != key;
      }
    }
  }

  /** The paths are intact exactly if no leaf is in a block that a later sibling writes to. */
  lemma {:induction false} IntactIffSafe(mem: Memory, root: Slice, p: Json)
    requires IsSlice(mem, root) && Distinct(p)
    ensures Intact(Layout(mem, root, p).0, Layout(mem, root, p).1, TruePaths(p, Read(mem, root)))
            <==> SafeOrder(p, root.len, |mem[root.block]|)
    decreases p, 2
  {
    if p.Obj? {
      IntactIffSafeFields(mem, root, p.fields);
    }
  }

  lemma TailDistinct(fields: seq<Field>)
    requires fields != [] && Distinct(Obj(fields))
    ensures Distinct(Obj(fields[1..]))
  {
  }

  lemma {:induction false} FirstSibling(mem: Memory, root: Slice, fields: seq<Field>)
    requires IsSlice(mem, root) && Distinct(Obj(fields)) && fields != []
    ensures
      var (m1, child) := Append(mem, root, fields[0].key);
      var (m2, first) := Layout(m1, child, fields[0].val);
      var m3 := LayoutFields(m2, root, fields[1..]).0;
      var cap := |mem[root.block]|;
      Intact(m3, first, TruePaths(fields[0].val, Read(mem, root) + [fields[0].key])) <==>
        && SafeOrder(fields[0].val, root.len + 1, NextCap(root.len, cap))
        && (root.len < cap && |fields| > 1 ==> !Exposed(fields[0].val, root.len + 1, cap))
    decreases fields, 0
  {
    var (m1, child) := Append(mem, root, fields[0].key);
    var (m2, first) := Layout(m1, child, fields[0].val);
    var paths := TruePaths(fields[0].val, Read(mem, root) + [fields[0].key]);
    assert |m1[child.block]| == NextCap(root.len, |mem[root.block]|);
    assert Read(m2, root) == Read(mem, root);
    OnePathPerLeaf(m1, child, fields[0].val, Read(mem, root) + [fields[0].key]);
    IntactIffSafe(m1, child, fields[0].val);
    ExposedMeansInBlock(m1, child, fields[0].val);
    LaterSiblings(m2, root, first, paths, fields[0].key, fields[1..]);
  }

  lemma {:induction false} IntactIffSafeFields(mem: Memory, root: Slice, fields: seq<Field>)
    requires IsSlice(mem, root) && Distinct(Obj(fields))
    ensures
      var (after, slices) := LayoutFields(mem, root, fields);
      Intact(after, slices, TruePathsOf(fields, Read(mem, root))) <==> SafeFields(fields, root.len, |mem[root.block]|)
    decreases fields, 1
  {
    if fields != [] {
      var prefix := Read(mem, root);
      var (m1, child) := Append(mem, root, fields[0].key);
      var (m2, first) := Layout(m1, child, fields[0].val);
      var (m3, rest) := LayoutFields(m2, root, fields[1..]);
      var ps := TruePaths(fields[0].val, prefix + [fields[0].key]);
      var qs := TruePathsOf(fields[1..], prefix);
      assert LayoutFields(mem, root, fields) == (m3, first + rest);
      assert TruePathsOf(fields, prefix) == ps + qs;
      FirstSibling(mem, root, fields);
      OnePathPerLeaf(m1, child, fields[0].val, prefix + [fields[0].key]);
      IntactConcat(m3, first, rest, ps, qs);
      assert Read(m2, root) == prefix;
      TailDistinct(fields);
      IntactIffSafeFields(m2, root, fields[1..]);
    }
  }

  // ---------- whatever the order ----------

  /** Siblings that share a block have no leaf in it. */
  ghost predicate Safe(p: Json, len: nat, cap: nat)
    decreases p
  {
    p.Obj? ==>
      && (forall k :: 0 <= k < |p.fields| ==> Safe(p.fields[k].val, len + 1, NextCap(len, cap)))
      && (len < cap && |p.fields| > 1 ==> forall k :: 0 <= k < |p.fields| ==> !Exposed(p.fields[k].val, len + 1, cap))
  }

  lemma {:induction false} ExposedFieldsAt(fields: seq<Field>, len: nat, cap: nat)
    ensures ExposedFields(fields, len, cap) <==> exists k :: 0 <= k < |fields| && Exposed(fields[k].val, len + 1, cap)
    decreases |fields|
  {
    if fields != [] {
      ExposedFieldsAt(fields[1..], len, cap);
      forall k | 1 <= k < |fields|
        ensures fields[k] == fields[1..][k - 1]
      {
      }
    }
  }

  lemma {:induction false} SafeFieldsAt(fields: seq<Field>, len: nat, cap: nat)
    ensures SafeFields(fields, len, cap) <==> forall k :: 0 <= k < |fields| ==>
              && SafeOrder(fields[k].val, len + 1, NextCap(len, cap))
              && (len < cap && k < |fields| - 1 ==> !Exposed(fields[k].val, len + 1, cap))
    decreases |fields|
  {
    if fields != [] {
      SafeFieldsAt(fields[1..], len, cap);
      forall k | 1 <= k < |fields|
        ensures fields[k] == fields[1..][k - 1]
      {
      }
    }
  }

  lemma {:induction false} ReorderKeepsExposed(p: Json, q: Json, len: nat, cap: nat)
    requires Reorder(p, q)
    ensures Exposed(p, len, cap) <==> Exposed(q, len, cap)
    decreases p
  {
    if p.Obj? {
      ExposedFieldsAt(p.fields, len, cap);
      ExposedFieldsAt(q.fields, len, cap);
      if i :| 0 <= i < |p.fields| && Exposed(p.fields[i].val, len + 1, cap) {
        assert HasTwin(p.fields[i], q.fields);
        var j :| 0 <= j < |q.fields| && p.fields[i].key == q.fields[j].key && Reorder(p.fields[i].val, q.fields[j].val);
        ReorderKeepsExposed(p.fields[i].val, q.fields[j].val, len + 1, cap);
      }
      if j :| 0 <= j < |q.fields| && Exposed(q.fields[j].val, len + 1, cap) {
        assert IsTwin(p.fields, q.fields[j]);
        var i :| 0 <= i < |p.fields| && p.fields[i].key == q.fields[j].key && Reorder(p.fields[i].val, q.fields[j].val);
        ReorderKeepsExposed(p.fields[i].val, q.fields[j].val, len + 1, cap);
      }
    }
  }

  lemma {:induction false} SafeInEveryOrder(p: Json, q: Json, len: nat, cap: nat)
    requires Safe(p, len, cap) && Reorder(p, q)
    ensures SafeOrder(q, len, cap)
    decreases p
  {
    if p.Obj? {
      SafeFieldsAt(q.fields, len, cap);
      forall j | 0 <= j < |q.fields|
        ensures SafeOrder(q.fields[j].val, len + 1, NextCap(len, cap))
        ensures len < cap && j < |q.fields| - 1 ==> !Exposed(q.fields[j].val, len + 1, cap)
      {
        assert IsTwin(p.fields, q.fields[j]);
        var i :| 0 <= i < |p.fields| && p.fields[i].key == q.fields[j].key && Reorder(p.fields[i].val, q.fields[j].val);
        SafeInEveryOrder(p.fields[i].val, q.fields[j].val, len + 1, NextCap(len, cap));
        ReorderKeepsExposed(p.fields[i].val, q.fields[j].val, len + 1, cap);
      }
    }
  }

  /** A pattern that is not safe has an order in which some path is lost. */
  lemma {:induction false} UnsafeOrder(p: Json, len: nat, cap: nat) returns (q: Json)
    requires !Safe(p, len, cap) && Distinct(p)
    ensures Reorder(p, q) && Distinct(q) && !SafeOrder(q, len, cap)
    decreases p
  {
    var fields := p.fields;
    if k :| 0 <= k < |fields| && !Safe(fields[k].val, len + 1, NextCap(len, cap)) {
      var v := UnsafeOrder(fields[k].val, len + 1, NextCap(len, cap));
      ReorderExchange(p, k, k, v);
      ExchangeKeepsDistinct(fields, k, k, v);
      q := Obj(Exchanged(fields, k, k, v));
      SafeFieldsAt(q.fields, len, cap);
      assert q.fields[k].val == v;
    } else {
      var k :| 0 <= k < |fields| && Exposed(fields[k].val, len + 1, cap);
      ReorderReflexive(fields[k].val);
      ReorderExchange(p, 0, k, fields[k].val);
      ExchangeKeepsDistinct(fields, 0, k, fields[k].val);
      q := Obj(Exchanged(fields, 0, k, fields[k].val));
      SafeFieldsAt(q.fields, len, cap);
      assert q.fields[0].val == fields[k].val;
    }
  }

  const NoPath := Slice(0, 0)

  /** After compiling, every leaf reads its own path. */
  ghost predicate PathsIntact(p: Json)
  {
    Intact(Layout([[]], NoPath, p).0, Layout([[]], NoPath, p).1, TruePaths(p, []))
  }

  /** The paths are intact in whatever order the objects are ranged over, exactly if the pattern is safe. */
  lemma IntactInEveryOrderIffSafe(p: Json)
    requires Distinct(p)
    ensures (forall q :: Reorder(p, q) && Distinct(q) ==> PathsIntact(q)) <==> Safe(p, 0, 0)
  {
    assert Read([[]], NoPath) == [];
    if Safe(p, 0, 0) {
      forall q | Reorder(p, q) && Distinct(q)
        ensures PathsIntact(q)
      {
        SafeInEveryOrder(p, q, 0, 0);
        IntactIffSafe([[]], NoPath, q);
      }
    } else {
      var q := UnsafeOrder(p, 0, 0);
      IntactIffSafe([[]], NoPath, q);
      assert Reorder(p, q) && Distinct(q) && !PathsIntact(q);
    }
  }

  /** Every object at path length three or more has at most one key. */
  ghost predicate NarrowBelowThree(p: Json, len: nat)
    decreases p
  {
    p.Obj? ==>
      && (3 <= len ==> |p.fields| <= 1)
      && forall k :: 0 <= k < |p.fields| ==> NarrowBelowThree(p.fields[k].val, len + 1)
  }

  /** In particular patterns that do not branch below the third level are safe. */
  lemma {:induction false} NarrowIsSafe(p: Json, len: nat, cap: nat)
    requires NarrowBelowThree(p, len) && (len < 3 ==> cap == len)
    ensures Safe(p, len, cap)
    decreases p
  {
    if p.Obj? {
      forall k | 0 <= k < |p.fields|
        ensures Safe(p.fields[k].val, len + 1, NextCap(len, cap))
      {
        NarrowIsSafe(p.fields[k].val, len + 1, NextCap(len, cap));
      }
    }
  }

  /** Two leaves side by side under `depth` objects with one key each. */
  function Siblings(depth: nat, x: string, y: string): Json
  {
    if depth == 0 then Obj([Field(x, Str("1")), Field(y, Str("2"))])
    else Obj([Field("data", Siblings(depth - 1, x, y))])
  }

  lemma {:induction false} SiblingsDistinct(depth: nat, x: string, y: string)
    requires x != y
    ensures Distinct(Siblings(depth, x, y))
  {
    if depth > 0 {
      SiblingsDistinct(depth - 1, x, y);
    }
  }

  lemma {:induction false} SiblingsUnsafe(depth: nat, x: string, y: string, len: nat)
    requires len + depth == 3
    ensures !SafeOrder(Siblings(depth, x, y), len, if depth == 0 then 4 else len)
  {
    var fields := Siblings(depth, x, y).fields;
    if depth > 0 {
      SiblingsUnsafe(depth - 1, x, y, len + 1);
      assert fields[0].val == Siblings(depth - 1, x, y);
    } else {
      assert Exposed(fields[0].val, 4, 4);
    }
  }

  /** Two leaves side by side on the fourth level: one of them loses its path. */
  lemma FourthLevelSiblingsCollide(x: string, y: string)
    requires x != y
    ensures Distinct(Siblings(3, x, y)) && !PathsIntact(Siblings(3, x, y))
  {
    SiblingsDistinct(3, x, y);
    SiblingsUnsafe(3, x, y, 0);
    assert Read([[]], NoPath) == [];
    IntactIffSafe([[]], NoPath, Siblings(3, x, y));
  }
}
