/** The stock option type shared by the models. */
module Wrappers {
  datatype Option<+T> = None | Some(value: T)
}

/** What inserting and removing does to the values and the size of a map. */
module Maps {

  lemma ValuesAfterInsert<K, V>(m: map<K, V>, k: K, v: V)
    requires k !in m
    ensures m[k := v].Values == m.Values + {v}
  {
    assert forall x :: x in m ==> m[k := v][x] == m[x];
    assert m[k := v][k] == v;
  }

  lemma ValuesAfterRemove<K, V>(m: map<K, V>, k: K)
    requires k in m && forall x :: x in m && x != k ==> m[x] != m[k]
    ensures (m - {k}).Values == m.Values - {m[k]}
  {
    assert forall x :: x in m && x != k ==> x in m - {k} && (m - {k})[x] == m[x];
  }

  lemma ValueKept<K, V>(m: map<K, V>, gone: K, v: V)
    requires v in m.Values && (gone in m ==> m[gone] != v)
    ensures v in (m - {gone}).Values
  {
    var k :| k in m && m[k] == v;
    assert k in m - {gone} && (m - {gone})[k] == v;
  }

  lemma SizeAfterRemove<K, V>(m: map<K, V>, k: K)
    requires k in m
    ensures |m - {k}| == |m| - 1
  {
    assert (m - {k}).Keys == m.Keys - {k};
    assert |m.Keys - {k}| == |m.Keys| - 1;
  }

  lemma SizeAfterInsert<K, V>(m: map<K, V>, k: K, v: V)
    ensures |m[k := v]| == if k in m then |m| else |m| + 1
  {
    assert m[k := v].Keys == m.Keys + {k};
    assert k !in m ==> |m.Keys + {k}| == |m.Keys| + 1;
    assert k in m ==> m.Keys + {k} == m.Keys;
  }
}

/** Sequences that list the elements of a set. */
module Listings {

  ghost predicate NoRepeats<T>(s: seq<T>)
  {
    forall i, j :: 0 <= i < j < |s| ==> s[i] != s[j]
  }

  /** s has every element of the set once: an order in which the set may be ranged over. */
  ghost predicate Lists<T>(s: seq<T>, elements: set<T>)
  {
    NoRepeats(s) && (forall x :: x in s ==> x in elements) && (forall x :: x in elements ==> x in s)
  }

  lemma ListsNothing<T>(s: seq<T>, elements: set<T>)
    requires Lists(s, elements)
    ensures s != [] ==> elements != {}
  {
    if s != [] {
      assert s[0] in s;
    }
  }

  lemma NoRepeatsConcat<T>(a: seq<T>, b: seq<T>)
    requires NoRepeats(a) && NoRepeats(b) && forall x :: x in b ==> x !in a
    ensures NoRepeats(a + b)
  {
    forall i, j | 0 <= i < j < |a + b|
      ensures (a + b)[i] != (a + b)[j]
    {
      if i < |a| <= j {
        assert b[j - |a|] in b;
      }
    }
  }

  /** Every finite set can be listed. */
  lemma {:induction false} Listing<T>(elements: set<T>) returns (s: seq<T>)
    ensures Lists(s, elements)
    decreases |elements|
  {
    if elements == {} {
      s := [];
    } else {
      var x :| x in elements;
      var rest := Listing(elements - {x});
      NoRepeatsConcat([x], rest);
      s := [x] + rest;
    }
  }

  /** Lists a set in any order. */
  method ListAll<T(==)>(elements: set<T>) returns (s: seq<T>)
    ensures Lists(s, elements)
  {
    s := [];
    var todo := elements;
    while todo != {}
      invariant todo <= elements && NoRepeats(s)
      invariant forall x :: x in s ==> x in elements && x !in todo
      invariant forall x :: x in elements && x !in todo ==> x in s
      decreases todo
    {
      var x :| x in todo;
      NoRepeatsConcat(s, [x]);
      s, todo := s + [x], todo - {x};
    }
  }
}
