/**
 The reflectors: Watch waits for a newer version, fetches a table page by page and works out which
 keys have changed since the last successful fetch. The reflectors of the buses and of the rules
 differ only in their columns.

 A row carries the key it stands for and its value; None is a row whose columns do not parse. The
 table does not change during a fetch, and any page may fail to arrive.
 */
module Reflectors {
  import opened Listings
  import opened Maps
  import opened Wrappers

  type Value = string  // the parsed columns; only equality matters

  datatype Row = Row(id: nat, key: string, value: Option<Value>)

  // ---------- pages ----------

  /** Ordered by id, without two rows of one id. */
  ghost predicate Ascending(rows: seq<Row>)
  {
    forall i, j :: 0 <= i < j < |rows| ==> rows[i].id < rows[j].id
  }

  /** WHERE id >= next ORDER BY id */
  function From(rows: seq<Row>, next: nat): seq<Row>
  {
    if rows == [] || rows[0].id >= next then rows else From(rows[1..], next)
  }

  function Limit(rows: seq<Row>, n: nat): seq<Row>
  {
    if |rows| <= n then rows else rows[..n]
  }

  /** A page starts where its first id says. */
  lemma {:induction false} FromFindsRow(rows: seq<Row>, k: nat)
    requires Ascending(rows) && k < |rows|
    ensures From(rows, rows[k].id) == rows[k..]
    decreases k
  {
    if k > 0 {
      assert rows[1..][k - 1] == rows[k];
      FromFindsRow(rows[1..], k - 1);
      assert rows[1..][k - 1..] == rows[k..];
    }
  }

  ghost predicate AllParse(rows: seq<Row>)
  {
    forall i :: 0 <= i < |rows| ==> rows[i].value.Some?
  }

  datatype Pair = Pair(key: string, value: Value)

  function Pairs(rows: seq<Row>): seq<Pair>
    requires AllParse(rows)
  {
    seq(|rows|, i requires 0 <= i < |rows| => Pair(rows[i].key, rows[i].value.value))
  }

  /** What one query from row k on yields: a full page and where to go on, or the rest. The end
      marker 0 is never the id of a row to go on with. */
  lemma PageAt(rows: seq<Row>, next: nat, limit: nat, k: nat)
    requires Ascending(rows) && 1 <= limit && k <= |rows| && From(rows, next) == rows[k..]
    ensures
      var bs := Limit(From(rows, next), limit + 1);
      if |bs| > limit
      then k + limit < |rows| && bs[limit].id != 0 && From(rows, bs[limit].id) == rows[k + limit..]
           && bs[..limit] == rows[k..k + limit]
      else bs == rows[k..|rows|] && |rows| <= k + limit
  {
    if k + limit < |rows| {
      FromFindsRow(rows, k + limit);
    }
  }

  lemma PairsConcat(rows: seq<Row>, k: nat, m: nat)
    requires k <= m <= |rows| && AllParse(rows[..k]) && AllParse(rows[k..m])
    ensures AllParse(rows[..m]) && Pairs(rows[..k]) + Pairs(rows[k..m]) == Pairs(rows[..m])
  {
    forall i | 0 <= i < m
      ensures rows[i].value.Some?
    {
      assert if i < k then rows[i] == rows[..k][i] else rows[i] == rows[k..m][i - k];
    }
  }

  lemma SliceParses(rows: seq<Row>, k: nat, m: nat)
    requires k <= m <= |rows| && AllParse(rows)
    ensures AllParse(rows[k..m])
  {
  }

  lemma PairsAt(rows: seq<Row>)
    requires AllParse(rows)
    ensures |Pairs(rows)| == |rows| && forall i :: 0 <= i < |rows| ==>
      Pairs(rows)[i].key == rows[i].key && rows[i].value == Some(Pairs(rows)[i].value)
  {
  }

  method ParsePage(bs: seq<Row>) returns (r: Option<seq<Pair>>)
    ensures r.Some? <==> AllParse(bs)
    ensures r.Some? ==> r.value == Pairs(bs)
  {
    var pairs := [];
    for i := 0 to |bs|
      invariant AllParse(bs[..i]) && pairs == Pairs(bs[..i])
    {
      if bs[i].value.None? {
        return None;
      }
      pairs := pairs + [Pair(bs[i].key, bs[i].value.value)];
    }
    assert bs[..|bs|] == bs;
    r := Some(pairs);
  }

  /** How many pages n rows take. */
  function PageCount(n: nat, limit: nat): (pages: nat)
    requires 1 <= limit
    ensures 1 <= pages
  {
    if n <= limit then 1 else 1 + PageCount(n - limit, limit)
  }

  /** All pages but the first begin with a row. */
  lemma {:induction false} PagesBegin(n: nat, limit: nat, p: nat)
    requires 1 <= limit
    ensures p < PageCount(n, limit) <==> p == 0 || p * limit < n
    decreases p
  {
    if n <= limit {
      if p > 0 {
        assert p * limit == limit + (p - 1) * limit;
      }
    } else if p > 0 {
      PagesBegin(n - limit, limit, p - 1);
      assert p * limit == limit + (p - 1) * limit;
    }
  }

  /** The whole table parses, and its pages, no further ones, arrive. */
  ghost predicate Fetchable(rows: seq<Row>, limit: nat, arrives: nat -> bool)
    requires 1 <= limit
  {
    AllParse(rows) && forall p :: 0 <= p < PageCount(|rows|, limit) ==> arrives(p)
  }

  lemma NothingFetched(rows: seq<Row>)
    ensures From(rows, 0) == rows[0..] && AllParse(rows[..0]) && Pairs(rows[..0]) == []
  {
  }

  /** A fetch needs every row to parse and every page that begins with one, and the first, to arrive. */
  lemma HundredPerPage(rows: seq<Row>, arrives: nat -> bool)
    ensures Fetchable(rows, 100, arrives) <==>
      && (forall i :: 0 <= i < |rows| ==> rows[i].value.Some?)
      && forall p :: p == 0 || 0 < p * 100 < |rows| ==> arrives(p)
  {
    forall p: nat
      ensures p < PageCount(|rows|, 100) <==> p == 0 || 0 < p * 100 < |rows|
    {
      PagesBegin(|rows|, 100, p);
    }
  }

  /** Fetches the whole table, `limit` rows at a time, asking for one more to know where to go on.
      The fetch is complete and in order if it succeeds, and it succeeds exactly if all rows parse
      and the pages they take arrive. */
  method Fetch(rows: seq<Row>, limit: nat, arrives: nat -> bool) returns (r: Option<seq<Pair>>)
    requires Ascending(rows) && 1 <= limit
    ensures r.Some? ==> AllParse(rows) && r.value == Pairs(rows)
    ensures r.Some? ==> |r.value| == |rows| && forall i :: 0 <= i < |rows| ==>
      r.value[i].key == rows[i].key && rows[i].value == Some(r.value[i].value)
    ensures r.Some? <==> Fetchable(rows, limit, arrives)
  {
    hide From, Limit, Ascending, Pairs, AllParse;
    NothingFetched(rows);
    var pairs := [];
    var next := 0;
    var page := 0;
    ghost var k := 0;
    while true
      invariant k <= |rows| && From(rows, next) == rows[k..]
      invariant AllParse(rows[..k]) && pairs == Pairs(rows[..k])
      invariant PageCount(|rows|, limit) == page + PageCount(|rows| - k, limit)
      invariant forall p :: 0 <= p < page ==> arrives(p)
      decreases |rows| - k
    {
      if !arrives(page) {
        return None;
      }
      page := page + 1;
      var bs := Limit(From(rows, next), limit + 1);
      PageAt(rows, next, limit, k);
      ghost var m;
      if |bs| > limit {
        next := bs[limit].id;
        bs := bs[..limit];
        m := k + limit;
      } else {
        next := 0;
        m := |rows|;
      }
      var parsed := ParsePage(bs);
      if parsed.None? {
        if AllParse(rows) { SliceParses(rows, k, m); }
        return None;
      }
      PairsConcat(rows, k, m);
      pairs := pairs + parsed.value;
      k := m;
      if next == 0 {
        break;
      }
    }
    assert rows[..|rows|] == rows;
    PairsAt(rows);
    r := Some(pairs);
  }

  // ---------- Watch ----------

  /** The fetched values by key; of two rows with one key the last one counts. */
  function ByKey(pairs: seq<Pair>): map<string, Value>
  {
    if pairs == [] then map[]
    else ByKey(pairs[..|pairs| - 1])[pairs[|pairs| - 1].key := pairs[|pairs| - 1].value]
  }

  /** A pair without a later one of its key is the one that counts. */
  lemma {:induction false} LastCounts(pairs: seq<Pair>, i: nat)
    requires i < |pairs| && forall j :: i < j < |pairs| ==> pairs[j].key != pairs[i].key
    ensures pairs[i].key in ByKey(pairs) && ByKey(pairs)[pairs[i].key] == pairs[i].value
    decreases |pairs|
  {
    if i < |pairs| - 1 {
      LastCounts(pairs[..|pairs| - 1], i);
    }
  }

  lemma {:induction false} EveryKeyIsRead(pairs: seq<Pair>, key: string) returns (i: nat)
    requires key in ByKey(pairs)
    ensures i < |pairs| && pairs[i].key == key
    decreases |pairs|
  {
    if pairs[|pairs| - 1].key == key {
      i := |pairs| - 1;
    } else {
      i := EveryKeyIsRead(pairs[..|pairs| - 1], key);
    }
  }

  /** With distinct keys every pair has its own entry. */
  lemma {:induction false} OneEntryPerPair(pairs: seq<Pair>)
    requires forall i, j :: 0 <= i < j < |pairs| ==> pairs[i].key != pairs[j].key
    ensures |ByKey(pairs)| == |pairs|
    decreases |pairs|
  {
    if pairs != [] {
      var init, last := pairs[..|pairs| - 1], pairs[|pairs| - 1];
      OneEntryPerPair(init);
      if last.key in ByKey(init) {
        var i := EveryKeyIsRead(init, last.key);
        assert false;
      }
      SizeAfterInsert(ByKey(init), last.key, last.value);
    }
  }

  /** No later row has the same key. */
  ghost predicate Latest(rows: seq<Row>, i: nat)
    requires i < |rows|
  {
    forall j :: i < j < |rows| ==> rows[j].key != rows[i].key
  }

  ghost predicate DistinctKeys(rows: seq<Row>)
  {
    forall i, j :: 0 <= i < j < |rows| ==> rows[i].key != rows[j].key
  }

  /** The store is what the rows say: of two rows with one key the last one counts. */
  ghost predicate Mirrors(store: map<string, Value>, rows: seq<Row>)
  {
    && (forall i :: 0 <= i < |rows| && Latest(rows, i) ==>
          rows[i].key in store && rows[i].value == Some(store[rows[i].key]))
    && (forall key :: key in store ==> exists i :: 0 <= i < |rows| && rows[i].key == key)
    && (DistinctKeys(rows) ==> |store| == |rows|)
  }

  lemma LatestCounts(rows: seq<Row>, i: nat)
    requires AllParse(rows) && i < |rows| && Latest(rows, i)
    ensures rows[i].key in ByKey(Pairs(rows)) && rows[i].value == Some(ByKey(Pairs(rows))[rows[i].key])
  {
    hide ByKey;
    LastCounts(Pairs(rows), i);
  }

  lemma EveryRowIsRead(rows: seq<Row>, key: string) returns (i: nat)
    requires AllParse(rows) && key in ByKey(Pairs(rows))
    ensures i < |rows| && rows[i].key == key
  {
    hide ByKey;
    i := EveryKeyIsRead(Pairs(rows), key);
  }

  lemma ByKeyMirrors(rows: seq<Row>)
    requires AllParse(rows)
    ensures Mirrors(ByKey(Pairs(rows)), rows)
  {
    hide ByKey, Pairs, Latest, DistinctKeys;
    forall i | 0 <= i < |rows| && Latest(rows, i)
      ensures rows[i].key in ByKey(Pairs(rows)) && rows[i].value == Some(ByKey(Pairs(rows))[rows[i].key])
    {
      LatestCounts(rows, i);
    }
    forall key | key in ByKey(Pairs(rows))
      ensures exists i :: 0 <= i < |rows| && rows[i].key == key
    {
      var i := EveryRowIsRead(rows, key);
    }
    if DistinctKeys(rows) {
      EntryPerRow(rows);
    }
  }

  lemma EntryPerRow(rows: seq<Row>)
    requires AllParse(rows) && DistinctKeys(rows)
    ensures |ByKey(Pairs(rows))| == |rows|
  {
    hide ByKey;
    OneEntryPerPair(Pairs(rows));
  }

  ghost predicate Differs(m: map<string, Value>, n: map<string, Value>, key: string)
  {
    (key in m) != (key in n) || (key in m && m[key] != n[key])
  }

  class Reflector {
    var version: nat
    var store: map<string, Value>  // what Get answers
    var inter: map<string, Value>  // the last fetch
    const limit: nat := 100

    ghost predicate Valid()
      reads this
    {
      store == inter
    }

    constructor ()
      ensures Valid() && store == map[] && version == 0
    {
      version, store, inter := 0, map[], map[];
    }

    function Get(key: string): (v: Option<Value>)
      reads this
      ensures v.Some? <==> key in store
      ensures v.Some? ==> v.value == store[key]
    {
      if key in store then Some(store[key]) else None
    }

    /** Stores the new and changed values. */
    method StoreChanged(now: map<string, Value>) returns (updated: seq<string>)
      requires Valid()
      modifies `store
      ensures store == inter + now
      ensures NoRepeats(updated) && forall key :: key in updated <==> key in now && Differs(inter, now, key)
    {
      updated := [];
      var todo := now.Keys;
      while todo != {}
        invariant todo <= now.Keys
        invariant forall key :: key in store <==> key in inter || (key in now && key !in todo)
        invariant forall key :: key in store ==>
          store[key] == if key in now && key !in todo then now[key] else inter[key]
        invariant NoRepeats(updated)
        invariant forall key :: key in updated <==> key in now && key !in todo && Differs(inter, now, key)
        decreases todo
      {
        var key :| key in todo;
        todo := todo - {key};
        if key !in inter || inter[key] != now[key] {
          store := store[key := now[key]];
          updated := updated + [key];
        }
      }
    }

    /** Deletes the values that are gone. */
    method DeleteGone(now: map<string, Value>, before: seq<string>) returns (updated: seq<string>)
      requires store == inter + now && NoRepeats(before)
      requires forall key :: key in before <==> key in now && Differs(inter, now, key)
      modifies `store
      ensures store == now
      ensures NoRepeats(updated) && forall key :: key in updated <==> Differs(inter, now, key)
    {
      updated := before;
      var todo := inter.Keys;
      while todo != {}
        invariant todo <= inter.Keys
        invariant store == (inter + now) - (inter.Keys - todo - now.Keys)
        invariant NoRepeats(updated)
        invariant forall key :: key in updated <==> Differs(inter, now, key) && (key in now || key !in todo)
        decreases todo
      {
        var key :| key in todo;
        todo := todo - {key};
        if key !in now {
          store := store - {key};
          updated := updated + [key];
        }
      }
    }

    /** One Watch, once the version `v` has been read. If it succeeds, Get answers what the rows say, of
        two rows with one key the last, and the returned keys are, without repeats, those whose value
        has changed. If it fails it has changed nothing but the version. */
    method Watch(v: nat, rows: seq<Row>, arrives: nat -> bool) returns (r: Option<seq<string>>)
      requires Valid() && version < v && Ascending(rows)
      modifies this
      ensures Valid() && version == v
      ensures r.Some? ==> forall i :: 0 <= i < |rows| && Latest(rows, i) ==>
        rows[i].key in store && rows[i].value == Some(store[rows[i].key])
      ensures r.Some? ==> forall key :: key in store ==> exists i :: 0 <= i < |rows| && rows[i].key == key
      ensures r.Some? && DistinctKeys(rows) ==> |store| == |rows|
      ensures r.Some? ==> NoRepeats(r.value) && forall key :: key in r.value <==>
        (key in old(store)) != (key in store) || (key in store && old(store)[key] != store[key])
      ensures r == None ==> store == old(store)
      ensures r.Some? <==> Fetchable(rows, 100, arrives)
    {
      hide ByKey, Pairs, AllParse, Fetchable, Ascending, NoRepeats, Latest, DistinctKeys;
      version := v;
      var pairs := Fetch(rows, limit, arrives);
      if pairs.None? {
        return None;
      }
      var now := ByKey(pairs.value);
      var updated := StoreChanged(now);
      updated := DeleteGone(now, updated);
      inter := now;
      ByKeyMirrors(rows);
      r := Some(updated);
    }
  }
}
