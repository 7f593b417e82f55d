/**
 The schema cache: readers fill it on a miss, writers refresh it after they commit, and a Redis
 script lets an entry replace another one only if its row version is higher.

 `Redis` is the pair of keys the script works on. `State` adds the database row, the clients in
 the middle of an operation and the clock; any number of clients interleave, and any of them may
 fail and disappear between two of its steps.
 */
module SchemaCaches {
  import opened Wrappers

  /** A committed state of the row. Versions start at 1 and grow by 1 with every update. */
  datatype Row = Row(version: nat, payload: string)

  datatype Entry<T> = Entry(content: T, expires: int)

  /** The value key and the version key. The value None stands for "no such row". */
  datatype Cache = Cache(value: Option<Entry<Option<Row>>>, version: Option<Entry<int>>)

  function At<T>(e: Option<Entry<T>>, now: int): Option<T>
  {
    if e.Some? && now < e.value.expires then Some(e.value.content) else None
  }

  function VersionOf(row: Option<Row>): nat
  {
    if row.Some? then row.value.version else 0
  }

  /** The version that the script compares with; -1 when there is none. */
  function CachedVersion(c: Cache, now: int): int
  {
    match At(c.version, now) case Some(v) => v case None => -1
  }

  /** The script, run at time `now`; its second SET happens `took` later than its first. */
  function Cas(c: Cache, row: Option<Row>, expire: nat, now: int, took: nat): Cache
  {
    if CachedVersion(c, now) < VersionOf(row)
    then Cache(Some(Entry(row, now + expire)), Some(Entry(VersionOf(row), now + took + expire)))
    else c
  }

  /** As far as both keys are there, they agree, and the value does not outlive the version. */
  ghost predicate Matched(c: Cache)
  {
    c.value.Some? && c.version.Some? ==>
      && c.value.value.expires <= c.version.value.expires
      && c.version.value.content == VersionOf(c.value.value.content)
  }

  /** What the script is for: afterwards no version is cached that is lower than the one offered or
      the one before. A row that is taken is served until it expires; one that is not taken leaves
      everything as it was, because something at least as new is there. */
  lemma CasKeepsNewest(c: Cache, row: Option<Row>, expire: nat, now: int, took: nat)
    requires Matched(c)
    ensures
      var after := Cas(c, row, expire, now, took);
      && Matched(after)
      && (expire > 0 ==>
            CachedVersion(c, now) <= CachedVersion(after, now) && VersionOf(row) <= CachedVersion(after, now))
      && (CachedVersion(c, now) < VersionOf(row) ==> forall t :: now <= t ==>
            && At(after.value, t) == (if t < now + expire then Some(row) else None)
            && CachedVersion(after, t) == if t < now + took + expire then VersionOf(row) else -1)
      && (VersionOf(row) <= CachedVersion(c, now) ==> after == c)
      && (At(after.value, now) != At(c.value, now) ==> At(after.value, now) == Some(row) || expire == 0)
  {
  }

  class Redis {
    var value: Option<Entry<Option<Row>>>
    var version: Option<Entry<int>>

    ghost function Contents(): Cache
      reads this
    {
      Cache(value, version)
    }

    ghost predicate Valid()
      reads this
    {
      Matched(Contents())
    }

    constructor ()
      ensures Valid() && Contents() == Cache(None, None)
    {
      value, version := None, None;
    }

    /** A hit is the entry that the cached version, if there is one, belongs to. */
    method Get(now: int) returns (r: Option<Option<Row>>)
      requires Valid()
      ensures r == At(Contents().value, now)
      ensures r.Some? && version.Some? ==> CachedVersion(Contents(), now) == VersionOf(r.value)
    {
      r := if value.Some? && now < value.value.expires then Some(value.value.content) else None;
    }

    /** If the row is not taken, a version at least as high is cached. */
    method RunCas(row: Option<Row>, ver: nat, expire: nat, now: int, took: nat) returns (done: bool)
      requires Valid() && ver == VersionOf(row)
      modifies this
      ensures Valid() && Contents() == Cas(old(Contents()), row, expire, now, took)
      ensures done && expire > 0 ==> At(Contents().value, now) == Some(row) && CachedVersion(Contents(), now) == ver
      ensures !done ==> Contents() == old(Contents()) && ver <= CachedVersion(Contents(), now)
    {
      var current := if version.Some? && now < version.value.expires then version.value.content else -1;
      if current < ver {
        value := Some(Entry(row, now + expire));
        version := Some(Entry(ver, now + took + expire));
        done := true;
      } else {
        done := false;
      }
    }

    method SetCacheSchema(row: Option<Row>, expire: nat, now: int, took: nat)
      requires Valid()
      modifies this
      ensures Valid() && Contents() == Cas(old(Contents()), row, expire, now, took)
    {
      var ver: nat := 0;
      if row.Some? && row.value.version > 0 {
        ver := row.value.version;
      }
      var _ := RunCas(row, ver, expire, now, took);
    }

    /** Nothing is served afterwards, and any row can be stored. */
    method Del()
      modifies this
      ensures Valid() && forall t :: At(Contents().value, t) == None && CachedVersion(Contents(), t) == -1
    {
      value, version := None, None;
    }

    /** A reader that is not interrupted: `row` is what the database answers, None if it fails. The
        result is the cached entry or the row, and whatever is served right afterwards is that
        result. A row is stored unless a version at least as high is cached. */
    method FetchSchema(row: Option<Option<Row>>, expire: nat, now: int, took: nat) returns (r: Option<Option<Row>>)
      requires Valid()
      modifies this
      ensures Valid()
      ensures r == if old(At(Contents().value, now)).Some? then old(At(Contents().value, now)) else row
      ensures At(Contents().value, now).Some? ==> At(Contents().value, now) == r
      ensures old(At(Contents().value, now)) == None && row.Some? && expire > 0 ==>
        VersionOf(row.value) <= CachedVersion(Contents(), now)
      ensures old(CachedVersion(Contents(), now)) <= CachedVersion(Contents(), now) || expire == 0
    {
      r := Get(now);
      if r.Some? {
        return;
      }
      if row.None? {
        return;
      }
      CasKeepsNewest(Contents(), row.value, expire, now, took);
      SetCacheSchema(row.value, expire, now, took);
      r := row;
    }
  }

  // ---------- clients ----------

  const MIN_EXPIRE: nat := 5
  const MAX_EXPIRE: nat := 9

  datatype Client =
    | Missed                     // a reader found nothing in the cache
    | Committed                  // a writer has committed an update and will read the row back
    | Setting(row: Option<Row>)  // about to run the script with the row it got

  datatype State = State(
    row: Option<Row>,
    cache: Cache,
    clients: map<nat, Client>,
    clock: int,
    committed: set<Row>)  // every state the row ever had

  const Initial := State(None, Cache(None, None), map[], 0, {})

  datatype Action =
    | Create(id: nat, payload: string)
    | Update(id: nat, payload: string)
    | Miss(id: nat)
    | Fetch(id: nat)
    | Set(id: nat, expire: nat, took: nat)
    | Vanish(id: nat)
    | Tick(time: nat)
    | Delete
    | DelCache
    | DelValue    // a deletion by prefix may reach only one of the two keys
    | DelVersion

  ghost predicate Enabled(s: State, a: Action)
  {
    match a
    case Create(id, _) => id !in s.clients && s.row.None?
    case Update(id, _) => id !in s.clients && s.row.Some?
    case Miss(id) => id !in s.clients && At(s.cache.value, s.clock).None?
    case Fetch(id) => id in s.clients && (s.clients[id].Missed? || s.clients[id].Committed?)
    case Set(id, expire, _) => id in s.clients && s.clients[id].Setting? && MIN_EXPIRE <= expire <= MAX_EXPIRE
    case Vanish(id) => id in s.clients
    case Tick(_) => true
    case Delete => s.row.Some?
    case DelCache => true
    case DelValue => true
    case DelVersion => true
  }

  ghost function Next(s: State, a: Action): State
    requires Enabled(s, a)
  {
    match a
    case Create(id, payload) =>
      var row := Row(1, payload);
      s.(row := Some(row), clients := s.clients[id := Setting(Some(row))], committed := s.committed + {row})
    case Update(id, payload) =>
      var row := Row(s.row.value.version + 1, payload);
      s.(row := Some(row), clients := s.clients[id := Committed], committed := s.committed + {row})
    case Miss(id) => s.(clients := s.clients[id := Missed])
    case Fetch(id) => s.(clients := s.clients[id := Setting(s.row)])
    case Set(id, expire, took) =>
      s.(cache := Cas(s.cache, s.clients[id].row, expire, s.clock, took),
         clients := s.clients - {id},
         clock := if CachedVersion(s.cache, s.clock) < VersionOf(s.clients[id].row) then s.clock + took else s.clock)
    case Vanish(id) => s.(clients := s.clients - {id})
    case Tick(time) => s.(clock := s.clock + time)
    case Delete => s.(row := None)
    case DelCache => s.(cache := Cache(None, None))
    case DelValue => s.(cache := s.cache.(value := None))
    case DelVersion => s.(cache := s.cache.(version := None))
  }

  ghost function Run(s: State, actions: seq<Action>): Option<State>
    decreases |actions|
  {
    if actions == [] then Some(s)
    else if Enabled(s, actions[0]) then Run(Next(s, actions[0]), actions[1..])
    else None
  }

  ghost predicate Reachable(s: State)
  {
    exists actions :: Run(Initial, actions) == Some(s)
  }

  /** Reachable without deleting the row. */
  ghost predicate ReachableUndeleted(s: State)
  {
    exists actions :: Run(Initial, actions) == Some(s) && Delete !in actions
  }

  // ---------- what is cached was really there ----------

  ghost predicate Genuine(s: State, row: Option<Row>)
  {
    row.Some? ==> row.value in s.committed && 1 <= row.value.version
  }

  ghost predicate Inv(s: State)
  {
    && Genuine(s, s.row)
    && (forall id :: id in s.clients && s.clients[id].Setting? ==> Genuine(s, s.clients[id].row))
    && (s.cache.value.Some? ==> Genuine(s, s.cache.value.value.content))
    && Matched(s.cache)
    && (s.cache.value.Some? ==> s.cache.value.value.expires <= s.clock + MAX_EXPIRE)
  }

  lemma InvStep(s: State, a: Action)
    requires Inv(s) && Enabled(s, a)
    ensures Inv(Next(s, a))
  {
  }

  /** While the row is not deleted, each version is committed with one payload, and none is above the row's. */
  ghost predicate VersionsUnique(s: State)
  {
    && (forall r :: r in s.committed ==> r.version <= VersionOf(s.row))
    && (forall r, q :: r in s.committed && q in s.committed && r.version == q.version ==> r == q)
  }

  lemma VersionsUniqueStep(s: State, a: Action)
    requires Inv(s) && VersionsUnique(s) && Enabled(s, a) && a != Delete
    ensures VersionsUnique(Next(s, a))
  {
  }

  lemma {:induction false} InvRun(s: State, actions: seq<Action>)
    requires Inv(s) && Run(s, actions).Some?
    ensures var t := Run(s, actions).value; Inv(t) && (VersionsUnique(s) && Delete !in actions ==> VersionsUnique(t))
    decreases |actions|
  {
    if actions != [] {
      InvStep(s, actions[0]);
      if VersionsUnique(s) && Delete !in actions {
        VersionsUniqueStep(s, actions[0]);
      }
      InvRun(Next(s, actions[0]), actions[1..]);
    }
  }

  /** A hit is a state of the row that was really committed, or the not-found entry. */
  lemma HitsAreGenuine(s: State, hit: Option<Row>)
    requires Reachable(s) && At(s.cache.value, s.clock) == Some(hit)
    ensures hit.Some? ==> hit.value in s.committed && 1 <= hit.value.version
    ensures s.cache.version.Some? ==> CachedVersion(s.cache, s.clock) == VersionOf(hit)
  {
    var actions :| Run(Initial, actions) == Some(s);
    InvRun(Initial, actions);
  }

  /** While the row is not deleted, a hit is the current row or one with a lower version. */
  lemma HitsAreCurrentOrOlder(s: State, hit: Option<Row>)
    requires ReachableUndeleted(s) && At(s.cache.value, s.clock) == Some(hit)
    ensures hit == s.row || VersionOf(hit) < VersionOf(s.row)
  {
    var actions :| Run(Initial, actions) == Some(s) && Delete !in actions;
    InvRun(Initial, actions);
  }

  // ---------- versions only grow until they expire ----------

  /** The version key is there before and after every one of the actions. */
  ghost predicate Unexpired(s: State, actions: seq<Action>)
    requires Run(s, actions).Some?
    decreases |actions|
  {
    && 0 <= CachedVersion(s.cache, s.clock)
    && (actions != [] ==> Unexpired(Next(s, actions[0]), actions[1..]))
  }

  lemma {:induction false} UnexpiredEnds(s: State, actions: seq<Action>)
    requires Run(s, actions).Some? && Unexpired(s, actions)
    ensures var t := Run(s, actions).value; 0 <= CachedVersion(t.cache, t.clock)
    decreases |actions|
  {
    if actions != [] {
      UnexpiredEnds(Next(s, actions[0]), actions[1..]);
    }
  }

  /** Until the version key expires, an entry is replaced only by one with a higher version. */
  ghost predicate Grown(c: Cache, now: int, d: Cache, later: int)
  {
    || (d.version == c.version && (d.value == c.value || d.value == None))
    || CachedVersion(c, now) < CachedVersion(d, later)
  }

  lemma GrowsStep(s: State, a: Action)
    requires Enabled(s, a)
    requires 0 <= CachedVersion(s.cache, s.clock) && 0 <= CachedVersion(Next(s, a).cache, Next(s, a).clock)
    ensures Grown(s.cache, s.clock, Next(s, a).cache, Next(s, a).clock)
  {
  }

  lemma {:induction false} VersionsOnlyGrow(s: State, actions: seq<Action>)
    requires Run(s, actions).Some? && Unexpired(s, actions)
    ensures var t := Run(s, actions).value; Grown(s.cache, s.clock, t.cache, t.clock)
    decreases |actions|
  {
    if actions != [] {
      GrowsStep(s, actions[0]);
      UnexpiredEnds(s, actions);
      VersionsOnlyGrow(Next(s, actions[0]), actions[1..]);
    }
  }

  /** In particular the not-found entry never replaces a row: once a row's version is cached, hits
      are rows until the version key expires. */
  lemma NotFoundNeverReplacesFound(s: State, actions: seq<Action>, hit: Option<Row>)
    requires Reachable(s) && 1 <= CachedVersion(s.cache, s.clock)
    requires Run(s, actions).Some? && Unexpired(s, actions)
    requires var t := Run(s, actions).value; At(t.cache.value, t.clock) == Some(hit)
    ensures hit.Some? && CachedVersion(s.cache, s.clock) <= VersionOf(hit)
  {
    var before :| Run(Initial, before) == Some(s);
    InvRun(Initial, before);
    InvRun(s, actions);
    VersionsOnlyGrow(s, actions);
    UnexpiredEnds(s, actions);
  }

  /** Once a client has run the script for a row, no hit is older than that row until the version
      key has expired, whatever all clients do in the meantime. */
  lemma NeverOlderThanSet(s: State, id: nat, expire: nat, took: nat, actions: seq<Action>, hit: Option<Row>)
    requires Reachable(s) && Enabled(s, Set(id, expire, took))
    requires var s1 := Next(s, Set(id, expire, took));
             && Run(s1, actions).Some? && Unexpired(s1, actions)
             && At(Run(s1, actions).value.cache.value, Run(s1, actions).value.clock) == Some(hit)
    ensures VersionOf(s.clients[id].row) <= VersionOf(hit)
  {
    var s1 := Next(s, Set(id, expire, took));
    var before :| Run(Initial, before) == Some(s);
    InvRun(Initial, before);
    InvStep(s, Set(id, expire, took));
    InvRun(s1, actions);
    VersionsOnlyGrow(s1, actions);
    UnexpiredEnds(s1, actions);
  }

  // ---------- staleness is bounded ----------

  ghost predicate Reads(a: Action)
  {
    !a.Create? && !a.Update? && a != Delete
  }

  /** Every client that is about to run the script will do so with the current row. */
  ghost predicate Settled(s: State)
  {
    forall id :: id in s.clients && s.clients[id].Setting? ==> s.clients[id].row == s.row
  }

  /** Whatever is cached and is not the current row expires by `limit`. */
  ghost predicate StaleUntil(s: State, limit: int)
  {
    s.cache.value.Some? && s.cache.value.value.content != s.row ==> s.cache.value.value.expires <= limit
  }

  lemma SettledStep(s: State, a: Action, limit: int)
    requires Settled(s) && StaleUntil(s, limit) && Enabled(s, a) && Reads(a)
    ensures Settled(Next(s, a)) && StaleUntil(Next(s, a), limit) && Next(s, a).row == s.row
  {
  }

  lemma {:induction false} SettledRun(s: State, actions: seq<Action>, limit: int)
    requires Settled(s) && StaleUntil(s, limit)
    requires Run(s, actions).Some? && forall a :: a in actions ==> Reads(a)
    ensures var t := Run(s, actions).value; Settled(t) && StaleUntil(t, limit) && t.row == s.row
    decreases |actions|
  {
    if actions != [] {
      SettledStep(s, actions[0], limit);
      SettledRun(Next(s, actions[0]), actions[1..], limit);
    }
  }

  /** When writing stops and no client still holds an older row, every hit is the current row after
      the longest expiry, whatever readers do. */
  lemma CatchesUp(s: State, actions: seq<Action>, hit: Option<Row>)
    requires Reachable(s) && Settled(s)
    requires Run(s, actions).Some? && forall a :: a in actions ==> Reads(a)
    requires
      var t := Run(s, actions).value;
      s.clock + 9 <= t.clock && At(t.cache.value, t.clock) == Some(hit)
    ensures hit == s.row
  {
    var before :| Run(Initial, before) == Some(s);
    InvRun(Initial, before);
    SettledRun(s, actions, s.clock + MAX_EXPIRE);
  }

  /** A client that is about to store another row can do so once everything has expired. */
  lemma UnsettledGoesStale(s: State, id: nat) returns (actions: seq<Action>, hit: Option<Row>)
    requires id in s.clients && s.clients[id].Setting? && s.clients[id].row != s.row
    ensures Run(s, actions).Some? && forall a :: a in actions ==> Reads(a)
    ensures
      var t := Run(s, actions).value;
      s.clock + MAX_EXPIRE <= t.clock && At(t.cache.value, t.clock) == Some(hit)
    ensures hit != s.row
  {
    var gone := if s.cache.version.Some? && s.clock < s.cache.version.value.expires
                then s.cache.version.value.expires - s.clock else 0;
    var wait := Tick(MAX_EXPIRE + gone);
    var set_ := Set(id, MIN_EXPIRE, 0);
    var s1 := Next(s, wait);
    var s2 := Next(s1, set_);
    actions, hit := [wait, set_], s.clients[id].row;
    assert CachedVersion(s1.cache, s1.clock) == -1;
    assert actions[1..] == [set_] && [set_][1..] == [];
    assert Run(s1, [set_]) == Some(s2);
  }

  /** Without further writes, every hit after the longest expiry is the current row. */
  ghost predicate EndsCurrent(s: State)
  {
    forall actions, hit ::
      Run(s, actions).Some? && (forall a :: a in actions ==> Reads(a))
      && (var t := Run(s, actions).value; s.clock + 9 <= t.clock && At(t.cache.value, t.clock) == Some(hit))
      ==> hit == s.row
  }

  /** When writing stops, staleness ends with the longest expiry exactly if no client is about to
      store another row, which it may have got before an update or before a deletion. */
  lemma EndsCurrentIffSettled(s: State)
    requires Reachable(s)
    ensures EndsCurrent(s) <==> Settled(s)
  {
    if Settled(s) {
      forall actions, hit | Run(s, actions).Some? && (forall a :: a in actions ==> Reads(a))
        && (var t := Run(s, actions).value; s.clock + 9 <= t.clock && At(t.cache.value, t.clock) == Some(hit))
        ensures hit == s.row
      {
        CatchesUp(s, actions, hit);
      }
    } else {
      var id :| id in s.clients && s.clients[id].Setting? && s.clients[id].row != s.row;
      var actions, hit := UnsettledGoesStale(s, id);
    }
  }

  // ---------- how a client comes to hold another row ----------

  lemma {:induction false} RunAppend(s: State, first: seq<Action>, a: Action)
    requires Run(s, first).Some? && Enabled(Run(s, first).value, a)
    ensures Run(s, first + [a]) == Some(Next(Run(s, first).value, a))
    decreases |first|
  {
    if first == [] {
      assert first + [a] == [a];
      assert Run(Next(s, a), [a][1..]) == Some(Next(s, a));
    } else {
      assert (first + [a])[1..] == first[1..] + [a];
      RunAppend(Next(s, first[0]), first[1..], a);
    }
  }

  lemma Extend(s: State, a: Action)
    requires Reachable(s) && Enabled(s, a)
    ensures Reachable(Next(s, a))
    ensures ReachableUndeleted(s) && a != Delete ==> ReachableUndeleted(Next(s, a))
  {
    if ReachableUndeleted(s) && a != Delete {
      var actions :| Run(Initial, actions) == Some(s) && Delete !in actions;
      RunAppend(Initial, actions, a);
      assert Run(Initial, actions + [a]) == Some(Next(s, a)) && Delete !in actions + [a];
    } else {
      var actions :| Run(Initial, actions) == Some(s);
      RunAppend(Initial, actions, a);
    }
  }

  /** A reader holds version 1 of the row and nothing is cached. */
  function Waiting(p: string): State
  {
    State(Some(Row(1, p)), Cache(None, None), map[1 := Setting(Some(Row(1, p)))], 0, {Row(1, p)})
  }

  lemma ReaderMayWait(p: string)
    ensures ReachableUndeleted(Waiting(p))
  {
    assert Run(Initial, []) == Some(Initial);
    Extend(Initial, Create(0, p));
    var s1 := Next(Initial, Create(0, p));
    Extend(s1, Vanish(0));
    var s2 := Next(s1, Vanish(0));
    Extend(s2, Miss(1));
    var s3 := Next(s2, Miss(1));
    Extend(s3, Fetch(1));
    assert Next(s3, Fetch(1)) == Waiting(p);
  }

  /** A reader that is slower than an expiry puts an old row back after a completed update, and it is
      served with nobody in the middle of anything. */
  lemma SlowReaderRestoresOldRow(p: string, q: string)
    ensures exists s :: ReachableUndeleted(s) && s.clients == map[] &&
              s.row == Some(Row(2, q)) && At(s.cache.value, s.clock) == Some(Some(Row(1, p)))
  {
    ReaderMayWait(p);
    var s4 := Waiting(p);
    Extend(s4, Update(2, q));
    var s5 := Next(s4, Update(2, q));
    Extend(s5, Fetch(2));
    var s6 := Next(s5, Fetch(2));
    Extend(s6, Set(2, MIN_EXPIRE, 0));
    var s7 := Next(s6, Set(2, MIN_EXPIRE, 0));
    Extend(s7, Tick(MIN_EXPIRE));
    var s8 := Next(s7, Tick(MIN_EXPIRE));
    Extend(s8, Set(1, MIN_EXPIRE, 0));
    var s9 := Next(s8, Set(1, MIN_EXPIRE, 0));
    assert s9.clients == map[];
  }

  /** A writer that is slower than a deletion puts the deleted row back into the cache. */
  lemma SlowWriterRestoresDeletedRow(p: string)
    ensures exists s :: Reachable(s) && s.clients == map[] &&
              s.row == None && At(s.cache.value, s.clock) == Some(Some(Row(1, p)))
  {
    assert Run(Initial, []) == Some(Initial);
    Extend(Initial, Create(0, p));
    var s1 := Next(Initial, Create(0, p));
    Extend(s1, Delete);
    var s2 := Next(s1, Delete);
    Extend(s2, DelCache);
    var s3 := Next(s2, DelCache);
    Extend(s3, Set(0, MIN_EXPIRE, 0));
    var s4 := Next(s3, Set(0, MIN_EXPIRE, 0));
    assert s4.clients == map[];
  }
}
