/**
 The targets of a rule, and what serving them does to an executor: for each target it keeps the
 target, a transformer and a dispatcher.
 */
module RuleTargets {
  import opened Listings
  import opened Wrappers

  datatype Param = Param(key: string, form: string, value: string)

  datatype Retry = Unspecified | Backoff | ExponentialDecay

  datatype Target = Target(id: nat, kind: string, params: seq<Param>, retry: Retry)

  datatype Rule = Rule(name: string, busName: string, pattern: string, targets: seq<Target>)

  /** What the environment answers during one Update. */
  datatype Factories = Factories(
    parses: string -> bool,
    transformer: Target -> bool,
    dispatcher: Target -> bool,
    closes: Dispatcher -> bool)

  /** The empty text is no JSON. */
  predicate Parses(f: Factories, pattern: string)
  {
    pattern != "" && f.parses(pattern)
  }

  /** A dispatcher, by the number of its creation and the target it was built from. */
  datatype Dispatcher = Dispatcher(serial: nat, target: Target)

  /** The targets by id; of two targets with one id the last one counts. */
  function LastWins(targets: seq<Target>): (m: map<nat, Target>)
    ensures forall id :: id in m ==> m[id].id == id && m[id] in targets
    ensures forall t :: t in targets ==> t.id in m
  {
    if targets == [] then map[]
    else
      var last := targets[|targets| - 1];
      LastWins(targets[..|targets| - 1])[last.id := last]
  }

  /** A target without a later one of the same id is the one in the map. */
  lemma {:induction false} LastDuplicateWins(targets: seq<Target>, i: nat)
    requires i < |targets| && forall j :: i < j < |targets| ==> targets[j].id != targets[i].id
    ensures targets[i].id in LastWins(targets) && LastWins(targets)[targets[i].id] == targets[i]
    decreases |targets|
  {
    if i < |targets| - 1 {
      LastDuplicateWins(targets[..|targets| - 1], i);
    }
  }

  /** How an Update ends. A crash is a call of Close on a dispatcher that is missing. */
  datatype Done = Succeeded | Failed | Crashed

  function Find<V>(m: map<nat, V>, id: nat): Option<V>
  {
    if id in m then Some(m[id]) else None
  }

  /** Two maps hold the same under a key, or neither holds anything. */
  ghost predicate SameAt<V>(m: map<nat, V>, n: map<nat, V>, id: nat)
  {
    (id in m <==> id in n) && (id in m ==> m[id] == n[id])
  }

  /** A target that is new or not as it was. */
  ghost predicate Changed(was: map<nat, Target>, now: map<nat, Target>, id: nat)
  {
    id in now && (id in was ==> was[id] != now[id])
  }

  ghost predicate Buildable(f: Factories, t: Target)
  {
    f.transformer(t) && f.dispatcher(t)
  }

  /** What an executor keeps per target. */
  datatype Parts = Parts(targets: map<nat, Target>, transformers: map<nat, Target>, dispatchers: map<nat, Dispatcher>)

  /** Every target has a transformer and a dispatcher that were built for it, and there are no others. */
  ghost predicate Agree(p: Parts)
  {
    && p.targets == p.transformers && p.targets.Keys == p.dispatchers.Keys
    && forall id :: id in p.targets ==> p.dispatchers[id].target == p.targets[id]
  }

  /** There is nothing for targets that are not there. */
  ghost predicate Confined(p: Parts)
  {
    p.transformers.Keys <= p.targets.Keys && p.dispatchers.Keys <= p.targets.Keys
  }

  /** The target has a transformer and a dispatcher that were built for it. */
  ghost predicate Whole(p: Parts, id: nat)
  {
    && id in p.targets && id in p.transformers && p.transformers[id] == p.targets[id]
    && id in p.dispatchers && p.dispatchers[id].target == p.targets[id]
  }

  lemma AgreeIsWhole(p: Parts)
    ensures Agree(p) <==> Confined(p) && forall id :: id in p.targets ==> Whole(p, id)
  {
    if Confined(p) && forall id :: id in p.targets ==> Whole(p, id) {
      assert forall id :: id in p.targets <==> id in p.transformers;
      assert forall id :: id in p.targets <==> id in p.dispatchers;
    }
  }

  /** The target still has the transformer and the dispatcher it had. */
  ghost predicate Untouched(p0: Parts, p: Parts, id: nat)
  {
    SameAt(p.transformers, p0.transformers, id) && SameAt(p.dispatchers, p0.dispatchers, id)
  }

  /** The target has been given a transformer and a dispatcher with a serial number from n on. */
  ghost predicate Renewed(p: Parts, all: map<nat, Target>, id: nat, n: nat)
  {
    && id in all && id in p.transformers && p.transformers[id] == all[id]
    && id in p.dispatchers && p.dispatchers[id].target == all[id] && n <= p.dispatchers[id].serial
  }

  /** p is p0 with the targets `all` served, except those still to do. */
  ghost predicate Serving(p0: Parts, p: Parts, all: map<nat, Target>, todo: set<nat>, n: nat)
  {
    && p0.targets.Keys <= all.Keys && p.targets.Keys <= all.Keys && todo <= all.Keys
    && (forall id :: id in all && id !in todo ==> id in p.targets && p.targets[id] == all[id])
    && (forall id :: id in todo ==> SameAt(p.targets, p0.targets, id))
    && (forall id :: id in todo || !Changed(p0.targets, all, id) ==> Untouched(p0, p, id))
    && (forall id :: id !in todo && Changed(p0.targets, all, id) ==> Renewed(p, all, id, n))
  }

  lemma ServingStart(p: Parts, all: map<nat, Target>, n: nat)
    requires p.targets.Keys <= all.Keys
    ensures Serving(p, p, all, all.Keys, n)
  {
  }

  lemma ServingStep(p0: Parts, p: Parts, all: map<nat, Target>, todo: set<nat>, n: nat, id: nat, d: Dispatcher)
    requires Serving(p0, p, all, todo, n) && id in todo
    requires d.target == all[id] && n <= d.serial
    ensures Changed(p0.targets, all, id) <==> Changed(p.targets, all, id)
    ensures Find(p0.dispatchers, id) == Find(p.dispatchers, id)
    ensures !Changed(p.targets, all, id) ==> Serving(p0, p, all, todo - {id}, n)
    ensures Changed(p.targets, all, id) ==>
      var q := Parts(p.targets[id := all[id]], p.transformers[id := all[id]], p.dispatchers[id := d]);
      Serving(p0, q, all, todo - {id}, n)
  {
  }

  ghost function Without(p: Parts, ids: set<nat>): Parts
  {
    Parts(p.targets - ids, p.transformers - ids, p.dispatchers - ids)
  }

  lemma WithoutStep(p: Parts, ids: set<nat>, id: nat)
    ensures Without(Without(p, ids), {id}) == Without(p, ids + {id})
  {
  }

  lemma WithoutNothing(p: Parts)
    ensures Without(p, {}) == p
  {
  }

  /** Dropping the targets that are not in `now` changes nothing for those that are. */
  lemma Restricting(p: Parts, now: map<nat, Target>)
    ensures
      var q := Without(p, p.targets.Keys - now.Keys);
      && q.targets.Keys <= now.Keys && (Confined(p) ==> Confined(q))
      && (forall id :: Changed(q.targets, now, id) <==> Changed(p.targets, now, id))
      && (forall id :: id in now ==> Untouched(p, q, id))
      && (p.targets == now ==> q == Without(p, {}))
  {
  }

  /** A factory that has to be called for the target fails. */
  ghost predicate Fails(was: map<nat, Target>, now: map<nat, Target>, f: Factories, id: nat)
  {
    Changed(was, now, id) && !Buildable(f, now[id])
  }

  ghost predicate AllBuild(was: map<nat, Target>, now: map<nat, Target>, f: Factories)
  {
    forall id :: !Fails(was, now, f, id)
  }

  /** Both factories succeed for every target that is new or not as it was. */
  lemma AllBuildMeans(was: map<nat, Target>, now: map<nat, Target>, f: Factories)
    ensures AllBuild(was, now, f) <==> forall id :: id in now ==>
      (id in was && was[id] == now[id]) || (f.transformer(now[id]) && f.dispatcher(now[id]))
  {
    if AllBuild(was, now, f) {
      forall id | id in now
        ensures (id in was && was[id] == now[id]) || (f.transformer(now[id]) && f.dispatcher(now[id]))
      {
        assert !Fails(was, now, f, id);
      }
    }
  }

  /** Where serving stops: at the first target that fails, or at the end. */
  ghost function Stop(was: map<nat, Target>, now: map<nat, Target>, f: Factories, serves: seq<nat>): (k: nat)
    ensures k <= |serves|
    ensures forall i :: 0 <= i < k ==> !Fails(was, now, f, serves[i])
    ensures k < |serves| ==> Fails(was, now, f, serves[k])
  {
    if serves == [] || Fails(was, now, f, serves[0]) then 0 else 1 + Stop(was, now, f, serves[1..])
  }

  /** What serving does to the i-th target, if it stops at the k-th: that one is recorded and may get
      a transformer, but keeps the dispatcher it had. */
  ghost predicate ServedAt(
    p0: Parts, p: Parts, all: map<nat, Target>, f: Factories, serves: seq<nat>, n: nat, i: nat, k: nat)
    requires i < |serves|
  {
    var id := serves[i];
    if i <= k then
      && id in all && id in p.targets && p.targets[id] == all[id]
      && (if i == k then
            && SameAt(p.dispatchers, p0.dispatchers, id)
            && (if f.transformer(all[id]) then id in p.transformers && p.transformers[id] == all[id]
                else SameAt(p.transformers, p0.transformers, id))
          else if Changed(p0.targets, all, id) then Renewed(p, all, id, n)
          else Untouched(p0, p, id))
    else SameAt(p.targets, p0.targets, id) && Untouched(p0, p, id)
  }

  /** What serving all targets in an order achieves. */
  ghost predicate Served(p0: Parts, p: Parts, all: map<nat, Target>, f: Factories, serves: seq<nat>, n: nat)
  {
    && p0.targets.Keys <= all.Keys && p.targets.Keys <= all.Keys
    && (forall id :: id !in all ==> Untouched(p0, p, id))
    && forall i :: 0 <= i < |serves| ==> ServedAt(p0, p, all, f, serves, n, i, Stop(p0.targets, all, f, serves))
  }

  // ---------- when everything is in place afterwards ----------

  /** Every target that is not served, because it has not changed, is whole. */
  ghost predicate KeptWhole(p: Parts, now: map<nat, Target>)
  {
    forall id :: id in now && !Changed(p.targets, now, id) ==> Whole(p, id)
  }

  /** What is left of an earlier version is just what the target now needs, so that its failure does
      no harm. */
  ghost predicate AlreadyBuilt(p: Parts, now: map<nat, Target>, f: Factories, id: nat)
  {
    && id in now && id in p.dispatchers && p.dispatchers[id].target == now[id]
    && (f.transformer(now[id]) || (id in p.transformers && p.transformers[id] == now[id]))
  }

  /** The i-th target will be in place and whole. */
  ghost predicate EndsWholeAt(p: Parts, now: map<nat, Target>, f: Factories, serves: seq<nat>, i: nat)
    requires i < |serves|
  {
    var id, k := serves[i], Stop(p.targets, now, f, serves);
    if i == k then AlreadyBuilt(p, now, f, id)
    else if Changed(p.targets, now, id) then i < k
    else Whole(p, id)
  }

  /** All targets will be in place and whole: those that are kept are, and those that have changed are
      built, except that the last of them may fail if it is built already. */
  ghost predicate EndsWhole(p: Parts, now: map<nat, Target>, f: Factories, serves: seq<nat>)
  {
    forall i :: 0 <= i < |serves| ==> EndsWholeAt(p, now, f, serves, i)
  }

  /** If all factories succeed, that depends on the kept targets only. */
  lemma EndsWholeIfAllBuild(p: Parts, now: map<nat, Target>, f: Factories, serves: seq<nat>)
    requires Lists(serves, now.Keys) && AllBuild(p.targets, now, f)
    ensures EndsWhole(p, now, f, serves) <==> KeptWhole(p, now)
  {
    StopsUnlessAllBuild(p.targets, now, f, serves);
    if EndsWhole(p, now, f, serves) {
      forall id | id in now && !Changed(p.targets, now, id)
        ensures Whole(p, id)
      {
        var i :| 0 <= i < |serves| && serves[i] == id;
        assert EndsWholeAt(p, now, f, serves, i);
      }
    }
  }

  /** From a state that agrees, it is the same as that all factories succeed. */
  lemma EndsWholeFromAgreed(p: Parts, now: map<nat, Target>, f: Factories, serves: seq<nat>)
    requires Lists(serves, now.Keys) && Agree(p)
    ensures KeptWhole(p, now)
    ensures EndsWhole(p, now, f, serves) <==> AllBuild(p.targets, now, f)
  {
    StopsUnlessAllBuild(p.targets, now, f, serves);
    if AllBuild(p.targets, now, f) {
      EndsWholeIfAllBuild(p, now, f, serves);
    } else {
      var k := Stop(p.targets, now, f, serves);
      assert !EndsWholeAt(p, now, f, serves, k);
    }
  }

  lemma ServedWholeAt(
    p0: Parts, p: Parts, all: map<nat, Target>, f: Factories, serves: seq<nat>, n: nat, i: nat)
    requires Served(p0, p, all, f, serves, n) && Lists(serves, all.Keys) && i < |serves|
    ensures serves[i] in all
    ensures EndsWholeAt(p0, all, f, serves, i) <==>
      serves[i] in p.targets && p.targets[serves[i]] == all[serves[i]] && Whole(p, serves[i])
  {
    hide Stop;
    assert serves[i] in serves;
    assert ServedAt(p0, p, all, f, serves, n, i, Stop(p0.targets, all, f, serves));
  }

  lemma ServedConfined(p0: Parts, p: Parts, all: map<nat, Target>, f: Factories, serves: seq<nat>, n: nat)
    requires Served(p0, p, all, f, serves, n) && Lists(serves, all.Keys) && Confined(p0)
    ensures Confined(p)
  {
    forall id | id !in p.targets
      ensures id !in p.transformers && id !in p.dispatchers
    {
      if id in all {
        var i :| 0 <= i < |serves| && serves[i] == id;
        assert ServedAt(p0, p, all, f, serves, n, i, Stop(p0.targets, all, f, serves));
      } else {
        assert Untouched(p0, p, id);
      }
    }
  }

  lemma ServedEndsWhole(p0: Parts, p: Parts, all: map<nat, Target>, f: Factories, serves: seq<nat>, n: nat)
    requires Served(p0, p, all, f, serves, n) && Lists(serves, all.Keys) && Confined(p)
    ensures p.targets == all && Agree(p) <==> EndsWhole(p0, all, f, serves)
  {
    AgreeIsWhole(p);
    forall i | 0 <= i < |serves|
      ensures EndsWholeAt(p0, all, f, serves, i) <==>
        serves[i] in all && serves[i] in p.targets && p.targets[serves[i]] == all[serves[i]] && Whole(p, serves[i])
    {
      ServedWholeAt(p0, p, all, f, serves, n, i);
    }
    hide EndsWholeAt, ServedAt;
    if EndsWhole(p0, all, f, serves) {
      forall id | id in all
        ensures id in p.targets && p.targets[id] == all[id] && Whole(p, id)
      {
        var i :| 0 <= i < |serves| && serves[i] == id;
        assert EndsWholeAt(p0, all, f, serves, i);
      }
    }
  }

  // ---------- replacing the targets ----------

  ghost predicate Gone(p: Parts, id: nat)
  {
    id !in p.targets && id !in p.transformers && id !in p.dispatchers
  }

  /** What replacing the targets by `now` achieves: they are in place and whole exactly if that is to
      be expected, unchanged ones keep what they have, and others are gone in any case. Those that
      are built are whole; the first one that fails is recorded, but has the dispatcher it had. */
  ghost predicate Replaced(p0: Parts, p: Parts, now: map<nat, Target>, f: Factories, serves: seq<nat>)
  {
    && (Confined(p0) ==> Confined(p) && (p.targets == now && Agree(p) <==> EndsWhole(p0, now, f, serves)))
    && (Confined(p0) ==> forall id :: id !in now ==> Gone(p, id))
    && (forall id :: id in now && !Changed(p0.targets, now, id) ==>
          id in p.targets && p.targets[id] == now[id] && Untouched(p0, p, id))
    && ReplacedUpTo(p0, p, now, f, serves, Stop(p0.targets, now, f, serves))
  }

  ghost predicate ReplacedUpTo(
    p0: Parts, p: Parts, now: map<nat, Target>, f: Factories, serves: seq<nat>, k: nat)
    requires k <= |serves|
  {
    && (forall i :: 0 <= i < k && Changed(p0.targets, now, serves[i]) ==> Whole(p, serves[i]))
    && (k < |serves| ==>
          && Fails(p0.targets, now, f, serves[k])
          && serves[k] in p.targets && p.targets[serves[k]] == now[serves[k]]
          && SameAt(p.dispatchers, p0.dispatchers, serves[k])
          && (Whole(p, serves[k]) <==> AlreadyBuilt(p0, now, f, serves[k])))
    && (forall i :: k < i < |serves| ==>
          SameAt(p.targets, p0.targets, serves[i]) && Untouched(p0, p, serves[i]))
  }

  ghost function Rest(serves: seq<nat>, i: nat): set<nat>
    requires i <= |serves|
  {
    set id | id in serves[i..]
  }

  lemma RestStep(serves: seq<nat>, i: nat)
    requires i < |serves| && NoRepeats(serves)
    ensures serves[i] in Rest(serves, i) && Rest(serves, i + 1) == Rest(serves, i) - {serves[i]}
  {
    assert serves[i..] == [serves[i]] + serves[i + 1..];
  }

  lemma ServingSucceeds(p0: Parts, p: Parts, all: map<nat, Target>, f: Factories, serves: seq<nat>, n: nat)
    requires Serving(p0, p, all, {}, n) && Lists(serves, all.Keys)
    requires Stop(p0.targets, all, f, serves) == |serves|
    ensures Served(p0, p, all, f, serves, n)
  {
  }

  /** Serving stops at the i-th target: it is recorded, and its dispatcher could not be built. */
  lemma ServingFails(
    p0: Parts, p: Parts, all: map<nat, Target>, f: Factories, serves: seq<nat>, n: nat, i: nat)
    requires Lists(serves, all.Keys) && i < |serves| && Serving(p0, p, all, Rest(serves, i), n)
    requires i == Stop(p0.targets, all, f, serves) && serves[i] in all
    ensures
      var id := serves[i];
      var transformers := if f.transformer(all[id]) then p.transformers[id := all[id]] else p.transformers;
      Served(p0, Parts(p.targets[id := all[id]], transformers, p.dispatchers), all, f, serves, n)
  {
    hide ServedAt, Renewed, Lists, Stop;
    var transformers :=
      if f.transformer(all[serves[i]]) then p.transformers[serves[i] := all[serves[i]]] else p.transformers;
    var q := Parts(p.targets[serves[i] := all[serves[i]]], transformers, p.dispatchers);
    assert forall id :: id !in all ==> SameAt(transformers, p.transformers, id);
    forall j | 0 <= j < |serves|
      ensures ServedAt(p0, q, all, f, serves, n, j, i)
    {
      ServingFailsAt(p0, p, q, all, f, serves, n, i, j);
    }
  }

  lemma ServingFailsAt(
    p0: Parts, p: Parts, q: Parts, all: map<nat, Target>, f: Factories, serves: seq<nat>, n: nat, i: nat, j: nat)
    requires Lists(serves, all.Keys) && i < |serves| && j < |serves| && Serving(p0, p, all, Rest(serves, i), n)
    requires serves[i] in all && q.targets == p.targets[serves[i] := all[serves[i]]] && q.dispatchers == p.dispatchers
    requires q.transformers ==
      if f.transformer(all[serves[i]]) then p.transformers[serves[i] := all[serves[i]]] else p.transformers
    ensures ServedAt(p0, q, all, f, serves, n, j, i)
  {
    hide Renewed;
    var id := serves[j];
    assert id in all;
    assert id in Rest(serves, i) <==> i <= j by {
      if i <= j {
        assert id == serves[i..][j - i];
      }
    }
    assert j != i ==> id != serves[i] && SameAt(q.transformers, p.transformers, id);
    RenewedStays(p, q, all, id, n);
  }

  lemma RenewedStays(p: Parts, q: Parts, all: map<nat, Target>, id: nat, n: nat)
    ensures SameAt(q.transformers, p.transformers, id) && q.dispatchers == p.dispatchers ==>
      Renewed(p, all, id, n) == Renewed(q, all, id, n)
  {
  }

  /** Serving after dropping is replacing. */
  lemma ServedThenReplaced(p0: Parts, p: Parts, now: map<nat, Target>, f: Factories, serves: seq<nat>, n: nat)
    requires Served(Without(p0, p0.targets.Keys - now.Keys), p, now, f, serves, n) && Lists(serves, now.Keys)
    ensures Replaced(p0, p, now, f, serves)
  {
    hide Served, Untouched, Stop, Lists, EndsWhole, ReplacedUpTo;
    var kept := Without(p0, p0.targets.Keys - now.Keys);
    Restricting(p0, now);
    EndsWholeKept(p0, now, f, serves);
    ServedKeeps(kept, p, now, f, serves, n);
    ServedUpTo(p0, p, now, f, serves, n);
    if Confined(p0) {
      ServedConfined(kept, p, now, f, serves, n);
      ServedEndsWhole(kept, p, now, f, serves, n);
    }
    forall id | id in now && !Changed(p0.targets, now, id)
      ensures Untouched(p0, p, id)
    {
      UntouchedTwice(p0, kept, p, id);
    }
    forall id | id !in now
      ensures Confined(p0) ==> Gone(p, id)
    {
    }
  }

  lemma ReplacedAgrees(p0: Parts, p: Parts, now: map<nat, Target>, f: Factories, serves: seq<nat>)
    requires Replaced(p0, p, now, f, serves) && Confined(p0)
    ensures Confined(p) && (p.targets == now && Agree(p) <==> EndsWhole(p0, now, f, serves))
    ensures p.targets.Keys <= now.Keys
  {
    assert forall id :: id !in now ==> Gone(p, id);
  }

  /** A kept target is after the update what it was before. */
  lemma KeptStays(p0: Parts, p: Parts, now: map<nat, Target>, f: Factories, serves: seq<nat>, id: nat)
    requires Replaced(p0, p, now, f, serves) && id in now && !Changed(p0.targets, now, id)
    ensures id in p.targets && p.targets[id] == now[id] && (Whole(p, id) <==> Whole(p0, id))
  {
  }

  /** The first target that fails is recorded; it is whole only if it was built already. */
  lemma FailingIsRecorded(p0: Parts, p: Parts, now: map<nat, Target>, f: Factories, serves: seq<nat>)
    requires Replaced(p0, p, now, f, serves) && Stop(p0.targets, now, f, serves) < |serves|
    ensures
      var id := serves[Stop(p0.targets, now, f, serves)];
      && id in now && id in p.targets && p.targets[id] == now[id]
      && (Whole(p, id) <==> AlreadyBuilt(p0, now, f, id)) && (id in p.dispatchers <==> id in p0.dispatchers)
  {
  }

  lemma UntouchedTwice(p: Parts, q: Parts, r: Parts, id: nat)
    requires Untouched(p, q, id) && Untouched(q, r, id)
    ensures Untouched(p, r, id)
  {
  }

  lemma ServedKeeps(p0: Parts, p: Parts, all: map<nat, Target>, f: Factories, serves: seq<nat>, n: nat)
    requires Served(p0, p, all, f, serves, n) && Lists(serves, all.Keys)
    ensures forall id :: id in all && !Changed(p0.targets, all, id) ==>
      id in p.targets && p.targets[id] == all[id] && Untouched(p0, p, id)
    ensures forall id :: id !in all ==> id !in p.targets && Untouched(p0, p, id)
  {
    var k := Stop(p0.targets, all, f, serves);
    forall id | id in all && !Changed(p0.targets, all, id)
      ensures id in p.targets && p.targets[id] == all[id] && Untouched(p0, p, id)
    {
      var i :| 0 <= i < |serves| && serves[i] == id;
      assert ServedAt(p0, p, all, f, serves, n, i, k);
    }
  }

  lemma ServedUpTo(p0: Parts, p: Parts, now: map<nat, Target>, f: Factories, serves: seq<nat>, n: nat)
    requires Served(Without(p0, p0.targets.Keys - now.Keys), p, now, f, serves, n) && Lists(serves, now.Keys)
    ensures ReplacedUpTo(p0, p, now, f, serves, Stop(p0.targets, now, f, serves))
  {
    var kept := Without(p0, p0.targets.Keys - now.Keys);
    StopKept(p0, now, f, serves);
    hide Stop, Lists, Renewed;
    var k := Stop(p0.targets, now, f, serves);
    forall i | 0 <= i < |serves|
      ensures serves[i] in now && ServedAt(kept, p, now, f, serves, n, i, k)
    {
      ServesAreNow(serves, now, i);
    }
    forall i | 0 <= i < k && Changed(p0.targets, now, serves[i])
      ensures Whole(p, serves[i])
    {
      KeptAt(p0, now, serves[i]);
      RenewedIsWhole(p, now, serves[i], n);
    }
    forall i | k <= i < |serves|
      ensures SameAt(kept.targets, p0.targets, serves[i]) && Untouched(p0, kept, serves[i])
    {
      KeptAt(p0, now, serves[i]);
    }
  }

  lemma ServesAreNow(serves: seq<nat>, now: map<nat, Target>, i: nat)
    requires Lists(serves, now.Keys) && i < |serves|
    ensures serves[i] in now
  {
    assert serves[i] in serves;
  }

  lemma RenewedIsWhole(p: Parts, now: map<nat, Target>, id: nat, n: nat)
    ensures Renewed(p, now, id, n) && id in p.targets && p.targets[id] == now[id] ==> Whole(p, id)
  {
  }

  lemma KeptAt(p0: Parts, now: map<nat, Target>, id: nat)
    requires id in now
    ensures
      var kept := Without(p0, p0.targets.Keys - now.Keys);
      && SameAt(kept.targets, p0.targets, id) && Untouched(p0, kept, id)
      && (Changed(kept.targets, now, id) <==> Changed(p0.targets, now, id))
      && (Whole(kept, id) <==> Whole(p0, id))
  {
  }

  lemma EndsWholeKept(p0: Parts, now: map<nat, Target>, f: Factories, serves: seq<nat>)
    requires Lists(serves, now.Keys)
    ensures EndsWhole(Without(p0, p0.targets.Keys - now.Keys), now, f, serves) <==> EndsWhole(p0, now, f, serves)
  {
    var kept := Without(p0, p0.targets.Keys - now.Keys);
    StopKept(p0, now, f, serves);
    hide Stop, Lists;
    forall i | 0 <= i < |serves|
      ensures EndsWholeAt(kept, now, f, serves, i) <==> EndsWholeAt(p0, now, f, serves, i)
    {
      ServesAreNow(serves, now, i);
      KeptAt(p0, now, serves[i]);
    }
  }

  lemma {:induction false} StopKept(p0: Parts, now: map<nat, Target>, f: Factories, serves: seq<nat>)
    ensures Stop(Without(p0, p0.targets.Keys - now.Keys).targets, now, f, serves) == Stop(p0.targets, now, f, serves)
    decreases |serves|
  {
    Restricting(p0, now);
    if serves != [] {
      StopKept(p0, now, f, serves[1..]);
    }
  }

  lemma StopsUnlessAllBuild(was: map<nat, Target>, now: map<nat, Target>, f: Factories, serves: seq<nat>)
    requires Lists(serves, now.Keys)
    ensures AllBuild(was, now, f) <==> Stop(was, now, f, serves) == |serves|
  {
    if Stop(was, now, f, serves) == |serves| {
      forall id | id in now
        ensures !Fails(was, now, f, id)
      {
        var i :| 0 <= i < |serves| && serves[i] == id;
      }
    }
  }
}
