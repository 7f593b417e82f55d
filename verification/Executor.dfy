/**
 The executor of a rule: Update brings its targets, transformers and dispatchers in line with a
 new version of the rule, and Close takes everything down. Dispatchers hold connections, so each
 one that was ever created has to be closed once, and only after it is out of use.

 Whether a pattern parses, whether a factory succeeds and whether a dispatcher closes cleanly is up
 to the environment. The orders in which Update ranges over its maps are parameters, because its
 result depends on them; what is proved holds for every order.
 */
module Executors {
  import opened Listings
  import opened Maps
  import opened RuleTargets
  import opened UpdateResults
  import opened Wrappers

  // ---------- the books on dispatchers ----------

  ghost predicate InUse(ds: map<nat, Dispatcher>, d: Dispatcher)
  {
    d.target.id in ds && ds[d.target.id] == d
  }

  ghost predicate Created(created: seq<Dispatcher>, d: Dispatcher)
  {
    d.serial < |created| && created[d.serial] == d
  }

  /** Every dispatcher ever created is in use, or waits in `closing`, or was closed once. */
  ghost predicate Accounts(
    ds: map<nat, Dispatcher>, created: seq<Dispatcher>, closes: seq<nat>, closing: seq<Option<Dispatcher>>)
  {
    && |closes| == |created|
    && (forall n :: 0 <= n < |created| ==> created[n].serial == n)
    && (forall id :: id in ds ==> ds[id].target.id == id && Created(created, ds[id]))
    && (forall i :: 0 <= i < |closing| && closing[i].Some? ==>
          Created(created, closing[i].value) && !InUse(ds, closing[i].value))
    && (forall i, j :: 0 <= i < j < |closing| && closing[i].Some? ==> closing[i] != closing[j])
    && (forall n :: 0 <= n < |created| ==>
          closes[n] == if InUse(ds, created[n]) || Some(created[n]) in closing then 0 else 1)
  }

  lemma TakingOut(
    ds: map<nat, Dispatcher>, created: seq<Dispatcher>, closes: seq<nat>, closing: seq<Option<Dispatcher>>, id: nat)
    requires Accounts(ds, created, closes, closing)
    ensures Accounts(ds - {id}, created, closes, closing + [Find(ds, id)])
  {
    if id !in ds {
      assert ds - {id} == ds;
    }
  }

  lemma PuttingIn(
    ds: map<nat, Dispatcher>, created: seq<Dispatcher>, closes: seq<nat>, closing: seq<Option<Dispatcher>>, t: Target)
    requires Accounts(ds, created, closes, closing) && t.id !in ds
    ensures var d := Dispatcher(|created|, t);
            Accounts(ds[t.id := d], created + [d], closes + [0], closing)
  {
  }

  lemma ClosingFirst(
    ds: map<nat, Dispatcher>, created: seq<Dispatcher>, closes: seq<nat>, closing: seq<Option<Dispatcher>>)
    requires Accounts(ds, created, closes, closing) && closing != []
    ensures closing[0].None? ==> Accounts(ds, created, closes, closing[1..])
    ensures closing[0].Some? ==>
      var n := closing[0].value.serial;
      Created(created, closing[0].value) && Accounts(ds, created, closes[n := closes[n] + 1], closing[1..])
  {
    assert closing == [closing[0]] + closing[1..];
  }

  /** Only further dispatchers, not closed yet. */
  ghost predicate OnlyMore(was: seq<nat>, closes: seq<nat>)
  {
    was <= closes && forall n :: |was| <= n < |closes| ==> closes[n] == 0
  }

  lemma NothingClosed(ds: map<nat, Dispatcher>, created: seq<Dispatcher>, closes: seq<nat>)
    requires Accounts(ds, created, closes, [])
    ensures |closes| == |created|
    ensures forall n :: 0 <= n < |created| ==> (closes[n] == 0 <==> InUse(ds, created[n]))
    ensures OnlyMore([], closes) ==> forall n :: 0 <= n < |created| ==> closes[n] == 0
  {
  }

  lemma IdsFit(ds: map<nat, Dispatcher>, created: seq<Dispatcher>, closes: seq<nat>, closing: seq<Option<Dispatcher>>)
    requires Accounts(ds, created, closes, closing)
    ensures forall id :: id in ds ==> ds[id].target.id == id
  {
  }

  /** All dispatchers but those in ds have been moved to the list of those to be closed. */
  ghost predicate TakenOut(ds0: map<nat, Dispatcher>, ds: map<nat, Dispatcher>, closing: seq<Option<Dispatcher>>)
  {
    && (forall id :: id in ds0 ==> ds0[id].target.id == id)
    && (forall id :: id in ds ==> id in ds0 && ds[id] == ds0[id])
    && (forall id :: id in ds0 && id !in ds ==> Some(ds0[id]) in closing)
    && (forall d :: d in closing ==> d.Some? && InUse(ds0, d.value))
  }

  lemma TakenOutStart(ds: map<nat, Dispatcher>)
    requires forall id :: id in ds ==> ds[id].target.id == id
    ensures TakenOut(ds, ds, [])
  {
  }

  lemma TakenOutStep(ds0: map<nat, Dispatcher>, ds: map<nat, Dispatcher>, closing: seq<Option<Dispatcher>>, id: nat)
    requires TakenOut(ds0, ds, closing) && id in ds
    ensures TakenOut(ds0, ds - {id}, closing + [Find(ds, id)])
  {
  }

  lemma TakenOutDone(ds0: map<nat, Dispatcher>, closing: seq<Option<Dispatcher>>, f: Factories)
    requires TakenOut(ds0, map[], closing)
    ensures None !in closing
    ensures (forall d :: d in closing ==> Closes(f, d)) <==> forall id :: id in ds0 ==> f.closes(ds0[id])
  {
    if forall d :: d in closing ==> Closes(f, d) {
      forall id | id in ds0
        ensures f.closes(ds0[id])
      {
        assert Some(ds0[id]) in closing;
      }
    }
  }

  /** What a crash leaves over is out of use and was never closed. */
  lemma LostStayOpen(
    ds: map<nat, Dispatcher>, created: seq<Dispatcher>, closes: seq<nat>, lost: seq<Option<Dispatcher>>, d: Dispatcher)
    requires Accounts(ds, created, closes, lost) && Some(d) in lost
    ensures Created(created, d) && !InUse(ds, d) && closes[d.serial] == 0
  {
    var i :| 0 <= i < |lost| && lost[i] == Some(d);
  }

  lemma AllClosed(created: seq<Dispatcher>, closes: seq<nat>)
    requires Accounts(map[], created, closes, [])
    ensures |closes| == |created| && forall n :: 0 <= n < |created| ==> closes[n] == 1
  {
  }

  lemma AgreedDropsNothingMissing(p: Parts, now: map<nat, Target>)
    requires Agree(p)
    ensures !DropsMissing(p, now)
  {
  }

  lemma LostUnlessCrashed(closing: seq<Option<Dispatcher>>, built: bool, f: Factories)
    requires Result(closing, built, f) != Crashed
    ensures Lost(closing) == []
  {
    LostNothing(closing);
  }

  /** What follows for an Update whose pattern parses. */
  lemma UpdateConcludes(
    p0: Parts, p: Parts, now: map<nat, Target>, f: Factories, drops: seq<nat>, serves: seq<nat>, done: Done)
    requires Lists(drops, p0.targets.Keys - now.Keys) && Lists(serves, now.Keys)
    requires Confined(p0) && Replaced(p0, p, now, f, serves)
    requires done == Result(Closing(p0, now, f, drops, serves), AllBuild(p0.targets, now, f), f)
    ensures Confined(p) && (p.targets == now && Agree(p) <==> EndsWhole(p0, now, f, serves))
    ensures done == Crashed <==> DropsMissing(p0, now)
    ensures done != Crashed ==> Lost(Closing(p0, now, f, drops, serves)) == []
    ensures Agree(p0) ==> (EndsWhole(p0, now, f, serves) <==> AllBuild(p0.targets, now, f)) && done != Crashed
    ensures p0.targets == now ==> done == Succeeded
  {
    hide Stop, EndsWhole, Replaced, Closing, Lost, Result;
    ReplacedAgrees(p0, p, now, f, serves);
    CrashesIffMissing(p0, now, f, drops, serves, AllBuild(p0.targets, now, f));
    NothingToDo(p0, now, f, drops, serves);
    if Agree(p0) {
      EndsWholeFromAgreed(p0, now, f, serves);
      AgreedDropsNothingMissing(p0, now);
    }
    if done != Crashed {
      LostUnlessCrashed(Closing(p0, now, f, drops, serves), AllBuild(p0.targets, now, f), f);
    }
  }

  /** Everything can be built and closed. */
  ghost predicate Works(f: Factories)
  {
    (forall t :: Buildable(f, t)) && forall d :: f.closes(d)
  }

  lemma WorkingSucceeds(closing: seq<Option<Dispatcher>>, f: Factories, done: Done)
    requires Works(f) && done == Result(closing, true, f) && done != Crashed
    ensures done == Succeeded
  {
  }

  lemma InUseIffAny(ds: map<nat, Dispatcher>, created: seq<Dispatcher>, closes: seq<nat>)
    requires Accounts(ds, created, closes, []) && forall n :: 0 <= n < |created| ==> InUse(ds, created[n])
    ensures created != [] <==> ds != map[]
  {
    if created != [] {
      assert InUse(ds, created[0]);
    }
    if id :| id in ds {
      assert Created(created, ds[id]);
    }
  }

  lemma WorkingBuilds(was: map<nat, Target>, now: map<nat, Target>, f: Factories)
    requires Works(f)
    ensures AllBuild(was, now, f)
  {
  }

  lemma NothingDropped(p: Parts, now: map<nat, Target>)
    requires p.targets.Keys <= now.Keys
    ensures !DropsMissing(p, now)
  {
  }

  lemma MissingIsDropped(p: Parts, now: map<nat, Target>, id: nat)
    requires id in p.targets && id !in p.dispatchers && id !in now
    ensures DropsMissing(p, now)
  {
  }

  /** Starting from nothing, some dispatcher is there afterwards exactly if the first target was built. */
  lemma NothingThere(p: Parts, now: map<nat, Target>, f: Factories, serves: seq<nat>)
    requires Lists(serves, now.Keys) && p == Parts(map[], map[], map[])
    ensures Lists([], p.targets.Keys - now.Keys)
    ensures Closing(p, now, f, [], serves) == [] && Lost([]) == []
  {
    NothingReplaced(p, now, f, serves);
  }

  lemma FirstServed(p0: Parts, p: Parts, now: map<nat, Target>, f: Factories, serves: seq<nat>)
    requires Lists(serves, now.Keys) && p0 == Parts(map[], map[], map[]) && Replaced(p0, p, now, f, serves)
    ensures p.dispatchers != map[] <==> 0 < Stop(p0.targets, now, f, serves)
  {
    var k := Stop(p0.targets, now, f, serves);
    if 0 < k {
      assert serves[0] in now.Keys;
      assert Whole(p, serves[0]);
    } else {
      forall id
        ensures id !in p.dispatchers
      {
        if id in now {
          var i :| 0 <= i < |serves| && serves[i] == id;
          assert i > 0 ==> Untouched(p0, p, serves[i]);
        }
      }
    }
  }

  class Executor {
    var pattern: string
    var matcher: Option<string>  // the pattern that the matcher was compiled from
    var targets: map<nat, Target>
    var transformers: map<nat, Target>  // the target that each transformer was built from
    var dispatchers: map<nat, Dispatcher>
    var serial: nat  // number of the next dispatcher
    ghost var created: seq<Dispatcher>
    ghost var closes: seq<nat>  // how often Close was called on each created dispatcher

    ghost predicate Accounted(closing: seq<Option<Dispatcher>>)
      reads `dispatchers, `serial, `created, `closes
    {
      serial == |created| && Accounts(dispatchers, created, closes, closing)
    }

    /** There is a matcher exactly if the pattern is not empty, and it was compiled from it. */
    ghost predicate Matching()
      reads `pattern, `matcher
    {
      matcher == if pattern == "" then None else Some(pattern)
    }

    ghost function Current(): Parts
      reads `targets, `transformers, `dispatchers
    {
      Parts(targets, transformers, dispatchers)
    }

    /** Every dispatcher ever created is in use or was closed once, nothing is kept for targets that
        are not there, and the matcher fits the pattern. */
    ghost predicate Valid()
      reads this
    {
      Accounted([]) && Confined(Current()) && Matching()
    }

    /** Every target is whole, too. */
    ghost predicate Agreed()
      reads this
    {
      Matching() && Agree(Current())
    }

    constructor ()
      ensures Valid() && Agreed() && Current() == Parts(map[], map[], map[]) && pattern == ""
      ensures created == [] && closes == []
    {
      pattern, matcher := "", None;
      targets, transformers, dispatchers := map[], map[], map[];
      serial, created, closes := 0, [], [];
    }

    method CloseDispatcher(d: Dispatcher, f: Factories) returns (clean: bool)
      requires Created(created, d) && |closes| == |created|
      modifies `closes
      ensures closes == old(closes)[d.serial := old(closes)[d.serial] + 1]
      ensures clean == f.closes(d)
    {
      closes := closes[d.serial := closes[d.serial] + 1];
      clean := f.closes(d);
    }

    /** Closes one dispatcher after the other, up to the first missing one, where it panics. */
    method CloseAll(closing: seq<Option<Dispatcher>>, f: Factories) returns (done: Option<bool>)
      requires Accounted(closing)
      modifies `closes
      ensures done == None <==> None in closing
      ensures done.Some? ==> (done.value <==> forall d :: d in closing ==> Closes(f, d))
      ensures Accounted(Lost(closing))
      ensures closing == [] ==> closes == old(closes)
    {
      hide Accounts;
      var clean := true;
      assert closing[0..] == closing;
      for i := 0 to |closing|
        invariant Accounted(closing[i..]) && Lost(closing) == Lost(closing[i..])
        invariant i == 0 ==> closes == old(closes)
        invariant None !in closing[..i]
        invariant clean <==> forall k :: 0 <= k < i ==> Closes(f, closing[k])
      {
        ClosingFirst(dispatchers, created, closes, closing[i..]);
        assert closing[i..][1..] == closing[i + 1..];
        if closing[i].None? {
          return None;
        }
        SameLength();
        var c := CloseDispatcher(closing[i].value, f);
        clean := clean && c;
      }
      assert closing[..|closing|] == closing;
      done := Some(clean);
    }

    lemma SameLength()
      requires exists closing :: Accounted(closing)
      ensures |closes| == |created|
    {
    }

    /** Moves what there is of a dispatcher from the map to the list of those to be closed. */
    method TakeOut(id: nat, closing: seq<Option<Dispatcher>>) returns (all: seq<Option<Dispatcher>>)
      requires Accounted(closing)
      modifies `dispatchers
      ensures Accounted(all) && dispatchers == old(dispatchers) - {id}
      ensures all == closing + [Find(old(dispatchers), id)]
    {
      TakingOut(dispatchers, created, closes, closing, id);
      all := closing + [Find(dispatchers, id)];
      dispatchers := dispatchers - {id};
    }

    /** Every dispatcher ever created is then closed exactly once, and the result is an error exactly
        if one of those in use did not close cleanly. */
    method Close(f: Factories) returns (clean: bool)
      requires Valid()
      modifies this
      ensures Valid() && Agreed() && targets == map[] && created == old(created)
      ensures forall n :: 0 <= n < |created| ==> closes[n] == 1
      ensures clean <==> forall id :: id in old(dispatchers) ==> f.closes(old(dispatchers)[id])
    {
      hide Accounts, TakenOut;
      ghost var ds0 := dispatchers;
      IdsFit(dispatchers, created, closes, []);
      TakenOutStart(ds0);
      pattern, matcher := "", None;
      var closing := [];
      targets, transformers := map[], map[];
      while dispatchers != map[]
        invariant Accounted(closing) && targets == map[] == transformers && Matching()
        invariant created == old(created) && TakenOut(ds0, dispatchers, closing)
        decreases |dispatchers|
      {
        var id :| id in dispatchers;
        SizeAfterRemove(dispatchers, id);
        TakenOutStep(ds0, dispatchers, closing, id);
        closing := TakeOut(id, closing);
      }
      TakenOutDone(ds0, closing, f);
      LostNothing(closing);
      var done := CloseAll(closing, f);
      AllClosed(created, closes);
      clean := done.value;
    }

    /** Takes targets out of use, in the given order. */
    method DropAll(drops: seq<nat>, ghost gone: set<nat>) returns (closing: seq<Option<Dispatcher>>)
      requires Accounted([]) && Lists(drops, gone)
      modifies `targets, `transformers, `dispatchers
      ensures Accounted(closing) && Current() == Without(old(Current()), gone)
      ensures closing == Dropping(old(Current()), drops)
    {
      hide Accounts;
      closing := [];
      WithoutNothing(Current());
      ghost var done: set<nat> := {};
      for i := 0 to |drops|
        invariant done == set id | id in drops[..i]
        invariant Accounted(closing) && Current() == Without(old(Current()), done)
        invariant closing == Dropping(old(Current()), drops[..i])
      {
        transformers := transformers - {drops[i]};
        assert drops[i] !in done;
        closing := TakeOut(drops[i], closing);
        targets := targets - {drops[i]};
        WithoutStep(old(Current()), done, drops[i]);
        done := done + {drops[i]};
        assert drops[..i + 1] == drops[..i] + [drops[i]];
      }
      assert drops[..|drops|] == drops && done == gone;
    }

    /** Builds a transformer and a dispatcher for a new or changed target. The target is recorded
        before either factory is asked. */
    method Serve(
      t: Target, f: Factories, closing: seq<Option<Dispatcher>>) returns (ok: bool, all: seq<Option<Dispatcher>>)
      requires Accounted(closing)
      modifies `targets, `transformers, `dispatchers, `serial, `created, `closes
      ensures Accounted(all)
      ensures targets == old(targets)[t.id := t]
      ensures ok <==> f.transformer(t) && f.dispatcher(t)
      ensures transformers == if f.transformer(t) then old(transformers)[t.id := t] else old(transformers)
      ensures ok ==>
        var d := Dispatcher(|old(created)|, t);
        dispatchers == old(dispatchers)[t.id := d] && created == old(created) + [d]
      ensures ok ==> all == closing + if t.id in old(dispatchers) then [Some(old(dispatchers)[t.id])] else []
      ensures !ok ==> dispatchers == old(dispatchers) && created == old(created) && all == closing
      ensures OnlyMore(old(closes), closes)
    {
      hide Accounts;
      all := closing;
      targets := targets[t.id := t];
      if !f.transformer(t) {
        return false, all;
      }
      transformers := transformers[t.id := t];
      if !f.dispatcher(t) {
        return false, all;
      }
      if t.id in dispatchers {
        all := TakeOut(t.id, closing);
      }
      PuttingIn(dispatchers, created, closes, all, t);
      var d := Dispatcher(serial, t);
      serial, created, closes := serial + 1, created + [d], closes + [0];
      dispatchers := dispatchers[t.id := d];
      ok := true;
    }

    /** The first i targets have been served, starting from p0 with n dispatchers created. */
    ghost predicate ServingUpTo(
      p0: Parts, n: nat, all: map<nat, Target>, f: Factories, serves: seq<nat>, i: nat,
      start: seq<Option<Dispatcher>>, closing: seq<Option<Dispatcher>>)
      requires i <= |serves|
      reads `targets, `transformers, `dispatchers, `serial, `created, `closes
    {
      && Serving(p0, Current(), all, Rest(serves, i), n) && n <= |created|
      && Accounted(closing) && i <= Stop(p0.targets, all, f, serves)
      && closing == start + Replacing(p0, all, serves[..i])
    }

    /** Serves the i-th target, if it is new or changed. */
    method ServeNext(
      all: map<nat, Target>, f: Factories, serves: seq<nat>, i: nat, closing: seq<Option<Dispatcher>>,
      ghost p0: Parts, ghost n: nat, ghost start: seq<Option<Dispatcher>>)
      returns (ok: bool, more: seq<Option<Dispatcher>>)
      requires i < |serves| && Lists(serves, all.Keys) && forall id :: id in all ==> all[id].id == id
      requires ServingUpTo(p0, n, all, f, serves, i, start, closing)
      modifies `targets, `transformers, `dispatchers, `serial, `created, `closes
      ensures old(created) <= created && OnlyMore(old(closes), closes)
      ensures ok ==> ServingUpTo(p0, n, all, f, serves, i + 1, start, more)
      ensures !ok ==> i == Stop(p0.targets, all, f, serves) && Served(p0, Current(), all, f, serves, n)
      ensures !ok ==> Accounted(more) && more == start + Replacing(p0, all, serves[..i])
      ensures !Changed(p0.targets, all, serves[i]) ==>
        created == old(created) && closes == old(closes) && more == closing
    {
      assert NoRepeats(serves) && serves[i] in all;
      hide Accounts, Serving, Served, Stop, Rest, Lists, NoRepeats, Replacing;
      var id := serves[i];
      RestStep(serves, i);
      ServingStep(p0, Current(), all, Rest(serves, i), n, id, Dispatcher(serial, all[id]));
      ReplacingStep(p0, all, serves, i, start);
      StopStep(p0.targets, all, f, serves, i);
      ok, more := true, closing;
      if id !in targets || targets[id] != all[id] {
        ghost var before := Current();
        ok, more := Serve(all[id], f, closing);
        if !ok {
          ServingFails(p0, before, all, f, serves, n, i);
        }
      }
    }

    /** Serves the new and changed targets in the given order, until a factory fails. */
    method ServeAll(all: map<nat, Target>, f: Factories, serves: seq<nat>, start: seq<Option<Dispatcher>>)
      returns (ok: bool, closing: seq<Option<Dispatcher>>)
      requires Accounted(start) && targets.Keys <= all.Keys && Lists(serves, all.Keys)
      requires forall id :: id in all ==> all[id].id == id
      modifies `targets, `transformers, `dispatchers, `serial, `created, `closes
      ensures Accounted(closing) && old(created) <= created && OnlyMore(old(closes), closes)
      ensures Served(old(Current()), Current(), all, f, serves, |old(created)|)
      ensures ok <==> Stop(old(targets), all, f, serves) == |serves|
      ensures closing == start + Replacing(old(Current()), all, serves[..Stop(old(targets), all, f, serves)])
      ensures all == old(targets) ==> created == old(created) && closes == old(closes) && closing == start
    {
      hide Accounts, Served, Stop, Replacing, Lists, ServingUpTo;
      closing := start;
      ServingUpToStart(all, f, serves, start);
      for i := 0 to |serves|
        invariant ServingUpTo(old(Current()), |old(created)|, all, f, serves, i, start, closing)
        invariant old(created) <= created && OnlyMore(old(closes), closes)
        invariant all == old(targets) ==> created == old(created) && closes == old(closes) && closing == start
      {
        ok, closing := ServeNext(all, f, serves, i, closing, old(Current()), |old(created)|, start);
        if !ok {
          return false, closing;
        }
      }
      ServingUpToEnd(old(Current()), |old(created)|, all, f, serves, start, closing);
      ok := true;
    }

    lemma ServingUpToStart(all: map<nat, Target>, f: Factories, serves: seq<nat>, start: seq<Option<Dispatcher>>)
      requires Accounted(start) && targets.Keys <= all.Keys && Lists(serves, all.Keys)
      ensures ServingUpTo(Current(), |created|, all, f, serves, 0, start, start)
    {
      assert Rest(serves, 0) == all.Keys && serves[..0] == [];
      hide Accounts, Serving, Stop;
      ServingStart(Current(), all, |created|);
      ReplacingNothing(Current(), all);
    }

    lemma ServingUpToEnd(
      p0: Parts, n: nat, all: map<nat, Target>, f: Factories, serves: seq<nat>,
      start: seq<Option<Dispatcher>>, closing: seq<Option<Dispatcher>>)
      requires ServingUpTo(p0, n, all, f, serves, |serves|, start, closing) && Lists(serves, all.Keys)
      ensures Stop(p0.targets, all, f, serves) == |serves|
      ensures Served(p0, Current(), all, f, serves, n) && Accounted(closing)
      ensures closing == start + Replacing(p0, all, serves[..|serves|])
    {
      assert Rest(serves, |serves|) == {};
      hide Accounts, Serving, Served, Replacing;
      ServingSucceeds(p0, Current(), all, f, serves, n);
    }

    ghost predicate CanParse(r: Rule, f: Factories)
      reads `pattern
    {
      pattern == r.pattern || Parses(f, r.pattern)
    }

    /** The new version of the rule parses, and every factory that has to be called succeeds. */
    ghost predicate CanApply(r: Rule, f: Factories)
      reads `targets, `pattern
    {
      CanParse(r, f) && AllBuild(targets, LastWins(r.targets), f)
    }

    /** The executor is what the rule says. */
    ghost predicate Applied(r: Rule)
      reads this
    {
      pattern == r.pattern && targets == LastWins(r.targets) && Agreed()
    }

    /** Makes `now` the targets: drops the others, serves the changed ones, closes what fell out of use. */
    method Replace(now: map<nat, Target>, f: Factories, drops: seq<nat>, serves: seq<nat>) returns (done: Done)
      requires Accounted([]) && forall id :: id in now ==> now[id].id == id
      requires Lists(drops, targets.Keys - now.Keys) && Lists(serves, now.Keys)
      modifies `targets, `transformers, `dispatchers, `serial, `created, `closes
      ensures old(created) <= created
      ensures
        var closing := Closing(old(Current()), now, f, drops, serves);
        && done == Result(closing, AllBuild(old(targets), now, f), f) && Accounted(Lost(closing))
        && (closing == [] ==> OnlyMore(old(closes), closes))
      ensures Replaced(old(Current()), Current(), now, f, serves)
      ensures old(targets) == now ==> created == old(created) && closes == old(closes)
    {
      hide Accounts, Served, Replaced, Stop, AllBuild, Replacing, Lost, OnlyMore, Confined, Matching, Lists;
      hide Closing, Dropping, Result, Closes;
      ghost var p0, n := Current(), |created|;
      ClosingInTwoParts(p0, now, f, drops, serves);
      var dropped := DropAll(drops, targets.Keys - now.Keys);
      var ok, closing := ServeAll(now, f, serves, dropped);
      ServedThenReplaced(p0, Current(), now, f, serves, n);
      ghost var after := Current();
      var closed := CloseAll(closing, f);
      assert Current() == after;
      done := if closed.None? then Crashed
              else if closing != [] then (if closed.value then Succeeded else Failed)
              else if ok then Succeeded else Failed;
      ResultIs(closing, closed, ok, f, done);
    }

    /** Compiles the pattern unless it is the one that is there. */
    method SetPattern(p: string, f: Factories) returns (ok: bool)
      requires Matching()
      modifies `pattern, `matcher
      ensures Matching() && (ok <==> old(pattern) == p || Parses(f, p))
      ensures pattern == if ok then p else old(pattern)
    {
      if pattern != p {
        if !Parses(f, p) {
          return false;
        }
        matcher := Some(p);
        pattern := p;
      }
      ok := true;
    }

    /** The executor becomes what the rule says exactly if the pattern parses and all targets end
        whole. Unchanged targets keep their transformer and dispatcher. Every dispatcher that falls
        out of use is closed once, unless a missing one stops the closing: that is exactly when an old
        target without a dispatcher is dropped, and the dispatchers after it are then lost. The result
        follows from the state before, the environment and the orders. */
    method Update(r: Rule, f: Factories, drops: seq<nat>, serves: seq<nat>) returns (done: Done)
      requires Valid()
      requires Lists(drops, targets.Keys - LastWins(r.targets).Keys) && Lists(serves, LastWins(r.targets).Keys)
      modifies this
      ensures old(created) <= created && (done != Crashed ==> Valid())
      ensures done == Crashed <==> old(CanParse(r, f)) && DropsMissing(old(Current()), LastWins(r.targets))
      ensures Applied(r) <==> old(CanParse(r, f)) && EndsWhole(old(Current()), LastWins(r.targets), f, serves)
      ensures old(Agreed()) ==> (Applied(r) <==> old(CanApply(r, f))) && done != Crashed
      ensures old(CanParse(r, f)) ==>
        var closing := Closing(old(Current()), LastWins(r.targets), f, drops, serves);
        && done == Result(closing, old(CanApply(r, f)), f) && Accounted(Lost(closing))
        && (closing == [] ==> OnlyMore(old(closes), closes))
        && pattern == r.pattern && Replaced(old(Current()), Current(), LastWins(r.targets), f, serves)
      ensures !old(CanParse(r, f)) ==>
        && done == Failed && pattern == old(pattern) && Current() == old(Current())
        && created == old(created) && closes == old(closes)
      ensures old(pattern) != r.pattern && (r.pattern == "" || !f.parses(r.pattern)) ==>
        done == Failed && pattern == old(pattern) && Current() == old(Current()) && created == old(created)
      ensures old(pattern) == r.pattern || (r.pattern != "" && f.parses(r.pattern)) ==> pattern == r.pattern
      ensures Confined(Current()) && Matching()
      ensures old(CanParse(r, f)) && old(targets) == LastWins(r.targets) ==>
        done == Succeeded && created == old(created) && closes == old(closes)
    {
      hide Accounts, Stop, Lists, OnlyMore, EndsWhole, AllBuild, Replaced, Result, Closing, Lost;
      hide DropsMissing, Confined, LastWins, Agree;
      ghost var p0, now := Current(), LastWins(r.targets);
      var ok := SetPattern(r.pattern, f);
      if !ok {
        return Failed;
      }
      done := Replace(LastWins(r.targets), f, drops, serves);
      UpdateConcludes(p0, Current(), now, f, drops, serves, done);
    }

    /** A new executor, which has nothing to close: its first Update tells the truth. If it fails the
        executor is thrown away with the dispatchers it has built still open, and it has built some
        exactly if the pattern parses and the first target does not fail. */
    static method NewExecutor(r: Rule, f: Factories, serves: seq<nat>) returns (e: Executor, done: Done)
      requires Lists(serves, LastWins(r.targets).Keys)
      ensures fresh(e) && e.Valid() && done != Crashed
      ensures done == Succeeded <==> e.Applied(r)
      ensures forall n :: 0 <= n < |e.created| ==> e.closes[n] == 0 && InUse(e.dispatchers, e.created[n])
      ensures e.created != [] <==>
        (r.pattern == "" || Parses(f, r.pattern)) && 0 < Stop(map[], LastWins(r.targets), f, serves)
    {
      hide Accounts, Stop, Lists, EndsWhole, AllBuild, Replaced, Closing, DropsMissing, Confined, LastWins;
      hide InUse, Agree, Honest;
      e := new Executor();
      ghost var p0 := e.Current();
      NothingThere(p0, LastWins(r.targets), f, serves);
      done := e.Update(r, f, [], serves);
      NothingClosed(e.dispatchers, e.created, e.closes);
      if r.pattern == "" || Parses(f, r.pattern) {
        FirstServed(p0, e.Current(), LastWins(r.targets), f, serves);
        InUseIffAny(e.dispatchers, e.created, e.closes);
      }
    }

    /** A failed factory is not repaired by trying again, however often: the target is recorded as up
        to date, so Update passes over it whatever the factories now do, and reports success once
        everything works. The same goes for a target that was not whole to begin with. */
    method RetriesDoNotRepair(r: Rule, f: Factories, retries: seq<Factories>, drops: seq<nat>, serves: seq<nat>)
      returns (done: Done)
      requires Valid() && CanParse(r, f) && !DropsMissing(Current(), LastWins(r.targets))
      requires Lists(drops, targets.Keys - LastWins(r.targets).Keys) && Lists(serves, LastWins(r.targets).Keys)
      requires var now, k := LastWins(r.targets), Stop(targets, LastWins(r.targets), f, serves);
               !KeptWhole(Current(), now) || (k < |serves| && !AlreadyBuilt(Current(), now, f, serves[k]))
      modifies this
      ensures Valid() && !Applied(r)
      ensures retries != [] && Works(retries[|retries| - 1]) ==> done == Succeeded
    {
      ghost var p0, now, k := Current(), LastWins(r.targets), Stop(targets, LastWins(r.targets), f, serves);
      ghost var id;
      if !KeptWhole(p0, now) {
        id :| id in now && !Changed(targets, now, id) && !Whole(p0, id);
      } else {
        id := serves[k];
      }
      hide Accounts, Stop, Lists, OnlyMore, EndsWhole, Replaced, Result, Closing, Lost, DropsMissing, Confined;
      hide Whole, KeptWhole, AlreadyBuilt;
      done := Update(r, f, drops, serves);
      ReplacedAgrees(p0, Current(), now, f, serves);
      if id in now && !Changed(p0.targets, now, id) {
        KeptStays(p0, Current(), now, f, serves, id);
      } else {
        FailingIsRecorded(p0, Current(), now, f, serves);
      }
      for i := 0 to |retries|
        invariant Valid() && pattern == r.pattern && targets.Keys <= now.Keys
        invariant id in now && id in targets && targets[id] == now[id] && !Whole(Current(), id)
        invariant i > 0 && Works(retries[i - 1]) ==> done == Succeeded
      {
        done := RetryOnce(r, retries[i], serves, id);
      }
      AgreeIsWhole(Current());
    }

    /** One more try leaves a target that is recorded and not whole as it is. */
    method RetryOnce(r: Rule, g: Factories, serves: seq<nat>, ghost id: nat) returns (done: Done)
      requires Valid() && pattern == r.pattern && targets.Keys <= LastWins(r.targets).Keys
      requires Lists(serves, LastWins(r.targets).Keys)
      requires id in LastWins(r.targets) && id in targets && targets[id] == LastWins(r.targets)[id]
      modifies this
      ensures Valid() && pattern == r.pattern && targets.Keys <= LastWins(r.targets).Keys
      ensures id in targets && targets[id] == LastWins(r.targets)[id]
      ensures Whole(Current(), id) <==> Whole(old(Current()), id)
      ensures Works(g) ==> done == Succeeded
    {
      ghost var p0, now := Current(), LastWins(r.targets);
      assert targets.Keys - now.Keys == {};
      NothingDropped(p0, now);
      hide Accounts, Stop, OnlyMore, EndsWhole, Replaced, Result, Closing, Lost, DropsMissing, Confined, Whole;
      done := Update(r, g, [], serves);
      ReplacedAgrees(p0, Current(), now, g, serves);
      KeptStays(p0, Current(), now, g, serves, id);
      if Works(g) {
        WorkingBuilds(p0.targets, now, g);
        WorkingSucceeds(Closing(p0, now, g, [], serves), g, done);
      }
    }

    /** A new target whose factory fails brings down the update that later drops it, in every order
        and whatever the environment does then. */
    method FailedTargetCrashesLater(r: Rule, f: Factories, q: Rule, g: Factories, drops: seq<nat>, serves: seq<nat>)
      returns (done: Done)
      requires Valid() && CanParse(r, f) && !CanApply(r, f) && !DropsMissing(Current(), LastWins(r.targets))
      requires Lists(drops, targets.Keys - LastWins(r.targets).Keys) && Lists(serves, LastWins(r.targets).Keys)
      requires var k := Stop(targets, LastWins(r.targets), f, serves);
               k < |serves| && serves[k] !in targets && serves[k] !in LastWins(q.targets)
      requires q.pattern == r.pattern || Parses(g, q.pattern)
      modifies this
      ensures done == Crashed
    {
      ghost var p0, id := Current(), serves[Stop(targets, LastWins(r.targets), f, serves)];
      assert id !in p0.dispatchers;
      hide Accounts, Stop, Lists, OnlyMore, EndsWhole, Replaced, Result, Closing, Lost, DropsMissing, Confined;
      hide AlreadyBuilt, Whole, AllBuild;
      done := Update(r, f, drops, serves);
      FailingIsRecorded(p0, Current(), LastWins(r.targets), f, serves);
      MissingIsDropped(Current(), LastWins(q.targets), id);
      var drops2 := ListAll(targets.Keys - LastWins(q.targets).Keys);
      var serves2 := ListAll(LastWins(q.targets).Keys);
      done := Update(q, g, drops2, serves2);
    }

    /** A failed factory is reported as success as soon as the update drops a target, if closing works
        and nothing is missing. */
    method FailureLooksLikeSuccess(r: Rule, f: Factories, drops: seq<nat>, serves: seq<nat>) returns (done: Done)
      requires Valid() && CanParse(r, f) && !CanApply(r, f) && !DropsMissing(Current(), LastWins(r.targets))
      requires Lists(drops, targets.Keys - LastWins(r.targets).Keys) && Lists(serves, LastWins(r.targets).Keys)
      requires drops != [] && forall d :: f.closes(d)
      modifies this
      ensures done == Succeeded
      ensures Applied(r) <==> EndsWhole(old(Current()), LastWins(r.targets), f, serves)
      ensures old(Agreed()) ==> !Applied(r)
    {
      done := Update(r, f, drops, serves);
    }

    /** Under the condition the result says whether the executor became what the rule says. */
    method UpdateTellsTruth(r: Rule, f: Factories, drops: seq<nat>, serves: seq<nat>) returns (done: Done)
      requires Valid() && (CanParse(r, f) ==> Trustworthy(Current(), LastWins(r.targets), f))
      requires Lists(drops, targets.Keys - LastWins(r.targets).Keys) && Lists(serves, LastWins(r.targets).Keys)
      modifies this
      ensures done == Succeeded <==> Applied(r)
    {
      if CanParse(r, f) {
        HonestIfTrustworthy(Current(), LastWins(r.targets), f, drops, serves);
      }
      done := Update(r, f, drops, serves);
    }
  }
}
