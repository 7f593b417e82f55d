/**
 What an Update of an executor has to close, and what its result says. Both follow from the
 executor before the Update, the new targets, the environment and the orders in which the maps are
 ranged over.
 */
module UpdateResults {
  import opened Listings
  import opened RuleTargets
  import opened Wrappers

  // ---------- what an Update has to close ----------

  /** The dispatchers of dropped targets, in the order in which they are dropped; None is a missing one. */
  ghost function Dropping(p: Parts, drops: seq<nat>): seq<Option<Dispatcher>>
  {
    seq(|drops|, i requires 0 <= i < |drops| => Find(p.dispatchers, drops[i]))
  }

  /** The dispatchers that are replaced when these targets are served. */
  ghost function Replacing(p: Parts, now: map<nat, Target>, ids: seq<nat>): seq<Option<Dispatcher>>
  {
    if ids == [] then []
    else
      var init, id := ids[..|ids| - 1], ids[|ids| - 1];
      Replacing(p, now, init)
      + if Changed(p.targets, now, id) && id in p.dispatchers then [Some(p.dispatchers[id])] else []
  }

  ghost function Closing(
    p: Parts, now: map<nat, Target>, f: Factories, drops: seq<nat>, serves: seq<nat>): seq<Option<Dispatcher>>
  {
    Dropping(p, drops) + Replacing(p, now, serves[..Stop(p.targets, now, f, serves)])
  }

  /** What is left to close when closing reaches a missing dispatcher. */
  ghost function Lost(closing: seq<Option<Dispatcher>>): seq<Option<Dispatcher>>
  {
    if closing == [] then [] else if closing[0].None? then closing[1..] else Lost(closing[1..])
  }

  ghost predicate Closes(f: Factories, d: Option<Dispatcher>)
  {
    d.Some? ==> f.closes(d.value)
  }

  /** The result of an Update: a crash on a missing dispatcher; otherwise how the closing went if
      anything was to be closed, and only otherwise whether the factories succeeded. */
  ghost function Result(closing: seq<Option<Dispatcher>>, built: bool, f: Factories): Done
  {
    if None in closing then Crashed
    else if closing == [] then (if built then Succeeded else Failed)
    else if forall d :: d in closing ==> Closes(f, d) then Succeeded
    else Failed
  }

  lemma {:induction false} LostNothing(closing: seq<Option<Dispatcher>>)
    requires None !in closing
    ensures Lost(closing) == []
    decreases |closing|
  {
    if closing != [] {
      LostNothing(closing[1..]);
    }
  }

  /** Serving the target puts this dispatcher aside. */
  ghost predicate ReplacedBy(p: Parts, now: map<nat, Target>, id: nat, d: Option<Dispatcher>)
  {
    Changed(p.targets, now, id) && id in p.dispatchers && d == Some(p.dispatchers[id])
  }

  lemma {:induction false} ReplacingHas(p: Parts, now: map<nat, Target>, ids: seq<nat>, d: Option<Dispatcher>)
    ensures d in Replacing(p, now, ids) <==>
      exists i :: 0 <= i < |ids| && ReplacedBy(p, now, ids[i], d)
    decreases |ids|
  {
    if ids != [] {
      var init, n := ids[..|ids| - 1], |ids| - 1;
      ReplacingHas(p, now, init, d);
      if i :| 0 <= i < |init| && ReplacedBy(p, now, init[i], d) {
        assert ids[i] == init[i];
      }
      if i :| 0 <= i < |ids| && ReplacedBy(p, now, ids[i], d) {
        assert i < n ==> ids[i] == init[i];
      }
    }
  }

  lemma ReplacingNothing(p: Parts, now: map<nat, Target>)
    ensures Replacing(p, now, []) == []
  {
  }

  lemma ReplacingStep(p: Parts, now: map<nat, Target>, serves: seq<nat>, i: nat, start: seq<Option<Dispatcher>>)
    requires i < |serves|
    ensures start + Replacing(p, now, serves[..i + 1]) ==
      start + Replacing(p, now, serves[..i])
      + (if Changed(p.targets, now, serves[i]) && serves[i] in p.dispatchers then [Some(p.dispatchers[serves[i]])]
         else [])
  {
    assert serves[..i + 1][..i] == serves[..i];
  }

  lemma StopStep(was: map<nat, Target>, now: map<nat, Target>, f: Factories, serves: seq<nat>, i: nat)
    requires i < |serves| && i <= Stop(was, now, f, serves)
    ensures if Fails(was, now, f, serves[i]) then Stop(was, now, f, serves) == i else i < Stop(was, now, f, serves)
  {
  }

  lemma DroppingHas(p: Parts, drops: seq<nat>, d: Option<Dispatcher>)
    ensures d in Dropping(p, drops) <==> exists i :: 0 <= i < |drops| && d == Find(p.dispatchers, drops[i])
  {
    if i :| 0 <= i < |drops| && d == Find(p.dispatchers, drops[i]) {
      assert Dropping(p, drops)[i] == d;
    }
  }

  /** A target that the new version drops has no dispatcher. */
  ghost predicate DropsMissing(p: Parts, now: map<nat, Target>)
  {
    exists id :: id in p.targets && id !in now && id !in p.dispatchers
  }

  /** In every order, an Update crashes exactly if it drops a target without a dispatcher. */
  lemma CrashesIffMissing(p: Parts, now: map<nat, Target>, f: Factories, drops: seq<nat>, serves: seq<nat>, built: bool)
    requires Lists(drops, p.targets.Keys - now.Keys)
    ensures Result(Closing(p, now, f, drops, serves), built, f) == Crashed <==> DropsMissing(p, now)
  {
    var k := Stop(p.targets, now, f, serves);
    DroppingHas(p, drops, None);
    ReplacingHas(p, now, serves[..k], None);
    assert None in Closing(p, now, f, drops, serves) <==> None in Dropping(p, drops);
    forall i | 0 <= i < |drops|
      ensures drops[i] in p.targets.Keys - now.Keys
    {
      assert drops[i] in drops;
    }
    if id :| id in p.targets && id !in now && id !in p.dispatchers {
      assert id in p.targets.Keys - now.Keys;
      var i :| 0 <= i < |drops| && drops[i] == id;
      assert Find(p.dispatchers, drops[i]) == None;
    }
  }

  // ---------- when the result can be trusted ----------

  /** The result says whether all targets are in place and whole afterwards. */
  ghost predicate Honest(p: Parts, now: map<nat, Target>, f: Factories, drops: seq<nat>, serves: seq<nat>)
  {
    Result(Closing(p, now, f, drops, serves), AllBuild(p.targets, now, f), f) == Succeeded
    <==> EndsWhole(p, now, f, serves)
  }

  ghost predicate HonestInEveryOrder(p: Parts, now: map<nat, Target>, f: Factories)
  {
    forall drops, serves :: Lists(drops, p.targets.Keys - now.Keys) && Lists(serves, now.Keys) ==>
      Honest(p, now, f, drops, serves)
  }

  ghost predicate Dropped(p: Parts, now: map<nat, Target>, id: nat)
  {
    id in p.targets && id !in now
  }

  /** The target has a dispatcher that will be replaced if it is served. */
  ghost predicate Replaceable(p: Parts, now: map<nat, Target>, f: Factories, id: nat)
  {
    Changed(p.targets, now, id) && Buildable(f, now[id]) && id in p.dispatchers
  }

  /** Has a dispatcher to be closed: surely if dropped, and if it is served before anything fails. */
  ghost predicate Closable(p: Parts, now: map<nat, Target>, f: Factories, id: nat)
  {
    Dropped(p, now, id) || Replaceable(p, now, f, id)
  }

  ghost predicate ClosesCleanly(p: Parts, now: map<nat, Target>, f: Factories)
  {
    forall id :: Closable(p, now, f, id) ==> Closes(f, Find(p.dispatchers, id))
  }

  /** The target has changed and can be built. */
  ghost predicate Builds(p: Parts, now: map<nat, Target>, f: Factories, id: nat)
  {
    Changed(p.targets, now, id) && Buildable(f, now[id])
  }

  /** Target x is the only one that fails, and does no harm if it is served last. */
  ghost predicate Harmless(p: Parts, now: map<nat, Target>, f: Factories, x: nat)
  {
    && KeptWhole(p, now) && Fails(p.targets, now, f, x) && AlreadyBuilt(p, now, f, x)
    && forall y :: Fails(p.targets, now, f, y) ==> y == x
  }

  /** An Update that crashes must not leave the targets whole. If everything can be built, the kept
      targets are whole exactly if whatever has to be closed closes cleanly. */
  ghost predicate Trustworthy(p: Parts, now: map<nat, Target>, f: Factories)
  {
    if DropsMissing(p, now) then
      if AllBuild(p.targets, now, f) then !KeptWhole(p, now) else forall x :: !Harmless(p, now, f, x)
    else if AllBuild(p.targets, now, f) then KeptWhole(p, now) <==> ClosesCleanly(p, now, f)
    else if exists x :: Harmless(p, now, f, x) then TrustworthyIfHarmless(p, now, f)
    else TrustworthyIfFailing(p, now, f)
  }

  /** Not everything can be built, and the targets are never whole in the end: something that is
      dropped must not close cleanly; and if nothing is dropped, nothing that can be replaced may. */
  ghost predicate TrustworthyIfFailing(p: Parts, now: map<nat, Target>, f: Factories)
  {
    if exists id :: Dropped(p, now, id) then
      exists id :: Dropped(p, now, id) && !Closes(f, Find(p.dispatchers, id))
    else
      forall id :: Replaceable(p, now, f, id) ==> !Closes(f, Find(p.dispatchers, id))
  }

  /** The one failure does no harm if it comes last, and has to be covered then, and only then, by a
      dispatcher that closes: either no other target has changed and some are dropped, or none is
      dropped and exactly one other has changed, whose dispatcher is replaced. */
  ghost predicate TrustworthyIfHarmless(p: Parts, now: map<nat, Target>, f: Factories)
  {
    && ClosesCleanly(p, now, f)
    && (if exists id :: Dropped(p, now, id) then forall id :: !Builds(p, now, f, id)
        else exists r :: Replaceable(p, now, f, r) && forall id :: Builds(p, now, f, id) ==> id == r)
  }

  lemma ClosingHas(
    p: Parts, now: map<nat, Target>, f: Factories, drops: seq<nat>, serves: seq<nat>, d: Option<Dispatcher>)
    requires Lists(drops, p.targets.Keys - now.Keys) && Lists(serves, now.Keys)
    ensures d in Closing(p, now, f, drops, serves) <==>
      || (exists id :: Dropped(p, now, id) && d == Find(p.dispatchers, id))
      || (exists i :: 0 <= i < Stop(p.targets, now, f, serves)
            && Replaceable(p, now, f, serves[i]) && d == Find(p.dispatchers, serves[i]))
  {
    var k := Stop(p.targets, now, f, serves);
    DroppingHas(p, drops, d);
    ReplacingHas(p, now, serves[..k], d);
    if id :| Dropped(p, now, id) && d == Find(p.dispatchers, id) {
      assert id in p.targets.Keys - now.Keys;
      var i :| 0 <= i < |drops| && drops[i] == id;
    }
    if i :| 0 <= i < |drops| && d == Find(p.dispatchers, drops[i]) {
      assert drops[i] in p.targets.Keys - now.Keys;
      assert Dropped(p, now, drops[i]);
    }
    forall i | 0 <= i < k
      ensures serves[..k][i] == serves[i] && !Fails(p.targets, now, f, serves[i])
    {
    }
  }

  /** Some order has the target at its front. */
  lemma ListingFrom(now: map<nat, Target>, first: seq<nat>) returns (serves: seq<nat>)
    requires NoRepeats(first) && forall id :: id in first ==> id in now
    ensures Lists(serves, now.Keys) && first <= serves
  {
    var rest := Listing(now.Keys - (set id | id in first));
    NoRepeatsConcat(first, rest);
    serves := first + rest;
  }

  /** What closing may and must contain, and what the result then is. */
  lemma ResultByClosing(p: Parts, now: map<nat, Target>, f: Factories, drops: seq<nat>, serves: seq<nat>, built: bool)
    requires Lists(drops, p.targets.Keys - now.Keys) && Lists(serves, now.Keys) && !DropsMissing(p, now)
    ensures
      var k := Stop(p.targets, now, f, serves);
      var closes := (exists id :: Dropped(p, now, id)) || exists i :: 0 <= i < k && Replaceable(p, now, f, serves[i]);
      var clean :=
        && (forall id :: Dropped(p, now, id) ==> Closes(f, Find(p.dispatchers, id)))
        && forall i :: 0 <= i < k && Replaceable(p, now, f, serves[i]) ==> Closes(f, Find(p.dispatchers, serves[i]));
      Result(Closing(p, now, f, drops, serves), built, f) ==
        if (if closes then clean else built) then Succeeded else Failed
  {
    hide Stop, Closing, Dropped, Replaceable, Find, DropsMissing, Lists;
    var closing := Closing(p, now, f, drops, serves);
    CrashesIffMissing(p, now, f, drops, serves, built);
    forall d
      ensures d in closing <==>
        || (exists id :: Dropped(p, now, id) && d == Find(p.dispatchers, id))
        || (exists i :: 0 <= i < Stop(p.targets, now, f, serves)
              && Replaceable(p, now, f, serves[i]) && d == Find(p.dispatchers, serves[i]))
    {
      ClosingHas(p, now, f, drops, serves, d);
    }
    if closing != [] {
      assert closing[0] in closing;
    }
    if id :| Dropped(p, now, id) {
      assert Find(p.dispatchers, id) in closing;
    }
    if i :| 0 <= i < Stop(p.targets, now, f, serves) && Replaceable(p, now, f, serves[i]) {
      assert Find(p.dispatchers, serves[i]) in closing;
    }
  }

  /** Where the one harmless failure is served decides whether the targets are whole in the end. */
  lemma EndsWholeIfHarmless(p: Parts, now: map<nat, Target>, f: Factories, serves: seq<nat>)
    requires Lists(serves, now.Keys) && !AllBuild(p.targets, now, f)
    ensures
      var k := Stop(p.targets, now, f, serves);
      && k < |serves|
      && (EndsWhole(p, now, f, serves) <==>
            Harmless(p, now, f, serves[k]) && forall i :: k < i < |serves| ==> !Builds(p, now, f, serves[i]))
  {
    StopsUnlessAllBuild(p.targets, now, f, serves);
    var k := Stop(p.targets, now, f, serves);
    hide Stop;
    if EndsWhole(p, now, f, serves) {
      assert EndsWholeAt(p, now, f, serves, k);
      forall y | y in now
        ensures Fails(p.targets, now, f, y) ==> y == serves[k]
        ensures !Changed(p.targets, now, y) ==> Whole(p, y)
      {
        var i :| 0 <= i < |serves| && serves[i] == y;
        assert EndsWholeAt(p, now, f, serves, i);
      }
      forall i | k < i < |serves|
        ensures !Builds(p, now, f, serves[i])
      {
        assert EndsWholeAt(p, now, f, serves, i);
      }
    } else {
      var i :| 0 <= i < |serves| && !EndsWholeAt(p, now, f, serves, i);
      ServesAreNow(serves, now, i);
      assert i != k ==> serves[i] != serves[k];
      if i != k && Changed(p.targets, now, serves[i]) {
        assert k < i && (Fails(p.targets, now, f, serves[i]) || Builds(p, now, f, serves[i]));
      }
    }
  }

  /** Some order has the target at its end. */
  lemma ListingTo(now: map<nat, Target>, last: nat) returns (serves: seq<nat>)
    requires last in now
    ensures Lists(serves, now.Keys) && serves != [] && serves[|serves| - 1] == last
  {
    var rest := Listing(now.Keys - {last});
    NoRepeatsConcat(rest, [last]);
    serves := rest + [last];
  }

  lemma HonestIfTrustworthy(p: Parts, now: map<nat, Target>, f: Factories, drops: seq<nat>, serves: seq<nat>)
    requires Lists(drops, p.targets.Keys - now.Keys) && Lists(serves, now.Keys)
    requires Trustworthy(p, now, f)
    ensures Honest(p, now, f, drops, serves)
  {
    CrashesIffMissing(p, now, f, drops, serves, AllBuild(p.targets, now, f));
    StopsUnlessAllBuild(p.targets, now, f, serves);
    if AllBuild(p.targets, now, f) {
      EndsWholeIfAllBuild(p, now, f, serves);
      if !DropsMissing(p, now) {
        ClosedIfAllBuild(p, now, f, drops, serves);
      }
    } else {
      EndsWholeIfHarmless(p, now, f, serves);
      if !DropsMissing(p, now) {
        if x :| Harmless(p, now, f, x) {
          HonestIfHarmless(p, now, f, drops, serves);
        } else {
          ResultByClosing(p, now, f, drops, serves, false);
        }
      }
    }
  }

  lemma ClosedIfAllBuild(p: Parts, now: map<nat, Target>, f: Factories, drops: seq<nat>, serves: seq<nat>)
    requires Lists(drops, p.targets.Keys - now.Keys) && Lists(serves, now.Keys)
    requires AllBuild(p.targets, now, f) && !DropsMissing(p, now)
    ensures Result(Closing(p, now, f, drops, serves), true, f) == Succeeded <==> ClosesCleanly(p, now, f)
  {
    StopsUnlessAllBuild(p.targets, now, f, serves);
    ResultByClosing(p, now, f, drops, serves, true);
    forall id | Replaceable(p, now, f, id)
      ensures exists i :: 0 <= i < |serves| && serves[i] == id
    {
      assert id in now.Keys;
    }
  }

  lemma HonestIfHarmless(p: Parts, now: map<nat, Target>, f: Factories, drops: seq<nat>, serves: seq<nat>)
    requires Lists(drops, p.targets.Keys - now.Keys) && Lists(serves, now.Keys)
    requires !DropsMissing(p, now) && (exists x :: Harmless(p, now, f, x)) && TrustworthyIfHarmless(p, now, f)
    requires !AllBuild(p.targets, now, f)
    ensures Honest(p, now, f, drops, serves)
  {
    EndsWholeIfHarmless(p, now, f, serves);
    ResultByClosing(p, now, f, drops, serves, false);
    var k := Stop(p.targets, now, f, serves);
    hide Stop, EndsWhole;
    assert Harmless(p, now, f, serves[k]);
    assert forall i :: 0 <= i < k && Replaceable(p, now, f, serves[i]) ==> Closable(p, now, f, serves[i]);
    assert forall id :: Dropped(p, now, id) ==> Closable(p, now, f, id);
    if forall id :: !Dropped(p, now, id) {
      var r :| Replaceable(p, now, f, r) && forall id :: Builds(p, now, f, id) ==> id == r;
      assert r in now.Keys;
      var i :| 0 <= i < |serves| && serves[i] == r;
      assert Builds(p, now, f, r) && !Fails(p.targets, now, f, r);
      assert forall j :: 0 <= j < |serves| && j != i ==> serves[j] != r && !Builds(p, now, f, serves[j]);
      assert forall j :: 0 <= j < |serves| && Replaceable(p, now, f, serves[j]) ==> j == i;
      assert EndsWhole(p, now, f, serves) <==> i < k;
    } else {
      assert EndsWhole(p, now, f, serves);
    }
  }

  lemma {:induction false} ReplacingKept(p: Parts, now: map<nat, Target>, ids: seq<nat>)
    requires forall id :: id in ids ==> id in now
    ensures Replacing(Without(p, p.targets.Keys - now.Keys), now, ids) == Replacing(p, now, ids)
    decreases |ids|
  {
    Restricting(p, now);
    if ids != [] {
      ReplacingKept(p, now, ids[..|ids| - 1]);
      assert SameAt(p.dispatchers, Without(p, p.targets.Keys - now.Keys).dispatchers, ids[|ids| - 1]);
    }
  }

  /** No changed target has a dispatcher, and none is dropped: nothing is closed, and the result tells
      whether all factories succeeded. That is the truth exactly if then the kept targets are whole. */
  lemma NothingReplaced(p: Parts, now: map<nat, Target>, f: Factories, serves: seq<nat>)
    requires Lists(serves, now.Keys) && forall id :: Changed(p.targets, now, id) ==> id !in p.dispatchers
    ensures Closing(p, now, f, [], serves) == [] && Lost([]) == []
    ensures Honest(p, now, f, [], serves) <==> (AllBuild(p.targets, now, f) ==> KeptWhole(p, now))
  {
    var ids := serves[..Stop(p.targets, now, f, serves)];
    if Replacing(p, now, ids) != [] {
      ReplacingHas(p, now, ids, Replacing(p, now, ids)[0]);
    }
    if AllBuild(p.targets, now, f) {
      EndsWholeIfAllBuild(p, now, f, serves);
    } else {
      EndsWholeIfHarmless(p, now, f, serves);
    }
  }

  lemma NothingToDo(p: Parts, now: map<nat, Target>, f: Factories, drops: seq<nat>, serves: seq<nat>)
    requires Lists(drops, p.targets.Keys - now.Keys) && Lists(serves, now.Keys)
    ensures p.targets == now ==> drops == [] && Closing(p, now, f, drops, serves) == [] && AllBuild(p.targets, now, f)
    ensures p.targets == now ==> Result(Closing(p, now, f, drops, serves), true, f) == Succeeded
  {
    if p.targets == now {
      assert p.targets.Keys - now.Keys == {};
      ListsNothing(drops, p.targets.Keys - now.Keys);
      NothingReplaced(p, now, f, serves);
    }
  }

  /** Dropping first, and then serving what is left, closes what an Update has to close. */
  lemma ClosingInTwoParts(p: Parts, now: map<nat, Target>, f: Factories, drops: seq<nat>, serves: seq<nat>)
    requires Lists(drops, p.targets.Keys - now.Keys) && Lists(serves, now.Keys)
    ensures
      var kept := Without(p, p.targets.Keys - now.Keys);
      var k := Stop(kept.targets, now, f, serves);
      && kept.targets.Keys <= now.Keys && k == Stop(p.targets, now, f, serves)
      && Closing(p, now, f, drops, serves) == Dropping(p, drops) + Replacing(kept, now, serves[..k])
      && (AllBuild(p.targets, now, f) <==> k == |serves|)
      && (p.targets == now ==> Dropping(p, drops) == [] && kept.targets == now)
  {
    var k := Stop(p.targets, now, f, serves);
    Restricting(p, now);
    StopKept(p, now, f, serves);
    StopsUnlessAllBuild(p.targets, now, f, serves);
    NothingToDo(p, now, f, drops, serves);
    forall id | id in serves[..k]
      ensures id in now
    {
      assert id in serves;
    }
    ReplacingKept(p, now, serves[..k]);
  }

  /** The result, from how the closing went. */
  lemma ResultIs(closing: seq<Option<Dispatcher>>, closed: Option<bool>, built: bool, f: Factories, done: Done)
    requires closed == None <==> None in closing
    requires closed.Some? ==> (closed.value <==> forall d :: d in closing ==> Closes(f, d))
    requires done == if closed.None? then Crashed
                     else if closing != [] then (if closed.value then Succeeded else Failed)
                     else if built then Succeeded else Failed
    ensures done == Result(closing, built, f)
  {
  }

  /** Some order is misleading unless the condition holds. */
  lemma DishonestOrder(p: Parts, now: map<nat, Target>, f: Factories) returns (drops: seq<nat>, serves: seq<nat>)
    requires !Trustworthy(p, now, f)
    ensures Lists(drops, p.targets.Keys - now.Keys) && Lists(serves, now.Keys)
    ensures !Honest(p, now, f, drops, serves)
  {
    drops := Listing(p.targets.Keys - now.Keys);
    if AllBuild(p.targets, now, f) {
      serves := Listing(now.Keys);
      EndsWholeIfAllBuild(p, now, f, serves);
      CrashesIffMissing(p, now, f, drops, serves, true);
      if !DropsMissing(p, now) {
        ClosedIfAllBuild(p, now, f, drops, serves);
      }
    } else if x :| Harmless(p, now, f, x) {
      serves := DishonestIfHarmless(p, now, f, drops, x);
    } else {
      serves := SuccessDespiteFailure(p, now, f, drops);
      EndsWholeIfHarmless(p, now, f, serves);
    }
  }

  /** A failure that does harm is reported as success in some order. */
  lemma SuccessDespiteFailure(p: Parts, now: map<nat, Target>, f: Factories, drops: seq<nat>) returns (serves: seq<nat>)
    requires Lists(drops, p.targets.Keys - now.Keys) && !DropsMissing(p, now)
    requires !AllBuild(p.targets, now, f) && !TrustworthyIfFailing(p, now, f)
    ensures Lists(serves, now.Keys)
    ensures Result(Closing(p, now, f, drops, serves), false, f) == Succeeded
  {
    var bad :| Fails(p.targets, now, f, bad);
    if id :| Dropped(p, now, id) {
      serves := ListingFrom(now, [bad]);
      assert Stop(p.targets, now, f, serves) == 0;
      DropsOnly(p, now, f, drops, serves, id);
    } else {
      var id :| Replaceable(p, now, f, id) && Closes(f, Find(p.dispatchers, id));
      serves := ListingFrom(now, [id, bad]);
      assert serves[0] == id && serves[1] == bad;
      assert Stop(p.targets, now, f, serves) == 1;
      ReplacesOne(p, now, f, drops, serves);
    }
  }

  lemma DishonestIfHarmless(p: Parts, now: map<nat, Target>, f: Factories, drops: seq<nat>, x: nat)
    returns (serves: seq<nat>)
    requires Lists(drops, p.targets.Keys - now.Keys) && Harmless(p, now, f, x)
    requires DropsMissing(p, now) || !TrustworthyIfHarmless(p, now, f)
    ensures Lists(serves, now.Keys) && !Honest(p, now, f, drops, serves)
  {
    if DropsMissing(p, now) || !ClosesCleanly(p, now, f) || (forall id :: !Closable(p, now, f, id)) {
      serves := ListingTo(now, x);
      ServedLast(p, now, f, drops, serves, x);
    } else if id :| Dropped(p, now, id) {
      var other :| Builds(p, now, f, other);
      serves := ListingFrom(now, [x]);
      assert Stop(p.targets, now, f, serves) == 0;
      assert forall d :: Dropped(p, now, d) ==> Closable(p, now, f, d);
      DropsOnly(p, now, f, drops, serves, id);
      EndsWholeIfHarmless(p, now, f, serves);
      assert other in now.Keys;
      var i :| 0 <= i < |serves| && serves[i] == other;
    } else {
      var r :| Closable(p, now, f, r);
      var other :| Builds(p, now, f, other) && other != r;
      serves := ListingFrom(now, [r, x]);
      assert serves[0] == r && serves[1] == x;
      assert Stop(p.targets, now, f, serves) == 1;
      ReplacesOne(p, now, f, drops, serves);
      EndsWholeIfHarmless(p, now, f, serves);
      assert other in now.Keys;
      var i :| 0 <= i < |serves| && serves[i] == other;
    }
  }

  /** The harmless failure comes last: the targets are whole in the end, and the result is not a
      success if something crashes, does not close, or nothing has to be closed. */
  lemma ServedLast(p: Parts, now: map<nat, Target>, f: Factories, drops: seq<nat>, serves: seq<nat>, x: nat)
    requires Lists(drops, p.targets.Keys - now.Keys) && Lists(serves, now.Keys)
    requires Harmless(p, now, f, x) && serves != [] && serves[|serves| - 1] == x
    requires DropsMissing(p, now) || !ClosesCleanly(p, now, f) || forall id :: !Closable(p, now, f, id)
    ensures !Honest(p, now, f, drops, serves)
  {
    EndsWholeIfHarmless(p, now, f, serves);
    var k := Stop(p.targets, now, f, serves);
    hide Stop, EndsWhole;
    assert k == |serves| - 1;
    CrashesIffMissing(p, now, f, drops, serves, false);
    if !DropsMissing(p, now) {
      ResultByClosing(p, now, f, drops, serves, false);
      if !ClosesCleanly(p, now, f) {
        var id :| Closable(p, now, f, id) && !Closes(f, Find(p.dispatchers, id));
        if Replaceable(p, now, f, id) {
          assert id in now.Keys && id != x;
          var i :| 0 <= i < |serves| && serves[i] == id;
        }
      } else {
        assert forall i :: 0 <= i < k ==> !Closable(p, now, f, serves[i]);
        assert forall id :: Dropped(p, now, id) ==> Closable(p, now, f, id);
      }
    }
  }

  /** The failing target comes first: only dropped dispatchers are closed. */
  lemma DropsOnly(p: Parts, now: map<nat, Target>, f: Factories, drops: seq<nat>, serves: seq<nat>, dropped: nat)
    requires Lists(drops, p.targets.Keys - now.Keys) && Lists(serves, now.Keys)
    requires !DropsMissing(p, now) && Stop(p.targets, now, f, serves) == 0
    requires Dropped(p, now, dropped) && forall id :: Dropped(p, now, id) ==> Closes(f, Find(p.dispatchers, id))
    ensures Result(Closing(p, now, f, drops, serves), false, f) == Succeeded
  {
    var closing := Closing(p, now, f, drops, serves);
    CrashesIffMissing(p, now, f, drops, serves, false);
    forall d | d in closing
      ensures Closes(f, d)
    {
      ClosingHas(p, now, f, drops, serves, d);
    }
    ClosingHas(p, now, f, drops, serves, Find(p.dispatchers, dropped));
  }

  /** Nothing is dropped and the failing target comes first: the failure is reported. */
  lemma FailsFirst(p: Parts, now: map<nat, Target>, f: Factories, drops: seq<nat>, serves: seq<nat>)
    requires Lists(drops, p.targets.Keys - now.Keys) && Lists(serves, now.Keys)
    requires (forall id :: !Dropped(p, now, id)) && Stop(p.targets, now, f, serves) == 0
    ensures Result(Closing(p, now, f, drops, serves), false, f) == Failed
  {
    assert p.targets.Keys - now.Keys == {} by {
      assert forall id :: id in p.targets ==> !Dropped(p, now, id);
    }
    ListsNothing(drops, p.targets.Keys - now.Keys);
  }

  /** A target that can be replaced comes first and the failing one second: the failure is not. */
  lemma ReplacesOne(p: Parts, now: map<nat, Target>, f: Factories, drops: seq<nat>, serves: seq<nat>)
    requires Lists(drops, p.targets.Keys - now.Keys) && Lists(serves, now.Keys)
    requires (forall id :: !Dropped(p, now, id)) && Stop(p.targets, now, f, serves) == 1
    requires Replaceable(p, now, f, serves[0]) && Closes(f, Find(p.dispatchers, serves[0]))
    ensures Result(Closing(p, now, f, drops, serves), false, f) == Succeeded
  {
    assert drops == [] by {
      if drops != [] {
        assert drops[0] in p.targets.Keys - now.Keys;
        assert Dropped(p, now, drops[0]);
      }
    }
    assert serves[..1][..0] == [];
    assert Replacing(p, now, serves[..1]) == [Some(p.dispatchers[serves[0]])];
    assert Closing(p, now, f, drops, serves) == [Some(p.dispatchers[serves[0]])];
  }

  /** The result of an Update can be trusted in every order exactly under that condition, which only
      looks at the executor before, the new targets and the environment. */
  lemma HonestIffTrustworthy(p: Parts, now: map<nat, Target>, f: Factories)
    ensures HonestInEveryOrder(p, now, f) <==> Trustworthy(p, now, f)
  {
    if Trustworthy(p, now, f) {
      forall drops, serves | Lists(drops, p.targets.Keys - now.Keys) && Lists(serves, now.Keys)
        ensures Honest(p, now, f, drops, serves)
      {
        HonestIfTrustworthy(p, now, f, drops, serves);
      }
    } else {
      var drops, serves := DishonestOrder(p, now, f);
    }
  }
}
