/**
 How the job delivers an event: every rule of the bus matches it, transforms it for each of its
 targets and dispatches the results; what cannot be dispatched goes to a retry topic. The consumer
 acknowledges the message only if all of that went well, and otherwise asks for redelivery later.

 Rules and targets are worked on by parallel tasks. Tasks run here in any order, and once one has
 failed the context of the others is cancelled: they may be given up, and a dispatcher that would
 accept the event may refuse it, so that it goes to the retry topic.
 */
module Delivery {
  import opened RuleTargets
  import opened Wrappers

  datatype EventExt = EventExt(
    id: nat, data: string, busName: string, ruleName: string, targetId: nat, retry: Retry)

  datatype Matching = NoMatcher | MatchFails | Answer(matches: bool)

  datatype Transformer = Transformer(transform: string -> Option<string>, retry: Retry)

  datatype Dispatching = Accepts | Refuses

  /** What the executor of a rule answers for one event. */
  datatype Exec = Exec(matching: Matching, transformers: map<nat, Transformer>, dispatchers: map<nat, Dispatching>)

  /** What leaves the job: an event dispatched to its target, or put into a retry topic. */
  datatype Effect = Dispatched(evt: EventExt) | Queued(evt: EventExt, backoff: bool)

  /** Whether the retry topic takes an event. */
  type Topics = EventExt -> bool

  // ---------- what is to be delivered ----------

  /** The event for one target. The target's retry strategy, if it has one, overrides the event's. */
  function TargetEvent(evt: EventExt, rule: string, id: nat, t: Transformer): Option<EventExt>
  {
    var data := t.transform(evt.data);
    if data.None? then None
    else
      Some(evt.(data := data.value, ruleName := rule, targetId := id,
                retry := if t.retry.Unspecified? then evt.retry else t.retry))
  }

  /** What has to happen to a target event; nothing if there is no dispatcher for its target. */
  function HandOff(x: Exec, evt: EventExt): Option<Effect>
  {
    if evt.targetId !in x.dispatchers then None
    else if x.dispatchers[evt.targetId].Accepts? then Some(Dispatched(evt))
    else Some(Queued(evt, evt.retry.Backoff?))
  }

  ghost predicate Possible(h: Option<Effect>, takes: Topics)
  {
    h.Some? && h.value.Queued? ==> takes(h.value.evt)
  }

  /** The rule wants the event for this target. */
  ghost predicate Wanted(x: Exec, id: nat)
  {
    x.matching == Answer(true) && id in x.transformers
  }

  /** Target id of the rule gets effect e. */
  ghost predicate Owes(evt: EventExt, rule: string, x: Exec, id: nat, e: Effect)
  {
    && Wanted(x, id)
    && var t := TargetEvent(evt, rule, id, x.transformers[id]);
       t.Some? && HandOff(x, t.value) == Some(e)
  }

  /** What target id of the rule may get in any case: what it is owed, or the same event by way of the
      retry topic, because a cancelled dispatch has failed. */
  ghost predicate MayGet(evt: EventExt, rule: string, x: Exec, id: nat, e: Effect)
  {
    && Wanted(x, id)
    && var t := TargetEvent(evt, rule, id, x.transformers[id]);
       t.Some? && (HandOff(x, t.value) == Some(e) || Diverted(x, t.value, e))
  }

  /** A dispatcher that accepts the event was cut off. */
  ghost predicate Diverted(x: Exec, evt: EventExt, e: Effect)
  {
    HandOff(x, evt) == Some(Dispatched(evt)) && e == Queued(evt, evt.retry.Backoff?)
  }

  /** What a target gets is the event with the data transformed for it, addressed to it, and with its own
      retry strategy if it has one. Only events that go to a dispatcher are dispatched, and only those it
      does not take are queued, in the topic of their strategy. */
  ghost predicate Fitting(evt: EventExt, rule: string, x: Exec, e: Effect)
  {
    && e.evt.targetId in x.transformers && e.evt.targetId in x.dispatchers
    && var t := x.transformers[e.evt.targetId];
    && t.transform(evt.data) == Some(e.evt.data)
    && e.evt.id == evt.id && e.evt.busName == evt.busName && e.evt.ruleName == rule
    && e.evt.retry == (if t.retry == Unspecified then evt.retry else t.retry)
    && (e.Dispatched? ==> x.dispatchers[e.evt.targetId] == Accepts)
    && (e.Queued? ==> e.backoff == (e.evt.retry == Backoff))
  }

  lemma GotIsFitting(evt: EventExt, rule: string, x: Exec, id: nat, e: Effect)
    requires MayGet(evt, rule, x, id, e)
    ensures e.evt.targetId == id && Fitting(evt, rule, x, e)
    ensures Owes(evt, rule, x, id, e) ==> (e.Queued? <==> x.dispatchers[id] == Refuses)
  {
  }

  function TargetOf(e: Effect): (string, nat)
  {
    (e.evt.ruleName, e.evt.targetId)
  }

  /** No target of any rule gets anything twice, be it dispatched or by way of a retry topic. */
  ghost predicate OncePerTarget(log: seq<Effect>)
  {
    forall i, j :: 0 <= i < j < |log| ==> TargetOf(log[i]) != TargetOf(log[j])
  }

  lemma OnceConcat(a: seq<Effect>, b: seq<Effect>)
    requires OncePerTarget(a) && OncePerTarget(b)
    requires forall d, e :: d in a && e in b ==> TargetOf(d) != TargetOf(e)
    ensures OncePerTarget(a + b)
  {
    forall i, j | 0 <= i < j < |a + b|
      ensures TargetOf((a + b)[i]) != TargetOf((a + b)[j])
    {
      if i < |a| <= j {
        assert a[i] in a && b[j - |a|] in b;
      }
    }
  }

  /** The target can be served: it transforms, and is dispatched, queued or has no dispatcher. */
  ghost predicate TargetServable(evt: EventExt, rule: string, x: Exec, id: nat, takes: Topics)
  {
    Wanted(x, id) ==>
      var t := TargetEvent(evt, rule, id, x.transformers[id]);
      t.Some? && Possible(HandOff(x, t.value), takes)
  }

  ghost predicate RuleServable(evt: EventExt, rule: string, x: Exec, takes: Topics)
  {
    !x.matching.MatchFails? && forall id :: id in x.transformers ==> TargetServable(evt, rule, x, id, takes)
  }

  /** A rule can be served if its matching works and, if it matches, every transformation does, and the
      topic takes the event of every target whose dispatcher refuses it. */
  lemma ServableMeans(evt: EventExt, rule: string, x: Exec, takes: Topics)
    ensures RuleServable(evt, rule, x, takes) <==>
      && x.matching != MatchFails
      && (x.matching == Answer(true) ==> forall id :: id in x.transformers ==>
            var t := x.transformers[id];
            var data := t.transform(evt.data);
            && data.Some?
            && (id in x.dispatchers && x.dispatchers[id] == Refuses ==>
                  takes(EventExt(evt.id, data.value, evt.busName, rule, id,
                                 if t.retry == Unspecified then evt.retry else t.retry))))
  {
    forall id | x.matching == Answer(true) && id in x.transformers
      ensures
        var t := x.transformers[id];
        var data := t.transform(evt.data);
        TargetServable(evt, rule, x, id, takes) <==>
          && data.Some?
          && (id in x.dispatchers && x.dispatchers[id] == Refuses ==>
                takes(EventExt(evt.id, data.value, evt.busName, rule, id,
                               if t.retry == Unspecified then evt.retry else t.retry)))
    {
    }
  }

  // ---------- delivering it ----------

  /** `cancelled` says whether another task has failed, so that anything may fail here. */
  method DispatchTarget(x: Exec, evt: EventExt, takes: Topics, cancelled: bool) returns (ok: bool, log: seq<Effect>)
    ensures !cancelled ==> (ok <==> Possible(HandOff(x, evt), takes))
    ensures forall e :: e in log ==> HandOff(x, evt) == Some(e) || (cancelled && Diverted(x, evt, e))
    ensures !cancelled && ok ==> forall e :: HandOff(x, evt) == Some(e) ==> e in log
    ensures |log| <= 1 && forall e :: e in log && e.Queued? ==> takes(e.evt)
  {
    if evt.targetId !in x.dispatchers {
      return true, [];
    }
    var cutOff: bool, unsent: bool := *, *;
    if x.dispatchers[evt.targetId].Accepts? && !(cancelled && cutOff) {
      return true, [Dispatched(evt)];
    }
    if !takes(evt) || (cancelled && unsent) {
      return false, [];
    }
    return true, [Queued(evt, evt.retry == Backoff)];
  }

  /** All target events, or nothing if a transformation fails. */
  method Transform(evt: EventExt, rule: string, x: Exec) returns (events: Option<map<nat, EventExt>>)
    ensures events.Some? <==> forall id :: id in x.transformers ==> x.transformers[id].transform(evt.data).Some?
    ensures events.Some? ==> events.value.Keys == x.transformers.Keys
    ensures events.Some? ==> forall id :: id in x.transformers ==>
      var (e, t) := (events.value[id], x.transformers[id]);
      && Some(e.data) == t.transform(evt.data) && e.id == evt.id && e.busName == evt.busName
      && e.ruleName == rule && e.targetId == id && e.retry == if t.retry == Unspecified then evt.retry else t.retry
    ensures events.Some? ==> forall id :: id in x.transformers ==>
      TargetEvent(evt, rule, id, x.transformers[id]) == Some(events.value[id])
  {
    var made := map[];
    var todo := x.transformers.Keys;
    while todo != {}
      invariant todo <= x.transformers.Keys && made.Keys == x.transformers.Keys - todo
      invariant forall id :: id in made ==> TargetEvent(evt, rule, id, x.transformers[id]) == Some(made[id])
      decreases todo
    {
      var id :| id in todo;
      todo := todo - {id};
      var t := TargetEvent(evt, rule, id, x.transformers[id]);
      if t.None? {
        return None;
      }
      made := made[id := t.value];
    }
    events := Some(made);
  }

  /** One target: unless something else has failed, it succeeds exactly if the target can be served, and
      then the target has got what it is owed. */
  method ServeTarget(evt: EventExt, rule: string, x: Exec, id: nat, t: EventExt, takes: Topics, cancelled: bool)
    returns (ok: bool, log: seq<Effect>)
    requires Wanted(x, id) && TargetEvent(evt, rule, id, x.transformers[id]) == Some(t)
    ensures !cancelled ==> (ok <==> TargetServable(evt, rule, x, id, takes))
    ensures OncePerTarget(log) && forall e :: e in log ==>
      && MayGet(evt, rule, x, id, e) && e.evt.targetId == id
      && Fitting(evt, rule, x, e) && (e.Queued? ==> takes(e.evt))
    ensures !cancelled && ok ==> forall e :: e in log <==> Owes(evt, rule, x, id, e)
  {
    ok, log := DispatchTarget(x, t, takes, cancelled);
    forall e | e in log
      ensures MayGet(evt, rule, x, id, e) && e.evt.targetId == id && Fitting(evt, rule, x, e)
    {
      GotIsFitting(evt, rule, x, id, e);
    }
  }

  /** All targets of a rule that matches, in any order. */
  method ServeTargets(
    evt: EventExt, rule: string, x: Exec, events: map<nat, EventExt>, takes: Topics, cancelled: bool)
    returns (ok: bool, log: seq<Effect>)
    requires x.matching == Answer(true) && events.Keys == x.transformers.Keys
    requires forall id :: id in x.transformers ==> TargetEvent(evt, rule, id, x.transformers[id]) == Some(events[id])
    ensures !cancelled ==> (ok <==> forall id :: id in x.transformers ==> TargetServable(evt, rule, x, id, takes))
    ensures forall e :: e in log ==>
      MayGet(evt, rule, x, e.evt.targetId, e) && Fitting(evt, rule, x, e) && (e.Queued? ==> takes(e.evt))
    ensures OncePerTarget(log)
    ensures !cancelled && ok ==>
      forall id, e :: id in x.transformers && Owes(evt, rule, x, id, e) ==> e in log
    ensures !cancelled && ok ==> forall e :: e in log ==> Owes(evt, rule, x, e.evt.targetId, e)
  {
    hide Owes, MayGet, TargetServable, Fitting, TargetEvent, OncePerTarget;
    ok, log := true, [];
    NothingSent();
    var todo := events.Keys;
    while todo != {}
      invariant todo <= x.transformers.Keys
      invariant forall e :: e in log ==>
        MayGet(evt, rule, x, e.evt.targetId, e) && Fitting(evt, rule, x, e) && (e.Queued? ==> takes(e.evt))
      invariant OncePerTarget(log) && forall e :: e in log ==> e.evt.targetId !in todo
      invariant !cancelled && ok ==> forall e :: e in log ==> Owes(evt, rule, x, e.evt.targetId, e)
      invariant !cancelled && ok ==>
        forall id, e :: id in x.transformers && id !in todo && Owes(evt, rule, x, id, e) ==> e in log
      invariant !cancelled && ok ==>
        forall id :: id in x.transformers && id !in todo ==> TargetServable(evt, rule, x, id, takes)
      invariant !cancelled && !ok ==> exists id :: id in x.transformers && !TargetServable(evt, rule, x, id, takes)
      decreases todo
    {
      var id :| id in todo;
      todo := todo - {id};
      var skipped: bool := *;
      if !ok && skipped {
        continue;
      }
      var done, some := ServeTarget(evt, rule, x, id, events[id], takes, cancelled || !ok);
      OnceConcat(log, some);
      ok, log := ok && done, log + some;
    }
  }

  lemma NothingSent()
    ensures OncePerTarget([])
  {
  }

  /** One rule: unless another one has failed, it succeeds exactly if it can be served, and then has
      delivered all it owes. In any case no target gets anything twice. */
  method HandleSource(evt: EventExt, rule: string, x: Exec, takes: Topics, cancelled: bool)
    returns (ok: bool, log: seq<Effect>)
    ensures !cancelled ==> (ok <==> RuleServable(evt, rule, x, takes))
    ensures forall e :: e in log ==> exists id :: MayGet(evt, rule, x, id, e)
    ensures !cancelled && ok ==> forall e :: e in log ==> exists id :: Owes(evt, rule, x, id, e)
    ensures !cancelled && ok ==> forall id, e :: Owes(evt, rule, x, id, e) ==> e in log
    ensures OncePerTarget(log)
    ensures x.matching != Answer(true) ==> log == []
    ensures forall e :: e in log ==> Fitting(evt, rule, x, e) && (e.Queued? ==> takes(e.evt))
    ensures !cancelled && ok && x.matching == Answer(true) ==>
      forall id :: id in x.transformers && id in x.dispatchers ==>
        exists e :: e in log && e.evt.targetId == id && (e.Dispatched? <==> x.dispatchers[id] == Accepts)
  {
    hide Fitting, HandOff, Diverted, OncePerTarget;
    NothingSent();
    if x.matching.NoMatcher? {
      return true, [];
    }
    if x.matching.MatchFails? {
      return false, [];
    }
    var givenUp: bool := *;
    if !x.matching.matches || (x.transformers == map[] && !(cancelled && givenUp)) {
      return true, [];
    }
    if cancelled && givenUp {
      return false, [];
    }
    var events := Transform(evt, rule, x);
    if events.None? {
      assert exists id :: id in x.transformers && !TargetServable(evt, rule, x, id, takes);
      return false, [];
    }
    ok, log := ServeTargets(evt, rule, x, events.value, takes, cancelled);
    forall id | !cancelled && ok && id in x.transformers && id in x.dispatchers
      ensures exists e :: e in log && e.evt.targetId == id && (e.Dispatched? <==> x.dispatchers[id] == Accepts)
    {
      var e := OwedIfDispatched(evt, rule, x, id);
    }
  }

  lemma OwedIfDispatched(evt: EventExt, rule: string, x: Exec, id: nat) returns (e: Effect)
    requires Wanted(x, id) && TargetEvent(evt, rule, id, x.transformers[id]).Some? && id in x.dispatchers
    ensures Owes(evt, rule, x, id, e) && e.evt.targetId == id && (e.Dispatched? <==> x.dispatchers[id] == Accepts)
  {
    e := HandOff(x, TargetEvent(evt, rule, id, x.transformers[id]).value).value;
  }

  /** Everything the rules owe for a source event. */
  ghost predicate OwedBy(evt: EventExt, executors: map<string, Exec>, rule: string, id: nat, e: Effect)
  {
    rule in executors && Owes(evt, rule, executors[rule], id, e)
  }

  /** What a rule of the bus may get for a source event. */
  ghost predicate MayBeGot(evt: EventExt, executors: map<string, Exec>, rule: string, id: nat, e: Effect)
  {
    rule in executors && MayGet(evt, rule, executors[rule], id, e)
  }

  /** A source event, which no rule has been named for yet. */
  method HandleSourceEvent(evt: EventExt, executors: map<string, Exec>, takes: Topics)
    returns (ok: bool, log: seq<Effect>)
    ensures ok <==> forall rule :: rule in executors ==> RuleServable(evt, rule, executors[rule], takes)
    ensures forall e :: e in log ==> exists rule, id :: MayBeGot(evt, executors, rule, id, e)
    ensures ok ==> forall e :: e in log ==> exists rule, id :: OwedBy(evt, executors, rule, id, e)
    ensures ok ==> forall rule, id, e :: OwedBy(evt, executors, rule, id, e) ==> e in log
    ensures OncePerTarget(log)
    ensures forall e :: e in log ==>
      e.evt.ruleName in executors && Fitting(evt, e.evt.ruleName, executors[e.evt.ruleName], e)
  {
    ok, log := true, [];
    var todo := executors.Keys;
    while todo != {}
      invariant todo <= executors.Keys
      invariant forall e :: e in log ==> exists rule, id :: MayBeGot(evt, executors, rule, id, e)
      invariant forall e :: e in log ==>
        e.evt.ruleName in executors && Fitting(evt, e.evt.ruleName, executors[e.evt.ruleName], e)
      invariant OncePerTarget(log) && forall e :: e in log ==> e.evt.ruleName !in todo
      invariant ok ==> forall e :: e in log ==> exists rule, id :: OwedBy(evt, executors, rule, id, e)
      invariant ok ==> forall rule, id, e :: rule !in todo && OwedBy(evt, executors, rule, id, e) ==> e in log
      invariant ok ==>
        forall rule :: rule in executors && rule !in todo ==> RuleServable(evt, rule, executors[rule], takes)
      invariant !ok ==> exists rule :: rule in executors && !RuleServable(evt, rule, executors[rule], takes)
      decreases todo
    {
      var rule :| rule in todo;
      todo := todo - {rule};
      var skipped: bool := *;
      if !ok && skipped {
        continue;
      }
      var done, some := HandleSource(evt, rule, executors[rule], takes, !ok);
      forall e | e in some
        ensures (exists id :: MayBeGot(evt, executors, rule, id, e)) && e.evt.ruleName == rule
        ensures ok && done ==> exists id :: OwedBy(evt, executors, rule, id, e)
      {
        var id :| MayGet(evt, rule, executors[rule], id, e);
        assert MayBeGot(evt, executors, rule, id, e);
        if ok && done {
          var owed :| Owes(evt, rule, executors[rule], owed, e);
          assert OwedBy(evt, executors, rule, owed, e);
        }
      }
      ok := ok && done;
      OnceConcat(log, some);
      log := log + some;
    }
  }

  /** An event that comes back from a retry topic is for one target only. */
  predicate Redispatched(evt: EventExt, executors: map<string, Exec>)
  {
    && evt.ruleName in executors && evt.targetId in executors[evt.ruleName].dispatchers
    && executors[evt.ruleName].dispatchers[evt.targetId].Accepts?
  }

  /** Everything that can be asked of one delivery of the event has happened, once. */
  ghost predicate Delivered(evt: EventExt, executors: map<string, Exec>, log: seq<Effect>)
  {
    if evt.ruleName != [] then log == [Dispatched(evt)] && Redispatched(evt, executors)
    else
      && OncePerTarget(log)
      && (forall e :: e in log ==> exists rule, id :: OwedBy(evt, executors, rule, id, e))
      && (forall rule, id, e :: OwedBy(evt, executors, rule, id, e) ==> e in log)
      && (forall rule, id :: rule in executors && Wanted(executors[rule], id) ==>
            TargetEvent(evt, rule, id, executors[rule].transformers[id]).Some?)
  }

  /** Everything the event needs works: its rules can be served, or its one target accepts it. */
  ghost predicate CanServe(evt: EventExt, executors: map<string, Exec>, takes: Topics)
  {
    if evt.ruleName != [] then Redispatched(evt, executors)
    else forall rule :: rule in executors ==> RuleServable(evt, rule, executors[rule], takes)
  }

  method HandleEvent(evt: EventExt, executors: map<string, Exec>, takes: Topics) returns (ok: bool, log: seq<Effect>)
    ensures ok <==> CanServe(evt, executors, takes)
    ensures ok ==> Delivered(evt, executors, log)
    ensures OncePerTarget(log)
    ensures evt.ruleName != [] ==> log == if ok then [Dispatched(evt)] else []
    ensures evt.ruleName != [] ==>
      (ok <==> evt.ruleName in executors && var ds := executors[evt.ruleName].dispatchers;
               evt.targetId in ds && ds[evt.targetId] == Accepts)
    ensures evt.ruleName == [] ==> forall e :: e in log ==>
      e.evt.ruleName in executors && Fitting(evt, e.evt.ruleName, executors[e.evt.ruleName], e)
    ensures evt.ruleName == [] ==> forall e :: e in log ==> exists rule, id :: MayBeGot(evt, executors, rule, id, e)
  {
    if executors == map[] {
      return evt.ruleName == [], [];
    }
    if evt.ruleName != [] {
      ok := Redispatched(evt, executors);
      log := if ok then [Dispatched(evt)] else [];
      return;
    }
    ok, log := HandleSourceEvent(evt, executors, takes);
    if ok {
      forall rule, id | rule in executors && Wanted(executors[rule], id)
        ensures TargetEvent(evt, rule, id, executors[rule].transformers[id]).Some?
      {
        assert TargetServable(evt, rule, executors[rule], id, takes);
      }
    }
  }

  // ---------- acknowledgement and redelivery ----------

  /** What the consumer tells the queue about a message: whether it tried to acknowledge it, whether
      that worked, and after how many seconds it wants it again. */
  datatype Reply = Reply(tried: bool, acked: bool, delay: Option<nat>)

  const BACKOFF_ATTEMPTS := 4
  const DECAY_ATTEMPTS := 177

  function Attempts(retry: Retry): nat
  {
    if retry.Backoff? then BACKOFF_ATTEMPTS else DECAY_ATTEMPTS
  }

  function Exp2(n: nat): (r: nat)
    ensures r >= 1
  {
    if n == 0 then 1 else 2 * Exp2(n - 1)
  }

  /** Seconds until the next attempt, after this one has failed. */
  function DecayDelay(attempt: nat): nat
    requires 1 <= attempt
  {
    if attempt < 10 then Exp2(attempt - 1) else 512
  }

  /** `random` is the random part of the back-off, and `ackWorks` the queue's answer. */
  method HandleMessage(
    evt: EventExt, executors: map<string, Exec>, takes: Topics, attempt: nat, ackWorks: bool, random: nat)
    returns (r: Reply, log: seq<Effect>)
    requires 1 <= attempt && random < 10
    ensures r.tried <==> CanServe(evt, executors, takes)
    ensures r.tried ==> Delivered(evt, executors, log)
    ensures r.acked <==> r.tried && ackWorks
    ensures r.delay.Some? <==> !r.acked && attempt < (if evt.retry == Backoff then 4 else 177)
    ensures r.delay.Some? ==> r.delay.value == (if evt.retry == Backoff then 10 + random else DecayDelay(attempt))
  {
    var ok;
    ok, log := HandleEvent(evt, executors, takes);
    var acked := ok && ackWorks;
    if acked || attempt >= Attempts(evt.retry) {
      r := Reply(ok, acked, None);
    } else if evt.retry == Backoff {
      r := Reply(ok, acked, Some(10 + random));
    } else {
      r := Reply(ok, acked, Some(DecayDelay(attempt)));
    }
  }

  // ---------- the schedule ----------

  lemma {:induction false} Exp2Grows(n: nat, m: nat)
    requires n <= m
    ensures Exp2(n) <= Exp2(m)
    decreases m
  {
    if n < m {
      Exp2Grows(n, m - 1);
    }
  }

  lemma Exp2Nine()
    ensures Exp2(9) == 512
  {
    assert Exp2(3) == 8;
    assert Exp2(6) == 64;
  }

  lemma DelaysGrow(n: nat, m: nat)
    requires 1 <= n <= m
    ensures DecayDelay(n) <= DecayDelay(m) <= 512
  {
    Exp2Nine();
    if n < 10 {
      Exp2Grows(n - 1, 9);
    }
    if m < 10 {
      Exp2Grows(n - 1, m - 1);
      Exp2Grows(m - 1, 9);
    }
  }

  /** The delays are 1, 2, 4 and so on up to 512, and 512 from there. */
  lemma DelaysDouble(n: nat)
    requires 1 <= n
    ensures DecayDelay(1) == 1
    ensures n < 10 ==> DecayDelay(n + 1) == 2 * DecayDelay(n)
    ensures 10 <= n ==> DecayDelay(n) == 512
  {
    Exp2Nine();
  }

  /** The first n delays together. */
  function TotalDelay(n: nat): nat
  {
    if n == 0 then 0 else TotalDelay(n - 1) + DecayDelay(n)
  }

  lemma {:induction false} TotalDelayIs(n: nat)
    ensures TotalDelay(n) == if n <= 9 then Exp2(n) - 1 else 511 + 512 * (n - 9)
    decreases n
  {
    Exp2Nine();
    if n > 0 {
      TotalDelayIs(n - 1);
    }
  }

  lemma {:induction false} TotalDelayGrows(n: nat, m: nat)
    requires n <= m
    ensures TotalDelay(n) <= TotalDelay(m)
    decreases m
  {
    if n < m {
      TotalDelayGrows(n, m - 1);
    }
  }

  /** All the redeliveries of an event with exponential decay fit into a day. */
  lemma DecayFitsIntoADay()
    ensures TotalDelay(DECAY_ATTEMPTS - 1) == 86015 < 24 * 3600
  {
    TotalDelayIs(DECAY_ATTEMPTS - 1);
  }

  // ---------- the whole life of a message ----------

  /** What one attempt meets. */
  datatype Circumstances = Circumstances(
    executors: map<string, Exec>, takes: Topics, ackWorks: bool, random: nat)

  /** An attempt under these circumstances gets the message acknowledged. */
  ghost predicate Settles(evt: EventExt, c: Circumstances)
  {
    CanServe(evt, c.executors, c.takes) && c.ackWorks
  }

  /** The queue hands the message out again after each delay, until it is acknowledged or no delay
      is asked for. So it is acknowledged at the first attempt that can be served and acknowledged,
      and is given up only if none of the 4 or 177 attempts can; `waited` is the time this takes. */
  method Redeliver(evt: EventExt, world: seq<Circumstances>)
    returns (acked: bool, attempts: nat, waited: nat, log: seq<Effect>)
    requires |world| == (if evt.retry == Backoff then 4 else 177)
    requires forall i :: 0 <= i < |world| ==> world[i].random < 10
    ensures 1 <= attempts <= |world|
    ensures forall i :: 0 <= i < attempts - 1 ==> !Settles(evt, world[i])
    ensures acked <==> Settles(evt, world[attempts - 1])
    ensures acked ==> Delivered(evt, world[attempts - 1].executors, log)
    ensures !acked && evt.retry == Backoff ==> attempts == 4 && 30 <= waited <= 57
    ensures !acked && evt.retry != Backoff ==> attempts == 177 && waited == 86015
    ensures evt.retry == Backoff ==> 10 * (attempts - 1) <= waited <= 19 * (attempts - 1) <= 57
    ensures evt.retry != Backoff ==> waited == TotalDelay(attempts - 1) <= 86015 <= 24 * 3600
  {
    hide CanServe, Delivered, DecayDelay;
    var r;
    r, log := HandleMessage(evt, world[0].executors, world[0].takes, 1, world[0].ackWorks, world[0].random);
    attempts, waited := 1, 0;
    while r.delay.Some?
      invariant 1 <= attempts <= |world|
      invariant r.delay.Some? <==> !r.acked && attempts < |world|
      invariant r.delay.Some? ==>
        r.delay.value == if evt.retry.Backoff? then 10 + world[attempts - 1].random else DecayDelay(attempts)
      invariant forall i :: 0 <= i < attempts - 1 ==> !Settles(evt, world[i])
      invariant r.acked <==> Settles(evt, world[attempts - 1])
      invariant r.acked ==> Delivered(evt, world[attempts - 1].executors, log)
      invariant evt.retry.Backoff? ==> 10 * (attempts - 1) <= waited <= 19 * (attempts - 1)
      invariant !evt.retry.Backoff? ==> waited == TotalDelay(attempts - 1)
      decreases |world| - attempts
    {
      waited := waited + r.delay.value;
      attempts := attempts + 1;
      var c := world[attempts - 1];
      r, log := HandleMessage(evt, c.executors, c.takes, attempts, c.ackWorks, c.random);
    }
    acked := r.acked;
    TotalDelayGrows(attempts - 1, DECAY_ATTEMPTS - 1);
    DecayFitsIntoADay();
  }
}
