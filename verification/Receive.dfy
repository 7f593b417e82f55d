/**
 The concurrent receive loop of the consumer. A channel with room for `workers` entries serves as
 a semaphore: the loop puts an entry in and takes it out again to wait until a worker is free,
 asks for as many messages as there is room for, and starts a worker, with an entry of its own,
 for each message it gets. Workers finish, and the consumer may be closed, between any two steps.
 */
module Receivers {
  type Message = nat

  /** Where the loop is: about to probe the semaphore, holding the probe, about to look how much room
      there is, waiting for what it has asked for, starting workers, or returned. */
  datatype Point =
    | Probing
    | Holding
    | Measuring
    | Fetching(asked: int)
    | Starting(rest: seq<Message>)
    | Returned

  /** `taken` is the number of entries in the semaphore. The last three are history: what was ever
      fetched, what has been handled, and what was left over when the loop returned. */
  datatype State = State(
    at: Point, taken: nat, running: multiset<Message>, closed: bool,
    fetched: seq<Message>, handled: multiset<Message>, leftOver: seq<Message>)

  datatype Action =
    | Acquire
    | Release
    | Measure
    | Fetch(messages: seq<Message>)
    | FetchFails
    | Start
    | Again
    | Return
    | Finish(message: Message)
    | Close

  const INIT := State(Probing, 0, multiset{}, false, [], multiset{}, [])

  predicate Enabled(workers: nat, s: State, a: Action)
  {
    match a
    case Acquire => s.at.Probing? && s.taken < workers
    case Release => s.at.Holding? && s.taken > 0
    case Measure => s.at.Measuring?
    case Fetch(messages) => s.at.Fetching? && |messages| <= s.at.asked
    case FetchFails => s.at.Fetching?
    case Start => s.at.Starting? && s.at.rest != [] && s.taken < workers
    case Again => s.at.Starting? && s.at.rest == []
    case Return => s.closed && (s.at.Probing? || s.at.Fetching? || (s.at.Starting? && s.at.rest != []))
    case Finish(m) => m in s.running && s.taken > 0
    case Close => true
  }

  function Next(workers: nat, s: State, a: Action): State
    requires Enabled(workers, s, a)
  {
    match a
    case Acquire => s.(at := Holding, taken := s.taken + 1)
    case Release => s.(at := Measuring, taken := s.taken - 1)
    case Measure => s.(at := Fetching(workers - s.taken))
    case Fetch(messages) => s.(at := Starting(messages), fetched := s.fetched + messages)
    case FetchFails => s.(at := Probing)
    case Start =>
      s.(at := Starting(s.at.rest[1..]), taken := s.taken + 1, running := s.running + multiset{s.at.rest[0]})
    case Again => s.(at := Probing)
    case Return => s.(at := Returned, leftOver := Pending(s))
    case Finish(m) => s.(taken := s.taken - 1, running := s.running - multiset{m}, handled := s.handled + multiset{m})
    case Close => s.(closed := true)
  }

  /** Fetched, but without a worker yet. */
  function Pending(s: State): seq<Message>
  {
    if s.at.Starting? then s.at.rest else []
  }

  ghost predicate Run(workers: nat, actions: seq<Action>, s: State)
    decreases |actions|
  {
    if actions == [] then s == INIT
    else
      var last := actions[|actions| - 1];
      exists before :: Run(workers, actions[..|actions| - 1], before) && Enabled(workers, before, last)
        && s == Next(workers, before, last)
  }

  ghost predicate Reachable(workers: nat, s: State)
  {
    exists actions :: Run(workers, actions, s)
  }

  /** The steps the loop itself takes. */
  predicate OfLoop(a: Action)
  {
    !a.Finish? && !a.Close?
  }

  /** How many entries are taken, and that there is room for what has been fetched. */
  ghost predicate Fits(workers: nat, s: State)
  {
    && s.taken == |s.running| + (if s.at.Holding? then 1 else 0)
    && s.taken <= workers
    && (s.at.Measuring? ==> s.taken < workers)
    && (s.at.Fetching? ==> 1 <= s.at.asked <= workers - |s.running|)
    && |s.running| + |Pending(s)| <= workers
  }

  /** Where the fetched messages are. */
  ghost predicate Kept(s: State)
  {
    && multiset(s.fetched) == s.handled + s.running + multiset(Pending(s)) + multiset(s.leftOver)
    && (s.leftOver != [] ==> s.at.Returned?)
  }

  ghost predicate Inv(workers: nat, s: State)
  {
    Fits(workers, s) && Kept(s)
  }

  lemma StartKeeps(workers: nat, s: State)
    requires Kept(s) && Enabled(workers, s, Start)
    ensures Kept(Next(workers, s, Start))
  {
    assert s.at.rest == [s.at.rest[0]] + s.at.rest[1..];
    assert multiset(s.at.rest) == multiset{s.at.rest[0]} + multiset(s.at.rest[1..]);
  }

  lemma FetchKeeps(workers: nat, s: State, messages: seq<Message>)
    requires Kept(s) && Enabled(workers, s, Fetch(messages))
    ensures Kept(Next(workers, s, Fetch(messages)))
  {
    assert Pending(s) == [] && s.leftOver == [];
    assert multiset(s.fetched + messages) == multiset(s.fetched) + multiset(messages);
  }

  lemma FinishKeeps(workers: nat, s: State, m: Message)
    requires Kept(s) && Enabled(workers, s, Finish(m))
    ensures Kept(Next(workers, s, Finish(m)))
  {
    assert s.handled + s.running == (s.handled + multiset{m}) + (s.running - multiset{m});
  }

  lemma KeptStep(workers: nat, s: State, a: Action)
    requires Kept(s) && Enabled(workers, s, a)
    ensures Kept(Next(workers, s, a))
  {
    match a
    case Start => StartKeeps(workers, s);
    case Fetch(messages) => FetchKeeps(workers, s, messages);
    case Finish(m) => FinishKeeps(workers, s, m);
    case _ =>
  }

  lemma InvStep(workers: nat, s: State, a: Action)
    requires Inv(workers, s) && Enabled(workers, s, a)
    ensures Inv(workers, Next(workers, s, a))
  {
    KeptStep(workers, s, a);
    assert Fits(workers, Next(workers, s, a));
  }

  lemma {:induction false} InvRun(workers: nat, actions: seq<Action>, s: State)
    requires Run(workers, actions, s)
    ensures Inv(workers, s)
    decreases |actions|
  {
    if actions != [] {
      var last := actions[|actions| - 1];
      var before :| Run(workers, actions[..|actions| - 1], before) && Enabled(workers, before, last)
        && s == Next(workers, before, last);
      InvRun(workers, actions[..|actions| - 1], before);
      InvStep(workers, before, last);
    }
  }

  /** However the workers interleave: messages in hand never outnumber the workers, every request is
      for at least one message, for all there is room for when it is measured and never for more, and no
      fetched message waits for its worker. */
  lemma PrefetchIsBounded(workers: nat, s: State)
    requires Reachable(workers, s)
    ensures |s.running| + |Pending(s)| <= workers
    ensures s.at.Fetching? ==> 1 <= s.at.asked <= workers - |s.running|
    ensures s.at.Measuring? ==> Next(workers, s, Measure).at == Fetching(workers - |s.running|)
    ensures Pending(s) != [] ==> Enabled(workers, s, Start)
  {
    var actions :| Run(workers, actions, s);
    InvRun(workers, actions, s);
  }

  /** Every fetched message is in exactly one place, and none is left over unless the loop returned. */
  lemma NoMessageLost(workers: nat, s: State)
    requires Reachable(workers, s)
    ensures multiset(s.fetched) == s.handled + s.running + multiset(Pending(s)) + multiset(s.leftOver)
    ensures s.leftOver != [] ==> s.at.Returned? && s.closed
  {
    var actions :| Run(workers, actions, s);
    InvRun(workers, actions, s);
    ReturnedWhenClosed(workers, actions, s);
  }

  lemma {:induction false} ReturnedWhenClosed(workers: nat, actions: seq<Action>, s: State)
    requires Run(workers, actions, s)
    ensures s.at.Returned? ==> s.closed
    decreases |actions|
  {
    if actions != [] {
      var last := actions[|actions| - 1];
      var before :| Run(workers, actions[..|actions| - 1], before) && Enabled(workers, before, last)
        && s == Next(workers, before, last);
      ReturnedWhenClosed(workers, actions[..|actions| - 1], before);
    }
  }

  /** The loop can take a step, or a worker can finish, or the loop has returned. */
  ghost predicate Alive(workers: nat, s: State)
  {
    || s.at.Returned?
    || (exists a :: OfLoop(a) && Enabled(workers, s, a))
    || (exists m :: m in s.running && Enabled(workers, s, Finish(m)))
  }

  lemma AliveStep(workers: nat, s: State)
    requires workers >= 1 && Inv(workers, s)
    ensures Alive(workers, s)
  {
    match s.at
    case Probing =>
      if s.taken < workers {
        assert Enabled(workers, s, Acquire);
      } else {
        assert |s.running| > 0;
        var m :| m in s.running;
        assert Enabled(workers, s, Finish(m));
      }
    case Holding => assert Enabled(workers, s, Release);
    case Measuring => assert Enabled(workers, s, Measure);
    case Fetching(_) => assert Enabled(workers, s, FetchFails);
    case Starting(rest) => assert Enabled(workers, s, if rest == [] then Again else Start);
    case Returned =>
  }

  /** The loop never deadlocks exactly if there is at least one worker. */
  lemma AliveIffWorkers(workers: nat)
    ensures workers >= 1 <==> forall s :: Reachable(workers, s) ==> Alive(workers, s)
  {
    if workers >= 1 {
      forall s | Reachable(workers, s)
        ensures Alive(workers, s)
      {
        var actions :| Run(workers, actions, s);
        InvRun(workers, actions, s);
        AliveStep(workers, s);
      }
    } else {
      assert Run(workers, [], INIT);
      assert Reachable(workers, INIT);
      forall a | OfLoop(a)
        ensures !Enabled(workers, INIT, a)
      {
      }
      assert !Alive(workers, INIT);
    }
  }
}
