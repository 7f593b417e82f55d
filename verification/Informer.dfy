/**
 The informer as a whole: Watch stores changed values and returns their keys, the keys travel
 through the delta queue to worker goroutines, failed keys travel through the retry queue to the
 retry loop, and the retry loop handles them again when they are due.

 A handler reads the reflector's current value of its key and then installs it. The two halves
 are separate steps here, so that handlers really interleave. Failing handlers may leave anything
 behind. Everything is before Close.
 */
module Informers {
  import opened Wrappers
  import opened Maps
  import opened RetryLoops

  type Key = string
  type Value = string  // what the reflector holds for a key; only equality matters

  function Lookup(m: map<Key, Value>, k: Key): Option<Value>
  {
    if k in m then Some(m[k]) else None
  }

  function Put(m: map<Key, Value>, k: Key, v: Option<Value>): map<Key, Value>
  {
    if v.Some? then m[k := v.value] else m - {k}
  }

  datatype Reading = Reading(key: Key, seen: Option<Value>)

  /** What the retry loop is doing: waiting in its select, or running the handler. */
  datatype Timer = Waiting | Fired(key: Key) | Holding(key: Key, seen: Option<Value>)

  datatype State = State(
    store: map<Key, Value>,     // the reflector's shared store
    applied: map<Key, Value>,   // what the handlers have installed
    collected: seq<Key>,        // keys the running Watch has stored so far
    toEnqueue: seq<Key>,        // keys Watch returned that are not in the delta queue yet
    delta: seq<Key>,            // the delta queue, with the key its consumer waits to hand to a worker
    begun: map<nat, Key>,       // workers that have not read the value yet
    reading: map<nat, Reading>, // workers that have read it and are installing it
    failed: map<nat, Key>,      // workers waiting to send their key to the retry queue
    retry: seq<Key>,            // the retry queue, with the key the retry loop has just received
    due: map<Key, int>,
    timer: Timer,
    abandoned: set<Key>,        // given up by the back-off since their value last changed
    clock: int)

  /** Queue sizes, where 0 is a queue that hands over directly, and whether two handlers of one key
      may overlap. */
  datatype Config = Config(deltaSize: nat, retrySize: nat, workers: nat, exclusive: bool)

  const Initial := State(map[], map[], [], [], [], map[], map[], map[], [], map[], Waiting, {}, 0)

  datatype Action =
    | Store(key: Key, value: Option<Value>)  // one Store or Delete of a Watch
    | WatchReturns
    | Enqueue
    | Spawn(id: nat)
    | Read(id: nat)
    | Install(id: nat)
    | Fail(id: nat, left: Option<Value>)
    | Send(id: nat)
    | Arrive(wait: nat)
    | Tick(time: nat)
    | Fire(key: Key)
    | TimerRead
    | TimerInstall
    | TimerFail(left: Option<Value>, next: Option<nat>)

  /** Some handler has read the value of k and not installed it yet. */
  ghost predicate Held(s: State, k: Key)
  {
    || (exists id :: id in s.reading && s.reading[id].key == k)
    || (s.timer.Holding? && s.timer.key == k)
  }

  ghost predicate MayRead(c: Config, s: State, k: Key)
  {
    c.exclusive ==> !Held(s, k)
  }

  ghost predicate Enabled(c: Config, s: State, a: Action)
  {
    match a
    case Store(_, _) => s.toEnqueue == []
    case WatchReturns => s.toEnqueue == []
    case Enqueue => s.toEnqueue != [] && |s.delta| <= c.deltaSize
    case Spawn(id) =>
      && s.delta != [] && |s.begun| + |s.reading| + |s.failed| < c.workers
      && id !in s.begun && id !in s.reading && id !in s.failed
    case Read(id) => id in s.begun && id !in s.reading && MayRead(c, s, s.begun[id])
    case Install(id) => id in s.reading
    case Fail(id, _) => id in s.reading && id !in s.failed
    case Send(id) => id in s.failed && (|s.retry| < c.retrySize || (|s.retry| == c.retrySize && s.timer.Waiting?))
    case Arrive(_) => s.timer.Waiting? && s.retry != []
    case Tick(_) => true
    case Fire(k) => s.timer.Waiting? && |s.retry| <= c.retrySize && IsEarliest(s.due, k) && s.due[k] <= s.clock
    case TimerRead => s.timer.Fired? && MayRead(c, s, s.timer.key)
    case TimerInstall => s.timer.Holding?
    case TimerFail(_, _) => s.timer.Holding?
  }

  ghost function Next(c: Config, s: State, a: Action): State
    requires Enabled(c, s, a)
  {
    match a
    case Store(k, v) =>
      s.(store := Put(s.store, k, v), collected := s.collected + [k], abandoned := s.abandoned - {k})
    case WatchReturns => s.(toEnqueue := s.collected, collected := [])
    case Enqueue => s.(delta := s.delta + [s.toEnqueue[0]], toEnqueue := s.toEnqueue[1..])
    case Spawn(id) => s.(delta := s.delta[1..], begun := s.begun[id := s.delta[0]])
    case Read(id) =>
      var k := s.begun[id];
      s.(begun := s.begun - {id}, reading := s.reading[id := Reading(k, Lookup(s.store, k))])
    case Install(id) =>
      var r := s.reading[id];
      s.(reading := s.reading - {id}, applied := Put(s.applied, r.key, r.seen))
    case Fail(id, left) =>
      var k := s.reading[id].key;
      s.(reading := s.reading - {id}, failed := s.failed[id := k], applied := Put(s.applied, k, left))
    case Send(id) => s.(failed := s.failed - {id}, retry := s.retry + [s.failed[id]])
    case Arrive(next) =>
      s.(retry := s.retry[1..], due := s.due[s.retry[0] := s.clock + next])
    case Tick(time) => s.(clock := s.clock + time)
    case Fire(k) => s.(timer := Fired(k))
    case TimerRead => s.(timer := Holding(s.timer.key, Lookup(s.store, s.timer.key)))
    case TimerInstall =>
      var k := s.timer.key;
      s.(timer := Waiting,
         due := s.due - {k},
         applied := Put(s.applied, k, s.timer.seen))
    case TimerFail(left, next) =>
      var k := s.timer.key;
      s.(timer := Waiting,
         due := if next.Some? then s.due[k := s.clock + next.value] else s.due - {k},
         applied := Put(s.applied, k, left),
         abandoned := if next.None? then s.abandoned + {k} else s.abandoned)
  }

  ghost function Run(c: Config, s: State, actions: seq<Action>): Option<State>
    decreases |actions|
  {
    if actions == [] then Some(s)
    else if Enabled(c, s, actions[0]) then Run(c, Next(c, s, actions[0]), actions[1..])
    else None
  }

  ghost predicate Reachable(c: Config, s: State)
  {
    exists actions :: Run(c, Initial, actions) == Some(s)
  }

  // ---------- convergence ----------

  /** A handler of k is still going to read the reflector's value. */
  ghost predicate WillRead(s: State, k: Key)
  {
    || k in s.collected || k in s.toEnqueue || k in s.delta || k in s.retry
    || k in s.begun.Values || k in s.failed.Values
    || (k in s.due && !(s.timer.Holding? && s.timer.key == k))
  }

  ghost predicate Pending(s: State, k: Key)
  {
    WillRead(s, k) || Held(s, k)
  }

  ghost predicate UpToDate(s: State, k: Key)
  {
    Lookup(s.applied, k) == Lookup(s.store, k)
  }

  /** A value that was read and is about to be installed is current, or will be replaced. */
  ghost predicate FreshOrReplaced(s: State, k: Key, seen: Option<Value>)
  {
    seen == Lookup(s.store, k) || WillRead(s, k)
  }

  /** The handler step a takes over the key k: from here on it holds the current value. */
  ghost predicate Reads(s: State, a: Action, k: Key)
  {
    || (a.Read? && a.id in s.begun && s.begun[a.id] == k)
    || (a.TimerRead? && s.timer.Fired? && s.timer.key == k)
  }

  /** The timer branch only handles queued keys. */
  ghost predicate TimerKeyIsDue(s: State)
  {
    !s.timer.Waiting? ==> s.timer.key in s.due
  }

  lemma WillReadKept(c: Config, s: State, a: Action, k: Key)
    requires Enabled(c, s, a) && TimerKeyIsDue(s)
    requires WillRead(s, k) && !Reads(s, a, k)
    ensures WillRead(Next(c, s, a), k)
  {
    match a
    case Enqueue => assert s.toEnqueue == [s.toEnqueue[0]] + s.toEnqueue[1..];
    case Spawn(id) =>
      assert s.delta == [s.delta[0]] + s.delta[1..];
      ValuesAfterInsert(s.begun, id, s.delta[0]);
    case Read(id) => if k in s.begun.Values { ValueKept(s.begun, id, k); }
    case Fail(id, _) => ValuesAfterInsert(s.failed, id, s.reading[id].key);
    case Send(id) => if k in s.failed.Values && k != s.failed[id] { ValueKept(s.failed, id, k); }
    case Arrive(_) => assert s.retry == [s.retry[0]] + s.retry[1..];
    case _ =>
  }

  /** No two handlers hold values of one key. */
  ghost predicate Exclusive(s: State)
  {
    && (forall i, j :: i in s.reading && j in s.reading && s.reading[i].key == s.reading[j].key ==> i == j)
    && (forall i :: i in s.reading && s.timer.Holding? ==> s.reading[i].key != s.timer.key)
  }

  lemma ExclusiveStep(c: Config, s: State, a: Action)
    requires c.exclusive && Exclusive(s) && Enabled(c, s, a)
    ensures Exclusive(Next(c, s, a))
  {
  }

  ghost predicate HeldAreFresh(s: State)
  {
    && (forall i :: i in s.reading ==> FreshOrReplaced(s, s.reading[i].key, s.reading[i].seen))
    && (s.timer.Holding? ==> FreshOrReplaced(s, s.timer.key, s.timer.seen))
  }

  lemma HeldAreFreshStep(c: Config, s: State, a: Action)
    requires c.exclusive && Enabled(c, s, a) && TimerKeyIsDue(s) && Exclusive(s) && HeldAreFresh(s)
    ensures HeldAreFresh(Next(c, s, a))
  {
    hide FreshOrReplaced, MayRead, IsEarliest, Put, Exclusive, Reads, Next, Enabled;
    var t := Next(c, s, a);
    forall i | i in t.reading
      ensures FreshOrReplaced(t, t.reading[i].key, t.reading[i].seen)
    {
      ReadOrKept(c, s, a, i);
      StillFresh(c, s, a, t.reading[i].key, t.reading[i].seen);
    }
    if t.timer.Holding? {
      TimerReadOrKept(c, s, a);
      StillFresh(c, s, a, t.timer.key, t.timer.seen);
    }
  }

  /** What a worker holds after a step it has just read or had before, and no one else reads that key. */
  lemma ReadOrKept(c: Config, s: State, a: Action, i: nat)
    requires c.exclusive && Enabled(c, s, a) && i in Next(c, s, a).reading
    ensures
      var r := Next(c, s, a).reading[i];
      if Reads(s, a, r.key) then r.seen == Lookup(s.store, r.key) else i in s.reading && s.reading[i] == r
  {
    hide IsEarliest, Put, Lookup;
  }

  lemma TimerReadOrKept(c: Config, s: State, a: Action)
    requires c.exclusive && Enabled(c, s, a) && Next(c, s, a).timer.Holding?
    ensures
      var r := Next(c, s, a).timer;
      if Reads(s, a, r.key) then r.seen == Lookup(s.store, r.key) else s.timer == r
  {
    hide IsEarliest, Put, Lookup;
  }

  lemma StillFresh(c: Config, s: State, a: Action, k: Key, seen: Option<Value>)
    requires Enabled(c, s, a) && TimerKeyIsDue(s)
    requires if Reads(s, a, k) then seen == Lookup(s.store, k) else FreshOrReplaced(s, k, seen)
    ensures FreshOrReplaced(Next(c, s, a), k, seen)
  {
    if !Reads(s, a, k) && WillRead(s, k) {
      WillReadKept(c, s, a, k);
    }
  }

  ghost predicate Accounted(s: State, k: Key)
  {
    Pending(s, k) || UpToDate(s, k) || k in s.abandoned
  }

  lemma ReadingKept(c: Config, s: State, a: Action, i: nat)
    requires Enabled(c, s, a) && i in s.reading && a != Install(i) && !(a.Fail? && a.id == i)
    ensures i in Next(c, s, a).reading && Next(c, s, a).reading[i] == s.reading[i]
  {
    hide MayRead, IsEarliest;
  }

  /** A handler that holds the value of k keeps it, installs it, or fails and will read again. */
  lemma HeldByWorkerStep(c: Config, s: State, a: Action, i: nat)
    requires Enabled(c, s, a) && Exclusive(s) && HeldAreFresh(s) && i in s.reading
    requires !WillRead(s, s.reading[i].key)
    ensures Accounted(Next(c, s, a), s.reading[i].key)
  {
    hide MayRead, IsEarliest, Exclusive;
    var t := Next(c, s, a);
    var k := s.reading[i].key;
    if a == Install(i) {
      assert UpToDate(t, k);
    } else if a.Fail? && a.id == i {
      assert t.failed[i] == k;
    } else {
      ReadingKept(c, s, a, i);
      assert Held(t, k);
    }
  }

  lemma HeldByTimerStep(c: Config, s: State, a: Action)
    requires Enabled(c, s, a) && Exclusive(s) && HeldAreFresh(s) && s.timer.Holding?
    requires !WillRead(s, s.timer.key)
    ensures Accounted(Next(c, s, a), s.timer.key)
  {
    var t := Next(c, s, a);
    match a
    case TimerInstall => assert UpToDate(t, s.timer.key);
    case TimerFail(_, next) => assert next.Some? ==> s.timer.key in t.due;
    case _ =>
  }

  lemma PutElsewhere(m: map<Key, Value>, other: Key, v: Option<Value>, k: Key)
    requires other != k
    ensures Lookup(Put(m, other, v), k) == Lookup(m, k)
  {
  }

  /** Only handlers that hold a key install a value for it. */
  lemma NotInstalled(c: Config, s: State, a: Action, k: Key)
    requires Enabled(c, s, a) && !Held(s, k)
    ensures Lookup(Next(c, s, a).applied, k) == Lookup(s.applied, k)
  {
    hide MayRead, IsEarliest, Lookup, Put;
    match a
    case Install(id) => PutElsewhere(s.applied, s.reading[id].key, s.reading[id].seen, k);
    case Fail(id, left) => PutElsewhere(s.applied, s.reading[id].key, left, k);
    case TimerInstall => PutElsewhere(s.applied, s.timer.key, s.timer.seen, k);
    case TimerFail(left, _) => PutElsewhere(s.applied, s.timer.key, left, k);
    case _ =>
  }

  /** Only Watch changes the stored value of a key, and only then is giving up on it forgotten. */
  lemma NotStored(c: Config, s: State, a: Action, k: Key)
    requires Enabled(c, s, a) && !(a.Store? && a.key == k)
    ensures Lookup(Next(c, s, a).store, k) == Lookup(s.store, k)
    ensures k in s.abandoned ==> k in Next(c, s, a).abandoned
  {
  }

  lemma QuietStep(c: Config, s: State, a: Action, k: Key)
    requires Enabled(c, s, a) && !Held(s, k) && (UpToDate(s, k) || k in s.abandoned)
    ensures Accounted(Next(c, s, a), k)
  {
    if a.Store? && a.key == k {
      assert k in Next(c, s, a).collected;
    } else {
      NotInstalled(c, s, a, k);
      NotStored(c, s, a, k);
    }
  }

  lemma AccountedStep(c: Config, s: State, a: Action, k: Key)
    requires c.exclusive && Enabled(c, s, a)
    requires TimerKeyIsDue(s) && Exclusive(s) && HeldAreFresh(s) && Accounted(s, k)
    ensures Accounted(Next(c, s, a), k)
  {
    if Reads(s, a, k) {
      assert a.Read? ==> Next(c, s, a).reading[a.id].key == k;
    } else if WillRead(s, k) {
      WillReadKept(c, s, a, k);
    } else if Held(s, k) {
      if s.timer.Holding? && s.timer.key == k {
        HeldByTimerStep(c, s, a);
      } else {
        var i :| i in s.reading && s.reading[i].key == k;
        HeldByWorkerStep(c, s, a, i);
      }
    } else {
      QuietStep(c, s, a, k);
    }
  }

  ghost predicate Inv(s: State)
  {
    && TimerKeyIsDue(s) && Exclusive(s) && HeldAreFresh(s)
    && forall k :: Accounted(s, k)
  }

  lemma InvStep(c: Config, s: State, a: Action)
    requires c.exclusive && Inv(s) && Enabled(c, s, a)
    ensures Inv(Next(c, s, a))
  {
    ExclusiveStep(c, s, a);
    HeldAreFreshStep(c, s, a);
    forall k
      ensures Accounted(Next(c, s, a), k)
    {
      AccountedStep(c, s, a, k);
    }
  }

  lemma {:induction false} InvRun(c: Config, s: State, actions: seq<Action>)
    requires c.exclusive && Inv(s) && Run(c, s, actions).Some?
    ensures Inv(Run(c, s, actions).value)
    decreases |actions|
  {
    if actions != [] {
      InvStep(c, s, actions[0]);
      InvRun(c, Next(c, s, actions[0]), actions[1..]);
    }
  }

  /** In every reachable state each key is still pending, or its installed value is the
      reflector's, or the back-off gave up on its current value. */
  lemma Convergence(c: Config, s: State, k: Key)
    requires c.exclusive && Reachable(c, s)
    ensures Pending(s, k) || UpToDate(s, k) || k in s.abandoned
    ensures
      || Pending(s, k) || k in s.abandoned
      || if k in s.store then k in s.applied && s.applied[k] == s.store[k] else k !in s.applied
  {
    var actions :| Run(c, Initial, actions) == Some(s);
    InvRun(c, Initial, actions);
    assert Accounted(s, k);
  }

  // ---------- progress ----------

  ghost predicate Quiescent(s: State)
  {
    && s.collected == [] && s.toEnqueue == [] && s.delta == [] && s.retry == []
    && s.begun == map[] && s.reading == map[] && s.failed == map[]
    && s.due == map[] && s.timer.Waiting?
  }

  /** How many steps the informer can still take if Watch stores nothing and handlers succeed. */
  ghost function Work(s: State): int
  {
    5 * |s.collected| + 4 * |s.toEnqueue| + 3 * |s.delta| + 2 * |s.begun| + |s.reading|
    + 6 * |s.failed| + 5 * |s.retry| + 4 * |s.due|
    - (match s.timer case Waiting => 0 case Fired(_) => 1 case Holding(_, _) => 2)
  }

  /** Steps that neither come from outside nor fail. */
  ghost predicate Advances(s: State, a: Action)
  {
    match a
    case Store(_, _) => false
    case Fail(_, _) => false
    case TimerFail(_, _) => false
    case Tick(_) => false
    case WatchReturns => s.collected != []
    case _ => true
  }

  lemma WorkerUsesWork(c: Config, s: State, a: Action)
    requires Enabled(c, s, a) && (a.Spawn? || a.Read? || a.Install? || a.Send?)
    ensures Work(Next(c, s, a)) < Work(s)
  {
    match a
    case Spawn(id) => SizeAfterInsert(s.begun, id, s.delta[0]);
    case Read(id) =>
      SizeAfterRemove(s.begun, id);
      SizeAfterInsert(s.reading, id, Reading(s.begun[id], Lookup(s.store, s.begun[id])));
    case Install(id) => SizeAfterRemove(s.reading, id);
    case Send(id) => SizeAfterRemove(s.failed, id);
  }

  /** Every advancing step uses up work, so without new values and failures the informer comes to
      rest whatever the interleaving. */
  lemma AdvancingUsesWork(c: Config, s: State, a: Action)
    requires Enabled(c, s, a) && Advances(s, a) && TimerKeyIsDue(s)
    ensures Work(Next(c, s, a)) < Work(s)
  {
    match a
    case Arrive(wait) => SizeAfterInsert(s.due, s.retry[0], s.clock + wait);
    case TimerInstall => SizeAfterRemove(s.due, s.timer.key);
    case WatchReturns =>
    case Enqueue =>
    case Fire(_) =>
    case TimerRead =>
    case _ => WorkerUsesWork(c, s, a);
  }

  lemma {:induction false} EarliestExists(due: map<Key, int>) returns (k: Key)
    requires due != map[]
    ensures IsEarliest(due, k)
    decreases |due|
  {
    k :| k in due;
    var rest := due - {k};
    SizeAfterRemove(due, k);
    if rest != map[] {
      var r := EarliestExists(rest);
      assert forall x :: x in due ==> x == k || x in rest;
      if due[r] < due[k] {
        k := r;
      }
    }
  }

  /** Some advancing step is possible, at once or after waiting for a due time: the bounded queues
      and the bounded number of workers never block one another for good. */
  lemma Progress(c: Config, s: State) returns (wait: nat, a: Action)
    requires 1 <= c.workers
    requires !Quiescent(s) && TimerKeyIsDue(s)
    ensures var t := Next(c, s, Tick(wait)); Enabled(c, t, a) && Advances(t, a)
  {
    wait := 0;
    if i :| i in s.reading {
      a := Install(i);
    } else if s.timer.Holding? {
      a := TimerInstall;
    } else if s.timer.Fired? {
      a := TimerRead;
    } else if i :| i in s.begun {
      a := Read(i);
    } else if s.retry != [] {
      a := Arrive(0);
    } else if i :| i in s.failed {
      a := Send(i);
    } else if s.delta != [] {
      a := Spawn(0);
    } else if s.toEnqueue != [] {
      a := Enqueue;
    } else if s.collected != [] {
      a := WatchReturns;
    } else {
      var k := EarliestExists(s.due);
      wait := if s.due[k] <= s.clock then 0 else s.due[k] - s.clock;
      a := Fire(k);
    }
  }

  lemma AdvancingKeepsValues(c: Config, s: State, a: Action)
    requires Enabled(c, s, a) && Advances(s, a)
    ensures var t := Next(c, s, a); t.store == s.store && t.abandoned == s.abandoned
  {
    match a
    case TimerInstall =>
    case Install(_) =>
    case _ =>
  }

  lemma WorkIsNatural(s: State)
    requires TimerKeyIsDue(s)
    ensures 0 <= Work(s)
  {
    if !s.timer.Waiting? {
      SizeAfterRemove(s.due, s.timer.key);
    }
  }

  lemma RunPrepend(c: Config, s: State, a: Action, t: State, rest: seq<Action>) returns (actions: seq<Action>)
    requires Enabled(c, s, a) && Run(c, Next(c, s, a), rest) == Some(t)
    ensures Run(c, s, actions) == Some(t)
  {
    actions := [a] + rest;
    assert actions[1..] == rest;
  }

  lemma AdvanceOnce(c: Config, s: State) returns (wait: nat, a: Action)
    requires c.exclusive && 1 <= c.workers
    requires Inv(s) && !Quiescent(s)
    ensures Enabled(c, Next(c, s, Tick(wait)), a)
    ensures
      var t := Next(c, Next(c, s, Tick(wait)), a);
      && Inv(t) && 0 <= Work(t) < Work(s)
      && t.store == s.store && t.abandoned == s.abandoned
  {
    wait, a := Progress(c, s);
    var s1 := Next(c, s, Tick(wait));
    InvStep(c, s, Tick(wait));
    InvStep(c, s1, a);
    AdvancingUsesWork(c, s1, a);
    AdvancingKeepsValues(c, s1, a);
    WorkIsNatural(Next(c, s1, a));
  }

  /** From every reachable state the informer can come to rest, and every handler's installed
      value then is the reflector's, except where the back-off gave up. */
  lemma {:induction false} ComesToRest(c: Config, s: State) returns (actions: seq<Action>, t: State)
    requires c.exclusive && 1 <= c.workers
    requires Inv(s)
    ensures Run(c, s, actions) == Some(t) && Quiescent(t)
    ensures t.store == s.store && t.abandoned == s.abandoned
    ensures forall k :: UpToDate(t, k) || k in t.abandoned
    decreases Work(s)
  {
    if Quiescent(s) {
      forall k
        ensures UpToDate(s, k) || k in s.abandoned
      {
        assert Accounted(s, k);
      }
      return [], s;
    }
    var wait, a := AdvanceOnce(c, s);
    var s1 := Next(c, s, Tick(wait));
    var rest;
    rest, t := ComesToRest(c, Next(c, s1, a));
    actions := RunPrepend(c, s1, a, t, rest);
    actions := RunPrepend(c, s, Tick(wait), t, actions);
  }

  // ---------- back-off ----------

  /** A run in which no report of a failed k reaches the retry loop. */
  ghost predicate Unreported(c: Config, s: State, actions: seq<Action>, k: Key)
    decreases |actions|
  {
    actions == [] || (
      && Enabled(c, s, actions[0]) && (actions[0].Arrive? ==> s.retry[0] != k)
      && Unreported(c, Next(c, s, actions[0]), actions[1..], k))
  }

  /** The time has come, or k waits for it. */
  ghost predicate Waits(s: State, k: Key, time: int)
  {
    time <= s.clock || (k in s.due && time <= s.due[k] && (s.timer.Waiting? || s.timer.key != k))
  }

  lemma WaitsStep(c: Config, s: State, a: Action, k: Key, time: int)
    requires Enabled(c, s, a) && Waits(s, k, time) && (a.Arrive? ==> s.retry[0] != k)
    ensures Waits(Next(c, s, a), k, time)
  {
  }

  lemma {:induction false} WaitsRun(c: Config, s: State, actions: seq<Action>, k: Key, time: int)
    requires Unreported(c, s, actions, k) && Waits(s, k, time)
    ensures Run(c, s, actions).Some? && Waits(Run(c, s, actions).value, k, time)
    decreases |actions|
  {
    if actions != [] {
      WaitsStep(c, s, actions[0], k, time);
      WaitsRun(c, Next(c, s, actions[0]), actions[1..], k, time);
    }
  }

  /** However the goroutines interleave: after a retry has failed with a further interval, or a failed
      key has arrived, the timer cannot take that key up again until the interval has passed, unless
      the key is reported once more. */
  lemma BackoffPasses(c: Config, s: State, a: Action, actions: seq<Action>, k: Key, wait: nat)
    requires Enabled(c, s, a)
    requires if a.TimerFail? then a.next == Some(wait) && k == s.timer.key else a == Arrive(wait) && k == s.retry[0]
    requires Unreported(c, Next(c, s, a), actions, k)
    ensures
      var run := Run(c, Next(c, s, a), actions);
      run.Some? && (Enabled(c, run.value, Fire(k)) ==> s.clock + wait <= run.value.clock)
  {
    WaitsRun(c, Next(c, s, a), actions, k, s.clock + wait);
  }

  // ---------- why handlers of one key must not overlap ----------

  lemma {:induction false} RunAppend(c: Config, s: State, first: seq<Action>, second: seq<Action>)
    requires Run(c, s, first).Some?
    ensures Run(c, s, first + second) == Run(c, Run(c, s, first).value, second)
    decreases |first|
  {
    if first == [] {
      assert first + second == second;
    } else {
      assert (first + second)[1..] == first[1..] + second;
      RunAppend(c, Next(c, s, first[0]), first[1..], second);
    }
  }

  lemma ReachableStep(c: Config, s: State, a: Action)
    requires Reachable(c, s) && Enabled(c, s, a)
    ensures Reachable(c, Next(c, s, a))
  {
    var actions :| Run(c, Initial, actions) == Some(s);
    RunAppend(c, Initial, actions, [a]);
    assert Run(c, Initial, actions + [a]) == Some(Next(c, s, a));
  }

  ghost predicate NothingQueued(s: State)
  {
    && s.collected == [] && s.toEnqueue == [] && s.delta == []
    && s.begun == map[] && s.failed == map[] && s.abandoned == {}
  }

  lemma StoreAndReturn(c: Config, s: State, k: Key, v: Value)
    requires Reachable(c, s) && NothingQueued(s)
    ensures Reachable(c, s.(store := s.store[k := v], toEnqueue := [k]))
  {
    ReachableStep(c, s, Store(k, Some(v)));
    var s1 := Next(c, s, Store(k, Some(v)));
    assert s1.collected == [k] && s1.abandoned == {};
    ReachableStep(c, s1, WatchReturns);
  }

  lemma StoreAndQueue(c: Config, s: State, k: Key, v: Value)
    requires Reachable(c, s) && NothingQueued(s)
    ensures Reachable(c, s.(store := s.store[k := v], delta := [k]))
  {
    StoreAndReturn(c, s, k, v);
    var s1 := s.(store := s.store[k := v], toEnqueue := [k]);
    assert s1.toEnqueue[1..] == [] && s1.delta + [k] == [k];
    ReachableStep(c, s1, Enqueue);
  }

  /** One change of k travels from Watch to a worker, which reads it. */
  lemma Deliver(c: Config, s: State, id: nat, k: Key, v: Value)
    requires !c.exclusive && |s.reading| < c.workers && Reachable(c, s)
    requires NothingQueued(s) && id !in s.reading
    ensures Reachable(c, s.(store := s.store[k := v], reading := s.reading[id := Reading(k, Some(v))]))
  {
    StoreAndQueue(c, s, k, v);
    var s1 := s.(store := s.store[k := v], delta := [k]);
    ReachableStep(c, s1, Spawn(id));
    var s2 := Next(c, s1, Spawn(id));
    ReachableStep(c, s2, Read(id));
    assert s2.begun == map[id := k] && s2.begun - {id} == map[];
  }

  lemma RetryLoopReads(c: Config, s: State, k: Key, v: Value) returns (t: State)
    requires !c.exclusive && Reachable(c, s) && s.timer.Waiting? && s.retry == [k] && s.due == map[]
    requires Lookup(s.store, k) == Some(v)
    ensures Reachable(c, t) && t == s.(retry := [], due := t.due, timer := Holding(k, Some(v)))
    ensures t.due.Keys == {k}
  {
    ReachableStep(c, s, Arrive(0));
    var s1 := Next(c, s, Arrive(0));
    assert s1.retry == [] && s1.due == map[k := s.clock];
    ReachableStep(c, s1, Fire(k));
    var s2 := Next(c, s1, Fire(k));
    ReachableStep(c, s2, TimerRead);
    t := Next(c, s2, TimerRead);
  }

  /** The first change of k is read by a worker whose handler then fails. */
  lemma FirstFails(c: Config, k: Key, v: Value)
    requires !c.exclusive && 1 <= c.workers
    ensures Reachable(c, Initial.(store := map[k := v], failed := map[0 := k]))
  {
    assert Run(c, Initial, []) == Some(Initial);
    Deliver(c, Initial, 0, k, v);
    var s0 := Initial.(store := map[k := v], reading := map[0 := Reading(k, Some(v))]);
    assert s0 == Initial.(store := Initial.store[k := v], reading := Initial.reading[0 := Reading(k, Some(v))]);
    hide Reachable;
    ReachableStep(c, s0, Fail(0, None));
    assert s0.reading - {0} == map[] && Initial.applied - {k} == map[];
  }

  /** A worker reads k, fails, and the retry loop handles k again and reads the same value. */
  lemma RetryHolds(c: Config, k: Key, v: Value) returns (s: State)
    requires !c.exclusive && 1 <= c.workers
    ensures Reachable(c, s) && NothingQueued(s) && s.reading == map[] && s.retry == []
    ensures s.due.Keys == {k} && s.timer == Holding(k, Some(v))
  {
    hide Reachable;
    FirstFails(c, k, v);
    var s1 := Initial.(store := map[k := v], failed := map[0 := k]);
    ReachableStep(c, s1, Send(0));
    var s2 := Next(c, s1, Send(0));
    assert s2.failed == map[] && s2.retry == [k];
    s := RetryLoopReads(c, s2, k, v);
  }

  /** Without that guarantee the retry loop and a single worker are enough to lose an update: the
      retry loop overwrites the value that the worker installed for a later change. The informer is
      at rest, gave up on nothing, and is out of date for good. */
  lemma OverlapLosesUpdate(c: Config, k: Key, v: Value, w: Value)
    requires !c.exclusive && 1 <= c.workers && v != w
    ensures exists s :: Reachable(c, s) && Quiescent(s) && s.abandoned == {} && !UpToDate(s, k)
  {
    var s := RetryHolds(c, k, v);
    Deliver(c, s, 0, k, w);
    var s1 := s.(store := s.store[k := w], reading := s.reading[0 := Reading(k, Some(w))]);
    ReachableStep(c, s1, Install(0));
    var s2 := Next(c, s1, Install(0));
    assert s2.reading == map[];
    ReachableStep(c, s2, TimerInstall);
    var s3 := Next(c, s2, TimerInstall);
    assert s3.due == map[] && s3.applied[k] == v;
  }

  lemma AtRestNothingPends(s: State, k: Key)
    requires Quiescent(s)
    ensures !Pending(s, k)
  {
  }

  /** Every key is accounted for in every reachable state exactly if handlers of one key exclude
      one another. */
  lemma ConvergesIffExclusive(c: Config)
    requires 1 <= c.workers
    ensures (forall s, k :: Reachable(c, s) ==> Accounted(s, k)) <==> c.exclusive
  {
    hide Reachable, Run, Pending, UpToDate, Quiescent;
    if c.exclusive {
      forall s, k | Reachable(c, s)
        ensures Accounted(s, k)
      {
        Convergence(c, s, k);
      }
    } else {
      OverlapLosesUpdate(c, "k", "v", "w");
      var s :| Reachable(c, s) && Quiescent(s) && s.abandoned == {} && !UpToDate(s, "k");
      AtRestNothingPends(s, "k");
      assert !Accounted(s, "k");
    }
  }
}
