/**
 The goroutine of the informer that consumes the retry queue: a select loop that keeps a
 priority queue, a map from keys to queued items, the time the timer was last armed for, and
 the timer itself in step.

 The environment supplies clock readings, handler results and back-off intervals. A timer that
 is reset forgets a fire that was not received yet, as since Go 1.23.
 */
module RetryLoops {
  import opened PriorityQueues
  import opened Wrappers
  import opened Maps

  const DAY := 24 * 3600 * 1_000_000_000

  // ---------- what has happened to the keys ----------

  /** A worker reports a key and the back-off answers `next`, or the timer handles a key. */
  datatype Turn =
    | Reported(key: string, delay: nat, now: int)
    | Handled(key: string, fired: int, ok: bool, next: Option<nat>, now: int)

  /** The due time that the last turn of a key has left it with; None if it is not waiting. */
  ghost function DueAfter(history: seq<Turn>, key: string): Option<int>
  {
    if history == [] then None
    else
      var last := history[|history| - 1];
      if last.key != key then DueAfter(history[..|history| - 1], key)
      else if last.Reported? then Some(last.now + last.delay)
      else if !last.ok && last.next.Some? then Some(last.now + last.next.value)
      else None
  }

  ghost predicate Follows(due: map<string, int>, history: seq<Turn>)
  {
    forall key :: DueAfter(history, key) == if key in due then Some(due[key]) else None
  }

  /** Whenever a key was handled its due time had come. */
  ghost predicate NeverEarly(history: seq<Turn>)
  {
    forall j :: 0 <= j < |history| && history[j].Handled? ==> InTime(history, j)
  }

  ghost predicate InTime(history: seq<Turn>, j: nat)
    requires j < |history| && history[j].Handled?
  {
    var due := DueAfter(history[..j], history[j].key);
    due.Some? && due.value <= history[j].fired
  }

  lemma Recording(due: map<string, int>, history: seq<Turn>, turn: Turn, after: map<string, int>)
    requires Follows(due, history) && NeverEarly(history)
    requires turn.Handled? ==> turn.key in due && due[turn.key] <= turn.fired
    requires after ==
      if turn.Reported? then due[turn.key := turn.now + turn.delay]
      else if !turn.ok && turn.next.Some? then due[turn.key := turn.now + turn.next.value]
      else due - {turn.key}
    ensures Follows(after, history + [turn]) && NeverEarly(history + [turn])
  {
    var n := |history|;
    var h := history + [turn];
    assert h[..n] == history;
    forall j | 0 <= j < |h| && h[j].Handled?
      ensures InTime(h, j)
    {
      if j < n {
        assert h[..j] == history[..j];
        assert InTime(history, j);
      }
    }
  }

  lemma {:induction false} DueStays(history: seq<Turn>, i: nat, j: nat)
    requires i < j <= |history| && forall m :: i < m < j ==> history[m].key != history[i].key
    ensures DueAfter(history[..j], history[i].key) == DueAfter(history[..i + 1], history[i].key)
    decreases j
  {
    if i + 1 < j {
      DueStays(history, i, j - 1);
      assert history[..j][..j - 1] == history[..j - 1];
    }
  }

  /** The timer does not handle a key whose retry failed again before its back-off has passed, nor one
      that a worker has reported. */
  lemma BackoffIsKept(history: seq<Turn>, i: nat, j: nat)
    requires NeverEarly(history) && i < j < |history|
    requires history[j].Handled? && history[j].key == history[i].key
    requires forall m :: i < m < j ==> history[m].key != history[i].key
    ensures history[i].Reported? ==> history[i].now + history[i].delay <= history[j].fired
    ensures history[i].Handled? ==>
      !history[i].ok && history[i].next.Some? && history[i].now + history[i].next.value <= history[j].fired
  {
    assert InTime(history, j);
    DueStays(history, i, j);
    assert history[..i + 1][..i] == history[..i];
  }

  /** `key` is one of the keys that are due first. */
  ghost predicate IsEarliest(due: map<string, int>, key: string)
  {
    key in due && forall k :: k in due ==> due[key] <= due[k]
  }

  class RetryLoop {
    const queue: PriorityQueue
    const lag: nat  // bound on the time that passes between reading the clock and arming the timer
    var items: map<string, Item>
    var expiredTime: int
    var deadline: int  // when the armed timer fires
    ghost var due: map<string, int>  // the abstract state: when each queued key is due
    ghost var history: seq<Turn>

    /** The map files every item under the key it stands for, and `due` is up to date. */
    ghost predicate Filed()
      reads `items, `due, items.Values
    {
      && items.Keys == due.Keys
      && forall k :: k in items ==> items[k].value == k && items[k].priority == due[k]
    }

    /** The map and the queue hold the same items, one per key. */
    ghost predicate Synced()
      reads `items, `due, queue, items.Values, queue.Items()
    {
      queue.Valid() && Filed() && queue.Items() == items.Values
    }

    /** The same while the timer branch has taken `item` off the queue. */
    ghost predicate SyncedWithout(item: Item)
      reads `items, `due, queue, items.Values, queue.Items()
    {
      queue.Valid() && Filed() && item in items.Values && queue.Items() == items.Values - {item}
    }

    /** The due times are what the turns so far have made them, and no turn came early. */
    ghost predicate Recorded()
      reads `due, `history
    {
      Follows(due, history) && NeverEarly(history)
    }

    /** The timer is armed for the root, never early and at most `lag` late. */
    ghost predicate Armed()
      reads `items, `due, `expiredTime, `deadline, queue, items.Values, queue.Items()
    {
      && Synced()
      && (queue.pq != [] ==> expiredTime == queue.pq[0].priority)
      && expiredTime <= deadline <= expiredTime + lag
    }

    ghost predicate Valid()
      reads this, queue, items.Values, queue.Items()
    {
      Armed() && Recorded()
    }

    constructor (now: int, armed: int, lag: nat)
      requires now <= armed <= now + lag
      ensures Valid() && fresh(queue) && due == map[] && history == [] && this.lag == lag
      ensures deadline == armed + 24 * 3600 * 1_000_000_000
    {
      queue := new PriorityQueue();
      this.lag := lag;
      items, due, history := map[], map[], [];
      expiredTime := now + DAY;
      deadline := armed + DAY;
    }

    lemma QueueMirrorsDue()
      requires Synced()
      ensures queue.pq == [] <==> due == map[]
      ensures queue.pq != [] ==> IsEarliest(due, queue.pq[0].value) && due[queue.pq[0].value] == queue.pq[0].priority
    {
      assert forall k :: k in items ==> items[k] in queue.Items();
      assert queue.pq != [] ==> queue.pq[0] in items.Values;
      if queue.pq != [] {
        queue.RootIsDue();
      }
    }

    /** The timer is armed for the earliest due key, whatever happened before. */
    lemma ArmedForEarliest(key: string)
      requires Valid() && IsEarliest(due, key)
      ensures due[key] <= deadline <= due[key] + lag
    {
      QueueMirrorsDue();
    }

    /** Adds an item for a key that is not queued. */
    method Insert(key: string, time: int)
      requires Synced() && key !in items
      modifies this`items, this`due, queue, items.Values
      ensures Synced() && fresh(items.Values - old(items.Values))
      ensures due == old(due)[key := time]
    {
      var item := new Item(key, time);
      ValuesAfterInsert(items, key, item);
      items, due := items[key := item], due[key := time];
      queue.Push(item);
    }

    method Reschedule(key: string, time: int)
      requires Synced() && key in items
      modifies this`due, queue, items.Values
      ensures Synced()
      ensures due == old(due)[key := time]
    {
      due := due[key := time];
      assert items[key] in items.Values;
      queue.Update(items[key], key, time);
    }

    method TakeEarliest() returns (item: Item)
      requires Synced() && queue.pq != []
      modifies queue, queue.Items()`index
      ensures SyncedWithout(item)
      ensures IsEarliest(due, item.value) && due[item.value] == item.priority
    {
      QueueMirrorsDue();
      item := queue.Pop();
    }

    /** Puts the item that the timer branch took off the queue back. */
    method Requeue(item: Item, time: int)
      requires SyncedWithout(item)
      modifies this`due, queue, items.Values
      ensures Synced()
      ensures due == old(due)[item.value := time]
    {
      due := due[item.value := time];
      item.priority := time;
      queue.Push(item);
    }

    /** Drops the item that the timer branch took off the queue. */
    method Forget(item: Item)
      requires SyncedWithout(item)
      modifies this`items, this`due
      ensures Synced() && items.Values <= old(items.Values)
      ensures due == old(due) - {item.value}
    {
      ValuesAfterRemove(items, item.value);
      items, due := items - {item.value}, due - {item.value};
    }

    method Settle(item: Item, ok: bool, next: Option<nat>, now: int)
      requires SyncedWithout(item)
      modifies this`items, this`due, queue, items.Values
      ensures Synced() && items.Values <= old(items.Values)
      ensures var key := old(item.value);
              due == if !ok && next.Some? then old(due)[key := now + next.value] else old(due) - {key}
    {
      if !ok && next.Some? {
        Requeue(item, now + next.value);
      } else {
        Forget(item);
      }
    }

    /** Arms the timer for the root, or for a day if nothing is queued. */
    method Arm(now: int, until: int, armed: int)
      requires Synced() && now <= until <= armed <= now + lag
      modifies this`expiredTime, this`deadline
      ensures Armed() && (queue.pq == [] ==> deadline == armed + 24 * 3600 * 1_000_000_000)
    {
      if |queue.pq| == 0 {
        expiredTime := now + DAY;
        deadline := armed + DAY;
      } else {
        expiredTime := queue.pq[0].priority;
        deadline := armed + (expiredTime - until);
      }
    }

    /** Arms the timer again if the earliest due time is not the one it is armed for. */
    method ArmIfChanged(now: int, until: int, armed: int)
      requires Synced() && due != map[] && now <= until <= armed <= now + lag
      requires expiredTime <= deadline <= expiredTime + lag
      modifies this`expiredTime, this`deadline
      ensures Armed()
    {
      QueueMirrorsDue();
      if queue.pq[0].priority != expiredTime {
        Arm(now, until, armed);
      }
    }

    /** Queues a key, new or known, and arms the timer for it if it is the first one now. */
    method Enqueue(key: string, time: int, now: int, until: int, armed: int)
      requires Armed() && now <= until <= armed <= now + lag
      modifies this`items, this`due, this`expiredTime, this`deadline, queue, items.Values
      ensures Armed() && fresh(items.Values - old(items.Values))
      ensures due == old(due)[key := time]
    {
      if key !in items {
        Insert(key, time);
      } else {
        Reschedule(key, time);
      }
      assert key in due;
      ArmIfChanged(now, until, armed);
    }

    /** Handles an earliest key, if there is one, and arms the timer for the next. */
    method HandleEarliest(ok: bool, next: Option<nat>, now: int, until: int, armed: int)
      returns (handled: Option<string>)
      requires Armed() && now <= until <= armed <= now + lag
      modifies this`items, this`due, this`expiredTime, this`deadline, queue, items.Values
      ensures Armed() && items.Values <= old(items.Values)
      ensures handled == None ==> old(due) == map[] == due
      ensures handled.Some? ==>
        && IsEarliest(old(due), handled.value) && old(due)[handled.value] <= old(deadline)
        && due == if !ok && next.Some? then old(due)[handled.value := now + next.value]
                  else old(due) - {handled.value}
      ensures due == map[] ==> deadline == armed + 24 * 3600 * 1_000_000_000
    {
      QueueMirrorsDue();
      if |queue.pq| == 0 {
        Arm(now, until, armed);
        return None;
      }
      var item := TakeEarliest();
      handled := Some(item.value);
      Settle(item, ok, next, now);
      QueueMirrorsDue();
      Arm(now, until, armed);
    }

    ghost method Record(turn: Turn, was: map<string, int>)
      requires Armed() && Follows(was, history) && NeverEarly(history)
      requires turn.Handled? ==> turn.key in was && was[turn.key] <= turn.fired
      requires due ==
        if turn.Reported? then was[turn.key := turn.now + turn.delay]
        else if !turn.ok && turn.next.Some? then was[turn.key := turn.now + turn.next.value]
        else was - {turn.key}
      modifies `history
      ensures Valid() && history == old(history) + [turn]
    {
      hide Armed, Follows, NeverEarly;
      Recording(was, history, turn, due);
      history := history + [turn];
      assert unchanged(queue) && unchanged(items.Values) && unchanged(queue.Items());
      assert Armed() == old(Armed());
    }

    /** A worker reports that handling `key` failed. */
    method OnRetry(key: string, next: nat, now: int, until: int, armed: int)
      requires Valid() && now <= until <= armed <= now + lag
      modifies this, queue, items.Values
      ensures Valid() && fresh(items.Values - old(items.Values))
      ensures due == old(due)[key := now + next]
      ensures history == old(history) + [Reported(key, next, now)]
    {
      hide Armed, Follows, NeverEarly;
      Enqueue(key, now + next, now, until, armed);
      Record(Reported(key, next, now), old(due));
    }

    /** The timer fires at time `fired`; `ok` and `next` are the handler's and the back-off's answers. If
        nothing waits any more it is armed for a day. */
    method OnTimer(fired: int, ok: bool, next: Option<nat>, now: int, until: int, armed: int)
      returns (handled: Option<string>)
      requires Valid() && deadline <= fired <= now <= until <= armed <= now + lag
      modifies this, queue, items.Values
      ensures Valid() && items.Values <= old(items.Values)
      ensures handled == None ==> old(due) == map[] == due && history == old(history)
      ensures handled.Some? ==>
        && IsEarliest(old(due), handled.value) && old(due)[handled.value] <= fired
        && due == (if !ok && next.Some? then old(due)[handled.value := now + next.value]
                   else old(due) - {handled.value})
        && history == old(history) + [Handled(handled.value, fired, ok, next, now)]
      ensures due == map[] ==> deadline == armed + 24 * 3600 * 1_000_000_000
    {
      hide Armed, Follows, NeverEarly;
      handled := HandleEarliest(ok, next, now, until, armed);
      if handled.Some? {
        Record(Handled(handled.value, fired, ok, next, now), old(due));
      }
    }
  }
}
