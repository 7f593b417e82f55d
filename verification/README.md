# EventBridge: a verified model of its control loops

EventBridge routes events: a service stores buses, rules and schemas, and a job consumes events from
message queues, matches them against rules, transforms them for each target and dispatches the
results. This project models the parts of it that are hard to get right, and proves what they keep.

| file | module | what it models |
|---|---|---|
| `PriorityQueue.dfy` | `PriorityQueues` | the indexed binary heap of the retry loop, on shared items updated in place |
| `RetryLoop.dfy` | `RetryLoops` | the retry loop: heap, item table, remembered deadline and timer |
| `Informer.dfy` | `Informers` | the whole informer as interleaved steps of watcher, workers and retry loop |
| `Reflector.dfy` | `Reflectors` | paged reading of a table, and the snapshot diff of the reflectors |
| `Rules.dfy` | `Rules` | the copy-on-write table of rule executors |
| `RuleTargets.dfy` | `RuleTargets` | the targets of a rule, and what serving them in an order does |
| `UpdateResult.dfy` | `UpdateResults` | what an update has to close, and when its result can be trusted |
| `Executor.dfy` | `Executors` | the executor of a rule: updating and closing it, under partial failure |
| `Buses.dfy` | `Buses` | producers and consumers of a bus, replaced when its configuration changes |
| `SchemaCache.dfy` | `SchemaCaches` | the schema cache: readers and writers ordered by a compare-and-set on the row version |
| `Json.dfy` | `Events` | JSON values, and looking up a field of an event |
| `Operators.dfy` | `Operators` | the match operators, `anything-but` with its nesting among them |
| `Reorder.dfy` | `Reorderings` | the orders in which the objects of a pattern can be ranged over, at every level |
| `PatternPaths.dfy` | `PatternPaths` | the memory behind the field paths that compiled patterns hold |
| `Pattern.dfy` | `Patterns` | the pattern compiler and the matcher it yields |
| `MatchLaws.dfy` | `MatchLaws` | what compiled patterns with one or two keys accept, said of the event's own fields |
| `PatternCollision.dfy` | `PatternCollisions` | what overwritten paths do to a match |
| `Template.dfy` | `Templates` | the template tokenizer and renderer |
| `Delivery.dfy` | `Delivery` | delivering one event, acknowledging it, and the retry schedule |
| `Receive.dfy` | `Receivers` | the bounded-concurrency receive loop |
| `Wrappers.dfy` | `Wrappers`, `Maps`, `Listings` | an option type, facts about maps, and orders of sets |

Go's maps are ranged over in any order. Methods choose the next key by `:|`, or take the order as a
parameter where the result depends on it; what is proved about them holds for every choice. Parallel
tasks run in any order, and steps of different goroutines interleave freely where the module says
so. What the program cannot see (clocks, delays, whether a query, a constructor or an
acknowledgement works, what a handler returns) is a parameter, so every result holds for all of it.

The code does not keep every property one would expect. Where it does not, a lemma or method gives
the input, and the exact condition is proved:

* every key is accounted for in every reachable state of the informer exactly if two handlers of one
  key never overlap, which the source does not prevent: one worker and the retry loop are enough to
  leave an old value applied (`Informers.ConvergesIffExclusive`, `Informers.OverlapLosesUpdate`);
* when writing stops, the schema cache becomes current exactly if no client is about to store another
  row (`SchemaCaches.EndsCurrentIffSettled`); a slow reader and a slow writer get there
  (`SlowReaderRestoresOldRow`, `SlowWriterRestoresDeletedRow`);
* all paths of a pattern stay intact exactly if it is safe (`PatternPaths.IntactInEveryOrderIffSafe`);
  two siblings on the fourth level overwrite each other's path and the matcher rejects the event it
  was written for (`FourthLevelSiblingsCollide`, `PatternCollisions.CollisionRejects`);
* a failed factory leaves a target that no number of retries repairs, while every retry in a working
  environment reports success (`Executors.Executor.RetriesDoNotRepair`); an update leaves the executor
  as the rule says exactly if the pattern parses and all targets end whole, which is said of the state
  before it (`Executors.Executor.Update`, `RuleTargets.EndsWholeIfAllBuild`);
* an update crashes, and loses dispatchers, exactly if it drops a target without a dispatcher
  (`Executors.Executor.Update`), which is what a failed factory leaves behind (`FailedTargetCrashesLater`);
* the result of an update says whether the executor is now what the rule says, in every order, exactly
  under a condition on the state before it (`UpdateResults.HonestIffTrustworthy`); a failure can be
  reported as success (`Executors.Executor.FailureLooksLikeSuccess`), and so can the retry after it;
* a creation that fails leaves dispatchers open exactly if the pattern parses and the first target
  served does not fail (`Executors.Executor.NewExecutor`);
* a rule with a colon in its bus or name is never removed (`Rules.ColonsStay`, exact over runs);
* deleting a bus leaves exactly its two target consumers open (`Buses.Buses.DeleteBus`);
* an update of a bus stops at the first role that needs a handle and cannot open it, and leaves handles
  open exactly if a role before it needed one (`Buses.Buses.UpdateBus`);
* compiling a pattern panics exactly if the first thing in it that cannot be compiled is a list inside
  a list, or an operator that panics in its turn (`Patterns.NewMatcher`, `Operators.New`), as with
  `Patterns.PanickingPattern`; whether it does in some order of the objects is decided by
  `Patterns.PanicsInSomeOrder`;
* a `Watch` that fails after it has seen a version hides that version's change, and it fails exactly
  if a row does not parse or one of the pages does not arrive (`Reflectors.Reflector.Watch`);
* a matcher crashes on a field that cannot be a map key, exactly as said by `Operators.LookUp`,
  `Operators.Run` and `Patterns.Pattern` for a given order; it does in some order exactly if one of its
  leaves crashes (`Patterns.CrashesInSomeOrder`);
* the tokenizer crashes exactly on templates that start with a known variable, and on templates
  without a fault that end in a dollar sign (`Templates.Tokenize`).

## Model

| member | source | states |
|---|---|---|
| PriorityQueues.PriorityQueue.Swap | app/internal/informer/priority_queue.go:28-32 | exactly two items change places, and every item's index is its position afterwards |
| PriorityQueues.PriorityQueue.Up | app/internal/informer/priority_queue.go:24-32 | sifting up over the repository's Less and Swap restores the heap when only one item is too early for its place |
| PriorityQueues.PriorityQueue.Down | app/internal/informer/priority_queue.go:24-32 | sifting down restores the heap, or reports that nothing moved and nothing below is out of order; what lies beyond n stays |
| PriorityQueues.PriorityQueue.Push | app/internal/informer/priority_queue.go:34-39 | heap.Push keeps the heap and all indices, and adds exactly the item |
| PriorityQueues.PriorityQueue.TakeLast | app/internal/informer/priority_queue.go:41-50 | the repository's Pop takes the last item off, whose index becomes -1, and keeps the heap |
| PriorityQueues.PriorityQueue.Pop | app/internal/informer/priority_queue.go:28-50 | heap.Pop keeps both and removes exactly the root, whose index becomes -1 |
| PriorityQueues.PriorityQueue.Fix | app/internal/informer/priority_queue.go:52-56 | heap.Fix restores the heap after one priority changed either way, keeping the items |
| PriorityQueues.PriorityQueue.Update | app/internal/informer/priority_queue.go:52-56 | changing an item in place keeps the heap, the indices and the set of items |
| PriorityQueues.PriorityQueue.RootIsDue | app/internal/informer/priority_queue.go:22-56 | no item is due before the root |
| PriorityQueues.RootIsMinimal | app/internal/informer/priority_queue.go:22-56 | the same of any sequence with heap order |
| RetryLoops.RetryLoop.QueueMirrorsDue | app/internal/informer/informer.go:110-199 | items, heap and due times hold the same keys, and the root is an earliest one |
| RetryLoops.RetryLoop.ArmedForEarliest | app/internal/informer/informer.go:113-197 | the timer fires at or after the earliest due time, and at most the arming lag after it |
| RetryLoops.RetryLoop.OnRetry | app/internal/informer/informer.go:118-151 | a failed key, new or known, becomes due after its back-off, counted from now; nothing else changes, and all structures stay in step |
| RetryLoops.RetryLoop.OnTimer | app/internal/informer/informer.go:152-198 | the timer handles a key whose due time has come and before which no other is due; if that fails the key is due again after the interval the back-off then gives, counted from now, and on success, or when the back-off stops, it is gone; with nothing left the timer is armed for a day |
| RetryLoops.RetryLoop.Reschedule | app/internal/informer/informer.go:143-147 | a key that fails again while queued gets a new due time in place |
| RetryLoops.RetryLoop.Settle | app/internal/informer/informer.go:161-188 | after a retry the key is gone on success or when the back-off stops, and otherwise due again after the next interval |
| RetryLoops.BackoffIsKept | app/internal/informer/informer.go:137-188 | over a whole run of the loop, the timer never handles a key before the back-off that its last turn was given has passed, be it reported by a worker or failed again in a retry |
| RetryLoops.Recording | app/internal/informer/informer.go:118-198 | the due times are at every moment what the last turn of each key has left, and this history never contains an early turn |
| Informers.Convergence | app/internal/informer/informer.go:92-239 | in every reachable state each key is pending somewhere, or what is applied is what is stored, value or absence, or abandoned after its back-off stopped, if handlers of one key do not overlap |
| Informers.InvRun | app/internal/informer/informer.go:92-239 | the invariant behind it holds over every run |
| Informers.AccountedStep | app/internal/informer/informer.go:92-239 | no single step loses a key |
| Informers.HeldAreFreshStep | app/internal/informer/informer.go:97-101 | what a running handler has read is current, or a later read is sure to come |
| Informers.Progress | app/internal/informer/informer.go:94-239 | unless everything is at rest, some step towards rest is possible, after waiting for a timer if need be, for queues of any size |
| Informers.AdvancingUsesWork | app/internal/informer/informer.go:94-239 | every such step uses up work, so the informer cannot do this forever |
| Informers.ComesToRest | app/internal/informer/informer.go:92-239 | from every state with the invariant a run ends at rest, with every key applied as stored or abandoned |
| Informers.BackoffPasses | app/internal/informer/informer.go:118-188 | in every interleaving, the timer does not take up a key again before the interval that a failed retry, or its arrival, has given it has passed, unless it is reported once more |
| Informers.OverlapLosesUpdate | app/internal/informer/informer.go:95-104 | with overlapping handlers of one key, one worker and the retry loop reach a state at rest, nothing abandoned, with an old value applied |
| Informers.ConvergesIffExclusive | app/internal/informer/informer.go:92-239 | for every number of workers and all queue sizes, every key is accounted for in every reachable state exactly if handlers of one key do not overlap |
| Reflectors.Fetch | app/job/internal/data/bus.go:193-253 | returns every row's key and value once and in order; it succeeds exactly if all rows parse and the pages they take arrive |
| Reflectors.HundredPerPage | app/job/internal/data/bus.go:193-232 | the fetch needs every row to parse, the first page to arrive, and every further page of a hundred that begins with a row |
| Reflectors.PageAt | app/job/internal/data/bus.go:213-224 | one more row than the page tells whether there is a next page and where it starts; the end marker 0 is never such a start |
| Reflectors.ParsePage | app/job/internal/data/rules.go:159-172 | a page is parsed in order, and fails exactly if one of its rows is malformed |
| Reflectors.Reflector.StoreChanged | app/job/internal/data/bus.go:128-134 | new and changed keys, and no others, are stored and reported |
| Reflectors.Reflector.DeleteGone | app/job/internal/data/bus.go:135-140 | keys that are gone are removed and reported |
| Reflectors.Reflector.Watch | app/job/internal/data/bus.go:112-143 | on success the store has, for each key, the value of the last row of that key, and no others, one entry per row if the keys differ, and exactly the keys whose value changed are returned, each once; on failure only the version moves; it succeeds exactly if the fetch does |
| Rules.SplitKey | app/internal/rule/rule.go:632-636 | a key splits back into bus and name exactly if neither holds a colon |
| Rules.DeletingMeans | app/internal/rule/rule.go:631-656 | a deletion takes out exactly the rule whose colon-free names its key joins, and any other key changes nothing |
| Rules.UpdatingMeans | app/internal/rule/rule.go:591-629 | an update adds an executor for a rule that has none, and leaves the others as they are |
| Rules.TableFollowsSteps | app/internal/rule/rule.go:584-683 | over every run an executor exists for colon-free names exactly if one could be created since its key was last handled as gone, whatever happens to other rules |
| Rules.TableFollowsReflector | app/internal/rule/rule.go:584-683 | if the creations for its key succeed, exactly if the last value handled for the key was present |
| Rules.ColonsStay | app/internal/rule/rule.go:631-635 | over every run a rule with a colon in its names has an executor exactly if it ever got one |
| Rules.RuleTable.Handle | app/internal/rule/rule.go:677-683 | one step changes the table as specified, closes an executor it drops exactly once, and changes no map that was ever handed out |
| Rules.RuleTable.GetExecutors | app/internal/rule/rule.go:584-589 | gives the current bindings of a bus, as a map that is never changed again |
| Rules.RuleTable.UpdateRule | app/internal/rule/rule.go:591-629 | adds an executor, or has the present one updated; a failure changes nothing |
| Rules.RuleTable.DeleteRule | app/internal/rule/rule.go:631-656 | drops the executor of a well-formed key, and reports a malformed one |
| RuleTargets.LastDuplicateWins | app/internal/rule/rule.go:412-415 | a target without a later one of the same id is the one that counts |
| RuleTargets.AllBuildMeans | app/internal/rule/rule.go:464-499 | every factory that is called succeeds exactly if both do for each target that is new or not as it was |
| RuleTargets.EndsWholeIfAllBuild | app/internal/rule/rule.go:464-501 | if every factory that is called succeeds, all targets end whole exactly if those that are not served were whole before |
| RuleTargets.EndsWholeFromAgreed | app/internal/rule/rule.go:464-501 | from a state in which everything agrees, all targets end whole exactly if every factory that is called succeeds |
| Executors.Executor.Update | app/internal/rule/rule.go:408-502 | from every valid state, the executor becomes what the rule says exactly if the pattern parses and all targets end whole, and from an agreed one exactly if every factory that is called succeeds; a changed pattern that is empty or refused by the parser fails and leaves everything alone; unchanged targets keep their transformer and dispatcher, dropped ones are gone; each dispatcher ever created is in use or closed exactly once, except for those left over by a crash, which happens exactly if a target without a dispatcher is dropped; the result is a function of the state before, the environment and the orders; repeating an update creates and closes nothing and reports success |
| Executors.Executor.Replace | app/internal/rule/rule.go:430-501 | the same of the targets alone: whole afterwards are those that were kept whole and those that were built, the first that fails is recorded with the dispatcher it had, the rest is as it was |
| Executors.Executor.ServeAll | app/internal/rule/rule.go:464-501 | serving in an order does, target by target, what the specification says: up to the first that fails changed ones are rebuilt and their old dispatchers put aside, that one is recorded, the rest is left alone |
| Executors.Executor.Serve | app/internal/rule/rule.go:465-499 | the target is recorded before its factories are called; its old dispatcher is put aside for closing only when the new one exists |
| Executors.Executor.DropAll | app/internal/rule/rule.go:454-463 | targets the rule no longer has are dropped from all three maps, and their dispatchers are put aside in order, missing ones as missing |
| Executors.Executor.CloseAll | app/internal/rule/rule.go:433-448 | dispatchers are closed one after the other up to the first missing one; what follows it is not closed |
| Executors.Executor.Close | app/internal/rule/rule.go:383-406 | every dispatcher ever created is then closed exactly once, and an error is reported exactly if one of those in use did not close cleanly |
| Executors.LostStayOpen | app/internal/rule/rule.go:433-448 | what a crash leaves over is in no map any more and was never closed |
| Executors.Executor.NewExecutor | app/internal/rule/rule.go:157-192 | the first update of a new executor succeeds exactly if it is what the rule says, and closes nothing; something has been created, and stays open if it failed, exactly if the pattern parses and the first target served does not fail |
| Executors.Executor.RetriesDoNotRepair | app/internal/rule/rule.go:464-501 | after a factory has failed on a target that was not built already, or if a kept target was not whole, the executor is not what the rule says after any number of further updates with the rule, whatever the factories do, and each of them reports success once everything works |
| Executors.Executor.FailedTargetCrashesLater | app/internal/rule/rule.go:453-463 | for all rules, a new target whose factory fails brings down the update that drops it, in every order |
| Executors.Executor.FailureLooksLikeSuccess | app/internal/rule/rule.go:433-448 | a failed factory is reported as success if the update drops a target and closing works |
| Executors.Executor.UpdateTellsTruth | app/internal/rule/rule.go:408-502 | from every valid state that meets the condition, the result says whether the executor became what the rule says |
| UpdateResults.CrashesIffMissing | app/internal/rule/rule.go:433-463 | in every order an update crashes exactly if a target without a dispatcher is dropped |
| UpdateResults.HonestIffTrustworthy | app/internal/rule/rule.go:433-501 | the result says, in every order, whether all targets are in place and whole exactly if: when everything can be built, the kept targets are whole just if all that is closed closes cleanly; when something cannot, some dropped dispatcher does not close cleanly or, if nothing is dropped, none that could be replaced does; when the only failure is one that does no harm if it comes last, it is covered by a clean close then and only then; and a crash never leaves the targets whole |
| UpdateResults.DishonestOrder | app/internal/rule/rule.go:433-501 | where the condition fails, an order in which the result is wrong |
| UpdateResults.NothingReplaced | app/internal/rule/rule.go:464-501 | if nothing is dropped and no changed target has a dispatcher, nothing is closed, and the result tells the truth exactly unless everything can be built and a kept target is not whole |
| UpdateResults.FailsFirst | app/internal/rule/rule.go:464-501 | if nothing is dropped and the failing target comes first, the failure is reported |
| UpdateResults.ReplacesOne | app/internal/rule/rule.go:464-501 | if a target that can be replaced comes before it, and closes cleanly, it is not |
| Buses.Buses.UpdateBus | app/job/internal/data/bus.go:391-576 | succeeds exactly if every handle that is needed can be opened; then each role has an open handle for the topic of its field of the configuration, consumers in the bus's mode, a role has the handle it had exactly if its topic and, for consumers, the mode are the same, and every handle given up was closed once; otherwise it stops at the first role that is blocked, the table is as it was, the handles opened are those the roles before it needed, and something stays open exactly if one of them needed one |
| Buses.Buses.ChooseAll | app/job/internal/data/bus.go:456-567 | each role keeps its handle if topic and, for consumers, mode are unchanged, and opens one otherwise, up to the first role that is blocked; what has been opened is exactly what the roles before it needed, in order |
| Buses.Buses.Open | app/job/internal/data/bus.go:578-609 | a handle is opened for its purpose if the kind of queue is supported and the queue is up |
| Buses.Purposes | app/job/internal/data/bus.go:391-427 | the producers are opened for the two retry topics, the four consumers for the four topics of the bus in its mode |
| Buses.KeepsUnchanged | app/job/internal/data/bus.go:456-567 | a handle is kept exactly if its topic and, for a consumer, the mode are the same |
| Buses.Openable | app/job/internal/data/bus.go:578-609 | which topic decides, role by role, whether the handle can be opened |
| Buses.Buses.DeleteBus | app/job/internal/data/bus.go:611-632 | the bus is gone, its two producers and its two source consumers are closed once, and its two target consumers stay open |
| Buses.Buses.Send | app/job/internal/data/bus.go:319-335 | an event goes to the open producer of the retry topic that its strategy selects, of the bus it names |
| SchemaCaches.CasKeepsNewest | app/service/internal/data/cas.lua:1-12 | after the script no cached version is lower than the one offered or the one before; a row that is taken is served until it expires, and one that is not changes nothing |
| SchemaCaches.Redis.SetCacheSchema | app/service/internal/data/event.go:300-313 | a missing row counts as version 0 |
| SchemaCaches.Redis.FetchSchema | app/service/internal/data/event.go:232-279 | a reader gets the cached entry or the row, whatever is served right afterwards is what it got, and the cached version never falls |
| SchemaCaches.Redis.Del | app/service/internal/data/event.go:457-467 | after a deletion nothing is served, and a row of any version can be stored again |
| SchemaCaches.InvRun | app/service/internal/data/event.go:232-444 | over every interleaving of readers and writers cached value and version belong together and come from the table |
| SchemaCaches.HitsAreGenuine | app/service/internal/data/event.go:232-313 | every hit is a row that was committed, or not found as version 0 |
| SchemaCaches.HitsAreCurrentOrOlder | app/service/internal/data/event.go:232-313 | while the row is not deleted, a hit is the current row or one of a lower version |
| SchemaCaches.VersionsOnlyGrow | app/service/internal/data/cas.lua:1-12 | between expiries the entry is replaced only by one of a higher version |
| SchemaCaches.NotFoundNeverReplacesFound | app/service/internal/data/cas.lua:1-12 | once a row's version is cached, hits are rows of that version or higher until the version key expires |
| SchemaCaches.NeverOlderThanSet | app/service/internal/data/cas.lua:1-12 | after a compare-and-set with version n every hit has version n or higher until the entry expires |
| SchemaCaches.CatchesUp | app/service/internal/data/event.go:232-313 | once writers are done and old readers have gone, hits after nine seconds, the longest lifetime, are the current row |
| SchemaCaches.EndsCurrentIffSettled | app/service/internal/data/event.go:232-470 | from every reachable state, all late hits of all runs without further writes are current exactly if no client is about to store another row |
| SchemaCaches.SlowReaderRestoresOldRow | app/service/internal/data/event.go:264-268 | after an expiry a reader that waited can store an old row |
| SchemaCaches.SlowWriterRestoresDeletedRow | app/service/internal/data/event.go:425-441 | after a deletion a writer that waited can store the deleted row |
| Events.GetFieldByPath | app/internal/rule/event.go:158-224 | the loop over the path gives what looking the field up step by step gives; each of the seven names selects the event's field of that name, any other is absent, malformed data is an error, and more keys lead into the data only |
| Events.WalkOn | app/internal/rule/event.go:202-223 | below the data every further key is one step from where the keys before it have led |
| Events.ObjectStep | app/internal/rule/event.go:204-209 | a key of an object selects its value, another one is absent |
| Events.ListStep | app/internal/rule/event.go:210-218 | the decimal text of an index selects that item of a list, beyond the end nothing is there, and the text of a negative number panics |
| Events.DecimalReadsBack | app/internal/rule/event.go:166-168 | a number is written with its decimal digits and read back as the same number |
| Operators.New | app/internal/rule/pattern/pattern.go:105-114 | an operator is built exactly if its specification is well-formed, and then decides what the operator means; it panics instead of being rejected exactly if the first thing in it that is not well-formed is a list inside a list or an operator that panics |
| Operators.NewNumeric | app/internal/rule/pattern/numeric.go:16-78 | comparisons are read in pairs, and all of them must hold |
| Operators.NewAnythingBut | app/internal/rule/pattern/anything_but.go:14-145 | the function that is built decides the stated negation, for every nested specification; the panic is exact |
| Operators.NewButList | app/internal/rule/pattern/anything_but.go:20-90 | the list form holds exactly if no listed value equals or overlaps the field and there are no operators or all specifications of some operator name fail; it panics exactly if the first bad item is a list or its first bad operator panics |
| Operators.AddAll | app/internal/rule/pattern/anything_but.go:98-120 | operators are grouped by name, none lost, in whatever order the maps are ranged over; the first that cannot be built decides between rejection and panic |
| Operators.SomeGroupHoldsNone | app/internal/rule/pattern/anything_but.go:71-89 | trying the groups in a given order finds out whether all functions of some group fail, and crashes exactly if a group crashes before one is reached that settles it |
| Operators.LookUp | app/internal/rule/pattern/anything_but.go:53-65 | a list or single field is looked up among the listed values; it crashes exactly on an object, and on a list in which an element that cannot be a map key comes before any listed one |
| Operators.Run | app/internal/rule/pattern/anything_but.go:52-90 | running a built function in a given order crashes exactly when that is said to happen, and otherwise gives its meaning, whatever the order |
| Operators.TameNeverCrashes | app/internal/rule/pattern/anything_but.go:52-90 | no function crashes on scalars and lists of scalars, in any order |
| Operators.ButNegates | app/internal/rule/pattern/anything_but.go:91-141 | anything-but around one operator is its negation |
| Operators.ButTwiceIsEquality | app/internal/rule/pattern/anything_but.go:16-19 | anything-but twice around a scalar is equality with it |
| PatternPaths.Append | app/internal/rule/pattern/pattern.go:169-169 | append gives the path with the key added |
| PatternPaths.AppendShares | app/internal/rule/pattern/pattern.go:169-169 | the new slice shares memory exactly if there is room, and then only the next cell is overwritten |
| PatternPaths.Growth | app/internal/rule/pattern/pattern.go:169-169 | a full block is doubled below 256, and grows by a quarter and 192 beyond |
| PatternPaths.Layout | app/internal/rule/pattern/pattern.go:166-174 | compiling keeps what was readable before, and gives each leaf a slice in memory |
| PatternPaths.IntactIffSafe | app/internal/rule/pattern/pattern.go:166-174 | for one order of the keys, all paths are intact at the end exactly if no earlier sibling's leaf lies in a block a later sibling writes to |
| PatternPaths.IntactInEveryOrderIffSafe | app/internal/rule/pattern/pattern.go:166-174 | all paths are intact in every order of the keys exactly if the pattern is safe |
| PatternPaths.NarrowIsSafe | app/internal/rule/pattern/pattern.go:66-66 | a pattern whose nodes at path length 3 or more have at most one key is safe |
| PatternPaths.FourthLevelSiblingsCollide | app/internal/rule/pattern/pattern.go:169-169 | two sibling keys at the fourth level overwrite each other's path |
| Patterns.OrderIsIrrelevant | app/internal/rule/pattern/pattern.go:104-105 | the meaning of a pattern, whether it can be compiled and which lookups are risky do not depend on the order of its keys, nor on that of the operators in its lists and inside anything-but |
| Reorderings.OpInAnyOrder | app/internal/rule/pattern/anything_but.go:14-145 | what an operator accepts does not depend on the order of any object inside its specification |
| Reorderings.GoodInAnyOrder | app/internal/rule/pattern/anything_but.go:14-145 | nor does it depend on it whether the operator can be compiled |
| Patterns.NewMatcher | app/internal/rule/pattern/pattern.go:48-74 | a matcher is built exactly for a well-formed pattern, and compiling panics exactly if the first thing that is not well-formed makes it; the matcher decides the pattern's meaning if the order is safe, and rejects everything for the empty pattern |
| MatchLaws.Refused | app/internal/rule/pattern/pattern.go:77-110 | null and truth values, and operators other than the six, are refused |
| Patterns.PanickingPattern | app/internal/rule/pattern/pattern.go:98-103 | for every key and every inner list, a pattern that panics, and two with the same list in them that do not |
| Patterns.PanicsInSomeOrder | app/internal/rule/pattern/pattern.go:95-117 | compiling panics in some order of the objects exactly if some list of the pattern has, behind items that can be compiled, a list or an operator object with an operator that does |
| Patterns.PatternPanicsOnlyIfNested | app/internal/rule/pattern/pattern.go:95-117 | a pattern that panics has a list directly inside a list |
| Patterns.ParsePattern | app/internal/rule/pattern/pattern.go:76-190 | compiles a pattern node by node, and puts the paths where the memory model says; built, rejected and panicking patterns are told apart exactly |
| Patterns.NewList | app/internal/rule/pattern/pattern.go:95-117 | the list form has the listed values and the operators of each object; a list among the items panics exactly if everything before it can be compiled |
| Patterns.NewAnd | app/internal/rule/pattern/pattern.go:104-116 | the operators of one object must all hold; the first that cannot be built decides between rejection and panic |
| Patterns.ParseFields | app/internal/rule/pattern/pattern.go:166-174 | the fields are compiled in the order in which they are ranged over, and the first that cannot be compiled decides between rejection and panic |
| Patterns.CompiledMeans | app/internal/rule/pattern/pattern.go:76-190 | with intact paths the compiled closure answers what the pattern means |
| Patterns.RunList | app/internal/rule/pattern/pattern.go:129-164 | a field matches a list if it equals or overlaps a value, or satisfies all operators of a non-empty object; the exact condition of a crash is stated |
| Patterns.RunEvent | app/internal/rule/pattern/pattern.go:175-186 | running a closure on an event gives its answer, false on malformed data, or crashes exactly when a leaf does before one fails |
| Patterns.Pattern | app/internal/rule/pattern/pattern.go:193-195 | a matcher crashes exactly when that is said to happen in the given order, only on risky lookups, and otherwise gives its answer; comparing with a single value is never risky |
| Patterns.CrashesInSomeOrder | app/internal/rule/pattern/pattern.go:175-186 | a compiled pattern crashes on an event in some order of its fields exactly if one of its leaves crashes on it |
| Patterns.MatchInAnyOrder | app/internal/rule/pattern/pattern.go:48-195 | compiling a safe pattern in any order of its objects, operator objects inside lists included, and matching any event with it gives the recursive meaning of the pattern |
| MatchLaws.PrefixLaw | app/internal/rule/pattern/prefix.go:15-27 | a prefix operator accepts exactly the texts that begin with it |
| MatchLaws.SuffixLaw | app/internal/rule/pattern/suffix.go:15-27 | a suffix operator accepts exactly the texts that end with it |
| MatchLaws.CompareLaw | app/internal/rule/pattern/numeric.go:38-60 | the five comparisons are those of numbers |
| MatchLaws.NumericLaw | app/internal/rule/pattern/numeric.go:38-78 | a comparison with one bound accepts exactly the numbers on its side |
| MatchLaws.RangeLaw | app/internal/rule/pattern/numeric.go:26-78 | two comparisons accept exactly the numbers between the bounds |
| MatchLaws.OtherComparisons | app/internal/rule/pattern/numeric.go:29-66 | other comparison operators, and bounds that are no numbers, are refused |
| MatchLaws.SourceIs | app/internal/rule/pattern/pattern.go:95-164 | the matcher for {"source": [s]} accepts an event exactly if its source is s |
| MatchLaws.TypeIs | app/internal/rule/pattern/pattern.go:77-94 | the matcher for {"type": s} accepts an event exactly if its type is s |
| MatchLaws.SourceIsOneOf | app/internal/rule/pattern/pattern.go:95-164 | one of several listed values is enough |
| MatchLaws.SourceStartsWith | app/internal/rule/pattern/pattern.go:104-164 | {"source": [{"prefix": p}]} accepts exactly the events whose source is p and something after it |
| MatchLaws.SourceStartsAndEnds | app/internal/rule/pattern/pattern.go:104-164 | all operators of one object have to hold |
| MatchLaws.SourceIsWithin | app/internal/rule/pattern/pattern.go:104-164 | {"source": [{"cidr": c}]} is refused exactly if c is no network, and otherwise accepts the sources in it |
| MatchLaws.TypeIsNot | app/internal/rule/pattern/anything_but.go:16-19 | anything-but around a text accepts exactly the other ones |
| MatchLaws.TypeIsNeither | app/internal/rule/pattern/anything_but.go:20-90 | anything-but around a list accepts exactly what is not listed |
| MatchLaws.SourceAndTypeAre | app/internal/rule/pattern/pattern.go:166-186 | all keys of a pattern have to match |
| MatchLaws.NothingMatchesEmpty | app/internal/rule/pattern/pattern.go:48-64 | the empty pattern accepts nothing |
| MatchLaws.DataFieldIs | app/internal/rule/pattern/pattern.go:77-94 | {"data": {key: s}} accepts exactly the events whose data has that field with the value s, and none whose data is malformed |
| MatchLaws.DataFieldAmong | app/internal/rule/pattern/pattern.go:129-164 | {"data": {key: [s]}} accepts the value s and every list with s in it |
| MatchLaws.DataFieldExists | app/internal/rule/pattern/exists.go:16-35 | {"data": {key: [{"exists": b}]}} accepts an event exactly if b says whether its data has the field |
| MatchLaws.DataFieldWithin | app/internal/rule/pattern/numeric.go:16-78 | {"data": {key: [{"numeric": [">", low, "<=", high]}]}} accepts exactly the events with a number between the bounds there |
| PatternCollisions.CollisionRejects | app/internal/rule/pattern/pattern.go:166-174 | the matcher for two siblings on the fourth level rejects the event with exactly their values |
| Templates.NewFetcher | app/internal/rule/transform/template.go:31-54 | every variable is known under its trimmed name with one of the paths given for it, and a specification that is no path is refused |
| Templates.TrimmedIs | app/internal/rule/transform/template.go:37-37 | trimming takes spaces off both ends and nothing else |
| Templates.Tokenize | app/internal/rule/transform/template.go:56-98 | finds the one reading of the text, or its first fault; crashes exactly if the text starts with a known variable, or has no fault and ends in a dollar sign |
| Templates.CheckedIsNumbered | app/internal/rule/transform/template.go:82-98 | the text whose syntax is checked is the template with every variable that has no quote right before it replaced by 1 |
| Templates.CheckingOne | app/internal/rule/transform/template.go:82-89 | with one variable: {"a":${x}} is checked as {"a":1}, and {"a":"${x}"} as it stands |
| Templates.StartingWithOne | app/internal/rule/transform/template.go:64-89 | a template that begins with ${x} is one the tokenizer crashes on, exactly if x is known |
| Templates.SplitIsLossless | app/internal/rule/transform/template.go:56-98 | the pieces concatenate back to the text, and no literal is empty or holds an opening |
| Templates.SplitIsUnique | app/internal/rule/transform/template.go:56-98 | a text has at most one reading, and it is the one found |
| Templates.NewTransformation | app/internal/rule/transform/template.go:19-104 | a template is compiled exactly if it can be read, starts with a literal, does not end in a dollar sign and passes the syntax check |
| Templates.Render | app/internal/rule/transform/template.go:104-127 | puts the pieces and values together in order, and fails if a value does |
| Templates.RenderingIsExpanding | app/internal/rule/transform/template.go:104-127 | rendering the pieces is replacing the variables in the text itself |
| Templates.RenderingOne | app/internal/rule/transform/template.go:104-127 | with one variable, the text around it with the value of the trimmed name in its place, and an error if fetching fails |
| Templates.Apply | app/internal/rule/transform/template.go:104-134 | a compiled template turns an event into its text with the variables replaced, if that is well-formed |
| Delivery.DispatchTarget | app/job/internal/data/event.go:209-270 | a target event is dispatched, or put into the retry topic of its strategy, or dropped for want of a dispatcher; it fails exactly if the retry topic is needed and refuses; once another target has failed, a dispatch may also be cut off and go to the retry topic |
| Delivery.Transform | app/internal/rule/rule.go:225-327 | gives one event for each target: its data transformed by the target's transformer, addressed to the rule and the target, with the target's strategy if it has one, otherwise as it was; or fails if one transformation does |
| Delivery.HandleSource | app/job/internal/data/event.go:123-207 | succeeds exactly if the rule can be served, and then every target with a dispatcher has got its event, dispatched exactly if the dispatcher accepts it; whatever happens, no target gets more than one event, and what it gets is the event with its own transformed data, address and strategy, in the topic of that strategy if it is queued |
| Delivery.ServableMeans | app/job/internal/data/event.go:123-207 | a rule can be served exactly if matching works and, if it matches, every transformation does and the retry topic takes each event that a dispatcher refuses |
| Delivery.HandleSourceEvent | app/job/internal/data/event.go:70-86 | the same for all rules of the bus together, in any order: at most one event for each rule and target, fitting that target |
| Delivery.HandleEvent | app/job/internal/data/event.go:50-121 | succeeds exactly if everything the event needs works, and has then delivered it; in any case no target gets anything twice or anything that does not fit it; an event from a retry topic succeeds exactly if the dispatcher of its one target is there and accepts it |
| Delivery.HandleMessage | app/job/internal/data/rocketmq.go:244-343 | a message is acknowledged only after its event was delivered, and otherwise redelivered after the delay of its strategy until the 4th or the 177th attempt |
| Delivery.Redeliver | app/job/internal/data/rocketmq.go:269-342 | over its whole life a message is acknowledged at the first attempt that can deliver and acknowledge it; otherwise it is given up after exactly 4 attempts and 30 to 57 seconds, or exactly 177 attempts and 86015 seconds |
| Delivery.DelaysGrow | app/job/internal/data/rocketmq.go:328-331 | the exponential delays never fall and never exceed 512 seconds |
| Delivery.DelaysDouble | app/job/internal/data/rocketmq.go:328-331 | the delays start at one second, double up to the tenth, and are 512 seconds from there |
| Delivery.TotalDelayIs | app/job/internal/data/rocketmq.go:304-331 | the first n delays sum to 2^n-1 up to n = 9, and to 511+512(n-9) from there |
| Delivery.DecayFitsIntoADay | app/job/internal/data/rocketmq.go:304-308 | the 176 delays sum to 86015 seconds, less than a day |
| Receivers.PrefetchIsBounded | app/job/internal/data/rocketmq.go:177-240 | in every interleaving, running and fetched messages never outnumber the workers, every request asks for at least one message and for as many as there are free workers when it is made up, and a fetched message never waits for a worker |
| Receivers.NoMessageLost | app/job/internal/data/rocketmq.go:226-239 | every fetched message is waiting, running or handled, in one place only, unless the consumer was closed |
| Receivers.AliveIffWorkers | app/job/internal/data/rocketmq.go:198-240 | the loop never deadlocks exactly if there is at least one worker |

## Left out

* Closing the informer, the buses and the sender, and what happens to queues afterwards: the code does not keep the properties above while shutting down.
* Two concurrent handlers of the rule table: load, copy and store are one step here, as the informer model shows what overlapping handlers of a key do.
* `app/service/internal/data/sender.go` and `app/service/internal/data/reflector.go`: the same algorithms as `buses.updateBus` with producers only and as the bus reflector; they would repeat `Buses` and `Reflectors`.
- Informers.Progress: requires at least one worker; with none no key is ever handled.
- Informers.Convergence: a handler that succeeds has applied the value. The rule table's handler can report success without that, as `Executors` shows, and convergence does not cover those reports.
- Executors.Executor.Update: dispatchers are numbered values instead of objects, and an error is only told from success. A crash ends the process, so nothing is said about updates after one.
- Executors.Executor.Close: does not model the dispatchers' own behaviour, which belongs to packages that are not part of this model.
- Buses.Buses.ChooseAll: loops over the six roles in the source's order, where the source writes six branches out, and covers the branch for a new bus and the branch for a changed mode as well. The order in which replaced handles are closed is not kept.
- Rules.RuleTable.Handle: the executors in the table are numbers, what an executor does on an update is `Executors`.
- Rules.RuleTable.UpdateRule: a new executor whose first update fails is discarded by the source without closing the dispatchers it had built; the table does not show this, `Executors.Executor.NewExecutor` does.
- Operators.Run: an order is a function of the contents of a map, so two maps of equal contents are ranged over alike within one call.
- PatternPaths.Append: a full block grows by doubling below 256 and by a quarter beyond; rounding up to allocator size classes, which changes the growth only for paths of more than 512 keys, is not modelled.
- Patterns.NewMatcher: a JSON object has its keys once each. JSON numbers are reals, so rounding is not modelled; CIDR parsing and matching are parameters.
- Templates.NewFetcher: only ASCII spaces are trimmed, and characters stand for bytes.
- Templates.NewTransformation: whether a text is JSON is a parameter, and so is encoding a value.
- Delivery.Transform: cloning an event so that transformers do not share it is taken for granted.
- Delivery.HandleMessage: a message whose body cannot be decoded is neither acknowledged nor delayed by the source; bodies here are decoded.
- Delivery.Redeliver: the queue is assumed to hand a message out again after the delay asked for, and changing the delay to work.
- Receivers.PrefetchIsBounded: the number of workers is not narrowed to 32 bits, and the queue is assumed to deliver no more than it is asked for.
* The ordered receive loop, which handles one message at a time.
* The in-process schema cache and the sharing of concurrent database reads between callers; row versions are unbounded where the source has 32 bits.
* Back-off intervals and when a back-off stops are parameters of the retry loop; any interval and any stop is allowed.
* The library's heap algorithms are modelled over the repository's own Less, Swap, Push and Pop.
* Metrics, tracing, logging, configuration, servers, authentication, event ids, protobuf and schema validation.
