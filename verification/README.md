# Verified models of the game server's stateful cores

This project models the parts of the server in which state has to stay consistent over long runs, and proves what they
promise. Every model follows the branches, limits and failure paths of the source. Where a promise turns out not to
hold, the exact condition under which it does is proved instead.

* **Containers** (`ForestModel`, `ContainerForest`, `SnapshotSums`, `WordArithmetic`): items as heap objects with parent
  pointers, item lists, cached weights and cached ammunition counts; the operations of `container.cpp` as methods on
  them, each tied to a function on snapshots of the heap, whose properties are proved as lemmas. Weights are reduced
  modulo 2^32 as in the source.
* **OTB files** (`OtbFormat`, `OtbLoader`): the parser with its explicit stack, the run-copying unescaper, an encoder,
  and an independent description of the byte layouts that are accepted.
* **Database tasks** (`DatabaseTasks`): the worker, its producers and its flushers as atomic steps under the mutex, with
  notifications that may come late and wakeups that may come for no reason.
* **Conditions** (`Bytes`, `PropStreams`, `ConditionFormat`, `ConditionRoundTrip`, `Conditions`, `DamageLists`): the
  stored form of conditions, saving and loading them, and the damage lists.
* **Connection rate limiter** (`RateLimiter`).
* **Decay scheduler** (`DecayModel`, `DecayScheduler`).
* **Chain targets** (`ChainTargets`).
* **Transactions, auctions and charms** (`Transactions`, `CharacterBazaar`, `CharmModel`, `BestiaryCharms`).

What the proofs found out about the source:

* A tree without properties and children is written as a file of seven bytes, which the loader refuses as too short
  (`OtbFormat.RoundTrip`).
* A damage list sums up to the amount, or to 1 + .. + start when that is more; with the default start value the damage is
  the amount drawn exactly up to 760, and for 780 (`DamageLists.DefaultStartIsExact`).
* A constant damage condition keeps its stored end time exactly when its damage list is empty
  (`ConditionRoundTrip.ConstantDamageEndTime`).
* A saved light condition is not loaded again, and nothing saved after it is: its color is written in four bytes and
  read from one. Everything that was kept is loaded exactly when there is no light condition among it
  (`ConditionRoundTrip.OnlyLightIsLost`).
* A saved outfit comes back exactly when no color, addon or familiar is set, because lookFamiliar is read but not
  written (`ConditionRoundTrip.RestoredIsTheSame`).
* A chain with 255 targets and no initial target picks nothing (`ChainTargets.NothingPicked`).
* A decay check that is set more than 2^31 ms too late may come out far in the future (`DecayModel.NextCheckInTime`).
* The attempts admitted in a row are bounded by the limit exactly when it is below 2^32-1; at 2^32-1 nothing is ever
  blocked (`RateLimiter.RapidRunsAreBounded`, `RateLimiter.BlocksNeedALimit`).
* `replaceThing` keeps the forest exactly when the new item lies in no container and does not enclose the one it is put
  into (`ForestModel.ReplaceNeedsDetached`); the item that is replaced is one for which it does not
  (`ForestModel.ReplacingItemByItselfStrandsIt`). No caller passes such an item: src/game.cpp:2821 and src/game.cpp:2887
  hand over an item they have just created, and src/tile.cpp:493 concerns browse fields, which are not modelled.
* An auction whose seller holds the highest bid is never finalised (`CharacterBazaar.OwnBidIsStuck`); the exact
  condition under which an expired auction with a bid can be is `CharacterBazaar.SaleIsPossible`. A creation whose
  SELECTs fail lets an account have two active auctions; a run keeps the auctions sound exactly when no creation goes
  through unread while there is an active one (`CharacterBazaar.RunKeeps`).
* A SELECT that fails is taken for an empty result. The charm books balance after a request exactly when what it could
  not read, and would charge, refund or restore, was nothing: `CharmModel.Harmless`, in `CharmModel.HandleKeeps` for one
  request and `CharmModel.RunKeeps` for whole runs.
* `stop()` does not take the mutex, so a task may be accepted after the state has left Running
  (`DatabaseTasks.AcceptedAfterStop`). Nothing more is accepted exactly when no `addTask` has seen the state and not yet
  queued its task (`DatabaseTasks.NothingAcceptedIffFree`); otherwise exactly that one task may be
  (`DatabaseTasks.WhatMayStillBeAccepted`).
* A `stop()` after a `shutdown()` takes the state Terminated back, so that the worker may sleep on for ever while
  `shutdown()` has returned (`DatabaseTasks.WorkerSleepsAfterShutdown`). The worker is sure to end exactly from the
  moment it has left its loop (`DatabaseTasks.WorkerEndsForSure`); without a stop a shutdown always ends it
  (`DatabaseTasks.WorkerEndsAfterShutdown`). The repository calls `stop()` first, at src/game.cpp:730, and `shutdown()`
  after it, at src/game.cpp:7828, so it does not meet that order.

## Model

| member | source | states |
|---|---|---|
| ForestModel.PropagateShifts | src/container.cpp:222-233 | passing a weight difference up from a container changes what exactly one container owes, that one, by exactly the difference; nothing but cached totals changes |
| ForestModel.AttachDeficit | src/container.cpp:154-163 | linking an item in without touching weights leaves its new parent owing exactly the item's weight, and nobody else anything new |
| ForestModel.InsertKeepsValid | src/container.cpp:687-728 | inserting a detached item keeps the forest valid: links mirror each other, no cycle, every cached weight and ammunition count correct at every depth |
| ForestModel.InsertNeedsDetached | src/container.cpp:687-728 | the links survive putting an item into a container, whatever depths and caches are chosen, if and only if the item lies in no container and does not enclose this one; then the whole forest stays valid |
| ForestModel.UpdateKeepsValid | src/container.cpp:730-754 | changing the type or count of a listed item keeps the forest valid |
| ForestModel.RemoveKeepsValid | src/container.cpp:811-853 | taking an item out keeps the forest valid |
| ForestModel.ReplaceNeedsDetached | src/container.cpp:773-809 | in a valid forest the links survive replacing a listed item, whatever depths and caches are chosen, if and only if the new item lies in no container and does not enclose this one; then the whole forest stays valid |
| ForestModel.ReplacingItemByItselfStrandsIt | src/container.cpp:773-809 | the item that is to be replaced is one that may not be handed over: the links of the forest always break |
| ForestModel.NoCycle | src/container.cpp:479-492 | in a forest no item lies inside itself |
| ForestModel.EnclosingItemMakesCycle | src/container.cpp:479-492 | the ancestor walk is needed: hanging an item below something it encloses never leaves a forest |
| ForestModel.CachedTotalIsContentWeight | src/container.cpp:222-235 | in every valid forest the cached weight of a container is the weight of its whole content, recomputed from the leaves, modulo 2^32, and exactly that while it fits 32 bits |
| ForestModel.EnumerationStep | src/container.cpp:1000-1024 | listing the content of the first queued container keeps the enumeration in order |
| ForestModel.EnumerationComplete | src/container.cpp:1000-1024 | when the queue is empty everything strictly inside the container has been listed, each item once |
| ForestModel.UnionValid | src/container.cpp:134-146 | two separate valid forests make one |
| ForestModel.CloningEnds | src/container.cpp:134-146 | copying the cached total instead of adding weights up leaves a valid clone |
| ForestModel.CloneWeight | src/container.cpp:134-146 | every cloned item weighs what its original weighs |
| ForestModel.CloneIsBijection | src/container.cpp:134-146 | the clones are in one-to-one correspondence with the item and everything inside it, and each lies below the copy |
| ForestModel.RootMayChange | src/container.cpp:186-220 | the attributes of an item that lies in no container may be set freely |
| ContainerForest.UpdateItemWeight | src/container.cpp:222-233 | the recursive method computes the propagation function on the whole heap |
| ContainerForest.UpdateAmmoCount | src/container.cpp:104-116 | the count goes up by the difference, or down to zero at most, for ammunition only |
| ContainerForest.AddItem | src/container.cpp:154-163 | appends the item, sets its parent, counts its ammunition, leaves weights alone |
| ContainerForest.AddItemBack | src/container.cpp:716-728 | appends the item and keeps the forest valid |
| ContainerForest.AddThing | src/container.cpp:687-714 | puts the item in front, refuses an index past the capacity, keeps the forest valid |
| ContainerForest.InternalAddThing | src/container.cpp:934-956 | puts the item in front without a capacity check, keeps the forest valid |
| ContainerForest.GetThingIndex | src/container.cpp:855-865 | the first index of the item, -1 exactly when it is not listed |
| ContainerForest.UpdateThing | src/container.cpp:730-754 | changes type and count of a listed item only, keeps the forest valid |
| ContainerForest.RemoveThing | src/container.cpp:811-853 | takes off a part of a stack, of which exactly the rest stays, or the whole item, which is then detached; keeps the forest valid |
| ContainerForest.ReplaceThing | src/container.cpp:773-809 | exchanges the item at an index, refuses an index past the list, keeps the forest valid |
| ContainerForest.Iterator | src/container.cpp:1000-1024 | lists every item strictly inside the container exactly once, at every depth |
| ContainerForest.IsHoldingItem | src/container.cpp:330-338 | true exactly when the parent chain of the item reaches the container |
| ContainerForest.GetItemHoldingCount | src/container.cpp:321-328 | the number of items strictly inside |
| ContainerForest.QueryAdd | src/container.cpp:437-517 | exactly when an addition is allowed; an item that encloses the container is refused |
| ContainerForest.QueryThenAdd | src/container.cpp:437-517 | an addition that was allowed keeps the forest valid and acyclic |
| ContainerForest.Clone | src/container.cpp:134-146 | a separate valid tree of new items with the same types, counts and order, one clone for the item and each item inside it and no other items, whose weights agree |
| ContainerForest.UnserializeItemNode | src/container.cpp:186-220 | succeeds if and only if the node is loadable; either way the forest stays valid and the container has the items of the child nodes before the first one that cannot be loaded, in order and at every depth |
| ContainerForest.LoadableIffAllSound | src/container.cpp:186-220 | a node is loadable if and only if its attributes parse and every node on a path the loader takes, through containers, is an item node with properties that create an item and attributes that parse |
| ContainerForest.RemainingIsTheRest | src/container.cpp:823-829 | taking part of a stack of at most 255 off leaves the rest, and nothing if more is taken than there is |
| ContainerForest.StacksAddUp | src/item.cpp:1121-1130 | splitting or joining stacks changes no weight, modulo 2^32 |
| OtbFormat.HeldLayoutIsLoaded | src/fileloader.cpp:43-96 | the parser reports exactly the nodes, ranges and children of the layout a file holds |
| OtbFormat.LoadedFileHoldsLayout | src/fileloader.cpp:43-96 | whatever the parser accepts is such a layout, followed by bytes without node markers |
| OtbFormat.AcceptedIffLayout | src/fileloader.cpp:14-96 | a file is accepted if and only if it opens and holds a well-formed layout, so unbalanced input is refused |
| OtbFormat.LoadedRangesFlat | src/fileloader.cpp:55-90 | every property range the parser reports is well escaped: no bare marker and no dangling escape |
| OtbFormat.EscapeRoundTrip | src/fileloader.cpp:98-146 | unescaping undoes escaping, and escaped bytes are well escaped |
| OtbFormat.UnescapeRun | src/fileloader.cpp:98-146 | a run without escapes may be copied as a whole |
| OtbFormat.RoundTrip | src/fileloader.cpp:14-146 | a written tree with any type and property bytes loads back as the same tree exactly when it has properties or children |
| OtbLoader.Open | src/fileloader.cpp:14-33 | a file is refused exactly when it is too short or its identifier is neither accepted nor the wildcard |
| OtbLoader.Loader.ParseTree | src/fileloader.cpp:43-96 | the loop with its explicit node stack computes the parse function |
| OtbLoader.Loader.FindEscape | src/fileloader.cpp:105-111 | the first escape of a range, or its end |
| OtbLoader.Loader.CopyRun | src/fileloader.cpp:123-142 | copies a run behind what the buffer already holds, inside the buffer |
| OtbLoader.Loader.CopySegment | src/fileloader.cpp:123-142 | a run, its escape and the escaped byte: what is copied plus the unescaped rest stays the unescaped whole, and room for the rest is left |
| OtbLoader.Loader.GetProps | src/fileloader.cpp:98-146 | equals the byte-by-byte unescaping on every range, adjacent and trailing escapes included; false exactly for an empty range |
| DatabaseTasks.Monitor.AddTask | src/databasetasks.cpp:44-59 | the section under the mutex computes the enqueue function: a task is accepted exactly while running, a signal follows exactly when the queue was empty |
| DatabaseTasks.AddTaskIsTwoSteps | src/databasetasks.cpp:44-59 | with no stop in between, looking at the state and queueing do together what the section does |
| DatabaseTasks.Monitor.TakeTask | src/databasetasks.cpp:17-42 | takes the oldest task and counts it as active, or nothing when there is none |
| DatabaseTasks.Monitor.FinishTask | src/databasetasks.cpp:17-42 | counts the task off and notifies flushers exactly when nothing is queued or active |
| DatabaseTasks.NoLostWakeupStep | src/databasetasks.cpp:17-95 | every step keeps: a worker blocked with work or after a shutdown has a signal pending, a blocked flusher has work to wait for |
| DatabaseTasks.AccountedStep | src/databasetasks.cpp:17-95 | every step keeps: executed tasks, then the one in flight, then the queue are the accepted tasks in order |
| DatabaseTasks.ShutdownOrderStep | src/databasetasks.cpp:87-95 | every step keeps: the worker leaves, and shutdown returns, only with everything executed |
| DatabaseTasks.OneInsideStep | src/databasetasks.cpp:44-59 | every step keeps: at most one addTask stands between looking at the state and queueing |
| DatabaseTasks.ReachableInv | src/databasetasks.cpp:17-95 | all of these hold in every interleaving of any number of callers, spurious wakeups and late notifications included |
| DatabaseTasks.NothingAcceptedIffFree | src/databasetasks.cpp:44-59 | once the state has left Running, no run accepts anything more if and only if no addTask is inside its section |
| DatabaseTasks.WhatMayStillBeAccepted | src/databasetasks.cpp:44-59 | the lists of tasks that may ever be accepted after that are exactly what has been accepted, with or without the task of the addTask that is inside |
| DatabaseTasks.AcceptedAfterStop | src/thread_holder_base.h:23 | for every task there is a run in which it is accepted after a stop |
| DatabaseTasks.ShutdownIsFinal | src/databasetasks.cpp:87-95 | when shutdown has returned, all accepted tasks have run, then and ever after |
| DatabaseTasks.FlushReturnsWhenAllDone | src/databasetasks.cpp:81-85 | flush returns only at a moment when every task accepted so far has been executed |
| DatabaseTasks.QuietMeansDone | src/databasetasks.cpp:17-95 | no deadlock: when no thread can move, all tasks have run, all calls have returned, and the worker has ended or the state is not Terminated |
| DatabaseTasks.WorkerEndsAfterShutdown | src/databasetasks.cpp:87-95 | after a shutdown, with no stop following, the worker has ended whenever the threads come to rest |
| DatabaseTasks.WorkerEndsForSure | src/thread_holder_base.h:23 | in every invariant state the worker ends in all runs, stops included, if and only if it has left its loop already |
| DatabaseTasks.WorkerSleepsAfterShutdown | src/thread_holder_base.h:23 | a stop after a shutdown may leave the worker asleep for good, with the shutdown returned |
| DatabaseTasks.InternalStepLeavesLess | src/databasetasks.cpp:17-95 | every step a thread takes by itself leaves less work |
| DatabaseTasks.ComesToRest | src/databasetasks.cpp:17-95 | from every reachable state the threads come to rest by themselves |
| DatabaseTasks.NoEndlessSchedule | src/databasetasks.cpp:17-95 | no schedule keeps the threads moving for ever without calls from outside |
| Bytes.LittleRoundTrip | src/fileloader.h:124-129 | reading back a stored integer gives it modulo 2^(8k) |
| Bytes.SignedRoundTrip | src/fileloader.h:68-78 | a signed integer that fits its width survives being stored |
| PropStreams.StringRoundTrip | src/fileloader.h:80-141 | a written string is read back exactly when it has at most 65535 bytes, and as the empty string otherwise |
| PropStreams.PropStream.Read | src/fileloader.h:68-78 | reads the next bytes; a read past the end fails and does not move the cursor |
| PropStreams.PropStream.ReadString | src/fileloader.h:80-94 | reads length and text; a text that is cut short costs the length prefix |
| PropStreams.PropStream.Skip | src/fileloader.h:96-104 | skips exactly n bytes or none |
| PropStreams.PropWriteStream.WriteString | src/fileloader.h:131-141 | appends length and text, or a zero length for a string that is too long |
| ConditionRoundTrip.IdRoundTrip | src/condition.cpp:174-175 | a signed id stored as 32 unsigned bits is read back |
| ConditionRoundTrip.TypeRoundTrip | src/condition.cpp:165-172 | types below and above 2^32 are read back from their 32-bit and 64-bit tags |
| ConditionRoundTrip.CreateReadsHeader | src/condition.cpp:163-196 | the header written for a condition of any modelled kind is accepted, and gives back all its fields |
| ConditionRoundTrip.CreatedIffHeaded | src/condition.cpp:292-395 | a condition is created if and only if the bytes start with a header, every field at its place, and exactly the header is read |
| ConditionRoundTrip.BaseFieldsRead | src/condition.cpp:80-161 | the attribute loop takes every base field in as well, whatever the condition was before |
| ConditionRoundTrip.StreamMayEnd | src/condition.cpp:69-78 | the end of the stream closes a condition as well as the END attribute does |
| ConditionRoundTrip.UnserializeReadsFields | src/condition.cpp:69-78 | the attribute loop takes any list of known attributes in, one after the other, whatever follows |
| ConditionRoundTrip.RegenerationRead | src/condition.cpp:1031-1070 | the six fields of a regeneration condition come back |
| ConditionRoundTrip.SoulRead | src/condition.cpp:1231-1250 | both fields of a soul condition come back |
| ConditionRoundTrip.SpeedRead | src/condition.cpp:1787-1821 | the speed delta and the four formula variables come back |
| ConditionRoundTrip.DamageRead | src/condition.cpp:1382-1425 | the damage list comes back interval by interval |
| ConditionRoundTrip.LoadOfBlob | src/iologindata.cpp:471-481 | loading a saved list gives every kept condition before the first kept light condition, restored, in reverse order, and nothing else |
| ConditionRoundTrip.OnlyLightIsLost | src/iologindata.cpp:471-481 | as many conditions are loaded as were kept if and only if none of those is a light condition |
| ConditionRoundTrip.LightIsNotRead | src/condition.cpp:2237-2281 | a stored light condition always fails to load and leaves bytes that are no header |
| ConditionRoundTrip.OutfitRead | src/condition.cpp:2089-2116 | the outfit that comes back has head and body as its familiar and its other colors moved up |
| ConditionRoundTrip.RestoredIsTheSame | src/condition.cpp:292-395 | a condition that is neither light nor damage comes back whole if and only if its end time is stored or the default and its outfit, if any, has no color, addon or familiar; without an outfit all fields but the end time always come back |
| ConditionRoundTrip.RestoredDamage | src/condition.cpp:1382-1425 | a damage condition keeps its list and every field but ticks and end time; the ticks are rebuilt from the intervals |
| ConditionRoundTrip.TicksAreTheSum | src/condition.cpp:1397-1405 | the rebuilt ticks are the sum of the intervals exactly when a running sum of -1 is met only if the whole sum is -1 |
| ConditionRoundTrip.ConstantDamageEndTime | src/condition.cpp:1397-1405 | a constant damage condition keeps its end time if it has no intervals, and loses it whatever it was if it has any |
| Conditions.CreatureCondition.Serialize | src/condition.cpp:163-196 | writes the fields in their order, base fields first, then those of the subclass |
| Conditions.CreatureCondition.UnserializeProp | src/condition.cpp:80-161 | one attribute changes what it stands for and nothing else; an unknown or incomplete one changes nothing and consumes nothing |
| Conditions.CreatureCondition.Unserialize | src/condition.cpp:69-78 | the loop computes the reading function, on broken input too |
| Conditions.CreateCondition | src/condition.cpp:292-395 | a condition object exactly for an acceptable header of a modelled type |
| Conditions.SaveConditions | src/iologindata.cpp:1110-1118 | writes the blob of all persistent or constant conditions |
| Conditions.LoadConditions | src/iologindata.cpp:471-481 | the loop computes the loading function |
| Conditions.CreatureCondition.AddDamage | src/condition.cpp:1441-1471 | an accepted call adds as many copies of the interval as there are rounds, adds their lengths to ticks other than -1, and sets the end time by the last reading of the clock; -1 rounds set a period damage; a call is refused when one is set |
| Conditions.LengthenedAddsRounds | src/condition.cpp:1441-1471 | the same of the function behind it, for every number of rounds |
| Conditions.CreatureCondition.Init | src/condition.cpp:1473-1500 | fills an empty list from the amount drawn; does nothing to a condition that already has damage |
| Conditions.InitDealsTheAmount | src/condition.cpp:1473-1500 | after init the ticks are the number of intervals times their length; there are intervals if and only if the amount drawn is not 0 and no start is set where the maximum is 0, and then getTotalDamage's value is the larger of the amount and 1 + .. + start |
| Conditions.CreatureCondition.GetTotalDamage | src/condition.cpp:1666-1678 | the absolute sum of the intervals still to come, or the middle of the damage range when there are none |
| Conditions.TotalBeforeStart | src/condition.cpp:1666-1678 | before the condition has started it lies between the bounds, within a half of their middle |
| DamageLists.PhaseNearsTarget | src/condition.cpp:1736-1748 | each phase deals portions of one size and ends within half a portion of its target, unless one portion overshoots |
| DamageLists.FallsThroughEveryValue | src/condition.cpp:1731-1749 | the list never rises and has exactly the values from start down to 1 |
| DamageLists.TotalOfGenerate | src/condition.cpp:1731-1749 | the list sums up to the amount, or to 1 + .. + start when that is more |
| DamageLists.DefaultStartIsExact | src/condition.cpp:1485-1497 | with the default start value the sum is the amount exactly up to 760, and for 780 |
| DamageLists.GenerateDamageList | src/condition.cpp:1731-1749 | the nested loops end and compute the list function |
| RateLimiter.ConnectionRateLimiter.RefreshExpiry | src/connection_rate_limiter.cpp:31-39 | moves the index node of one address and keeps entries and index in step |
| RateLimiter.ConnectionRateLimiter.Cleanup | src/connection_rate_limiter.cpp:41-60 | at most once a minute drops due entries only, and then 256 of them or all of them |
| RateLimiter.ConnectionRateLimiter.Check | src/connection_rate_limiter.cpp:62-109 | decides the attempt of one address; no other entry changes, but once a minute 256 due ones or all of them are dropped first |
| RateLimiter.Judge | src/connection_rate_limiter.cpp:82-105 | what an attempt does to the record of an address that is not blocked |
| RateLimiter.IndexMatchesEntries | src/connection_rate_limiter.cpp:31-60 | one index node for each entry, keyed 300001 ms after its last attempt |
| RateLimiter.DroppingIsInvisible | src/connection_rate_limiter.cpp:62-109 | whether an expired entry was dropped makes no difference to the next call of its address |
| RateLimiter.BlockedUntilTheEnd | src/connection_rate_limiter.cpp:75-101 | in every run, while a block lasts every call of its address is refused, whatever other addresses and cleanups do |
| RateLimiter.RapidRunsAreBounded | src/connection_rate_limiter.cpp:75-109 | in every run, after an admitted attempt, the attempts admitted in a row, each within the interval and the window of the one before, are at most the limit - if and only if the limit is below 2^32-1 |
| RateLimiter.LimitIsExact | src/connection_rate_limiter.cpp:67-106 | in every run, from an attempt of an unknown address, or after a pause of more than the window, exactly the allowed number of rapid attempts passes and the next one starts a block |
| RateLimiter.LimitIsExactAgain | src/connection_rate_limiter.cpp:85-101 | the same once the limit has been reached and the block, if one was started, is over |
| RateLimiter.PausesPass | src/connection_rate_limiter.cpp:82-101 | outside of a block an attempt that comes later than the minimum interval or the window passes |
| RateLimiter.BlocksAreCounted | src/connection_rate_limiter.cpp:62-109 | in every run the blocks recorded of an address are those there were, if its entry has not been dropped, and those started since, less those forgiven, modulo 2^32 |
| RateLimiter.BlocksGrowLonger | src/connection_rate_limiter.cpp:88-93 | a started block is refused, reports its number, and lasts 3000 ms, 15000 from the third, 60000 from the fifth and 300000 from the tenth on |
| RateLimiter.DurationsDoNotFall | src/connection_rate_limiter.cpp:88-93 | a block with a higher number is never shorter |
| RateLimiter.QuietAttemptsForgive | src/connection_rate_limiter.cpp:41-109 | in every run, with other addresses and cleanups in between, each attempt more than a minute after the one before makes up for one earlier block, until none is left, and a cleanup that drops the entry for all of them |
| DecayModel.StartKeeps | src/decay.cpp:78-104 | starting an item puts it into exactly one bucket, moves no other item, and leaves a check pending in time |
| DecayModel.StopKeeps | src/decay.cpp:106-137 | stopping an item takes it out of every bucket and moves no other item |
| DecayModel.StartSetsCheck | src/decay.cpp:78-104 | an item that is due before all others replaces the check, the first of all adds one, for exactly its timestamp but at least 50 ms later; any other leaves the checks alone |
| DecayModel.DrainTakesDue | src/decay.cpp:157-176 | the batch has exactly the items that are due, each once |
| DecayModel.DrainLeavesRest | src/decay.cpp:157-176 | the items that are not due stay where they are |
| DecayModel.DelayIsExact | src/decay.cpp:34-38 | narrowing the delay to 32 bits is exact unless the check is overdue by more than 2^31 ms |
| DecayModel.NextCheckInTime | src/decay.cpp:34-44 | exactly when the next check is set in time |
| DecayModel.NextCheckReplaces | src/decay.cpp:34-44 | the next check takes the place of the current one and is set for exactly its key, but at least 50 ms later |
| DecayModel.ClearCancels | src/decay.cpp:139-155 | clearing empties the map and takes the current check, and no other, off the scheduler |
| DecayModel.CheckKeeps | src/decay.cpp:157-182 | after a check of less than 2^31 ms, whatever the batch starts and stops, nothing that was due is left and the next check is pending in time |
| DecayModel.ReachableStates | src/decay.cpp:29-182 | in every run each item is in at most one bucket, that of its timestamp, no bucket is empty, and while there is one a check is pending at most 50 ms late |
| DecayModel.NothingStranded | src/decay.cpp:157-182 | once all due checks have fired, an item is overdue by less than 50 ms, or its check was set less than 50 ms ago |
| DecayScheduler.Decay.StartDecay | src/decay.cpp:78-104 | computes the start function on map, scheduler and timestamps |
| DecayScheduler.Decay.StopDecay | src/decay.cpp:106-137 | find and swap-remove compute the removal function |
| DecayScheduler.Decay.ScheduleNextCheck | src/decay.cpp:34-44 | replaces the current event by one for the given key |
| DecayScheduler.Decay.CheckDecay | src/decay.cpp:157-182 | drains the due buckets, lets the batch act, sets the next check |
| DecayScheduler.Decay.Clear | src/decay.cpp:139-155 | empties the map and cancels the current event |
| ChainTargets.ScanIsClosest | src/combat.cpp:2163-2231 | the spectator loop finds the first closest eligible creature, and none exactly when there is none |
| ChainTargets.LinksAreSound | src/combat.cpp:2139-2260 | each link starts at the caster or an earlier target, and each picked one is in range, valid and not barred; targets are distinct and never the caster |
| ChainTargets.NothingPicked | src/combat.cpp:2146-2157 | without an initial target nothing is picked exactly for a limit of 0 or 255 or when no one is eligible |
| ChainTargets.LinksAreTheSearch | src/combat.cpp:2139-2260 | an initial target is linked to the caster first; the links after it are the finds of the one sequence of rounds in which each looks around from the top of the stack, for the first closest creature in play, as long as the search may go on |
| ChainTargets.SearchIsUnique | src/combat.cpp:2157-2258 | there is only one such sequence of rounds |
| ChainTargets.SearchIsExhaustive | src/combat.cpp:2157-2258 | the search ends only at the limit, with nobody left to go on from, or after ten dead ends, one without backtracking; every target that is not left to go on from has no spectator in play any more |
| ChainTargets.ResultGroupsLinks | src/combat.cpp:2233-2246 | the result has one entry for each position something was picked from, with the ids picked there in order |
| ChainTargets.ResultIsSound | src/combat.cpp:2139-2260 | the returned map holds every id once and never the caster |
| ChainTargets.ResultIsBounded | src/combat.cpp:2139-2260 | it holds at most the requested number of ids plus nine, none extra without backtracking, and exactly one for each link |
| ChainTargets.FindClosest | src/combat.cpp:2163-2231 | the spectator loop computes the scan function |
| ChainTargets.AddLink | src/combat.cpp:2233-2246 | appends to the entry of the position, or adds one |
| ChainTargets.PickChainTargets | src/combat.cpp:2139-2260 | the loop ends, by attempts left and then room on the stack, and returns the grouped links of the search |
| Transactions.ExecuteIsAtomic | src/database.h:325-370 | at most three attempts, another one after a deadlock and only then; success means exactly that the last attempt was accepted and committed, once, on the store as it found it after whatever other sessions have done in between; otherwise that store is left alone |
| Transactions.BlockOrNothing | src/database.h:325-370 | a block of statements in a transaction is applied once, to the store as the last attempt found it, or not at all |
| Transactions.ExecuteWithinTransaction | src/database.h:325-370 | the loop computes the outcome function and never leaves a transaction open |
| Transactions.DBTransaction.Begin | src/database.h:291-299 | starts a transaction on the committed store, or stays out of one |
| Transactions.DBTransaction.Commit | src/database.h:301-313 | commits exactly in a started transaction whose commit succeeds |
| Transactions.DBTransaction.Rollback | src/database.h:315-323 | ends a started transaction without effect |
| Transactions.DBTransaction.Destroy | src/database.h:280-285 | a transaction that was not committed is rolled back |
| CharacterBazaar.FinalizeKeeps | src/character_bazaar.cpp:114-164 | finalising, its query readable or not, keeps balances within 32 bits, active auctions apart, and one sale at most for each auction |
| CharacterBazaar.CreateKeeps | src/character_bazaar.cpp:316-350 | creating an auction whose queries succeed keeps them |
| CharacterBazaar.UnreadCreation | src/character_bazaar.cpp:76-86 | creation breaks the rule of one active auction exactly when the queries for one fail while there is one |
| CharacterBazaar.StepKeeps | src/character_bazaar.cpp:114-350 | a step keeps the tables sound if and only if it is no creation that goes through unread while there is an active auction; ended auctions stay as they are in any case |
| CharacterBazaar.FinalizeIsOneStep | src/character_bazaar.cpp:114-164 | however often the wrapper runs the body of finalizeAuction, whichever of its queries fail and whatever others write between its attempts, it comes to one step or nothing |
| CharacterBazaar.CreateIsOneStep | src/character_bazaar.cpp:316-350 | the same for createAuction |
| CharacterBazaar.RunKeeps | src/character_bazaar.cpp:114-350 | with bids and balance changes from outside: balances within 32 bits and one active auction for each account and character at every moment of a run if and only if each step is harmless; then ended auctions are final and each auction is sold at most once |
| CharacterBazaar.RunIsBooked | src/character_bazaar.cpp:114-350 | conservation: in every run each balance is what it was plus the payouts less the fees in the history plus what came from outside, and each character that is not taken from outside belongs to the buyer of its last sale |
| CharacterBazaar.OwnBidIsStuck | src/character_bazaar.cpp:141-148 | an auction whose seller holds the highest bid is never finalised |
| CharacterBazaar.EndsExactlyWhen | src/character_bazaar.cpp:114-164 | an active auction ends in a step if and only if that is a committed finalisation at or after its end that is not refused; it is then sold if it has a bid and cancelled if not, and until then only its bid changes |
| CharacterBazaar.NeverEndsEarly | src/character_bazaar.cpp:114-164 | in every run that does not finalise it after its end an auction stays active |
| CharacterBazaar.CommissionIsThePercentage | src/character_bazaar.cpp:149-153 | the commission is the percentage of the bid, of all of it at most, rounded down; the payout is the rest |
| CharacterBazaar.CreationEffect | src/character_bazaar.cpp:316-350 | a creation opens an active auction without a bid, takes exactly the fee, and changes no other auction, balance or owner |
| CharacterBazaar.Session.DebitTransferableCoins | src/character_bazaar.cpp:190-203 | takes the amount off a balance that covers it, or fails without effect |
| CharacterBazaar.Session.CreditTransferableCoins | src/character_bazaar.cpp:205-222 | adds the amount while the balance stays within 32 bits, or fails without effect |
| CharacterBazaar.Session.FinalizeAuction | src/character_bazaar.cpp:114-164 | the statements compute the finalisation function; a query that fails counts as finalised already |
| CharacterBazaar.Session.CreateAuction | src/character_bazaar.cpp:316-350 | the statements compute the creation function |
| CharmModel.SumsAfterUpdate | src/bestiary_charm.cpp:79-100 | how one changed charm changes the points spent, the echoes rewarded and the charms assigned |
| CharmModel.UpgradeKeeps | src/bestiary_charm.cpp:389-441 | unlocking or upgrading always keeps the rules; points, echoes and rewards balance afterwards if and only if it failed or what it could not read was nothing |
| CharmModel.ResetKeeps | src/bestiary_charm.cpp:443-472 | so does a reset, paid for, taken back, or neither: if and only if what it could not read, and would refund or restore, was nothing |
| CharmModel.AssignKeeps | src/bestiary_charm.cpp:478-518 | assigning a creature keeps at most six charms assigned, charms of one category apart, and the books, readable or not |
| CharmModel.RemoveKeeps | src/bestiary_charm.cpp:520-548 | so does removing one |
| CharmModel.HandleKeeps | src/bestiary_charm.cpp:377-551 | every outcome of every action, whatever reads fail: tiers, creatures and slots obey the rules and the cache agrees with the rows; points kept plus spent stay what was earned, echoes kept plus spent the maximum, and that the sum of rewards, if and only if the request was harmless |
| CharmModel.PaymentTakesTheAmount | src/bestiary_charm.cpp:292-314 | a payment succeeds if and only if the gold suffices and taking the inventory's part does not fail; it takes exactly the amount, and from the bank only once the inventory is empty |
| CharmModel.HandleCosts | src/bestiary_charm.cpp:377-551 | a request changes the gold by its cost if it succeeds and not at all if it does not |
| CharmModel.GoldIsConserved | src/bestiary_charm.cpp:377-551 | in every run, whatever fails, the gold that is left and the costs of the requests that succeeded are the gold there was |
| CharmModel.SucceedsExactlyWhen | src/bestiary_charm.cpp:377-551 | each request succeeds if and only if what its action asks for holds beforehand: tiers, prices, kills, free slots of the account, no other charm of the category on the creature, gold |
| CharmModel.SuccessChangesRows | src/bestiary_charm.cpp:377-551 | a request that succeeds changes the rows to what was asked for, and no others |
| CharmModel.FreeAccountsKeepTwoSlots | src/bestiary_charm.cpp:478-518 | in every harmless run without premium at most two charms are assigned, unless there were more before |
| CharmModel.FailureLeavesState | src/bestiary_charm.cpp:461-471 | a failed action leaves everything but the cache as it was if and only if nothing needs undoing or all of it is undone |
| CharmModel.UnreadCache | src/bestiary_charm.cpp:211-218 | a cache filled while the rows cannot be read agrees with them exactly when there are none |
| CharmModel.StepKeeps | src/bestiary_charm.cpp:211-218 | a step, requests, earned points and cache included, keeps everything if and only if it is harmless |
| CharmModel.RunKeeps | src/bestiary_charm.cpp:377-551 | books, rules and cache hold at every moment of a run if and only if each of its steps is harmless |
| CharmModel.NewPlayerRuns | src/bestiary_charm.cpp:377-551 | the same from the state of a new player |
| CharmModel.ReadRunsAreHarmless | src/bestiary_charm.cpp:377-551 | a run in which no read fails is harmless, so the books always balance in it |
| CharmModel.ReachableStates | src/bestiary_charm.cpp:377-551 | in every harmless run the books balance against the points earned, and the echoes stay within 32 bits |
| BestiaryCharms.BestiaryCharmSystem.RemoveGold | src/bestiary_charm.cpp:292-314 | takes exactly the amount, from the inventory first and from the bank only once that is empty, or nothing at all |
| BestiaryCharms.BestiaryCharmSystem.GetCachedCharmStates | src/bestiary_charm.cpp:211-218 | fills the cache once and returns it |
| BestiaryCharms.BestiaryCharmSystem.HandleCharmAction | src/bestiary_charm.cpp:377-551 | the four actions compute the action function on rows, player and cache, and take exactly the cost of the action if they succeed |
| BestiaryCharms.GetSpentMajorCharmPoints | src/bestiary_charm.cpp:327-339 | the points spent, whatever order the unordered states are visited in |
| BestiaryCharms.GetAssignedCharmCount | src/bestiary_charm.cpp:316-325 | the number of assigned charms, in any order |

## Left out

- Client notifications, spectator lists, magic effects, Lua callbacks and logging carry no state that the properties depend on; the answers of pickers, combat rules and line of sight are parameters.
- Sockets, threads, memory mapping and MySQL are replaced by atomic steps, byte sequences and a store with snapshots.
- Browse-field containers, the inbox and depot overrides follow other parent rules; a parent that is no container counts as no parent.
- Conditions of type attributes: their reader counts special skills past the end of its array, which the source leaves undefined; the type is treated as unknown. Drunk and feared conditions are covered by their base fields, which are all that is stored.
- Damage formulas, the PvP rule tables, configuration, houses, guilds, chat, imbuements and the allocator would only add easy members.
- ContainerForest.UpdateAmmoCount: does not model 32-bit wrap-around of the ammunition count, because counts are bounded by stack sizes far below it.
- ContainerForest.AddThing: for an item that is added it requires what queryAdd establishes, that it is detached and does not enclose the container; ContainerForest.QueryThenAdd shows the two together, and ForestModel.InsertNeedsDetached that this is exactly what is needed.
- ContainerForest.AddItem: requires the same, as do ContainerForest.AddItemBack and ContainerForest.InternalAddThing.
- ContainerForest.ReplaceThing: requires a detached item that does not enclose the container, as its callers provide; ForestModel.ReplaceNeedsDetached shows that this is exactly what it needs.
- ContainerForest.QueryAdd: the answers of the house, the store inbox, the corpse owner and the merging of stacks are parameters.
- ContainerForest.UnserializeItemNode: what the attributes of an item node create is a parameter; the attribute bytes are not decoded.
- OtbLoader.Loader.ParseTree: a closed node is handed to its parent when it ends, where the source appends it when it starts; the pointers into the vector of children are not modelled.
- DatabaseTasks.ReachableInv: start is called once, before everything else, and the memory order of the state, which stop writes without the mutex, is not modelled; a task is a number; the query and its callback are not run.
- Bytes.LittleRoundTrip: assumes a little-endian machine, and structures without padding.
- Conditions.CreateCondition: returns null for conditions of type attributes, which the source would create.
- Conditions.LoadConditions: stops at a condition of type attributes.
- ConditionRoundTrip.OutfitRead: assumes that Outfit_t takes 14 bytes, its last one padding.
- Conditions.InitDealsTheAmount: sums of damage values are not reduced to 32 bits, because the source leaves their overflow undefined; the ticks are required to fit.
- DamageLists.GenerateDamageList: the comparison of floating-point ratios is carried out in exact arithmetic, and the product of the portion number and the amount is not reduced to 32 bits.
- RateLimiter.ConnectionRateLimiter.Check: requires times that do not run backwards; 64-bit times do not wrap around.
- DecayModel.CheckKeeps: the game starts items for positive durations only, and a batch takes less than 2^31 ms; what happens beyond is stated by DecayModel.NextCheckInTime.
- DecayScheduler.Decay.AddEvent: scheduling an event always succeeds and ids do not wrap around; the decay state attribute is not modelled, nor are items that no longer exist, which are never asked for again.
- ChainTargets.LinksAreSound: requires that spectators lie within the distance asked for and that ids identify creatures.
- Transactions.ExecuteIsAtomic: other sessions write between the attempts of a transaction, not while one is open.
- CharacterBazaar.Session.CreateAuction: the checks on level, zone, guild, houses and market that come before the transaction only refuse; the columns that describe the character are left out.
- CharmModel.HandleKeeps: messages to the player and the bonuses of charms are left out.
