# Verification of the Sybline message broker

Sybline is a replicated message broker. Clients submit messages under routing keys; each key
leads to a list of named queues; consumers lease messages from a queue for a limited time and
then acknowledge them (ack) or give them back (nack). Commands are checked against roles,
collected into batches, put into a replicated log and applied by a state machine.

This project models that core in Dafny, in two forms that are tied together. Code that changes
things in place is a class whose methods are proved against functions on values; what the broker
is for is then proved about those functions, over whole runs where that is the point.

| file | what it holds |
|---|---|
| `Types`, `Marks`, `Strings` | fixed-width numbers, selections from a sequence, string order and sorting |
| `QueueModel`, `BatchNack` | the leased queue as a value: messages from head to tail, counter, dead-letter queue |
| `LinkedQueue` | the queue on the heap: nodes with real links, the pool that recycles them, all list operations |
| `QueueLaws`, `BatchLaws` | what single and batch operations mean, and exactly when batch operations fall short |
| `QueueRuns`, `QueueHistory`, `QueueLeases`, `RetryLaws`, `HeapRuns` | runs of a queue: conservation, order, retries, size, leases; the heap form follows the value form |
| `BrokerModel`, `ManagerLaws`, `ManagerReports`, `NewQueues`, `ManagerObject` | named queues with their dead-letter queues, as values and as a map of lists on the heap; what operations report, and how new queues behave |
| `ManagerRuns`, `PairHistory` | runs of the manager: reachable managers, how long pairs last, conservation over a queue and its dead-letter queue |
| `FanOut`, `Routing`, `Submissions`, `BrokerObject` | concurrent delivery, what submissions put where, routing lists over runs, what the order of map walks and of goroutines can change, the broker as an object |
| `PermissionText`, `AccessModel`, `Rbac`, `RbacLaws` | permission texts, policies and their compilation, the permission checks, runs of role operations |
| `FsmModel`, `Guards`, `CommandLaws`, `FsmLaws`, `Fsm` | the replicated state machine: who may do what, what commands do and answer, batching, replicas |
| `BatcherModel`, `BatcherObject` | the batcher as a system of atomic steps, and as an object whose methods are those steps |

`dafny verify dfyconfig.toml` checks everything.

## Where the code falls short

The model follows the code, also where the code departs from its evident intent. In these places
the exact condition under which it meets the intent is proved, or an input is given on which it does not.

- A batch ack of several ids does not lower Amount (LinkedList.go:300-302). So Amount is exact if
  and only if no such ack has succeeded, and the messages taken out so keep occupying room
  (`QueueHistory.RoomLeft`). That room never comes back, and once it is as large as the capacity the
  queue admits nothing any more (`QueueHistory.LostForGood`):
  `QueueHistory.EmptyAndClosed` is an empty queue that refuses every message.
- A batch ack that fails after a partial match reorders the queue, leaves Tail behind or crashes,
  except in the cases of `BatchLaws.BatchAckFailureHarmlessIff`; `BatchLaws.RefusedBatchAckReorders`
  is an example. It crashes exactly in the cases of `BatchLaws.BatchAckPanicsIff`, of which
  `BatchLaws.PartialBatchAckCrashes` is one.
- A batch nack takes the first node for the predecessor of every later one; it equals single nacks
  exactly in the cases of `BatchLaws.BatchNackIsFoldIff`; `BatchLaws.BatchNackLosesMessage` is an
  example, and `RetryLaws.BatchNackEach` says which messages are lost. It also ignores who holds the messages (`BatchLaws.BatchNackSucceedsIff`) and so ends
  the leases of any consumer (`BatchLaws.BatchNackFreesAll`).
- A batch insert tests the capacity once (`QueueLaws.BatchEnqueueIsFoldIff`); and a batch submission
  to a queue that is listed twice interleaves the messages otherwise than single submissions do
  (`Submissions.BatchIsSinglesIff`, `Submissions.BatchIsSinglesWithRoomIff`).
- A queue created without a dead-letter queue points to a nil interface, and the nack that uses up
  a message's retries crashes the process (`ManagerLaws.NackPanicsIff`, `ManagerLaws.NoDeadLetterCrash`);
  so does every batch nack that is not refused and lists such a message (`ManagerLaws.BatchNackPanicsIff`).
- Deleting a queue takes one entry out of the list of one key. It leaves no binding behind if and
  only if the queue is bound under no key, or under one key once (`Routing.DeleteQueueUnbindsIff`);
  a binding left behind is inherited by the next queue of that name (`Routing.DoubleBindingSurvives`,
  `Routing.StaleBindingInherited`). With several keys map order chooses the one
  (`Routing.DeleteQueueDeterministicIff`).
- Unbinding an existing queue from an existing key that does not hold it crashes if the queue is
  bound under none or several keys; if it is bound under exactly one other, it is refused
  (`Routing.UnbindPanicsIff`, `Routing.UnbindCrash`).
- Creating a queue `x` with a dead-letter queue takes over the name `x-dlq`. All names keep their
  queues if and only if that name was free (`ManagerLaws.NamesKeptIff`); otherwise the queue that had
  it can no longer be reached (`ManagerRuns.EveryTakeoverStrands`, `ManagerLaws.StrandedMessage`).
- A timer flush between the reservation of a slot and its store breaks the batch
  (`BatcherModel.AlignedIff`; `BatcherModel.DisturbedRun` is an example), and a sender may be handed
  a channel of the next batch (`BatcherModel.OwnChannelIff`).
- Assigning a role to a user without an entry and taking it back leaves an empty entry behind
  (`RbacLaws.AssignThenUnassign`).

## Model

| member | source | states |
|---|---|---|
| QueueLaws.ElapsedExactIff | pkg/core/LinkedList.go:401-430 | the lease age is computed exactly unless the two times lie 2^63 or more apart, and always modulo 2^64 |
| QueueLaws.EnqueueAllFits | pkg/core/LinkedList.go:82-107 | inserting one by one appends exactly the longest prefix that the capacity admits |
| QueueLaws.BatchEnqueueIsFoldIff | pkg/core/LinkedList.go:109-151 | a batch insert equals single inserts if and only if the batch fits or the queue is full beforehand |
| QueueLaws.BatchEnqueueWhole | pkg/core/LinkedList.go:109-151 | as soon as one message fits the whole batch is appended, each message with its id and value and held by nobody, also beyond the capacity |
| QueueLaws.FetchTakesFirstEligible | pkg/core/LinkedList.go:401-430 | a fetch returns the first min(amount, k) of the k messages that are held by the fetcher or by nobody or whose lease is older than nodeTTL, in order, and re-leases those and no others |
| QueueLaws.FetchReturnsIff | pkg/core/LinkedList.go:413-427 | with the amount not used up, a message is returned if and only if one of the three holds |
| QueueLaws.FetchingAgainRenews | pkg/core/LinkedList.go:413-427 | a consumer that fetches again is given all that it holds, with the new lease time |
| QueueLaws.OnlyHolderSettles | pkg/core/LinkedList.go:154-237 | an ack or nack by anyone but the holder is refused and changes nothing; by the holder it settles that message |
| QueueLaws.AckMeaning | pkg/core/LinkedList.go:185-237 | whatever ids repeat, an ack takes out the first message that the consumer holds under the id, and is refused without one |
| QueueLaws.UnlockMeaning | pkg/core/LinkedList.go:432-443 | unlocking a consumer frees every message that it holds and does nothing else to any |
| BatchLaws.BatchAckSucceedsIff | pkg/core/LinkedList.go:239-302 | with unique ids, a batch ack succeeds if and only if the ids are distinct and all held, and then leaves the other messages in order with Tail at their end |
| BatchLaws.BatchAckTakesFirst | pkg/core/LinkedList.go:239-302 | whatever ids repeat, a batch ack takes out the first messages held under a listed id, as many as ids are listed |
| BatchLaws.BatchAckFailureHarmlessIff | pkg/core/LinkedList.go:304-321 | a failed batch ack restores the queue if and only if it was too short, nothing matched, or one message matched that is second of three or more |
| BatchLaws.BatchAckPanicsIff | pkg/core/LinkedList.go:304-321 | a batch ack crashes if and only if the list is long enough, some but not all ids matched, and the matches are all messages, more than two, or two without the last |
| BatchLaws.PartialBatchAckCrashes | pkg/core/LinkedList.go:304-321 | an input on which a batch ack crashes |
| BatchLaws.RefusedBatchAckReorders | pkg/core/LinkedList.go:304-321 | an input on which a refused batch ack swaps two messages and leaves Tail at the head |
| BatchLaws.RefusedBatchAckPutsBack | pkg/core/LinkedList.go:304-321 | a refused batch ack that matched something puts it behind the first message left, in order, and leaves Tail at the head if only one was left |
| BatchLaws.TwoPutBack | pkg/core/LinkedList.go:304-321 | an input on which two matched messages are put back |
| BatchLaws.BatchNackSucceedsIff | pkg/core/LinkedList.go:330-379 | a batch nack of ids that are distinct, present and not none, whoever holds them, crashes if and only if the queue has no dead-letter queue and a listed message uses up its retries, and else succeeds; any other is refused and changes nothing |
| BatchLaws.BatchNackTakesFirst | pkg/core/LinkedList.go:330-349 | whatever ids repeat, a batch nack selects the first messages under a listed id, as many as ids are listed |
| BatchLaws.BatchNackIsFoldIff | pkg/core/LinkedList.go:330-397 | a successful batch nack, with or without a dead-letter queue, equals nacking each message singly as its holder, in order, if and only if the expiring messages form one run from the first or second position |
| BatchLaws.BatchNackLosesMessage | pkg/core/LinkedList.go:350-379 | an input on which a batch nack drops a message that it was not asked about |
| BatchLaws.BatchNackFreesAll | pkg/core/LinkedList.go:330-379 | after a successful batch nack none of the listed messages that remain is held, whoever held it |
| QueueHistory.EveryRunSound | pkg/core/LinkedList.go:82-443 | over every run, single and batch operations alike: admitted messages are, as a multiset, the live ones plus those acked, dead-lettered or dropped; the live ones keep admission order; Amount counts them and the uncounted batch acks; the dead-letter queue has received what was moved, in order; no live message has used up its retries |
| QueueHistory.RetryBound | pkg/core/LinkedList.go:154-183 | over every run each live message was nacked, singly or in batches, as often as it records, fewer than max(1, fetchLimit) times |
| QueueHistory.LastNackBuries | pkg/core/LinkedList.go:381-397 | the nack that reaches the limit removes the message and appends it to the dead-letter queue exactly when that has room |
| RetryLaws.NackMeaning | pkg/core/LinkedList.go:154-183 | in numbers: the holder's nack frees and counts the message in place while the new count is below the limit, and else takes it out and hands it over, or crashes |
| RetryLaws.BatchNackEach | pkg/core/LinkedList.go:350-397 | exactly which messages a batch nack leaves reachable, lost ones included; the listed ones among them are free and counted, the others untouched, all in order; Amount and the dead-letter queue account for those given up |
| RetryLaws.GivenUpOnTime | pkg/core/LinkedList.go:154-183 | over every run a message is dead-lettered or dropped right with its max(1, fetchLimit)-th nack, and with that one always |
| QueueHistory.SizeBound | pkg/core/LinkedList.go:109-151 | over every run with batches of at most b messages Amount stays below capacity plus b and never under-reports the list |
| QueueHistory.RoomLeft | pkg/core/LinkedList.go:239-302 | after every run Amount equals the number of messages if and only if no batch ack of several ids has succeeded, and an insert is admitted if and only if there is room beside the messages such acks took out |
| QueueHistory.LostForGood | pkg/core/LinkedList.go:239-302 | the room so lost never shrinks in a run, and once it is the whole capacity no message is admitted any more |
| QueueHistory.EmptyAndClosed | pkg/core/LinkedList.go:239-302 | a full queue of two, batch-acked, is left empty and refuses every message |
| QueueLeases.LeaseStep | pkg/core/LinkedList.go:82-443 | after any one operation a lease stands if and only if the message is still there and the operation did not end it: a refused batch nack, or a fetch that does not get the message, leaves it standing |
| QueueLeases.ExclusiveLease | pkg/core/LinkedList.go:154-443 | if a held message is later held by another consumer, then in between an operation took it from its holder: its own nack, a batch nack that lists it and succeeds, an unlock, or a fetch that gets it more than nodeTTL after the lease; the message was held until then and not afterwards |
| QueueLeases.ExclusiveLeaseOverRuns | pkg/core/LinkedList.go:154-443 | the same between any two points of a run from an empty queue that admits no id twice |
| LinkedQueue.NodeObjectPool.GetObject | pkg/core/NodeObjectPool.go:23-37 | hands out the oldest spare node, or a new one; either is blank, unlinked and no longer spare |
| LinkedQueue.NodeObjectPool.ReleaseObject | pkg/core/NodeObjectPool.go:39-48 | resets a node and keeps it unless the pool is full |
| LinkedQueue.LinkedList.WalkFromHead | pkg/core/LinkedList.go:51-61 | following the links from Head visits the live messages in order, ends at Tail and then at nil |
| LinkedQueue.LinkedList.PoolApart | pkg/core/NodeObjectPool.go:23-48 | spare nodes are distinct, reset, at most maxSize in number and never reached from Head |
| LinkedQueue.LinkedList.constructor | pkg/core/LinkedList.go:64-79 | a new queue is well formed and empty |
| LinkedQueue.LinkedList.Enqueue | pkg/core/LinkedList.go:82-107 | the list appends as the value form does, keeps its chain well formed and takes one node from the pool |
| LinkedQueue.LinkedList.BatchEnqueue | pkg/core/LinkedList.go:109-151 | the list appends the whole batch as the value form does |
| LinkedQueue.LinkedList.Unlock | pkg/core/LinkedList.go:154-183 | list and dead-letter list together change as the value form of a nack says |
| LinkedQueue.LinkedList.HandleThresholdExpire | pkg/core/LinkedList.go:381-397 | buries the message, unlinks the node given its supposed predecessor, and crashes on a nil interface |
| LinkedQueue.LinkedList.UnlockAndEmpty | pkg/core/LinkedList.go:185-237 | the list changes as the value form of an ack says |
| LinkedQueue.LinkedList.UnlockAndEmptyBatch | pkg/core/LinkedList.go:239-323 | the list ends with the chain and the Tail of the value form, rollback and crashes included |
| LinkedQueue.LinkedList.BatchUnlock | pkg/core/LinkedList.go:330-379 | list, dead-letter list and counter change as the value form says, and so does where Tail points; the spare nodes stay distinct, reset and bounded; the pair stays well formed unless a reset node is linked in |
| LinkedQueue.LinkedList.Dequeue | pkg/core/LinkedList.go:401-430 | the list re-leases and returns ids and values as the value form says |
| LinkedQueue.LinkedList.UnlockAllFromConsumer | pkg/core/LinkedList.go:432-443 | exactly the messages held by the consumer become free |
| HeapRuns.PerformAll | pkg/core/LinkedList.go:82-443 | after any run of operations, batch acks and batch nacks included, the chain is well formed and shows the state that the run of the value form reaches |
| ManagerLaws.CreateLaw | pkg/core/QueueManager.go:53-83 | creation succeeds exactly on a new non-empty name and positive size, each failure with its own error; the queue is then empty and has the size, retry limit and lease time asked for, and so has its dead-letter queue beside it, or its pointer dangles; every queue is kept, and every name but that of the dead-letter queue |
| NewQueues.NewQueueHolds | pkg/core/QueueManager.go:53-93 | a new queue admits exactly as many single messages as its size |
| NewQueues.NewQueueRetries | pkg/core/QueueManager.go:53-161 | in a new queue a message fetched and nacked again and again stays until its max(1, retryLimit)-th nack, which moves it to the dead-letter queue |
| NewQueues.NewQueueLeases | pkg/core/QueueManager.go:53-130 | a message fetched from a new queue goes to another consumer exactly when more than nodeTTL has gone by |
| ManagerLaws.NamesKeptIff | pkg/core/QueueManager.go:67-80 | a successful creation keeps the queue of every name if and only if no dead-letter queue was asked for or its name was free |
| ManagerLaws.TakeoverStrands | pkg/core/QueueManager.go:67-80 | otherwise the queue that had the name keeps its messages, and no name leads to it |
| ManagerLaws.StrandedMessage | pkg/core/QueueManager.go:67-80 | a run after which a submitted message cannot be fetched under any name |
| ManagerLaws.WithPairLaw | pkg/core/QueueManager.go:150-161 | storing a pair back changes that queue and its dead-letter queue and nothing else |
| ManagerLaws.NackLaw | pkg/core/QueueManager.go:150-161 | a nack is carried out on the named queue and its dead-letter queue; all others keep their state |
| ManagerLaws.NackPanicsIff | pkg/core/QueueManager.go:74-80 | a nack crashes if and only if its holder uses up the retries in a queue made without a dead-letter queue |
| ManagerLaws.BatchNackPanicsIff | pkg/core/QueueManager.go:163-170 | a batch nack crashes if and only if its ids are distinct and all present in a queue made without a dead-letter queue and one of the messages uses up its retries |
| ManagerLaws.LastNackMovesToNamed | pkg/core/QueueManager.go:74-80 | the message whose retries are used up is next found in the queue named with "-dlq" |
| ManagerLaws.NoDeadLetterCrash | pkg/core/QueueManager.go:74-80 | a run of create, submit, fetch and nack that crashes |
| ManagerReports.DeleteReport | pkg/core/QueueManager.go:172-180 | deleting takes the name away and nothing else |
| ManagerReports.GetReport | pkg/core/QueueManager.go:104-130 | a fetch hands out ids and data of exactly the messages it takes, in order, and leases those alone |
| ManagerReports.AckReport | pkg/core/QueueManager.go:132-139 | an ack is accepted exactly if the consumer holds a message under the id |
| ManagerReports.NackReport | pkg/core/QueueManager.go:150-161 | a nack is accepted exactly if the consumer holds the first message under the id, and crashes exactly if that uses up its retries in a queue made without a dead-letter queue |
| ManagerReports.BatchAckReport | pkg/core/QueueManager.go:141-148 | what a batch ack reports, crash and damage included, follows from the number and place of the messages matched |
| ManagerReports.BatchNackReport | pkg/core/QueueManager.go:163-170 | the same for a batch nack, from the messages matched and those that use up their retries |
| ManagerRuns.EveryManagerWellFormed | pkg/core/QueueManager.go:45-204 | over every run from an empty manager all names and dead-letter pointers lead to queues, each dead-letter queue belongs to one queue and each queue has at most one name |
| ManagerRuns.EveryTakeoverStrands | pkg/core/QueueManager.go:67-80 | after every run from an empty manager, a creation that takes a name over leaves the queue that had it under no name |
| ManagerRuns.AskIs | pkg/core/QueueManager.go:85-170 | every operation under a name is carried out on that queue with its dead-letter queue and nowhere else |
| ManagerRuns.PairedStepIff | pkg/core/QueueManager.go:53-83 | an operation parts a queue from the queue named with "-dlq" if and only if it deletes either or takes the queue's name over |
| ManagerRuns.PairedLasts | pkg/core/QueueManager.go:53-180 | over every run without such an operation the two stay paired and the name keeps its queue |
| PairHistory.PairConserved | pkg/core/QueueManager.go:53-204 | over every run after the creation of a queue with a dead-letter queue, both submitted to and consumed: the messages admitted to the two are, as a multiset, those live in either plus those acked or dropped from either |
| ManagerObject.QueueManager.constructor | pkg/core/QueueManager.go:45-51 | a new manager has no queues |
| ManagerObject.QueueManager.CreateQueue | pkg/core/QueueManager.go:53-83 | the map and the lists made show what the value form creates; queues share no nodes |
| ManagerObject.QueueManager.AddMessage | pkg/core/QueueManager.go:85-93 | the named list receives the message, all others keep their state; a missing name is reported |
| ManagerObject.QueueManager.BatchAddMessage | pkg/core/QueueManager.go:187-204 | the named list receives the batch; too few ids crash before anything changes |
| ManagerObject.QueueManager.GetMessage | pkg/core/QueueManager.go:104-130 | the named list is fetched from and ids are paired with their data |
| ManagerObject.QueueManager.Ack | pkg/core/QueueManager.go:132-139 | the named list is acked, all others keep their state |
| ManagerObject.QueueManager.BatchAck | pkg/core/QueueManager.go:141-148 | the named list is batch-acked; promised unless the list crashes or is left damaged |
| ManagerObject.QueueManager.Nack | pkg/core/QueueManager.go:150-161 | the named list and the list its pointer leads to change as the value form says, all others keep their state |
| ManagerObject.QueueManager.BatchNack | pkg/core/QueueManager.go:163-170 | the same for a batch nack; promised unless the list crashes or is left damaged |
| ManagerObject.QueueManager.Delete | pkg/core/QueueManager.go:172-180 | the name is gone, the lists and other names stay |
| ManagerObject.QueueManager.Exists | pkg/core/QueueManager.go:182-185 | tells whether the name is known; delivery to an unknown name does nothing |
| FanOut.FanOutConfluent | pkg/core/Broker.go:97-123 | every complete interleaving of the delivering goroutines, with missing, full and repeated queues, ends as delivery to one queue after the other |
| FanOut.DeliverAllCounts | pkg/core/Broker.go:97-123 | each queue receives the delivery once for every time its name is in the list |
| FanOut.CompleteScheduleExists | pkg/core/Broker.go:111-121 | the goroutines can always be run to their end |
| Strings.SortSorts | pkg/core/Broker.go:64-70 | sorting yields a sorted permutation |
| Strings.LeqMeaning | pkg/core/Broker.go:64-70 | the order is that of dictionaries: one text begins the other, or has the smaller character where they first differ |
| Routing.BindLaw | pkg/core/Broker.go:64-72 | binding adds one entry to the list of its key and touches no other list |
| Routing.UnbindLaw | pkg/core/Broker.go:188-193 | unbinding takes one entry out of the list of its key and touches no other list |
| Routing.CreateQueueLaw | pkg/core/Broker.go:51-75 | what creation reports; the queue is as asked for, listed once more under the key, and all else is kept |
| Routing.AddRouteKeyLaw | pkg/core/Broker.go:125-152 | what binding reports, and the one entry it adds |
| Routing.DeleteRoutingKeyLaw | pkg/core/Broker.go:154-193 | what unbinding reports, and the one entry it takes away |
| Routing.DeleteQueueLaw | pkg/core/Broker.go:77-95 | deletion does nothing to a queue listed nowhere, reports a listed name without a queue, and else takes the name and one entry away |
| Routing.EveryRunRouted | pkg/core/Broker.go:51-193 | over every run of the routing operations each list stays sorted, and every queue created and not deleted exists and is bound under some key |
| Routing.UnbindPanicsIff | pkg/core/Broker.go:154-193 | unbinding crashes if and only if an existing queue is not bound at an existing key while bound under none or several |
| Routing.UnbindCrash | pkg/core/Broker.go:154-193 | a run of creations and a binding after which an unbinding crashes |
| Routing.DeleteQueueUnbindsIff | pkg/core/Broker.go:77-95 | deleting an existing queue leaves no binding of it in any map order if and only if it has no key, or one key whose list holds it once |
| Routing.DoubleBindingSurvives | pkg/core/Broker.go:77-95 | a run that binds a queue twice under one key: its deletion has one outcome, reports success and leaves the name bound, and a later queue of that name is bound there |
| Routing.StaleBindingInherited | pkg/core/Broker.go:51-75 | a queue created under a name that is still bound somewhere is bound there too |
| Routing.DeleteQueueDeterministicIff | pkg/core/Broker.go:77-95 | deleting a queue has one outcome if and only if it is bound under at most one key or does not exist |
| Routing.DeliveryMayIff | pkg/core/Broker.go:97-123 | an outcome of concurrent delivery is possible if and only if it is that of delivering to one queue after the other |
| Routing.SubmissionDeterministic | pkg/core/Broker.go:97-123 | an outcome of a submission is possible under some interleaving if and only if it is the sequential one |
| Routing.BatchSubmissionDeterministic | pkg/core/Broker.go:195-226 | the same for a batch submission |
| Submissions.SubmissionLaw | pkg/core/Broker.go:97-123 | what a submission reports; each queue gets the message with its id and data once for each time it is listed, while it has room, and nothing else changes |
| Submissions.BatchSubmissionLaw | pkg/core/Broker.go:195-226 | the same for a batch, each message with its own id and data, and the crash on too few ids |
| Submissions.BatchIsSinglesIff | pkg/core/Broker.go:195-226 | with no queue listed twice, a batch submission equals submitting its messages one by one if and only if each listed queue is full before or has room for all |
| Submissions.BatchIsSinglesWithRoomIff | pkg/core/Broker.go:195-226 | with room for all each time a queue is listed, the two are the same if and only if no queue is listed twice or all messages of the batch are alike |
| Submissions.SpareLaw | pkg/core/LinkedList.go:82-151 | single messages take a pooled node each, admitted or not; a batch takes one for each of its messages unless the queue is full |
| BrokerObject.IndexFunc | pkg/core/Broker.go:265-272 | the first index of the name, or -1 |
| BrokerObject.RoutingBroker.CreateQueue | pkg/core/Broker.go:51-75 | the new state and report are those of the value form |
| BrokerObject.RoutingBroker.AddRouteKey | pkg/core/Broker.go:125-152 | the new state and report are those of the value form |
| BrokerObject.RoutingBroker.DeleteQueue | pkg/core/Broker.go:77-95 | the walk in any map order ends in an outcome that the value form allows |
| BrokerObject.RoutingBroker.DeleteRoutingKey | pkg/core/Broker.go:154-193 | the new state and report are those of the value form, crash included |
| BrokerObject.RoutingBroker.FanOutTo | pkg/core/Broker.go:108-121 | goroutines stepped in any order deliver as one after the other, and take as many pooled nodes as deliveries need |
| BrokerObject.RoutingBroker.AddMessage | pkg/core/Broker.go:97-123 | a submission has the sequential outcome under every schedule |
| BrokerObject.RoutingBroker.BatchAddMessage | pkg/core/Broker.go:195-226 | the same for a batch submission |
| PermissionText.RoundTrip | pkg/rbac/rbacManager.go:348-374 | parsing a printed list of entries gives the map in which the last entry for each entity wins |
| PermissionText.PrintedForm | pkg/rbac/rbacManager.go:348-374 | a printed list is "allow:" or "deny:" and the entity for each entry, with commas between |
| PermissionText.ParseAcceptsIff | pkg/rbac/rbacManager.go:348-374 | a text is accepted if and only if it is a comma-joined non-empty list of allow and deny entries with entities that are non-empty and free of comma and colon |
| Rbac.ParsePermissions | pkg/rbac/rbacManager.go:348-374 | the parsing loop computes the parse function |
| Rbac.ParseAdminPermissions | pkg/rbac/rbacManager.go:335-346 | "allow" is true, "deny" false, all else an error |
| Rbac.CompileField | pkg/rbac/rbacManager.go:150-318 | one field is accepted exactly if valid, and the role then says what the fields seen so far state |
| Rbac.RoleManager.CreateRole | pkg/rbac/rbacManager.go:103-321 | for every order of the walk over the actions, a role is made for exactly the valid documents and holds what they state and nothing else |
| Rbac.RoleManager.AddRole | pkg/rbac/rbacManager.go:323-333 | adds a role under a new name only |
| Rbac.RoleManager.AssignRole | pkg/rbac/rbacManager.go:400-423 | appends the named role to the user's list |
| Rbac.RoleManager.UnassignRole | pkg/rbac/rbacManager.go:425-448 | swap-removes the first role of that name |
| Rbac.RoleManager.HasAdminPermission | pkg/rbac/rbacManager.go:450-476 | the nested early-exit loops answer yes exactly when some role holds the code and none holds the next one |
| Rbac.RoleManager.HasPermission | pkg/rbac/rbacManager.go:478-598 | the early-exit loop answers yes exactly when some role allows and none denies, wildcard before entity |
| RbacLaws.EntityPolicyMeaning | pkg/rbac/rbacManager.go:156-191 | a compiled role says of an entity what its text's last wildcard entry says, or else the last entry for the entity |
| RbacLaws.CodesApart | pkg/rbac/rbacManager.go:12-35 | no allowing or denying code of one action is a code of another |
| RbacLaws.AdminPolicyMeaning | pkg/rbac/rbacManager.go:193-314 | through the deny-is-allow-plus-one encoding a compiled role gives each admin action exactly the verdict of its text |
| RbacLaws.DocumentAcceptedIff | pkg/rbac/rbacManager.go:103-321 | a role is made exactly from documents with a new name and a non-empty object of known fields, with a printed list or one of two words as the field demands |
| RbacLaws.SoleRoleDecides | pkg/rbac/rbacManager.go:450-598 | for a user with one role the decision is that role's verdict |
| RbacLaws.DecideOrderFree | pkg/rbac/rbacManager.go:450-598 | decisions do not change when the list of roles is permuted |
| RbacLaws.EveryRunConsistent | pkg/rbac/rbacManager.go:323-448 | over every run users hold only roles that exist, as they are defined |
| RbacLaws.EveryRunAccounted | pkg/rbac/rbacManager.go:400-598 | after every run both checks answer from the number of times each role was assigned and unassigned, although the lists are swap-removed |
| RbacLaws.AssignThenUnassign | pkg/rbac/rbacManager.go:400-448 | after every run, assigning and unassigning a role restores every decision; an answer changes if and only if the user had no entry |
| Fsm.CommandPayload.Decode | pkg/fsm/syblineFSM.go:69-79 | fields missing in an encoded command keep what the payload held |
| Fsm.SyblineFsm.MayAll | pkg/fsm/syblineFSM.go:134-145 | all keys of a batch are checked, in order, up to the first refusal |
| Fsm.SyblineFsm.SubmitBatch | pkg/fsm/syblineFSM.go:147-155 | a permitted batch is submitted key by key and its errors are joined |
| Fsm.SyblineFsm.Check | pkg/fsm/syblineFSM.go:81-474 | every command makes exactly the checks of the permission table |
| Fsm.SyblineFsm.Dispatch | pkg/fsm/syblineFSM.go:81-478 | a command ends in an outcome that the value form allows |
| Fsm.SyblineFsm.ApplySingle | pkg/fsm/syblineFSM.go:69-479 | the payload, reused and reset, never carries a field from one command to the next |
| Fsm.SyblineFsm.Apply | pkg/fsm/syblineFSM.go:44-67 | a log is applied entry by entry, with the results in order and none for holes |
| FsmModel.SubmitAllMayIff | pkg/fsm/syblineFSM.go:147-155 | a submission under several keys has one possible outcome over all interleavings of its goroutines |
| FsmModel.ActMayIff | pkg/fsm/syblineFSM.go:81-478 | so has every permitted command but the deletion of a queue |
| FsmLaws.BatchingTransparent | pkg/fsm/syblineFSM.go:44-67 | however a command list is divided into logs, with or without holes, the possible final states and concatenated results are the same |
| FsmLaws.OneResultEach | pkg/fsm/syblineFSM.go:57-66 | a log gives one result for each command in it |
| FsmLaws.ResultAt | pkg/fsm/syblineFSM.go:57-66 | the k-th result is what the k-th command gives in the state that those before it lead to |
| Guards.RefusedIff | pkg/fsm/syblineFSM.go:134-145 | checking in order refuses if and only if some need is not granted |
| Guards.RefusedUnlessPermitted | pkg/fsm/syblineFSM.go:81-474 | each command is carried out if the sender's roles allow the policy field that belongs to it, on every key or queue it names, and is otherwise refused whole without changing anything |
| Guards.RefusedChangesNothing | pkg/fsm/syblineFSM.go:81-474 | a refusal is reported if and only if the command is not so permitted, and then nothing changes |
| Guards.RefusedRunChangesNothing | pkg/fsm/syblineFSM.go:44-67 | any number of commands that would each be refused leave everything as it is |
| Guards.DenyingPolicyBinds | pkg/rbac/rbacManager.go:450-598 | a user who holds a role whose policy text denies a command, for the wildcard, an entity or as an administrative action, is refused it, whatever other roles the user holds |
| Guards.SolePolicyDecides | pkg/rbac/rbacManager.go:450-476 | with a single role an administrative command is carried out exactly if its text says "allow" |
| CommandLaws.CommandIsRun | pkg/fsm/syblineFSM.go:81-474 | each command does to the queues what its own operations of the queue manager do, for every listed queue |
| CommandLaws.RoutedAnswers | pkg/fsm/syblineFSM.go:82-283 | what submissions, creations, bindings and deletions answer, from what was asked and the state before |
| CommandLaws.ConsumedAnswers | pkg/fsm/syblineFSM.go:199-391 | what fetches, acks and nacks answer, from who holds what |
| CommandLaws.BatchAnswer | pkg/fsm/syblineFSM.go:125-156 | a submission under several keys crashes if one of them does, and else answers with all their errors joined in order |
| CommandLaws.HaltsIff | pkg/fsm/syblineFSM.go:81-474 | the machine halts at a crash or a damaged list and at nothing else |
| CommandLaws.MissingFields | pkg/fsm/syblineFSM.go:69-79 | an entry without a user is of the user without a name; one without a command or that does not decode is answered with an error and changes nothing |
| CommandLaws.CommandIsRoleOp | pkg/fsm/syblineFSM.go:392-474 | role commands change the roles as their own role operation does, and no other command changes them |
| CommandLaws.RoleAnswers | pkg/fsm/syblineFSM.go:392-474 | what role commands answer |
| CommandLaws.AccountLaw | pkg/fsm/syblineFSM.go:285-349 | what account commands do to the accounts, and answer |
| CommandLaws.MachineRuns | pkg/fsm/syblineFSM.go:44-67 | whatever the machine has applied, its queues are where some run of the queue manager leads and its roles where some run of the role manager leads |
| CommandLaws.EveryMachineSane | pkg/fsm/syblineFSM.go:44-67 | over every run from an empty machine names and dead-letter queues are in order, and users hold only roles that exist |
| FsmLaws.AccountsKept | pkg/auth/AuthManager.go:87-289 | accounts stay distinct and never run out; they come and go only by the commands for that |
| FsmLaws.DeterministicIff | pkg/fsm/syblineFSM.go:264-283 | over all goroutine schedules and map orders a log entry has one outcome if and only if it is not a permitted deletion of a queue bound under several keys |
| FsmLaws.ReplicasAgree | pkg/fsm/syblineFSM.go:44-67 | replicas that apply the same commands, batched in any two ways, with any goroutine schedules and map orders, end in the same state with the same results if deletes are safe |
| BatcherModel.TidyStep | pkg/fsm/batcher.go:63-178 | every step but a disturbing timer flush, between the timer's reading and resetting the index too, keeps filled slots, index and reservation in line |
| BatcherModel.DoomedStep | pkg/fsm/batcher.go:94-124 | after a disturbing flush the reservation stays out of line until its store leaves a gap |
| BatcherModel.AlignedIff | pkg/fsm/batcher.go:63-178 | in every run, all batches are whole and filled slots are exactly those before the next free one, if and only if the timer never resets the index and flushes between a reservation and its store |
| BatcherModel.CommandsHandedOn | pkg/fsm/batcher.go:63-178 | along an undisturbed run the batches and the waiting slots are the commands sent, each once and in order, and each channel of a batch received exactly one value |
| BatcherModel.BatchedAsSent | pkg/fsm/batcher.go:128-156 | applying those batches may end exactly as applying the commands sent, one by one in the order of sending |
| BatcherModel.ResultReaches | pkg/fsm/batcher.go:153-155 | the result of the command in slot k goes to one channel, and to channel k if and only if no slot before is empty |
| BatcherModel.ChannelsHoldOwnResults | pkg/fsm/batcher.go:128-156 | in every undisturbed run of the batcher with the machine: either applying a batch failed, all its channels received nil and the machine is as it was, or channel i has received what the i-th command gives in the state that all earlier commands lead to |
| BatcherModel.DisturbedRun | pkg/fsm/batcher.go:94-124 | a run with a disturbing flush: a batch with a hole, whose one result goes to a channel that nobody waits on |
| BatcherModel.OwnChannelIff | pkg/fsm/batcher.go:159-178 | a sender is given a channel of its own batch if and only if its slot was not the last and the timer flushed nothing before it returned |
| BatcherObject.Batcher.SendLogs | pkg/fsm/batcher.go:128-156 | results, or nil for each on failure, go to the channels in order, and no send blocks |
| BatcherObject.Batcher.Pick | pkg/fsm/batcher.go:160-169 | taking the lock and picking a slot is a step of the system |
| BatcherObject.Batcher.Send | pkg/fsm/batcher.go:171-175 | advancing the index and sending the data is a step of the system |
| BatcherObject.Batcher.Store | pkg/fsm/batcher.go:66-90 | storing, and flushing after the last slot, is a step of the system; the channels left behind are fresh |
| BatcherObject.Batcher.Look | pkg/fsm/batcher.go:96-106 | the timer's check of the first slot and its reading of the index are a step of the system |
| BatcherObject.Batcher.Tick | pkg/fsm/batcher.go:106-122 | resetting the index and flushing what was before the index read is a step of the system; the channels left behind are fresh |

## Left out

- The consensus library, log store, snapshots and leader election: assumed to deliver one agreed list of commands.
- gRPC and REST servers, middleware, generated code, handler validation and configuration.
- Decoding of msgpack and JSON: commands, and role documents as maps of fields, are the starting point; the reuse of the decoded multi-key batch is not followed, that of the payload is.
- Password hashing, random salts, tokens and sessions: what these functions answer is part of a command; accounts are usernames only.
- `DeleteRole`, the built-in roles, and the queries `GetRoles`, `GetAllRoles`, `GetAllQueues` and `IsFull`.
- Mutexes and counters: a method body under its lock is one step; an int64 time, a uint32 retry count and the wrap-around of both are modelled, the width of Amount is not.
- `Close` of the node pool is never called and not modelled.
- RoutingBroker.AddMessage: deliveries run over queue values, with the nodes that each queue has pooled as a parameter; the lists on the heap behind the names are the subject of ManagerObject, which is specified by the same functions.
- QueueHistory.EveryRunSound: a run ends at a crash, at a failed batch ack that does not restore the queue, and at a batch nack that loses or misplaces messages; what these do, BatchLaws states.
- LinkedQueue.LinkedList.BatchUnlock: once a reset node is linked in, which of the reset nodes the pool holds is not stated.
- HeapRuns.PerformAll: runs end where those of QueueHistory.EveryRunSound do.
- PairHistory.PairConserved: the run ends where a run of either queue would.
- ManagerObject.QueueManager.BatchAck: says nothing of the lists after a crash or when Tail is left behind; what the chain then is, LinkedQueue.LinkedList.UnlockAndEmptyBatch states.
- ManagerObject.QueueManager.BatchNack: says nothing of the lists after a crash or when a reset node is linked in; LinkedQueue.LinkedList.BatchUnlock states the chain.
- FsmLaws.BatchingTransparent: the machine is taken to halt at the first crash or damaged list, and no entry after it is applied; after damage without a crash the code goes on.
- FsmLaws.ReplicasAgree: the same.
- BatcherModel.AlignedIff: commands are taken to be non-empty, as their encoding is; the timer may fire at any moment, so its duration plays no part.
- Rbac.RoleManager.CreateRole: which of several errors is reported depends on map order and is not modelled, only that there is one.
