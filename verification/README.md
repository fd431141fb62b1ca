# Verified model of the Dragonite homeserver core

Dragonite is a Matrix homeserver written in Go. This project models the parts of it whose
correctness depends on more than one function: state resolution, the growth of a room's event
graph under concurrent senders, the genesis of a room, the membership index, the delivery
protocols of `/sync`, the long-poll notifier, the federation outbox, key backup and the sync
token. `dafny verify dfyconfig.toml` checks everything.

## How the model is organised

| module | what it models |
|---|---|
| `Events`, `StringOrder` | events, state tuples, decoded bodies; byte-wise order of event IDs |
| `TopologicalSort` | Kahn's algorithm with the power-level, timestamp and ID tie-break, as loops over counters, a graph and a queue |
| `AuthRules` | the authorization decision and the state entries it reads |
| `StateResolution` | partition, three phases, replay against an accumulator |
| `RoomStore` | the tables of one room and their storage methods |
| `RoomDag` | interleavings of read and commit steps of local senders |
| `RoomServices` | the local room operations as read-then-commit methods |
| `MembershipIndex` | federated joins and leaves, remote-join reconciliation, and the index over whole runs |
| `Genesis`, `RoomCreation` | linking and hashing of a genesis list in place; creation of a room |
| `ToDevice` | the to-device table, the acknowledge-delete-read request, and lossy conversations |
| `Timeline` | the timeline queries, one `/sync` request over a store that grows while it runs, and chains of requests |
| `Notifier` | subscriber lists, one-slot channels and all interleavings of waiters and wake-ups |
| `Outbox` | queue, fan-out, bounded retry, parking and flush |
| `KeyBackup` | nested map, flat rows, upserts, count and etag |
| `SyncToken` | printer and scanner of the token |

Code that works on tables or fields is a class whose methods reassign them; a pure function on
the value of those tables says what a method computes, and the theorems are about that function
and about runs of steps built from it. Go iterates maps in any order: each such loop picks an
arbitrary element, so its contract holds for every order.

An event body is the structures the code decodes it into, each possibly "does not
decode". The event hash is a parameter, injective on the event without ID, signatures and
unsigned data; a freshly computed ID is not stored yet. Signing is an uninterpreted function.
A missing state key and the empty one name the same state tuple, as in the code.

## What the code does where its own text says otherwise

- A failed federation attempt is followed by a pause of `2 << i` seconds, twice the 2^i its
  comment announces, and the last failure is followed by a pause too before the event is parked.
- The comment on `Resolve` announces the full algorithm of the Matrix specification (room
  version 2, section "State resolution"). The code has no auth difference and no mainline
  ordering, and the theorems are about what it does have.
- A comment in `CheckAuth` says a create event is authorized for the room's creator; the code
  authorizes every create event.
- `sendWithRetry` returns early when a server name does not resolve, but name resolution never
  fails: it falls back to port 8448. That branch is therefore absent from the model.
- A cancelled long poll answers with the zero token, so that one reply goes back; the theorem
  about tokens says exactly when.
- A comment in the remote join says that only the consensus is persisted. The code writes the
  resolved entries over the stored state and deletes nothing, so a local entry outside the resolved
  state stays. `ReconcileRemoteJoin` says when the two are equal, `LosingEntriesSurviveIff` and
  `UnresolvedEntriesSurviveIff` which entries survive, and `LosingNameSurvives` shows one.
- A request computes its token after it has read its events, from a store that may have grown. An
  event stored in between is passed by the token and never delivered: `RequestSkipsNothingIff` and
  `ChainedRequestsPartitionIff` give the exact condition, `DeadlineReplySkipsAMessage` an input.
- Some assumptions of the code turn out to be exact conditions. The string key `type|state_key`
  answers like a pair of strings iff the state key holds no `|`. A federated join or leave keeps
  the membership table right iff the event already stored under its ID says that membership. A key
  backup put lands on the latest version iff the user created none since the check.

## Model

| member | source | states |
|---|---|---|
| TopologicalSort.KnownEventsAreTotallyOrdered | internal/usecase/state_res_sort.go:195-220 | the tie-break is a strict total order on known events stored under their own IDs |
| TopologicalSort.ComparatorIsAnOrderIff | internal/usecase/state_res_sort.go:195-220 | with unknown IDs the tie-break is a strict total order iff no unknown ID lies, in ID order, between two known events that it turns around |
| TopologicalSort.UnknownEventBreaksTheOrder | internal/usecase/state_res_sort.go:200-202 | one such input: two known events, an unknown ID between them, and no order |
| TopologicalSort.KahnIsTheOnlyGreedyRun | internal/usecase/state_res_sort.go:222-240 | exactly one sequence repeatedly removes the least ready event, and it is the specified order |
| TopologicalSort.KahnIsTopoRun | internal/usecase/state_res_sort.go:222-240 | the specified order takes a ready event at every step and stops only when none is ready |
| TopologicalSort.RunRespectsAuthEdges | internal/usecase/state_res_sort.go:164-240 | whichever ready event is taken, there are no duplicates, nothing outside the set, and every in-set auth event comes before its dependents |
| TopologicalSort.ReadyEventsGoStrongestFirst | internal/usecase/state_res_sort.go:195-220 | an event that was ready earlier never had the stronger sender, then the earlier timestamp, then the smaller ID; a listed sender counts by its entry in the power-levels body, any other by the default, and without a readable body all count as 0 |
| TopologicalSort.HigherListedSenderGoesFirst | internal/usecase/state_res_sort.go:144-161 | of two ready events of listed senders, the one with the higher entry goes first |
| TopologicalSort.RunDropsExactlyTheCyclic | internal/usecase/state_res_sort.go:222-240 | whichever ready event is taken, the output is exactly the events from which no auth walk repeats an event |
| TopologicalSort.RunPermutesAcyclicSets | internal/usecase/state_res_sort.go:164-240 | on an acyclic set the output is a permutation of the set |
| TopologicalSort.BuildGraph | internal/usecase/state_res_sort.go:165-185 | an edge for every in-set auth reference and no other; a counter is zero iff the event has none; repeated references are counted each time |
| TopologicalSort.SortCandidates | internal/usecase/state_res_sort.go:195-220 | the ready list comes out permuted, and ordered when the tie-break is an order on it |
| TopologicalSort.Release | internal/usecase/state_res_sort.go:226-237 | lowering counters queues exactly the events whose counter reaches zero, none twice |
| TopologicalSort.SortEventsTopologically | internal/usecase/state_res_sort.go:164-241 | for any input the loop terminates and takes ready events until none is left; when the tie-break is an order the result is the specified order of the set of its inputs, whatever their order |
| AuthRules.CheckAuthFrame | internal/usecase/auth_rule_resolver.go:70-196 | the verdict depends only on the power levels, the create event and, for ordinary events, the sender's membership |
| AuthRules.OnlyTheCreatorActsAtFirst | internal/usecase/auth_rule_resolver.go:70-196 | while the state names no known power levels, exactly the creator may act on others, set levels or, once joined, send state |
| AuthRules.ActingOnOthersIsAsymmetric | internal/usecase/auth_rule_resolver.go:94-145 | of two users at most one may change the other's membership |
| AuthRules.OrdinaryVerdictIff | internal/usecase/auth_rule_resolver.go:165-194 | with power levels known, an ordinary event passes iff its sender is joined and the listed or else default level reaches the one listed for the type, else a non-zero state default, else 50; an unreadable body counts as level 0 against 50 |
| AuthRules.PowerLevelsVerdictIff | internal/usecase/auth_rule_resolver.go:147-163 | new power levels pass iff the level reaches the one listed for them, else a positive state default, else 100 |
| AuthRules.MembershipOfOthersVerdictIff | internal/usecase/auth_rule_resolver.go:129-145 | a membership of somebody else passes iff the sender's level is strictly above theirs |
| AuthRules.OwnMembershipVerdictIff | internal/usecase/auth_rule_resolver.go:121-145 | a membership of one's own, joining or leaving, passes iff its body decodes, and one that does not decode never does |
| StateResolution.TallyVotes | internal/usecase/state_res_sort.go:30-41 | each counter is the number of maps that give the tuple that event |
| StateResolution.PartitionState | internal/usecase/state_res_sort.go:29-57 | the two parts are the entries on which all maps agree and the other tuples, each once |
| StateResolution.GroupByPhase | internal/usecase/state_res_sort.go:96-111 | each list holds exactly the known conflicted events of its phase, in any order |
| StateResolution.CollectedKinds | internal/usecase/state_res_sort.go:96-111 | create, power levels and join rules go to the first phase, members and third-party invites to the second, all else to the third |
| StateResolution.WhatIsEntered | internal/usecase/state_res_sort.go:118-133 | an authorized event is entered under its type and state key, a missing key counting as empty, and new power levels take over the sorting; a refused one changes nothing |
| StateResolution.ApplyPhaseEvents | internal/usecase/state_res_sort.go:117-133 | one phase computes the replay of the specified order against the growing state |
| StateResolution.Resolve | internal/usecase/state_res_sort.go:60-141 | the result is a function of the SET of state maps: permuting or repeating them, or any map-iteration order, changes nothing; an empty list is an error |
| StateResolution.OneMapResolvesToItself | internal/usecase/state_res_sort.go:64-66 | the shortcut for one map is the general result |
| StateResolution.UnconflictedSurvive | internal/usecase/state_res_sort.go:113-140 | every tuple without conflict keeps its entry, or its absence |
| StateResolution.WinnersWereProposed | internal/usecase/state_res_sort.go:68-140 | every resolved entry was given to its tuple by some input map |
| StateResolution.ControlEntriesAreFinal | internal/usecase/state_res_sort.go:135-138 | phases two and three leave power levels, create and join rules alone, and sort by the final power levels |
| StateResolution.MembershipsAreFinal | internal/usecase/state_res_sort.go:135-138 | phase three leaves every membership alone |
| StateResolution.PhaseElects | internal/usecase/state_res_sort.go:117-133 | one phase elects the last candidate that a settled state authorizes |
| StateResolution.FinalStateElectsWinners | internal/usecase/state_res_sort.go:96-138 | the winner of a conflicted membership or ordinary tuple is the last candidate, in its phase's order, that the FINAL state authorizes; absent iff none is |
| StateResolution.OrdinaryWinnersAreEntitled | internal/usecase/state_res_sort.go:117-138 | in the resolved state, the sender of every conflicted ordinary winner is joined and has the level its type needs |
| StateResolution.ConflictedIsAbsentIff | internal/usecase/state_res_sort.go:113-138 | a conflicted tuple of any phase ends up without an entry iff no candidate passes when its turn comes |
| RoomStore.DepthExceedsPrevs | internal/infrastructure/postgres/evento_storage.go:153-165 | the next depth exceeds that of every stored prev event by exceeding the highest by one; without stored prev events it is one |
| RoomStore.LookupsAreEntries | internal/usecase/auth_rule_resolver.go:38-63 | auth events are exactly the existing state entries among those looked up |
| RoomStore.OwnMembershipIsCitedTwice | internal/usecase/auth_rule_resolver.go:38-63 | a user's own member event is appended twice when it exists |
| RoomStore.RoomTables.SaveEvent | internal/infrastructure/postgres/evento_storage.go:167-184 | insert once: a stored ID keeps its row, a new one is appended to the stream |
| RoomStore.RoomTables.UpdateForwardExtremities | internal/infrastructure/postgres/canal_storage.go:246-270 | the tips the event points to go, the event comes, the other tables stay |
| RoomStore.RoomTables.UpsertCurrentState | internal/infrastructure/postgres/canal_storage.go:206-216 | one state entry changes |
| RoomStore.RoomTables.UpsertMembership | internal/infrastructure/postgres/canal_storage.go:194-204 | one membership row changes |
| RoomStore.RoomTables.GetForwardExtremities | internal/infrastructure/postgres/canal_storage.go:272-292 | every tip once, in any order |
| RoomStore.RoomTables.GetMaxDepth | internal/infrastructure/postgres/evento_storage.go:153-165 | the highest depth among the stored prev events, zero when there is none |
| RoomStore.RoomTables.GetJoinRule | internal/infrastructure/postgres/canal_storage.go:80-99 | the rule of some stored join-rules entry, none when its body has none, "invite" when there is no such entry |
| RoomStore.RoomTables.ResolveEventDependencies | internal/usecase/auth_rule_resolver.go:20-66 | the tips, and, each if it exists and in this order, the create event, the power levels, the sender's membership and, for a member event with a state key, the target's membership and the join rules; nothing else |
| RoomStore.CitedEntries | internal/usecase/auth_rule_resolver.go:38-63 | the same for every type, state key and state, as a fact about the lookups |
| RoomDag.GraphIsAcyclic | internal/infrastructure/postgres/evento_storage.go:153-184 | no event is among its own ancestors |
| RoomDag.EveryEventReachesRoot | internal/infrastructure/postgres/evento_storage.go:153-184 | every event has a walk along prev edges to the first event of the room |
| RoomDag.TipsAreUsable | internal/infrastructure/postgres/canal_storage.go:246-292 | the tips are never empty and no tip is an ancestor of another |
| RoomDag.FreshCommitKeepsDag | internal/usecase/room_interaction.go:192-233 | committing a fresh event keeps the graph invariant however stale the tips it was built on |
| RoomDag.CommitKeepsLeavesIff | internal/infrastructure/postgres/canal_storage.go:246-270 | committing any event, stored or new, keeps the tips equal to the leaves iff nothing follows it |
| RoomDag.RedeliveryMakesAFalseTip | internal/infrastructure/postgres/canal_storage.go:246-270 | a two-event room in which an event that arrives again becomes a false tip |
| RoomDag.LateArrivalMakesAFalseTip | internal/infrastructure/postgres/canal_storage.go:246-270 | an event that arrives after its successor becomes a false tip |
| RoomDag.EveryRunKeepsDag | internal/usecase/room_interaction.go:95-130 | under every interleaving of the reads and commits of any number of senders the tips are the leaves, prev and auth events are stored, depths grow, and there is one root |
| RoomServices.ServiceCallIsARun | internal/usecase/room_interaction.go:95-130 | a service call that is not interrupted is one run of the interleaving model, ending in its commit |
| RoomServices.PreparedEventExtends | internal/usecase/room_interaction.go:95-108 | what a sender prepares extends the room it was read from |
| RoomServices.SendEvent | internal/usecase/room_interaction.go:165-247 | refused iff no row says the sender is joined; otherwise the event carries the caller's fields, the tips, the cited entries, the next depth and an ID over all but ID, signatures and unsigned part, with its transaction ID in the unsigned part; it is signed and committed and nothing else changes |
| RoomServices.SendStateEvent | internal/usecase/room_interaction.go:71-163 | as above without a transaction ID, with the state entry and, for a member event with a membership, its row |
| RoomServices.LeaveRoom | internal/usecase/room_membership.go:38-118 | nothing to do for a left or banned user or one without a row, refused for others who are neither joined nor invited, else a leave with all its fields is committed |
| RoomServices.JoinLocalRoom | internal/usecase/room_membership.go:134-213 | by a join rule read from the stored state: public rooms, or invite and private rooms for invited users; a join with all its fields is committed; else refused with no change |
| RoomServices.CheckInvitePowerLevel | internal/usecase/room_membership.go:497-536 | without power levels anybody may invite, with unreadable ones nobody, else those whose listed or else default level reaches the invite level, absent levels being 0 |
| RoomServices.InviteUser | internal/usecase/room_membership.go:373-494 | a joined inviter with the level may invite a user who is neither joined nor banned; for a remote invitee the event is what that server answered; the row is the invitee's |
| MembershipIndex.CommitKeepsIndexIff | internal/usecase/federation_service.go:1342-1365 | adding an event keeps the membership table an exact index iff it is not a member event without a membership |
| MembershipIndex.ProcessSendMember | internal/usecase/federation_service.go:461-561 | a federated join or leave of a known room writes event, state entry and row |
| MembershipIndex.SendMemberKeepsIndexIff | internal/usecase/federation_service.go:461-561 | a federated join or leave, or a countersigned invite, keeps the index iff the event stored under its ID says that membership |
| MembershipIndex.ReusedIdBreaksTheIndex | internal/usecase/federation_service.go:461-507 | a join under the ID of a stored message leaves a row that message does not confirm |
| MembershipIndex.Organize | internal/usecase/room_membership.go:248-264 | the lookup maps of a reply: last event of each ID and of each tuple |
| MembershipIndex.PersistResolved | internal/usecase/room_membership.go:335-354 | the loop over the resolved map, in any order, writes every entry and the row of every member event with a membership |
| MembershipIndex.WinnersAreKnown | internal/usecase/room_membership.go:313-354 | every winner of the resolution is found in the event map, under its own tuple |
| MembershipIndex.ReconcileRemoteJoin | internal/usecase/room_membership.go:245-368 | the transaction resolves, stores and persists the reply; the stored state equals the resolved one iff no local entry is outside it; the index is kept when the reply is consistent |
| MembershipIndex.ReconcileKeepsIndexIff | internal/usecase/room_membership.go:335-362 | the index survives a remote join iff, user by user, the body stored under the winner's ID confirms the row |
| MembershipIndex.LosingEntriesSurviveIff | internal/usecase/room_membership.go:326-340 | a local membership or ordinary entry outlives a join although it is not resolved iff it is conflicted and the resolved state authorizes none of its candidates |
| MembershipIndex.UnresolvedEntriesSurviveIff | internal/usecase/room_membership.go:326-340 | an entry of any kind outlives a join although it is not resolved iff it is conflicted and no candidate passes in its turn |
| MembershipIndex.LosingNameSurvives | internal/usecase/room_membership.go:334-340 | one such room: a name set by somebody who is no member |
| MembershipIndex.MembershipServicesAreAdmissible | internal/usecase/room_membership.go:67-104 | what leave, join and local invite commit keeps the index |
| MembershipIndex.SendServicesAreAdmissibleIff | internal/usecase/room_interaction.go:121-147 | what the send services commit keeps it iff it is no member event without a membership |
| MembershipIndex.EveryRunKeepsIndex | internal/infrastructure/postgres/canal_storage.go:194-216 | over every run of local sends, inbound events, federated joins and leaves and remote joins the table is the exact index of the member entries |
| Genesis.CacheAnswersLikePairsIff | internal/usecase/dag_manage.go:11-22 | the string-keyed cache answers like a pair-keyed one for every list iff the state key holds no separator |
| Genesis.ResolveGenesisAuth | internal/usecase/dag_manage.go:25-61 | auth events are the cached create, power-levels, member and join-rules entries that the event needs, in order, for any sender |
| Genesis.CachedAuthIsExactIff | internal/usecase/dag_manage.go:25-61 | those are the latest earlier entries after every list iff the event does not cite its sender or the sender holds no separator |
| Genesis.LinkedAuthIsLatest | internal/usecase/dag_manage.go:84-114 | in a linked list such an event cites the latest earlier create event and power levels, its sender's membership unless it is their own, and for members the join rules |
| Genesis.LinkAndHashGenesis | internal/usecase/dag_manage.go:64-118 | the loop completes the array in place: each event is linked to its predecessor, authorized, named by its hash and signed |
| Genesis.LinkedFields | internal/usecase/dag_manage.go:69-115 | the k-th event is its draft with depth k, its predecessor as only prev event, the cached auth events of the prefix, an ID over all but ID, signatures and unsigned part, and a signature over that |
| Genesis.LastIdDeterminesChain | internal/util/matrix.go:34-76 | Merkle: two linked lists with the same last ID are equally long and equal event by event, up to signatures and unsigned data |
| Genesis.LinkedIdsAreDistinct | internal/usecase/dag_manage.go:69-96 | no two events of a genesis share an ID |
| Genesis.AuthEventsAreEarlier | internal/usecase/dag_manage.go:25-61 | for any sender, every auth event is an earlier event of the list under a key looked up, so the auth graph is acyclic |
| RoomCreation.OneMemberDraft | internal/usecase/event_builder.go:109-152 | the creator's join, in second place, is the only member event of a genesis |
| RoomCreation.CreateRoom | internal/usecase/room_admin.go:61-190 | one transaction writes the linked genesis, one tip and one membership row; the state then has exactly the entries asked for: version, the creator's join, creator 100 and everybody else 0 with thresholds 50, 100 for power levels and 0 for invites, the rule public iff that preset, name, topic and alias iff given, and the last of each unprotected custom entry |
| RoomCreation.CreatedRoomSays | internal/usecase/event_builder.go:25-152 | the same as a fact about every linked genesis written to empty tables |
| RoomCreation.CreatedRoomIsWellFormed | internal/usecase/room_admin.go:125-157 | a new room satisfies the graph invariant and the membership index |
| ToDevice.ToDeviceStore.InsertMessages | internal/infrastructure/postgres/to_device_storage.go:11-23 | rows are appended in order under consecutive serial IDs |
| ToDevice.ToDeviceStore.GetMessagesSince | internal/infrastructure/postgres/to_device_storage.go:26-49 | the first `limit` rows of the device above a position, in ID order: what is left out follows a full batch |
| ToDevice.ToDeviceStore.DeleteMessagesUpTo | internal/infrastructure/postgres/to_device_storage.go:52-62 | exactly the device's rows up to a position go |
| ToDevice.GetToDeviceSync | internal/usecase/sync_service.go:287-318 | delete exactly what the device acknowledged, answer its next hundred rows in ID order, report the ID of the last; without a device, nothing |
| ToDevice.AcknowledgeTwice | internal/usecase/sync_service.go:294-298 | presenting the same position again deletes nothing more and answers the same |
| ToDevice.BatchAdvances | internal/usecase/sync_service.go:300-315 | moving the position to the end of a batch adds exactly the batch: no gap, no repeat |
| ToDevice.LogIsPrefixAndNothingIsLost | internal/usecase/sync_service.go:285-318 | with requests and responses lost, repeated, delayed and interleaved, the client's log is always a prefix of what was inserted, and what is no longer stored is in the log |
| ToDevice.RoundTripMakesProgress | internal/usecase/sync_service.go:285-318 | a round trip that is not lost lengthens the log by a hundred messages, or to all of them |
| Timeline.GenerateNextSinceToken | internal/usecase/sync_service.go:183-204 | the last position above the token in a room the user has joined or is invited to, or of a member event about them; with none, the highest stored one if it is ahead, else the old one |
| Timeline.GetJoinedRooms | internal/usecase/sync_service.go:382-489 | a joined room is listed iff it is a first sync, or the room has a row above the token, or account data; listed are exactly the rows above the token, in stream order |
| Timeline.GetLeaveRooms | internal/usecase/sync_service.go:491-581 | a left room is listed iff it is a first sync or it has a row above the token and not after the leave event; listed are exactly those, in stream order |
| Timeline.GetInviteRooms | internal/usecase/sync_service.go:330-356 | a room is listed iff a membership row of the user says "invite" and names a stored event of that room above the token; listed are exactly those events, in stream order |
| Timeline.SyncClient | internal/usecase/sync_service.go:104-181 | the reply for every way a long poll can end, when the events, the re-read after waking and the token see different stores, and the messages acknowledged and arrived |
| Timeline.WaitsIff | internal/usecase/sync_service.go:116-219 | a request waits iff it may and there is no new invite, no left room to list, no message for the device, no new event in a joined room and, on a first sync, no state |
| Timeline.ReplyPositionIsOfItsBatch | internal/usecase/sync_service.go:117-179 | any other reply reports the ID of the last message it carries, or the old position when it carries none |
| Timeline.CutShortReplyIsEmpty | internal/usecase/sync_service.go:149-155 | a wait that is cancelled or fails answers with nothing |
| Timeline.TimelineNeverGoesBack | internal/usecase/sync_service.go:183-204 | the position never goes back and never passes what is stored |
| Timeline.TokenGoesBackOnlyWhenCancelled | internal/usecase/sync_service.go:104-181 | over such stores, a reply's token lies before the presented one iff an empty long poll was cancelled and the presented token was not zero |
| Timeline.CancelledReplyGoesBack | internal/usecase/sync_service.go:149-151 | one such reply |
| Timeline.JoinedIsCoveredIff | internal/infrastructure/postgres/evento_storage.go:24-107 | what is read of a joined room lies between the old token and one computed later iff nothing is visible then or something visible is not before it |
| Timeline.StaysInSight | internal/infrastructure/postgres/evento_storage.go:24-65 | that is so while the user stays in the room, and when a newer member event took them out |
| Timeline.OldLeaveHidesAMessage | internal/infrastructure/postgres/evento_storage.go:24-65 | two stores where the membership falls back to an older leave and a delivered message lies beyond the new token |
| Timeline.DeliveredIsCovered | internal/infrastructure/postgres/evento_storage.go:24-151 | every delivered event lies above the old token, and at or below the new one: always in invited and left rooms, in joined rooms iff they stay in sight |
| Timeline.LeftRoomIsDeliveredOnce | internal/infrastructure/postgres/evento_storage.go:109-151 | after a token is given out a left room has nothing more to say |
| Timeline.RequestSkipsNothingIff | internal/usecase/sync_service.go:117-146 | a request delivers a joined room's stretch between its tokens iff no event of the room is stored between its two reads; what is stored there is skipped |
| Timeline.DeadlineReplySkipsAMessage | internal/usecase/sync_service.go:130-147 | a concrete timed-out reply whose token passes a message that no later request returns |
| Timeline.ChainedRequestsPartitionIff | internal/util/matrix.go:78-104 | chained requests over a growing store deliver, for a room the user stays joined in, every event between first and last token, once and in stream order, iff nothing is stored between the two reads of any request |
| Timeline.ChainedRequestsPartition | internal/util/matrix.go:78-104 | in particular when every request reads a store that does not change meanwhile |
| Timeline.NothingIsPending | internal/usecase/sync_service.go:382-489 | after the last request of a chain nothing stored in the room lies above the token, so what was skipped is never asked for again |
| Notifier.PostgresNotifier.Register | internal/infrastructure/postgres/notifier.go:93-100 | a new channel joins the end of its user's list |
| Notifier.PostgresNotifier.WakeUpUsers | internal/infrastructure/postgres/notifier.go:71-90 | every listed channel of the user is filled and the user's key goes |
| Notifier.PostgresNotifier.Cleanup | internal/infrastructure/postgres/notifier.go:103-119 | the channel leaves its list, and an empty list leaves the map |
| Notifier.ReachableBoardIsProper | internal/infrastructure/postgres/notifier.go:70-128 | under every interleaving a listed channel has a free slot, keys exist iff lists are non-empty, lists hold no duplicates, finished waiters are gone |
| Notifier.ReceivesExactlyWhenNotified | internal/infrastructure/postgres/notifier.go:121-127 | a blocked waiter can return with an event iff its user was woken since it registered |
| Notifier.WakeSignalsExactlyTheWaiters | internal/infrastructure/postgres/notifier.go:71-90 | a wake-up fills exactly the slots of the user's waiting channels, after which each of them can return |
| Outbox.ExtractDestinations | internal/usecase/federation_service.go:194-232 | the participating servers and the one behind the first colon of the user whom an invite, leave, ban or knock is about, each once, without our own and the empty name |
| Outbox.FederationCache.PopOutboundQueue | internal/infrastructure/redis_infra/federation_cache.go:99-119 | first in, first out; nothing on an empty queue |
| Outbox.FederationCache.GetAndClearPendingRetries | internal/infrastructure/redis_infra/federation_cache.go:55-82 | the parked events of one server are returned and removed, the others stay |
| Outbox.WorkerRound | internal/usecase/federation_service.go:102-125 | one sender for the popped event and each destination |
| Outbox.FlushPendingRetries | internal/usecase/federation_service.go:1453-1466 | one sender for each parked event of the server |
| Outbox.SendWithRetry | internal/usecase/federation_service.go:127-148 | delivered iff one of five attempts succeeds, else parked; n failures wait 2^(n+1) - 2 seconds |
| Outbox.NothingIsLost | internal/usecase/federation_service.go:102-148 | under every interleaving each pair of event and server is owed as often as it is delivered, in flight and parked; events leave the queue in order; nobody fails more than five times |
| Outbox.EachPairIsInOnePlace | internal/usecase/federation_service.go:1443-1466 | without repeated events each distributed pair is in exactly one of the three places |
| KeyBackup.FlattenRoomKeys | internal/delivery/http_adapter/client/roomkeys/routes.go:244-259 | the rows store exactly the nested map, for any iteration order |
| KeyBackup.GroupRoomKeys | internal/delivery/http_adapter/client/roomkeys/routes.go:225-241 | the nested form of what the rows store |
| KeyBackup.FlatUndoesNest | internal/delivery/http_adapter/client/roomkeys/routes.go:224-259 | nesting a table and flattening it gives the table back |
| KeyBackup.NestOfOverride | internal/infrastructure/postgres/backup_storage.go:112-128 | upserting a nested map overrides the stored one session by session; rooms without sessions vanish |
| KeyBackup.BackupTables.GetLatestBackupVersion | internal/infrastructure/postgres/backup_storage.go:28-55 | the user's highest version, none iff the user has none |
| KeyBackup.BackupTables.PutRoomKeys | internal/infrastructure/postgres/backup_storage.go:112-148 | the rows are upserted, the count is the number of stored keys, the etag grows by one |
| KeyBackup.BackupTables.DeleteRoomKeys | internal/infrastructure/postgres/backup_storage.go:151-171 | the version's rows go, its count is zero, the etag grows by one |
| KeyBackup.CheckPut | internal/usecase/backup_service.go:110-133 | the verdict on the named version, before the transaction |
| KeyBackup.StoreChecked | internal/usecase/backup_service.go:135-150 | the transaction writes exactly the rows of the nested map into the version checked |
| KeyBackup.PutRoomKeys | internal/usecase/backup_service.go:110-150 | with nothing in between, only the latest version is written; every error leaves the tables unchanged |
| KeyBackup.PutLandsOnTheLatestIff | internal/usecase/backup_service.go:116-146 | whatever requests come between check and write, the write lands on the user's latest version iff none of them is a create by that user |
| KeyBackup.LateWriteMissesTheLatest | internal/usecase/backup_service.go:116-146 | one create in between is enough |
| KeyBackup.GetRoomKeys | internal/usecase/backup_service.go:80-100 | any owned version can be read; the reply is its nested form |
| KeyBackup.DeleteRoomKeys | internal/usecase/backup_service.go:153-177 | any owned version can be emptied; every error leaves the tables unchanged |
| KeyBackup.PutRepliesMean | internal/usecase/backup_service.go:111-133 | written iff the string names the latest version, wrong iff it names another owned one (the reply names the latest), not found iff none |
| KeyBackup.VersionStringParses | internal/usecase/backup_service.go:74-77 | the string handed out for a version names that version |
| KeyBackup.ParseVersionIff | internal/usecase/backup_service.go:74-77 | a string names a version iff it is its decimal notation, leading zeros and a sign allowed, and fits 64 bits |
| KeyBackup.GetAfterPut | internal/delivery/http_adapter/client/roomkeys/routes.go:115-192 | end to end, a fetch after a put returns the old map overridden by the new one |
| KeyBackup.PutChangesOnlyTheLatest | internal/usecase/backup_service.go:116-133 | an uninterrupted put leaves row and keys of every version but the latest alone, and of all when another is named |
| KeyBackup.CountEtagAndContents | internal/infrastructure/postgres/backup_storage.go:130-171 | over every run, late writes included, count is the number of stored keys, etag the number of writes, and the contents the writes since the last deletion |
| KeyBackup.CreatedIsLatest | internal/usecase/backup_service.go:35-49 | in every reachable state a version just created is the user's latest |
| SyncToken.TrailingInputIsIgnored | internal/domain/sync_token.go:32-39 | a printed token followed by anything but a digit reads back as the token |
| SyncToken.ScanSignedIff | internal/domain/sync_token.go:32-39 | a number is scanned iff it is spelled out behind an optional sign, to its last digit, and fits 64 bits |
| SyncToken.ParseUndoesEncode | internal/domain/sync_token.go:15-39 | reading a printed token gives the token, for all four 64-bit integers, negatives included |
| SyncToken.EncodeIsInjective | internal/domain/sync_token.go:15-17 | different tokens are printed differently |

## Left out

- HTTP handlers, JSON, network calls, name resolution, logging, configuration, media, sign-in: input and output.
- Cryptography: the hash is an injective parameter, signatures are opaque; hashing and signing errors are not modelled.
- Other rooms: `RoomStore` holds the tables of one room; only `Timeline`, `Notifier` and `Outbox` span rooms.
- Storage errors and rolled-back transactions: a storage call does not fail, so rooms skipped after an error do not occur.
- TopologicalSort.SortEventsTopologically: when the tie-break is no order, which ready event is taken depends on the library's sort and is not said.
- StateResolution.FinalStateElectsWinners: says nothing about third-party invites, whose authorization reads memberships of their own phase, nor about control events, whose authorization reads entries of their own phase.
- RoomServices.InviteUser: a remote server's answer is arbitrary, so for a remote invitee no graph invariant is claimed; the request sent to it is not modelled.
- RoomDag.EveryRunKeepsDag: covers local senders only; federated joins, leaves and invites save events without moving the tips, and inbound events may arrive late or again, for which `CommitKeepsLeavesIff` gives the exact condition.
- MembershipIndex.EveryRunKeepsIndex: invite previews carrying member events, and member events without a membership, update state but not the table; they are excluded by precondition, and `CommitKeepsIndexIff` says exactly why.
- MembershipIndex.ReconcileRemoteJoin: the room stub is not modelled, and the graph invariant is not claimed after it.
- RoomCreation.CreateRoom: alias rows, direct-message data and the invitations sent afterwards are left out.
- ToDevice.LogIsPrefixAndNothingIsLost: assumes serial IDs become visible in increasing order and a client that presents its last accepted token.
- Timeline.SyncClient: one read of the events is one store although it takes several queries; the state block, account data contents, one-time-key counts and the invite preview are not part of the reply, only whether a room has state or account data is.
- Timeline.GetLeaveRooms: the row-by-row statement, like those of the token and of stream order, holds for stores whose rows are in stream order under distinct IDs, as the table's keys guarantee.
- Outbox.NothingIsLost: no crash, expiry of parked events, cache error or undecodable queue entry.
- State at an event, missing-event retrieval, backfill, pagination of messages and public rooms: their results are not used by the modelled code.
- One-time keys, cross-signing, directory, profile, presence, receipts, typing, account data: they would only add easy members.
