# Ledger synchronisation, trust and recovery in Dafny

This project models how the nodes and clients of the ledger come to agree with each other, and proves
what that machinery promises over every input and every run.

- **State synchronisation.** A coordinator asks other nodes for chunks of transactions, checks what it
  gets, stores it and answers such requests itself. `Coordinator.dfy` is the coordinator as a class that
  changes its fields in place, with its event loop; each handler is proved equal to a function in
  `Requester.dfy` or `Responder.dfy`, and safe. `SyncSafety.dfy` proves what every event keeps, whatever
  peers send.
  `HonestServing.dfy` and `SyncLiveness.dfy` prove that what one node sends in answer to another passes
  the other's checks and lengthens its storage. `SyncPipelining.dfy` proves that the next request is sent
  ahead, and that it is the right one. `SyncCompletion.dfy` proves that over whole runs sync to a target
  and bootstrap to a waypoint complete, and when not. `LongPolls.dfy` follows requests that have to wait. `LedgerStorage.dfy` is the small model of
  storage and of the chunk executor that all of this stands on.
- **Trust of clients.** `EpochChange.dfy` and `TrustedStates.dfy` are the chain of validator sets and the
  ratchet of a light client; `StateProofs.dfy` is the server that builds the proofs, and
  `ConcurrentResponses.dfy` says what becomes of two responses to one state.
- **Votes.** `VoteAggregation.dfy` collects the votes of one round into certificates.
- **Recovery, events, configurations, peers.** `Recovery.dfy`, `EventByVersion.dfy`,
  `ConfigPublisher.dfy` and `PeerSelection.dfy`.
- `History.dfy` holds the genuine ledger and the assumption about consensus, `Validators.dfy` voting
  power and quorums, and `SmallLedgers.dfy` concrete ledgers, among them the inputs at which an expected
  property fails.

## Assumptions

The genuine ledger is a sequence of transactions; the epoch of a version is the number of
reconfigurations before it. `History.Safe` says that whatever a quorum of an epoch's validators signed
for that epoch is genuine; `History.FaultBoundMakesSafe` derives it from at most a third of faulty voting
power per epoch. `Unforged` says that the signatures in a message exist. Peers are otherwise arbitrary.

Digests are modelled by what they commit to: an accumulator root is the sequence of transactions below
it, a waypoint value is the record it hashes, and a signature names its key and its message.

## Properties that do not hold as one would expect

- A request sent ahead of storing a chunk names the state after the chunk, except when the ledger info
  of the chunk is no newer than what is committed: then nothing is stored, but the request was sent
  (`PrefetchIsExact`, an if-and-only-if; `OldResponseMisleads` is an instance).
- An honest server's state proof is refused when its epoch changes are cut off at the paging limit and
  the latest ledger info ends exactly the next epoch (`HonestProofAdvances`, an if-and-only-if;
  `BusyLedgerIsCutShort` is an instance). A client that pages towards such a ledger info never arrives
  (`CatchUpArrives`).
- The documentation of the responder says that chunks do not cross epochs. The target ledger info of a
  request is not checked, and a chunk crosses exactly when that target understates the epoch of the last
  version that the chunk reaches (`ChunksStayInEpoch`, an if-and-only-if; `UnderstatedEpochCrosses` is an
  instance); it never does for a genuine target or none (`GenuineTargetsStayInEpoch`).
- A sync request is accepted when its target is above the committed version of the last view, also if
  storage has passed the target. An accepted request can complete if and only if storage has not
  (`AcceptedCompletesIff`); otherwise it stays outstanding and nothing more is stored until it times out
  (`BeyondForever`; `PassedTargetIsStuck` is an instance). A request whose target storage has just reached
  completes at the next commit notice, and then its target need not be committed
  (`ReachedIsNotCommitted`); it is committed whenever a version was missing (`SyncCompletes`).
- The epoch changes of two responses to one client commute, but the responses do not: once the first has
  moved the client's version, the second is accepted only if it brings nothing new, because its
  consistency proof starts at the old version (`SecondResponse`, an if-and-only-if;
  `FurtherResponseIsRefused` is an instance). From a waypoint even the epoch changes only commute if
  nothing that claims a later epoch was skipped (`ConcurrentProofsConfluent`).
- A waypoint that does not close an epoch is never served (`OpenWaypointIsNeverServed`).
- Recovery run again on its own result succeeds exactly when some certificate that commits the root
  certifies the root, a stored descendant of it, or an id under which nothing is stored
  (`SecondRunSucceedsIff`; `SecondRunCanFail` is an instance).
- Without an event count and without an upper event, the check of an event bracket accepts any event at
  or below the version (`UncountedAcceptsAnyEvent`, `UncountedCanMislead`); with a lower event, an upper
  event that carries the largest sequence number is refused (`OnlyTheHonestBracketUncounted`).
- A subscriber whose channel is closed while one of its configurations changes falls behind, and is not
  told again (`StaysInformed`, `MissedIsNotRepeated`).
- Network ids are ordered exactly when at most one of them is a private network other than `vfn`
  (`OrderIff`).

## Model

| member | source | states |
|---|---|---|
| `Validators.CheckVotingPowerOf` | types/src/validator_verifier.rs:224-244 | the loop over authors, in any order, decides exactly whether all are known and their power reaches the quorum |
| `Validators.QuorumsShareHonest` | types/src/validator_verifier.rs:85-99 | two quorums share an author outside any set holding at most a third of the power |
| `Validators.EnoughIff` | types/src/validator_verifier.rs:85-99 | known authors pass exactly when they hold more than two thirds of the power, and an unknown author is what is reported whenever there is one |
| `Validators.HonestAreQuorum` | types/src/validator_verifier.rs:85-99 | everyone outside any set holding at most a third of the power is enough |
| `Validators.VerifiesIff` | types/src/validator_verifier.rs:171-222 | signatures verify exactly when their authors are known and enough and each is its author's over the ledger info |
| `History.VerifiedIsGenuine` | types/src/epoch_state.rs:34-43 | whatever the validators of a real epoch state verify is on the genuine ledger |
| `History.FaultBoundMakesSafe` | consensus/README.md:19-19 | with at most f of 3f+1 votes faulty in every epoch, no quorum signs a ledger info that is not genuine |
| `EpochChange.Verify` | types/src/epoch_change.rs:66-118 | the loop that skips stale entries and then follows the chain accepts exactly proofs whose unseen part is chained from the verifier, and returns the last ledger info |
| `EpochChange.ChainedIsGenuine` | types/src/epoch_change.rs:78-117 | every link of an accepted chain is the genuine end of the next consecutive epoch |
| `EpochChange.VerifiedProofIsGenuine` | types/src/epoch_change.rs:66-118 | a verified proof leads to the genuine end of an epoch that the client had not passed |
| `EpochChange.ConcurrentProofsConfluent` | types/src/epoch_change.rs:66-118 | of two proofs that verify from one state, after adopting one the other leads where it would have led, is stale or breaks off, exactly as it reaches further and as nothing of a later epoch was skipped |
| `TrustedStates.EpochRatchetIsTruthful` | types/src/trusted_state.rs:212-255 | an epoch change leads to the real validators of a strictly later epoch, with a genuine waypoint in that epoch or ending the one before, and the matching accumulator |
| `TrustedStates.VersionRatchetIsTruthful` | types/src/trusted_state.rs:256-295 | a version change leads to a strictly later genuine waypoint of the same epoch, with the matching accumulator |
| `TrustedStates.RunsAreTruthful` | types/src/trusted_state.rs:174-296 | whatever responses arrive, every state of a run is truthful |
| `TrustedStates.RunsAreMonotone` | types/src/trusted_state.rs:174-296 | over any run neither the trusted version nor the trusted epoch goes back, and no state returns to a bare waypoint |
| `TrustedStates.ClientsNeverFork` | types/src/trusted_state.rs:174-296 | two clients, whichever servers they asked, never hold conflicting validators or histories |
| `ConcurrentResponses.SecondResponse` | types/src/trusted_state.rs:174-296 | of two responses that one state accepts, when the second is still accepted after the first, and what it then brings: nothing if the version moved, otherwise what it would have brought at once |
| `ConcurrentResponses.FurtherIsRefused` | types/src/trusted_state.rs:271-293 | if the first moved the version and the second would have led further, the second is refused |
| `StateProofs.HonestProofAdvances` | storage/dijetsdb/src/lib.rs:789-846 | an honest server's proof is accepted if and only if it is not cut short at the wrong place, and then brings the client a page of epochs further or to the latest ledger info |
| `StateProofs.CatchUpArrives` | storage/dijetsdb/src/lib.rs:789-846 | repeated requests reach the latest ledger info within one round per epoch, or never, as an arithmetic condition on the distance decides |
| `LedgerStorage.TrustedEpochIsNext` | state-sync/src/shared_components.rs:31-47 | the trusted epoch is the epoch of the next version the node needs, and its validators are the real ones |
| `LedgerStorage.ExecuteCommitsPrefix` | execution/executor/src/lib.rs:602-672 | a chunk executed against a genuine target commits a longer prefix of the ledger, never past the target, with a ledger info exactly at its end or none |
| `LedgerStorage.ExecuteKeepsFaithful` | execution/executor/src/lib.rs:118-253 | it keeps storage a genuine prefix with the genuine end of every closed epoch |
| `LedgerStorage.ExecuteFollowsTarget` | execution/executor/src/lib.rs:118-253 | whatever storage and target are, an executed chunk leaves a prefix of what the target commits to, without a gap, or adds nothing; a ledger info committed with it commits to exactly what is stored |
| `Coordinator.StateSyncCoordinator.constructor` | state-sync/src/coordinator.rs:96-140 | a coordinator starts with the state of its storage and nothing outstanding, within the invariant of every history that its storage is faithful to |
| `Coordinator.StateSyncCoordinator.SyncStateWithLocalStorage` | state-sync/src/coordinator.rs:309-321 | the view of storage is current; in whatever world, the step is safe |
| `Coordinator.StateSyncCoordinator.WaitForInitialization` | state-sync/src/coordinator.rs:328-340 | the listener is told at once or remembered; in whatever world, the step is safe |
| `Coordinator.StateSyncCoordinator.ProcessSyncRequest` | state-sync/src/coordinator.rs:345-396 | the whole effect of a sync request, with the target compared to the committed version of the old view; in whatever world, the step is safe |
| `Coordinator.StateSyncCoordinator.ProcessCommitNotification` | state-sync/src/coordinator.rs:424-482 | the whole effect of a commit: fresh view, answered long polls, reached requests; in whatever world, the step is safe |
| `Coordinator.StateSyncCoordinator.CheckInitializedOrSyncRequestCompleted` | state-sync/src/coordinator.rs:487-531 | listener and sync request are told exactly when due |
| `Coordinator.StateSyncCoordinator.ProcessChunkRequest` | state-sync/src/coordinator.rs:640-920 | a request is refused, remembered as a long poll or answered, with the response named; in whatever world, the step is safe |
| `Coordinator.StateSyncCoordinator.CheckSubscriptions` | state-sync/src/coordinator.rs:1611-1650 | expired long polls go, ready ones are answered, the rest stay |
| `Coordinator.StateSyncCoordinator.DeliverReady` | state-sync/src/coordinator.rs:1581-1605 | the loop sends exactly the responses of the ready long polls, in any order |
| `Coordinator.StateSyncCoordinator.ProcessChunkResponse` | state-sync/src/coordinator.rs:1013-1076 | the whole effect of a response, including the commit step when nothing was stored; in whatever world, the step is safe |
| `Coordinator.StateSyncCoordinator.VerifyChunkResponseIsValid` | state-sync/src/coordinator.rs:1078-1129 | the first check that a response fails, if any |
| `Coordinator.StateSyncCoordinator.VerifyResponseWithTargetAndHighest` | state-sync/src/coordinator.rs:1131-1168 | the checks of a progressive response |
| `Coordinator.StateSyncCoordinator.CalculateNewKnownVersionAndEpoch` | state-sync/src/coordinator.rs:1218-1244 | the version and epoch to ask for next |
| `Coordinator.StateSyncCoordinator.CreateSyncRequestChunkTarget` | state-sync/src/coordinator.rs:1258-1273 | the target of a sync request, unless it is already passed |
| `Coordinator.StateSyncCoordinator.SendNextRequest` | state-sync/src/coordinator.rs:1296-1328 | the request sent ahead, with the target that the mode calls for |
| `Coordinator.StateSyncCoordinator.ProcessResponseWithTargetAndHighest` | state-sync/src/coordinator.rs:1283-1364 | the whole effect of a progressive chunk |
| `Coordinator.StateSyncCoordinator.ProcessResponseWithWaypointLi` | state-sync/src/coordinator.rs:1367-1426 | the whole effect of a waypoint chunk |
| `Coordinator.StateSyncCoordinator.ProcessApplyChunk` | state-sync/src/coordinator.rs:923-1008 | a chunk is applied by the kind of its ledger info |
| `Coordinator.StateSyncCoordinator.ValidateAndStoreChunk` | state-sync/src/coordinator.rs:1429-1452 | the chunk is stored, or nothing is when its ledger info is old |
| `Coordinator.StateSyncCoordinator.CheckProgress` | state-sync/src/coordinator.rs:1464-1529 | the whole effect of the periodic check; in whatever world, the step is safe |
| `Coordinator.StateSyncCoordinator.SendChunkRequestWithTarget` | state-sync/src/coordinator.rs:1556-1579 | a request is sent if a peer is known |
| `Coordinator.StateSyncCoordinator.ProcessNewPeer` | state-sync/src/coordinator.rs:226-234 | a connected peer is known, and progress is checked; the step is safe |
| `Coordinator.StateSyncCoordinator.ProcessLostPeer` | state-sync/src/coordinator.rs:236-243 | a lost peer is forgotten; the step is safe |
| `Coordinator.StateSyncCoordinator.HandleEvent` | state-sync/src/coordinator.rs:143-224 | one turn of the event loop does what the event's handler does, and is safe in whatever world |
| `Coordinator.StateSyncCoordinator.Start` | state-sync/src/coordinator.rs:143-224 | the event loop: after every event the invariant holds, reports are true and nothing stored is lost, if it began so and the events were admissible |
| `SyncSafety.StartIsSafe` | state-sync/src/coordinator.rs:96-140 | a node starts within the invariant from any genuine storage and waypoint |
| `SyncSafety.ProgressiveIsSafe` | state-sync/src/coordinator.rs:1283-1364 | a progressive chunk from anyone keeps storage genuine, never goes past its ledger info, and leaves a full node with a target that is ahead of it, in its epoch and verified; a target is dropped only once reached |
| `SyncSafety.WaypointIsSafe` | state-sync/src/coordinator.rs:1367-1426 | a waypoint chunk from anyone keeps storage genuine and never goes past the waypoint |
| `SyncSafety.EveryStepIsSafe` | state-sync/src/coordinator.rs:143-531 | every event keeps the invariant; storage only grows, and only by consensus while it executes, by waypoint chunks before initialisation, by progressive chunks on full nodes, or on validators with an outstanding request up to its target; only true reports are made |
| `SyncSafety.RunsAreSafe` | state-sync/src/coordinator.rs:143-531 | over every run the invariant holds, nothing stored is lost and every report stays true |
| `SyncSafety.NeverPassesTarget` | state-sync/src/coordinator.rs:1131-1168 | while a sync request is outstanding storage never passes its target, unless it was past it on acceptance |
| `SyncSafety.WriteDiscipline` | state-sync/src/coordinator.rs:1013-1194 | over every run a sync request is only outstanding on an initialised validator whose consensus does not execute, and storage is only written by those who may, as far as they may |
| `SyncSafety.NodesNeverFork` | state-sync/src/coordinator.rs:143-531 | the storages of any two nodes, at any points of any runs, are prefixes of one another |
| `SyncSafety.CheckedIff` | state-sync/src/coordinator.rs:1078-1194 | a response is looked at exactly when it comes from a known peer, continues storage and fits the mode of the node; otherwise the error tells what fails first |
| `SyncSafety.OnlyVerifiedIsTaken` | state-sync/src/coordinator.rs:1330-1420 | every ledger info of a chunk that is taken was verified by the trusted validators or by the waypoint |
| `SyncSafety.PeersAre` | state-sync/src/coordinator.rs:226-243 | only connecting and leaving change the known peers |
| `SyncPipelining.StoredChunkMoves` | state-sync/src/coordinator.rs:1429-1452 | a stored chunk moves the node by its length, and to the next epoch exactly when its end reconfigures |
| `SyncPipelining.ProgressivePrefetch` | state-sync/src/coordinator.rs:1291-1328 | for a progressive chunk the request sent ahead is exact if and only if the chunk's ledger info is not old or the chunk is empty |
| `SyncPipelining.WaypointPrefetch` | state-sync/src/coordinator.rs:1375-1388 | for a waypoint chunk it is always exact, also at epoch boundaries |
| `SyncPipelining.PrefetchIsExact` | state-sync/src/coordinator.rs:1218-1244 | both together, for any response that is accepted |
| `SyncPipelining.PrefetchIsTheNextRequest` | state-sync/src/coordinator.rs:1291-1328 | in every mode a node that takes a chunk has sent exactly one request, word for word the one that suits its new state, with a target ahead of it if any; or none, exactly when its waypoint or sync target is reached |
| `SyncPipelining.RequestIsSentAhead` | state-sync/src/coordinator.rs:1291-1328 | that request is sent whatever becomes of the chunk, before it is verified |
| `SyncPipelining.PrefetchAdvances` | state-sync/src/coordinator.rs:1283-1426 | a node that can supply what was asked for ahead sends one message to the one that asked, and delivering it lengthens storage once more |
| `SyncPipelining.TargetAfterChunk` | state-sync/src/coordinator.rs:1338-1363 | after a chunk the target is the old one if still ahead of storage, otherwise the highest ledger info of the response if that is ahead, otherwise none |
| `SyncPipelining.TickOutcome` | state-sync/src/coordinator.rs:1464-1529 | the periodic check does nothing while consensus executes, and after a timeout asks exactly for what the node's state calls for; past its sync target it only reports that |
| `HonestServing.ChunksStayInEpoch` | state-sync/src/coordinator.rs:775-851 | a chunk contains a version of a later epoch than the request's if and only if the request's target understates the epoch of the last version that the chunk reaches |
| `HonestServing.GenuineTargetsStayInEpoch` | state-sync/src/chunk_response.rs:55-56 | that never happens for a genuine target or for none |
| `HonestServing.HighestFits` | state-sync/src/coordinator.rs:775-795 | the latest ledger info is attached as the highest exactly when it is newer than the target, of the same epoch and does not end that epoch |
| `HonestServing.WaypointRead` | storage/dijetsdb/src/ledger_store/mod.rs:67-119 | an epoch-ending ledger info is found exactly at versions that close an epoch, and it is the genuine one |
| `HonestServing.ChunksAreBounded` | state-sync/src/coordinator.rs:797-872 | no answer holds more transactions than were asked for, than the node sends or than storage reads |
| `HonestServing.WaypointRefusals` | state-sync/src/coordinator.rs:797-817 | a waypoint that is not committed yet is refused, and so is one that the requester has passed |
| `SyncLiveness.ChosenIsGood` | state-sync/src/coordinator.rs:900-920 | the ledger info that an honest responder picks is genuine, verifiable by the requester, ahead of it and not past its target |
| `SyncLiveness.GenuineListExecutes` | execution/executor/src/lib.rs:118-253 | a genuine list up to the end of its epoch is executed and committed with the right ledger info |
| `SyncLiveness.ProgressiveExchange` | state-sync/src/coordinator.rs:1078-1168 | one exchange with an honest responder: valid request, answer, all checks passed, strictly longer storage, and a sync request that ends exactly at its target with that target committed |
| `SyncLiveness.WaypointExchange` | state-sync/src/coordinator.rs:797-851 | the same for bootstrap; every epoch's end is committed exactly at its version, and reaching the waypoint initialises the node |
| `SyncLiveness.OpenWaypointIsNeverServed` | state-sync/src/coordinator.rs:797-826 | a waypoint that does not close an epoch is answered by no honest responder |
| `SyncLiveness.RequestsAreAnswered` | state-sync/src/coordinator.rs:684-795 | in every mode every request that suits the node's state is valid and answered at once by an honest responder that can supply it |
| `SyncLiveness.TickAsksForCurrent` | state-sync/src/coordinator.rs:1502-1526 | the periodic check sends the request of the current mode |
| `SyncLiveness.HonestAnswersAdvance` | state-sync/src/coordinator.rs:1013-1076 | in every mode what an honest node sends in answer to a request that suits the state is accepted and lengthens storage |
| `SyncLiveness.RequestOutcome` | state-sync/src/coordinator.rs:640-720 | any request is refused as ill-formed, remembered, refused because it cannot be answered, or sent exactly its answer, to the one that asked and to nobody else |
| `SyncLiveness.TwoNodesExchange` | state-sync/src/coordinator.rs:684-795 | a node that can supply what another asks for sends exactly one message, to the one that asked; delivering it is accepted and lengthens the storage of the one that asked |
| `SyncCompletion.ProgressOverRuns` | state-sync/src/coordinator.rs:1013-1076 | over any run, whatever else happens, storage grows by at least one transaction per honest answer |
| `SyncCompletion.BootstrapCompletes` | state-sync/src/coordinator.rs:1367-1426 | after as many honest answers as versions are missing below the waypoint, the node is initialised |
| `SyncCompletion.SyncCompletes` | state-sync/src/coordinator.rs:487-531 | unless storage is past the target, after as many honest answers as versions are missing, or at the next commit notice if none is, the request was reported as reached with exactly the ledger up to the target in storage; if versions were missing, the target's version is committed |
| `SyncCompletion.SyncRunExists` | state-sync/src/coordinator.rs:1013-1076 | when the target is ahead, a conversation with one honest node at or past it completes the request in no more turns than versions are missing and commits the target's version: every event is what that node sends in answer to the request of the moment, which after the first turn had been sent ahead |
| `SyncCompletion.CompletesIff` | state-sync/src/coordinator.rs:487-531 | with such a responder, an outstanding request can complete if and only if storage is not past its target |
| `SyncCompletion.AcceptedRequest` | state-sync/src/coordinator.rs:345-396 | a request above the committed version of the last view is accepted; the error for a target that storage has reached or passed leaves it outstanding, and otherwise the first chunk is asked for at once, if a peer is known |
| `SyncCompletion.UnacceptedRequest` | state-sync/src/coordinator.rs:345-370 | a full node refuses; a request for the committed version is reported as reached at once, one below it as failed, and neither is left outstanding |
| `SyncCompletion.AcceptedCompletesIff` | state-sync/src/coordinator.rs:345-396 | an accepted request can complete if and only if storage was not past its target on acceptance |
| `SyncCompletion.SyncByConversation` | state-sync/src/coordinator.rs:345-531 | from an accepted request whose target is ahead, without any timer: the first chunk is asked for at once, every later one when the one before arrives, an honest node answers each time, and the target ends up stored, committed and reported as reached |
| `SyncCompletion.BeyondForever` | state-sync/src/coordinator.rs:1258-1273 | a request whose target storage has passed stays outstanding over every run without a timeout, and nothing more is stored |
| `SyncCompletion.BootstrapRunExists` | state-sync/src/coordinator.rs:1367-1426 | from every state that is not initialised, such a conversation with one honest node at or past the waypoint initialises the node in no more turns than versions are missing |
| `SyncCompletion.RequestFate` | state-sync/src/coordinator.rs:1464-1501 | in one event an outstanding sync request is given up, reported as failed and consensus resumed exactly when it timed out, replaced only by another request, and otherwise goes on or is completed |
| `SyncCompletion.ListenersAreTold` | state-sync/src/coordinator.rs:328-340 | over every run, whoever waits for initialisation goes on waiting until it has happened, and is told then |
| `LongPolls.LongPollGetsTheSameAnswer` | state-sync/src/coordinator.rs:1581-1650 | over every run in which its peer sends no other request, a request that had to wait is remembered until its time is over, and then sent nothing, or until something new is committed, and then sent exactly what the same request would get at that time; at no commit notice before was there anything to send |
| `VoteAggregation.PendingVotes.constructor` | consensus/src/pending_votes.rs:61-67 | a collector starts empty |
| `VoteAggregation.PendingVotes.InsertVote` | consensus/src/pending_votes.rs:71-191 | the whole effect of a vote: duplicate, equivocation, recorded, certificate formed, or error |
| `VoteAggregation.AlwaysWellIndexed` | consensus/src/pending_votes.rs:83-184 | after any insertions the signers of each ledger info are exactly the authors whose recorded vote is for it, hence disjoint; timeout signers are timeout voters |
| `VoteAggregation.SignersAreFirstVoters` | consensus/src/pending_votes.rs:83-122 | the signers of a ledger info are exactly the authors whose first vote was for it |
| `VoteAggregation.ArrivalOrderIsIrrelevant` | consensus/src/pending_votes.rs:83-122 | without equivocation the signer sets depend neither on order nor on repetition |
| `VoteAggregation.SignaturesAreCast` | types/src/ledger_info.rs:235-237 | every collected signature was carried by an inserted vote of its author for that ledger info |
| `VoteAggregation.ReportedQcIsCertified` | consensus/src/pending_votes.rs:124-133 | a reported certificate holds a quorum of known authors, each with the signature of a vote for that ledger info |
| `VoteAggregation.OneCertifiedPerCollector` | consensus/src/pending_votes.rs:71-191 | one collector certifies at most one ledger info, however many voters equivocate |
| `VoteAggregation.CollectorsAgree` | consensus/src/pending_votes.rs:71-191 | with at most a third of Byzantine power any two certificates of any two collectors carry the same ledger info |
| `VoteAggregation.QuorumIsReported` | consensus/src/pending_votes.rs:124-133 | once the known signers of a ledger info are a quorum, a certificate for it has been reported |
| `VoteAggregation.HonestVotesCertify` | consensus/src/pending_votes.rs:124-133 | when all voters are known and everyone outside a tolerated set votes first for a ledger info, a certificate for it is reported |
| `VoteAggregation.UnknownVoterBlocks` | consensus/src/pending_votes.rs:139-148 | an unknown voter for a ledger info prevents every later certificate for it |
| `VoteAggregation.RepeatedVotes` | consensus/src/pending_votes.rs:83-107 | a vote is reported as equivocating exactly when its author's first vote was for another ledger info, and as a duplicate exactly when it was for the same one and this vote is no new timeout |
| `VoteAggregation.AddedVotes` | consensus/src/pending_votes.rs:134-148 | an added vote reports the power of those whose first vote was for its ledger info, which is no quorum; the only error is an unknown author |
| `VoteAggregation.TimeoutsAreVoted` | consensus/src/pending_votes.rs:152-184 | a timeout certificate is signed by a quorum of authors who sent timeout votes |
| `VoteAggregation.TimeoutCertificateIsCast` | consensus/src/pending_votes.rs:152-175 | a timeout certificate of a round is about that epoch and round, and each of its signatures was carried by an inserted timeout vote of its author |
| `VoteAggregation.HonestTimeoutsCertify` | consensus/src/pending_votes.rs:152-184 | when all voters are known and everyone outside a tolerated set times out, a quorum or timeout certificate is reported |
| `Recovery.SortIs` | consensus/src/persistent_liveness_storage.rs:111-112 | the sort orders by epoch and round and keeps the blocks |
| `Recovery.FindBlocksToPrune` | consensus/src/persistent_liveness_storage.rs:266-287 | the two retain loops compute the kept blocks, the kept certificates and the ids to remove |
| `Recovery.RecoverFrom` | consensus/src/persistent_liveness_storage.rs:80-237 | the whole of recovery, with its errors, the virtual genesis block and the epoch filter of vote and timeout |
| `Recovery.RecoversIff` | consensus/src/persistent_liveness_storage.rs:80-139 | a ledger that ends its epoch always recovers; otherwise exactly when the block with its id, a certificate of it and one that commits it are stored, and the error names the first that is missing |
| `Recovery.RootIsFirst` | consensus/src/persistent_liveness_storage.rs:92-138 | the root is certified and ordered by the first stored certificates that do so, before the virtual ones, and carries the proof that the ledger is committed |
| `Recovery.MessagesOfRootEpoch` | consensus/src/persistent_liveness_storage.rs:221-236 | the stored vote and timeout certificate are recovered unchanged if and only if they are of the root's epoch: the next one if the ledger ends its epoch, else that of the stored block with the ledger's id |
| `Recovery.KeptDescends` | consensus/src/persistent_liveness_storage.rs:266-287 | what is kept descends from the root along parent links, for blocks in any order |
| `Recovery.PruneIsReachability` | consensus/src/persistent_liveness_storage.rs:266-287 | when keys rise along parent links, the single pass over sorted blocks keeps exactly what is reachable from the root |
| `Recovery.ParentsComeFirst` | consensus/src/persistent_liveness_storage.rs:273-284 | the parent of every kept block is the root or an earlier kept block |
| `Recovery.RecoveryKeepsDescendants` | consensus/src/persistent_liveness_storage.rs:80-237 | recovery keeps exactly the stored descendants of the root, sorted |
| `Recovery.RecoveredInOrder` | consensus/src/persistent_liveness_storage.rs:111-112 | the recovered blocks come by epoch, and within an epoch by round |
| `Recovery.RecoveryPrunesTheRest` | consensus/src/persistent_liveness_storage.rs:266-287 | it returns exactly the other ids, and keeps exactly the certificates of the root and of kept blocks |
| `Recovery.RecoveryIsIdempotent` | consensus/src/persistent_liveness_storage.rs:332-396 | when a second run succeeds it finds the same root and certificate, keeps the same blocks and certificates in the same order and prunes nothing; it finds the same ordering certificate unless that was pruned |
| `Recovery.SecondRunSucceedsIff` | consensus/src/persistent_liveness_storage.rs:119-128 | a second run succeeds if and only if some certificate that commits the root certifies the root, a stored descendant of it, or an id under which nothing is stored |
| `Recovery.SecondRunCanFail` | consensus/src/persistent_liveness_storage.rs:119-128 | an input at which the second run finds no ledger info for the root |
| `Recovery.ReadingOrderIsIrrelevant` | consensus/src/consensusdb/mod.rs:53-80 | the order in which the database returns its entries changes neither the root nor the set of kept blocks |
| `EventByVersion.VerifiedIsInStream` | types/src/contract_event.rs:345-387 | an event verifies exactly when it is the event of the stream at its sequence number |
| `EventByVersion.OnlyTheHonestBracket` | types/src/contract_event.rs:454-567 | with the true count exactly the honest bracket is accepted, and none for a version above the ledger's |
| `EventByVersion.OnlyTheHonestBracketUncounted` | types/src/contract_event.rs:454-567 | without a count but with an upper event exactly the honest bracket is accepted, except for the largest sequence number, and none for a version above the ledger's |
| `EventByVersion.HonestLowerIsLatest` | storage/dijetsdb/src/lib.rs:947-1017 | the lower event of the honest bracket is the latest one at or below the version |
| `EventByVersion.UncountedAcceptsAnyEvent` | types/src/contract_event.rs:468-477 | without a count and an upper event exactly the events at or below the version are accepted, and so is none |
| `EventByVersion.UncountedCanMislead` | types/src/contract_event.rs:468-477 | the absence of events is accepted although there are some |
| `EventByVersion.CountIsRespected` | types/src/contract_event.rs:479-566 | whatever count is given, no accepted bracket contradicts it: events shown are counted, adjacent, and without an upper event the lower one is the last |
| `ConfigPublisher.ExecutorProxy.constructor` | state-sync/src/executor_proxy.rs:69-87 | every subscriber starts with the initial configurations |
| `ConfigPublisher.ExecutorProxy.PublishOnChainConfigUpdates` | state-sync/src/executor_proxy.rs:249-315 | the whole effect of a call: who is told, what is cached, what is reported |
| `ConfigPublisher.StaysInformed` | state-sync/src/executor_proxy.rs:262-304 | a subscriber that agrees with the cache goes on agreeing if and only if it does not miss a change because its channel is closed |
| `ConfigPublisher.ToldIffConcerned` | state-sync/src/executor_proxy.rs:249-315 | exactly the subscribers with a changed configuration or an emitted event, and an open channel, get the new payload; the call fails exactly when a concerned one could not be told |
| `ConfigPublisher.MissedIsNotRepeated` | state-sync/src/executor_proxy.rs:262-304 | a missed change is not sent again until something else affects the subscriber |
| `ConfigPublisher.RunsStayCoherent` | state-sync/src/executor_proxy.rs:249-315 | over every run without missed changes every subscriber's last payload agrees with the cache on what it subscribes to |
| `PeerSelection.OrderIff` | config/src/network_id.rs:98-125 | the comparison is a strict total order on a set of networks if and only if at most one is a private network other than vfn |
| `PeerSelection.RequestManager.constructor` | state-sync/src/request_manager.rs:91-107 | a manager starts without peers at the validator level |
| `PeerSelection.RequestManager.EnablePeer` | state-sync/src/request_manager.rs:109-143 | a valid peer becomes known with its starting score; a known one keeps its score |
| `PeerSelection.RequestManager.DisablePeer` | state-sync/src/request_manager.rs:145-158 | a lost peer is forgotten |
| `PeerSelection.RequestManager.UpdateScore` | state-sync/src/request_manager.rs:164-186 | the new score of a known peer |
| `PeerSelection.RequestManager.PickPeer` | state-sync/src/request_manager.rs:537-548 | some known peer of the network |
| `PeerSelection.RequestManager.PickPeers` | state-sync/src/request_manager.rs:231-256 | one known peer of each network, in whatever order they are gone through, up to the first that is not below the level, to which the level moves; empty exactly when no peer is known |
| `PeerSelection.OrderedPick` | state-sync/src/request_manager.rs:231-256 | through ordered networks these are the populated networks below the level and the first at or above it |
| `PeerSelection.RequestManager.AddRequest` | state-sync/src/request_manager.rs:331-348 | a request is recorded, and its multicast timer restarts exactly when the level changed |
| `PeerSelection.RequestManager.RemoveRequests` | state-sync/src/request_manager.rs:433-451 | exactly the older requests that timed out are removed |
| `PeerSelection.RequestManager.HasRequestTimedOut` | state-sync/src/request_manager.rs:455-485 | after a timeout every asked peer pays, and the level moves up after the multicast timeout |
| `PeerSelection.RequestManager.ProcessSuccessResponse` | state-sync/src/request_manager.rs:366-377 | a success raises the score and may lower the level |
| `PeerSelection.ScoresStayInRange` | state-sync/src/request_manager.rs:32-36 | over every run from the start scores stay between 1 and 100 |
| `PeerSelection.ScoresMove` | state-sync/src/request_manager.rs:164-186 | success raises a score and failures lower it, unless it is at its bound; a wrong chunk weighs more than four timeouts and less than five |
| `PeerSelection.KnownIff` | state-sync/src/request_manager.rs:109-158 | over every run the known peers are exactly those that were admitted and not disabled since: any peer of the validator and vfn networks, elsewhere those that this node dialed |
| `PeerSelection.StartingScores` | state-sync/src/request_manager.rs:120-143 | a peer starts at the top score if preferred and at half of it otherwise; a known peer keeps its score |
| `PeerSelection.PendingIff` | state-sync/src/request_manager.rs:331-348 | over every run a request is in flight exactly when it was sent and not forgotten since, with the time and peers of the last sending |
| `PeerSelection.TimedOutIff` | state-sync/src/request_manager.rs:455-465 | over every run a request has timed out exactly when its time has passed since it was last sent, if it was |
| `PeerSelection.TimeoutCosts` | state-sync/src/request_manager.rs:466-476 | a timeout costs exactly the peers of the last sending, each as often as it is listed |
| `PeerSelection.EscalatesIff` | state-sync/src/request_manager.rs:476-485 | over every run the level moves up exactly when the request timed out and has been asked for at one level for as long as the multicast timeout |
| `PeerSelection.LevelsMoveUp` | state-sync/src/request_manager.rs:476-485 | from the validator level no network is passed over, and two moves up reach every network |
| `PeerSelection.SuccessLowersLevel` | state-sync/src/request_manager.rs:366-377 | a success brings the level back to a more important network, and raises the peer's score |
| `PeerSelection.PicksWheneverPossible` | state-sync/src/request_manager.rs:190-256 | over every run, and for any order of networks, picking comes out empty exactly when no peer is known, and every known peer has a positive score |
| `PeerSelection.PublicLevelReachesAll` | state-sync/src/request_manager.rs:231-256 | at the public level one peer of every populated network is asked |
| `SmallLedgers.MirrorIsServable` | storage/dijetsdb/src/ledger_store/mod.rs:67-158 | for every history of a single validator there is storage that is genuine and verifiable by others |
| `SmallLedgers.BusyLedgerIsCutShort` | storage/dijetsdb/src/lib.rs:789-846 | for every paging limit a ledger on which a truthful client refuses an honest server's state proof |
| `SmallLedgers.OldResponseMisleads` | state-sync/src/coordinator.rs:1439-1447 | a response that is accepted and stores nothing, while the request sent ahead skips its transactions |
| `SmallLedgers.UnderstatedEpochCrosses` | state-sync/src/coordinator.rs:900-920 | a valid request whose chunk leaves the request's epoch |
| `SmallLedgers.PassedTargetIsStuck` | state-sync/src/coordinator.rs:345-396 | a request that is accepted with an error and that no run completes |
| `SmallLedgers.ReachedIsNotCommitted` | state-sync/src/coordinator.rs:487-531 | a request that is reported as reached although its target's version is not committed |
| `SmallLedgers.FurtherResponseIsRefused` | types/src/trusted_state.rs:271-293 | two responses that one client accepts, of which the further one is refused after the other |

## Left out

- Channels, tasks, timers and metrics: callbacks and messages are recorded, and time is an input.
- Failing database reads: handlers are modelled for storage that can be read; a handler that cannot read returns early without change in the source.
- Cryptography, Merkle accumulators and serialisation: digests stand for what they commit to.
- The virtual machine: a transaction carries the reconfiguration that executing it causes.
- Scores inside the coordinator: the coordinator only knows whether a peer is connected; `PeerSelection.dfy` models the request manager by itself.
- Coordinator.StateSyncCoordinator.ProcessCommitNotification: does not model the removal of old requests, the score of the peer, the notifications of mempool and consensus, or the publication of configurations, which leave the coordinator's own fields alone.
- Coordinator.StateSyncCoordinator.ProcessChunkRequest: does not model the penalty for an invalid request or a response that cannot be sent, because peers and channels are not part of it.
- Coordinator.StateSyncCoordinator.ProcessChunkResponse: does not model score changes, because the request manager is modelled by itself.
- Coordinator.StateSyncCoordinator.VerifyChunkResponseIsValid: does not model penalties or the error for an outdated multicast response, which both depend on the request manager; such a response is refused as not sequential.
- Coordinator.StateSyncCoordinator.ProcessApplyChunk: does not model the penalty for an invalid chunk or the recorded request times.
- Coordinator.StateSyncCoordinator.ProcessNewPeer: models peers that the request manager accepts; for another one the source returns an error and changes nothing.
- Coordinator.StateSyncCoordinator.SendChunkRequestWithTarget: does not model which peers are picked, which `PeerSelection.RequestManager.PickPeers` states, or sends that fail.
- Overflow of the doubled total voting power in the quorum computation, and of epochs in the virtual genesis block.
- Recovery.RecoveryIsIdempotent: the second run reads what is left in the order of the first; for another order `Recovery.ReadingOrderIsIrrelevant` gives the same blocks, and those of one epoch and round may change places.
- VoteAggregation.AlwaysWellIndexed: which timeout voters sign the partial timeout certificate depends on the order of arrival, because a vote that completes a quorum certificate is not added to it; only inclusion is stated.
- PeerSelection.RequestManager.PickPeers: sampling by weight is a choice among peers with a positive score, and scores are real numbers; what the map of networks does when its keys are not ordered is any order.
- Penalties for chunks of the wrong version, which look requests up by another version than they are stored under.
- The round manager, the epoch manager, the block store and the safety rules of consensus.
- The JSON-RPC service, configuration files and command line tools.
