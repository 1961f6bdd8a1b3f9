/**
 * The coordinator as the object it is: handlers that update its fields in place, each proved to do
 * to the node what the functions of `Responder` and `Requester` say, and to keep the invariant of
 * `SyncSafety`; and the loop that feeds it events.
 */
module Coordinator {
  import opened LedgerTypes
  import opened History
  import opened LedgerStorage
  import opened SyncProtocol
  import opened Responder
  import opened Requester
  import opened SyncSafety

  class StateSyncCoordinator {
    const role: Role
    const config: Config
    const waypoint: Waypoint
    var peers: set<Peer>
    var storage: Storage
    var local: SyncState
    var syncRequest: Option<LedgerInfoWithSignatures>
    var targetLedgerInfo: Option<LedgerInfoWithSignatures>
    var listening: bool
    var subscriptions: map<Peer, PendingRequest>
    var requests: seq<GetChunkRequest>
    var responses: multiset<(Peer, GetChunkResponse)>
    var callbacks: seq<Callback>

    ghost function AsNode(): Node
      reads this
    {
      Node(role, config, waypoint, peers, storage, local, syncRequest, targetLedgerInfo, listening,
           subscriptions, requests, responses, callbacks)
    }

    constructor (role: Role, config: Config, waypoint: Waypoint, storage: Storage)
      requires Readable(storage)
      ensures AsNode() == Node(role, config, waypoint, {}, storage, StateOf(storage), None, None, false,
                               map[], [], multiset{}, [])
      ensures forall l | ValidHistory(l) && Faithful(l, storage) && GenuineWaypoint(l, waypoint) :: Inv(l, AsNode())
    {
      this.role, this.config, this.waypoint := role, config, waypoint;
      peers, this.storage, local := {}, storage, StateOf(storage);
      syncRequest, targetLedgerInfo, listening := None, None, false;
      subscriptions, requests, responses, callbacks := map[], [], multiset{}, [];
      new;
      forall l | ValidHistory(l) && Faithful(l, storage) && GenuineWaypoint(l, waypoint)
        ensures Inv(l, AsNode())
      {
        StartIsSafe(l, role, config, waypoint, storage);
      }
    }

    predicate IsInitialized()
      reads this
      ensures IsInitialized() == AsNode().IsInitialized()
    {
      waypoint.version <= local.CommittedVersion()
    }

    predicate IsConsensusExecuting()
      reads this
      ensures IsConsensusExecuting() == AsNode().IsConsensusExecuting()
    {
      IsInitialized() && role == Validator && syncRequest.None?
    }

    method SyncStateWithLocalStorage()
      requires Readable(storage)
      modifies this`local
      ensures AsNode() == old(AsNode()).Refreshed()
      ensures SafelyHandled(old(AsNode()), StateRead, AsNode())
    {
      hide SafelyHandled;
      EventIsSafelyHandled(AsNode(), StateRead);
      local := StateOf(storage);
    }

    // ----- Sending -----

    method SendChunkRequestWithTarget(knownVersion: nat, epoch: nat, target: TargetType)
      returns (r: Result<(), SyncError>)
      modifies this`requests
      ensures (AsNode(), r) == Send(old(AsNode()), knownVersion, epoch, target)
    {
      if peers == {} {
        return Err(NoAvailablePeers);
      }
      requests := requests + [GetChunkRequest(knownVersion, epoch, config.chunkLimit, target)];
      return Ok(());
    }

    method CreateSyncRequestChunkTarget(knownVersion: nat) returns (r: Result<TargetType, SyncError>)
      ensures r == SyncRequestTarget(AsNode(), knownVersion)
    {
      if syncRequest.None? {
        return Err(NoSyncRequestFound);
      }
      if syncRequest.value.ledgerInfo.version <= knownVersion {
        return Err(SyncedBeyondTarget);
      }
      return Ok(HighestAvailable(syncRequest, config.longPollTimeoutMs));
    }

    // ----- Answering -----

    method ProcessChunkRequest(peer: Peer, request: GetChunkRequest, now: nat) returns (r: Result<(), SyncError>)
      requires Readable(storage)
      modifies this`local, this`subscriptions, this`responses
      ensures (AsNode(), r) == OnChunkRequest(old(AsNode()), peer, request, now)
      ensures SafelyHandled(old(AsNode()), RequestArrives(peer, request, now), AsNode())
    {
      hide SafelyHandled;
      EventIsSafelyHandled(AsNode(), RequestArrives(peer, request, now));
      SyncStateWithLocalStorage();
      r := CheckRequest(request);
      if r.Err? {
        return;
      }
      var limit := Min(request.limit, config.maxChunkLimit);
      var answer;
      if request.target.WaypointTarget? {
        answer := AnswerWaypoint(storage, request, request.target.waypointVersion, limit);
      } else {
        var li := RequestedLi(request.target);
        if local.CommittedVersion() <= request.knownVersion {
          var timeout := config.maxTimeoutMs;
          if request.target.HighestAvailable? {
            timeout := Min(request.target.timeoutMs, config.maxTimeoutMs);
          }
          subscriptions := subscriptions[peer := PendingRequest(now + timeout, request.knownVersion,
                                                               request.currentEpoch, li, limit)];
          return Ok(());
        }
        answer := AnswerTargetAndHighest(storage, request.knownVersion, request.currentEpoch, li, limit);
      }
      if answer.Err? {
        return Err(answer.error);
      }
      responses := responses + multiset{(peer, answer.value)};
      return Ok(());
    }

    /** Goes through the long polls once: first sort them into dropped, ready and waiting, then answer. */
    method CheckSubscriptions(now: nat)
      requires Readable(storage) && local == StateOf(storage)
      modifies this`subscriptions, this`responses
      ensures AsNode() == SubscriptionsChecked(old(AsNode()), now)
    {
      ghost var n := AsNode();
      var ready: set<Peer> := {};
      var todo := subscriptions.Keys;
      var kept: map<Peer, PendingRequest> := map[];
      while todo != {}
        invariant todo <= n.subscriptions.Keys
        invariant AsNode() == n
        invariant ready == set peer | peer in n.subscriptions.Keys - todo && IsReady(n, peer, now)
        invariant kept == map peer | peer in n.subscriptions.Keys - todo && KeepsWaiting(n, peer, now) ::
                            n.subscriptions[peer]
        decreases todo
      {
        var peer :| peer in todo;
        var info := subscriptions[peer];
        if info.expiration <= now {
        } else if info.knownVersion < local.CommittedVersion() {
          ready := ready + {peer};
        } else {
          kept := kept[peer := info];
        }
        todo := todo - {peer};
      }
      var pending := subscriptions;
      subscriptions := kept;
      DeliverReady(ready, pending, n, now);
      assert kept == SubscriptionsChecked(n, now).subscriptions;
    }

    /** Delivers to the peers that are ready; a failed delivery is skipped. */
    method DeliverReady(ready: set<Peer>, pending: map<Peer, PendingRequest>, ghost n: Node, now: nat)
      requires Readable(storage) && n.storage == storage && n.subscriptions == pending
      requires ready == set peer | peer in pending.Keys && IsReady(n, peer, now)
      modifies this`responses
      ensures responses == old(responses) + multiset(Deliveries(n, now))
    {
      hide AnswerPending;
      var todo := ready;
      ghost var done: set<(Peer, GetChunkResponse)> := {};
      while todo != {}
        invariant todo <= ready
        invariant done == set peer | peer in ready - todo && AnswerPending(n.storage, pending[peer]).Ok? ::
                            (peer, AnswerPending(n.storage, pending[peer]).value)
        invariant responses == old(responses) + multiset(done)
        decreases todo
      {
        var peer :| peer in todo;
        var answer := AnswerPending(storage, pending[peer]);
        if answer.Ok? {
          assert (peer, answer.value) !in done;
          responses := responses + multiset{(peer, answer.value)};
          done := done + {(peer, answer.value)};
          assert multiset(done) == multiset(done - {(peer, answer.value)}) + multiset{(peer, answer.value)};
        }
        todo := todo - {peer};
      }
      assert done == Deliveries(n, now);
    }

    // ----- Storing chunks -----

    method ValidateAndStoreChunk(
      txns: TransactionList, target: LedgerInfoWithSignatures, endOfEpochLi: Option<LedgerInfoWithSignatures>)
      returns (r: Result<(), SyncError>)
      requires Readable(storage)
      modifies this`storage
      ensures match ValidateAndStore(old(AsNode()), txns, target, endOfEpochLi)
              case Ok(after) => r == Ok(()) && storage == after
              case Err(error) => r == Err(error) && storage == old(storage)
    {
      if target.ledgerInfo.epoch < local.CommittedEpoch() {
        return Ok(());
      }
      if target.ledgerInfo.epoch == local.CommittedEpoch() && target.ledgerInfo.version <= local.CommittedVersion() {
        return Ok(());
      }
      var executed := ExecuteAndCommitChunk(storage, txns, target, endOfEpochLi);
      if executed.Err? {
        return Err(StorageFailed(executed.error));
      }
      storage := executed.value;
      return Ok(());
    }

    method CalculateNewKnownVersionAndEpoch(txns: TransactionList, li: Option<LedgerInfoWithSignatures>)
      returns (r: Result<(nat, nat), SyncError>)
      ensures r == NextVersionAndEpoch(AsNode(), txns, li)
    {
      var newVersion := local.syncedVersion + |txns.transactions|;
      if newVersion > U64_MAX {
        return Err(IntegerOverflow);
      }
      var newEpoch := local.TrustedEpoch();
      if li.Some? && li.value.ledgerInfo.version == newVersion && li.value.ledgerInfo.EndsEpoch() {
        newEpoch := newEpoch + 1;
        if newEpoch > U64_MAX {
          return Err(IntegerOverflow);
        }
      }
      return Ok((newVersion, newEpoch));
    }

    method SendNextRequest(version: nat, epoch: nat)
      modifies this`requests
      ensures AsNode() == Prefetch(old(AsNode()), version, epoch)
    {
      if syncRequest.Some? {
        var target := CreateSyncRequestChunkTarget(version);
        if target.Ok? {
          var _ := SendChunkRequestWithTarget(version, epoch, target.value);
        }
      } else {
        var newTarget := None;
        if targetLedgerInfo.Some? && version < targetLedgerInfo.value.ledgerInfo.version {
          newTarget := targetLedgerInfo;
        }
        var _ := SendChunkRequestWithTarget(version, epoch, HighestAvailable(newTarget, config.longPollTimeoutMs));
      }
    }

    method ProcessResponseWithTargetAndHighest(
      txns: TransactionList, responseLi: LedgerInfoWithSignatures, highestLi: Option<LedgerInfoWithSignatures>)
      returns (r: Result<(), SyncError>)
      requires Readable(storage)
      modifies this`requests, this`storage, this`local, this`targetLedgerInfo
      ensures (AsNode(), r) == ApplyTargetAndHighest(old(AsNode()), txns, responseLi, highestLi)
    {
      var next := CalculateNewKnownVersionAndEpoch(txns, Some(responseLi));
      if next.Err? {
        return Err(next.error);
      }
      SendNextRequest(next.value.0, next.value.1);
      if !VerifiedBy(local.trusted, responseLi) {
        return Err(ProcessInvalidChunk);
      }
      if highestLi.Some? && highestLi.value != responseLi && !VerifiedBy(local.trusted, highestLi.value) {
        return Err(ProcessInvalidChunk);
      }
      r := ValidateAndStoreChunk(txns, responseLi, None);
      if r.Err? {
        return;
      }
      if !Readable(storage) {
        return Err(ProcessInvalidChunk);
      }
      SyncStateWithLocalStorage();
      if targetLedgerInfo.Some? && targetLedgerInfo.value.ledgerInfo.version <= local.syncedVersion {
        targetLedgerInfo := None;
      }
      if targetLedgerInfo.None? && highestLi.Some? && local.syncedVersion < highestLi.value.ledgerInfo.version {
        targetLedgerInfo := highestLi;
      }
    }

    method ProcessResponseWithWaypointLi(
      txns: TransactionList, waypointLi: LedgerInfoWithSignatures, endOfEpochLi: Option<LedgerInfoWithSignatures>)
      returns (r: Result<(), SyncError>)
      requires Readable(storage)
      modifies this`requests, this`storage
      ensures (AsNode(), r) == ApplyWaypoint(old(AsNode()), txns, waypointLi, endOfEpochLi)
    {
      var next := CalculateNewKnownVersionAndEpoch(txns, endOfEpochLi);
      if next.Err? {
        return Err(next.error);
      }
      var (version, epoch) := next.value;
      if version < waypoint.version {
        var _ := SendChunkRequestWithTarget(version, epoch, WaypointTarget(waypoint.version));
      }
      var toCommit := None;
      if endOfEpochLi.Some? {
        if !VerifiedBy(local.trusted, endOfEpochLi.value) {
          return Err(ProcessInvalidChunk);
        }
        if !endOfEpochLi.value.ledgerInfo.EndsEpoch() {
          return Err(ProcessInvalidChunk);
        }
        if endOfEpochLi.value.ledgerInfo.version == version {
          toCommit := endOfEpochLi;
        }
      }
      if !WaypointMatches(waypoint, waypointLi.ledgerInfo) {
        return Err(ProcessInvalidChunk);
      }
      r := ValidateAndStoreChunk(txns, waypointLi, toCommit);
    }

    method ProcessApplyChunk(response: GetChunkResponse) returns (r: Result<(), SyncError>)
      requires Readable(storage)
      modifies this`requests, this`storage, this`local, this`targetLedgerInfo
      ensures (AsNode(), r) == ApplyChunk(old(AsNode()), response)
    {
      match response.responseLi
      case VerifiableLedgerInfo(li) =>
        r := ProcessResponseWithTargetAndHighest(response.txns, li, None);
      case ProgressiveLedgerInfo(targetLi, highestLi) =>
        var highest := if highestLi.Some? then highestLi.value else targetLi;
        r := ProcessResponseWithTargetAndHighest(response.txns, targetLi, Some(highest));
      case LedgerInfoForWaypoint(waypointLi, endOfEpochLi) =>
        r := ProcessResponseWithWaypointLi(response.txns, waypointLi, endOfEpochLi);
    }

    // ----- Committing -----

    method CheckInitializedOrSyncRequestCompleted() returns (r: Result<(), SyncError>)
      modifies this`listening, this`callbacks, this`syncRequest
      ensures (AsNode(), r) == CheckReached(old(AsNode()))
    {
      if IsInitialized() && listening {
        listening := false;
        callbacks := callbacks + [Initialized];
      }
      if syncRequest.Some? {
        var target := syncRequest.value;
        if local.syncedVersion > target.ledgerInfo.version {
          return Err(SyncedBeyondTarget);
        }
        if local.syncedVersion == target.ledgerInfo.version {
          syncRequest := None;
          callbacks := callbacks + [SyncReached(target)];
        }
      }
      return Ok(());
    }

    method ProcessCommitNotification(now: nat) returns (r: Result<(), SyncError>)
      requires Readable(storage)
      modifies this`local, this`subscriptions, this`responses, this`listening, this`callbacks, this`syncRequest
      ensures (AsNode(), r) == OnCommit(old(AsNode()), now)
      ensures SafelyHandled(old(AsNode()), CommitNotified(now), AsNode())
    {
      hide SafelyHandled;
      EventIsSafelyHandled(AsNode(), CommitNotified(now));
      SyncStateWithLocalStorage();
      CheckSubscriptions(now);
      r := CheckInitializedOrSyncRequestCompleted();
    }

    // ----- Events -----

    method ProcessChunkResponse(peer: Peer, response: GetChunkResponse, now: nat) returns (r: Result<(), SyncError>)
      requires Readable(storage)
      modifies this
      ensures (AsNode(), r) == OnChunkResponse(old(AsNode()), peer, response, now)
      ensures SafelyHandled(old(AsNode()), ResponseArrives(peer, response, now), AsNode())
    {
      hide SafelyHandled;
      EventIsSafelyHandled(AsNode(), ResponseArrives(peer, response, now));
      if IsConsensusExecuting() {
        return Err(ConsensusIsExecuting);
      }
      r := VerifyChunkResponseIsValid(peer, response);
      if r.Err? {
        return;
      }
      r := ProcessApplyChunk(response);
      if r.Err? {
        return Err(ProcessInvalidChunk);
      }
      if !Readable(storage) {
        return Err(ProcessInvalidChunk);
      }
      r := ProcessCommitNotification(now);
    }

    method VerifyChunkResponseIsValid(peer: Peer, response: GetChunkResponse) returns (r: Result<(), SyncError>)
      ensures r == CheckResponse(AsNode(), peer, response)
    {
      if peer !in peers {
        return Err(ReceivedChunkFromDownstream);
      }
      if response.txns.firstVersion.None? {
        return Err(ReceivedEmptyChunk);
      }
      if local.syncedVersion + 1 > U64_MAX {
        return Err(IntegerOverflow);
      }
      if response.txns.firstVersion.value != local.syncedVersion + 1 {
        return Err(ReceivedNonSequentialChunk);
      }
      match response.responseLi
      case VerifiableLedgerInfo(li) =>
        r := VerifyResponseWithTargetAndHighest(li, None);
      case ProgressiveLedgerInfo(targetLi, highestLi) =>
        r := VerifyResponseWithTargetAndHighest(targetLi, highestLi);
      case LedgerInfoForWaypoint(waypointLi, endOfEpochLi) =>
        if IsInitialized() || syncRequest.Some? {
          return Err(ReceivedWrongChunkType);
        }
        if endOfEpochLi.Some? && endOfEpochLi.value.ledgerInfo.version > waypointLi.ledgerInfo.version {
          return Err(ProcessInvalidChunk);
        }
        r := Ok(());
    }

    method VerifyResponseWithTargetAndHighest(
      targetLi: LedgerInfoWithSignatures, highestLi: Option<LedgerInfoWithSignatures>)
      returns (r: Result<(), SyncError>)
      ensures r == CheckProgressive(AsNode(), targetLi, highestLi)
    {
      if !IsInitialized() {
        return Err(ReceivedWrongChunkType);
      }
      if syncRequest.Some? && syncRequest.value.ledgerInfo.version < targetLi.ledgerInfo.version {
        return Err(ProcessInvalidChunk);
      }
      if highestLi.Some? && targetLi.ledgerInfo.version > highestLi.value.ledgerInfo.version {
        return Err(ProcessInvalidChunk);
      }
      return Ok(());
    }

    method ProcessSyncRequest(target: LedgerInfoWithSignatures) returns (r: Result<(), SyncError>)
      requires Readable(storage)
      modifies this`local, this`syncRequest, this`requests, this`callbacks
      ensures (AsNode(), r) == OnSyncRequest(old(AsNode()), target)
      ensures SafelyHandled(old(AsNode()), SyncRequested(target), AsNode())
    {
      hide SafelyHandled;
      EventIsSafelyHandled(AsNode(), SyncRequested(target));
      if role == FullNode {
        return Err(FullNodeSyncRequest);
      }
      var localLiVersion := local.CommittedVersion();
      var targetVersion := target.ledgerInfo.version;
      SyncStateWithLocalStorage();
      if !IsInitialized() {
        return Err(Uninitialized);
      }
      if targetVersion == localLiVersion {
        callbacks := callbacks + [SyncReached(target)];
        return Ok(());
      }
      if targetVersion < localLiVersion {
        callbacks := callbacks + [SyncFailed(target)];
        return Err(OldSyncRequestVersion);
      }
      syncRequest := Some(target);
      var knownVersion := local.syncedVersion;
      var chunkTarget := CreateSyncRequestChunkTarget(knownVersion);
      if chunkTarget.Err? {
        return Err(chunkTarget.error);
      }
      r := SendChunkRequestWithTarget(knownVersion, local.TrustedEpoch(), chunkTarget.value);
    }

    method CheckProgress(syncRequestTimedOut: bool, requestTimedOut: bool) returns (r: Result<(), SyncError>)
      modifies this`syncRequest, this`requests, this`callbacks
      ensures (AsNode(), r) == OnTick(old(AsNode()), syncRequestTimedOut, requestTimedOut)
      ensures Readable(storage) ==>
                SafelyHandled(old(AsNode()), ProgressChecked(syncRequestTimedOut, requestTimedOut), AsNode())
    {
      hide SafelyHandled;
      EventIsSafelyHandled(AsNode(), ProgressChecked(syncRequestTimedOut, requestTimedOut));
      if IsConsensusExecuting() {
        return Ok(());
      }
      if syncRequest.Some? && syncRequestTimedOut {
        callbacks := callbacks + [SyncFailed(syncRequest.value)];
        syncRequest := None;
      }
      if !requestTimedOut {
        return Ok(());
      }
      var chunkTarget;
      if !IsInitialized() {
        chunkTarget := Ok(WaypointTarget(waypoint.version));
      } else if syncRequest.Some? {
        chunkTarget := CreateSyncRequestChunkTarget(local.syncedVersion);
      } else {
        chunkTarget := Ok(HighestAvailable(targetLedgerInfo, config.longPollTimeoutMs));
      }
      if chunkTarget.Err? {
        return Err(chunkTarget.error);
      }
      r := SendChunkRequestWithTarget(local.syncedVersion, local.TrustedEpoch(), chunkTarget.value);
    }

    method WaitForInitialization()
      modifies this`listening, this`callbacks
      ensures AsNode() == OnWaitForInitialization(old(AsNode()))
      ensures Readable(storage) ==> SafelyHandled(old(AsNode()), InitializationAwaited, AsNode())
    {
      hide SafelyHandled;
      EventIsSafelyHandled(AsNode(), InitializationAwaited);
      if IsInitialized() {
        callbacks := callbacks + [Initialized];
      } else {
        listening := true;
      }
    }

    method ProcessNewPeer(peer: Peer, syncRequestTimedOut: bool, requestTimedOut: bool)
      returns (r: Result<(), SyncError>)
      modifies this`peers, this`syncRequest, this`requests, this`callbacks
      ensures (AsNode(), r)
           == OnTick(old(AsNode()).(peers := old(peers) + {peer}), syncRequestTimedOut, requestTimedOut)
      ensures Readable(storage) ==>
                SafelyHandled(old(AsNode()), PeerConnects(peer, syncRequestTimedOut, requestTimedOut), AsNode())
    {
      hide SafelyHandled;
      EventIsSafelyHandled(AsNode(), PeerConnects(peer, syncRequestTimedOut, requestTimedOut));
      peers := peers + {peer};
      r := CheckProgress(syncRequestTimedOut, requestTimedOut);
    }

    method ProcessLostPeer(peer: Peer)
      modifies this`peers
      ensures AsNode() == old(AsNode()).(peers := old(peers) - {peer})
      ensures Readable(storage) ==> SafelyHandled(old(AsNode()), PeerLeaves(peer), AsNode())
    {
      hide SafelyHandled;
      EventIsSafelyHandled(AsNode(), PeerLeaves(peer));
      peers := peers - {peer};
    }

    /** One turn of the event loop; a node whose storage cannot be read does nothing. */
    method HandleEvent(event: Event)
      modifies this
      ensures AsNode() == Step(old(AsNode()), event)
      ensures SafelyHandled(old(AsNode()), event, AsNode())
    {
      hide SafelyHandled, OnCommit, OnSyncRequest, OnChunkRequest, OnChunkResponse, OnTick;
      EventIsSafelyHandled(AsNode(), event);
      if !Readable(storage) {
        return;
      }
      match event
      case ConsensusWrites(written) => storage := written;
      case CommitNotified(now) => var _ := ProcessCommitNotification(now);
      case SyncRequested(target) => var _ := ProcessSyncRequest(target);
      case RequestArrives(peer, request, now) => var _ := ProcessChunkRequest(peer, request, now);
      case ResponseArrives(peer, response, now) => var _ := ProcessChunkResponse(peer, response, now);
      case ProgressChecked(syncRequestTimedOut, requestTimedOut) =>
        var _ := CheckProgress(syncRequestTimedOut, requestTimedOut);
      case PeerConnects(peer, syncRequestTimedOut, requestTimedOut) =>
        var _ := ProcessNewPeer(peer, syncRequestTimedOut, requestTimedOut);
      case PeerLeaves(peer) => ProcessLostPeer(peer);
      case InitializationAwaited => WaitForInitialization();
      case StateRead => SyncStateWithLocalStorage();
    }

    /** The event loop: after every event the invariant holds, if it held and the events were admissible. */
    method Start(events: seq<Event>)
      modifies this
      ensures AsNode() == After(old(AsNode()), events, |events|)
      ensures forall k | 0 <= k <= |events| :: AllSafelyHandled(old(AsNode()), events, k)
    {
      hide Step, AllSafelyHandled, SafelyHandled;
      ghost var n := AsNode();
      for i := 0 to |events|
        invariant AsNode() == After(n, events, i)
      {
        HandleEvent(events[i]);
      }
      forall k | 0 <= k <= |events|
        ensures AllSafelyHandled(n, events, k)
      {
        EventsAreSafelyHandled(n, events, k);
      }
    }
  }
}
