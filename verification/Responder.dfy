/** How a node answers chunk requests from its own storage. */
module Responder {
  import opened LedgerTypes
  import opened LedgerStorage
  import opened SyncProtocol

  function CheckRequest(request: GetChunkRequest): Result<(), SyncError> {
    var version, epoch := request.target.Version(), request.target.Epoch();
    if version.Some? && version.value < request.knownVersion then Err(InvalidChunkRequest)
    else if epoch.Some? && epoch.value < request.currentEpoch then Err(InvalidChunkRequest)
    else if request.limit == 0 then Err(InvalidChunkRequest)
    else if request.target.HighestAvailable? && request.target.timeoutMs == 0 then Err(InvalidChunkRequest)
    else Ok(())
  }

  /** The requested target or the highest local one, replaced by the end of `requestEpoch` when it is beyond. */
  function ChooseResponseLi(st: Storage, requestEpoch: nat, target: Option<LedgerInfoWithSignatures>)
    : Result<LedgerInfoWithSignatures, SyncError>
  {
    var li := target.GetOr(st.latest);
    if li.ledgerInfo.epoch > requestEpoch then
      var _ :- CheckedAdd(requestEpoch, 1);
      FromStorage(GetEpochChangeLedgerInfo(st, requestEpoch))
    else Ok(li)
  }

  function CalculateTargetAndHighest(st: Storage, requestEpoch: nat, target: Option<LedgerInfoWithSignatures>)
    : Result<(LedgerInfoWithSignatures, Option<LedgerInfoWithSignatures>), SyncError>
    requires Readable(st)
  {
    var li :- ChooseResponseLi(st, requestEpoch, target);
    var local := StateOf(st);
    var highest :=
      if li.ledgerInfo.version < local.CommittedVersion() && li.ledgerInfo.epoch == local.TrustedEpoch() then
        Some(st.latest)
      else None;
    Ok((li, highest))
  }

  function DeliverChunk(st: Storage, knownVersion: nat, responseLi: ResponseLedgerInfo, limit: nat)
    : Result<GetChunkResponse, SyncError>
  {
    var start :- CheckedAdd(knownVersion, 1);
    var txns :- FromStorage(GetTransactions(st, start, limit, responseLi.Version()));
    Ok(GetChunkResponse(responseLi, txns))
  }

  function AnswerTargetAndHighest(
    st: Storage, knownVersion: nat, requestEpoch: nat, target: Option<LedgerInfoWithSignatures>, limit: nat
  ): Result<GetChunkResponse, SyncError>
    requires Readable(st)
  {
    var (targetLi, highestLi) :- CalculateTargetAndHighest(st, requestEpoch, target);
    DeliverChunk(st, knownVersion, ProgressiveLedgerInfo(targetLi, highestLi), limit)
  }

  /** The end of the request's epoch, when the waypoint lies in a later one, and the limit that keeps to it. */
  function WaypointEndOfEpoch(
    st: Storage, request: GetChunkRequest, waypointLi: LedgerInfoWithSignatures, limit: nat
  ): Result<(Option<LedgerInfoWithSignatures>, nat), SyncError>
  {
    if waypointLi.ledgerInfo.epoch > request.currentEpoch then
      var _ :- CheckedAdd(request.currentEpoch, 1);
      var endOfEpochLi :- FromStorage(GetEpochChangeLedgerInfo(st, request.currentEpoch));
      if endOfEpochLi.ledgerInfo.version < request.knownVersion then Err(WaypointPassed)
      else Ok((Some(endOfEpochLi), Min(limit, endOfEpochLi.ledgerInfo.version - request.knownVersion)))
    else Ok((None, limit))
  }

  function AnswerWaypoint(st: Storage, request: GetChunkRequest, waypointVersion: nat, limit: nat)
    : Result<GetChunkResponse, SyncError>
  {
    if st.latest.ledgerInfo.version < waypointVersion then Err(WaypointAhead)
    else if request.knownVersion >= waypointVersion then Err(WaypointPassed)
    else
      var waypointLi :- FromStorage(GetEpochEndingLedgerInfo(st, waypointVersion));
      var (endOfEpochLi, chunkLimit) :- WaypointEndOfEpoch(st, request, waypointLi, limit);
      DeliverChunk(st, request.knownVersion, LedgerInfoForWaypoint(waypointLi, endOfEpochLi), chunkLimit)
  }

  function RequestedLi(target: TargetType): Option<LedgerInfoWithSignatures> {
    match target
    case TargetLedgerInfo(li) => Some(li)
    case HighestAvailable(targetLi, _) => targetLi
    case WaypointTarget(_) => None
  }

  /** Whether a valid request has to wait for this node to commit something new. */
  predicate MustWait(st: Storage, request: GetChunkRequest) {
    !request.target.WaypointTarget? && st.latest.ledgerInfo.version <= request.knownVersion
  }

  /** The answer to a valid request that need not wait. */
  function Answer(st: Storage, config: Config, request: GetChunkRequest): Result<GetChunkResponse, SyncError>
    requires Readable(st)
  {
    var limit := Min(request.limit, config.maxChunkLimit);
    match request.target
    case WaypointTarget(version) => AnswerWaypoint(st, request, version, limit)
    case _ => AnswerTargetAndHighest(st, request.knownVersion, request.currentEpoch, RequestedLi(request.target), limit)
  }

  function PendingFor(config: Config, request: GetChunkRequest, now: nat): PendingRequest {
    var timeout := if request.target.HighestAvailable? then Min(request.target.timeoutMs, config.maxTimeoutMs)
                   else config.maxTimeoutMs;
    PendingRequest(now + timeout, request.knownVersion, request.currentEpoch,
                   RequestedLi(request.target), Min(request.limit, config.maxChunkLimit))
  }

  /** Handling a chunk request: answer it, remember it, or refuse it. */
  function OnChunkRequest(n: Node, peer: Peer, request: GetChunkRequest, now: nat): (Node, Result<(), SyncError>)
    requires Readable(n.storage)
  {
    var m := n.Refreshed();
    var check := CheckRequest(request);
    if check.Err? then (m, check)
    else if MustWait(m.storage, request) then
      (m.(subscriptions := m.subscriptions[peer := PendingFor(m.config, request, now)]), Ok(()))
    else
      match Answer(m.storage, m.config, request)
      case Ok(response) => (m.(responses := m.responses + multiset{(peer, response)}), Ok(()))
      case Err(error) => (m, Err(error))
  }

  // ----- Long polls -----

  /** A waiting request that is not over yet and that the node can answer now. */
  predicate IsReady(n: Node, peer: Peer, now: nat) {
    && peer in n.subscriptions
    && now < n.subscriptions[peer].expiration
    && n.subscriptions[peer].knownVersion < n.local.CommittedVersion()
  }

  predicate KeepsWaiting(n: Node, peer: Peer, now: nat) {
    && peer in n.subscriptions
    && now < n.subscriptions[peer].expiration
    && n.local.CommittedVersion() <= n.subscriptions[peer].knownVersion
  }

  function AnswerPending(st: Storage, pending: PendingRequest): Result<GetChunkResponse, SyncError>
    requires Readable(st)
  {
    AnswerTargetAndHighest(st, pending.knownVersion, pending.requestEpoch, pending.targetLi, pending.chunkLimit)
  }

  function Deliveries(n: Node, now: nat): set<(Peer, GetChunkResponse)>
    requires Readable(n.storage)
  {
    set peer | peer in n.subscriptions.Keys && IsReady(n, peer, now)
               && AnswerPending(n.storage, n.subscriptions[peer]).Ok? ::
      (peer, AnswerPending(n.storage, n.subscriptions[peer]).value)
  }

  /** After a commit: drop what expired, answer what is ready, keep the rest. */
  function SubscriptionsChecked(n: Node, now: nat): Node
    requires Readable(n.storage)
  {
    n.(subscriptions := map peer | peer in n.subscriptions && KeepsWaiting(n, peer, now) :: n.subscriptions[peer],
       responses := n.responses + multiset(Deliveries(n, now)))
  }
}
