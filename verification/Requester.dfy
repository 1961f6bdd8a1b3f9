/** How a node asks for chunks, checks what it gets and stores it. */
module Requester {
  import opened LedgerTypes
  import opened History
  import opened LedgerStorage
  import opened SyncProtocol
  import opened Responder

  // ----- Sending requests -----

  function Send(n: Node, knownVersion: nat, epoch: nat, target: TargetType): (Node, Result<(), SyncError>) {
    if n.peers == {} then (n, Err(NoAvailablePeers))
    else (n.(requests := n.requests + [GetChunkRequest(knownVersion, epoch, n.config.chunkLimit, target)]), Ok(()))
  }

  function HighestTarget(n: Node, targetLi: Option<LedgerInfoWithSignatures>): TargetType {
    HighestAvailable(targetLi, n.config.longPollTimeoutMs)
  }

  function SyncRequestTarget(n: Node, knownVersion: nat): Result<TargetType, SyncError> {
    match n.syncRequest
    case None => Err(NoSyncRequestFound)
    case Some(li) =>
      if li.ledgerInfo.version <= knownVersion then Err(SyncedBeyondTarget) else Ok(HighestTarget(n, n.syncRequest))
  }

  /** What the node asks for when it has to ask again: the target of its current mode. */
  function CurrentTarget(n: Node): Result<TargetType, SyncError> {
    if !n.IsInitialized() then Ok(WaypointTarget(n.waypoint.version))
    else if n.syncRequest.Some? then SyncRequestTarget(n, n.local.syncedVersion)
    else Ok(HighestTarget(n, n.target))
  }

  // ----- Checking a response -----

  function CheckProgressive(n: Node, targetLi: LedgerInfoWithSignatures, highestLi: Option<LedgerInfoWithSignatures>)
    : Result<(), SyncError>
  {
    if !n.IsInitialized() then Err(ReceivedWrongChunkType)
    else if n.syncRequest.Some? && n.syncRequest.value.ledgerInfo.version < targetLi.ledgerInfo.version then
      Err(ProcessInvalidChunk)
    else if highestLi.Some? && targetLi.ledgerInfo.version > highestLi.value.ledgerInfo.version then
      Err(ProcessInvalidChunk)
    else Ok(())
  }

  function CheckWaypoint(n: Node, waypointLi: LedgerInfoWithSignatures, endOfEpochLi: Option<LedgerInfoWithSignatures>)
    : Result<(), SyncError>
  {
    if n.IsInitialized() || n.syncRequest.Some? then Err(ReceivedWrongChunkType)
    else if endOfEpochLi.Some? && endOfEpochLi.value.ledgerInfo.version > waypointLi.ledgerInfo.version then
      Err(ProcessInvalidChunk)
    else Ok(())
  }

  function CheckResponse(n: Node, peer: Peer, response: GetChunkResponse): Result<(), SyncError> {
    if peer !in n.peers then Err(ReceivedChunkFromDownstream)
    else if response.txns.firstVersion.None? then Err(ReceivedEmptyChunk)
    else
      var expected :- CheckedAdd(n.local.syncedVersion, 1);
      if response.txns.firstVersion.value != expected then Err(ReceivedNonSequentialChunk)
      else
        match response.responseLi
        case VerifiableLedgerInfo(li) => CheckProgressive(n, li, None)
        case ProgressiveLedgerInfo(targetLi, highestLi) => CheckProgressive(n, targetLi, highestLi)
        case LedgerInfoForWaypoint(waypointLi, endOfEpochLi) => CheckWaypoint(n, waypointLi, endOfEpochLi)
  }

  // ----- Applying a chunk -----

  /** The version and epoch to ask for next, if the chunk is applied. */
  function NextVersionAndEpoch(n: Node, txns: TransactionList, li: Option<LedgerInfoWithSignatures>)
    : Result<(nat, nat), SyncError>
  {
    var version :- CheckedAdd(n.local.syncedVersion, |txns.transactions|);
    if li.Some? && li.value.ledgerInfo.version == version && li.value.ledgerInfo.EndsEpoch() then
      var epoch :- CheckedAdd(n.local.TrustedEpoch(), 1);
      Ok((version, epoch))
    else Ok((version, n.local.TrustedEpoch()))
  }

  /** Stores the chunk, unless the target is no newer than what is committed: then nothing is stored. */
  function ValidateAndStore(
    n: Node, txns: TransactionList, target: LedgerInfoWithSignatures, endOfEpochLi: Option<LedgerInfoWithSignatures>
  ): Result<Storage, SyncError>
    requires n.storage.txns != []
  {
    if IsOld(n, target) then Ok(n.storage)
    else FromStorage(ExecuteAndCommitChunk(n.storage, txns, target, endOfEpochLi))
  }

  predicate IsOld(n: Node, target: LedgerInfoWithSignatures) {
    var epoch, version := target.ledgerInfo.epoch, target.ledgerInfo.version;
    epoch < n.local.CommittedEpoch() || (epoch == n.local.CommittedEpoch() && version <= n.local.CommittedVersion())
  }

  /** Asks for the next chunk before the current one is stored; what cannot be sent is not sent. */
  function Prefetch(n: Node, version: nat, epoch: nat): Node {
    if n.syncRequest.Some? then
      match SyncRequestTarget(n, version)
      case Ok(target) => Send(n, version, epoch, target).0
      case Err(_) => n
    else
      var targetLi := if n.target.Some? && version < n.target.value.ledgerInfo.version then n.target else None;
      Send(n, version, epoch, HighestTarget(n, targetLi)).0
  }

  /** The target to keep or adopt once `n` has stored a chunk. */
  function NewTarget(n: Node, highestLi: Option<LedgerInfoWithSignatures>): Option<LedgerInfoWithSignatures> {
    if n.target.Some? && n.local.syncedVersion < n.target.value.ledgerInfo.version then n.target
    else if highestLi.Some? && n.local.syncedVersion < highestLi.value.ledgerInfo.version then highestLi
    else None
  }

  function ApplyTargetAndHighest(
    n: Node, txns: TransactionList, responseLi: LedgerInfoWithSignatures, highestLi: Option<LedgerInfoWithSignatures>
  ): (Node, Result<(), SyncError>)
    requires Readable(n.storage)
  {
    match NextVersionAndEpoch(n, txns, Some(responseLi))
    case Err(error) => (n, Err(error))
    case Ok((version, epoch)) =>
      var asked := Prefetch(n, version, epoch);
      if !VerifiedBy(n.local.trusted, responseLi) then (asked, Err(ProcessInvalidChunk))
      else if highestLi.Some? && highestLi.value != responseLi && !VerifiedBy(n.local.trusted, highestLi.value) then
        (asked, Err(ProcessInvalidChunk))
      else
        match ValidateAndStore(asked, txns, responseLi, None)
        case Err(error) => (asked, Err(error))
        case Ok(storage) =>
          if !Readable(storage) then (asked.(storage := storage), Err(ProcessInvalidChunk))
          else
            var stored := asked.(storage := storage, local := StateOf(storage));
            (stored.(target := NewTarget(stored, highestLi)), Ok(()))
  }

  /** The end-of-epoch ledger info to commit with the chunk, once it has been verified. */
  function EndOfEpochToCommit(n: Node, version: nat, endOfEpochLi: Option<LedgerInfoWithSignatures>)
    : Result<Option<LedgerInfoWithSignatures>, SyncError>
  {
    if endOfEpochLi.None? then Ok(None)
    else if !VerifiedBy(n.local.trusted, endOfEpochLi.value) || !endOfEpochLi.value.ledgerInfo.EndsEpoch() then
      Err(ProcessInvalidChunk)
    else Ok(if endOfEpochLi.value.ledgerInfo.version == version then endOfEpochLi else None)
  }

  function ApplyWaypoint(
    n: Node, txns: TransactionList, waypointLi: LedgerInfoWithSignatures, endOfEpochLi: Option<LedgerInfoWithSignatures>
  ): (Node, Result<(), SyncError>)
    requires Readable(n.storage)
  {
    match NextVersionAndEpoch(n, txns, endOfEpochLi)
    case Err(error) => (n, Err(error))
    case Ok((version, epoch)) =>
      var asked :=
        if version < n.waypoint.version then Send(n, version, epoch, WaypointTarget(n.waypoint.version)).0 else n;
      match EndOfEpochToCommit(n, version, endOfEpochLi)
      case Err(error) => (asked, Err(error))
      case Ok(toCommit) =>
        if !WaypointMatches(n.waypoint, waypointLi.ledgerInfo) then (asked, Err(ProcessInvalidChunk))
        else
          match ValidateAndStore(asked, txns, waypointLi, toCommit)
          case Err(error) => (asked, Err(error))
          case Ok(storage) => (asked.(storage := storage), Ok(()))
  }

  function ApplyChunk(n: Node, response: GetChunkResponse): (Node, Result<(), SyncError>)
    requires Readable(n.storage)
  {
    match response.responseLi
    case VerifiableLedgerInfo(li) => ApplyTargetAndHighest(n, response.txns, li, None)
    case ProgressiveLedgerInfo(targetLi, highestLi) =>
      ApplyTargetAndHighest(n, response.txns, targetLi, Some(highestLi.GetOr(targetLi)))
    case LedgerInfoForWaypoint(waypointLi, endOfEpochLi) => ApplyWaypoint(n, response.txns, waypointLi, endOfEpochLi)
  }

  // ----- After a commit -----

  /** Tells the initialisation listener and the sync request when they are due. */
  function CheckReached(n: Node): (Node, Result<(), SyncError>) {
    var m := if n.IsInitialized() && n.listening then n.(listening := false, callbacks := n.callbacks + [Initialized])
             else n;
    match m.syncRequest
    case None => (m, Ok(()))
    case Some(li) =>
      if m.local.syncedVersion > li.ledgerInfo.version then (m, Err(SyncedBeyondTarget))
      else if m.local.syncedVersion == li.ledgerInfo.version then
        (m.(syncRequest := None, callbacks := m.callbacks + [SyncReached(li)]), Ok(()))
      else (m, Ok(()))
  }

  function OnCommit(n: Node, now: nat): (Node, Result<(), SyncError>)
    requires Readable(n.storage)
  {
    CheckReached(SubscriptionsChecked(n.Refreshed(), now))
  }

  // ----- Handlers -----

  /**
   * Handling a chunk response: check it, ask for the next chunk, store this one, and act on the commit.
   * The commit step runs even when the target was old and nothing was stored.
   */
  function OnChunkResponse(n: Node, peer: Peer, response: GetChunkResponse, now: nat): (Node, Result<(), SyncError>)
    requires Readable(n.storage)
  {
    if n.IsConsensusExecuting() then (n, Err(ConsensusIsExecuting))
    else
      var check := CheckResponse(n, peer, response);
      if check.Err? then (n, check)
      else
        var (applied, result) := ApplyChunk(n, response);
        if result.Err? then (applied, Err(ProcessInvalidChunk))
        else if !Readable(applied.storage) then (applied, Err(ProcessInvalidChunk))
        else OnCommit(applied, now)
  }

  /**
   * Handling a sync request of consensus. The committed version that the target is compared with is
   * the one from before storage is read again.
   */
  function OnSyncRequest(n: Node, target: LedgerInfoWithSignatures): (Node, Result<(), SyncError>)
    requires Readable(n.storage)
  {
    if n.role == FullNode then (n, Err(FullNodeSyncRequest))
    else
      var committed := n.local.CommittedVersion();
      var m := n.Refreshed();
      if !m.IsInitialized() then (m, Err(Uninitialized))
      else if target.ledgerInfo.version == committed then (m.(callbacks := m.callbacks + [SyncReached(target)]), Ok(()))
      else if target.ledgerInfo.version < committed then
        (m.(callbacks := m.callbacks + [SyncFailed(target)]), Err(OldSyncRequestVersion))
      else
        var requested := m.(syncRequest := Some(target));
        match SyncRequestTarget(requested, requested.local.syncedVersion)
        case Err(error) => (requested, Err(error))
        case Ok(chunkTarget) =>
          Send(requested, requested.local.syncedVersion, requested.local.TrustedEpoch(), chunkTarget)
  }

  /** The periodic check: give up a sync request that made no progress, and ask again after a timeout. */
  function OnTick(n: Node, syncRequestTimedOut: bool, requestTimedOut: bool): (Node, Result<(), SyncError>) {
    if n.IsConsensusExecuting() then (n, Ok(()))
    else
      var m :=
        if n.syncRequest.Some? && syncRequestTimedOut then
          n.(syncRequest := None, callbacks := n.callbacks + [SyncFailed(n.syncRequest.value)])
        else n;
      if !requestTimedOut then (m, Ok(()))
      else
        match CurrentTarget(m)
        case Err(error) => (m, Err(error))
        case Ok(target) => Send(m, m.local.syncedVersion, m.local.TrustedEpoch(), target)
  }

  function OnWaitForInitialization(n: Node): Node {
    if n.IsInitialized() then n.(callbacks := n.callbacks + [Initialized]) else n.(listening := true)
  }
}
