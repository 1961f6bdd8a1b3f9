/** The messages of state synchronisation and the state of a node that takes part in it. */
module SyncProtocol {
  import opened LedgerTypes
  import opened LedgerStorage

  /** What a chunk request asks the response to be built against. */
  datatype TargetType =
    | TargetLedgerInfo(li: LedgerInfoWithSignatures)
    | HighestAvailable(targetLi: Option<LedgerInfoWithSignatures>, timeoutMs: nat)
    | WaypointTarget(waypointVersion: nat)
  {
    function Epoch(): Option<nat> {
      match this
      case TargetLedgerInfo(li) => Some(li.ledgerInfo.epoch)
      case HighestAvailable(targetLi, _) => if targetLi.Some? then Some(targetLi.value.ledgerInfo.epoch) else None
      case WaypointTarget(_) => None
    }

    function Version(): Option<nat> {
      match this
      case TargetLedgerInfo(li) => Some(li.ledgerInfo.version)
      case HighestAvailable(targetLi, _) => if targetLi.Some? then Some(targetLi.value.ledgerInfo.version) else None
      case WaypointTarget(version) => Some(version)
    }
  }

  datatype GetChunkRequest = GetChunkRequest(knownVersion: nat, currentEpoch: nat, limit: nat, target: TargetType)

  datatype ResponseLedgerInfo =
    | VerifiableLedgerInfo(li: LedgerInfoWithSignatures)
    | ProgressiveLedgerInfo(targetLi: LedgerInfoWithSignatures, highestLi: Option<LedgerInfoWithSignatures>)
    | LedgerInfoForWaypoint(waypointLi: LedgerInfoWithSignatures, endOfEpochLi: Option<LedgerInfoWithSignatures>)
  {
    /** The ledger info that the proofs of the transactions are relative to. */
    function Li(): LedgerInfoWithSignatures {
      match this
      case VerifiableLedgerInfo(li) => li
      case ProgressiveLedgerInfo(targetLi, _) => targetLi
      case LedgerInfoForWaypoint(waypointLi, _) => waypointLi
    }

    function Version(): nat {
      Li().ledgerInfo.version
    }
  }

  datatype GetChunkResponse = GetChunkResponse(responseLi: ResponseLedgerInfo, txns: TransactionList)

  type Peer = nat

  datatype Role = Validator | FullNode

  datatype Config = Config(chunkLimit: nat, maxChunkLimit: nat, longPollTimeoutMs: nat, maxTimeoutMs: nat)

  /** A long-poll request that waits until this node has something new or its time is over. */
  datatype PendingRequest = PendingRequest(
    expiration: nat,
    knownVersion: nat,
    requestEpoch: nat,
    targetLi: Option<LedgerInfoWithSignatures>,
    chunkLimit: nat
  )

  datatype Callback =
    | SyncReached(target: LedgerInfoWithSignatures)
    | SyncFailed(target: LedgerInfoWithSignatures)
    | Initialized

  datatype SyncError =
    | StorageFailed(reason: StorageError)
    | IntegerOverflow
    | FullNodeSyncRequest
    | Uninitialized
    | OldSyncRequestVersion
    | NoSyncRequestFound
    | SyncedBeyondTarget
    | NoAvailablePeers
    | InvalidChunkRequest
    | WaypointAhead
    | WaypointPassed
    | ConsensusIsExecuting
    | ReceivedChunkFromDownstream
    | ReceivedEmptyChunk
    | ReceivedNonSequentialChunk
    | ReceivedWrongChunkType
    | ProcessInvalidChunk

  /**
   * A node: its storage, its last view of it, and what it is waiting for. Messages and callbacks are
   * recorded as they are sent; the order of responses to different peers does not matter.
   */
  datatype Node = Node(
    role: Role,
    config: Config,
    waypoint: Waypoint,
    peers: set<Peer>,
    storage: Storage,
    local: SyncState,
    syncRequest: Option<LedgerInfoWithSignatures>,
    target: Option<LedgerInfoWithSignatures>,
    listening: bool,
    subscriptions: map<Peer, PendingRequest>,
    requests: seq<GetChunkRequest>,
    responses: multiset<(Peer, GetChunkResponse)>,
    callbacks: seq<Callback>
  ) {
    predicate IsInitialized() {
      waypoint.version <= local.CommittedVersion()
    }

    predicate IsConsensusExecuting() {
      IsInitialized() && role == Validator && syncRequest.None?
    }

    /** The node after it has read its storage again. */
    function Refreshed(): Node
      requires Readable(storage)
    {
      this.(local := StateOf(storage))
    }
  }

  function Min(a: nat, b: nat): nat {
    if a < b then a else b
  }

  function CheckedAdd(a: nat, b: nat): Result<nat, SyncError> {
    if a + b > U64_MAX then Err(IntegerOverflow) else Ok(a + b)
  }

  function FromStorage<T>(r: Result<T, StorageError>): Result<T, SyncError> {
    match r
    case Ok(value) => Ok(value)
    case Err(reason) => Err(StorageFailed(reason))
  }
}
