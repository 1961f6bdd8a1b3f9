/**
 * The values that the ledger components exchange: validator sets, ledger infos,
 * signatures and waypoints.
 *
 * Digests are modelled by what they commit to. A transaction accumulator root is the
 * sequence of transactions below it, the digest of a ledger info is the ledger info, and
 * a waypoint value is the record that the waypoint hashes.
 */
module LedgerTypes {

  const U64_MAX: nat := 0xFFFF_FFFF_FFFF_FFFF

  datatype Option<+T> = None | Some(value: T) {
    function GetOr(default: T): T {
      if Some? then value else default
    }
  }

  datatype Result<+T, +E> = Ok(value: T) | Err(error: E) {
    predicate IsFailure() {
      Err?
    }

    function PropagateFailure<U>(): Result<U, E>
      requires Err?
    {
      Err(error)
    }

    function Extract(): T
      requires Ok?
    {
      value
    }
  }

  /** The account address that identifies a validator. */
  type Author = nat

  type PublicKey = nat

  datatype ValidatorInfo = ValidatorInfo(address: Author, publicKey: PublicKey, votingPower: nat)

  /** The validators of one epoch, in address order. */
  datatype ValidatorVerifier = ValidatorVerifier(validators: seq<ValidatorInfo>)

  datatype EpochState = EpochState(epoch: nat, verifier: ValidatorVerifier)

  /** `reconfig` is the epoch state that executing the transaction puts in place, if any. */
  datatype Transaction = Transaction(payload: nat, timestampUsecs: nat, reconfig: Option<EpochState>)

  type AccumulatorRoot = seq<Transaction>

  datatype LedgerInfo = LedgerInfo(
    epoch: nat,
    round: nat,
    id: nat,
    rootHash: AccumulatorRoot,
    version: nat,
    timestampUsecs: nat,
    nextEpochState: Option<EpochState>,
    consensusDataHash: nat
  ) {
    predicate EndsEpoch() {
      nextEpochState.Some?
    }

    /** The epoch of the block that follows this one. */
    function NextBlockEpoch(): nat {
      if nextEpochState.Some? then nextEpochState.value.epoch else epoch
    }
  }

  /** An ideal signature: it names the key that made it and the message it was made on. */
  datatype Signature = Signature(publicKey: PublicKey, message: LedgerInfo)

  datatype LedgerInfoWithSignatures =
    LedgerInfoWithSignatures(ledgerInfo: LedgerInfo, signatures: map<Author, Signature>)

  /** The fields of a ledger info that a waypoint commits to; consensus-only fields are left out. */
  datatype WaypointContent = WaypointContent(
    epoch: nat,
    rootHash: AccumulatorRoot,
    version: nat,
    timestampUsecs: nat,
    nextEpochState: Option<EpochState>
  )

  datatype Waypoint = Waypoint(version: nat, value: WaypointContent)

  function ContentOf(li: LedgerInfo): WaypointContent {
    WaypointContent(li.epoch, li.rootHash, li.version, li.timestampUsecs, li.nextEpochState)
  }

  function WaypointOf(li: LedgerInfo): Waypoint {
    Waypoint(li.version, ContentOf(li))
  }

  predicate WaypointMatches(w: Waypoint, li: LedgerInfo) {
    li.version == w.version && ContentOf(li) == w.value
  }
}
