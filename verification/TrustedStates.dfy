/** The light client's ratchet: how a trusted view of the ledger moves forward on a state proof. */
module TrustedStates {
  import opened LedgerTypes
  import opened History
  import opened EpochChange

  datatype TrustedState =
    | AtWaypoint(waypoint: Waypoint)
    | InEpoch(waypoint: Waypoint, epochState: EpochState, accumulator: AccumulatorRoot)
  {
    function Version(): nat {
      waypoint.version
    }

    function AsVerifier(): Verifier {
      if AtWaypoint? then ByWaypoint(waypoint) else ByEpochState(epochState)
    }
  }

  datatype TrustedStateChange =
    | Version(newState: TrustedState)
    | Epoch(newState: TrustedState, latestEpochChangeLi: LedgerInfoWithSignatures)
    | NoChange

  datatype RatchetError =
    | StaleTarget
    | MissingInitialAccumulator
    | InconsistentAccumulator
    | InvalidEpochChangeProof(reason: ProofError)
    | NotEpochChange
    | InvalidLatestLedgerInfo
    | InconsistentProof
    | WaypointNeedsEpochChange
    | LedgerInfoMismatch

  /** What a client receives: the latest ledger info, the epoch changes up to it and a consistency proof. */
  datatype StateProof = StateProof(
    latest: LedgerInfoWithSignatures,
    epochChanges: EpochChangeProof,
    consistency: seq<Transaction>
  )

  // ----- The accumulator summary -----

  function AccumulatorVersion(accumulator: AccumulatorRoot): nat {
    if accumulator == [] then 0 else |accumulator| - 1
  }

  predicate Consistent(accumulator: AccumulatorRoot, li: LedgerInfo) {
    li.version == AccumulatorVersion(accumulator) && li.rootHash == accumulator
  }

  function TryExtend(accumulator: AccumulatorRoot, consistency: seq<Transaction>, target: LedgerInfo)
    : Result<AccumulatorRoot, RatchetError>
  {
    if target.version < AccumulatorVersion(accumulator) then Err(InconsistentAccumulator)
    else if |consistency| != target.version - AccumulatorVersion(accumulator) then Err(InconsistentAccumulator)
    else if Consistent(accumulator + consistency, target) then Ok(accumulator + consistency)
    else Err(InconsistentAccumulator)
  }

  // ----- The ratchet -----

  function CurrentAccumulator(
    state: TrustedState, changes: EpochChangeProof, initial: Option<AccumulatorRoot>
  ): Result<AccumulatorRoot, RatchetError>
  {
    match state
    case InEpoch(_, _, accumulator) => Ok(accumulator)
    case AtWaypoint(_) =>
      if initial.None? then Err(MissingInitialAccumulator)
      else if changes.ledgerInfos == [] then Err(InvalidEpochChangeProof(EmptyProof))
      else if Consistent(initial.value, changes.ledgerInfos[0].ledgerInfo) then Ok(initial.value)
      else Err(InconsistentAccumulator)
  }

  /** The ledger info that becomes the new trusted one after an epoch change to `newEpochState`. */
  function ChooseVerified(
    epochChangeLi: LedgerInfoWithSignatures, newEpochState: EpochState,
    latest: LedgerInfoWithSignatures, more: bool
  ): Result<LedgerInfoWithSignatures, RatchetError>
  {
    if epochChangeLi == latest then Ok(latest)
    else if latest.ledgerInfo.epoch == newEpochState.epoch then
      if VerifiedBy(newEpochState, latest) then Ok(latest) else Err(InvalidLatestLedgerInfo)
    else if latest.ledgerInfo.epoch > newEpochState.epoch && more then Ok(epochChangeLi)
    else Err(InconsistentProof)
  }

  function RatchetEpoch(state: TrustedState, accumulator: AccumulatorRoot, proof: StateProof)
    : Result<TrustedStateChange, RatchetError>
  {
    match VerifyProof(proof.epochChanges, state.AsVerifier())
    case Err(reason) => Err(InvalidEpochChangeProof(reason))
    case Ok(epochChangeLi) =>
      if epochChangeLi.ledgerInfo.nextEpochState.None? then Err(NotEpochChange)
      else
        var newEpochState := epochChangeLi.ledgerInfo.nextEpochState.value;
        var verified :- ChooseVerified(epochChangeLi, newEpochState, proof.latest, proof.epochChanges.more);
        var newAccumulator :- TryExtend(accumulator, proof.consistency, verified.ledgerInfo);
        Ok(Epoch(InEpoch(WaypointOf(verified.ledgerInfo), newEpochState, newAccumulator), epochChangeLi))
  }

  function RatchetVersion(state: TrustedState, accumulator: AccumulatorRoot, proof: StateProof)
    : Result<TrustedStateChange, RatchetError>
  {
    match state
    case AtWaypoint(_) => Err(WaypointNeedsEpochChange)
    case InEpoch(waypoint, epochState, _) =>
      var newWaypoint := WaypointOf(proof.latest.ledgerInfo);
      if newWaypoint.version == waypoint.version then
        if newWaypoint == waypoint then Ok(NoChange) else Err(LedgerInfoMismatch)
      else if !VerifiedBy(epochState, proof.latest) then Err(InvalidLatestLedgerInfo)
      else
        var newAccumulator :- TryExtend(accumulator, proof.consistency, proof.latest.ledgerInfo);
        Ok(Version(InEpoch(newWaypoint, epochState, newAccumulator)))
  }

  function VerifyAndRatchet(state: TrustedState, proof: StateProof, initial: Option<AccumulatorRoot>)
    : Result<TrustedStateChange, RatchetError>
  {
    if proof.latest.ledgerInfo.version < state.Version() then Err(StaleTarget)
    else
      var accumulator :- CurrentAccumulator(state, proof.epochChanges, initial);
      if EpochChangeRequired(state.AsVerifier(), proof.latest.ledgerInfo.NextBlockEpoch()) then
        RatchetEpoch(state, accumulator, proof)
      else RatchetVersion(state, accumulator, proof)
  }

  // ----- Safety of one step -----

  /**
   * A trusted state that tells the truth: its waypoint is genuine, its validators are the real ones
   * of their epoch, the waypoint lies in that epoch or ends the one before, and the accumulator is
   * the whole history up to the waypoint.
   */
  predicate Truthful(l: seq<Transaction>, state: TrustedState) {
    && GenuineWaypoint(l, state.waypoint)
    && (state.InEpoch? ==>
          && IsEpochState(l, state.epochState)
          && (|| state.waypoint.value.epoch == state.epochState.epoch
              || (&& state.waypoint.value.epoch + 1 == state.epochState.epoch
                  && state.waypoint.value.nextEpochState == Some(state.epochState)))
          && state.accumulator == l[..state.waypoint.version + 1])
  }

  ghost predicate UnforgedProof(w: World, proof: StateProof) {
    Unforged(w, proof.latest) && AllUnforged(w, proof.epochChanges.ledgerInfos)
  }

  /** The later state is at least as far as the earlier one, in versions and in epochs. */
  predicate NotBehind(earlier: TrustedState, later: TrustedState) {
    && earlier.Version() <= later.Version()
    && (earlier.InEpoch? ==> later.InEpoch? && earlier.epochState.epoch <= later.epochState.epoch)
  }

  lemma {:induction false} EpochRatchetIsTruthful(
    w: World, state: TrustedState, accumulator: AccumulatorRoot, proof: StateProof)
    requires Safe(w) && Truthful(w.history, state) && UnforgedProof(w, proof)
    requires state.Version() <= proof.latest.ledgerInfo.version
    requires state.InEpoch? ==> accumulator == state.accumulator
    requires RatchetEpoch(state, accumulator, proof).Ok?
    ensures var change := RatchetEpoch(state, accumulator, proof).value;
            && change.Epoch?
            && change.newState.InEpoch?
            && Truthful(w.history, change.newState)
            && NotBehind(state, change.newState)
            && (state.InEpoch? ==> state.epochState.epoch < change.newState.epochState.epoch)
  {
    var v := state.AsVerifier();
    var epochChangeLi := VerifyProof(proof.epochChanges, v).value;
    VerifiedProofIsGenuine(w, v, proof.epochChanges);
    EndingIsEpochState(w.history, epochChangeLi.ledgerInfo);
    var newEpochState := epochChangeLi.ledgerInfo.nextEpochState.value;
    var verified := ChooseVerified(epochChangeLi, newEpochState, proof.latest, proof.epochChanges.more).value;
    if verified != epochChangeLi {
      VerifiedIsGenuine(w, newEpochState, proof.latest);
    }
  }

  lemma {:induction false} VersionRatchetIsTruthful(
    w: World, state: TrustedState, accumulator: AccumulatorRoot, proof: StateProof)
    requires Safe(w) && Truthful(w.history, state) && UnforgedProof(w, proof)
    requires state.InEpoch? ==> accumulator == state.accumulator
    requires RatchetVersion(state, accumulator, proof).Ok?
    requires RatchetVersion(state, accumulator, proof).value.Version?
    ensures var newState := RatchetVersion(state, accumulator, proof).value.newState;
            && newState.InEpoch?
            && Truthful(w.history, newState)
            && NotBehind(state, newState)
            && state.Version() < newState.Version()
  {
    VerifiedIsGenuine(w, state.epochState, proof.latest);
  }

  // ----- Whole runs -----

  datatype Response = Response(proof: StateProof, initial: Option<AccumulatorRoot>)

  /** A client keeps its state when a response is rejected or brings nothing new. */
  function Advance(state: TrustedState, response: Response): TrustedState {
    match VerifyAndRatchet(state, response.proof, response.initial)
    case Ok(Version(newState)) => newState
    case Ok(Epoch(newState, _)) => newState
    case _ => state
  }

  function Run(state: TrustedState, responses: seq<Response>): TrustedState {
    if responses == [] then state
    else Advance(Run(state, responses[..|responses| - 1]), responses[|responses| - 1])
  }

  ghost predicate UnforgedResponses(w: World, responses: seq<Response>) {
    forall i | 0 <= i < |responses| :: UnforgedProof(w, responses[i].proof)
  }

  lemma {:induction false} AdvanceIsTruthful(w: World, state: TrustedState, response: Response)
    requires Safe(w) && Truthful(w.history, state) && UnforgedProof(w, response.proof)
    ensures Truthful(w.history, Advance(state, response))
    ensures NotBehind(state, Advance(state, response))
    ensures Advance(state, response).AtWaypoint? ==> Advance(state, response) == state
    ensures var r := VerifyAndRatchet(state, response.proof, response.initial);
            r.Ok? && r.value.Epoch? && state.InEpoch? ==>
              Advance(state, response).InEpoch?
              && state.epochState.epoch < Advance(state, response).epochState.epoch
  {
    var r := VerifyAndRatchet(state, response.proof, response.initial);
    if r.Ok? {
      var accumulator := CurrentAccumulator(state, response.proof.epochChanges, response.initial).value;
      if r.value.Epoch? {
        EpochRatchetIsTruthful(w, state, accumulator, response.proof);
      } else if r.value.Version? {
        VersionRatchetIsTruthful(w, state, accumulator, response.proof);
      }
    }
  }

  /** Whatever responses arrive, in whatever order, a truthful client stays truthful. */
  lemma {:induction false} RunsAreTruthful(w: World, state: TrustedState, responses: seq<Response>)
    requires Safe(w) && Truthful(w.history, state) && UnforgedResponses(w, responses)
    ensures Truthful(w.history, Run(state, responses))
  {
    if responses != [] {
      var n := |responses| - 1;
      RunsAreTruthful(w, state, responses[..n]);
      AdvanceIsTruthful(w, Run(state, responses[..n]), responses[n]);
    }
  }

  /** Over any run the trusted version and epoch never go back, and a client never returns to a waypoint. */
  lemma {:induction false} RunsAreMonotone(w: World, state: TrustedState, responses: seq<Response>, i: nat)
    requires Safe(w) && Truthful(w.history, state) && UnforgedResponses(w, responses)
    requires i <= |responses|
    ensures NotBehind(Run(state, responses[..i]), Run(state, responses))
    decreases |responses|
  {
    var n := |responses| - 1;
    if i == |responses| {
      assert responses[..i] == responses;
    } else {
      RunsAreMonotone(w, state, responses[..n], i);
      assert responses[..n][..i] == responses[..i];
      RunsAreTruthful(w, state, responses[..n]);
      AdvanceIsTruthful(w, Run(state, responses[..n]), responses[n]);
    }
  }

  /** Two clients never hold conflicting views, whichever servers each of them asked. */
  lemma {:induction false} ClientsNeverFork(
    w: World, a: TrustedState, fromServersA: seq<Response>, b: TrustedState, fromServersB: seq<Response>)
    requires Safe(w) && Truthful(w.history, a) && Truthful(w.history, b)
    requires UnforgedResponses(w, fromServersA) && UnforgedResponses(w, fromServersB)
    ensures var x, y := Run(a, fromServersA), Run(b, fromServersB);
            x.InEpoch? && y.InEpoch? ==>
              && (x.epochState.epoch == y.epochState.epoch ==> x.epochState == y.epochState)
              && (x.Version() <= y.Version() ==> x.accumulator <= y.accumulator)
  {
    RunsAreTruthful(w, a, fromServersA);
    RunsAreTruthful(w, b, fromServersB);
    var x, y := Run(a, fromServersA), Run(b, fromServersB);
    if x.InEpoch? && y.InEpoch? && x.epochState.epoch == y.epochState.epoch {
      EpochStateUnique(w.history, x.epochState, y.epochState);
    }
  }

  /** A client at a waypoint needs an accumulator to start from. */
  lemma {:induction false} WaypointNeedsAccumulator(waypoint: Waypoint, proof: StateProof)
    ensures VerifyAndRatchet(AtWaypoint(waypoint), proof, None)
            == Err(if proof.latest.ledgerInfo.version < waypoint.version then StaleTarget
                   else MissingInitialAccumulator)
  {
  }
}
