/** The server side of the light client: the state proof it builds always moves a truthful client on. */
module StateProofs {
  import opened LedgerTypes
  import opened Validators
  import opened History
  import opened LedgerStorage
  import opened EpochChange
  import opened TrustedStates

  /**
   * The proof for a client at `knownVersion`: the epoch changes it needs, at most `limit` of them, and
   * a consistency proof up to the ledger info it will be able to verify.
   */
  function GetStateProof(st: Storage, knownVersion: nat, limit: nat): Result<StateProof, StorageError> {
    if knownVersion > st.latest.ledgerInfo.version then Err(MissingTransactions)
    else
      var knownEpoch :- GetEpoch(st, knownVersion);
      var endEpoch := st.latest.ledgerInfo.NextBlockEpoch();
      var (infos, more) :-
        if knownEpoch < endEpoch then GetEpochEndingLedgerInfos(st, knownEpoch, endEpoch, limit)
        else Ok(([], false));
      if more && infos == [] then Err(MissingLedgerInfo)
      else
        var verifiable := if more then infos[|infos| - 1].ledgerInfo else st.latest.ledgerInfo;
        if verifiable.version < knownVersion || |st.txns| <= verifiable.version then Err(MissingTransactions)
        else Ok(StateProof(st.latest, EpochChangeProof(infos, more),
                           st.txns[knownVersion + 1..verifiable.version + 1]))
  }

  lemma {:induction false} GetStateProofIs(
    st: Storage, version: nat, limit: nat, from: nat, infos: seq<LedgerInfoWithSignatures>, more: bool, end: LedgerInfo)
    requires version <= st.latest.ledgerInfo.version && GetEpoch(st, version) == Ok(from)
    requires GetEpochEndingLedgerInfos(st, from, st.latest.ledgerInfo.NextBlockEpoch(), limit) == Ok((infos, more))
    requires if more then infos != [] && end == infos[|infos| - 1].ledgerInfo else end == st.latest.ledgerInfo
    requires version <= end.version < |st.txns|
    ensures GetStateProof(st, version, limit)
         == Ok(StateProof(st.latest, EpochChangeProof(infos, more), st.txns[version + 1..end.version + 1]))
  {
  }

  // ----- A proof from an honest server -----

  /** The stored endings of consecutive epochs are chained. */
  lemma {:induction false} EndingsAreChained(l: seq<Transaction>, st: Storage, es: EpochState, n: nat)
    requires ValidHistory(l) && Servable(l, st) && IsEpochState(l, es) && es.epoch > 0
    requires es.epoch + n <= st.latest.ledgerInfo.NextBlockEpoch()
    requires forall e | 0 <= e < st.latest.ledgerInfo.NextBlockEpoch() :: EndsStoredEpoch(st, e)
    ensures Chained(ByEpochState(es), Endings(st, es.epoch, n))
    decreases n
  {
    hide VerifySignatures;
    if n > 0 {
      StoredEnding(l, st, es.epoch);
      EndingsAreChained(l, st, Ending(st, es.epoch).ledgerInfo.nextEpochState.value, n - 1);
      EndingsDrop(st, es.epoch, n, 1);
    }
  }

  /** The ending of an epoch between two versions lies between them. */
  lemma {:induction false} EndingBetween(l: seq<Transaction>, st: Storage, version: nat, e: nat)
    requires ValidHistory(l) && Faithful(l, st) && version < |l|
    requires EpochAt(l, version) <= e < st.latest.ledgerInfo.NextBlockEpoch() && EndsStoredEpoch(st, e)
    ensures version <= Ending(st, e).ledgerInfo.version <= st.latest.ledgerInfo.version
  {
    var li := st.latest.ledgerInfo;
    var ending := st.epochInfos[e].ledgerInfo;
    assert HoldsEnding(l, st, e);
    if ending.version < version {
      EpochMonotone(l, ending.version, version);
    }
    if li.version < ending.version {
      GenuineOrder(l, ContentOf(li), ContentOf(ending));
      EpochMonotone(l, li.version, ending.version);
    }
  }

  lemma {:induction false} EndingsStored(l: seq<Transaction>, st: Storage)
    requires Faithful(l, st)
    ensures forall e | 0 <= e < st.latest.ledgerInfo.NextBlockEpoch() :: EndsStoredEpoch(st, e)
  {
    forall e | 0 <= e < st.latest.ledgerInfo.NextBlockEpoch()
      ensures EndsStoredEpoch(st, e)
    {
      assert HoldsEnding(l, st, e);
    }
  }

  lemma {:induction false} EndingsDrop(st: Storage, from: nat, n: nat, k: nat)
    requires forall e | from <= e < from + n :: EndsStoredEpoch(st, e)
    requires k <= n
    ensures Endings(st, from, n)[k..] == Endings(st, from + k, n - k)
  {
  }

  /** Storage answers for every closed epoch. */
  lemma {:induction false} EndingsAnswer(st: Storage, from: nat, limit: nat) returns (n: nat)
    requires limit > 0
    requires forall e | 0 <= e < st.latest.ledgerInfo.NextBlockEpoch() :: EndsStoredEpoch(st, e)
    requires from <= st.latest.ledgerInfo.NextBlockEpoch()
    ensures from + n <= st.latest.ledgerInfo.NextBlockEpoch()
    ensures n <= limit && (from + n < st.latest.ledgerInfo.NextBlockEpoch() ==> n == limit)
    ensures GetEpochEndingLedgerInfos(st, from, st.latest.ledgerInfo.NextBlockEpoch(), limit)
         == Ok((Endings(st, from, n), from + n < st.latest.ledgerInfo.NextBlockEpoch()))
  {
    var needed := st.latest.ledgerInfo.NextBlockEpoch() - from;
    n := if needed > limit then limit else needed;
  }

  lemma {:induction false} HonestProofIs(
    l: seq<Transaction>, st: Storage, version: nat, limit: nat, from: nat, n: nat, end: LedgerInfo)
    requires st.txns <= l && version <= end.version <= st.latest.ledgerInfo.version < |st.txns|
    requires GetEpoch(st, version) == Ok(from)
    requires forall e | from <= e < from + n :: EndsStoredEpoch(st, e)
    requires var more := from + n < st.latest.ledgerInfo.NextBlockEpoch();
             && GetEpochEndingLedgerInfos(st, from, st.latest.ledgerInfo.NextBlockEpoch(), limit)
                == Ok((Endings(st, from, n), more))
             && if more then n > 0 && end == Endings(st, from, n)[n - 1].ledgerInfo else end == st.latest.ledgerInfo
    ensures GetStateProof(st, version, limit) ==
            Ok(StateProof(st.latest,
                          EpochChangeProof(Endings(st, from, n), from + n < st.latest.ledgerInfo.NextBlockEpoch()),
                          l[version + 1..end.version + 1]))
  {
    GetStateProofIs(st, version, limit, from, Endings(st, from, n),
                    from + n < st.latest.ledgerInfo.NextBlockEpoch(), end);
    assert st.txns[version + 1..end.version + 1] == l[version + 1..end.version + 1];
  }

  /**
   * An honest server sends the endings of `n` epochs from the client's own on, and a consistency
   * proof up to the ledger info `end` that these let the client verify.
   */
  lemma {:induction false} HonestProofShape(l: seq<Transaction>, st: Storage, version: nat, limit: nat)
    returns (from: nat, n: nat, end: LedgerInfo)
    requires ValidHistory(l) && Servable(l, st) && limit > 0
    requires version <= st.latest.ledgerInfo.version
    ensures forall e | 0 <= e < st.latest.ledgerInfo.NextBlockEpoch() :: EndsStoredEpoch(st, e)
    ensures from == EpochAt(l, version) && n <= limit && from + n <= st.latest.ledgerInfo.NextBlockEpoch()
    ensures version <= end.version <= st.latest.ledgerInfo.version < |l|
    ensures GetStateProof(st, version, limit) ==
            Ok(StateProof(st.latest,
                          EpochChangeProof(Endings(st, from, n), from + n < st.latest.ledgerInfo.NextBlockEpoch()),
                          l[version + 1..end.version + 1]))
    ensures from + n < st.latest.ledgerInfo.NextBlockEpoch() ==>
              n == limit && end == Ending(st, from + n - 1).ledgerInfo
    ensures from + n == st.latest.ledgerInfo.NextBlockEpoch() ==> end == st.latest.ledgerInfo
  {
    var li := st.latest.ledgerInfo;
    from := EpochAt(l, version);
    EndingsStored(l, st);
    EpochOfPrefix(l, |st.txns|, version);
    assert GetEpoch(st, version) == Ok(from);
    EpochMonotone(l, version, li.version);
    GenuineOrder(l, ContentOf(li), ContentOf(li));
    n := EndingsAnswer(st, from, limit);
    if from + n < li.NextBlockEpoch() {
      var last := from + n - 1;
      EndingBetween(l, st, version, last);
      end := Ending(st, last).ledgerInfo;
    } else {
      end := li;
    }
    HonestProofIs(l, st, version, limit, from, n, end);
  }

  // ----- A truthful client and an honest server -----

  /** A client that can be served: truthful, and at the end of an epoch if it only has a waypoint. */
  predicate Ready(l: seq<Transaction>, state: TrustedState) {
    Truthful(l, state) && (state.AtWaypoint? ==> state.waypoint.value.nextEpochState.Some?)
  }

  /** The endings from the client's own epoch on verify, and lead to the last of them. */
  lemma {:induction false} HonestChangesVerify(
    l: seq<Transaction>, st: Storage, state: TrustedState, from: nat, n: nat, more: bool)
    requires ValidHistory(l) && Servable(l, st) && Ready(l, state) && from == EpochAt(l, state.Version())
    requires forall e | 0 <= e < st.latest.ledgerInfo.NextBlockEpoch() :: EndsStoredEpoch(st, e)
    requires 0 < n && from + n <= st.latest.ledgerInfo.NextBlockEpoch()
    requires state.InEpoch? ==> state.epochState.epoch < from + n
    ensures VerifyProof(EpochChangeProof(Endings(st, from, n), more), state.AsVerifier())
         == Ok(Ending(st, from + n - 1))
  {
    hide VerifySignatures, Chained, StalePrefix;
    if state.AtWaypoint? {
      var infos := StartsAtWaypoint(l, st, state.waypoint, n);
      ProofVerifies(EpochChangeProof(infos, more), state.AsVerifier(), 0);
    } else {
      var infos, skip := StartsInEpoch(l, st, state.epochState, from, n);
      ProofVerifies(EpochChangeProof(infos, more), state.AsVerifier(), skip);
    }
  }

  lemma {:induction false} EndingEpoch(l: seq<Transaction>, st: Storage, e: nat)
    requires Faithful(l, st) && e < st.latest.ledgerInfo.NextBlockEpoch() && EndsStoredEpoch(st, e)
    ensures Ending(st, e).ledgerInfo.epoch == e
  {
    assert HoldsEnding(l, st, e);
  }

  lemma {:induction false} StartsInEpoch(l: seq<Transaction>, st: Storage, es: EpochState, from: nat, n: nat)
    returns (infos: seq<LedgerInfoWithSignatures>, skip: nat)
    requires ValidHistory(l) && Servable(l, st) && IsEpochState(l, es)
    requires from <= es.epoch <= from + 1 && es.epoch < from + n <= st.latest.ledgerInfo.NextBlockEpoch()
    requires forall e | 0 <= e < st.latest.ledgerInfo.NextBlockEpoch() :: EndsStoredEpoch(st, e)
    ensures infos == Endings(st, from, n) && skip < n
    ensures StalePrefix(ByEpochState(es), infos) == skip
    ensures !Stale(ByEpochState(es), infos[n - 1].ledgerInfo)
    ensures Chained(ByEpochState(es), infos[skip..])
  {
    hide VerifySignatures, Chained;
    infos := Endings(st, from, n);
    skip := es.epoch - from;
    EndingEpoch(l, st, from);
    EndingEpoch(l, st, es.epoch);
    EndingEpoch(l, st, from + n - 1);
    StalePrefixIs(ByEpochState(es), infos, skip);
    EpochStateOfIs(l, es);
    EndingsAreChained(l, st, es, n - skip);
    EndingsDrop(st, from, n, skip);
  }

  lemma {:induction false} StartsAtWaypoint(l: seq<Transaction>, st: Storage, w: Waypoint, n: nat)
    returns (infos: seq<LedgerInfoWithSignatures>)
    requires ValidHistory(l) && Servable(l, st) && GenuineWaypoint(l, w) && w.value.nextEpochState.Some?
    requires 0 < n && w.value.epoch + n <= st.latest.ledgerInfo.NextBlockEpoch()
    requires forall e | 0 <= e < st.latest.ledgerInfo.NextBlockEpoch() :: EndsStoredEpoch(st, e)
    ensures infos == Endings(st, w.value.epoch, n)
    ensures StalePrefix(ByWaypoint(w), infos) == 0
    ensures !Stale(ByWaypoint(w), infos[n - 1].ledgerInfo)
    ensures Chained(ByWaypoint(w), infos)
  {
    hide VerifySignatures;
    var from := w.value.epoch;
    infos := Endings(st, from, n);
    var li := Ending(st, from).ledgerInfo;
    StoredEnding(l, st, from);
    EndVersionUnique(l, li.version, w.version);
    StoredEnding(l, st, from + n - 1);
    GenuineOrder(l, ContentOf(Ending(st, from + n - 1).ledgerInfo), ContentOf(li));
    EndingsAreChained(l, st, li.nextEpochState.value, n - 1);
    EndingsDrop(st, from, n, 1);
  }

  /**
   * The one case in which an honest proof is of no use: the epoch changes were cut off at `limit`,
   * and the latest ledger info ends the very epoch that they lead to. The client then trusts the
   * latest ledger info, but the consistency proof stops at the last epoch change.
   */
  predicate CutShort(st: Storage, from: nat, limit: nat) {
    st.latest.ledgerInfo.EndsEpoch() && st.latest.ledgerInfo.epoch == from + limit
  }

  function HonestResponse(l: seq<Transaction>, st: Storage, state: TrustedState, limit: nat): Response
    requires state.Version() < |l| && GetStateProof(st, state.Version(), limit).Ok?
  {
    Response(GetStateProof(st, state.Version(), limit).value, Some(l[..state.Version() + 1]))
  }

  /** What the epoch branch of the ratchet makes of an honest proof. */
  lemma {:induction false} HonestEpochRatchet(
    l: seq<Transaction>, st: Storage, state: TrustedState, from: nat, n: nat, end: LedgerInfo, proof: StateProof)
    requires ValidHistory(l) && Servable(l, st) && Ready(l, state)
    requires forall e | 0 <= e < st.latest.ledgerInfo.NextBlockEpoch() :: EndsStoredEpoch(st, e)
    requires from == EpochAt(l, state.Version()) && 0 < n && from + n <= st.latest.ledgerInfo.NextBlockEpoch()
    requires state.InEpoch? ==> state.epochState.epoch < from + n
    requires state.Version() <= end.version < |l|
    requires proof == StateProof(st.latest,
                                 EpochChangeProof(Endings(st, from, n),
                                                  from + n < st.latest.ledgerInfo.NextBlockEpoch()),
                                 l[state.Version() + 1..end.version + 1])
    requires if from + n < st.latest.ledgerInfo.NextBlockEpoch() then end == Ending(st, from + n - 1).ledgerInfo
             else end == st.latest.ledgerInfo
    ensures var r := RatchetEpoch(state, l[..state.Version() + 1], proof);
            if from + n < st.latest.ledgerInfo.NextBlockEpoch() && CutShort(st, from, n) then r.Err?
            else
              var last := Ending(st, from + n - 1);
              && last.ledgerInfo.EndsEpoch()
              && r == Ok(Epoch(InEpoch(WaypointOf(end), last.ledgerInfo.nextEpochState.value, l[..end.version + 1]),
                               last))
  {
    hide VerifySignatures, VerifyProof, ChooseVerified, TryExtend, Truthful, RatchetEpoch, Endings, EpochAt, Servable,
      Genuine;
    var more := from + n < st.latest.ledgerInfo.NextBlockEpoch();
    HonestChangesVerify(l, st, state, from, n, more);
    HonestEnds(l, st, from + n - 1);
    HonestChoice(l, st, from, n);
    ExtendsTo(l, state.Version(), end, st.latest.ledgerInfo);
    var last := Ending(st, from + n - 1);
    RatchetEpochIs(state, l[..state.Version() + 1], proof, last,
                   if more && st.latest.ledgerInfo.epoch != from + n then last else st.latest);
  }

  lemma {:induction false} RatchetEpochIs(
    state: TrustedState, accumulator: AccumulatorRoot, proof: StateProof,
    last: LedgerInfoWithSignatures, verified: LedgerInfoWithSignatures)
    requires VerifyProof(proof.epochChanges, state.AsVerifier()) == Ok(last) && last.ledgerInfo.EndsEpoch()
    requires ChooseVerified(last, last.ledgerInfo.nextEpochState.value, proof.latest, proof.epochChanges.more)
          == Ok(verified)
    ensures var es := last.ledgerInfo.nextEpochState.value;
            RatchetEpoch(state, accumulator, proof)
            == match TryExtend(accumulator, proof.consistency, verified.ledgerInfo)
               case Err(error) => Err(error)
               case Ok(root) => Ok(Epoch(InEpoch(WaypointOf(verified.ledgerInfo), es, root), last))
  {
    hide VerifyProof, ChooseVerified, TryExtend;
  }

  /** The ending of a stored epoch is genuine, and below the latest ledger info unless that ends the epoch itself. */
  lemma {:induction false} HonestEnds(l: seq<Transaction>, st: Storage, e: nat)
    requires ValidHistory(l) && Servable(l, st) && e < st.latest.ledgerInfo.NextBlockEpoch() && EndsStoredEpoch(st, e)
    ensures var li, latest := Ending(st, e).ledgerInfo, st.latest.ledgerInfo;
            && Genuine(l, li) && Genuine(l, latest)
            && latest.NextBlockEpoch() == latest.epoch + (if latest.EndsEpoch() then 1 else 0)
            && (latest.epoch > e ==> latest.version != li.version)
  {
    hide VerifySignatures;
    assert HoldsEnding(l, st, e);
    GenuineOrder(l, ContentOf(st.latest.ledgerInfo), ContentOf(Ending(st, e).ledgerInfo));
  }

  /** Where an honest epoch change leads is a truthful state. */
  lemma {:induction false} HonestEpochIsTruthful(l: seq<Transaction>, st: Storage, from: nat, n: nat, end: LedgerInfo)
    requires ValidHistory(l) && Servable(l, st)
    requires 0 < n && from + n <= st.latest.ledgerInfo.NextBlockEpoch() && EndsStoredEpoch(st, from + n - 1)
    requires if from + n < st.latest.ledgerInfo.NextBlockEpoch() then end == Ending(st, from + n - 1).ledgerInfo
             else end == st.latest.ledgerInfo
    ensures var es := Ending(st, from + n - 1).ledgerInfo.nextEpochState.value;
            && es.epoch == from + n
            && end.version < |l|
            && Truthful(l, InEpoch(WaypointOf(end), es, l[..end.version + 1]))
  {
    hide VerifySignatures;
    StoredEnding(l, st, from + n - 1);
    GenuineOrder(l, ContentOf(st.latest.ledgerInfo), ContentOf(st.latest.ledgerInfo));
  }

  lemma {:induction false} ExtendsTo(l: seq<Transaction>, version: nat, end: LedgerInfo, other: LedgerInfo)
    requires version <= end.version < |l| && Genuine(l, end) && Genuine(l, other)
    ensures TryExtend(l[..version + 1], l[version + 1..end.version + 1], end) == Ok(l[..end.version + 1])
    ensures other.version != end.version ==>
              TryExtend(l[..version + 1], l[version + 1..end.version + 1], other).Err?
  {
  }

  lemma {:induction false} HonestChoice(l: seq<Transaction>, st: Storage, from: nat, n: nat)
    requires ValidHistory(l) && Servable(l, st)
    requires 0 < n && from + n <= st.latest.ledgerInfo.NextBlockEpoch() && EndsStoredEpoch(st, from + n - 1)
    ensures var last := Ending(st, from + n - 1);
            var more := from + n < st.latest.ledgerInfo.NextBlockEpoch();
            && last.ledgerInfo.EndsEpoch()
            && ChooseVerified(last, last.ledgerInfo.nextEpochState.value, st.latest, more) ==
               Ok(if more && st.latest.ledgerInfo.epoch != from + n then last else st.latest)
  {
    hide VerifySignatures;
    var li := st.latest.ledgerInfo;
    StoredEnding(l, st, from + n - 1);
    GenuineOrder(l, ContentOf(li), ContentOf(li));
    EpochStateOfIs(l, Ending(st, from + n - 1).ledgerInfo.nextEpochState.value);
  }

  /** What the version branch of the ratchet makes of an honest proof. */
  lemma {:induction false} HonestVersionRatchet(
    l: seq<Transaction>, st: Storage, state: TrustedState, proof: StateProof)
    requires ValidHistory(l) && Servable(l, st) && Ready(l, state) && state.InEpoch?
    requires state.Version() <= st.latest.ledgerInfo.version
    requires st.latest.ledgerInfo.NextBlockEpoch() <= state.epochState.epoch
    requires proof.latest == st.latest
    requires proof.consistency == l[state.Version() + 1..st.latest.ledgerInfo.version + 1]
    ensures var r := RatchetVersion(state, l[..state.Version() + 1], proof);
            && r.Ok?
            && (r.value.NoChange? ==> state.waypoint == WaypointOf(st.latest.ledgerInfo))
            && (r.value.Version? ==> r.value.newState.InEpoch? && Truthful(l, r.value.newState)
                                     && r.value.newState.waypoint == WaypointOf(st.latest.ledgerInfo))
            && !r.value.Epoch?
  {
    hide VerifySignatures;
    var li := st.latest.ledgerInfo;
    GenuineOrder(l, state.waypoint.value, ContentOf(li));
    GenuineOrder(l, ContentOf(li), ContentOf(li));
    EpochStateOfIs(l, state.epochState);
    ExtendsTo(l, state.Version(), li, li);
  }

  lemma {:induction false} HonestAccumulator(
    l: seq<Transaction>, st: Storage, state: TrustedState, changes: EpochChangeProof)
    requires ValidHistory(l) && Servable(l, st) && Ready(l, state)
    requires state.Version() <= st.latest.ledgerInfo.version
    requires state.AtWaypoint? ==>
               && EndsStoredEpoch(st, state.waypoint.value.epoch)
               && changes.ledgerInfos != [] && changes.ledgerInfos[0] == Ending(st, state.waypoint.value.epoch)
    ensures CurrentAccumulator(state, changes, Some(l[..state.Version() + 1])) == Ok(l[..state.Version() + 1])
  {
    hide VerifySignatures;
    if state.AtWaypoint? {
      var w := state.waypoint;
      GenuineOrder(l, w.value, ContentOf(st.latest.ledgerInfo));
      GenuineOrder(l, ContentOf(st.latest.ledgerInfo), ContentOf(st.latest.ledgerInfo));
      StoredEnding(l, st, w.value.epoch);
      EndVersionUnique(l, w.version, Ending(st, w.value.epoch).ledgerInfo.version);
    }
  }

  // ----- One exchange -----

  /** The honest proof is accepted exactly when it is not cut short, and then brings the client forward. */
  lemma {:induction false} HonestProofAdvances(l: seq<Transaction>, st: Storage, state: TrustedState, limit: nat)
    returns (from: nat, response: Response, after: TrustedState)
    requires ValidHistory(l) && Servable(l, st) && Ready(l, state) && limit >= 2
    requires state.Version() <= st.latest.ledgerInfo.version
    ensures from == EpochAt(l, state.Version()) <= st.latest.ledgerInfo.NextBlockEpoch()
    ensures GetStateProof(st, state.Version(), limit).Ok? && response == HonestResponse(l, st, state, limit)
    ensures after == Advance(state, response) && Ready(l, after)
    ensures CutShort(st, from, limit) ==> after == state
    ensures after.Version() <= st.latest.ledgerInfo.version
    ensures VerifyAndRatchet(state, response.proof, response.initial).Ok? <==> !CutShort(st, from, limit)
    ensures !CutShort(st, from, limit) && st.latest.ledgerInfo.NextBlockEpoch() - from > limit ==>
              after.InEpoch? && after.epochState.epoch == from + limit
              && after.waypoint.value.epoch == from + limit - 1
    ensures !CutShort(st, from, limit) && st.latest.ledgerInfo.NextBlockEpoch() - from <= limit ==>
              after.InEpoch? && after.waypoint == WaypointOf(st.latest.ledgerInfo)
  {
    hide VerifySignatures, VerifyProof, RatchetEpoch, RatchetVersion, GetStateProof, EpochAt, Endings,
      CurrentAccumulator;
    var li := st.latest.ledgerInfo;
    var n, end;
    from, n, end := HonestProofShape(l, st, state.Version(), limit);
    response := HonestResponse(l, st, state, limit);
    after := Advance(state, response);
    GenuineOrder(l, state.waypoint.value, ContentOf(li));
    GenuineOrder(l, ContentOf(li), ContentOf(li));
    HonestAccumulator(l, st, state, response.proof.epochChanges);
    if EpochChangeRequired(state.AsVerifier(), li.NextBlockEpoch()) {
      HonestEpochRatchet(l, st, state, from, n, end, response.proof);
      HonestEpochIsTruthful(l, st, from, n, end);
      if from + n < li.NextBlockEpoch() {
        EndingEpoch(l, st, from + n - 1);
      }
      assert CutShort(st, from, limit) <==> from + n < li.NextBlockEpoch() && CutShort(st, from, n);
      assert VerifyAndRatchet(state, response.proof, response.initial)
          == RatchetEpoch(state, l[..state.Version() + 1], response.proof);
    } else {
      assert !CutShort(st, from, limit);
      HonestVersionRatchet(l, st, state, response.proof);
    }
  }

  // ----- Catching up -----

  /** A client that asks the same honest server `rounds` times in a row. */
  function CatchUp(l: seq<Transaction>, st: Storage, state: TrustedState, rounds: nat): TrustedState
    decreases rounds
  {
    if rounds == 0 then state
    else if state.Version() >= |l| || GetStateProof(st, state.Version(), MAX_NUM_EPOCH_ENDING_LEDGER_INFO).Err? then
      state
    else CatchUp(l, st, Advance(state, HonestResponse(l, st, state, MAX_NUM_EPOCH_ENDING_LEDGER_INFO)), rounds - 1)
  }

  /** The server's latest ledger info ends an epoch, and paging towards it meets the case `CutShort`. */
  predicate NeverArrives(st: Storage, from: nat) {
    var needed := st.latest.ledgerInfo.NextBlockEpoch() - from;
    && st.latest.ledgerInfo.EndsEpoch() && needed > MAX_NUM_EPOCH_ENDING_LEDGER_INFO
    && (needed - 2) % (MAX_NUM_EPOCH_ENDING_LEDGER_INFO - 1) == 0
  }

  predicate Arrived(st: Storage, state: TrustedState) {
    state.InEpoch? && state.waypoint == WaypointOf(st.latest.ledgerInfo)
  }

  /**
   * A truthful client reaches the server's latest ledger info, from any distance and within one round
   * per epoch, unless paging ends in the case `CutShort`, and then it never does.
   */
  lemma {:induction false} CatchUpArrives(l: seq<Transaction>, st: Storage, state: TrustedState, rounds: nat)
    requires ValidHistory(l) && Servable(l, st) && Ready(l, state)
    requires state.Version() <= st.latest.ledgerInfo.version
    ensures EpochAt(l, state.Version()) <= st.latest.ledgerInfo.NextBlockEpoch()
    ensures var from := EpochAt(l, state.Version());
            if NeverArrives(st, from) then CatchUp(l, st, state, rounds).Version() < st.latest.ledgerInfo.version
            else Arrived(st, state) || rounds > st.latest.ledgerInfo.NextBlockEpoch() - from ==>
                   Arrived(st, CatchUp(l, st, state, rounds))
    decreases rounds
  {
    hide Servable, Ready, Advance, GetStateProof, NeverArrives, EpochAt;
    var after := OneRound(l, st, state);
    if rounds > 0 {
      CatchUpArrives(l, st, after, rounds - 1);
      assert CatchUp(l, st, state, rounds) == CatchUp(l, st, after, rounds - 1);
    }
  }

  /** One round brings the client to the latest ledger info or a page of epochs closer, or it is stuck for good. */
  lemma {:induction false} OneRound(l: seq<Transaction>, st: Storage, state: TrustedState) returns (after: TrustedState)
    requires ValidHistory(l) && Servable(l, st) && Ready(l, state)
    requires state.Version() <= st.latest.ledgerInfo.version
    ensures state.Version() < |l| && GetStateProof(st, state.Version(), MAX_NUM_EPOCH_ENDING_LEDGER_INFO).Ok?
    ensures after == Advance(state, HonestResponse(l, st, state, MAX_NUM_EPOCH_ENDING_LEDGER_INFO))
    ensures Ready(l, after) && after.Version() <= st.latest.ledgerInfo.version < |l|
    ensures EpochAt(l, state.Version()) <= st.latest.ledgerInfo.NextBlockEpoch()
    ensures NeverArrives(st, EpochAt(l, state.Version())) ==>
              NeverArrives(st, EpochAt(l, after.Version())) && state.Version() < st.latest.ledgerInfo.version
    ensures !NeverArrives(st, EpochAt(l, state.Version())) ==>
              || Arrived(st, after)
              || (EpochAt(l, state.Version()) < EpochAt(l, after.Version()) && !Arrived(st, state))
    ensures !NeverArrives(st, EpochAt(l, state.Version())) ==> !NeverArrives(st, EpochAt(l, after.Version()))
  {
    hide Servable, Ready, Advance, GetStateProof;
    var from, response;
    from, response, after := HonestProofAdvances(l, st, state, MAX_NUM_EPOCH_ENDING_LEDGER_INFO);
    LatestEpoch(l, st, state);
    LatestEpoch(l, st, after);
  }

  lemma {:induction false} LatestEpoch(l: seq<Transaction>, st: Storage, state: TrustedState)
    requires ValidHistory(l) && Servable(l, st) && Ready(l, state)
    requires state.Version() <= st.latest.ledgerInfo.version
    ensures var li := st.latest.ledgerInfo;
            && li.version < |l| && EpochAt(l, state.Version()) == state.waypoint.value.epoch
            && li.NextBlockEpoch() == li.epoch + (if li.EndsEpoch() then 1 else 0)
            && (state.Version() == li.version ==> state.waypoint.value.epoch == li.epoch)
            && (state.waypoint == WaypointOf(li) ==> state.Version() == li.version)
  {
    GenuineOrder(l, state.waypoint.value, ContentOf(st.latest.ledgerInfo));
    GenuineOrder(l, ContentOf(st.latest.ledgerInfo), ContentOf(st.latest.ledgerInfo));
  }
}
