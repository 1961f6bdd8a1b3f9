/**
 * Two responses that a client asked for at once: what becomes of the second after the first was adopted.
 * Epoch changes alone commute, but a consistency proof starts at the version the client had.
 */
module ConcurrentResponses {
  import opened LedgerTypes
  import opened Validators
  import opened History
  import opened EpochChange
  import opened TrustedStates

  function Verdict(state: TrustedState, r: Response): Result<TrustedStateChange, RatchetError> {
    VerifyAndRatchet(state, r.proof, r.initial)
  }

  predicate NeedsEpochChange(state: TrustedState, r: Response) {
    EpochChangeRequired(state.AsVerifier(), r.proof.latest.ledgerInfo.NextBlockEpoch())
  }

  /** The response is about the ledger info that the client trusts already. */
  predicate BringsNothing(state: TrustedState, r: Response) {
    WaypointOf(r.proof.latest.ledgerInfo) == state.waypoint && !NeedsEpochChange(state, r)
  }

  /** A response to a client at a waypoint starts with the waypoint's own ledger info. */
  predicate StartsAtClient(state: TrustedState, r: Response) {
    state.AtWaypoint? ==>
      && r.proof.epochChanges.ledgerInfos != []
      && !Stale(state.AsVerifier(), r.proof.epochChanges.ledgerInfos[0].ledgerInfo)
  }

  /**
   * When a response that was good for `before` is still good for the later state `after`: if nothing
   * changed, if it brings nothing, or if the client moved to the next epoch without moving its version
   * and the response leads beyond that.
   */
  predicate StillAccepted(before: TrustedState, after: TrustedState, r: Response) {
    || after == before
    || BringsNothing(after, r)
    || (&& after.Version() == before.Version() && after.InEpoch?
        && StartsAtClient(before, r)
        && if NeedsEpochChange(after, r) then
             r.proof.epochChanges.ledgerInfos != []
             && r.proof.epochChanges.ledgerInfos[|r.proof.epochChanges.ledgerInfos| - 1].ledgerInfo.epoch
                >= after.epochState.epoch
           else r.proof.latest.ledgerInfo.epoch == after.epochState.epoch)
  }

  // ----- What an accepted response consists of -----

  /** An accumulator that was extended to a genuine ledger info was a prefix of the history itself. */
  lemma {:induction false} ExtendedParts(
    l: seq<Transaction>, accumulator: AccumulatorRoot, consistency: seq<Transaction>, target: LedgerInfo)
    requires Genuine(l, target) && TryExtend(accumulator, consistency, target).Ok?
    ensures 0 < |accumulator| <= target.version + 1 <= |l|
    ensures accumulator == l[..|accumulator|] && consistency == l[|accumulator|..target.version + 1]
    ensures TryExtend(accumulator, consistency, target) == Ok(l[..target.version + 1])
  {
    var whole := accumulator + consistency;
    assert whole == target.rootHash == l[..target.version + 1];
    assert accumulator == whole[..|accumulator|] && consistency == whole[|accumulator|..];
  }

  /** A consistency proof fits one starting point only. */
  lemma {:induction false} ExtendsOnce(
    l: seq<Transaction>, from: nat, consistency: seq<Transaction>, target: LedgerInfo, other: nat)
    requires Genuine(l, target) && from <= target.version && other <= target.version
    requires consistency == l[from + 1..target.version + 1] && from != other
    ensures TryExtend(l[..other + 1], consistency, target).Err?
  {
  }

  /** The epoch changes, the trusted ledger info and the starting accumulator of an accepted epoch change. */
  lemma {:induction false} EpochParts(w: World, state: TrustedState, r: Response)
    returns (last: LedgerInfoWithSignatures, verified: LedgerInfoWithSignatures, base: nat)
    requires Safe(w) && Truthful(w.history, state) && UnforgedProof(w, r.proof)
    requires Verdict(state, r).Ok? && NeedsEpochChange(state, r)
    ensures VerifyProof(r.proof.epochChanges, state.AsVerifier()) == Ok(last)
    ensures Genuine(w.history, last.ledgerInfo) && last.ledgerInfo.EndsEpoch()
    ensures IsEpochState(w.history, last.ledgerInfo.nextEpochState.value)
    ensures last.ledgerInfo.nextEpochState.value.epoch == last.ledgerInfo.epoch + 1
    ensures FirstEpoch(state.AsVerifier()) <= last.ledgerInfo.epoch
    ensures ChooseVerified(last, last.ledgerInfo.nextEpochState.value, r.proof.latest, r.proof.epochChanges.more)
         == Ok(verified)
    ensures Genuine(w.history, verified.ledgerInfo) && state.Version() <= verified.ledgerInfo.version
    ensures verified == last || (verified == r.proof.latest
                                 && VerifiedBy(last.ledgerInfo.nextEpochState.value, verified))
    ensures base <= state.Version() && base <= verified.ledgerInfo.version
    ensures r.proof.consistency == w.history[base + 1..verified.ledgerInfo.version + 1]
    ensures base == state.Version() <==> StartsAtClient(state, r)
    ensures Advance(state, r) == InEpoch(WaypointOf(verified.ledgerInfo), last.ledgerInfo.nextEpochState.value,
                                         w.history[..verified.ledgerInfo.version + 1])
  {
    hide VerifySignatures, VerifyProof, TryExtend, Genuine, Chained;
    var v, l := state.AsVerifier(), w.history;
    var accumulator := CurrentAccumulator(state, r.proof.epochChanges, r.initial).value;
    last := VerifyProof(r.proof.epochChanges, v).value;
    VerifiedProofIsGenuine(w, v, r.proof.epochChanges);
    EndingIsEpochState(l, last.ledgerInfo);
    EpochRatchetIsTruthful(w, state, accumulator, r.proof);
    verified := ChooseVerified(last, last.ledgerInfo.nextEpochState.value, r.proof.latest,
                               r.proof.epochChanges.more).value;
    if verified != last {
      VerifiedIsGenuine(w, last.ledgerInfo.nextEpochState.value, r.proof.latest);
    }
    ExtendedParts(l, accumulator, r.proof.consistency, verified.ledgerInfo);
    base := |accumulator| - 1;
    BaseOfWaypoint(w, state, r, accumulator);
  }

  /** The first ledger info of an accepted response to a waypoint is the waypoint's or an older one. */
  lemma {:induction false} BaseOfWaypoint(w: World, state: TrustedState, r: Response, accumulator: AccumulatorRoot)
    requires Safe(w) && Truthful(w.history, state)
    requires CurrentAccumulator(state, r.proof.epochChanges, r.initial) == Ok(accumulator) && accumulator != []
    requires VerifyProof(r.proof.epochChanges, state.AsVerifier()).Ok?
    ensures |accumulator| - 1 <= state.Version()
    ensures |accumulator| - 1 == state.Version() <==> StartsAtClient(state, r)
  {
    if state.AtWaypoint? {
      VerifiedParts(r.proof.epochChanges, state.AsVerifier());
    }
  }

  /** The accumulator and the starting point of an accepted version change. */
  lemma {:induction false} VersionParts(w: World, state: TrustedState, r: Response)
    requires Safe(w) && Truthful(w.history, state) && UnforgedProof(w, r.proof)
    requires Verdict(state, r).Ok? && !NeedsEpochChange(state, r)
    ensures state.InEpoch?
    ensures WaypointOf(r.proof.latest.ledgerInfo) == state.waypoint ==> Advance(state, r) == state
    ensures WaypointOf(r.proof.latest.ledgerInfo) != state.waypoint ==>
              && VerifiedBy(state.epochState, r.proof.latest) && Genuine(w.history, r.proof.latest.ledgerInfo)
              && state.Version() < r.proof.latest.ledgerInfo.version
              && r.proof.consistency == w.history[state.Version() + 1..r.proof.latest.ledgerInfo.version + 1]
              && Advance(state, r).Version() > state.Version()
  {
    hide VerifySignatures, TryExtend, Genuine;
    if WaypointOf(r.proof.latest.ledgerInfo) != state.waypoint {
      VerifiedIsGenuine(w, state.epochState, r.proof.latest);
      ExtendedParts(w.history, state.accumulator, r.proof.consistency, r.proof.latest.ledgerInfo);
    }
  }

  // ----- A client that moved to the next epoch without moving its version -----

  /** Then its waypoint ends the epoch before the new one, and the client could not have had the new validators. */
  lemma {:induction false} UnmovedParts(w: World, state: TrustedState, a: Response) returns (ending: LedgerInfo)
    requires Safe(w) && Truthful(w.history, state) && UnforgedProof(w, a.proof) && Verdict(state, a).Ok?
    requires Advance(state, a) != state && Advance(state, a).Version() == state.Version()
    ensures var after := Advance(state, a);
            && after.InEpoch? && after.waypoint == state.waypoint
            && after.accumulator == w.history[..state.Version() + 1]
            && Genuine(w.history, ending) && ending.nextEpochState == Some(after.epochState)
            && ending.epoch == state.waypoint.value.epoch == FirstEpoch(state.AsVerifier())
            && after.epochState.epoch == ending.epoch + 1
            && state.waypoint.value.nextEpochState == Some(after.epochState)
            && IsEpochState(w.history, after.epochState)
  {
    hide VerifySignatures, VerifyAndRatchet, ChooseVerified, VerifyProof, StartsAtClient;
    if NeedsEpochChange(state, a) {
      var last, verified, base := EpochParts(w, state, a);
      ending := last.ledgerInfo;
      GenuineOrder(w.history, ContentOf(verified.ledgerInfo), state.waypoint.value);
    } else {
      VersionParts(w, state, a);
      assert false;
    }
  }

  // ----- The second response -----

  /** What is needed of the state between the two responses. */
  lemma {:induction false} AfterIsTruthful(w: World, before: TrustedState, a: Response)
    requires Safe(w) && Truthful(w.history, before) && UnforgedProof(w, a.proof)
    ensures var after := Advance(before, a);
            && Truthful(w.history, after) && before.Version() <= after.Version()
            && (after != before ==> after.InEpoch?)
            && (before.InEpoch? ==> after.InEpoch? && before.epochState.epoch <= after.epochState.epoch)
  {
    hide VerifyAndRatchet, Truthful;
    AdvanceIsTruthful(w, before, a);
  }

  /** A response whose epoch changes the client still needs. */
  lemma {:induction false} SecondEpochChange(w: World, before: TrustedState, a: Response, b: Response)
    requires Safe(w) && Truthful(w.history, before) && UnforgedProof(w, a.proof) && UnforgedProof(w, b.proof)
    requires Verdict(before, a).Ok? && Verdict(before, b).Ok?
    requires Advance(before, a) != before && NeedsEpochChange(Advance(before, a), b)
    requires b.proof.latest.ledgerInfo.version >= Advance(before, a).Version()
    ensures var after := Advance(before, a);
            && (Verdict(after, b).Ok? <==> StillAccepted(before, after, b))
            && (StillAccepted(before, after, b) ==> Advance(after, b) == Advance(before, b))
  {
    hide VerifySignatures, TryExtend, Genuine, Truthful, ChooseVerified, StartsAtClient, Advance, VerifyProof,
      VerifyAndRatchet, Safe, UnforgedProof;
    var after, l := Advance(before, a), w.history;
    AfterIsTruthful(w, before, a);
    AccumulatorIs(l, after);
    var last, verified, base := EpochParts(w, before, b);
    VerifiedIsLast(b, before.AsVerifier());
    VerdictOnEpochChange(after, b, last, verified);
    if base == after.Version() {
      ExtendsHere(l, base, b.proof.consistency, verified.ledgerInfo);
      UnmovedVerifies(w, before, a, b);
    } else if verified.ledgerInfo.version >= after.Version() {
      ExtendsOnce(l, base, b.proof.consistency, verified.ledgerInfo, after.Version());
    } else {
      ExtendsBack(l, after.Version(), b.proof.consistency, verified.ledgerInfo);
    }
    AdvanceIs(after, b);
  }

  /** At an unmoved version, epoch changes that reach the new epoch still verify. */
  lemma {:induction false} UnmovedVerifies(w: World, before: TrustedState, a: Response, b: Response)
    requires Safe(w) && Truthful(w.history, before) && UnforgedProof(w, a.proof) && UnforgedProof(w, b.proof)
    requires Verdict(before, a).Ok? && Advance(before, a) != before && Advance(before, a).Version() == before.Version()
    requires StartsAtClient(before, b) && VerifyProof(b.proof.epochChanges, before.AsVerifier()).Ok?
    ensures var after := Advance(before, a);
            && after.InEpoch?
            && (VerifyProof(b.proof.epochChanges, before.AsVerifier()).value.ledgerInfo.epoch
                >= after.epochState.epoch ==>
                  VerifyProof(b.proof.epochChanges, after.AsVerifier()).Ok?)
  {
    hide VerifySignatures, Genuine, StartsAtClient, Advance, VerifyProof, SkippedBelow, VerifyAndRatchet;
    var ending := UnmovedParts(w, before, a);
    if VerifyProof(b.proof.epochChanges, before.AsVerifier()).value.ledgerInfo.epoch > ending.epoch {
      NothingSkipped(before, b, ending.epoch + 1);
      ProofExtends(w, before.AsVerifier(), ending, b.proof.epochChanges);
    }
  }

  lemma {:induction false} TruthfulWaypoint(l: seq<Transaction>, state: TrustedState)
    requires Truthful(l, state)
    ensures GenuineWaypoint(l, state.waypoint)
  {
  }

  lemma {:induction false} AccumulatorIs(l: seq<Transaction>, state: TrustedState)
    requires Truthful(l, state) && state.InEpoch?
    ensures state.Version() < |l| && state.accumulator == l[..state.Version() + 1]
    ensures IsEpochState(l, state.epochState)
  {
  }

  lemma {:induction false} ExtendsHere(
    l: seq<Transaction>, from: nat, consistency: seq<Transaction>, target: LedgerInfo)
    requires Genuine(l, target) && from <= target.version && consistency == l[from + 1..target.version + 1]
    ensures TryExtend(l[..from + 1], consistency, target) == Ok(l[..target.version + 1])
  {
    assert l[..from + 1] + consistency == l[..target.version + 1];
  }

  lemma {:induction false} ExtendsBack(
    l: seq<Transaction>, from: nat, consistency: seq<Transaction>, target: LedgerInfo)
    requires target.version < from < |l|
    ensures TryExtend(l[..from + 1], consistency, target).Err?
  {
  }

  lemma {:induction false} VerifiedIsLast(r: Response, v: Verifier)
    requires VerifyProof(r.proof.epochChanges, v).Ok?
    ensures var infos := r.proof.epochChanges.ledgerInfos;
            infos != [] && VerifyProof(r.proof.epochChanges, v) == Ok(infos[|infos| - 1])
  {
  }

  lemma {:induction false} NothingSkipped(state: TrustedState, r: Response, epoch: nat)
    requires StartsAtClient(state, r) && FirstEpoch(state.AsVerifier()) < epoch
    ensures SkippedBelow(state.AsVerifier(), r.proof.epochChanges.ledgerInfos, epoch)
  {
    EpochsSkipBelow(state.AsVerifier(), r.proof.epochChanges.ledgerInfos, epoch);
  }

  /** The epoch branch of the ratchet, for a response with known last and trusted ledger infos. */
  lemma {:induction false} VerdictOnEpochChange(
    state: TrustedState, r: Response, last: LedgerInfoWithSignatures, verified: LedgerInfoWithSignatures)
    requires state.InEpoch? && NeedsEpochChange(state, r) && r.proof.latest.ledgerInfo.version >= state.Version()
    requires var infos := r.proof.epochChanges.ledgerInfos; infos != [] && last == infos[|infos| - 1]
    requires last.ledgerInfo.EndsEpoch()
    requires ChooseVerified(last, last.ledgerInfo.nextEpochState.value, r.proof.latest, r.proof.epochChanges.more)
          == Ok(verified)
    ensures var extended := TryExtend(state.accumulator, r.proof.consistency, verified.ledgerInfo);
            && (Verdict(state, r).Ok? <==> VerifyProof(r.proof.epochChanges, state.AsVerifier()).Ok? && extended.Ok?)
            && (Verdict(state, r).Ok? ==>
                  Verdict(state, r) == Ok(Epoch(InEpoch(WaypointOf(verified.ledgerInfo),
                                                        last.ledgerInfo.nextEpochState.value, extended.value), last)))
            && (VerifyProof(r.proof.epochChanges, state.AsVerifier()).Ok? ==>
                  last.ledgerInfo.epoch >= state.epochState.epoch)
  {
    hide ChooseVerified, TryExtend, Chained;
  }

  lemma {:induction false} AdvanceIs(state: TrustedState, r: Response)
    ensures Advance(state, r) ==
              match Verdict(state, r)
              case Ok(Version(newState)) => newState
              case Ok(Epoch(newState, _)) => newState
              case _ => state
  {
    hide VerifyAndRatchet;
  }

  /** A response without epoch changes to make, after the client's version moved. */
  lemma {:induction false} SecondAfterMove(w: World, before: TrustedState, a: Response, b: Response)
    requires Safe(w) && Truthful(w.history, before) && UnforgedProof(w, a.proof) && UnforgedProof(w, b.proof)
    requires Verdict(before, a).Ok? && Verdict(before, b).Ok?
    requires Advance(before, a).Version() > before.Version() && !NeedsEpochChange(Advance(before, a), b)
    ensures var after := Advance(before, a);
            && (Verdict(after, b).Ok? <==> BringsNothing(after, b))
            && (Verdict(after, b).Ok? ==> Verdict(after, b) == Ok(NoChange))
  {
    hide VerifySignatures, TryExtend, Genuine, Truthful, ChooseVerified, StartsAtClient, Advance, VerifyProof,
      UnforgedProof;
    var after, latest := Advance(before, a), b.proof.latest;
    AfterIsTruthful(w, before, a);
    AccumulatorIs(w.history, after);
    if latest.ledgerInfo.version > after.Version() && VerifiedBy(after.epochState, latest) {
      assert Unforged(w, latest) by { LatestUnforged(w, b); }
      VerifiedIsGenuine(w, after.epochState, latest);
      MovedCannotExtend(w, before, b, after.Version());
    }
  }

  lemma {:induction false} LatestUnforged(w: World, r: Response)
    requires UnforgedProof(w, r.proof)
    ensures Unforged(w, r.proof.latest)
  {
  }

  /** The consistency proof of a response cannot be used from a later version, not even for another ledger info. */
  lemma {:induction false} MovedCannotExtend(w: World, before: TrustedState, b: Response, moved: nat)
    requires Safe(w) && Truthful(w.history, before) && UnforgedProof(w, b.proof) && Verdict(before, b).Ok?
    requires before.Version() < moved < b.proof.latest.ledgerInfo.version
    requires Genuine(w.history, b.proof.latest.ledgerInfo)
    ensures TryExtend(w.history[..moved + 1], b.proof.consistency, b.proof.latest.ledgerInfo).Err?
  {
    hide VerifySignatures, TryExtend, Truthful, ChooseVerified, StartsAtClient, Advance, VerifyProof, VerifyAndRatchet;
    var l, latest := w.history, b.proof.latest.ledgerInfo;
    if !NeedsEpochChange(before, b) {
      VersionParts(w, before, b);
      ExtendsOnce(l, before.Version(), b.proof.consistency, latest, moved);
    } else {
      var last, verified, base := EpochParts(w, before, b);
      if verified.ledgerInfo.version == latest.version {
        ExtendsOnce(l, base, b.proof.consistency, latest, moved);
      } else if TryExtend(l[..moved + 1], b.proof.consistency, latest).Ok? {
        ExtendedParts(l, l[..moved + 1], b.proof.consistency, latest);
        SameEnd(l, base, last.ledgerInfo, moved, latest);
      }
    }
  }

  /** Two stretches of the history that end in a reconfiguration are only equal if they end at the same version. */
  lemma {:induction false} SameEnd(l: seq<Transaction>, base: nat, last: LedgerInfo, moved: nat, latest: LedgerInfo)
    requires ValidHistory(l) && Genuine(l, last) && last.EndsEpoch() && Genuine(l, latest)
    requires base <= last.version && moved < latest.version
    requires l[base + 1..last.version + 1] == l[moved + 1..latest.version + 1]
    ensures last.version == latest.version
  {
    var stretch := l[base + 1..last.version + 1];
    assert stretch[|stretch| - 1] == l[last.version] == l[latest.version];
    assert NumberedInOrder(l, last.version) && NumberedInOrder(l, latest.version);
    EndVersionUnique(l, last.version, latest.version);
  }

  /** A response without epoch changes to make, after the client moved to the next epoch at the same version. */
  lemma {:induction false} SecondUnmoved(w: World, before: TrustedState, a: Response, b: Response)
    requires Safe(w) && Truthful(w.history, before) && UnforgedProof(w, a.proof) && UnforgedProof(w, b.proof)
    requires Verdict(before, a).Ok? && Verdict(before, b).Ok? && Advance(before, a) != before
    requires Advance(before, a).Version() == before.Version() && !NeedsEpochChange(Advance(before, a), b)
    ensures var after := Advance(before, a);
            && (Verdict(after, b).Ok? <==> StillAccepted(before, after, b))
            && (StillAccepted(before, after, b) ==>
                  Advance(after, b) == if BringsNothing(after, b) then after else Advance(before, b))
  {
    hide VerifySignatures, TryExtend, Genuine, Truthful, ChooseVerified, StartsAtClient, Advance, VerifyProof,
      VerifyAndRatchet, UnforgedProof;
    var after, l, latest := Advance(before, a), w.history, b.proof.latest;
    var ending := UnmovedParts(w, before, a);
    UnmovedNeedsChange(w, before, after, b);
    assert GenuineWaypoint(l, before.waypoint) by { TruthfulWaypoint(l, before); }
    var last, verified, base := EpochParts(w, before, b);
    UnmovedChoice(l, before, after, b, last, verified);
    VerdictOnVersion(after, b);
    AdvanceIs(after, b);
    if latest.ledgerInfo.epoch == after.epochState.epoch {
      if base == after.Version() {
        ExtendsHere(l, base, b.proof.consistency, latest.ledgerInfo);
      } else {
        ExtendsOnce(l, base, b.proof.consistency, latest.ledgerInfo, after.Version());
      }
    }
  }

  /** The version branch of the ratchet. */
  lemma {:induction false} VerdictOnVersion(state: TrustedState, r: Response)
    requires state.InEpoch? && !NeedsEpochChange(state, r) && r.proof.latest.ledgerInfo.version >= state.Version()
    ensures var latest := r.proof.latest;
            var extended := TryExtend(state.accumulator, r.proof.consistency, latest.ledgerInfo);
            Verdict(state, r) ==
              if latest.ledgerInfo.version == state.Version() then
                if WaypointOf(latest.ledgerInfo) == state.waypoint then Ok(NoChange) else Err(LedgerInfoMismatch)
              else if !VerifiedBy(state.epochState, latest) then Err(InvalidLatestLedgerInfo)
              else match extended
                   case Err(error) => Err(error)
                   case Ok(root) => Ok(Version(InEpoch(WaypointOf(latest.ledgerInfo), state.epochState, root)))
  {
    hide VerifiedBy, TryExtend;
  }

  lemma {:induction false} UnmovedNeedsChange(w: World, before: TrustedState, after: TrustedState, b: Response)
    requires Safe(w) && Truthful(w.history, before) && UnforgedProof(w, b.proof) && Verdict(before, b).Ok?
    requires after.InEpoch? && before.waypoint.value.nextEpochState == Some(after.epochState)
    requires after.epochState.epoch == before.waypoint.value.epoch + 1
    requires FirstEpoch(before.AsVerifier()) == before.waypoint.value.epoch
    ensures NeedsEpochChange(before, b) && b.proof.latest.ledgerInfo.version >= before.Version()
  {
    hide VerifySignatures, TryExtend, VerifyProof, ChooseVerified;
    if !NeedsEpochChange(before, b) {
      VersionParts(w, before, b);
      var latest := b.proof.latest.ledgerInfo;
      if WaypointOf(latest) != before.waypoint {
        GenuineOrder(w.history, before.waypoint.value, ContentOf(latest));
      }
    }
  }

  /** Which ledger info such a response would have made the client trust. */
  lemma {:induction false} UnmovedChoice(
    l: seq<Transaction>, before: TrustedState, after: TrustedState, b: Response,
    last: LedgerInfoWithSignatures, verified: LedgerInfoWithSignatures)
    requires ValidHistory(l) && GenuineWaypoint(l, before.waypoint)
    requires after.InEpoch? && after.waypoint == before.waypoint && IsEpochState(l, after.epochState)
    requires before.waypoint.value.nextEpochState == Some(after.epochState)
    requires after.epochState.epoch == before.waypoint.value.epoch + 1 && !NeedsEpochChange(after, b)
    requires Genuine(l, last.ledgerInfo) && last.ledgerInfo.EndsEpoch()
    requires last.ledgerInfo.nextEpochState.value.epoch == last.ledgerInfo.epoch + 1
    requires IsEpochState(l, last.ledgerInfo.nextEpochState.value)
    requires before.waypoint.value.epoch <= last.ledgerInfo.epoch
    requires ChooseVerified(last, last.ledgerInfo.nextEpochState.value, b.proof.latest, b.proof.epochChanges.more)
          == Ok(verified)
    requires Genuine(l, verified.ledgerInfo) && before.Version() <= verified.ledgerInfo.version
    ensures var latest := b.proof.latest;
            latest.ledgerInfo.epoch == after.epochState.epoch ==>
              && verified == latest && VerifiedBy(after.epochState, latest)
              && last.ledgerInfo.nextEpochState == Some(after.epochState)
              && latest.ledgerInfo.version > after.Version()
  {
    hide VerifySignatures;
    var latest := b.proof.latest;
    if latest.ledgerInfo.epoch == after.epochState.epoch {
      EpochStateUnique(l, last.ledgerInfo.nextEpochState.value, after.epochState);
      GenuineOrder(l, ContentOf(verified.ledgerInfo), before.waypoint.value);
    }
  }

  /**
   * Two responses to one state: when the second is still accepted after the first, and what it then
   * brings. A client whose version moved takes nothing from the second, however far it reaches.
   */
  lemma {:induction false} SecondResponse(w: World, before: TrustedState, a: Response, b: Response)
    requires Safe(w) && Truthful(w.history, before) && UnforgedProof(w, a.proof) && UnforgedProof(w, b.proof)
    requires Verdict(before, a).Ok? && Verdict(before, b).Ok?
    ensures var after := Advance(before, a);
            && (Verdict(after, b).Ok? <==> StillAccepted(before, after, b))
            && Advance(after, b) ==
                 (if StillAccepted(before, after, b) && !BringsNothing(after, b) then Advance(before, b) else after)
  {
    hide Truthful, StartsAtClient, VerifyAndRatchet, Advance, UnforgedProof;
    var after := Advance(before, a);
    AfterIsTruthful(w, before, a);
    AdvanceIs(after, b);
    if after == before {
      NothingStays(w, before, b);
    } else if b.proof.latest.ledgerInfo.version < after.Version() {
      StaleIsRefused(before, after, b);
    } else if NeedsEpochChange(after, b) {
      SecondEpochChange(w, before, a, b);
    } else if after.Version() > before.Version() {
      SecondAfterMove(w, before, a, b);
    } else {
      SecondUnmoved(w, before, a, b);
    }
  }

  lemma {:induction false} NothingStays(w: World, state: TrustedState, b: Response)
    requires Safe(w) && Truthful(w.history, state) && UnforgedProof(w, b.proof) && Verdict(state, b).Ok?
    ensures BringsNothing(state, b) ==> Advance(state, b) == state
  {
    hide Truthful, VerifyAndRatchet, Advance;
    if BringsNothing(state, b) {
      VersionParts(w, state, b);
    }
  }

  lemma {:induction false} StaleIsRefused(before: TrustedState, after: TrustedState, b: Response)
    requires after != before && b.proof.latest.ledgerInfo.version < after.Version()
    requires Verdict(before, b).Ok?
    ensures Verdict(after, b).Err? && !StillAccepted(before, after, b)
  {
    hide RatchetEpoch, RatchetVersion, CurrentAccumulator;
  }

  /**
   * Where the order of responses matters: if the first moved the client's version and the second would
   * have led further, the second is refused.
   */
  lemma {:induction false} FurtherIsRefused(w: World, before: TrustedState, a: Response, b: Response)
    requires Safe(w) && Truthful(w.history, before) && UnforgedProof(w, a.proof) && UnforgedProof(w, b.proof)
    requires Verdict(before, a).Ok? && Verdict(before, b).Ok?
    requires before.Version() < Advance(before, a).Version() < Advance(before, b).Version()
    ensures Verdict(Advance(before, a), b).Err? && Advance(Advance(before, a), b) != Advance(before, b)
  {
    hide Truthful, VerifyAndRatchet, Advance, UnforgedProof;
    var after, latest := Advance(before, a), b.proof.latest.ledgerInfo;
    SecondResponse(w, before, a, b);
    AfterIsTruthful(w, before, a);
    TruthfulWaypoint(w.history, after);
    if BringsNothing(after, b) {
      assert Genuine(w.history, latest);
      GenuineLatestBounds(w, before, b);
    }
  }

  /** No response leads past its latest ledger info, if that is genuine. */
  lemma {:induction false} GenuineLatestBounds(w: World, before: TrustedState, b: Response)
    requires Safe(w) && Truthful(w.history, before) && UnforgedProof(w, b.proof) && Verdict(before, b).Ok?
    requires Genuine(w.history, b.proof.latest.ledgerInfo)
    ensures Advance(before, b).Version() <= b.proof.latest.ledgerInfo.version
  {
    hide VerifySignatures, VerifyProof, TryExtend, StartsAtClient;
    if NeedsEpochChange(before, b) {
      var last, verified, base := EpochParts(w, before, b);
      GenuineOrder(w.history, ContentOf(b.proof.latest.ledgerInfo), ContentOf(verified.ledgerInfo));
    }
  }
}
