/** Verification of a chain of epoch-change ledger infos. */
module EpochChange {
  import opened LedgerTypes
  import opened History

  /** What a client trusts when it starts: a waypoint, or the validators of an epoch. */
  datatype Verifier = ByWaypoint(waypoint: Waypoint) | ByEpochState(epochState: EpochState)

  datatype EpochChangeProof = EpochChangeProof(ledgerInfos: seq<LedgerInfoWithSignatures>, more: bool)

  datatype ProofError = EmptyProof | StaleProof | InvalidLink

  predicate Accepts(v: Verifier, lis: LedgerInfoWithSignatures) {
    match v
    case ByWaypoint(w) => WaypointMatches(w, lis.ledgerInfo)
    case ByEpochState(es) => VerifiedBy(es, lis)
  }

  predicate EpochChangeRequired(v: Verifier, epoch: nat) {
    v.ByEpochState? ==> v.epochState.epoch < epoch
  }

  predicate Stale(v: Verifier, li: LedgerInfo) {
    match v
    case ByWaypoint(w) => li.version < w.version
    case ByEpochState(es) => li.epoch < es.epoch
  }

  /** The length of the longest prefix of stale ledger infos. */
  function StalePrefix(v: Verifier, infos: seq<LedgerInfoWithSignatures>): (n: nat)
    ensures n <= |infos|
    ensures forall i | 0 <= i < n :: Stale(v, infos[i].ledgerInfo)
    ensures n < |infos| ==> !Stale(v, infos[n].ledgerInfo)
  {
    if infos != [] && Stale(v, infos[0].ledgerInfo) then 1 + StalePrefix(v, infos[1..]) else 0
  }

  lemma {:induction false} StalePrefixIs(v: Verifier, infos: seq<LedgerInfoWithSignatures>, n: nat)
    requires n < |infos| && !Stale(v, infos[n].ledgerInfo)
    requires forall i | 0 <= i < n :: Stale(v, infos[i].ledgerInfo)
    ensures StalePrefix(v, infos) == n
  {
  }

  /** Each ledger info is vouched for by the epoch state that its predecessor carries. */
  predicate Chained(v: Verifier, infos: seq<LedgerInfoWithSignatures>)
    decreases |infos|
  {
    infos == [] ||
    (&& Accepts(v, infos[0])
     && infos[0].ledgerInfo.EndsEpoch()
     && Chained(ByEpochState(infos[0].ledgerInfo.nextEpochState.value), infos[1..]))
  }

  /** A proof verifies to its last ledger info when its fresh part is chained from the verifier. */
  function VerifyProof(proof: EpochChangeProof, v: Verifier): Result<LedgerInfoWithSignatures, ProofError> {
    var infos := proof.ledgerInfos;
    if infos == [] then Err(EmptyProof)
    else if Stale(v, infos[|infos| - 1].ledgerInfo) then Err(StaleProof)
    else if Chained(v, infos[StalePrefix(v, infos)..]) then Ok(infos[|infos| - 1])
    else Err(InvalidLink)
  }

  lemma {:induction false} ProofVerifies(proof: EpochChangeProof, v: Verifier, n: nat)
    requires n < |proof.ledgerInfos| && StalePrefix(v, proof.ledgerInfos) == n
    requires Chained(v, proof.ledgerInfos[n..])
    requires !Stale(v, proof.ledgerInfos[|proof.ledgerInfos| - 1].ledgerInfo)
    ensures VerifyProof(proof, v) == Ok(proof.ledgerInfos[|proof.ledgerInfos| - 1])
  {
  }

  /** The loop of the source: skip the stale prefix, then check link after link. */
  method Verify(proof: EpochChangeProof, verifier: Verifier)
    returns (r: Result<LedgerInfoWithSignatures, ProofError>)
    ensures r == VerifyProof(proof, verifier)
  {
    hide Accepts, Stale;
    var infos := proof.ledgerInfos;
    if |infos| == 0 {
      return Err(EmptyProof);
    }
    if Stale(verifier, infos[|infos| - 1].ledgerInfo) {
      return Err(StaleProof);
    }
    var i := 0;
    while i < |infos| && Stale(verifier, infos[i].ledgerInfo)
      invariant 0 <= i <= |infos|
      invariant forall j | 0 <= j < i :: Stale(verifier, infos[j].ledgerInfo)
    {
      i := i + 1;
    }
    StalePrefixIs(verifier, infos, i);
    var verifierRef := verifier;
    ghost var unseen := infos[i..];
    while i < |infos|
      invariant 0 <= i <= |infos|
      invariant Chained(verifier, unseen) == Chained(verifierRef, infos[i..])
    {
      if !Accepts(verifierRef, infos[i]) || !infos[i].ledgerInfo.EndsEpoch() {
        return Err(InvalidLink);
      }
      assert infos[i..][1..] == infos[i + 1..];
      verifierRef := ByEpochState(infos[i].ledgerInfo.nextEpochState.value);
      i := i + 1;
    }
    return Ok(infos[|infos| - 1]);
  }

  // ----- Soundness over a genuine history -----

  predicate GenuineVerifier(l: seq<Transaction>, v: Verifier) {
    match v
    case ByWaypoint(w) => GenuineWaypoint(l, w)
    case ByEpochState(es) => IsEpochState(l, es)
  }

  /** The epoch of the first ledger info that the verifier accepts. */
  function FirstEpoch(v: Verifier): nat {
    match v
    case ByWaypoint(w) => w.value.epoch
    case ByEpochState(es) => es.epoch
  }

  /** A genuine epoch ending makes a genuine verifier of the next epoch. */
  lemma {:induction false} EndingIsEpochState(l: seq<Transaction>, li: LedgerInfo)
    requires ValidHistory(l) && Genuine(l, li) && li.EndsEpoch()
    ensures IsEpochState(l, li.nextEpochState.value)
    ensures li.nextEpochState.value.epoch == li.epoch + 1
  {
    assert l[li.version].reconfig == Some(li.nextEpochState.value);
    assert NumberedInOrder(l, li.version);
  }

  lemma {:induction false} AcceptedIsGenuine(w: World, v: Verifier, lis: LedgerInfoWithSignatures)
    requires Safe(w) && GenuineVerifier(w.history, v)
    requires Unforged(w, lis) && Accepts(v, lis)
    ensures Genuine(w.history, lis.ledgerInfo)
  {
    if v.ByEpochState? {
      VerifiedIsGenuine(w, v.epochState, lis);
    }
  }

  /** The ledger infos of a chained sequence are genuine endings of consecutive epochs. */
  lemma {:induction false} ChainedIsGenuine(w: World, v: Verifier, infos: seq<LedgerInfoWithSignatures>, k: nat)
    requires Safe(w) && GenuineVerifier(w.history, v)
    requires AllUnforged(w, infos) && Chained(v, infos) && k < |infos|
    ensures Genuine(w.history, infos[k].ledgerInfo) && infos[k].ledgerInfo.EndsEpoch()
    ensures infos[k].ledgerInfo.epoch == infos[0].ledgerInfo.epoch + k
    ensures v.ByEpochState? ==> infos[0].ledgerInfo.epoch == v.epochState.epoch
    ensures v.ByWaypoint? ==> ContentOf(infos[0].ledgerInfo) == v.waypoint.value
    decreases |infos|
  {
    AcceptedIsGenuine(w, v, infos[0]);
    if k > 0 {
      EndingIsEpochState(w.history, infos[0].ledgerInfo);
      ChainedIsGenuine(w, ByEpochState(infos[0].ledgerInfo.nextEpochState.value), infos[1..], k - 1);
    }
  }

  /** Whatever a verified proof leads to is the genuine end of an epoch the client had not passed. */
  lemma {:induction false} VerifiedProofIsGenuine(w: World, v: Verifier, proof: EpochChangeProof)
    requires Safe(w) && GenuineVerifier(w.history, v) && AllUnforged(w, proof.ledgerInfos)
    requires VerifyProof(proof, v).Ok?
    ensures var li := VerifyProof(proof, v).value.ledgerInfo;
            && Genuine(w.history, li) && li.EndsEpoch()
            && (v.ByEpochState? ==> v.epochState.epoch <= li.epoch)
            && (v.ByWaypoint? ==> v.waypoint.version <= li.version)
            && FirstEpoch(v) <= li.epoch
  {
    var infos := proof.ledgerInfos;
    var n := StalePrefix(v, infos);
    var unseen := infos[n..];
    assert unseen != [];
    ChainedIsGenuine(w, v, unseen, |unseen| - 1);
    assert unseen[|unseen| - 1] == infos[|infos| - 1];
  }

  // ----- Concurrent responses -----

  lemma {:induction false} ChainedSuffix(v: Verifier, infos: seq<LedgerInfoWithSignatures>, k: nat)
    requires Chained(v, infos) && 0 < k <= |infos|
    ensures infos[k - 1].ledgerInfo.EndsEpoch()
    ensures Chained(ByEpochState(infos[k - 1].ledgerInfo.nextEpochState.value), infos[k..])
    decreases |infos|
  {
    var next := ByEpochState(infos[0].ledgerInfo.nextEpochState.value);
    if k == 1 {
    } else {
      ChainedSuffix(next, infos[1..], k - 1);
      assert infos[1..][k - 1..] == infos[k..];
    }
  }

  /** What a client trusts after adopting a verified proof. */
  function Adopt(proof: EpochChangeProof, v: Verifier): (after: Verifier)
    requires VerifyProof(proof, v).Ok? && VerifyProof(proof, v).value.ledgerInfo.EndsEpoch()
  {
    ByEpochState(VerifyProof(proof, v).value.ledgerInfo.nextEpochState.value)
  }

  /** What the verifier skips as stale is of an earlier epoch; a waypoint only compares versions. */
  predicate SkippedBelow(v: Verifier, infos: seq<LedgerInfoWithSignatures>, epoch: nat) {
    forall i | 0 <= i < StalePrefix(v, infos) :: infos[i].ledgerInfo.epoch < epoch
  }

  /**
   * Two proofs that both verify from the same state commute: after adopting `a`, proof `b` leads where it
   * would have led at once when it reaches further, and is stale otherwise. A client that started from a
   * waypoint must not have skipped anything that claims a later epoch.
   */
  lemma {:induction false} ConcurrentProofsConfluent(w: World, v: Verifier, a: EpochChangeProof, b: EpochChangeProof)
    requires Safe(w) && GenuineVerifier(w.history, v)
    requires AllUnforged(w, a.ledgerInfos) && AllUnforged(w, b.ledgerInfos)
    requires VerifyProof(a, v).Ok? && VerifyProof(b, v).Ok?
    ensures var lastA, lastB := VerifyProof(a, v).value.ledgerInfo, VerifyProof(b, v).value.ledgerInfo;
            && lastA.EndsEpoch()
            && VerifyProof(b, Adopt(a, v)) ==
                 (if lastA.epoch >= lastB.epoch then Err(StaleProof)
                  else if SkippedBelow(v, b.ledgerInfos, lastA.epoch + 1) then VerifyProof(b, v)
                  else Err(InvalidLink))
            && (v.ByEpochState? ==> SkippedBelow(v, b.ledgerInfos, lastA.epoch + 1))
  {
    hide Chained, StalePrefix, Genuine, SkippedBelow;
    VerifiedProofIsGenuine(w, v, a);
    VerifiedProofIsGenuine(w, v, b);
    VerifiedParts(b, v);
    var lastA, lastB := VerifyProof(a, v).value.ledgerInfo, VerifyProof(b, v).value.ledgerInfo;
    EndingIsEpochState(w.history, lastA);
    EpochsSkipBelow(v, b.ledgerInfos, lastA.epoch + 1);
    if lastA.epoch < lastB.epoch {
      if SkippedBelow(v, b.ledgerInfos, lastA.epoch + 1) {
        ProofExtends(w, v, lastA, b);
      } else {
        SkippedTooMuch(w, v, lastA, b);
      }
    }
  }

  lemma {:induction false} EpochsSkipBelow(v: Verifier, infos: seq<LedgerInfoWithSignatures>, epoch: nat)
    requires v.ByEpochState? ==> v.epochState.epoch <= epoch
    ensures v.ByEpochState? ==> SkippedBelow(v, infos, epoch)
  {
  }

  /** A chain that reaches past a genuine epoch ending continues from that ending. */
  lemma {:induction false} ChainPassesEnding(
    w: World, v: Verifier, infos: seq<LedgerInfoWithSignatures>, ending: LedgerInfo)
    requires Safe(w) && GenuineVerifier(w.history, v)
    requires AllUnforged(w, infos) && Chained(v, infos)
    requires Genuine(w.history, ending) && ending.EndsEpoch() && FirstEpoch(v) <= ending.epoch
    requires ending.epoch - FirstEpoch(v) < |infos|
    ensures Chained(ByEpochState(ending.nextEpochState.value), infos[ending.epoch - FirstEpoch(v) + 1..])
  {
    var k := ending.epoch - FirstEpoch(v);
    ChainedIsGenuine(w, v, infos, k);
    EndVersionUnique(w.history, ending.version, infos[k].ledgerInfo.version);
    ChainedSuffix(v, infos, k + 1);
  }

  lemma {:induction false} FreshEpochs(w: World, v: Verifier, infos: seq<LedgerInfoWithSignatures>)
    requires Safe(w) && GenuineVerifier(w.history, v)
    requires AllUnforged(w, infos) && Chained(v, infos)
    ensures forall k | 0 <= k < |infos| :: infos[k].ledgerInfo.epoch == FirstEpoch(v) + k
  {
    forall k | 0 <= k < |infos|
      ensures infos[k].ledgerInfo.epoch == FirstEpoch(v) + k
    {
      ChainedIsGenuine(w, v, infos, k);
    }
  }

  /** Moving ahead makes the next ledger infos of consecutive epochs stale as well. */
  lemma {:induction false} StalePrefixMoves(first: nat, later: EpochState, infos: seq<LedgerInfoWithSignatures>, n: nat)
    requires n <= |infos| && first <= later.epoch && later.epoch - first < |infos| - n
    requires forall i | 0 <= i < n :: infos[i].ledgerInfo.epoch < later.epoch
    requires forall i | 0 <= i < |infos| - n :: infos[n..][i].ledgerInfo.epoch == first + i
    ensures StalePrefix(ByEpochState(later), infos) == n + later.epoch - first
  {
    var m := n + later.epoch - first;
    assert forall i | n <= i < |infos| :: infos[i] == infos[n..][i - n];
    StalePrefixIs(ByEpochState(later), infos, m);
  }

  lemma {:induction false} VerifiedParts(proof: EpochChangeProof, v: Verifier)
    requires VerifyProof(proof, v).Ok?
    ensures var infos, n := proof.ledgerInfos, StalePrefix(v, proof.ledgerInfos);
            && n < |infos| && Chained(v, infos[n..])
            && VerifyProof(proof, v) == Ok(infos[|infos| - 1])
  {
    hide Chained;
  }

  /** The part of `b` beyond a genuine epoch ending is chained from that ending. */
  lemma {:induction false} ProofExtends(w: World, v: Verifier, ending: LedgerInfo, b: EpochChangeProof)
    requires Safe(w) && GenuineVerifier(w.history, v) && AllUnforged(w, b.ledgerInfos)
    requires VerifyProof(b, v).Ok? && SkippedBelow(v, b.ledgerInfos, ending.epoch + 1)
    requires Genuine(w.history, ending) && ending.EndsEpoch() && FirstEpoch(v) <= ending.epoch
    requires ending.epoch < VerifyProof(b, v).value.ledgerInfo.epoch
    ensures VerifyProof(b, ByEpochState(ending.nextEpochState.value)) == VerifyProof(b, v)
  {
    hide Chained, Genuine, AllUnforged, EpochAt, VerifyProof, StalePrefix;
    var n := StalePrefix(v, b.ledgerInfos);
    EndingIsEpochState(w.history, ending);
    VerifiedParts(b, v);
    UnseenPartExtends(w, v, ending, b.ledgerInfos, n);
    ProofVerifies(b, ByEpochState(ending.nextEpochState.value), n + ending.epoch - FirstEpoch(v) + 1);
  }

  lemma {:induction false} UnseenPartExtends(
    w: World, v: Verifier, ending: LedgerInfo, infos: seq<LedgerInfoWithSignatures>, n: nat)
    requires Safe(w) && GenuineVerifier(w.history, v) && AllUnforged(w, infos)
    requires n < |infos| && Chained(v, infos[n..])
    requires forall i | 0 <= i < n :: infos[i].ledgerInfo.epoch < ending.epoch + 1
    requires Genuine(w.history, ending) && ending.EndsEpoch() && FirstEpoch(v) <= ending.epoch
    requires ending.epoch < infos[|infos| - 1].ledgerInfo.epoch
    ensures var later, k := ByEpochState(ending.nextEpochState.value), ending.epoch - FirstEpoch(v) + 1;
            && n + k < |infos|
            && StalePrefix(later, infos) == n + k
            && Chained(later, infos[n + k..])
  {
    hide Chained, Genuine;
    var unseen := infos[n..];
    EndingIsEpochState(w.history, ending);
    FreshEpochs(w, v, unseen);
    assert unseen[|unseen| - 1] == infos[|infos| - 1];
    ChainPassesEnding(w, v, unseen, ending);
    StalePrefixMoves(FirstEpoch(v), ending.nextEpochState.value, infos, n);
    var k := ending.epoch - FirstEpoch(v) + 1;
    assert infos[n + k..] == unseen[k..];
  }

  /** What a waypoint skipped although it claims a later epoch stops the proof afterwards. */
  lemma {:induction false} SkippedTooMuch(w: World, v: Verifier, ending: LedgerInfo, b: EpochChangeProof)
    requires Safe(w) && GenuineVerifier(w.history, v) && v.ByWaypoint? && AllUnforged(w, b.ledgerInfos)
    requires VerifyProof(b, v).Ok? && !SkippedBelow(v, b.ledgerInfos, ending.epoch + 1)
    requires Genuine(w.history, ending) && ending.EndsEpoch() && FirstEpoch(v) <= ending.epoch
    requires ending.epoch < VerifyProof(b, v).value.ledgerInfo.epoch
    ensures VerifyProof(b, ByEpochState(ending.nextEpochState.value)) == Err(InvalidLink)
  {
    hide Genuine, EpochAt;
    EndingIsEpochState(w.history, ending);
    var infos, later := b.ledgerInfos, ending.nextEpochState.value;
    var n := StalePrefix(ByEpochState(later), infos);
    assert n < StalePrefix(v, infos);
    if Accepts(ByEpochState(later), infos[n]) {
      VerifiedIsGenuine(w, later, infos[n]);
      GenuineOrder(w.history, ContentOf(infos[n].ledgerInfo), v.waypoint.value);
    }
  }

  /** A proof is refused as empty, as stale if its last ledger info is, or because a link does not hold. */
  lemma {:induction false} RefusedProofs(proof: EpochChangeProof, v: Verifier)
    ensures var infos, r := proof.ledgerInfos, VerifyProof(proof, v);
            && (r == Err(EmptyProof) <==> infos == [])
            && (r == Err(StaleProof) <==> infos != [] && Stale(v, infos[|infos| - 1].ledgerInfo))
            && (r == Err(InvalidLink) <==>
                  && infos != [] && !Stale(v, infos[|infos| - 1].ledgerInfo)
                  && !Chained(v, infos[StalePrefix(v, infos)..]))
  {
    hide Stale, Chained, StalePrefix;
  }
}
