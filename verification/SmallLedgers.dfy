/**
 * Small ledgers with a single validator. They show that genuine storage exists for every such
 * history, and they are the concrete inputs at which some expected properties fail.
 */
module SmallLedgers {
  import opened LedgerTypes
  import opened Validators
  import opened History
  import opened LedgerStorage
  import opened StateProofs
  import opened SyncProtocol
  import opened Responder
  import opened Requester
  import opened SyncSafety
  import opened HonestServing
  import opened SyncCompletion
  import opened EpochChange
  import opened TrustedStates
  import opened ConcurrentResponses

  const SOLO: ValidatorVerifier := ValidatorVerifier([ValidatorInfo(0, 0, 1)])

  predicate SoloHistory(l: seq<Transaction>) {
    ValidHistory(l) && forall v | 0 <= v < |l| && l[v].reconfig.Some? :: l[v].reconfig.value.verifier == SOLO
  }

  function LiAt(l: seq<Transaction>, v: nat): LedgerInfo
    requires v < |l|
  {
    LedgerInfo(EpochAt(l, v), 0, 0, l[..v + 1], v, l[v].timestampUsecs, l[v].reconfig, 0)
  }

  function SoloSigned(li: LedgerInfo): LedgerInfoWithSignatures {
    LedgerInfoWithSignatures(li, map[0 := Signature(0, li)])
  }

  /** The last version of epoch `e` among those up to `v`. */
  function LastOf(l: seq<Transaction>, e: nat, v: nat): (u: nat)
    requires v < |l| && e <= EpochAt(l, v)
    ensures u < |l|
  {
    if e < EpochAt(l, v) then EndVersion(l, e, v) else v
  }

  /** Storage of the first `n` transactions whose latest ledger info is the one of version `v`. */
  function Mirror(l: seq<Transaction>, v: nat, n: nat): Storage
    requires v < n <= |l|
  {
    Storage(l[..n], map e: nat | 0 <= e <= EpochAt(l, v) :: SoloSigned(LiAt(l, LastOf(l, e, v))),
            SoloSigned(LiAt(l, v)))
  }

  lemma {:induction false} SoloVerifies(li: LedgerInfo)
    ensures VerifySignatures(SOLO, SoloSigned(li)) == Ok(())
  {
    var lis := SoloSigned(li);
    assert lis.signatures.Keys == {0};
    assert Addresses(SOLO.validators) == {0} by {
      assert SOLO.validators[0].address in Addresses(SOLO.validators);
    }
    assert SOLO.validators[1..] == [];
    assert Power(SOLO.validators, {0}) == 1;
  }

  lemma {:induction false} SoloCertifies(l: seq<Transaction>, v: nat)
    requires SoloHistory(l) && v < |l|
    ensures Certified(l, SoloSigned(LiAt(l, v)))
  {
    var epoch := EpochAt(l, v);
    if epoch > 0 {
      EpochMonotone(l, v, |l|);
      var end := EndVersion(l, epoch - 1, |l|);
      assert NumberedInOrder(l, end);
      SoloVerifies(LiAt(l, v));
    }
  }

  /** Genuine storage that others can verify exists for every history of a single validator. */
  lemma {:induction false} MirrorIsServable(l: seq<Transaction>, v: nat, n: nat)
    requires SoloHistory(l) && v < n <= |l| && forall u | v < u < n :: l[u].reconfig.None?
    ensures Servable(l, Mirror(l, v, n))
  {
    var st := Mirror(l, v, n);
    SoloCertifies(l, v);
    assert NumberedInOrder(l, v);
    forall e | 0 <= e < st.latest.ledgerInfo.NextBlockEpoch()
      ensures HoldsEnding(l, st, e) && HoldsCertified(l, st, e)
    {
      SoloCertifies(l, LastOf(l, e, v));
    }
  }

  // ----- A state proof that its client refuses -----

  /** A ledger on which every transaction ends an epoch. */
  function Busy(n: nat): seq<Transaction> {
    seq(n, i requires 0 <= i < n => Transaction(i, 0, Some(EpochState(i + 1, SOLO))))
  }

  lemma {:induction false} BusyEpochs(n: nat, v: nat)
    requires v <= n
    ensures EpochAt(Busy(n), v) == v
  {
    if v > 0 {
      BusyEpochs(n, v - 1);
    }
  }

  lemma {:induction false} BusyIsSolo(n: nat)
    requires 0 < n <= U64_MAX
    ensures SoloHistory(Busy(n))
  {
    var l := Busy(n);
    forall v | 0 <= v < |l|
      ensures NumberedInOrder(l, v)
    {
      BusyEpochs(n, v);
    }
  }

  /** With one epoch more than fits into a proof, a client at the first waypoint refuses an honest server's proof. */
  lemma {:induction false} BusyLedgerIsCutShort(limit: nat)
    requires 2 <= limit < U64_MAX
    ensures var l := Busy(limit + 1);
            var st, client := Mirror(l, limit, limit + 1), AtWaypoint(WaypointOf(LiAt(l, 0)));
            && ValidHistory(l) && Servable(l, st) && Truthful(l, client) && CutShort(st, 0, limit)
            && GetStateProof(st, 0, limit).Ok?
            && VerifyAndRatchet(client, GetStateProof(st, 0, limit).value, Some(l[..1])).Err?
  {
    hide Servable, VerifyAndRatchet, GetStateProof;
    var l := Busy(limit + 1);
    BusyIsSolo(limit + 1);
    BusyEpochs(limit + 1, 0);
    BusyEpochs(limit + 1, limit);
    MirrorIsServable(l, limit, limit + 1);
    var from, response, after :=
      HonestProofAdvances(l, Mirror(l, limit, limit + 1), AtWaypoint(WaypointOf(LiAt(l, 0))), limit);
  }

  // ----- A request sent ahead that names the wrong version -----

  function Plain(i: nat): Transaction {
    Transaction(i, 0, None)
  }

  const QUIET: seq<Transaction> := [Transaction(0, 0, Some(EpochState(1, SOLO))), Plain(1), Plain(2), Plain(3)]

  lemma {:induction false} QuietEpochs()
    ensures EpochAt(QUIET, 0) == 0 && EpochAt(QUIET, 1) == 1 && EpochAt(QUIET, 2) == 1 && EpochAt(QUIET, 3) == 1
    ensures SoloHistory(QUIET)
  {
  }

  /** A validator that has stored and committed version 1 and syncs to version 3. */
  function SyncingNode(): Node {
    var st := Mirror(QUIET, 1, 2);
    Node(Role.Validator, Config(10, 10, 10, 10), WaypointOf(LiAt(QUIET, 0)), {7}, st,
         SyncState(st.latest, 1, EpochState(1, SOLO)), Some(SoloSigned(LiAt(QUIET, 3))), None, false, map[], [],
         multiset{}, [])
  }

  /** Transaction 2, but against the ledger info of version 1. */
  function OldResponse(): GetChunkResponse {
    GetChunkResponse(VerifiableLedgerInfo(SoloSigned(LiAt(QUIET, 1))), TransactionList(Some(2), [Plain(2)], []))
  }

  lemma {:induction false} SyncingNodeIsSafe()
    ensures Inv(QUIET, SyncingNode()) && InSync(SyncingNode())
  {
    hide VerifySignatures;
    QuietEpochs();
    MirrorIsServable(QUIET, 1, 2);
    var n := SyncingNode();
    TrustedEpochIsNext(QUIET, n.storage);
    assert LastOf(QUIET, 0, 1) == 0;
    assert EndsStoredEpoch(n.storage, 0);
  }

  /** The world in which exactly the genuine ledger infos are signed. */
  ghost function HonestWorld(l: seq<Transaction>): World {
    World(l, iset s: Signature | Genuine(l, s.message))
  }

  lemma {:induction false} HonestWorldIsSafe(l: seq<Transaction>)
    requires SoloHistory(l)
    ensures Safe(HonestWorld(l))
  {
    hide Genuine;
    var w := HonestWorld(l);
    forall v, li: LedgerInfo | 0 <= v < |l| && l[v].reconfig.Some? && IsQuorum(SOLO, Signers(w, SOLO, li))
      ensures Genuine(l, li)
    {
      PowerOfNobody(SOLO.validators);
      assert Signers(w, SOLO, li) != {};
    }
  }

  /**
   * Nothing is stored for an old ledger info, and yet the request sent ahead of it starts behind the
   * transactions that were not stored.
   */
  lemma {:induction false} OldResponseMisleads()
    ensures var w, n, response := HonestWorld(QUIET), SyncingNode(), OldResponse();
            && Safe(w) && Inv(w.history, n) && UnforgedResponse(w, response) && Readable(n.storage)
            && CheckResponse(n, 7, response) == Ok(()) && ApplyChunk(n, response).1 == Ok(())
            && (var m := ApplyChunk(n, response).0;
                m.storage == n.storage && |m.requests| == 1 && m.requests[0].knownVersion == 2
                && m.local.syncedVersion == 1)
  {
    QuietEpochs();
    HonestWorldIsSafe(QUIET);
    SyncingNodeIsSafe();
    OldIsApplied();
  }

  lemma {:induction false} OldIsApplied()
    ensures Readable(SyncingNode().storage)
    ensures var n, response := SyncingNode(), OldResponse();
            && CheckResponse(n, 7, response) == Ok(()) && ApplyChunk(n, response).1 == Ok(())
            && (var m := ApplyChunk(n, response).0;
                m.storage == n.storage && |m.requests| == 1 && m.requests[0].knownVersion == 2
                && m.local.syncedVersion == 1)
  {
    QuietEpochs();
    SyncingNodeIsSafe();
    var li := LiAt(QUIET, 1);
    SoloVerifies(li);
    assert IsOld(SyncingNode(), SoloSigned(li));
  }

  // ----- A chunk that crosses an epoch -----

  const CHANGING: seq<Transaction> :=
    [Transaction(0, 0, Some(EpochState(1, SOLO))), Transaction(1, 0, Some(EpochState(2, SOLO))), Plain(2)]

  lemma {:induction false} ChangingEpochs()
    ensures EpochAt(CHANGING, 0) == 0 && EpochAt(CHANGING, 1) == 1 && EpochAt(CHANGING, 2) == 2
    ensures SoloHistory(CHANGING)
  {
  }

  /** A target that puts version 2 into epoch 1, where it is not, gets a chunk that leaves epoch 1. */
  lemma {:induction false} UnderstatedEpochCrosses()
    ensures var st := Mirror(CHANGING, 2, 3);
            var target := SoloSigned(LiAt(CHANGING, 2).(epoch := 1));
            var request := GetChunkRequest(0, 1, 10, TargetLedgerInfo(target));
            && Servable(CHANGING, st) && Readable(st) && CheckRequest(request) == Ok(()) && !MustWait(st, request)
            && Answer(st, Config(10, 10, 10, 10), request).Ok?
            && !WithinEpoch(CHANGING, 1, Answer(st, Config(10, 10, 10, 10), request).value.txns)
  {
    ChangingEpochs();
    MirrorIsServable(CHANGING, 2, 3);
    var st := Mirror(CHANGING, 2, 3);
    TrustedEpochIsNext(CHANGING, st);
    var n := DeliveredList(CHANGING, st, 1, 10, 2);
    var list := GetTransactions(st, 1, 10, 2).value;
    assert |list.transactions| == 2;
    assert 1 <= 2 < 1 + |list.transactions| && EpochAt(CHANGING, 2) > 1;
  }

  // ----- A sync request that is accepted and cannot complete -----

  /** A validator at rest that stores versions up to 3 but has committed only version 1. */
  function RestingNode(): Node {
    var st := Mirror(QUIET, 1, 4);
    Node(Role.Validator, Config(10, 10, 10, 10), WaypointOf(LiAt(QUIET, 0)), {7}, st,
         SyncState(st.latest, 3, EpochState(1, SOLO)), None, None, false, map[], [], multiset{}, [])
  }

  lemma {:induction false} RestingNodeIsSafe()
    ensures Inv(QUIET, RestingNode()) && InSync(RestingNode())
  {
    hide VerifySignatures;
    QuietEpochs();
    MirrorIsServable(QUIET, 1, 4);
    var n := RestingNode();
    TrustedEpochIsNext(QUIET, n.storage);
    assert LastOf(QUIET, 0, 1) == 0;
    assert EndsStoredEpoch(n.storage, 0);
  }

  /** It accepts a request for version 2, which storage has passed; no run completes that request. */
  lemma {:induction false} PassedTargetIsStuck()
    ensures Readable(RestingNode().storage)
    ensures var n, target := RestingNode(), SoloSigned(LiAt(QUIET, 2));
            var (m, r) := OnSyncRequest(n, target);
            && Inv(QUIET, n) && r == Err(SyncedBeyondTarget) && m.syncRequest == Some(target)
            && !CanComplete(HonestWorld(QUIET), m, target)
  {
    hide Inv, OnSyncRequest, CanComplete;
    QuietEpochs();
    HonestWorldIsSafe(QUIET);
    RestingNodeIsSafe();
    var w, n, target := HonestWorld(QUIET), RestingNode(), SoloSigned(LiAt(QUIET, 2));
    AcceptedRequest(w, n, target);
    BeyondNeverCompletes(w, OnSyncRequest(n, target).0, target);
  }

  /** It accepts a request for version 3 as well, and reports it as reached although only version 1 is committed. */
  lemma {:induction false} ReachedIsNotCommitted()
    ensures Readable(RestingNode().storage)
    ensures var n, target := RestingNode(), SoloSigned(LiAt(QUIET, 3));
            var m := Step(OnSyncRequest(n, target).0, CommitNotified(0));
            SyncReached(target) in m.callbacks && m.storage.latest.ledgerInfo.version == 1
  {
    hide Inv, OnSyncRequest, Step;
    QuietEpochs();
    HonestWorldIsSafe(QUIET);
    RestingNodeIsSafe();
    var w, n, target := HonestWorld(QUIET), RestingNode(), SoloSigned(LiAt(QUIET, 3));
    AcceptedRequest(w, n, target);
    CommitNoticeCompletes(w, OnSyncRequest(n, target).0, target);
  }

  // ----- A response that is refused after another one -----

  function QuietClient(): TrustedState {
    InEpoch(WaypointOf(LiAt(QUIET, 1)), EpochState(1, SOLO), QUIET[..2])
  }

  /** An honest answer to that client from a server whose latest version is `v`. */
  function QuietResponse(v: nat): Response
    requires 1 < v < |QUIET|
  {
    Response(StateProof(SoloSigned(LiAt(QUIET, v)), EpochChangeProof([], false), QUIET[2..v + 1]), None)
  }

  lemma {:induction false} QuietResponseIsAccepted(v: nat)
    requires 1 < v < |QUIET|
    ensures Verdict(QuietClient(), QuietResponse(v)).Ok?
    ensures Advance(QuietClient(), QuietResponse(v)).Version() == v
  {
    QuietEpochs();
    SoloVerifies(LiAt(QUIET, v));
    assert QUIET[..2] + QUIET[2..v + 1] == QUIET[..v + 1];
  }

  /** Both answers are accepted, but after the one for version 2 the one for version 3 is refused. */
  lemma {:induction false} FurtherResponseIsRefused()
    ensures var client, near, far := QuietClient(), QuietResponse(2), QuietResponse(3);
            && Truthful(QUIET, client) && Verdict(client, near).Ok? && Verdict(client, far).Ok?
            && Verdict(Advance(client, near), far).Err?
  {
    hide Verdict, Advance;
    QuietEpochs();
    HonestWorldIsSafe(QUIET);
    QuietResponseIsAccepted(2);
    QuietResponseIsAccepted(3);
    FurtherIsRefused(HonestWorld(QUIET), QuietClient(), QuietResponse(2), QuietResponse(3));
  }
}
