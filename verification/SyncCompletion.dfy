/** Over whole runs, with whatever else happening, synchronisation and bootstrap complete. */
module SyncCompletion {
  import opened LedgerTypes
  import opened History
  import opened LedgerStorage
  import opened SyncProtocol
  import opened Responder
  import opened Requester
  import opened SyncSafety
  import opened HonestServing
  import opened SyncLiveness
  import opened SyncPipelining

  // ----- Whole runs -----

  /** How many of the events `i` to `j` are honest answers; the others may be anything admissible. */
  ghost function HonestAnswers(l: seq<Transaction>, states: seq<Node>, events: seq<Event>, i: nat, j: nat): nat
    requires i <= j <= |events| && |states| == |events| + 1
    decreases j
  {
    if i == j then 0
    else HonestAnswers(l, states, events, i, j - 1) + (if IsHonestAnswer(l, states[j - 1], events[j - 1]) then 1 else 0)
  }

  lemma {:induction false} ConfigIsFixed(n: Node, event: Event)
    ensures Step(n, event).config == n.config
  {
    hide Answer, CheckResponse, ValidateAndStore, SubscriptionsChecked, CurrentTarget, VerifiedBy, EndOfEpochToCommit,
      NextVersionAndEpoch, SyncRequestTarget, Readable, StateOf;
    if event.CommitNotified? || event.ResponseArrives? {
      CommitKeepsConfig(n, event);
    }
  }

  lemma {:induction false} CommitKeepsConfig(n: Node, event: Event)
    requires event.CommitNotified? || event.ResponseArrives?
    ensures Step(n, event).config == n.config
  {
    hide OnCommit, ApplyChunk, CheckResponse;
    if Readable(n.storage) {
      if event.CommitNotified? {
        CommitStep(n, event.now);
      } else {
        ApplyOnlyApplies(n, event.response);
        var applied := ApplyChunk(n, event.response).0;
        if Readable(applied.storage) {
          CommitStep(applied, event.now);
        }
      }
    }
  }

  /** Applying a chunk writes storage, the view of it, the target and the requests, and nothing else. */
  predicate OnlyApplies(n: Node, m: Node) {
    m == n.(storage := m.storage, local := m.local, target := m.target, requests := m.requests)
  }

  lemma {:induction false} ProgressiveOnlyApplies(
    n: Node, txns: TransactionList, responseLi: LedgerInfoWithSignatures, highestLi: Option<LedgerInfoWithSignatures>)
    requires Readable(n.storage)
    ensures OnlyApplies(n, ApplyTargetAndHighest(n, txns, responseLi, highestLi).0)
  {
    hide ValidateAndStore, VerifiedBy, NextVersionAndEpoch, Readable, StateOf, NewTarget, Prefetch;
    var next := NextVersionAndEpoch(n, txns, Some(responseLi));
    if next.Ok? {
      PrefetchOnlyAsks(n, next.value.0, next.value.1);
    }
  }

  lemma {:induction false} WaypointOnlyApplies(
    n: Node, txns: TransactionList,
    waypointLi: LedgerInfoWithSignatures, endOfEpochLi: Option<LedgerInfoWithSignatures>)
    requires Readable(n.storage)
    ensures OnlyApplies(n, ApplyWaypoint(n, txns, waypointLi, endOfEpochLi).0)
  {
    hide ValidateAndStore, EndOfEpochToCommit, NextVersionAndEpoch, Readable, WaypointMatches;
  }

  lemma {:induction false} ApplyOnlyApplies(n: Node, response: GetChunkResponse)
    requires Readable(n.storage)
    ensures OnlyApplies(n, ApplyChunk(n, response).0)
  {
    hide ApplyTargetAndHighest, ApplyWaypoint, OnlyApplies;
    match response.responseLi
    case VerifiableLedgerInfo(li) => ProgressiveOnlyApplies(n, response.txns, li, None);
    case ProgressiveLedgerInfo(targetLi, highestLi) =>
      ProgressiveOnlyApplies(n, response.txns, targetLi, Some(highestLi.GetOr(targetLi)));
    case LedgerInfoForWaypoint(waypointLi, endOfEpochLi) =>
      WaypointOnlyApplies(n, response.txns, waypointLi, endOfEpochLi);
  }

  /** Over every run storage grows by at least one transaction for each honest answer, whatever else happens. */
  lemma {:induction false} ProgressOverRuns(w: World, states: seq<Node>, events: seq<Event>, i: nat, j: nat)
    requires Safe(w) && IsRun(w, states, events) && i <= j <= |events|
    requires Inv(w.history, states[i]) && Sensible(states[i].config)
    ensures |states[i].storage.txns| + HonestAnswers(w.history, states, events, i, j) <= |states[j].storage.txns|
    ensures Inv(w.history, states[j]) && states[j].config == states[i].config
    ensures states[j].waypoint == states[i].waypoint && states[j].role == states[i].role
    decreases j
  {
    hide Inv, Step, IsHonestAnswer, WriteAllowed;
    if i < j {
      ProgressOverRuns(w, states, events, i, j - 1);
      assert StepsTo(w, states[j - 1], events[j - 1], states[j]);
      EveryStepIsSafe(w, states[j - 1], events[j - 1]);
      ConfigIsFixed(states[j - 1], events[j - 1]);
      if IsHonestAnswer(w.history, states[j - 1], events[j - 1]) {
        HonestAnswersAdvance(w.history, states[j - 1], events[j - 1]);
      }
    }
  }

  /** A node that is not initialised has not stored its waypoint's version. */
  lemma {:induction false} UninitializedIsBelow(l: seq<Transaction>, n: Node)
    requires ValidHistory(l) && Inv(l, n) && !n.IsInitialized() && ClosesEpoch(n.waypoint)
    ensures |n.storage.txns| <= n.waypoint.version
  {
  }

  /**
   * Bootstrap completes: from any state, once as many honest answers have arrived as versions are
   * missing below the waypoint, the node is initialised, whatever else happened meanwhile.
   */
  lemma {:induction false} BootstrapCompletes(w: World, states: seq<Node>, events: seq<Event>, i: nat, j: nat)
    requires Safe(w) && IsRun(w, states, events) && i <= j <= |events|
    requires Inv(w.history, states[i]) && Sensible(states[i].config) && ClosesEpoch(states[i].waypoint)
    requires HonestAnswers(w.history, states, events, i, j) + |states[i].storage.txns| > states[i].waypoint.version
    ensures states[j].IsInitialized()
  {
    hide Inv, StepsTo;
    ProgressOverRuns(w, states, events, i, j);
    if !states[j].IsInitialized() {
      UninitializedIsBelow(w.history, states[j]);
    }
  }

  // ----- An outstanding sync request -----

  /** Events that neither replace nor time out an outstanding sync request. */
  predicate KeepsRequest(event: Event) {
    match event
    case SyncRequested(_) => false
    case ProgressChecked(timedOut, _) => !timedOut
    case PeerConnects(_, timedOut, _) => !timedOut
    case _ => true
  }

  predicate AllKeepRequest(events: seq<Event>, i: nat, j: nat)
    requires i <= j <= |events|
  {
    forall e | i <= e < j :: KeepsRequest(events[e])
  }

  predicate Awaits(n: Node, target: LedgerInfoWithSignatures) {
    n.syncRequest == Some(target)
  }

  /** The target is still ahead of storage. */
  predicate Behind(n: Node, target: LedgerInfoWithSignatures) {
    Awaits(n, target) && |n.storage.txns| <= target.ledgerInfo.version
  }

  /** Storage ends at the target, but the request has not been told. */
  predicate AtTarget(n: Node, target: LedgerInfoWithSignatures) {
    Awaits(n, target) && |n.storage.txns| == target.ledgerInfo.version + 1
  }

  /** Storage is past the target. */
  predicate Beyond(n: Node, target: LedgerInfoWithSignatures) {
    Awaits(n, target) && |n.storage.txns| > target.ledgerInfo.version + 1
  }

  /** The request was completed: reported as reached, with exactly the ledger up to the target in storage. */
  predicate Completed(l: seq<Transaction>, m: Node, target: LedgerInfoWithSignatures) {
    && m.syncRequest.None? && SyncReached(target) in m.callbacks
    && target.ledgerInfo.version < |l| && m.storage.txns == l[..target.ledgerInfo.version + 1]
  }

  /** A ledger info of the target's version is committed. */
  predicate CommittedAt(m: Node, target: LedgerInfoWithSignatures) {
    m.storage.latest.ledgerInfo.version == target.ledgerInfo.version
  }

  lemma {:induction false} FaithfulPrefix(l: seq<Transaction>, st: Storage)
    requires Faithful(l, st)
    ensures |st.txns| <= |l| && st.txns == l[..|st.txns|]
  {
  }

  /**
   * What one event does to an outstanding request: it goes on, or it is completed; storage that the
   * event writes does not pass the target, and when it gets there the request is completed and the
   * target's version committed.
   */
  predicate RequestGoesOn(l: seq<Transaction>, n: Node, m: Node, target: LedgerInfoWithSignatures) {
    && (Awaits(m, target) || Completed(l, m, target))
    && (m.storage == n.storage || |m.storage.txns| <= target.ledgerInfo.version + 1)
    && (m.storage != n.storage && |m.storage.txns| == target.ledgerInfo.version + 1 ==>
          Completed(l, m, target) && CommittedAt(m, target))
    && n.storage.txns <= m.storage.txns
  }

  lemma {:induction false} ResponseStep(w: World, n: Node, event: Event, target: LedgerInfoWithSignatures)
    requires Safe(w) && Inv(w.history, n) && Admissible(w, n, event) && event.ResponseArrives? && Awaits(n, target)
    ensures RequestGoesOn(w.history, n, Step(n, event), target)
  {
    hide ApplyChunk, OnCommit, GoodTarget, GenuineWaypoint, Readable, StateOf, Faithful;
    TrustedEpochIsNext(w.history, n.storage);
    if CheckResponse(n, event.peer, event.response).Ok? {
      ApplyIsSafe(w, n, event.response);
      var (applied, result) := ApplyChunk(n, event.response);
      ViewOfStorage(applied.storage);
      CommitStep(applied, event.now);
      CommitReports(applied, event.now);
      FaithfulPrefix(w.history, applied.storage);
    }
  }

  lemma {:induction false} OtherStep(w: World, n: Node, event: Event, target: LedgerInfoWithSignatures)
    requires Safe(w) && Inv(w.history, n) && Admissible(w, n, event) && !event.ResponseArrives?
    requires Awaits(n, target) && KeepsRequest(event)
    ensures RequestGoesOn(w.history, n, Step(n, event), target) && Step(n, event).storage == n.storage
    ensures event.CommitNotified? && AtTarget(n, target) ==> Completed(w.history, Step(n, event), target)
  {
    hide Answer, Faithful, GoodTarget, GenuineWaypoint, StateOf, Readable, CurrentTarget, OnCommit, CheckRequest,
      MustWait;
    TrustedEpochIsNext(w.history, n.storage);
    ViewOfStorage(n.storage);
    FaithfulPrefix(w.history, n.storage);
    if event.CommitNotified? {
      CommitStep(n, event.now);
      CommitReports(n, event.now);
    }
  }

  lemma {:induction false} RequestStep(w: World, n: Node, event: Event, m: Node, target: LedgerInfoWithSignatures)
    requires Safe(w) && Inv(w.history, n) && StepsTo(w, n, event, m) && Awaits(n, target) && KeepsRequest(event)
    ensures Inv(w.history, m) && RequestGoesOn(w.history, n, m, target)
    ensures event.CommitNotified? && AtTarget(n, target) ==> Completed(w.history, m, target)
  {
    hide Inv, Step, Admissible, RequestGoesOn, Completed, KeepsRequest;
    EveryStepIsSafe(w, n, event);
    if event.ResponseArrives? {
      ResponseStep(w, n, event, target);
    } else {
      OtherStep(w, n, event, target);
    }
  }

  /** Until it completes, a request whose target is ahead stays so; when it completes, the target is committed. */
  lemma {:induction false} BehindUntilCompleted(
    w: World, states: seq<Node>, events: seq<Event>, i: nat, j: nat, target: LedgerInfoWithSignatures)
    returns (k: nat)
    requires Safe(w) && IsRun(w, states, events) && i <= j <= |events| && AllKeepRequest(events, i, j)
    requires Inv(w.history, states[i]) && Behind(states[i], target)
    ensures i <= k <= j
    ensures || (Completed(w.history, states[k], target) && CommittedAt(states[k], target))
            || (k == j && Behind(states[j], target) && Inv(w.history, states[j]))
    decreases j
  {
    hide Inv, Step, Completed, Admissible, CommittedAt, KeepsRequest;
    if i == j {
      k := i;
    } else {
      k := BehindUntilCompleted(w, states, events, i, j - 1, target);
      if !(Completed(w.history, states[k], target) && CommittedAt(states[k], target)) {
        assert StepsTo(w, states[j - 1], events[j - 1], states[j]);
        RequestStep(w, states[j - 1], events[j - 1], states[j], target);
        NotReached(w.history, states[j - 1], states[j], target);
        k := j;
      }
    }
  }

  lemma {:induction false} NotReached(l: seq<Transaction>, n: Node, m: Node, target: LedgerInfoWithSignatures)
    requires RequestGoesOn(l, n, m, target) && Behind(n, target)
    ensures (Completed(l, m, target) && CommittedAt(m, target)) || Behind(m, target)
  {
  }

  /** A request whose target storage has reached waits for the next commit notice. */
  lemma {:induction false} AtTargetUntilCommit(
    w: World, states: seq<Node>, events: seq<Event>, i: nat, j: nat, target: LedgerInfoWithSignatures)
    returns (k: nat)
    requires Safe(w) && IsRun(w, states, events) && i <= j <= |events| && AllKeepRequest(events, i, j)
    requires Inv(w.history, states[i]) && AtTarget(states[i], target)
    ensures i <= k <= j
    ensures || Completed(w.history, states[k], target)
            || (&& k == j && AtTarget(states[j], target) && Inv(w.history, states[j])
                && forall e | i <= e < j :: !events[e].CommitNotified?)
    decreases j
  {
    hide Inv, Step, Completed, Admissible, KeepsRequest;
    if i == j {
      k := i;
    } else {
      k := AtTargetUntilCommit(w, states, events, i, j - 1, target);
      if !Completed(w.history, states[k], target) {
        assert StepsTo(w, states[j - 1], events[j - 1], states[j]);
        RequestStep(w, states[j - 1], events[j - 1], states[j], target);
        k := j;
      }
    }
  }

  /** A request whose target storage has passed stays outstanding for good, and nothing more is stored. */
  lemma {:induction false} BeyondForever(
    w: World, states: seq<Node>, events: seq<Event>, i: nat, j: nat, target: LedgerInfoWithSignatures)
    requires Safe(w) && IsRun(w, states, events) && i <= j <= |events| && AllKeepRequest(events, i, j)
    requires Inv(w.history, states[i]) && Beyond(states[i], target)
    ensures Beyond(states[j], target) && Inv(w.history, states[j])
    ensures states[j].storage == states[i].storage
    decreases j
  {
    hide Inv, Step, Admissible, KeepsRequest;
    if i < j {
      BeyondForever(w, states, events, i, j - 1, target);
      assert StepsTo(w, states[j - 1], events[j - 1], states[j]);
      RequestStep(w, states[j - 1], events[j - 1], states[j], target);
    }
  }

  /**
   * Sync to a target completes, unless storage is past the target: once as many honest answers have
   * arrived as versions are missing, or at the next commit notice if none is, the request has been
   * reported as reached with exactly the ledger up to the target in storage. If versions were missing,
   * the target's version is committed then.
   */
  lemma {:induction false} SyncCompletes(
    w: World, states: seq<Node>, events: seq<Event>, i: nat, j: nat, target: LedgerInfoWithSignatures)
    returns (k: nat)
    requires Safe(w) && IsRun(w, states, events) && i <= j <= |events| && AllKeepRequest(events, i, j)
    requires Inv(w.history, states[i]) && Sensible(states[i].config)
    requires Awaits(states[i], target) && !Beyond(states[i], target)
    requires HonestAnswers(w.history, states, events, i, j) + |states[i].storage.txns| > target.ledgerInfo.version
    requires AtTarget(states[i], target) ==> exists e | i <= e < j :: events[e].CommitNotified?
    ensures i <= k <= j && Completed(w.history, states[k], target)
    ensures Behind(states[i], target) ==> CommittedAt(states[k], target)
  {
    hide Inv, StepsTo, Completed;
    if Behind(states[i], target) {
      ProgressOverRuns(w, states, events, i, j);
      k := BehindUntilCompleted(w, states, events, i, j, target);
    } else {
      k := AtTargetUntilCommit(w, states, events, i, j, target);
    }
  }

  // ----- Runs that complete -----

  /** Every ledger info in storage carries signatures that exist. */
  ghost predicate UnforgedStorage(w: World, st: Storage) {
    Unforged(w, st.latest) && forall e | e in st.epochInfos :: Unforged(w, st.epochInfos[e])
  }

  lemma {:induction false} AnswersAreUnforged(
    w: World, server: Storage, known: nat, epoch: nat, target: Option<LedgerInfoWithSignatures>, limit: nat)
    requires ValidHistory(w.history) && Faithful(w.history, server) && UnforgedStorage(w, server)
    requires UnforgedOption(w, target) && Readable(server)
    requires AnswerTargetAndHighest(server, known, epoch, target, limit).Ok?
    ensures UnforgedResponse(w, AnswerTargetAndHighest(server, known, epoch, target, limit).value)
  {
    hide Unforged, EpochAt, GetTransactions, Faithful, StateOf;
    if epoch < server.latest.ledgerInfo.NextBlockEpoch() {
      EndingRead(w.history, server, epoch);
    }
  }

  lemma {:induction false} WaypointAnswersAreUnforged(
    w: World, server: Storage, request: GetChunkRequest, version: nat, limit: nat)
    requires ValidHistory(w.history) && Faithful(w.history, server) && UnforgedStorage(w, server)
    requires AnswerWaypoint(server, request, version, limit).Ok?
    ensures UnforgedResponse(w, AnswerWaypoint(server, request, version, limit).value)
  {
    hide Unforged, EpochAt, GetTransactions, Faithful, GetEpochEndingLedgerInfo;
    if request.currentEpoch < server.latest.ledgerInfo.NextBlockEpoch() {
      EndingRead(w.history, server, request.currentEpoch);
    }
  }

  lemma {:induction false} HonestAnswerIsUnforged(w: World, n: Node, server: Storage, config: Config)
    requires ValidHistory(w.history) && Faithful(w.history, server) && UnforgedStorage(w, server) && Readable(server)
    requires CurrentTarget(n).Ok? && UnforgedOption(w, RequestedLi(CurrentTarget(n).value))
    requires Answer(server, config, RequestFrom(n)).Ok?
    ensures UnforgedResponse(w, Answer(server, config, RequestFrom(n)).value)
  {
    hide AnswerTargetAndHighest, AnswerWaypoint, Unforged, UnforgedStorage, UnforgedResponse, CurrentTarget;
    var limit, request := Min(n.config.chunkLimit, config.maxChunkLimit), RequestFrom(n);
    if request.target.WaypointTarget? {
      WaypointAnswersAreUnforged(w, server, request, request.target.waypointVersion, limit);
    } else {
      AnswersAreUnforged(w, server, request.knownVersion, request.currentEpoch, RequestedLi(request.target), limit);
    }
  }

  lemma {:induction false} ResponseKeepsPeers(n: Node, event: Event)
    requires event.ResponseArrives?
    ensures Step(n, event).peers == n.peers
  {
    hide OnCommit, ApplyChunk, CheckResponse;
    if Readable(n.storage) {
      ApplyOnlyApplies(n, event.response);
      var applied := ApplyChunk(n, event.response).0;
      if Readable(applied.storage) {
        CommitStep(applied, event.now);
      }
    }
  }

  /** An honest responder that others can verify and whose ledger infos nobody made up. */
  ghost predicate HonestServer(w: World, server: Node) {
    Sensible(server.config) && Servable(w.history, server.storage) && UnforgedStorage(w, server.storage)
  }

  /** The node has sent the request of the moment, and no other request since. */
  predicate Asked(n: Node) {
    CurrentTarget(n).Ok? && n.requests != [] && n.requests[|n.requests| - 1] == RequestFrom(n)
  }

  /** The event delivers to `n` what `s` sends in answer to the request of the moment; then `s` has become `t`. */
  predicate Turn(n: Node, event: Event, s: Node, t: Node, me: Peer) {
    && CurrentTarget(n).Ok? && event.ResponseArrives?
    && t == Step(s, RequestArrives(me, RequestFrom(n), 0))
    && t.responses == s.responses + multiset{(me, event.response)}
  }

  /** One turn with an honest node, in any mode: a node that has not reached its goal has asked again. */
  lemma {:induction false} HonestExchange(w: World, n: Node, peer: Peer, server: Node, me: Peer)
    returns (event: Event, m: Node, after: Node)
    requires Safe(w) && Inv(w.history, n) && !n.IsConsensusExecuting() && peer in n.peers && Sensible(n.config)
    requires CurrentTarget(n).Ok? && Supplies(w.history, n, CurrentTarget(n).value, server.storage)
    requires HonestServer(w, server) && UnforgedOption(w, RequestedLi(CurrentTarget(n).value))
    requires !n.IsInitialized() ==> ClosesEpoch(n.waypoint)
    ensures StepsTo(w, n, event, m) && IsHonestAnswer(w.history, n, event) && KeepsRequest(event)
    ensures Inv(w.history, m) && m.config == n.config && m.peers == n.peers && m.waypoint == n.waypoint
    ensures |n.storage.txns| < |m.storage.txns|
    ensures Turn(n, event, server, after, me) && HonestServer(w, after) && after.storage == server.storage
    ensures !n.IsInitialized() || n.syncRequest.Some? ==> GoalReached(n, |m.storage.txns| - 1) || Asked(m)
  {
    hide Inv, Faithful, Answer, OnChunkResponse, OnChunkRequest, Unforged, UnforgedStorage, IsHonestAnswer,
      CurrentTarget, WriteAllowed, StateOf, Suits, CanServe, GoalReached;
    var l, target := w.history, CurrentTarget(n).value;
    var response := TwoNodesExchange(l, n, target, peer, server, me, 0, 0);
    after := Step(server, RequestArrives(me, RequestFrom(n), 0));
    event := ResponseArrives(peer, response, 0);
    m := Step(n, event);
    IsHonestAnswerIf(l, n, event, target, server, me);
    HonestAnswerIsUnforged(w, n, server.storage, server.config);
    EveryStepIsSafe(w, n, event);
    ConfigIsFixed(n, event);
    ResponseKeepsPeers(n, event);
    GrowthIsTaken(n, peer, response);
    PrefetchIsTheNextRequest(w, n, peer, response, 0);
  }

  lemma {:induction false} IsHonestAnswerIf(
    l: seq<Transaction>, n: Node, event: Event, target: TargetType, server: Node, me: Peer)
    requires event.ResponseArrives? && event.peer in n.peers && !n.IsConsensusExecuting()
    requires AnswersWith(l, n, target, event.response, server, me, 0)
    ensures IsHonestAnswer(l, n, event)
  {
  }

  /** A chunk that lengthens storage was not old. */
  lemma {:induction false} GrowthIsTaken(n: Node, peer: Peer, response: GetChunkResponse)
    requires Readable(n.storage) && OnChunkResponse(n, peer, response, 0).1 == Ok(())
    requires |n.storage.txns| < |Step(n, ResponseArrives(peer, response, 0)).storage.txns|
    ensures Takes(n, peer, response, 0)
  {
    hide OnCommit, CheckResponse, ApplyTargetAndHighest, ApplyWaypoint, IsOld, Readable;
    var applied := ApplyChunk(n, response).0;
    if Readable(applied.storage) {
      CommitStep(applied, 0);
    }
    match response.responseLi
    case VerifiableLedgerInfo(li) => OldIsNotStored(n, response.txns, li, None);
    case ProgressiveLedgerInfo(targetLi, highestLi) =>
      OldIsNotStored(n, response.txns, targetLi, Some(highestLi.GetOr(targetLi)));
    case _ =>
  }

  lemma {:induction false} OldIsNotStored(
    n: Node, txns: TransactionList, responseLi: LedgerInfoWithSignatures, highestLi: Option<LedgerInfoWithSignatures>)
    requires Readable(n.storage)
    ensures IsOld(n, responseLi) ==> ApplyTargetAndHighest(n, txns, responseLi, highestLi).0.storage == n.storage
  {
    hide VerifiedBy, Prefetch, NewTarget, NextVersionAndEpoch, Readable, StateOf, IsOld, ExecuteAndCommitChunk;
    var next := NextVersionAndEpoch(n, txns, Some(responseLi));
    if next.Ok? {
      PrefetchOnlyAsks(n, next.value.0, next.value.1);
      OldDependsOn(n, Prefetch(n, next.value.0, next.value.1), responseLi);
    }
  }

  lemma {:induction false} OldDependsOn(n: Node, m: Node, li: LedgerInfoWithSignatures)
    requires m.local == n.local
    ensures IsOld(m, li) == IsOld(n, li)
  {
  }

  /**
   * A conversation: every event is the answer of the other node to the request of the moment, and after
   * the first one that request had been sent ahead, when the chunk before it arrived.
   */
  predicate Converse(states: seq<Node>, events: seq<Event>, servers: seq<Node>, me: Peer) {
    && |states| == |servers| == |events| + 1
    && (forall k | 0 <= k < |events| :: Turn(states[k], events[k], servers[k], servers[k + 1], me))
    && (forall k | 0 < k < |events| :: Asked(states[k]))
  }

  lemma {:induction false} PrependTurn(
    n: Node, event: Event, server: Node, states: seq<Node>, events: seq<Event>, servers: seq<Node>, me: Peer)
    requires Converse(states, events, servers, me) && Turn(n, event, server, servers[0], me) && Asked(states[0])
    ensures Converse([n] + states, [event] + events, [server] + servers, me)
  {
    hide Turn, Asked;
    assert forall k | 0 < k < |events| + 1 :: Turn(states[k - 1], events[k - 1], servers[k - 1], servers[k], me);
    forall k | 0 < k < |events| + 1
      ensures Asked(([n] + states)[k])
    {
      assert ([n] + states)[k] == states[k - 1];
    }
  }

  lemma {:induction false} BehindAsks(l: seq<Transaction>, n: Node, target: LedgerInfoWithSignatures, server: Storage)
    requires ValidHistory(l) && Inv(l, n) && Behind(n, target)
    requires Servable(l, server) && Real(l, target) && target.ledgerInfo.version <= server.latest.ledgerInfo.version
    ensures n.IsInitialized() && !n.IsConsensusExecuting()
    ensures CurrentTarget(n).Ok? && Supplies(l, n, CurrentTarget(n).value, server)
    ensures RequestedLi(CurrentTarget(n).value) == Some(target)
  {
    TrustedEpochIsNext(l, n.storage);
  }

  /** A run from `n` to the completion of its request, without a timeout or another request. */
  ghost predicate CompletingRun(
    w: World, n: Node, states: seq<Node>, events: seq<Event>, target: LedgerInfoWithSignatures)
  {
    && IsRun(w, states, events) && states[0] == n && AllKeepRequest(events, 0, |events|)
    && Completed(w.history, states[|events|], target)
  }

  ghost predicate CanComplete(w: World, n: Node, target: LedgerInfoWithSignatures) {
    exists states, events :: CompletingRun(w, n, states, events, target)
  }

  /** One more event in front of a run. */
  lemma {:induction false} Prepend(w: World, n: Node, event: Event, states: seq<Node>, events: seq<Event>)
    requires IsRun(w, states, events) && StepsTo(w, n, event, states[0])
    ensures IsRun(w, [n] + states, [event] + events)
  {
    hide StepsTo;
    assert forall k | 0 < k < |events| + 1 :: StepsTo(w, states[k - 1], events[k - 1], states[k]);
  }

  /**
   * Such runs exist: when the target is ahead, a conversation with one honest node at or past it completes
   * the request in no more turns than versions are missing.
   */
  lemma {:induction false} SyncRunExists(
    w: World, n: Node, target: LedgerInfoWithSignatures, peer: Peer, server: Node, me: Peer)
    returns (states: seq<Node>, events: seq<Event>, servers: seq<Node>)
    requires Safe(w) && Inv(w.history, n) && Behind(n, target) && peer in n.peers && Sensible(n.config)
    requires HonestServer(w, server) && target.ledgerInfo.version <= server.storage.latest.ledgerInfo.version
    requires Real(w.history, target) && Unforged(w, target)
    ensures CompletingRun(w, n, states, events, target) && CommittedAt(states[|events|], target)
    ensures |events| + |n.storage.txns| <= target.ledgerInfo.version + 1
    ensures forall k | 0 <= k < |events| :: IsHonestAnswer(w.history, states[k], events[k])
    ensures Converse(states, events, servers, me) && servers[0] == server
    decreases target.ledgerInfo.version + 1 - |n.storage.txns|
  {
    hide Inv, Completed, IsHonestAnswer, KeepsRequest, Real, StepsTo, SafeAt, Supplies, CurrentTarget, CommittedAt,
      Turn, Asked, HonestServer;
    IsServable(w, server);
    BehindAsks(w.history, n, target, server.storage);
    var event, m, after := HonestExchange(w, n, peer, server, me);
    RequestStep(w, n, event, m, target);
    NotReached(w.history, n, m, target);
    if Behind(m, target) {
      var later, rest, others := SyncRunExists(w, m, target, peer, after, me);
      states, events, servers := [n] + later, [event] + rest, [server] + others;
      Prepend(w, n, event, later, rest);
      PrependTurn(n, event, server, later, rest, others, me);
    } else {
      CompletedLength(w.history, m, target);
      states, events, servers := [n, m], [event], [server, after];
    }
  }

  lemma {:induction false} IsServable(w: World, server: Node)
    requires HonestServer(w, server)
    ensures Servable(w.history, server.storage)
  {
  }

  lemma {:induction false} CompletedLength(l: seq<Transaction>, m: Node, target: LedgerInfoWithSignatures)
    requires Completed(l, m, target)
    ensures |m.storage.txns| == target.ledgerInfo.version + 1
  {
  }

  /** At the target, the next commit notice completes the request. */
  lemma {:induction false} CommitNoticeCompletes(w: World, n: Node, target: LedgerInfoWithSignatures)
    requires Safe(w) && Inv(w.history, n) && AtTarget(n, target)
    ensures CompletingRun(w, n, [n, Step(n, CommitNotified(0))], [CommitNotified(0)], target)
    ensures Step(n, CommitNotified(0)).storage == n.storage
  {
    hide Inv, Completed, Step;
    RequestStep(w, n, CommitNotified(0), Step(n, CommitNotified(0)), target);
    OtherStep(w, n, CommitNotified(0), target);
  }

  /** An outstanding request can complete exactly when storage is not past its target. */
  lemma {:induction false} CompletesIff(
    w: World, n: Node, target: LedgerInfoWithSignatures, peer: Peer, server: Node)
    requires Safe(w) && Inv(w.history, n) && Awaits(n, target) && peer in n.peers && Sensible(n.config)
    requires HonestServer(w, server) && target.ledgerInfo.version <= server.storage.latest.ledgerInfo.version
    requires Real(w.history, target) && Unforged(w, target)
    ensures CanComplete(w, n, target) <==> |n.storage.txns| <= target.ledgerInfo.version + 1
  {
    hide Inv, Step, Real, Unforged, HonestServer, CompletingRun;
    if Behind(n, target) {
      var states, events, servers := SyncRunExists(w, n, target, peer, server, 0);
    } else if AtTarget(n, target) {
      CommitNoticeCompletes(w, n, target);
    } else {
      BeyondNeverCompletes(w, n, target);
    }
  }

  lemma {:induction false} BeyondNeverCompletes(w: World, n: Node, target: LedgerInfoWithSignatures)
    requires Safe(w) && Inv(w.history, n) && Beyond(n, target)
    ensures !CanComplete(w, n, target)
  {
    hide Inv, StepsTo;
    forall states, events | CompletingRun(w, n, states, events, target)
      ensures false
    {
      BeyondForever(w, states, events, 0, |events|, target);
    }
  }

  /**
   * The requests that a validator accepts: those whose target is above the committed version of its last
   * view. Storage is only looked at afterwards, and a request that storage has reached or passed is
   * answered with an error but stays. Otherwise the first chunk is asked for at once.
   */
  lemma {:induction false} AcceptedRequest(w: World, n: Node, target: LedgerInfoWithSignatures)
    requires Safe(w) && Inv(w.history, n) && n.role == Validator && n.IsInitialized()
    requires n.local.CommittedVersion() < target.ledgerInfo.version
    ensures Readable(n.storage)
    ensures var (m, r) := OnSyncRequest(n, target);
            && m == Step(n, SyncRequested(target)) && Inv(w.history, m) && Awaits(m, target)
            && m.storage == n.storage && m.config == n.config && m.peers == n.peers
            && (r == Err(SyncedBeyondTarget) <==> target.ledgerInfo.version < |n.storage.txns|)
            && (target.ledgerInfo.version < |n.storage.txns| || n.peers == {} ==> m.requests == n.requests)
            && (|n.storage.txns| <= target.ledgerInfo.version && n.peers == {} ==> r == Err(NoAvailablePeers))
            && (|n.storage.txns| <= target.ledgerInfo.version && n.peers != {} ==>
                  && r == Ok(()) && Asked(m) && m.requests == n.requests + [RequestFrom(m)])
  {
    hide GoodTarget, GenuineWaypoint, Readable, StateOf, Faithful;
    TrustedEpochIsNext(w.history, n.storage);
    ViewOfStorage(n.storage);
  }

  /**
   * The requests that are not accepted: of a full node, before initialisation, and for the committed version or
   * below. The last two are reported at once as reached and as failed. Nothing is sent, stored or outstanding.
   */
  lemma {:induction false} UnacceptedRequest(n: Node, target: LedgerInfoWithSignatures)
    requires Readable(n.storage) && n.waypoint.version <= n.storage.latest.ledgerInfo.version
    requires n.role == FullNode || target.ledgerInfo.version <= n.local.CommittedVersion()
    ensures var (m, r) := OnSyncRequest(n, target);
            var committed := n.local.CommittedVersion();
            && m == n.(local := m.local, callbacks := m.callbacks)
            && (n.role == FullNode ==> m == n && r == Err(FullNodeSyncRequest))
            && (n.role == Validator && target.ledgerInfo.version == committed ==>
                  r == Ok(()) && m.callbacks == n.callbacks + [SyncReached(target)])
            && (n.role == Validator && target.ledgerInfo.version < committed ==>
                  r == Err(OldSyncRequestVersion) && m.callbacks == n.callbacks + [SyncFailed(target)])
  {
  }

  lemma {:induction false} UninitializedRequest(n: Node, target: LedgerInfoWithSignatures)
    requires Readable(n.storage) && n.storage.latest.ledgerInfo.version < n.waypoint.version && n.role == Validator
    ensures var (m, r) := OnSyncRequest(n, target); r == Err(Uninitialized) && m == n.(local := m.local)
  {
  }

  /** An accepted request can complete exactly when storage was not past its target on acceptance. */
  lemma {:induction false} AcceptedCompletesIff(
    w: World, n: Node, target: LedgerInfoWithSignatures, peer: Peer, server: Node)
    requires Safe(w) && Inv(w.history, n) && n.role == Validator && n.IsInitialized()
    requires n.local.CommittedVersion() < target.ledgerInfo.version
    requires peer in n.peers && Sensible(n.config)
    requires HonestServer(w, server) && target.ledgerInfo.version <= server.storage.latest.ledgerInfo.version
    requires Real(w.history, target) && Unforged(w, target)
    ensures Readable(n.storage)
    ensures CanComplete(w, OnSyncRequest(n, target).0, target) <==> |n.storage.txns| <= target.ledgerInfo.version + 1
  {
    hide Inv, OnSyncRequest, Real, Unforged, HonestServer, CanComplete;
    AcceptedRequest(w, n, target);
    CompletesIff(w, OnSyncRequest(n, target).0, target, peer, server);
  }

  /**
   * From the request of consensus to its completion without any timer: the accepted request asks for the first
   * chunk, every chunk that arrives has had the next one asked for, and an honest node at or past the target
   * answers each time, until the target is stored, committed and reported as reached.
   */
  lemma {:induction false} SyncByConversation(
    w: World, n: Node, target: LedgerInfoWithSignatures, peer: Peer, server: Node, me: Peer)
    returns (states: seq<Node>, events: seq<Event>, servers: seq<Node>)
    requires Safe(w) && Inv(w.history, n) && n.role == Validator && n.IsInitialized()
    requires n.local.CommittedVersion() < target.ledgerInfo.version && |n.storage.txns| <= target.ledgerInfo.version
    requires peer in n.peers && Sensible(n.config)
    requires HonestServer(w, server) && target.ledgerInfo.version <= server.storage.latest.ledgerInfo.version
    requires Real(w.history, target) && Unforged(w, target)
    ensures IsRun(w, [n] + states, [SyncRequested(target)] + events)
    ensures Converse(states, events, servers, me) && servers[0] == server
    ensures forall k | 0 <= k < |events| :: Asked(states[k])
    ensures Completed(w.history, states[|events|], target) && CommittedAt(states[|events|], target)
    ensures |events| + |n.storage.txns| <= target.ledgerInfo.version + 1
  {
    hide Inv, Step, OnSyncRequest, Real, Unforged, HonestServer, Completed, CommittedAt, Asked, Turn, IsHonestAnswer,
      KeepsRequest, SafeAt;
    AcceptedRequest(w, n, target);
    var m := Step(n, SyncRequested(target));
    states, events, servers := SyncRunExists(w, m, target, peer, server, me);
    Prepend(w, n, SyncRequested(target), states, events);
  }

  // ----- The end of a request -----

  /** A sync request was given up and reported as failed; consensus executes again. */
  predicate GivenUp(n: Node, m: Node, target: LedgerInfoWithSignatures) {
    m.syncRequest.None? && m.callbacks == n.callbacks + [SyncFailed(target)] && m.IsConsensusExecuting()
  }

  /** An event that reports an outstanding sync request as timed out. */
  predicate TimesOut(event: Event) {
    (event.ProgressChecked? || event.PeerConnects?) && event.syncRequestTimedOut
  }

  /**
   * The fate of a sync request in one event: it is given up exactly when it timed out, it is replaced only by
   * another request, and otherwise it goes on or is completed.
   */
  lemma {:induction false} RequestFate(w: World, n: Node, event: Event, m: Node, target: LedgerInfoWithSignatures)
    requires Safe(w) && Inv(w.history, n) && StepsTo(w, n, event, m) && Awaits(n, target)
    ensures match event
            case SyncRequested(other) => Awaits(m, target) || Awaits(m, other)
            case _ => if TimesOut(event) then GivenUp(n, m, target) else RequestGoesOn(w.history, n, m, target)
  {
    hide Inv, Step, Admissible, RequestGoesOn;
    if KeepsRequest(event) {
      RequestStep(w, n, event, m, target);
    } else {
      EndStep(w.history, n, event, target);
    }
  }

  lemma {:induction false} EndStep(l: seq<Transaction>, n: Node, event: Event, target: LedgerInfoWithSignatures)
    requires ValidHistory(l) && Inv(l, n) && Awaits(n, target) && !KeepsRequest(event)
    ensures match event
            case SyncRequested(other) => Awaits(Step(n, event), target) || Awaits(Step(n, event), other)
            case _ => TimesOut(event) && GivenUp(n, Step(n, event), target)
  {
    hide GoodTarget, GenuineWaypoint, Faithful, StateOf, Readable, CurrentTarget;
    TrustedEpochIsNext(l, n.storage);
  }

  // ----- Bootstrap -----

  /**
   * From every state that is not initialised, a conversation with one honest node at or past the waypoint
   * initialises the node in no more turns than versions are missing.
   */
  lemma {:induction false} BootstrapRunExists(w: World, n: Node, peer: Peer, server: Node, me: Peer)
    returns (states: seq<Node>, events: seq<Event>, servers: seq<Node>)
    requires Safe(w) && Inv(w.history, n) && !n.IsInitialized() && ClosesEpoch(n.waypoint)
    requires peer in n.peers && Sensible(n.config)
    requires HonestServer(w, server) && n.waypoint.version <= server.storage.latest.ledgerInfo.version
    ensures IsRun(w, states, events) && states[0] == n && states[|events|].IsInitialized()
    ensures |events| + |n.storage.txns| <= n.waypoint.version + 1
    ensures forall k | 0 <= k < |events| :: IsHonestAnswer(w.history, states[k], events[k])
    ensures Converse(states, events, servers, me) && servers[0] == server
    decreases n.waypoint.version + 1 - |n.storage.txns|
  {
    hide Inv, IsHonestAnswer, KeepsRequest, StepsTo, SafeAt, Unforged, HonestServer, Turn, Asked;
    UninitializedIsBelow(w.history, n);
    UninitializedAsks(w, n, server);
    var event, m, after := HonestExchange(w, n, peer, server, me);
    if m.IsInitialized() {
      states, events, servers := [n, m], [event], [server, after];
    } else {
      UninitializedIsBelow(w.history, m);
      var later, rest, others := BootstrapRunExists(w, m, peer, after, me);
      states, events, servers := [n] + later, [event] + rest, [server] + others;
      Prepend(w, n, event, later, rest);
      PrependTurn(n, event, server, later, rest, others, me);
    }
  }

  lemma {:induction false} UninitializedAsks(w: World, n: Node, server: Node)
    requires HonestServer(w, server) && n.waypoint.version <= server.storage.latest.ledgerInfo.version
    requires !n.IsInitialized()
    ensures CurrentTarget(n).Ok? && Supplies(w.history, n, CurrentTarget(n).value, server.storage)
    ensures RequestedLi(CurrentTarget(n).value) == None
  {
  }

  // ----- Waiting for initialisation -----

  /** Whoever waits for initialisation waits for something that has not happened. */
  predicate WaitsRightly(n: Node) {
    n.listening ==> !n.IsInitialized()
  }

  /** A listener is not lost: it goes on waiting or is told. */
  predicate KeepsListener(n: Node, m: Node) {
    && (n.listening ==> m.listening || Initialized in m.callbacks)
    && (Initialized in n.callbacks ==> Initialized in m.callbacks)
  }

  lemma {:induction false} CommitTells(n: Node, now: nat)
    requires Readable(n.storage)
    ensures var m := OnCommit(n, now).0;
            && WaitsRightly(m) && KeepsListener(n, m)
  {
    hide Deliveries, Readable, StateOf;
  }

  lemma {:induction false} ResponseTells(w: World, n: Node, event: Event)
    requires Safe(w) && Inv(w.history, n) && Admissible(w, n, event) && event.ResponseArrives? && WaitsRightly(n)
    ensures var m := Step(n, event); WaitsRightly(m) && KeepsListener(n, m)
  {
    hide ApplyChunk, OnCommit, GoodTarget, GenuineWaypoint, Readable, StateOf, Faithful;
    TrustedEpochIsNext(w.history, n.storage);
    if !n.IsConsensusExecuting() && CheckResponse(n, event.peer, event.response).Ok? {
      ApplyIsSafe(w, n, event.response);
      CommitTells(ApplyChunk(n, event.response).0, event.now);
    }
  }

  lemma {:induction false} SyncRequestTells(l: seq<Transaction>, n: Node, target: LedgerInfoWithSignatures)
    requires ValidHistory(l) && Inv(l, n) && WaitsRightly(n) && Readable(n.storage)
    ensures var m := OnSyncRequest(n, target).0; WaitsRightly(m) && KeepsListener(n, m)
  {
    hide GoodTarget, GenuineWaypoint, Faithful, StateOf, Readable;
    ViewOfStorage(n.storage);
  }

  lemma {:induction false} RequestTells(l: seq<Transaction>, n: Node, peer: Peer, request: GetChunkRequest, now: nat)
    requires ValidHistory(l) && Inv(l, n) && WaitsRightly(n) && Readable(n.storage)
    ensures var m := OnChunkRequest(n, peer, request, now).0; WaitsRightly(m) && KeepsListener(n, m)
  {
    hide GoodTarget, GenuineWaypoint, Faithful, StateOf, Readable, OnChunkRequest, Answer, IllFormed, MustWait,
      PendingFor;
    ViewOfStorage(n.storage);
    RequestOutcome(n, peer, request, now);
  }

  lemma {:induction false} TickTells(n: Node, peers: set<Peer>, syncRequestTimedOut: bool, requestTimedOut: bool)
    requires WaitsRightly(n)
    ensures var m := OnTick(n.(peers := peers), syncRequestTimedOut, requestTimedOut).0;
            WaitsRightly(m) && KeepsListener(n, m)
  {
    hide CurrentTarget;
  }

  lemma {:induction false} StepTells(w: World, n: Node, event: Event)
    requires Safe(w) && Inv(w.history, n) && Admissible(w, n, event) && WaitsRightly(n)
    ensures var m := Step(n, event);
            && WaitsRightly(m) && KeepsListener(n, m)
            && (event.InitializationAwaited? ==> m.listening || Initialized in m.callbacks)
  {
    hide GoodTarget, GenuineWaypoint, Faithful, StateOf, Readable, OnCommit, OnChunkResponse, OnChunkRequest, OnTick,
      OnSyncRequest;
    TrustedEpochIsNext(w.history, n.storage);
    ViewOfStorage(n.storage);
    match event
    case CommitNotified(now) => CommitTells(n, now);
    case ResponseArrives(_, _, _) => ResponseTells(w, n, event);
    case SyncRequested(target) => SyncRequestTells(w.history, n, target);
    case RequestArrives(peer, request, now) => RequestTells(w.history, n, peer, request, now);
    case ProgressChecked(timedOut, requestTimedOut) => TickTells(n, n.peers, timedOut, requestTimedOut);
    case PeerConnects(peer, timedOut, requestTimedOut) => TickTells(n, n.peers + {peer}, timedOut, requestTimedOut);
    case _ =>
  }

  /** Over every run, whoever waits for initialisation goes on waiting until it has happened, and is told then. */
  lemma {:induction false} ListenersAreTold(w: World, states: seq<Node>, events: seq<Event>, i: nat, j: nat)
    requires Safe(w) && IsRun(w, states, events) && i < j <= |events|
    requires Inv(w.history, states[i]) && WaitsRightly(states[i]) && events[i].InitializationAwaited?
    ensures Inv(w.history, states[j]) && WaitsRightly(states[j])
    ensures states[j].listening || Initialized in states[j].callbacks
    ensures states[j].IsInitialized() ==> Initialized in states[j].callbacks
    decreases j
  {
    hide Inv, Step, WriteAllowed, Admissible;
    if i + 1 < j {
      ListenersAreTold(w, states, events, i, j - 1);
    }
    assert StepsTo(w, states[j - 1], events[j - 1], states[j]);
    EveryStepIsSafe(w, states[j - 1], events[j - 1]);
    StepTells(w, states[j - 1], events[j - 1]);
  }
}
