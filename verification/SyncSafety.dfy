/** What every node keeps over every run of the protocol, whoever it talks to. */
module SyncSafety {
  import opened LedgerTypes
  import opened Validators
  import opened History
  import opened LedgerStorage
  import opened SyncProtocol
  import opened Responder
  import opened Requester

  // ----- The invariant -----

  predicate InSync(n: Node) {
    Readable(n.storage) && n.local == StateOf(n.storage)
  }

  /** A target ledger info that a full node may work towards. */
  predicate GoodTarget(l: seq<Transaction>, local: SyncState, li: LedgerInfoWithSignatures) {
    && Genuine(l, li.ledgerInfo)
    && local.syncedVersion < li.ledgerInfo.version
    && li.ledgerInfo.epoch == local.TrustedEpoch()
    && VerifiedBy(local.trusted, li)
  }

  /**
   * Storage mirrors the history; the node's view of it is current unless consensus is writing; a sync
   * request is only outstanding on an initialised validator; a full node's target is ahead of it, in
   * its epoch and verified by its validators.
   */
  predicate Inv(l: seq<Transaction>, n: Node) {
    && Faithful(l, n.storage)
    && GenuineWaypoint(l, n.waypoint)
    && n.local.CommittedVersion() <= n.storage.latest.ledgerInfo.version
    && (InSync(n) || n.IsConsensusExecuting())
    && (n.syncRequest.Some? ==> n.role == Validator && n.IsInitialized())
    && (n.role == FullNode && n.target.Some? ==> n.IsInitialized() && GoodTarget(l, n.local, n.target.value))
  }

  /** Everything but storage, the view of it, the target and the messages sent is as before. */
  predicate SameDuties(n: Node, m: Node) {
    && m.role == n.role && m.config == n.config && m.waypoint == n.waypoint && m.peers == n.peers
    && m.syncRequest == n.syncRequest && m.listening == n.listening
  }

  /** Nothing that was stored is lost. */
  predicate Extends(before: Storage, after: Storage) {
    before.txns <= after.txns && before.latest.ledgerInfo.version <= after.latest.ledgerInfo.version
  }

  // ----- One stored chunk -----

  lemma {:induction false} CommitExtends(l: seq<Transaction>, st: Storage, m: nat, li: Option<LedgerInfoWithSignatures>)
    requires Faithful(l, st) && |st.txns| <= m <= |l|
    requires li.Some? ==> li.value.ledgerInfo.version == m - 1
    ensures Extends(st, Commit(st, l[..m], li))
  {
  }

  /** Storing a chunk against a genuine target: storage stays faithful, grows and stops at the target. */
  lemma {:induction false} StoreKeepsFaithful(
    l: seq<Transaction>, n: Node, txns: TransactionList,
    target: LedgerInfoWithSignatures, endOfEpochLi: Option<LedgerInfoWithSignatures>)
    requires ValidHistory(l) && Faithful(l, n.storage) && Genuine(l, target.ledgerInfo)
    requires endOfEpochLi.Some? ==> Genuine(l, endOfEpochLi.value.ledgerInfo)
    requires ValidateAndStore(n, txns, target, endOfEpochLi).Ok?
    ensures var after := ValidateAndStore(n, txns, target, endOfEpochLi).value;
            && Faithful(l, after) && Readable(after) && Extends(n.storage, after)
            && (after == n.storage || |after.txns| <= target.ledgerInfo.version + 1)
            && (after != n.storage && |after.txns| == target.ledgerInfo.version + 1 ==> after.latest == target)
            && (!IsOld(n, target) && txns.firstVersion == Some(|n.storage.txns|) ==>
                  |after.txns| == |n.storage.txns| + |txns.transactions|)
            && (IsOld(n, target) ==> after == n.storage)
  {
    hide ListVerifies, FindChunkLi;
    TrustedEpochIsNext(l, n.storage);
    if !IsOld(n, target) {
      ExecuteKeepsFaithful(l, n.storage, txns, target, endOfEpochLi);
      var m, li := ExecuteCommitsPrefix(l, n.storage, txns, target, endOfEpochLi);
      CommitExtends(l, n.storage, m, li);
      TrustedEpochIsNext(l, Commit(n.storage, l[..m], li));
    }
  }

  /** A target of the trusted epoch that is still ahead of a longer storage is good for it too. */
  lemma {:induction false} TargetStaysGood(
    l: seq<Transaction>, before: Storage, after: Storage, li: LedgerInfoWithSignatures)
    requires ValidHistory(l) && Faithful(l, before) && Faithful(l, after) && |before.txns| <= |after.txns|
    requires Readable(before) && Readable(after)
    requires Genuine(l, li.ledgerInfo) && VerifiedBy(StateOf(before).trusted, li)
    requires StateOf(after).syncedVersion < li.ledgerInfo.version
    ensures GoodTarget(l, StateOf(after), li)
  {
    hide VerifySignatures;
    TrustedEpochIsNext(l, before);
    TrustedEpochIsNext(l, after);
    EpochMonotone(l, |before.txns|, |after.txns|);
    EpochMonotone(l, |after.txns|, li.ledgerInfo.version);
    EpochStateUnique(l, StateOf(before).trusted, StateOf(after).trusted);
  }

  ghost predicate UnforgedOption(w: World, li: Option<LedgerInfoWithSignatures>) {
    li.Some? ==> Unforged(w, li.value)
  }

  ghost predicate UnforgedResponse(w: World, response: GetChunkResponse) {
    match response.responseLi
    case VerifiableLedgerInfo(li) => Unforged(w, li)
    case ProgressiveLedgerInfo(targetLi, highestLi) => Unforged(w, targetLi) && UnforgedOption(w, highestLi)
    case LedgerInfoForWaypoint(_, endOfEpochLi) => UnforgedOption(w, endOfEpochLi)
  }

  // ----- Applying a chunk -----

  /** What applying a chunk may do to a node that is in sync. */
  predicate AppliedSafely(l: seq<Transaction>, n: Node, m: Node) {
    && SameDuties(n, m) && m.callbacks == n.callbacks
    && Faithful(l, m.storage) && Readable(m.storage)
    && Extends(n.storage, m.storage)
    && m.local.CommittedVersion() <= m.storage.latest.ledgerInfo.version
    && n.local.CommittedVersion() <= m.local.CommittedVersion()
  }

  lemma {:induction false} SendOnlyAsks(n: Node, version: nat, epoch: nat, target: TargetType)
    ensures var m := Send(n, version, epoch, target).0; m == n.(requests := m.requests)
  {
  }

  lemma {:induction false} PrefetchOnlyAsks(n: Node, version: nat, epoch: nat)
    ensures var m := Prefetch(n, version, epoch);
            m == n.(requests := m.requests) && n.requests <= m.requests
  {
  }

  lemma {:induction false} ProgressiveIsSafe(
    w: World, n: Node, txns: TransactionList,
    responseLi: LedgerInfoWithSignatures, highestLi: Option<LedgerInfoWithSignatures>)
    requires Safe(w) && Faithful(w.history, n.storage) && InSync(n)
    requires Unforged(w, responseLi) && UnforgedOption(w, highestLi)
    requires n.target.Some? && n.role == FullNode ==> GoodTarget(w.history, n.local, n.target.value)
    ensures var (m, r) := ApplyTargetAndHighest(n, txns, responseLi, highestLi);
            && AppliedSafely(w.history, n, m)
            && InSync(m)
            && (r.Err? ==> m == n.(requests := m.requests))
            && (m.storage != n.storage ==> r.Ok? && !IsOld(n, responseLi) && Genuine(w.history, responseLi.ledgerInfo))
            && (m.storage == n.storage || m.local.syncedVersion <= responseLi.ledgerInfo.version)
            && (m.storage != n.storage && m.local.syncedVersion == responseLi.ledgerInfo.version ==>
                  m.storage.latest == responseLi)
            && (n.role == FullNode && m.target.Some? ==> GoodTarget(w.history, m.local, m.target.value))
            && (n.target.Some? && m.target != n.target ==> n.target.value.ledgerInfo.version <= m.local.syncedVersion)
  {
    hide VerifySignatures, ValidateAndStore, Prefetch, NewTarget, Genuine, EpochAt, EpochStateOf, Faithful, GoodTarget,
      Unforged, NextVersionAndEpoch;
    var l := w.history;
    TrustedEpochIsNext(l, n.storage);
    if NextVersionAndEpoch(n, txns, Some(responseLi)).Ok? {
      var (version, epoch) := NextVersionAndEpoch(n, txns, Some(responseLi)).value;
      PrefetchOnlyAsks(n, version, epoch);
      var asked := Prefetch(n, version, epoch);
      if && VerifiedBy(n.local.trusted, responseLi)
         && (highestLi.Some? ==> highestLi.value == responseLi || VerifiedBy(n.local.trusted, highestLi.value))
         && ValidateAndStore(asked, txns, responseLi, None).Ok?
      {
        VerifiedIsGenuine(w, n.local.trusted, responseLi);
        StoreKeepsFaithful(l, asked, txns, responseLi, None);
        var after := ValidateAndStore(asked, txns, responseLi, None).value;
        KeptOrAdopted(w, asked, after, highestLi, responseLi);
      }
    }
  }

  /** The target a full node keeps or adopts after storing a chunk is a good one. */
  lemma {:induction false} KeptOrAdopted(
    w: World, n: Node, after: Storage,
    highestLi: Option<LedgerInfoWithSignatures>, responseLi: LedgerInfoWithSignatures)
    requires Safe(w) && Faithful(w.history, n.storage) && InSync(n)
    requires Faithful(w.history, after) && Readable(after) && |n.storage.txns| <= |after.txns|
    requires n.target.Some? && n.role == FullNode ==> GoodTarget(w.history, n.local, n.target.value)
    requires UnforgedOption(w, highestLi) && Genuine(w.history, responseLi.ledgerInfo)
    requires VerifiedBy(n.local.trusted, responseLi)
    requires highestLi.Some? ==> highestLi.value == responseLi || VerifiedBy(n.local.trusted, highestLi.value)
    ensures var stored := n.(storage := after, local := StateOf(after));
            var target := NewTarget(stored, highestLi);
            && (n.role == FullNode && target.Some? ==> GoodTarget(w.history, stored.local, target.value))
            && (n.target.Some? && target != n.target ==>
                  n.target.value.ledgerInfo.version <= stored.local.syncedVersion)
  {
    hide VerifySignatures;
    TrustedEpochIsNext(w.history, n.storage);
    var synced := StateOf(after).syncedVersion;
    if n.role == FullNode && n.target.Some? && synced < n.target.value.ledgerInfo.version {
      TargetStaysGood(w.history, n.storage, after, n.target.value);
    }
    if highestLi.Some? && VerifiedBy(n.local.trusted, highestLi.value) && synced < highestLi.value.ledgerInfo.version {
      VerifiedIsGenuine(w, n.local.trusted, highestLi.value);
      TargetStaysGood(w.history, n.storage, after, highestLi.value);
    }
  }

  lemma {:induction false} MatchedIsGenuine(l: seq<Transaction>, waypoint: Waypoint, li: LedgerInfo)
    requires GenuineWaypoint(l, waypoint) && WaypointMatches(waypoint, li)
    ensures Genuine(l, li) && li.version == waypoint.version
  {
  }

  lemma {:induction false} WaypointIsSafe(
    w: World, n: Node, txns: TransactionList,
    waypointLi: LedgerInfoWithSignatures, endOfEpochLi: Option<LedgerInfoWithSignatures>)
    requires Safe(w) && Faithful(w.history, n.storage) && InSync(n) && GenuineWaypoint(w.history, n.waypoint)
    requires UnforgedOption(w, endOfEpochLi)
    ensures var (m, r) := ApplyWaypoint(n, txns, waypointLi, endOfEpochLi);
            && AppliedSafely(w.history, n, m)
            && m.target == n.target && m.local == n.local
            && (r.Err? ==> m == n.(requests := m.requests))
            && (m.storage != n.storage ==> !IsOld(n, waypointLi) && waypointLi.ledgerInfo.version == n.waypoint.version)
            && (m.storage == n.storage || |m.storage.txns| <= waypointLi.ledgerInfo.version + 1)
  {
    hide VerifySignatures, ValidateAndStore, EpochAt, Genuine, GenuineWaypoint, WaypointMatches, Faithful, Unforged,
      NextVersionAndEpoch;
    TrustedEpochIsNext(w.history, n.storage);
    if NextVersionAndEpoch(n, txns, endOfEpochLi).Ok? {
      var (version, epoch) := NextVersionAndEpoch(n, txns, endOfEpochLi).value;
      var asked :=
        if version < n.waypoint.version then Send(n, version, epoch, WaypointTarget(n.waypoint.version)).0 else n;
      if EndOfEpochToCommit(n, version, endOfEpochLi).Ok? && WaypointMatches(n.waypoint, waypointLi.ledgerInfo) {
        MatchedIsGenuine(w.history, n.waypoint, waypointLi.ledgerInfo);
        var toCommit := EndOfEpochToCommit(n, version, endOfEpochLi).value;
        if endOfEpochLi.Some? {
          VerifiedIsGenuine(w, n.local.trusted, endOfEpochLi.value);
        }
        if ValidateAndStore(asked, txns, waypointLi, toCommit).Ok? {
          StoreKeepsFaithful(w.history, asked, txns, waypointLi, toCommit);
        }
      }
    }
  }

  lemma {:induction false} ApplyIsSafe(w: World, n: Node, response: GetChunkResponse)
    requires Safe(w) && Inv(w.history, n) && InSync(n) && UnforgedResponse(w, response)
    ensures var (m, r) := ApplyChunk(n, response);
            && AppliedSafely(w.history, n, m)
            && (InSync(m) || response.responseLi.LedgerInfoForWaypoint?)
            && (r.Err? ==> m == n.(requests := m.requests))
            && (m.storage == n.storage || |m.storage.txns| <= response.responseLi.Version() + 1)
            && (!response.responseLi.LedgerInfoForWaypoint? && m.storage != n.storage ==>
                  |m.storage.txns| == response.responseLi.Version() + 1 ==>
                    m.storage.latest == response.responseLi.Li())
            && (m.storage != n.storage && response.responseLi.LedgerInfoForWaypoint? ==>
                  response.responseLi.Version() == n.waypoint.version)
            && (!response.responseLi.LedgerInfoForWaypoint? && n.target.Some? && m.target != n.target ==>
                  n.target.value.ledgerInfo.version <= m.local.syncedVersion)
            && (response.responseLi.LedgerInfoForWaypoint? ==> m.target == n.target && m.local == n.local)
            && (!response.responseLi.LedgerInfoForWaypoint? && n.role == FullNode && m.target.Some? ==>
                  GoodTarget(w.history, m.local, m.target.value))
  {
    hide ApplyTargetAndHighest, ApplyWaypoint, Faithful, GoodTarget;
    match response.responseLi
    case VerifiableLedgerInfo(li) => ProgressiveIsSafe(w, n, response.txns, li, None);
    case ProgressiveLedgerInfo(targetLi, highestLi) =>
      ProgressiveIsSafe(w, n, response.txns, targetLi, Some(highestLi.GetOr(targetLi)));
    case LedgerInfoForWaypoint(waypointLi, endOfEpochLi) =>
      WaypointIsSafe(w, n, response.txns, waypointLi, endOfEpochLi);
  }

  // ----- The commit step -----

  /** What happens after a commit: the view is current, and only a reached sync request goes away. */
  lemma {:induction false} CommitStep(n: Node, now: nat)
    requires Readable(n.storage)
    ensures var (m, r) := OnCommit(n, now);
            && m.storage == n.storage && InSync(m) && m.target == n.target
            && m.role == n.role && m.config == n.config && m.waypoint == n.waypoint && m.peers == n.peers
            && m.requests == n.requests
            && m.syncRequest == (if n.syncRequest.Some?
                                    && StateOf(n.storage).syncedVersion == n.syncRequest.value.ledgerInfo.version
                                 then None else n.syncRequest)
            && (forall c | c in m.callbacks ::
                  || c in n.callbacks
                  || (c == Initialized && m.IsInitialized())
                  || (n.syncRequest.Some? && m.syncRequest.None? && c == SyncReached(n.syncRequest.value)))
  {
    hide Deliveries, Readable, StateOf;
  }

  // ----- Events -----

  datatype Event =
    | ConsensusWrites(written: Storage)
    | CommitNotified(now: nat)
    | SyncRequested(target: LedgerInfoWithSignatures)
    | RequestArrives(peer: Peer, request: GetChunkRequest, now: nat)
    | ResponseArrives(peer: Peer, response: GetChunkResponse, now: nat)
    | ProgressChecked(syncRequestTimedOut: bool, requestTimedOut: bool)
    | PeerConnects(peer: Peer, syncRequestTimedOut: bool, requestTimedOut: bool)
    | PeerLeaves(peer: Peer)
    | InitializationAwaited
    | StateRead

  /**
   * What the surroundings promise: consensus only writes genuine transactions, and only while it is
   * executing, and signatures cannot be made up. Peers promise nothing, nor do sync requests.
   */
  ghost predicate Admissible(w: World, n: Node, event: Event) {
    match event
    case ConsensusWrites(written) =>
      n.IsConsensusExecuting() && Faithful(w.history, written) && Extends(n.storage, written)
    case ResponseArrives(_, response, _) => UnforgedResponse(w, response)
    case _ => true
  }

  /** One event at a node; nothing happens at a node whose storage cannot be read. */
  function Step(n: Node, event: Event): Node {
    if !Readable(n.storage) then n
    else match event
    case ConsensusWrites(written) => n.(storage := written)
    case CommitNotified(now) => OnCommit(n, now).0
    case SyncRequested(target) => OnSyncRequest(n, target).0
    case RequestArrives(peer, request, now) => OnChunkRequest(n, peer, request, now).0
    case ResponseArrives(peer, response, now) => OnChunkResponse(n, peer, response, now).0
    case ProgressChecked(syncRequestTimedOut, requestTimedOut) => OnTick(n, syncRequestTimedOut, requestTimedOut).0
    case PeerConnects(peer, syncRequestTimedOut, requestTimedOut) =>
      OnTick(n.(peers := n.peers + {peer}), syncRequestTimedOut, requestTimedOut).0
    case PeerLeaves(peer) => n.(peers := n.peers - {peer})
    case InitializationAwaited => OnWaitForInitialization(n)
    case StateRead => n.Refreshed()
  }

  // ----- What one event keeps -----

  /** The callbacks tell the truth: what they report as reached is stored. */
  predicate ReportsTrue(n: Node) {
    forall c | c in n.callbacks :: Reported(n, c)
  }

  predicate Reported(n: Node, c: Callback) {
    match c
    case SyncReached(target) => target.ledgerInfo.version < |n.storage.txns|
    case SyncFailed(_) => true
    case Initialized => n.waypoint.version <= n.storage.latest.ledgerInfo.version
  }

  /** Who may write to storage, and how far. */
  predicate WriteAllowed(n: Node, event: Event, m: Node) {
    match event
    case ConsensusWrites(_) => n.IsConsensusExecuting()
    case ResponseArrives(_, response, _) =>
      var end := |m.storage.txns| - 1;
      if response.responseLi.LedgerInfoForWaypoint? then
        !n.IsInitialized() && n.syncRequest.None? && end <= n.waypoint.version
      else
        && n.IsInitialized()
        && (if n.role == FullNode then end <= response.responseLi.Version()
            else n.syncRequest.Some? && end <= n.syncRequest.value.ledgerInfo.version)
    case _ => false
  }

  /** What every event keeps and does not do. */
  predicate StepIsSafe(l: seq<Transaction>, n: Node, event: Event, m: Node) {
    && Inv(l, m)
    && Extends(n.storage, m.storage)
    && m.waypoint == n.waypoint && m.role == n.role
    && n.local.CommittedVersion() <= m.local.CommittedVersion()
    && (m.storage != n.storage ==> WriteAllowed(n, event, m))
    && (n.role == FullNode && n.target.Some? && m.target != n.target ==>
          n.target.value.ledgerInfo.version <= m.local.syncedVersion)
    && (forall c | c in m.callbacks :: c in n.callbacks || Reported(m, c))
  }

  /** An event that leaves storage and target alone and at most reads storage again. */
  predicate Quiet(n: Node, m: Node) {
    && m.storage == n.storage && m.waypoint == n.waypoint && m.role == n.role && m.target == n.target
    && (m.local == n.local || InSync(m))
    && (m.syncRequest.None? || m.syncRequest == n.syncRequest || (m.role == Validator && m.IsInitialized()))
    && (InSync(m) || m.syncRequest.None? || m.syncRequest == n.syncRequest)
    && (forall c | c in m.callbacks :: c in n.callbacks || Reported(m, c))
  }

  lemma {:induction false} ViewOfStorage(st: Storage)
    requires Readable(st)
    ensures StateOf(st).committed == st.latest && StateOf(st).syncedVersion == |st.txns| - 1
    ensures st.latest.ledgerInfo.version < |st.txns|
  {
  }

  lemma {:induction false} QuietIsSafe(w: World, n: Node, event: Event, m: Node)
    requires Safe(w) && Inv(w.history, n) && Quiet(n, m)
    ensures StepIsSafe(w.history, n, event, m)
  {
    hide GoodTarget, GenuineWaypoint, Readable, StateOf, Faithful, Reported, WriteAllowed;
    TrustedEpochIsNext(w.history, n.storage);
    ViewOfStorage(n.storage);
  }

  lemma {:induction false} CommitIsQuiet(w: World, n: Node, now: nat)
    requires Safe(w) && Inv(w.history, n)
    ensures Readable(n.storage)
    ensures Quiet(n, OnCommit(n, now).0)
  {
    hide OnCommit, GoodTarget, Faithful, GenuineWaypoint;
    TrustedEpochIsNext(w.history, n.storage);
    CommitStep(n, now);
  }

  lemma {:induction false} SyncRequestIsQuiet(w: World, n: Node, target: LedgerInfoWithSignatures)
    requires Safe(w) && Inv(w.history, n)
    ensures Readable(n.storage)
    ensures Quiet(n, OnSyncRequest(n, target).0)
  {
    hide GoodTarget, GenuineWaypoint, Readable, StateOf, Faithful, SyncRequestTarget, Send;
    TrustedEpochIsNext(w.history, n.storage);
    ViewOfStorage(n.storage);
    var m := n.Refreshed().(syncRequest := Some(target));
    var chunkTarget := SyncRequestTarget(m, m.local.syncedVersion);
    if chunkTarget.Ok? {
      SendOnlyAsks(m, m.local.syncedVersion, m.local.TrustedEpoch(), chunkTarget.value);
    }
  }

  lemma {:induction false} RequestIsQuiet(n: Node, peer: Peer, request: GetChunkRequest, now: nat)
    requires Readable(n.storage)
    ensures Quiet(n, OnChunkRequest(n, peer, request, now).0)
  {
    hide Answer, CheckRequest, MustWait, PendingFor, Readable, StateOf;
  }

  lemma {:induction false} TickIsQuiet(n: Node, peers: set<Peer>, syncRequestTimedOut: bool, requestTimedOut: bool)
    ensures Quiet(n, OnTick(n.(peers := peers), syncRequestTimedOut, requestTimedOut).0)
  {
    hide CurrentTarget, Readable, StateOf;
  }

  lemma {:induction false} ResponseIsSafe(w: World, n: Node, peer: Peer, response: GetChunkResponse, now: nat)
    requires Safe(w) && Inv(w.history, n) && UnforgedResponse(w, response)
    ensures Readable(n.storage)
    ensures StepIsSafe(w.history, n, ResponseArrives(peer, response, now), OnChunkResponse(n, peer, response, now).0)
  {
    hide ApplyChunk, OnCommit, GoodTarget, Faithful, GenuineWaypoint, Readable, StateOf;
    TrustedEpochIsNext(w.history, n.storage);
    if !n.IsConsensusExecuting() && CheckResponse(n, peer, response).Ok? {
      ApplyIsSafe(w, n, response);
      var (applied, result) := ApplyChunk(n, response);
      ViewOfStorage(applied.storage);
      CommitStep(applied, now);
    }
  }

  /** Every event keeps the invariant, whatever a peer sends. */
  lemma {:induction false} EveryStepIsSafe(w: World, n: Node, event: Event)
    requires Safe(w) && Inv(w.history, n) && Admissible(w, n, event)
    ensures Readable(n.storage)
    ensures StepIsSafe(w.history, n, event, Step(n, event))
  {
    TrustedEpochIsNext(w.history, n.storage);
    match event
    case ConsensusWrites(written) => WritesAreSafe(w, n, written);
    case ResponseArrives(peer, response, now) => ResponseIsSafe(w, n, peer, response, now);
    case _ => OtherStepsAreQuiet(w, n, event); QuietIsSafe(w, n, event, Step(n, event));
  }

  lemma {:induction false} WritesAreSafe(w: World, n: Node, written: Storage)
    requires Safe(w) && Inv(w.history, n) && Admissible(w, n, ConsensusWrites(written))
    ensures StepIsSafe(w.history, n, ConsensusWrites(written), n.(storage := written))
  {
    hide GoodTarget, GenuineWaypoint, Readable, StateOf, Faithful;
  }

  lemma {:induction false} OtherStepsAreQuiet(w: World, n: Node, event: Event)
    requires Safe(w) && Inv(w.history, n) && !event.ConsensusWrites? && !event.ResponseArrives?
    ensures Readable(n.storage)
    ensures Quiet(n, Step(n, event))
  {
    hide OnCommit, OnChunkResponse, OnSyncRequest, OnTick, OnChunkRequest, Readable, StateOf, Faithful;
    TrustedEpochIsNext(w.history, n.storage);
    ViewOfStorage(n.storage);
    match event
    case CommitNotified(now) => CommitIsQuiet(w, n, now);
    case SyncRequested(target) => SyncRequestIsQuiet(w, n, target);
    case RequestArrives(peer, request, now) => RequestIsQuiet(n, peer, request, now);
    case ProgressChecked(a, b) => TickIsQuiet(n, n.peers, a, b); assert n.(peers := n.peers) == n;
    case PeerConnects(peer, a, b) => TickIsQuiet(n, n.peers + {peer}, a, b);
    case _ =>
  }

  /** In whatever world: if the node was within the invariant and the event admissible, the event was safe. */
  ghost predicate SafelyHandled(n: Node, event: Event, m: Node) {
    forall w: World | Safe(w) && Inv(w.history, n) && Admissible(w, n, event) :: StepIsSafe(w.history, n, event, m)
  }

  lemma {:induction false} EventIsSafelyHandled(n: Node, event: Event)
    ensures SafelyHandled(n, event, Step(n, event))
  {
    hide Inv, Step, Admissible, StepIsSafe, Safe;
    forall w: World | Safe(w) && Inv(w.history, n) && Admissible(w, n, event)
      ensures StepIsSafe(w.history, n, event, Step(n, event))
    {
      EveryStepIsSafe(w, n, event);
    }
  }

  // ----- Whole runs -----

  ghost predicate StepsTo(w: World, n: Node, event: Event, m: Node) {
    Admissible(w, n, event) && m == Step(n, event)
  }

  ghost predicate IsRun(w: World, states: seq<Node>, events: seq<Event>) {
    && |states| == |events| + 1
    && forall i | 0 <= i < |events| :: StepsTo(w, states[i], events[i], states[i + 1])
  }

  /** The state a node starts in, from whatever genuine prefix its storage holds. */
  lemma {:induction false} StartIsSafe(l: seq<Transaction>, role: Role, config: Config, waypoint: Waypoint, st: Storage)
    requires ValidHistory(l) && Faithful(l, st) && GenuineWaypoint(l, waypoint)
    ensures Readable(st)
    ensures Inv(l, Node(role, config, waypoint, {}, st, StateOf(st), None, None, false, map[], [], multiset{}, []))
  {
    TrustedEpochIsNext(l, st);
  }

  /** Over every run the invariant holds, nothing stored is lost, and every report stays true. */
  lemma {:induction false} RunsAreSafe(w: World, states: seq<Node>, events: seq<Event>, i: nat, j: nat)
    requires Safe(w) && IsRun(w, states, events) && i <= j <= |events|
    requires Inv(w.history, states[i])
    ensures Inv(w.history, states[j])
    ensures ReportsTrue(states[i]) ==> ReportsTrue(states[j])
    ensures Extends(states[i].storage, states[j].storage)
    ensures states[j].waypoint == states[i].waypoint && states[j].role == states[i].role
    decreases j
  {
    hide Inv, Faithful, GoodTarget, Readable, StateOf, Step, WriteAllowed;
    if i < j {
      RunsAreSafe(w, states, events, i, j - 1);
      assert StepsTo(w, states[j - 1], events[j - 1], states[j]);
      EveryStepIsSafe(w, states[j - 1], events[j - 1]);
      if ReportsTrue(states[j - 1]) {
        ReportsStayTrue(states[j - 1], states[j]);
      }
    }
  }

  lemma {:induction false} ReportsStayTrue(n: Node, m: Node)
    requires ReportsTrue(n) && Extends(n.storage, m.storage) && m.waypoint == n.waypoint
    requires forall c | c in m.callbacks :: c in n.callbacks || Reported(m, c)
    ensures ReportsTrue(m)
  {
  }

  function Max(a: int, b: int): int {
    if a < b then b else a
  }

  /** While one sync request stays outstanding, storage never passes its target, unless it was past it already. */
  lemma {:induction false} NeverPassesTarget(
    w: World, states: seq<Node>, events: seq<Event>, i: nat, j: nat, target: LedgerInfoWithSignatures)
    requires Safe(w) && IsRun(w, states, events) && i <= j <= |events|
    requires Inv(w.history, states[i])
    requires forall k | i <= k <= j :: states[k].syncRequest == Some(target)
    ensures |states[j].storage.txns| - 1 <= Max(|states[i].storage.txns| - 1, target.ledgerInfo.version)
    ensures Inv(w.history, states[j])
    decreases j
  {
    hide Inv, Faithful, GoodTarget, Readable, StateOf, Step;
    if i < j {
      NeverPassesTarget(w, states, events, i, j - 1, target);
      assert StepsTo(w, states[j - 1], events[j - 1], states[j]);
      EveryStepIsSafe(w, states[j - 1], events[j - 1]);
      OutstandingMeansValidator(w.history, states[j - 1]);
    }
  }

  lemma {:induction false} OutstandingMeansValidator(l: seq<Transaction>, n: Node)
    requires Inv(l, n) && n.syncRequest.Some?
    ensures n.role == Validator && n.IsInitialized() && !n.IsConsensusExecuting()
  {
  }

  /**
   * Over every run a sync request is only outstanding on an initialised validator, and storage is only
   * written by those who may, as far as they may.
   */
  lemma {:induction false} WriteDiscipline(w: World, states: seq<Node>, events: seq<Event>, i: nat, j: nat)
    requires Safe(w) && IsRun(w, states, events) && i <= j < |events|
    requires Inv(w.history, states[i])
    ensures states[j].syncRequest.Some? ==>
              states[j].role == Validator && states[j].IsInitialized() && !states[j].IsConsensusExecuting()
    ensures states[j + 1].storage != states[j].storage ==> WriteAllowed(states[j], events[j], states[j + 1])
  {
    hide Inv, Step, WriteAllowed, Admissible;
    RunsAreSafe(w, states, events, i, j);
    assert StepsTo(w, states[j], events[j], states[j + 1]);
    EveryStepIsSafe(w, states[j], events[j]);
    if states[j].syncRequest.Some? {
      OutstandingMeansValidator(w.history, states[j]);
    }
  }

  /** Any two nodes, honest about nothing but their own steps, hold prefixes of one ledger. */
  lemma {:induction false} NodesNeverFork(
    w: World, a: seq<Node>, ea: seq<Event>, i: nat, b: seq<Node>, eb: seq<Event>, j: nat)
    requires Safe(w) && IsRun(w, a, ea) && IsRun(w, b, eb) && i <= |ea| && j <= |eb|
    requires Inv(w.history, a[0]) && Inv(w.history, b[0])
    ensures a[i].storage.txns <= b[j].storage.txns || b[j].storage.txns <= a[i].storage.txns
  {
    hide IsRun, ReportsTrue;
    RunsAreSafe(w, a, ea, 0, i);
    RunsAreSafe(w, b, eb, 0, j);
  }

  // ----- The event loop -----

  /** The node after the first `k` events. */
  function After(n: Node, events: seq<Event>, k: nat): Node
    requires k <= |events|
  {
    if k == 0 then n else Step(After(n, events, k - 1), events[k - 1])
  }

  /** In whatever world: if every event was admissible when it came, the invariant holds and nothing is lost. */
  ghost predicate AllSafelyHandled(n: Node, events: seq<Event>, k: nat)
    requires k <= |events|
  {
    forall w: World | Safe(w) && Inv(w.history, n) && AllAdmissible(w, n, events, k) ::
      && Inv(w.history, After(n, events, k))
      && (ReportsTrue(n) ==> ReportsTrue(After(n, events, k)))
      && Extends(n.storage, After(n, events, k).storage)
  }

  ghost predicate AllAdmissible(w: World, n: Node, events: seq<Event>, k: nat)
    requires k <= |events|
  {
    forall i | 0 <= i < k :: Admissible(w, After(n, events, i), events[i])
  }

  lemma {:induction false} EventsAreSafelyHandled(n: Node, events: seq<Event>, k: nat)
    requires k <= |events|
    ensures AllSafelyHandled(n, events, k)
  {
    hide Inv, Step, Admissible, Safe, ReportsTrue, Extends, After;
    forall w: World | Safe(w) && Inv(w.history, n) && AllAdmissible(w, n, events, k)
      ensures Inv(w.history, After(n, events, k)) && Extends(n.storage, After(n, events, k).storage)
      ensures ReportsTrue(n) ==> ReportsTrue(After(n, events, k))
    {
      var states := seq(k + 1, i requires 0 <= i <= k => After(n, events, i));
      assert IsRun(w, states, events[..k]) by { AfterIsRun(w, n, events, k, states); }
      assert states[0] == n by { AfterNothing(n, events); }
      RunsAreSafe(w, states, events[..k], 0, k);
    }
  }

  lemma {:induction false} AfterNothing(n: Node, events: seq<Event>)
    ensures After(n, events, 0) == n
  {
  }

  lemma {:induction false} AfterIsRun(w: World, n: Node, events: seq<Event>, k: nat, states: seq<Node>)
    requires k <= |events| && |states| == k + 1 && AllAdmissible(w, n, events, k)
    requires forall i | 0 <= i <= k :: states[i] == After(n, events, i)
    ensures IsRun(w, states, events[..k])
  {
    hide Step, Admissible;
    forall i | 0 <= i < k
      ensures StepsTo(w, states[i], events[..k][i], states[i + 1])
    {
      assert Admissible(w, After(n, events, i), events[i]);
    }
  }

  // ----- What a node takes, and what it refuses -----

  /** The ledger infos of a response fit the mode of the node, and are in order. */
  predicate Fits(n: Node, responseLi: ResponseLedgerInfo) {
    if responseLi.LedgerInfoForWaypoint? then
      && !n.IsInitialized() && n.syncRequest.None?
      && (responseLi.endOfEpochLi.Some? ==>
            responseLi.endOfEpochLi.value.ledgerInfo.version <= responseLi.Version())
    else
      && n.IsInitialized()
      && (n.syncRequest.Some? ==> responseLi.Version() <= n.syncRequest.value.ledgerInfo.version)
      && (responseLi.ProgressiveLedgerInfo? && responseLi.highestLi.Some? ==>
            responseLi.Version() <= responseLi.highestLi.value.ledgerInfo.version)
  }

  /** The error of a response whose ledger infos do not fit. */
  function Misfit(n: Node, responseLi: ResponseLedgerInfo): SyncError {
    if responseLi.LedgerInfoForWaypoint? then
      if n.IsInitialized() || n.syncRequest.Some? then ReceivedWrongChunkType else ProcessInvalidChunk
    else if !n.IsInitialized() then ReceivedWrongChunkType
    else ProcessInvalidChunk
  }

  /**
   * A response is looked at exactly when it comes from a known peer, continues storage, and fits the mode of
   * the node; otherwise the error tells which of these fails first.
   */
  lemma {:induction false} CheckedIff(n: Node, peer: Peer, response: GetChunkResponse)
    ensures CheckResponse(n, peer, response)
            == if peer !in n.peers then Err(ReceivedChunkFromDownstream)
               else if response.txns.firstVersion == None then Err(ReceivedEmptyChunk)
               else if n.local.syncedVersion >= U64_MAX then Err(IntegerOverflow)
               else if response.txns.firstVersion != Some(n.local.syncedVersion + 1) then
                 Err(ReceivedNonSequentialChunk)
               else if Fits(n, response.responseLi) then Ok(())
               else Err(Misfit(n, response.responseLi))
  {
  }

  /** A chunk that is refused leaves everything as it was, except for a request that was sent ahead. */
  lemma {:induction false} RefusedChunks(n: Node, peer: Peer, response: GetChunkResponse, now: nat)
    requires Readable(n.storage)
    ensures var check, (m, r) := CheckResponse(n, peer, response), OnChunkResponse(n, peer, response, now);
            && (n.IsConsensusExecuting() ==> m == n && r == Err(ConsensusIsExecuting))
            && (!n.IsConsensusExecuting() && check.Err? ==> m == n && r == check)
            && (!n.IsConsensusExecuting() && check.Ok? && ApplyChunk(n, response).1.Err? ==>
                  r == Err(ProcessInvalidChunk) && m == ApplyChunk(n, response).0)
  {
    hide CheckResponse, ApplyChunk, OnCommit, Readable;
  }

  /** What is taken was verified: by the validators that the node trusts, or by its waypoint. */
  lemma {:induction false} OnlyVerifiedIsTaken(n: Node, response: GetChunkResponse)
    requires Readable(n.storage) && ApplyChunk(n, response).1.Ok?
    ensures match response.responseLi
            case VerifiableLedgerInfo(li) => VerifiedBy(n.local.trusted, li)
            case ProgressiveLedgerInfo(targetLi, highestLi) =>
              && VerifiedBy(n.local.trusted, targetLi)
              && (highestLi.Some? ==> VerifiedBy(n.local.trusted, highestLi.value))
            case LedgerInfoForWaypoint(waypointLi, endOfEpochLi) =>
              && WaypointMatches(n.waypoint, waypointLi.ledgerInfo)
              && (endOfEpochLi.Some? ==>
                    VerifiedBy(n.local.trusted, endOfEpochLi.value) && endOfEpochLi.value.ledgerInfo.EndsEpoch())
  {
    hide VerifiedBy, WaypointMatches, ValidateAndStore, Prefetch, NewTarget, Readable, StateOf, NextVersionAndEpoch,
      Send;
  }

  /** A ledger info that is not above the committed one, by epoch and then version, makes nothing be stored. */
  lemma {:induction false} OldIsSkipped(
    n: Node, txns: TransactionList, target: LedgerInfoWithSignatures, endOfEpochLi: Option<LedgerInfoWithSignatures>)
    requires n.storage.txns != []
    requires var mine, theirs := n.local.committed.ledgerInfo, target.ledgerInfo;
             theirs.epoch < mine.epoch || (theirs.epoch == mine.epoch && theirs.version <= mine.version)
    ensures ValidateAndStore(n, txns, target, endOfEpochLi) == Ok(n.storage)
  {
  }

  // ----- The known peers -----

  /** Only connecting and leaving change the known peers. */
  lemma {:induction false} PeersAre(n: Node, event: Event, peer: Peer)
    requires Readable(n.storage)
    ensures peer in Step(n, event).peers
       <==> || (event.PeerConnects? && event.peer == peer)
            || (peer in n.peers && event != PeerLeaves(peer))
  {
    hide Answer, CheckResponse, ValidateAndStore, SubscriptionsChecked, CurrentTarget, VerifiedBy, EndOfEpochToCommit,
      NextVersionAndEpoch, SyncRequestTarget, Readable, StateOf, OnCommit, ApplyChunk;
    if event.CommitNotified? {
      CommitStep(n, event.now);
    } else if event.ResponseArrives? {
      ApplyKeepsPeers(n, event.response);
      if Readable(ApplyChunk(n, event.response).0.storage) {
        CommitStep(ApplyChunk(n, event.response).0, event.now);
      }
    }
  }

  lemma {:induction false} ApplyKeepsPeers(n: Node, response: GetChunkResponse)
    requires Readable(n.storage)
    ensures ApplyChunk(n, response).0.peers == n.peers
  {
    hide ValidateAndStore, VerifiedBy, EndOfEpochToCommit, NextVersionAndEpoch, Readable, StateOf, NewTarget,
      WaypointMatches, SyncRequestTarget;
  }

  /** Reading the state makes the view current and changes nothing else. */
  lemma {:induction false} ReadIsCurrent(n: Node)
    requires Readable(n.storage)
    ensures InSync(Step(n, StateRead)) && Step(n, StateRead) == n.(local := StateOf(n.storage))
  {
  }
}
