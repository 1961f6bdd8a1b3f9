/**
 * Synchronisation makes progress. Every request a node builds is valid, an honest responder that has
 * what it asks for answers it, the answer passes every check, and the node ends strictly further.
 */
module SyncLiveness {
  import opened LedgerTypes
  import opened History
  import opened LedgerStorage
  import opened SyncProtocol
  import opened Responder
  import opened Requester
  import opened SyncSafety
  import opened HonestServing

  // ----- Executing what an honest responder sends -----

  /** The next `n` transactions of the history, with a proof relative to version `v`. */
  function GenuineList(l: seq<Transaction>, start: nat, n: nat, v: nat): TransactionList
    requires start + n <= v + 1 <= |l|
  {
    TransactionList(Some(start), l[start..start + n], l[..v + 1])
  }

  lemma {:induction false} GenuineListVerifies(l: seq<Transaction>, st: Storage, n: nat, target: LedgerInfo)
    requires Faithful(l, st) && Genuine(l, target) && n > 0 && |st.txns| + n <= target.version + 1
    ensures var list := GenuineList(l, |st.txns|, n, target.version);
            VerifyChunk(st, list, target) == Ok(l[|st.txns|..|st.txns| + n])
  {
  }

  /**
   * A genuine list that reaches no further than the end of its epoch is executed, and committed with
   * the target, the epoch change or nothing, as its end requires.
   */
  lemma {:induction false} GenuineListExecutes(
    l: seq<Transaction>, st: Storage, n: nat,
    target: LedgerInfoWithSignatures, epochChange: Option<LedgerInfoWithSignatures>)
    requires Faithful(l, st) && Genuine(l, target.ledgerInfo) && n > 0 && |st.txns| + n <= target.ledgerInfo.version + 1
    requires forall v | |st.txns| <= v < |st.txns| + n - 1 :: l[v].reconfig.None?
    requires epochChange.Some? ==>
               && Genuine(l, epochChange.value.ledgerInfo) && epochChange.value.ledgerInfo.EndsEpoch()
               && epochChange.value.ledgerInfo.version == |st.txns| + n - 1
    requires epochChange.None? && |st.txns| + n <= target.ledgerInfo.version ==> l[|st.txns| + n - 1].reconfig.None?
    ensures var list := GenuineList(l, |st.txns|, n, target.ledgerInfo.version);
            var li := if |st.txns| + n == target.ledgerInfo.version + 1 then Some(target) else epochChange;
            ExecuteAndCommitChunk(st, list, target, epochChange) == Ok(Commit(st, l[..|st.txns| + n], li))
  {
    var end := |st.txns| + n;
    var toApply := l[|st.txns|..end];
    GenuineListVerifies(l, st, n, target.ledgerInfo);
    assert st.txns + toApply == l[..end];
    assert toApply[n - 1] == l[end - 1];
    assert ReconfiguresLast(toApply) by {
      forall i | 0 <= i < |toApply| - 1
        ensures toApply[i].reconfig.None?
      {
        assert toApply[i] == l[|st.txns| + i];
      }
    }
  }

  // ----- Progressive exchanges -----

  /** A ledger info that anyone with the right validators accepts. */
  predicate Real(l: seq<Transaction>, lis: LedgerInfoWithSignatures) {
    Genuine(l, lis.ledgerInfo) && Certified(l, lis)
  }

  lemma {:induction false} RealVerifies(l: seq<Transaction>, st: Storage, lis: LedgerInfoWithSignatures)
    requires ValidHistory(l) && Faithful(l, st) && Real(l, lis) && Readable(st)
    requires lis.ledgerInfo.epoch == StateOf(st).TrustedEpoch()
    ensures VerifiedBy(StateOf(st).trusted, lis)
  {
    TrustedEpochIsNext(l, st);
    EpochStateOfIs(l, StateOf(st).trusted);
  }

  /**
   * What an honest responder picks for a requester whose storage is `mine`: a real ledger info of the
   * requester's epoch, ahead of it, not past the target, and stored.
   */
  predicate GoodAnswer(
    l: seq<Transaction>, mine: Storage, server: Storage,
    target: Option<LedgerInfoWithSignatures>, li: LedgerInfoWithSignatures)
    requires Readable(mine)
  {
    && Real(l, li)
    && li.ledgerInfo.epoch == StateOf(mine).TrustedEpoch()
    && |mine.txns| <= li.ledgerInfo.version <= server.latest.ledgerInfo.version
    && (target.Some? ==> li.ledgerInfo.version <= target.value.ledgerInfo.version)
    && (target.Some? && li.ledgerInfo.version == target.value.ledgerInfo.version ==> li == target.value)
  }

  /** The responder has what the request needs. */
  predicate CanServe(l: seq<Transaction>, mine: Storage, server: Storage, target: Option<LedgerInfoWithSignatures>) {
    && Servable(l, server)
    && |mine.txns| <= server.latest.ledgerInfo.version
    && (target.Some? ==>
          && Real(l, target.value)
          && |mine.txns| <= target.value.ledgerInfo.version <= server.latest.ledgerInfo.version)
  }

  lemma {:induction false} StoredEndingIsReal(l: seq<Transaction>, st: Storage, e: nat)
    requires ValidHistory(l) && Servable(l, st) && e < st.latest.ledgerInfo.NextBlockEpoch()
    ensures EndsStoredEpoch(st, e) && Real(l, Ending(st, e))
  {
    assert HoldsEnding(l, st, e) && HoldsCertified(l, st, e);
  }

  lemma {:induction false} ChosenIsGood(
    l: seq<Transaction>, mine: Storage, server: Storage, target: Option<LedgerInfoWithSignatures>)
    requires ValidHistory(l) && Faithful(l, mine) && CanServe(l, mine, server, target)
    ensures Readable(mine)
    ensures var r := ChooseResponseLi(server, StateOf(mine).TrustedEpoch(), target);
            r.Ok? && GoodAnswer(l, mine, server, target, r.value)
  {
    hide EpochAt, Readable, StateOf, Certified, GetEpochChangeLedgerInfo, Faithful;
    TrustedEpochIsNext(l, mine);
    var epoch := StateOf(mine).TrustedEpoch();
    var base := target.GetOr(server.latest).ledgerInfo;
    var latest := server.latest.ledgerInfo;
    FaithfulLatest(l, server);
    EpochMonotone(l, |mine.txns|, base.version);
    GenuineOrder(l, ContentOf(base), ContentOf(latest));
    GenuineOrder(l, ContentOf(latest), ContentOf(latest));
    if base.epoch > epoch {
      EpochAtMostVersion(l, base.version);
      EndingRead(l, server, epoch);
      StoredEndingIsReal(l, server, epoch);
      var li := Ending(server, epoch).ledgerInfo;
      EndsNotBefore(l, li, |mine.txns|);
      GenuineOrder(l, ContentOf(base), ContentOf(li));
    }
  }

  lemma {:induction false} FaithfulLatest(l: seq<Transaction>, st: Storage)
    requires Faithful(l, st)
    ensures Genuine(l, st.latest.ledgerInfo) && st.latest.ledgerInfo.version < |st.txns| <= |l|
  {
  }

  predicate Sensible(config: Config) {
    0 < config.chunkLimit && 0 < config.longPollTimeoutMs && 0 < config.maxChunkLimit <= MAX_LIMIT
  }

  /** The answer to a request for `target` from a requester whose storage is `mine`. */
  lemma {:induction false} HonestAnswer(
    l: seq<Transaction>, mine: Storage, server: Storage, target: Option<LedgerInfoWithSignatures>, limit: nat)
    returns (n: nat, li: LedgerInfoWithSignatures, highest: Option<LedgerInfoWithSignatures>)
    requires ValidHistory(l) && Faithful(l, mine) && CanServe(l, mine, server, target) && 0 < limit <= MAX_LIMIT
    ensures Readable(mine) && Readable(server)
    ensures n > 0 && |mine.txns| + n <= li.ledgerInfo.version + 1 <= |l|
    ensures AnswerTargetAndHighest(server, |mine.txns| - 1, StateOf(mine).TrustedEpoch(), target, limit)
         == Ok(GetChunkResponse(ProgressiveLedgerInfo(li, highest),
                                GenuineList(l, |mine.txns|, n, li.ledgerInfo.version)))
    ensures GoodAnswer(l, mine, server, target, li)
    ensures highest.Some? ==> Real(l, highest.value) && highest.value.ledgerInfo.epoch == li.ledgerInfo.epoch
                              && highest.value.ledgerInfo.version > li.ledgerInfo.version
  {
    hide EpochAt, Readable, StateOf, Certified, ChooseResponseLi, GetTransactions, Faithful, Genuine,
      CalculateTargetAndHighest, AnswerTargetAndHighest;
    TrustedEpochIsNext(l, mine);
    TrustedEpochIsNext(l, server);
    FaithfulLatest(l, server);
    FaithfulLatest(l, mine);
    var epoch := StateOf(mine).TrustedEpoch();
    ChosenIsGood(l, mine, server, target);
    li := ChooseResponseLi(server, epoch, target).value;
    highest := HighestFor(server, epoch, target);
    HighestFits(l, server, epoch, target);
    n := DeliveredList(l, server, |mine.txns|, limit, li.ledgerInfo.version);
    AnswerIs(server, |mine.txns| - 1, epoch, target, limit);
  }

  lemma {:induction false} HighestFor(st: Storage, epoch: nat, target: Option<LedgerInfoWithSignatures>)
    returns (highest: Option<LedgerInfoWithSignatures>)
    requires Readable(st) && ChooseResponseLi(st, epoch, target).Ok?
    ensures CalculateTargetAndHighest(st, epoch, target) == Ok((ChooseResponseLi(st, epoch, target).value, highest))
  {
    hide ChooseResponseLi;
    highest := CalculateTargetAndHighest(st, epoch, target).value.1;
  }

  lemma {:induction false} AnswerIs(
    st: Storage, known: nat, epoch: nat, target: Option<LedgerInfoWithSignatures>, limit: nat)
    requires Readable(st) && CalculateTargetAndHighest(st, epoch, target).Ok? && known < U64_MAX
    requires var li := CalculateTargetAndHighest(st, epoch, target).value.0;
             GetTransactions(st, known + 1, limit, li.ledgerInfo.version).Ok?
    ensures var (li, highest) := CalculateTargetAndHighest(st, epoch, target).value;
            var list := GetTransactions(st, known + 1, limit, li.ledgerInfo.version).value;
            AnswerTargetAndHighest(st, known, epoch, target, limit)
            == Ok(GetChunkResponse(ProgressiveLedgerInfo(li, highest), list))
  {
    hide CalculateTargetAndHighest, GetTransactions;
  }

  /** Nothing below the end of the current epoch reconfigures. */
  lemma {:induction false} EpochHasOneEnd(l: seq<Transaction>, start: nat, li: LedgerInfo)
    requires ValidHistory(l) && Genuine(l, li) && start <= li.version && EpochAt(l, start) == li.epoch
    ensures forall v | start <= v < li.version :: l[v].reconfig.None?
  {
    forall v | start <= v < li.version
      ensures l[v].reconfig.None?
    {
      EpochMonotone(l, start, v);
      EpochMonotone(l, v, li.version);
    }
  }

  lemma {:induction false} AheadIsNew(l: seq<Transaction>, n: Node, li: LedgerInfoWithSignatures)
    requires ValidHistory(l) && Faithful(l, n.storage) && InSync(n)
    requires Genuine(l, li.ledgerInfo) && |n.storage.txns| <= li.ledgerInfo.version
    ensures !IsOld(n, li)
  {
    GenuineOrder(l, ContentOf(n.storage.latest.ledgerInfo), ContentOf(li.ledgerInfo));
  }

  /** A requester stores what an honest responder sends it. */
  lemma {:induction false} ProgressiveStored(
    l: seq<Transaction>, n: Node, k: nat, li: LedgerInfoWithSignatures)
    requires ValidHistory(l) && Faithful(l, n.storage) && InSync(n)
    requires Genuine(l, li.ledgerInfo) && li.ledgerInfo.epoch == n.local.TrustedEpoch()
    requires k > 0 && |n.storage.txns| + k <= li.ledgerInfo.version + 1 <= |l|
    ensures var list := GenuineList(l, |n.storage.txns|, k, li.ledgerInfo.version);
            var commit := if |n.storage.txns| + k == li.ledgerInfo.version + 1 then Some(li) else None;
            var after := Commit(n.storage, l[..|n.storage.txns| + k], commit);
            && ValidateAndStore(n, list, li, None) == Ok(after)
            && Faithful(l, after) && Readable(after)
  {
    hide EpochAt, Readable, StateOf, ExecuteAndCommitChunk, IsOld, Commit;
    TrustedEpochIsNext(l, n.storage);
    EpochHasOneEnd(l, |n.storage.txns|, li.ledgerInfo);
    AheadIsNew(l, n, li);
    GenuineListExecutes(l, n.storage, k, li, None);
    ExecuteKeepsFaithful(l, n.storage, GenuineList(l, |n.storage.txns|, k, li.ledgerInfo.version), li, None);
    TrustedEpochIsNext(l, ExecuteAndCommitChunk(n.storage,
      GenuineList(l, |n.storage.txns|, k, li.ledgerInfo.version), li, None).value);
  }

  lemma {:induction false} NextIsInRange(
    l: seq<Transaction>, n: Node, k: nat, li: Option<LedgerInfoWithSignatures>, list: TransactionList)
    requires ValidHistory(l) && Faithful(l, n.storage) && InSync(n)
    requires |n.storage.txns| + k <= |l| && |list.transactions| == k > 0
    ensures NextVersionAndEpoch(n, list, li).Ok?
    ensures NextVersionAndEpoch(n, list, li).value.0 == |n.storage.txns| + k - 1
  {
    TrustedEpochIsNext(l, n.storage);
    EpochAtMostVersion(l, |n.storage.txns|);
  }

  lemma {:induction false} ProgressiveApplied(
    l: seq<Transaction>, n: Node, k: nat, li: LedgerInfoWithSignatures, highest: Option<LedgerInfoWithSignatures>)
    requires ValidHistory(l) && Faithful(l, n.storage) && InSync(n)
    requires Real(l, li) && li.ledgerInfo.epoch == n.local.TrustedEpoch()
    requires highest.Some? ==> Real(l, highest.value) && highest.value.ledgerInfo.epoch == li.ledgerInfo.epoch
    requires k > 0 && |n.storage.txns| + k <= li.ledgerInfo.version + 1 <= |l|
    ensures var list := GenuineList(l, |n.storage.txns|, k, li.ledgerInfo.version);
            var (m, r) := ApplyTargetAndHighest(n, list, li, Some(highest.GetOr(li)));
            var commit := if |n.storage.txns| + k == li.ledgerInfo.version + 1 then Some(li) else None;
            && r == Ok(()) && InSync(m) && SameDuties(n, m) && m.callbacks == n.callbacks
            && Faithful(l, m.storage)
            && m.storage == Commit(n.storage, l[..|n.storage.txns| + k], commit)
  {
    hide EpochAt, Readable, StateOf, ValidateAndStore, VerifiedBy, Prefetch, Certified, NextVersionAndEpoch, Faithful,
      Commit;
    var list := GenuineList(l, |n.storage.txns|, k, li.ledgerInfo.version);
    RealVerifies(l, n.storage, li);
    if highest.Some? {
      RealVerifies(l, n.storage, highest.value);
    }
    NextIsInRange(l, n, k, Some(li), list);
    var (version, epoch) := NextVersionAndEpoch(n, list, Some(li)).value;
    PrefetchOnlyAsks(n, version, epoch);
    ProgressiveStored(l, Prefetch(n, version, epoch), k, li);
  }

  /** A request that a synchronised, initialised node sends for `target`, if any. */
  function ProgressiveRequest(n: Node, target: Option<LedgerInfoWithSignatures>): GetChunkRequest {
    GetChunkRequest(n.local.syncedVersion, n.local.TrustedEpoch(), n.config.chunkLimit, HighestTarget(n, target))
  }

  /** The request is valid and need not wait. */
  lemma {:induction false} ProgressiveRequestIsValid(
    l: seq<Transaction>, n: Node, target: Option<LedgerInfoWithSignatures>, server: Storage)
    requires ValidHistory(l) && Faithful(l, n.storage) && InSync(n) && Sensible(n.config)
    requires CanServe(l, n.storage, server, target)
    ensures CheckRequest(ProgressiveRequest(n, target)) == Ok(())
    ensures !MustWait(server, ProgressiveRequest(n, target))
  {
    TrustedEpochIsNext(l, n.storage);
    if target.Some? {
      EpochMonotone(l, |n.storage.txns|, target.value.ledgerInfo.version);
    }
  }

  /** What a completed exchange leaves behind: a longer storage, and a sync request that ends when it is reached. */
  predicate Advanced(l: seq<Transaction>, n: Node, m: Node) {
    && Faithful(l, m.storage) && InSync(m)
    && n.storage.txns < m.storage.txns
    && (match n.syncRequest
        case None => m.syncRequest.None?
        case Some(t) =>
          && m.local.syncedVersion <= t.ledgerInfo.version
          && (m.local.syncedVersion < t.ledgerInfo.version ==> m.syncRequest == Some(t))
          && (m.local.syncedVersion == t.ledgerInfo.version ==>
                m.syncRequest.None? && m.storage.latest == t && SyncReached(t) in m.callbacks))
  }

  /** A commit step fails only for a target that storage has passed, and reports one that it has reached. */
  lemma {:induction false} CommitReports(n: Node, now: nat)
    requires Readable(n.storage)
    ensures n.syncRequest.None? || |n.storage.txns| - 1 <= n.syncRequest.value.ledgerInfo.version ==>
              OnCommit(n, now).1 == Ok(())
    ensures n.syncRequest.Some? && |n.storage.txns| - 1 == n.syncRequest.value.ledgerInfo.version ==>
              SyncReached(n.syncRequest.value) in OnCommit(n, now).0.callbacks
    ensures n.syncRequest.Some? && |n.storage.txns| - 1 > n.syncRequest.value.ledgerInfo.version ==>
              OnCommit(n, now).1 == Err(SyncedBeyondTarget)
  {
    hide Deliveries;
  }

  /**
   * One exchange with an honest responder, for a request with or without a target: the request is
   * valid, it is answered, the answer passes every check, and the node advances.
   */
  lemma {:induction false} ProgressiveExchange(
    l: seq<Transaction>, n: Node, target: Option<LedgerInfoWithSignatures>,
    peer: Peer, server: Storage, config: Config, now: nat)
    requires ValidHistory(l) && Faithful(l, n.storage) && InSync(n) && n.IsInitialized() && !n.IsConsensusExecuting()
    requires Sensible(n.config) && Sensible(config) && peer in n.peers
    requires CanServe(l, n.storage, server, target)
    requires n.syncRequest.Some? ==> target == n.syncRequest
    ensures Readable(server)
    ensures var request := ProgressiveRequest(n, target);
            && CheckRequest(request) == Ok(()) && !MustWait(server, request)
            && Answer(server, config, request).Ok?
            && (var (m, r) := OnChunkResponse(n, peer, Answer(server, config, request).value, now);
                r == Ok(()) && Advanced(l, n, m))
  {
    hide EpochAt, Readable, StateOf, Certified, Faithful, AnswerTargetAndHighest, ApplyTargetAndHighest, OnCommit,
      CheckRequest, MustWait, Deliveries;
    ProgressiveRequestIsValid(l, n, target, server);
    ViewOfStorage(n.storage);
    var limit := Min(n.config.chunkLimit, config.maxChunkLimit);
    var k, li, highest := HonestAnswer(l, n.storage, server, target, limit);
    ProgressiveApplied(l, n, k, li, highest);
    var list := GenuineList(l, |n.storage.txns|, k, li.ledgerInfo.version);
    var applied := ApplyTargetAndHighest(n, list, li, Some(highest.GetOr(li))).0;
    ViewOfStorage(applied.storage);
    CommitStep(applied, now);
    CommitReports(applied, now);
    var response := GetChunkResponse(ProgressiveLedgerInfo(li, highest), list);
    assert Answer(server, config, ProgressiveRequest(n, target)) == Ok(response);
    assert CheckResponse(n, peer, response) == Ok(());
    assert OnChunkResponse(n, peer, response, now) == OnCommit(applied, now);
    StorageGrows(l, n.storage, k, if |n.storage.txns| + k == li.ledgerInfo.version + 1 then Some(li) else None);
  }

  lemma {:induction false} StorageGrows(l: seq<Transaction>, st: Storage, k: nat, li: Option<LedgerInfoWithSignatures>)
    requires Faithful(l, st) && k > 0 && |st.txns| + k <= |l|
    ensures var after := Commit(st, l[..|st.txns| + k], li);
            && st.txns < after.txns && |after.txns| == |st.txns| + k
            && (li.Some? ==> after.latest == li.value)
  {
  }

  // ----- Waypoint exchanges -----

  /** The waypoint closes an epoch, as responders need it to. */
  predicate ClosesEpoch(waypoint: Waypoint) {
    waypoint.value.nextEpochState.Some?
  }

  function WaypointRequest(n: Node): GetChunkRequest {
    GetChunkRequest(n.local.syncedVersion, n.local.TrustedEpoch(), n.config.chunkLimit,
                    WaypointTarget(n.waypoint.version))
  }

  /** A node that has not committed its waypoint has not stored it either. */
  lemma {:induction false} WaypointIsAhead(l: seq<Transaction>, st: Storage, waypoint: Waypoint)
    requires ValidHistory(l) && Faithful(l, st) && GenuineWaypoint(l, waypoint) && ClosesEpoch(waypoint)
    requires st.latest.ledgerInfo.version < waypoint.version
    ensures |st.txns| <= waypoint.version < |l|
    ensures l[waypoint.version].reconfig.Some?
  {
  }

  /** The waypoint's ledger info and the end of the requester's epoch, as an honest responder finds them. */
  lemma {:induction false} WaypointInfos(l: seq<Transaction>, mine: Storage, server: Storage, waypoint: Waypoint)
    returns (waypointLi: LedgerInfoWithSignatures, endOfEpochLi: Option<LedgerInfoWithSignatures>)
    requires ValidHistory(l) && Faithful(l, mine) && Servable(l, server)
    requires GenuineWaypoint(l, waypoint) && ClosesEpoch(waypoint)
    requires mine.latest.ledgerInfo.version < waypoint.version <= server.latest.ledgerInfo.version
    ensures Readable(mine)
    ensures |mine.txns| <= waypoint.version < |l|
    ensures GetEpochEndingLedgerInfo(server, waypoint.version) == Ok(waypointLi)
    ensures WaypointMatches(waypoint, waypointLi.ledgerInfo) && Genuine(l, waypointLi.ledgerInfo)
    ensures StateOf(mine).TrustedEpoch() <= waypointLi.ledgerInfo.epoch < U64_MAX
    ensures endOfEpochLi.Some? <==> waypointLi.ledgerInfo.epoch > StateOf(mine).TrustedEpoch()
    ensures endOfEpochLi.Some? ==>
              && GetEpochChangeLedgerInfo(server, StateOf(mine).TrustedEpoch()) == Ok(endOfEpochLi.value)
              && Real(l, endOfEpochLi.value)
              && endOfEpochLi.value.ledgerInfo.epoch == StateOf(mine).TrustedEpoch()
              && endOfEpochLi.value.ledgerInfo.EndsEpoch()
              && |mine.txns| <= endOfEpochLi.value.ledgerInfo.version <= waypoint.version
  {
    hide EpochAt, Readable, StateOf, Certified, GetEpochChangeLedgerInfo, GetEpochEndingLedgerInfo, Faithful;
    TrustedEpochIsNext(l, mine);
    WaypointIsAhead(l, mine, waypoint);
    WaypointRead(l, server, waypoint.version);
    waypointLi := GetEpochEndingLedgerInfo(server, waypoint.version).value;
    GenuineOrder(l, waypoint.value, ContentOf(waypointLi.ledgerInfo));
    EpochMonotone(l, |mine.txns|, waypoint.version);
    EpochAtMostVersion(l, waypoint.version);
    var epoch := StateOf(mine).TrustedEpoch();
    endOfEpochLi := None;
    if waypointLi.ledgerInfo.epoch > epoch {
      EndingRead(l, server, epoch);
      StoredEndingIsReal(l, server, epoch);
      endOfEpochLi := Some(Ending(server, epoch));
      EndsNotBefore(l, endOfEpochLi.value.ledgerInfo, |mine.txns|);
      GenuineOrder(l, waypoint.value, ContentOf(endOfEpochLi.value.ledgerInfo));
    }
  }

  /** The epoch change that a chunk ending at `end` carries. */
  function ChangeAt(endOfEpochLi: Option<LedgerInfoWithSignatures>, end: nat): Option<LedgerInfoWithSignatures> {
    if endOfEpochLi.Some? && endOfEpochLi.value.ledgerInfo.version == end then endOfEpochLi else None
  }

  lemma {:induction false} HonestWaypointAnswer(l: seq<Transaction>, n: Node, server: Storage, limit: nat)
    returns (k: nat, waypointLi: LedgerInfoWithSignatures, endOfEpochLi: Option<LedgerInfoWithSignatures>)
    requires ValidHistory(l) && Faithful(l, n.storage) && InSync(n) && Servable(l, server)
    requires GenuineWaypoint(l, n.waypoint) && ClosesEpoch(n.waypoint) && !n.IsInitialized()
    requires n.waypoint.version <= server.latest.ledgerInfo.version && 0 < limit <= MAX_LIMIT
    ensures k > 0 && |n.storage.txns| + k <= n.waypoint.version + 1 <= |l|
    ensures AnswerWaypoint(server, WaypointRequest(n), n.waypoint.version, limit)
         == Ok(GetChunkResponse(LedgerInfoForWaypoint(waypointLi, endOfEpochLi),
                                GenuineList(l, |n.storage.txns|, k, n.waypoint.version)))
    ensures WaypointMatches(n.waypoint, waypointLi.ledgerInfo) && Genuine(l, waypointLi.ledgerInfo)
    ensures endOfEpochLi.None? ==> waypointLi.ledgerInfo.epoch == n.local.TrustedEpoch()
    ensures endOfEpochLi.Some? ==>
              && Real(l, endOfEpochLi.value)
              && endOfEpochLi.value.ledgerInfo.epoch == n.local.TrustedEpoch()
              && endOfEpochLi.value.ledgerInfo.EndsEpoch()
              && |n.storage.txns| + k - 1 <= endOfEpochLi.value.ledgerInfo.version <= n.waypoint.version
  {
    hide EpochAt, Certified, GetEpochChangeLedgerInfo, GetEpochEndingLedgerInfo, Genuine, GenuineWaypoint,
      GetTransactions, WaypointMatches, Readable;
    waypointLi, endOfEpochLi := WaypointInfos(l, n.storage, server, n.waypoint);
    ViewOfStorage(n.storage);
    MatchedIsGenuine(l, n.waypoint, waypointLi.ledgerInfo);
    var known := n.local.syncedVersion;
    var chunkLimit :=
      if endOfEpochLi.Some? then Min(limit, endOfEpochLi.value.ledgerInfo.version - known) else limit;
    k := DeliveredList(l, server, |n.storage.txns|, chunkLimit, n.waypoint.version);
  }

  /** Up to the end of its epoch a waypoint chunk reconfigures only where an epoch change is supplied. */
  lemma {:induction false} WaypointChunkFits(
    l: seq<Transaction>, st: Storage, k: nat,
    waypointLi: LedgerInfo, endOfEpochLi: Option<LedgerInfoWithSignatures>)
    requires ValidHistory(l) && Faithful(l, st) && Readable(st) && Genuine(l, waypointLi)
    requires k > 0 && |st.txns| + k <= waypointLi.version + 1
    requires endOfEpochLi.None? ==> waypointLi.epoch == StateOf(st).TrustedEpoch()
    requires endOfEpochLi.Some? ==>
               && Genuine(l, endOfEpochLi.value.ledgerInfo) && endOfEpochLi.value.ledgerInfo.EndsEpoch()
               && endOfEpochLi.value.ledgerInfo.epoch == StateOf(st).TrustedEpoch()
               && |st.txns| + k - 1 <= endOfEpochLi.value.ledgerInfo.version
    ensures var end := |st.txns| + k - 1;
            && (forall v | |st.txns| <= v < end :: l[v].reconfig.None?)
            && (ChangeAt(endOfEpochLi, end).None? && end < waypointLi.version ==> l[end].reconfig.None?)
  {
    hide EpochAt, Readable, StateOf, Faithful;
    TrustedEpochIsNext(l, st);
    if endOfEpochLi.Some? {
      EpochHasOneEnd(l, |st.txns|, endOfEpochLi.value.ledgerInfo);
    } else {
      EpochHasOneEnd(l, |st.txns|, waypointLi);
    }
  }

  lemma {:induction false} WaypointStored(
    l: seq<Transaction>, n: Node, k: nat,
    waypointLi: LedgerInfoWithSignatures, endOfEpochLi: Option<LedgerInfoWithSignatures>)
    requires ValidHistory(l) && Faithful(l, n.storage) && InSync(n) && Genuine(l, waypointLi.ledgerInfo)
    requires k > 0 && |n.storage.txns| + k <= waypointLi.ledgerInfo.version + 1 <= |l|
    requires endOfEpochLi.None? ==> waypointLi.ledgerInfo.epoch == n.local.TrustedEpoch()
    requires endOfEpochLi.Some? ==>
               && Genuine(l, endOfEpochLi.value.ledgerInfo) && endOfEpochLi.value.ledgerInfo.EndsEpoch()
               && endOfEpochLi.value.ledgerInfo.epoch == n.local.TrustedEpoch()
               && |n.storage.txns| + k - 1 <= endOfEpochLi.value.ledgerInfo.version
    ensures var end := |n.storage.txns| + k - 1;
            var list := GenuineList(l, |n.storage.txns|, k, waypointLi.ledgerInfo.version);
            var change := ChangeAt(endOfEpochLi, end);
            var commit := if end == waypointLi.ledgerInfo.version then Some(waypointLi) else change;
            var after := Commit(n.storage, l[..end + 1], commit);
            && ValidateAndStore(n, list, waypointLi, change) == Ok(after)
            && Faithful(l, after) && Readable(after)
  {
    hide EpochAt, Readable, StateOf, ExecuteAndCommitChunk, IsOld, Commit, Faithful, Genuine;
    var end := |n.storage.txns| + k - 1;
    var list := GenuineList(l, |n.storage.txns|, k, waypointLi.ledgerInfo.version);
    var change := ChangeAt(endOfEpochLi, end);
    FaithfulLatest(l, n.storage);
    WaypointChunkFits(l, n.storage, k, waypointLi.ledgerInfo, endOfEpochLi);
    AheadIsNew(l, n, waypointLi);
    GenuineListExecutes(l, n.storage, k, waypointLi, change);
    ExecuteKeepsFaithful(l, n.storage, list, waypointLi, change);
    TrustedEpochIsNext(l, ExecuteAndCommitChunk(n.storage, list, waypointLi, change).value);
  }

  /** What a bootstrap exchange leaves behind. Each epoch's end is committed where it lies, and the waypoint at last. */
  predicate Bootstrapped(l: seq<Transaction>, n: Node, m: Node) {
    && Faithful(l, m.storage) && InSync(m)
    && n.storage.txns < m.storage.txns
    && m.local.syncedVersion <= n.waypoint.version
    && (forall v | |n.storage.txns| <= v < |m.storage.txns| && l[v].reconfig.Some? ::
          v == m.local.syncedVersion == m.local.CommittedVersion())
    && (m.local.syncedVersion == n.waypoint.version ==> m.IsInitialized())
  }

  lemma {:induction false} WaypointApplied(
    l: seq<Transaction>, n: Node, k: nat,
    waypointLi: LedgerInfoWithSignatures, endOfEpochLi: Option<LedgerInfoWithSignatures>)
    requires ValidHistory(l) && Faithful(l, n.storage) && InSync(n)
    requires WaypointMatches(n.waypoint, waypointLi.ledgerInfo) && Genuine(l, waypointLi.ledgerInfo)
    requires k > 0 && |n.storage.txns| + k <= n.waypoint.version + 1 <= |l|
    requires endOfEpochLi.None? ==> waypointLi.ledgerInfo.epoch == n.local.TrustedEpoch()
    requires endOfEpochLi.Some? ==>
               && Real(l, endOfEpochLi.value)
               && endOfEpochLi.value.ledgerInfo.epoch == n.local.TrustedEpoch()
               && endOfEpochLi.value.ledgerInfo.EndsEpoch()
               && |n.storage.txns| + k - 1 <= endOfEpochLi.value.ledgerInfo.version
    ensures var list := GenuineList(l, |n.storage.txns|, k, n.waypoint.version);
            var (m, r) := ApplyWaypoint(n, list, waypointLi, endOfEpochLi);
            var end := |n.storage.txns| + k - 1;
            && r == Ok(()) && SameDuties(n, m) && m.local == n.local && Readable(m.storage)
            && Faithful(l, m.storage)
            && m.storage == Commit(n.storage, l[..end + 1],
                                   if end == n.waypoint.version then Some(waypointLi) else ChangeAt(endOfEpochLi, end))
  {
    hide EpochAt, Readable, StateOf, ValidateAndStore, VerifiedBy, Certified, NextVersionAndEpoch, Faithful,
      Commit, Genuine;
    var list := GenuineList(l, |n.storage.txns|, k, n.waypoint.version);
    NextIsInRange(l, n, k, endOfEpochLi, list);
    var (version, epoch) := NextVersionAndEpoch(n, list, endOfEpochLi).value;
    if endOfEpochLi.Some? {
      RealVerifies(l, n.storage, endOfEpochLi.value);
    }
    var asked :=
      if version < n.waypoint.version then Send(n, version, epoch, WaypointTarget(n.waypoint.version)).0 else n;
    WaypointStored(l, asked, k, waypointLi, endOfEpochLi);
  }

  /**
   * One bootstrap exchange with an honest responder: the request is valid, it is answered, the answer
   * passes every check, and the node advances towards its waypoint.
   */
  lemma {:induction false} WaypointExchange(
    l: seq<Transaction>, n: Node, peer: Peer, server: Storage, config: Config, now: nat)
    requires ValidHistory(l) && Faithful(l, n.storage) && InSync(n) && n.syncRequest.None?
    requires GenuineWaypoint(l, n.waypoint) && ClosesEpoch(n.waypoint) && !n.IsInitialized()
    requires Sensible(n.config) && Sensible(config) && peer in n.peers
    requires Servable(l, server) && n.waypoint.version <= server.latest.ledgerInfo.version
    ensures Readable(server)
    ensures var request := WaypointRequest(n);
            && CheckRequest(request) == Ok(()) && !MustWait(server, request)
            && Answer(server, config, request).Ok?
            && (var (m, r) := OnChunkResponse(n, peer, Answer(server, config, request).value, now);
                r == Ok(()) && Bootstrapped(l, n, m))
  {
    hide EpochAt, Readable, StateOf, Certified, Faithful, AnswerWaypoint, ApplyWaypoint, OnCommit, Deliveries, Genuine,
      GenuineWaypoint, Bootstrapped;
    TrustedEpochIsNext(l, server);
    ViewOfStorage(n.storage);
    var limit := Min(n.config.chunkLimit, config.maxChunkLimit);
    var k, waypointLi, endOfEpochLi := HonestWaypointAnswer(l, n, server, limit);
    WaypointApplied(l, n, k, waypointLi, endOfEpochLi);
    var list := GenuineList(l, |n.storage.txns|, k, n.waypoint.version);
    var applied := ApplyWaypoint(n, list, waypointLi, endOfEpochLi).0;
    CommitStep(applied, now);
    CommitReports(applied, now);
    var response := GetChunkResponse(LedgerInfoForWaypoint(waypointLi, endOfEpochLi), list);
    assert Answer(server, config, WaypointRequest(n)) == Ok(response);
    assert CheckResponse(n, peer, response) == Ok(());
    assert OnChunkResponse(n, peer, response, now) == OnCommit(applied, now);
    var end := |n.storage.txns| + k - 1;
    WaypointChunkFits(l, n.storage, k, waypointLi.ledgerInfo, endOfEpochLi);
    IsBootstrapped(l, n, k, if end == n.waypoint.version then Some(waypointLi) else ChangeAt(endOfEpochLi, end),
      OnCommit(applied, now).0);
  }

  lemma {:induction false} IsBootstrapped(
    l: seq<Transaction>, n: Node, k: nat, li: Option<LedgerInfoWithSignatures>, m: Node)
    requires Faithful(l, n.storage) && k > 0 && |n.storage.txns| + k <= n.waypoint.version + 1 <= |l|
    requires m.storage == Commit(n.storage, l[..|n.storage.txns| + k], li)
    requires Faithful(l, m.storage) && InSync(m) && m.waypoint == n.waypoint
    requires li.Some? ==> li.value.ledgerInfo.version == |n.storage.txns| + k - 1
    requires |n.storage.txns| + k - 1 == n.waypoint.version ==> li.Some?
    requires forall v | |n.storage.txns| <= v < |n.storage.txns| + k - 1 :: l[v].reconfig.None?
    ensures Bootstrapped(l, n, m)
  {
  }

  /** A waypoint that does not close an epoch is served by no honest responder, at any state of the requester. */
  lemma {:induction false} OpenWaypointIsNeverServed(l: seq<Transaction>, n: Node, server: Storage, config: Config)
    requires ValidHistory(l) && Faithful(l, server) && Readable(server)
    requires GenuineWaypoint(l, n.waypoint) && !ClosesEpoch(n.waypoint)
    ensures Answer(server, config, WaypointRequest(n)).Err?
  {
    if n.waypoint.version <= server.latest.ledgerInfo.version {
      WaypointRead(l, server, n.waypoint.version);
    }
  }

  // ----- Any node, any mode -----

  /** The request for chunks against `target` that fits the state of the node. */
  function RequestFor(n: Node, target: TargetType): GetChunkRequest {
    GetChunkRequest(n.local.syncedVersion, n.local.TrustedEpoch(), n.config.chunkLimit, target)
  }

  /** The request that the node sends for its current mode when it has to ask. */
  function RequestFrom(n: Node): GetChunkRequest
    requires CurrentTarget(n).Ok?
  {
    RequestFor(n, CurrentTarget(n).value)
  }

  /** What the periodic check sends is that request. */
  lemma {:induction false} TickAsksForCurrent(n: Node)
    requires !n.IsConsensusExecuting() && CurrentTarget(n).Ok? && n.peers != {}
    ensures OnTick(n, false, true) == (n.(requests := n.requests + [RequestFrom(n)]), Ok(()))
  {
  }

  /** A target that a node may ask for in its current mode. Without a sync request any ledger info is fine. */
  predicate Suits(n: Node, target: TargetType) {
    if !n.IsInitialized() then target == WaypointTarget(n.waypoint.version)
    else
      && target.HighestAvailable? && target.timeoutMs == n.config.longPollTimeoutMs
      && (n.syncRequest.Some? ==> target.targetLi == n.syncRequest)
  }

  /** An honest responder that has what a request of the node for the target needs. */
  predicate Supplies(l: seq<Transaction>, n: Node, target: TargetType, server: Storage) {
    && Servable(l, server)
    && Suits(n, target)
    && if n.IsInitialized() then CanServe(l, n.storage, server, RequestedLi(target))
       else n.waypoint.version <= server.latest.ledgerInfo.version
  }

  lemma {:induction false} CurrentSuits(n: Node)
    requires CurrentTarget(n).Ok?
    ensures Suits(n, CurrentTarget(n).value)
  {
  }

  /** Every request that suits the state of a node is valid, and a responder that can supply it answers at once. */
  lemma {:induction false} RequestsAreAnswered(
    l: seq<Transaction>, n: Node, target: TargetType, server: Storage, config: Config)
    requires ValidHistory(l) && Inv(l, n) && !n.IsConsensusExecuting()
    requires Sensible(n.config) && Sensible(config) && Supplies(l, n, target, server)
    requires !n.IsInitialized() ==> ClosesEpoch(n.waypoint)
    ensures Readable(server)
    ensures CheckRequest(RequestFor(n, target)) == Ok(()) && !MustWait(server, RequestFor(n, target))
    ensures Answer(server, config, RequestFor(n, target)).Ok?
  {
    hide Faithful, Answer, CheckRequest, MustWait, OnChunkResponse;
    var asking := n.(peers := {0});
    if n.IsInitialized() {
      ProgressiveExchange(l, asking, RequestedLi(target), 0, server, config, 0);
      assert RequestFor(n, target) == ProgressiveRequest(asking, RequestedLi(target));
    } else {
      WaypointExchange(l, asking, 0, server, config, 0);
      assert RequestFor(n, target) == WaypointRequest(asking);
    }
  }

  // ----- Two nodes -----

  /** A request that no node may send: its target is behind it, or it asks for nothing. */
  predicate IllFormed(request: GetChunkRequest) {
    || request.limit == 0
    || (request.target.HighestAvailable? && request.target.timeoutMs == 0)
    || (request.target.WaypointTarget? && request.target.waypointVersion < request.knownVersion)
    || (var li := RequestedLi(request.target);
        li.Some? && (li.value.ledgerInfo.version < request.knownVersion
                     || li.value.ledgerInfo.epoch < request.currentEpoch))
  }

  /**
   * Whatever is requested, one of four things happens: it is ill-formed and refused, it is remembered, it
   * cannot be answered, or exactly its answer is sent, to the peer that asked and to nobody else.
   */
  lemma {:induction false} RequestOutcome(s: Node, peer: Peer, request: GetChunkRequest, now: nat)
    requires Readable(s.storage)
    ensures var (t, r) := OnChunkRequest(s, peer, request, now);
            && t == s.(local := StateOf(s.storage), subscriptions := t.subscriptions, responses := t.responses)
            && (IllFormed(request) ==> r == Err(InvalidChunkRequest) && SentOne(s, t, peer, None))
            && (!IllFormed(request) && MustWait(s.storage, request) ==>
                  && r == Ok(()) && t.responses == s.responses
                  && t.subscriptions == s.subscriptions[peer := PendingFor(s.config, request, now)])
            && (!IllFormed(request) && !MustWait(s.storage, request) ==>
                  match Answer(s.storage, s.config, request)
                  case Ok(response) => r == Ok(()) && SentOne(s, t, peer, Some(response))
                  case Err(error) => r == Err(error) && SentOne(s, t, peer, None))
  {
    hide Answer, StateOf, Readable, PendingFor;
  }

  /** From `s` to `t` that message, if any, was sent to the peer, no other message, and nothing was remembered. */
  predicate SentOne(s: Node, t: Node, peer: Peer, response: Option<GetChunkResponse>) {
    && t.responses == (if response.Some? then s.responses + multiset{(peer, response.value)} else s.responses)
    && t.subscriptions == s.subscriptions
  }

  /** The node `s`, sent a request of `n` for the target by `me`, sends the response to `me`. */
  predicate AnswersWith(
    l: seq<Transaction>, n: Node, target: TargetType, response: GetChunkResponse, s: Node, me: Peer, now: nat)
  {
    && Supplies(l, n, target, s.storage) && Sensible(s.config)
    && Step(s, RequestArrives(me, RequestFor(n, target), now)).responses == s.responses + multiset{(me, response)}
  }

  /** What such a node sends is its answer to the request. */
  lemma {:induction false} SentIsAnswer(
    l: seq<Transaction>, n: Node, target: TargetType, response: GetChunkResponse, s: Node, me: Peer, now: nat)
    requires ValidHistory(l) && AnswersWith(l, n, target, response, s, me, now)
    ensures Readable(s.storage) && Answer(s.storage, s.config, RequestFor(n, target)) == Ok(response)
  {
    hide OnChunkRequest, Answer, Faithful, StateOf, IllFormed, MustWait, PendingFor, Readable, Certified;
    TrustedEpochIsNext(l, s.storage);
    RequestOutcome(s, me, RequestFor(n, target), now);
    var sent := multiset{(me, response)};
    assert sent[(me, response)] == 1;
    assert (s.responses + sent)[(me, response)] == s.responses[(me, response)] + 1;
  }

  /** The event is what an honest node sends in answer to a request that suits the state of the node. */
  ghost predicate IsHonestAnswer(l: seq<Transaction>, n: Node, event: Event) {
    && event.ResponseArrives? && event.peer in n.peers && !n.IsConsensusExecuting()
    && exists target, s, me, now :: AnswersWith(l, n, target, event.response, s, me, now)
  }

  lemma {:induction false} HonestAnswersAdvance(l: seq<Transaction>, n: Node, event: Event)
    requires ValidHistory(l) && Inv(l, n) && Sensible(n.config) && IsHonestAnswer(l, n, event)
    ensures Readable(n.storage)
    ensures OnChunkResponse(n, event.peer, event.response, event.now).1 == Ok(())
    ensures |n.storage.txns| < |Step(n, event).storage.txns|
  {
    hide Faithful, Answer, OnChunkResponse, OnChunkRequest, StateOf;
    TrustedEpochIsNext(l, n.storage);
    var target, s, me, now :| AnswersWith(l, n, target, event.response, s, me, now);
    SentIsAnswer(l, n, target, event.response, s, me, now);
    if n.IsInitialized() {
      ProgressiveExchange(l, n, RequestedLi(target), event.peer, s.storage, s.config, event.now);
      assert RequestFor(n, target) == ProgressiveRequest(n, RequestedLi(target));
    } else {
      assert RequestFor(n, target) == WaypointRequest(n);
      if !ClosesEpoch(n.waypoint) {
        OpenWaypointIsNeverServed(l, n, s.storage, s.config);
        assert false;
      }
      WaypointExchange(l, n, event.peer, s.storage, s.config, event.now);
    }
  }

  /**
   * Two nodes: a node that can supply what another asks for sends exactly one message, to the one that asked,
   * and keeps its storage. Delivering that message lengthens the storage of the one that asked.
   */
  lemma {:induction false} TwoNodesExchange(
    l: seq<Transaction>, n: Node, target: TargetType, peer: Peer, s: Node, me: Peer, asked: nat, told: nat)
    returns (response: GetChunkResponse)
    requires ValidHistory(l) && Inv(l, n) && !n.IsConsensusExecuting() && peer in n.peers
    requires Sensible(n.config) && Sensible(s.config) && Supplies(l, n, target, s.storage)
    requires !n.IsInitialized() ==> ClosesEpoch(n.waypoint)
    ensures AnswersWith(l, n, target, response, s, me, asked)
    ensures Readable(s.storage) && Answer(s.storage, s.config, RequestFor(n, target)) == Ok(response)
    ensures var t := Step(s, RequestArrives(me, RequestFor(n, target), asked));
            && t == s.(local := StateOf(s.storage), responses := t.responses)
            && t.responses == s.responses + multiset{(me, response)}
    ensures Readable(n.storage) && OnChunkResponse(n, peer, response, told).1 == Ok(())
    ensures |n.storage.txns| < |Step(n, ResponseArrives(peer, response, told)).storage.txns|
  {
    hide Faithful, Answer, OnChunkResponse, OnChunkRequest, StateOf, Inv, CheckRequest, MustWait, IllFormed, Readable,
      PendingFor;
    RequestsAreAnswered(l, n, target, s.storage, s.config);
    response := Answer(s.storage, s.config, RequestFor(n, target)).value;
    RequestOutcome(s, me, RequestFor(n, target), asked);
    WellFormedPasses(RequestFor(n, target));
    assert AnswersWith(l, n, target, response, s, me, asked);
    HonestAnswersAdvance(l, n, ResponseArrives(peer, response, told));
  }

  lemma {:induction false} WellFormedPasses(request: GetChunkRequest)
    ensures CheckRequest(request) == Ok(()) <==> !IllFormed(request)
  {
  }
}
