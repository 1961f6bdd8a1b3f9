/** The request for the next chunk, sent before the current one is stored, is the right one. */
module SyncPipelining {
  import opened LedgerTypes
  import opened Validators
  import opened History
  import opened LedgerStorage
  import opened SyncProtocol
  import opened Requester
  import opened SyncSafety
  import opened SyncLiveness

  /** Every request that `m` sent after `n` starts where the storage of `m` ends, in its epoch. */
  predicate AsksForNext(n: Node, m: Node)
    requires |n.requests| <= |m.requests| && Readable(m.storage)
  {
    forall k | |n.requests| <= k < |m.requests| ::
      && m.requests[k].knownVersion == StateOf(m.storage).syncedVersion
      && m.requests[k].currentEpoch == StateOf(m.storage).TrustedEpoch()
  }

  /** An executed chunk moves storage by its length, and to the next epoch exactly when its end reconfigures. */
  lemma {:induction false} ExecutedChunkMoves(
    l: seq<Transaction>, st: Storage, txns: TransactionList,
    target: LedgerInfoWithSignatures, endOfEpochLi: Option<LedgerInfoWithSignatures>)
    requires ValidHistory(l) && Faithful(l, st) && Genuine(l, target.ledgerInfo)
    requires endOfEpochLi.Some? ==> Genuine(l, endOfEpochLi.value.ledgerInfo)
    requires ExecuteAndCommitChunk(st, txns, target, endOfEpochLi).Ok?
    requires txns.firstVersion == Some(|st.txns|)
    ensures var after := ExecuteAndCommitChunk(st, txns, target, endOfEpochLi).value;
            var end := |st.txns| + |txns.transactions| - 1;
            && Faithful(l, after)
            && |after.txns| - 1 == end <= target.ledgerInfo.version < |l|
            && |st.txns| <= end
            && EpochAt(l, end) == EpochAt(l, |st.txns|)
  {
    hide FindChunkLi, Faithful, EpochAt;
    ExecuteKeepsFaithful(l, st, txns, target, endOfEpochLi);
    var m, li := ExecuteCommitsPrefix(l, st, txns, target, endOfEpochLi);
    assert txns.transactions != [];
    EpochFlat(l, |st.txns|, m - 1);
  }

  /** The same, as a node that stores the chunk sees it. */
  lemma {:induction false} StoredChunkMoves(
    l: seq<Transaction>, n: Node, txns: TransactionList,
    target: LedgerInfoWithSignatures, endOfEpochLi: Option<LedgerInfoWithSignatures>)
    requires ValidHistory(l) && Faithful(l, n.storage) && Genuine(l, target.ledgerInfo)
    requires endOfEpochLi.Some? ==> Genuine(l, endOfEpochLi.value.ledgerInfo)
    requires ValidateAndStore(n, txns, target, endOfEpochLi).Ok? && !IsOld(n, target)
    requires txns.firstVersion == Some(|n.storage.txns|)
    ensures Readable(n.storage)
    ensures var after := ValidateAndStore(n, txns, target, endOfEpochLi).value;
            var end := |n.storage.txns| + |txns.transactions| - 1;
            && Readable(after)
            && |after.txns| - 1 == end <= target.ledgerInfo.version < |l|
            && |n.storage.txns| <= end
            && StateOf(after).syncedVersion == end
            && StateOf(after).TrustedEpoch()
               == StateOf(n.storage).TrustedEpoch() + (if l[end].reconfig.Some? then 1 else 0)
            && EpochAt(l, end) == StateOf(n.storage).TrustedEpoch()
  {
    hide ExecuteAndCommitChunk, Faithful, Readable, StateOf, Genuine;
    TrustedEpochIsNext(l, n.storage);
    ExecutedChunkMoves(l, n.storage, txns, target, endOfEpochLi);
    var after := ValidateAndStore(n, txns, target, endOfEpochLi).value;
    TrustedEpochIsNext(l, after);
    ViewOfStorage(after);
  }

  /** The epoch of a genuine ledger info at or above `end` settles whether `end` reconfigures. */
  lemma {:induction false} EndsAtItsEpoch(l: seq<Transaction>, li: LedgerInfo, end: nat)
    requires ValidHistory(l) && Genuine(l, li) && end <= li.version && li.epoch == EpochAt(l, end)
    ensures l[end].reconfig.Some? <==> li.version == end && li.EndsEpoch()
  {
    if l[end].reconfig.Some? && end < li.version {
      EpochMonotone(l, end, li.version);
    }
  }

  lemma {:induction false} SendAsks(n: Node, version: nat, epoch: nat, target: TargetType)
    ensures var m := Send(n, version, epoch, target).0;
            && m == n.(requests := m.requests) && n.requests <= m.requests
            && forall k | |n.requests| <= k < |m.requests| ::
                 m.requests[k].knownVersion == version && m.requests[k].currentEpoch == epoch
  {
  }

  lemma {:induction false} PrefetchAsks(n: Node, version: nat, epoch: nat)
    ensures var m := Prefetch(n, version, epoch);
            && m == n.(requests := m.requests) && n.requests <= m.requests
            && forall k | |n.requests| <= k < |m.requests| ::
                 m.requests[k].knownVersion == version && m.requests[k].currentEpoch == epoch
  {
  }

  /**
   * A progressive chunk: the request sent ahead names the version and epoch that the node has once
   * the chunk is stored. It fails to do so exactly when the ledger info is no newer than what is
   * committed and the chunk is not empty, because then nothing is stored.
   */
  lemma {:induction false} ProgressivePrefetch(
    w: World, n: Node, txns: TransactionList,
    responseLi: LedgerInfoWithSignatures, highestLi: Option<LedgerInfoWithSignatures>)
    requires Safe(w) && Inv(w.history, n) && InSync(n)
    requires Unforged(w, responseLi)
    requires txns.firstVersion == Some(n.local.syncedVersion + 1)
    requires ApplyTargetAndHighest(n, txns, responseLi, highestLi).1 == Ok(())
    ensures var m := ApplyTargetAndHighest(n, txns, responseLi, highestLi).0;
            && n.requests <= m.requests && Readable(m.storage)
            && (!IsOld(n, responseLi) ==> |m.storage.txns| - 1 == n.local.syncedVersion + |txns.transactions|)
            && (|n.requests| < |m.requests| ==>
                  (AsksForNext(n, m) <==> !IsOld(n, responseLi) || txns.transactions == []))
  {
    hide VerifySignatures, ValidateAndStore, Prefetch, NewTarget, Genuine, Faithful, Readable, StateOf, EpochAt;
    var l := w.history;
    TrustedEpochIsNext(l, n.storage);
    ViewOfStorage(n.storage);
    var (version, epoch) := NextVersionAndEpoch(n, txns, Some(responseLi)).value;
    PrefetchAsks(n, version, epoch);
    var asked := Prefetch(n, version, epoch);
    VerifiedIsGenuine(w, n.local.trusted, responseLi);
    StoreKeepsFaithful(l, asked, txns, responseLi, None);
    var m := ApplyTargetAndHighest(n, txns, responseLi, highestLi).0;
    if IsOld(n, responseLi) {
      OldIsBelow(l, n, responseLi.ledgerInfo);
      assert |n.requests| < |m.requests| ==> m.requests[|n.requests|].knownVersion == version;
    } else {
      StoredChunkMoves(l, asked, txns, responseLi, None);
      EndsAtItsEpoch(l, responseLi.ledgerInfo, version);
    }
  }

  /** An old ledger info of the trusted epoch does not end an epoch where storage ends. */
  lemma {:induction false} OldIsBelow(l: seq<Transaction>, n: Node, li: LedgerInfo)
    requires ValidHistory(l) && Inv(l, n) && InSync(n) && Genuine(l, li) && li.epoch == n.local.TrustedEpoch()
    ensures !(li.version == n.local.syncedVersion && li.EndsEpoch())
  {
    TrustedEpochIsNext(l, n.storage);
    if li.version == n.local.syncedVersion && li.EndsEpoch() {
      EpochMonotone(l, li.version, |n.storage.txns|);
    }
  }

  /** A waypoint chunk: the request sent ahead is always the right one. */
  lemma {:induction false} WaypointPrefetch(
    w: World, n: Node, txns: TransactionList,
    waypointLi: LedgerInfoWithSignatures, endOfEpochLi: Option<LedgerInfoWithSignatures>)
    requires Safe(w) && Inv(w.history, n) && InSync(n) && !n.IsInitialized()
    requires UnforgedOption(w, endOfEpochLi)
    requires txns.firstVersion == Some(n.local.syncedVersion + 1)
    requires ApplyWaypoint(n, txns, waypointLi, endOfEpochLi).1 == Ok(())
    ensures var m := ApplyWaypoint(n, txns, waypointLi, endOfEpochLi).0;
            && n.requests <= m.requests && Readable(m.storage) && AsksForNext(n, m)
            && |m.storage.txns| - 1 == n.local.syncedVersion + |txns.transactions|
  {
    hide VerifySignatures, ValidateAndStore, Send, Genuine, GenuineWaypoint, WaypointMatches, Faithful, Readable,
      StateOf, EpochAt;
    var l := w.history;
    TrustedEpochIsNext(l, n.storage);
    ViewOfStorage(n.storage);
    var (version, epoch) := NextVersionAndEpoch(n, txns, endOfEpochLi).value;
    SendAsks(n, version, epoch, WaypointTarget(n.waypoint.version));
    var asked :=
      if version < n.waypoint.version then Send(n, version, epoch, WaypointTarget(n.waypoint.version)).0 else n;
    var toCommit := EndOfEpochToCommit(n, version, endOfEpochLi).value;
    MatchedIsGenuine(l, n.waypoint, waypointLi.ledgerInfo);
    if endOfEpochLi.Some? {
      VerifiedIsGenuine(w, n.local.trusted, endOfEpochLi.value);
    }
    WaypointIsNew(l, n, waypointLi);
    StoreKeepsFaithful(l, asked, txns, waypointLi, toCommit);
    StoredChunkMoves(l, asked, txns, waypointLi, toCommit);
    if version < n.waypoint.version {
      BoundaryIsCommitted(l, asked, txns, waypointLi, toCommit);
      if toCommit.Some? {
        EndsAtItsEpoch(l, toCommit.value.ledgerInfo, version);
      } else {
        assert epoch == n.local.TrustedEpoch();
      }
    }
  }

  /** A genuine ledger info above what is committed is not old. */
  lemma {:induction false} WaypointIsNew(l: seq<Transaction>, n: Node, li: LedgerInfoWithSignatures)
    requires ValidHistory(l) && Faithful(l, n.storage) && InSync(n)
    requires Genuine(l, li.ledgerInfo) && n.local.CommittedVersion() < li.ledgerInfo.version
    ensures !IsOld(n, li)
  {
    GenuineOrder(l, ContentOf(n.storage.latest.ledgerInfo), ContentOf(li.ledgerInfo));
  }

  /** A stored chunk that ends below its target and reconfigures at its end was given the epoch change. */
  lemma {:induction false} BoundaryIsCommitted(
    l: seq<Transaction>, n: Node, txns: TransactionList,
    target: LedgerInfoWithSignatures, endOfEpochLi: Option<LedgerInfoWithSignatures>)
    requires ValidHistory(l) && Faithful(l, n.storage) && Genuine(l, target.ledgerInfo)
    requires ValidateAndStore(n, txns, target, endOfEpochLi).Ok? && !IsOld(n, target)
    requires txns.firstVersion == Some(|n.storage.txns|)
    requires |n.storage.txns| + |txns.transactions| - 1 < target.ledgerInfo.version
    ensures var end := |n.storage.txns| + |txns.transactions| - 1;
            && |n.storage.txns| <= end < |l|
            && (l[end].reconfig.Some? ==> endOfEpochLi.Some?)
  {
    hide FindChunkLi, EpochAt;
    var m, li := ExecuteCommitsPrefix(l, n.storage, txns, target, endOfEpochLi);
  }

  /** Where storage ends if the chunk is stored. */
  function ClaimedEnd(n: Node, response: GetChunkResponse): nat {
    n.local.syncedVersion + |response.txns.transactions|
  }

  /** Progressive chunks with an old ledger info are taken as valid, but not stored. */
  predicate IsStored(n: Node, response: GetChunkResponse) {
    response.responseLi.LedgerInfoForWaypoint? || !IsOld(n, response.responseLi.Li())
  }

  /** Every chunk that is accepted and not old: the request sent ahead of storing it is exact. */
  lemma {:induction false} PrefetchIsExact(w: World, n: Node, peer: Peer, response: GetChunkResponse)
    requires Safe(w) && Inv(w.history, n) && UnforgedResponse(w, response) && !n.IsConsensusExecuting()
    requires CheckResponse(n, peer, response) == Ok(()) && Readable(n.storage)
    requires ApplyChunk(n, response).1 == Ok(())
    ensures var m := ApplyChunk(n, response).0;
            && n.requests <= m.requests && Readable(m.storage)
            && (IsStored(n, response) ==> |m.storage.txns| - 1 == ClaimedEnd(n, response))
            && (|n.requests| < |m.requests| ==>
                  (AsksForNext(n, m) <==> IsStored(n, response) || response.txns.transactions == []))
  {
    hide ApplyTargetAndHighest, ApplyWaypoint, Inv, AsksForNext, IsOld, Readable;
    assert InSync(n) by { NotExecutingInSync(w.history, n); }
    match response.responseLi
    case VerifiableLedgerInfo(li) => ProgressivePrefetch(w, n, response.txns, li, None);
    case ProgressiveLedgerInfo(targetLi, highestLi) =>
      ProgressivePrefetch(w, n, response.txns, targetLi, Some(highestLi.GetOr(targetLi)));
    case LedgerInfoForWaypoint(waypointLi, endOfEpochLi) =>
      WaypointPrefetch(w, n, response.txns, waypointLi, endOfEpochLi);
  }

  lemma {:induction false} NotExecutingInSync(l: seq<Transaction>, n: Node)
    requires Inv(l, n) && !n.IsConsensusExecuting()
    ensures InSync(n)
  {
  }

  // ----- The request is sent, and it advances the node -----

  /** Storage that ends at `version` has reached what the node is after: its waypoint, or its sync target. */
  predicate GoalReached(n: Node, version: nat) {
    if !n.IsInitialized() then n.waypoint.version <= version
    else n.syncRequest.Some? && n.syncRequest.value.ledgerInfo.version <= version
  }

  /** What a node asks for when storage ends at `version`: its own target only if that is still ahead. */
  function NextTarget(n: Node, version: nat): TargetType {
    if !n.IsInitialized() then WaypointTarget(n.waypoint.version)
    else if n.syncRequest.Some? then HighestTarget(n, n.syncRequest)
    else HighestTarget(n, if n.target.Some? && version < n.target.value.ledgerInfo.version then n.target else None)
  }

  /** Exactly one request for what follows `version` was sent, or none if the goal is reached there. */
  predicate SentAhead(n: Node, m: Node, version: nat) {
    if GoalReached(n, version) then m.requests == n.requests
    else
      && |m.requests| == |n.requests| + 1 && n.requests <= m.requests
      && (var request := m.requests[|n.requests|];
          && request.knownVersion == version
          && request.limit == n.config.chunkLimit
          && request.target == NextTarget(n, version))
  }

  lemma {:induction false} PrefetchSends(n: Node, version: nat, epoch: nat)
    requires n.peers != {} && n.IsInitialized()
    ensures SentAhead(n, Prefetch(n, version, epoch), version)
  {
  }

  lemma {:induction false} ProgressiveSendsAhead(
    n: Node, txns: TransactionList, responseLi: LedgerInfoWithSignatures, highestLi: Option<LedgerInfoWithSignatures>)
    requires Readable(n.storage) && n.peers != {} && n.IsInitialized()
    requires NextVersionAndEpoch(n, txns, Some(responseLi)).Ok?
    ensures SentAhead(n, ApplyTargetAndHighest(n, txns, responseLi, highestLi).0,
                      n.local.syncedVersion + |txns.transactions|)
  {
    hide VerifiedBy, ValidateAndStore, Prefetch, NewTarget, Readable, StateOf;
    var (version, epoch) := NextVersionAndEpoch(n, txns, Some(responseLi)).value;
    PrefetchSends(n, version, epoch);
  }

  lemma {:induction false} WaypointSendsAhead(
    n: Node, txns: TransactionList,
    waypointLi: LedgerInfoWithSignatures, endOfEpochLi: Option<LedgerInfoWithSignatures>)
    requires Readable(n.storage) && n.peers != {} && !n.IsInitialized()
    requires NextVersionAndEpoch(n, txns, endOfEpochLi).Ok?
    ensures SentAhead(n, ApplyWaypoint(n, txns, waypointLi, endOfEpochLi).0,
                      n.local.syncedVersion + |txns.transactions|)
  {
    hide ValidateAndStore, EndOfEpochToCommit, WaypointMatches, Readable;
  }

  /** The chunk reaches past the versions and epochs that can be counted. */
  predicate Overflows(n: Node, response: GetChunkResponse) {
    ClaimedEnd(n, response) > U64_MAX || n.local.TrustedEpoch() >= U64_MAX
  }

  /** In every mode, and whatever becomes of the chunk, the next request is sent unless the goal is reached. */
  lemma {:induction false} RequestIsSentAhead(n: Node, peer: Peer, response: GetChunkResponse)
    requires Readable(n.storage) && CheckResponse(n, peer, response) == Ok(())
    requires ApplyChunk(n, response).1 == Ok(()) || !Overflows(n, response)
    ensures SentAhead(n, ApplyChunk(n, response).0, ClaimedEnd(n, response))
  {
    hide VerifiedBy, ValidateAndStore, Prefetch, NewTarget, Readable, StateOf, SentAhead, EndOfEpochToCommit,
      WaypointMatches;
    match response.responseLi
    case VerifiableLedgerInfo(li) => ProgressiveSendsAhead(n, response.txns, li, None);
    case ProgressiveLedgerInfo(targetLi, highestLi) =>
      ProgressiveSendsAhead(n, response.txns, targetLi, Some(highestLi.GetOr(targetLi)));
    case LedgerInfoForWaypoint(waypointLi, endOfEpochLi) =>
      WaypointSendsAhead(n, response.txns, waypointLi, endOfEpochLi);
  }

  /** The node accepts the chunk and stores it. */
  predicate Takes(n: Node, peer: Peer, response: GetChunkResponse, now: nat) {
    Readable(n.storage) && OnChunkResponse(n, peer, response, now).1 == Ok(()) && IsStored(n, response)
  }

  lemma {:induction false} TakenIsApplied(n: Node, peer: Peer, response: GetChunkResponse, now: nat)
    requires Takes(n, peer, response, now)
    ensures !n.IsConsensusExecuting() && peer in n.peers && CheckResponse(n, peer, response) == Ok(())
    ensures var (applied, r) := ApplyChunk(n, response);
            && r == Ok(()) && Readable(applied.storage)
            && Step(n, ResponseArrives(peer, response, now)) == OnCommit(applied, now).0
  {
    hide ApplyChunk, OnCommit, Readable, CheckProgressive, CheckWaypoint;
    assert CheckResponse(n, peer, response).value == ();
    assert ApplyChunk(n, response).1.value == ();
  }

  /**
   * Pipelining: in every mode a node that takes a chunk has sent exactly the request that suits its new
   * state, or none if it has reached what it is after.
   */
  lemma {:induction false} PrefetchIsTheNextRequest(w: World, n: Node, peer: Peer, response: GetChunkResponse, now: nat)
    requires Safe(w) && Inv(w.history, n) && UnforgedResponse(w, response) && Takes(n, peer, response, now)
    ensures var m := Step(n, ResponseArrives(peer, response, now));
            && Inv(w.history, m) && |n.storage.txns| > 0 && |m.storage.txns| > 0
            && (var end := |m.storage.txns| - 1;
                var next := NextTarget(n, end);
                if GoalReached(n, end) then m.requests == n.requests
                else
                  && m.requests == n.requests + [RequestFor(m, next)] && Suits(m, next)
                  && (next.Version().Some? ==> m.local.syncedVersion < next.Version().value)
                  && (!n.IsInitialized() || n.syncRequest.Some? ==> CurrentTarget(m) == Ok(next)))
  {
    hide ApplyChunk, Faithful, GoodTarget, GenuineWaypoint, IsOld, Readable, StateOf, OnCommit, CheckResponse,
      OnChunkResponse, Step;
    var l := w.history;
    TakenIsApplied(n, peer, response, now);
    NotExecutingInSync(l, n);
    PrefetchIsExact(w, n, peer, response);
    RequestIsSentAhead(n, peer, response);
    ApplyIsSafe(w, n, response);
    var applied := ApplyChunk(n, response).0;
    CommitStep(applied, now);
    ViewOfStorage(applied.storage);
    TrustedEpochIsNext(l, n.storage);
    EveryStepIsSafe(w, n, ResponseArrives(peer, response, now));
    LatestIsBelow(l, applied.storage);
  }

  lemma {:induction false} LatestIsBelow(l: seq<Transaction>, st: Storage)
    requires Faithful(l, st)
    ensures st.latest.ledgerInfo.version < |st.txns|
  {
  }

  /**
   * And that request pays: unless the goal is reached, a node that can supply what was asked for ahead sends one
   * message, to the one that asked, and delivering it lengthens the storage of the one that asked once more.
   */
  lemma {:induction false} PrefetchAdvances(
    w: World, n: Node, peer: Peer, response: GetChunkResponse, now: nat, s: Node, me: Peer, asked: nat, told: nat)
    returns (next: GetChunkResponse)
    requires Safe(w) && Inv(w.history, n) && UnforgedResponse(w, response) && Takes(n, peer, response, now)
    requires Sensible(n.config) && Sensible(s.config) && ClosesEpoch(n.waypoint)
    requires var m := Step(n, ResponseArrives(peer, response, now));
             && |m.storage.txns| > 0 && !GoalReached(n, |m.storage.txns| - 1)
             && Supplies(w.history, m, NextTarget(n, |m.storage.txns| - 1), s.storage)
    ensures var m := Step(n, ResponseArrives(peer, response, now));
            && |m.requests| == |n.requests| + 1
            && Step(s, RequestArrives(me, m.requests[|n.requests|], asked)).responses
               == s.responses + multiset{(me, next)}
            && |m.storage.txns| < |Step(m, ResponseArrives(peer, next, told)).storage.txns|
  {
    hide Faithful, Step, OnChunkResponse, Inv, Supplies, GoalReached, StateOf;
    PrefetchIsTheNextRequest(w, n, peer, response, now);
    var m := Step(n, ResponseArrives(peer, response, now));
    StaysASyncer(w, n, peer, response, now);
    next := TwoNodesExchange(w.history, m, NextTarget(n, |m.storage.txns| - 1), peer, s, me, asked, told);
  }

  lemma {:induction false} StaysASyncer(w: World, n: Node, peer: Peer, response: GetChunkResponse, now: nat)
    requires Safe(w) && Inv(w.history, n) && UnforgedResponse(w, response) && Takes(n, peer, response, now)
    requires var m := Step(n, ResponseArrives(peer, response, now));
             |m.storage.txns| > 0 && !GoalReached(n, |m.storage.txns| - 1)
    ensures var m := Step(n, ResponseArrives(peer, response, now));
            !m.IsConsensusExecuting() && peer in m.peers && m.config == n.config && m.waypoint == n.waypoint
  {
    hide ApplyChunk, Faithful, GoodTarget, GenuineWaypoint, IsOld, Readable, StateOf, OnCommit, OnChunkResponse, Step;
    TakenIsApplied(n, peer, response, now);
    NotExecutingInSync(w.history, n);
    ApplyIsSafe(w, n, response);
    var applied := ApplyChunk(n, response).0;
    CommitStep(applied, now);
    ViewOfStorage(applied.storage);
    LatestIsBelow(w.history, applied.storage);
  }

  // ----- The target of a full node -----

  predicate Ahead(li: Option<LedgerInfoWithSignatures>, version: nat) {
    li.Some? && version < li.value.ledgerInfo.version
  }

  /** The highest ledger info that a response brings along. */
  function HighestOf(response: GetChunkResponse): Option<LedgerInfoWithSignatures> {
    match response.responseLi
    case ProgressiveLedgerInfo(targetLi, highestLi) => Some(highestLi.GetOr(targetLi))
    case _ => None
  }

  /**
   * Once a chunk is taken, the node is after its old target if that is still ahead of storage, otherwise
   * after the highest ledger info of the response if that is ahead, and after nothing if neither is.
   */
  lemma {:induction false} TargetAfterChunk(w: World, n: Node, peer: Peer, response: GetChunkResponse, now: nat)
    requires Safe(w) && Inv(w.history, n) && UnforgedResponse(w, response) && Takes(n, peer, response, now)
    requires n.IsInitialized()
    ensures var m := Step(n, ResponseArrives(peer, response, now));
            && |m.storage.txns| > 0
            && (var end := |m.storage.txns| - 1;
                && (Ahead(n.target, end) ==> m.target == n.target)
                && (!Ahead(n.target, end) && Ahead(HighestOf(response), end) ==> m.target == HighestOf(response))
                && (m.target.Some? ==> Ahead(m.target, end)))
  {
    hide ApplyTargetAndHighest, Faithful, GoodTarget, GenuineWaypoint, IsOld, Readable, StateOf, OnCommit,
      OnChunkResponse, Step, CheckProgressive;
    TakenIsApplied(n, peer, response, now);
    NotExecutingInSync(w.history, n);
    ApplyIsSafe(w, n, response);
    var applied := ApplyChunk(n, response).0;
    CommitStep(applied, now);
    ViewOfStorage(applied.storage);
    match response.responseLi
    case VerifiableLedgerInfo(li) => ProgressiveTarget(n, response.txns, li, None);
    case ProgressiveLedgerInfo(targetLi, highestLi) =>
      ProgressiveTarget(n, response.txns, targetLi, Some(highestLi.GetOr(targetLi)));
    case _ =>
  }

  lemma {:induction false} ProgressiveTarget(
    n: Node, txns: TransactionList, responseLi: LedgerInfoWithSignatures, highestLi: Option<LedgerInfoWithSignatures>)
    requires Readable(n.storage) && ApplyTargetAndHighest(n, txns, responseLi, highestLi).1 == Ok(())
    ensures var m := ApplyTargetAndHighest(n, txns, responseLi, highestLi).0;
            && Readable(m.storage)
            && (var end := StateOf(m.storage).syncedVersion;
                && (Ahead(n.target, end) ==> m.target == n.target)
                && (!Ahead(n.target, end) && Ahead(highestLi, end) ==> m.target == highestLi)
                && (m.target.Some? ==> Ahead(m.target, end)))
  {
    hide VerifiedBy, ValidateAndStore, Prefetch, Readable, StateOf, NextVersionAndEpoch;
    var (version, epoch) := NextVersionAndEpoch(n, txns, Some(responseLi)).value;
    PrefetchOnlyAsks(n, version, epoch);
  }

  // ----- The periodic check -----

  /**
   * The periodic check does nothing while consensus executes, asks for nothing before a timeout, and after one
   * asks exactly for what the node's state calls for; past its sync target it only reports that.
   */
  lemma {:induction false} TickOutcome(l: seq<Transaction>, n: Node, requestTimedOut: bool)
    requires ValidHistory(l) && Inv(l, n) && n.peers != {}
    ensures var (m, r) := OnTick(n, false, requestTimedOut);
            var end := n.local.syncedVersion;
            if n.IsConsensusExecuting() || !requestTimedOut then m == n && r == Ok(())
            else if n.IsInitialized() && GoalReached(n, end) then m == n && r == Err(SyncedBeyondTarget)
            else m == n.(requests := n.requests + [RequestFor(n, NextTarget(n, end))]) && r == Ok(())
  {
    hide Faithful, GenuineWaypoint;
  }

  /** While consensus executes, not even a timed-out check does anything. */
  lemma {:induction false} NoTickWhileExecuting(n: Node, syncRequestTimedOut: bool, requestTimedOut: bool)
    requires n.IsConsensusExecuting()
    ensures OnTick(n, syncRequestTimedOut, requestTimedOut) == (n, Ok(()))
  {
  }
}
