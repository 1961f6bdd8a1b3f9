/** What a responder with genuine storage answers, and that a requester accepts it. */
module HonestServing {
  import opened LedgerTypes
  import opened History
  import opened LedgerStorage
  import opened SyncProtocol
  import opened Responder

  // ----- What a responder reads from genuine storage -----

  lemma {:induction false} EndingRead(l: seq<Transaction>, st: Storage, e: nat)
    requires ValidHistory(l) && Faithful(l, st) && e < st.latest.ledgerInfo.NextBlockEpoch()
    ensures EndsStoredEpoch(st, e)
    ensures GetEpochChangeLedgerInfo(st, e) == Ok(Ending(st, e))
    ensures var li := Ending(st, e).ledgerInfo;
            Genuine(l, li) && li.epoch == e && li.EndsEpoch() && li.version <= st.latest.ledgerInfo.version
  {
    hide EpochAt;
    assert HoldsEnding(l, st, e);
    assert forall x | e <= x < e + 1 :: EndsStoredEpoch(st, x);
    var li, latest := Ending(st, e).ledgerInfo, st.latest.ledgerInfo;
    if latest.version < li.version {
      GenuineOrder(l, ContentOf(latest), ContentOf(li));
    }
  }

  /** The end of the epoch that a version lies in is not before that version. */
  lemma {:induction false} EndsNotBefore(l: seq<Transaction>, li: LedgerInfo, v: nat)
    requires ValidHistory(l) && Genuine(l, li) && li.EndsEpoch() && v <= |l| && EpochAt(l, v) <= li.epoch
    ensures v <= li.version
  {
    if li.version < v {
      EpochMonotone(l, li.version, v);
    }
  }

  lemma {:induction false} DeliveredList(
    l: seq<Transaction>, st: Storage, start: nat, limit: nat, v: nat) returns (n: nat)
    requires Faithful(l, st) && start <= v < |st.txns| && 0 < limit <= MAX_LIMIT
    ensures 1 <= n <= limit && start + n <= v + 1
    ensures GetTransactions(st, start, limit, v) == Ok(TransactionList(Some(start), l[start..start + n], l[..v + 1]))
  {
    n := if limit < v - start + 1 then limit else v - start + 1;
    assert st.txns[start..start + n] == l[start..start + n];
    assert st.txns[..v + 1] == l[..v + 1];
  }

  // ----- Chunks never cross epochs -----

  /** Every version in the chunk lies in the request's epoch or before. */
  predicate WithinEpoch(l: seq<Transaction>, epoch: nat, txns: TransactionList) {
    txns.firstVersion.Some? ==>
      forall v | txns.firstVersion.value <= v < txns.firstVersion.value + |txns.transactions| ::
        v < |l| && EpochAt(l, v) <= epoch
  }

  lemma {:induction false} DeliveredWithin(
    l: seq<Transaction>, st: Storage, start: nat, limit: nat, bound: nat, v: nat, epoch: nat)
    requires Faithful(l, st) && bound <= |l| && GetTransactions(st, start, limit, v).Ok?
    requires v < bound || start + limit <= bound
    requires bound > 0 ==> EpochAt(l, bound - 1) <= epoch
    ensures WithinEpoch(l, epoch, GetTransactions(st, start, limit, v).value)
  {
    var txns := GetTransactions(st, start, limit, v).value;
    if txns.firstVersion.Some? {
      forall i | start <= i < start + |txns.transactions|
        ensures i < |l| && EpochAt(l, i) <= epoch
      {
        EpochMonotone(l, i, bound - 1);
      }
    }
  }

  /**
   * The request asks for a target ledger info that is not of a later epoch than the request, but whose
   * version is, and the chunk is long enough to get there.
   */
  predicate Crosses(l: seq<Transaction>, config: Config, request: GetChunkRequest) {
    var limit := Min(request.limit, config.maxChunkLimit);
    match RequestedLi(request.target)
    case None => false
    case Some(lis) =>
      var li := lis.ledgerInfo;
      && li.epoch <= request.currentEpoch
      && limit > 0 && request.knownVersion < li.version < |l|
      && EpochAt(l, Min(li.version, request.knownVersion + limit)) > request.currentEpoch
  }

  /** The latest ledger info, or the end of the request's epoch put in its place, lies in that epoch. */
  lemma {:induction false} ReplacedWithin(
    l: seq<Transaction>, st: Storage, epoch: nat, target: Option<LedgerInfoWithSignatures>)
    requires ValidHistory(l) && Faithful(l, st) && ChooseResponseLi(st, epoch, target).Ok?
    requires target.None? || target.value.ledgerInfo.epoch > epoch
    ensures var li := ChooseResponseLi(st, epoch, target).value.ledgerInfo;
            li.version < |l| && EpochAt(l, li.version) <= epoch
  {
    hide EpochAt;
    if target.GetOr(st.latest).ledgerInfo.epoch > epoch && epoch < st.latest.ledgerInfo.NextBlockEpoch() {
      EndingRead(l, st, epoch);
    }
  }

  /** A chunk up to a kept target stays in the epoch exactly when its last version does. */
  lemma {:induction false} KeptWithin(l: seq<Transaction>, st: Storage, start: nat, limit: nat, v: nat, epoch: nat)
    requires Faithful(l, st) && GetTransactions(st, start, limit, v).Ok? && start > 0
    ensures WithinEpoch(l, epoch, GetTransactions(st, start, limit, v).value)
       <==> !(limit > 0 && start <= v < |l| && EpochAt(l, Min(v, start - 1 + limit)) > epoch)
  {
    var txns := GetTransactions(st, start, limit, v).value;
    if txns.firstVersion.Some? {
      var last := Min(v, start - 1 + limit);
      assert last == start + |txns.transactions| - 1;
      forall i | start <= i <= last
        ensures EpochAt(l, i) <= EpochAt(l, last)
      {
        EpochMonotone(l, i, last);
      }
    }
  }

  /**
   * A chunk crosses the end of the request's epoch exactly when the request's own target understates
   * the epoch of the last version that it reaches.
   */
  lemma {:induction false} ChunksStayInEpoch(l: seq<Transaction>, st: Storage, config: Config, request: GetChunkRequest)
    requires ValidHistory(l) && Faithful(l, st) && Readable(st)
    requires Answer(st, config, request).Ok?
    ensures WithinEpoch(l, request.currentEpoch, Answer(st, config, request).value.txns)
       <==> !Crosses(l, config, request)
  {
    hide EpochAt, WithinEpoch, GetTransactions, GetEpochChangeLedgerInfo;
    var limit, start := Min(request.limit, config.maxChunkLimit), request.knownVersion + 1;
    var target, epoch := RequestedLi(request.target), request.currentEpoch;
    if request.target.WaypointTarget? {
      WaypointWithin(l, st, request, request.target.waypointVersion, limit);
    } else {
      var v := ChooseResponseLi(st, epoch, target).value.ledgerInfo.version;
      if target.None? || target.value.ledgerInfo.epoch > epoch {
        ReplacedWithin(l, st, epoch, target);
        DeliveredWithin(l, st, start, limit, v + 1, v, epoch);
      } else {
        KeptWithin(l, st, start, limit, v, epoch);
      }
    }
  }

  /** In particular no chunk crosses for a target that is genuine, or for none. */
  lemma {:induction false} GenuineTargetsStayInEpoch(l: seq<Transaction>, config: Config, request: GetChunkRequest)
    requires ValidHistory(l)
    requires RequestedLi(request.target).Some? ==> Genuine(l, RequestedLi(request.target).value.ledgerInfo)
    ensures !Crosses(l, config, request)
  {
    if RequestedLi(request.target).Some? {
      var li := RequestedLi(request.target).value.ledgerInfo;
      var last := Min(li.version, request.knownVersion + Min(request.limit, config.maxChunkLimit));
      EpochMonotone(l, last, li.version);
    }
  }

  lemma {:induction false} WaypointWithin(
    l: seq<Transaction>, st: Storage, request: GetChunkRequest, version: nat, limit: nat)
    requires ValidHistory(l) && Faithful(l, st)
    requires AnswerWaypoint(st, request, version, limit).Ok?
    ensures WithinEpoch(l, request.currentEpoch, AnswerWaypoint(st, request, version, limit).value.txns)
  {
    hide EpochAt, WithinEpoch, GetTransactions, GetEpochChangeLedgerInfo, GetEpochEndingLedgerInfo, Faithful;
    var waypointLi := GetEpochEndingLedgerInfo(st, version).value;
    var epoch := request.currentEpoch;
    WaypointRead(l, st, version);
    if waypointLi.ledgerInfo.epoch > epoch {
      EndingRead(l, st, epoch);
      var end := Ending(st, epoch).ledgerInfo.version;
      var chunkLimit := Min(limit, end - request.knownVersion);
      DeliveredWithin(l, st, request.knownVersion + 1, chunkLimit, end + 1, version, epoch);
    } else {
      DeliveredWithin(l, st, request.knownVersion + 1, limit, version + 1, version, epoch);
    }
  }

  /** The ledger info that storage gives for an epoch-ending version is the genuine one. */
  lemma {:induction false} WaypointRead(l: seq<Transaction>, st: Storage, version: nat)
    requires ValidHistory(l) && Faithful(l, st) && version <= st.latest.ledgerInfo.version
    ensures GetEpochEndingLedgerInfo(st, version).Ok? <==> l[version].reconfig.Some?
    ensures l[version].reconfig.Some? ==>
              var lis := GetEpochEndingLedgerInfo(st, version).value;
              && Genuine(l, lis.ledgerInfo) && lis.ledgerInfo.version == version && lis.ledgerInfo.EndsEpoch()
              && lis.ledgerInfo.epoch < st.latest.ledgerInfo.NextBlockEpoch()
              && EndsStoredEpoch(st, lis.ledgerInfo.epoch) && lis == Ending(st, lis.ledgerInfo.epoch)
              && lis.ledgerInfo.epoch <= st.latest.ledgerInfo.epoch
  {
    var latest := st.latest.ledgerInfo;
    EpochOfPrefix(l, |st.txns|, version);
    var epoch := EpochAt(l, version);
    EpochMonotone(l, version, latest.version);
    if l[version].reconfig.Some? {
      assert NumberedInOrder(l, latest.version);
      assert epoch < latest.NextBlockEpoch();
      assert HoldsEnding(l, st, epoch);
      EndVersionUnique(l, version, st.epochInfos[epoch].ledgerInfo.version);
    } else if epoch < latest.NextBlockEpoch() {
      assert HoldsEnding(l, st, epoch);
    } else {
      assert st.epochInfos[epoch] == st.latest;
    }
  }

  // ----- The attached highest ledger info -----

  /**
   * The latest ledger info is attached as the highest exactly when it is newer than the target, of the same
   * epoch, and does not end that epoch.
   */
  lemma {:induction false} HighestFits(
    l: seq<Transaction>, st: Storage, epoch: nat, target: Option<LedgerInfoWithSignatures>)
    requires ValidHistory(l) && Faithful(l, st) && Readable(st)
    requires target.Some? ==> Genuine(l, target.value.ledgerInfo)
    requires CalculateTargetAndHighest(st, epoch, target).Ok?
    ensures var (li, highest) := CalculateTargetAndHighest(st, epoch, target).value;
            && Genuine(l, li.ledgerInfo)
            && (highest.Some? <==>
                  && st.latest.ledgerInfo.version > li.ledgerInfo.version
                  && st.latest.ledgerInfo.epoch == li.ledgerInfo.epoch
                  && !st.latest.ledgerInfo.EndsEpoch())
            && (highest.Some? ==> highest.value == st.latest)
  {
    hide EpochAt;
    var latest := st.latest.ledgerInfo;
    var base := target.GetOr(st.latest).ledgerInfo;
    if base.epoch > epoch && epoch < latest.NextBlockEpoch() {
      EndingRead(l, st, epoch);
    }
    TrustedEpochIsNext(l, st);
    var li := ChooseResponseLi(st, epoch, target).value.ledgerInfo;
    GenuineOrder(l, ContentOf(li), ContentOf(latest));
    GenuineOrder(l, ContentOf(latest), ContentOf(latest));
  }

  // ----- Bounds and refusals -----

  /** No answer holds more transactions than were asked for, than the node sends, or than storage reads. */
  lemma {:induction false} ChunksAreBounded(st: Storage, config: Config, request: GetChunkRequest)
    requires Readable(st) && Answer(st, config, request).Ok?
    ensures var n := |Answer(st, config, request).value.txns.transactions|;
            n <= request.limit && n <= config.maxChunkLimit && n <= MAX_LIMIT
  {
    hide StateOf, GetEpochChangeLedgerInfo, GetEpochEndingLedgerInfo, Readable;
  }

  /** A waypoint that the node has not committed is refused, and so is one that the requester has passed. */
  lemma {:induction false} WaypointRefusals(st: Storage, config: Config, request: GetChunkRequest)
    requires Readable(st) && request.target.WaypointTarget?
    ensures var version, r := request.target.waypointVersion, Answer(st, config, request);
            && (r == Err(WaypointAhead) <==> st.latest.ledgerInfo.version < version)
            && (version <= st.latest.ledgerInfo.version && version <= request.knownVersion ==> r == Err(WaypointPassed))
            && (r.Ok? ==> request.knownVersion < version <= st.latest.ledgerInfo.version)
  {
    hide GetEpochChangeLedgerInfo, GetEpochEndingLedgerInfo, GetTransactions, Readable;
  }
}
