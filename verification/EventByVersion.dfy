/**
 * The latest event of a stream at or below a version, shown by bracketing: the event itself and the
 * next one of the stream.
 */
module EventByVersion {
  import opened LedgerTypes

  type EventKey = nat

  datatype ContractEvent = ContractEvent(key: EventKey, sequenceNumber: nat, data: nat)

  /** The events that each transaction of the ledger emitted, by version. */
  type EventLedger = seq<seq<ContractEvent>>

  /** A proof of inclusion is either what the ledger's accumulators give or does not verify. */
  datatype EventProof = Included | Unrelated

  datatype EventWithProof = EventWithProof(version: nat, index: nat, event: ContractEvent, proof: EventProof)

  datatype Bracket = Bracket(lower: Option<EventWithProof>, upper: Option<EventWithProof>)

  function SaturatingNext(n: nat): nat {
    if n >= U64_MAX then U64_MAX else n + 1
  }

  // ----- Verification -----

  /** The event has the key, and the ledger up to `ledgerVersion` holds it where it says. */
  predicate VerifyEvent(ledger: EventLedger, ledgerVersion: nat, key: EventKey, e: EventWithProof) {
    && e.event.key == key
    && e.proof == Included
    && e.version <= ledgerVersion && e.version < |ledger|
    && e.index < |ledger[e.version]| && ledger[e.version][e.index] == e.event
  }

  /** The count to check against: the given one, or one chosen so that the check passes. */
  function CountToCheck(b: Bracket, count: Option<nat>): nat {
    if count.Some? then count.value
    else if b.upper.Some? then SaturatingNext(b.upper.value.event.sequenceNumber)
    else if b.lower.Some? then SaturatingNext(b.lower.value.event.sequenceNumber)
    else 0
  }

  predicate Verify(
    ledger: EventLedger, ledgerVersion: nat, key: EventKey, count: Option<nat>, eventVersion: nat, b: Bracket)
  {
    var latestCount := CountToCheck(b, count);
    && eventVersion <= ledgerVersion
    && match (b.lower, b.upper)
       case (None, None) => latestCount == 0
       case (None, Some(first)) =>
         && eventVersion < first.version
         && first.event.sequenceNumber == 0
         && latestCount > 0
         && VerifyEvent(ledger, ledgerVersion, key, first)
       case (Some(lower), Some(upper)) =>
         && lower.version <= eventVersion < upper.version
         && SaturatingNext(lower.event.sequenceNumber) == upper.event.sequenceNumber
         && latestCount > upper.event.sequenceNumber
         && VerifyEvent(ledger, ledgerVersion, key, lower)
         && VerifyEvent(ledger, ledgerVersion, key, upper)
       case (Some(latest), None) =>
         && latest.version <= eventVersion
         && SaturatingNext(latest.event.sequenceNumber) == latestCount
         && VerifyEvent(ledger, ledgerVersion, key, latest)
  }

  // ----- The stream of a key -----

  /** The events with `key` among the first `n` of the transaction at version `v`. */
  function InTransaction(events: seq<ContractEvent>, key: EventKey, v: nat, n: nat): seq<EventWithProof>
    requires n <= |events|
  {
    if n == 0 then []
    else if events[n - 1].key == key then
      InTransaction(events, key, v, n - 1) + [EventWithProof(v, n - 1, events[n - 1], Included)]
    else InTransaction(events, key, v, n - 1)
  }

  /** The events with `key` below version `n`, in ledger order. */
  function Stream(ledger: EventLedger, key: EventKey, n: nat): seq<EventWithProof>
    requires n <= |ledger|
  {
    if n == 0 then []
    else Stream(ledger, key, n - 1) + InTransaction(ledger[n - 1], key, n - 1, |ledger[n - 1]|)
  }

  /** Sequence numbers count the events of the key from zero. */
  predicate NumberedFromZero(ledger: EventLedger, key: EventKey) {
    var s := Stream(ledger, key, |ledger|);
    |s| <= U64_MAX + 1 && forall k | 0 <= k < |s| :: s[k].event.sequenceNumber == k
  }

  lemma {:induction false} TransactionEvents(
    events: seq<ContractEvent>, key: EventKey, v: nat, n: nat, e: EventWithProof)
    requires n <= |events|
    ensures e in InTransaction(events, key, v, n)
       <==> e.version == v && e.index < n && e.event == events[e.index] && e.event.key == key && e.proof == Included
  {
    if n > 0 {
      TransactionEvents(events, key, v, n - 1, e);
      assert e == EventWithProof(e.version, e.index, e.event, e.proof);
    }
  }

  predicate Placed(ledger: EventLedger, key: EventKey, n: nat, e: EventWithProof) {
    && e.version < n <= |ledger| && e.index < |ledger[e.version]|
    && e.event == ledger[e.version][e.index] && e.event.key == key && e.proof == Included
  }

  lemma {:induction false} StreamIs(ledger: EventLedger, key: EventKey, n: nat, e: EventWithProof)
    requires n <= |ledger|
    ensures e in Stream(ledger, key, n) <==> Placed(ledger, key, n, e)
  {
    if n > 0 {
      StreamIs(ledger, key, n - 1, e);
      TransactionEvents(ledger[n - 1], key, n - 1, |ledger[n - 1]|, e);
    }
  }

  /** The stream below `m` is the part of the stream below `n` whose versions are below `m`. */
  lemma {:induction false} StreamPrefix(ledger: EventLedger, key: EventKey, m: nat, n: nat)
    requires m <= n <= |ledger|
    ensures Stream(ledger, key, m) <= Stream(ledger, key, n)
    ensures var s := Stream(ledger, key, n);
            forall k | 0 <= k < |s| :: k < |Stream(ledger, key, m)| <==> s[k].version < m
    decreases n
  {
    if m < n {
      StreamPrefix(ledger, key, m, n - 1);
      var before, added := Stream(ledger, key, n - 1), InTransaction(ledger[n - 1], key, n - 1, |ledger[n - 1]|);
      forall k | 0 <= k < |added|
        ensures added[k].version == n - 1
      {
        TransactionEvents(ledger[n - 1], key, n - 1, |ledger[n - 1]|, added[k]);
      }
      assert forall k | |before| <= k < |before + added| :: (before + added)[k] == added[k - |before|];
    } else {
      forall k | 0 <= k < |Stream(ledger, key, n)|
        ensures Stream(ledger, key, n)[k].version < m
      {
        StreamIs(ledger, key, n, Stream(ledger, key, n)[k]);
      }
    }
  }

  /** The sequence numbers of the events up to a version count from zero too. */
  lemma {:induction false} NumberedBelow(ledger: EventLedger, key: EventKey, n: nat)
    requires NumberedFromZero(ledger, key) && n <= |ledger|
    ensures var s := Stream(ledger, key, n);
            |s| <= U64_MAX + 1 && forall k | 0 <= k < |s| :: s[k].event.sequenceNumber == k
  {
    StreamPrefix(ledger, key, n, |ledger|);
    var s, all := Stream(ledger, key, n), Stream(ledger, key, |ledger|);
    assert forall k | 0 <= k < |s| :: s[k] == all[k];
  }

  /** A verified event is the one of the stream at its sequence number. */
  lemma {:induction false} VerifiedIsInStream(ledger: EventLedger, ledgerVersion: nat, key: EventKey, e: EventWithProof)
    requires NumberedFromZero(ledger, key) && ledgerVersion < |ledger|
    ensures var s, k := Stream(ledger, key, ledgerVersion + 1), e.event.sequenceNumber;
            VerifyEvent(ledger, ledgerVersion, key, e) <==> k < |s| && s[k] == e
  {
    var s, k := Stream(ledger, key, ledgerVersion + 1), e.event.sequenceNumber;
    NumberedBelow(ledger, key, ledgerVersion + 1);
    StreamIs(ledger, key, ledgerVersion + 1, e);
    if VerifyEvent(ledger, ledgerVersion, key, e) {
      var i :| 0 <= i < |s| && s[i] == e;
    }
  }

  // ----- The honest bracket -----

  /** The latest event at or below `eventVersion` and the one after it, as far as the ledger goes. */
  function HonestBracket(ledger: EventLedger, ledgerVersion: nat, key: EventKey, eventVersion: nat): Bracket
    requires eventVersion <= ledgerVersion < |ledger|
  {
    var s := Stream(ledger, key, ledgerVersion + 1);
    var k := |Stream(ledger, key, eventVersion + 1)|;
    Bracket(if 0 < k <= |s| then Some(s[k - 1]) else None, if k < |s| then Some(s[k]) else None)
  }

  /** The lower event is the last one at or below the version, or there is none. */
  predicate IsLatest(ledger: EventLedger, key: EventKey, eventVersion: nat, lower: Option<EventWithProof>)
    requires eventVersion < |ledger|
  {
    var s := Stream(ledger, key, eventVersion + 1);
    lower == if s == [] then None else Some(s[|s| - 1])
  }

  lemma {:induction false} HonestLowerIsLatest(
    ledger: EventLedger, ledgerVersion: nat, key: EventKey, eventVersion: nat)
    requires eventVersion <= ledgerVersion < |ledger|
    ensures IsLatest(ledger, key, eventVersion, HonestBracket(ledger, ledgerVersion, key, eventVersion).lower)
  {
    StreamPrefix(ledger, key, eventVersion + 1, ledgerVersion + 1);
  }

  function TrueCount(ledger: EventLedger, ledgerVersion: nat, key: EventKey): nat
    requires ledgerVersion < |ledger|
  {
    |Stream(ledger, key, ledgerVersion + 1)|
  }

  /** A stream position is at or below the version exactly when its event is. */
  lemma {:induction false} PositionsOf(ledger: EventLedger, ledgerVersion: nat, key: EventKey, eventVersion: nat)
    requires eventVersion <= ledgerVersion < |ledger| && NumberedFromZero(ledger, key)
    ensures var s, k := Stream(ledger, key, ledgerVersion + 1), |Stream(ledger, key, eventVersion + 1)|;
            && k <= |s| <= U64_MAX + 1
            && (forall i | 0 <= i < |s| :: (i < k <==> s[i].version <= eventVersion) && s[i].event.sequenceNumber == i)
  {
    StreamPrefix(ledger, key, eventVersion + 1, ledgerVersion + 1);
    NumberedBelow(ledger, key, ledgerVersion + 1);
  }

  /**
   * With the true event count, exactly the honest bracket is accepted. So whatever is accepted, its
   * lower event is the latest one, and the honest answer is never refused.
   */
  lemma {:induction false} OnlyTheHonestBracket(
    ledger: EventLedger, ledgerVersion: nat, key: EventKey, eventVersion: nat, b: Bracket)
    requires NumberedFromZero(ledger, key) && ledgerVersion < |ledger|
    requires TrueCount(ledger, ledgerVersion, key) <= U64_MAX
    ensures Verify(ledger, ledgerVersion, key, Some(TrueCount(ledger, ledgerVersion, key)), eventVersion, b)
       <==> eventVersion <= ledgerVersion && b == HonestBracket(ledger, ledgerVersion, key, eventVersion)
  {
    hide Stream, NumberedFromZero, VerifyEvent;
    if eventVersion <= ledgerVersion {
      PositionsOf(ledger, ledgerVersion, key, eventVersion);
    }
    if b.lower.Some? {
      VerifiedIsInStream(ledger, ledgerVersion, key, b.lower.value);
    }
    if b.upper.Some? {
      VerifiedIsInStream(ledger, ledgerVersion, key, b.upper.value);
    }
  }

  /**
   * Without a count but with an upper event, exactly the honest bracket is accepted too, except that
   * it is refused when the upper event carries the largest sequence number and there is a lower event.
   */
  lemma {:induction false} OnlyTheHonestBracketUncounted(
    ledger: EventLedger, ledgerVersion: nat, key: EventKey, eventVersion: nat, b: Bracket)
    requires NumberedFromZero(ledger, key) && ledgerVersion < |ledger|
    requires b.upper.Some?
    ensures Verify(ledger, ledgerVersion, key, None, eventVersion, b)
       <==> && eventVersion <= ledgerVersion
            && b == HonestBracket(ledger, ledgerVersion, key, eventVersion)
            && (b.lower.Some? ==> b.upper.value.event.sequenceNumber < U64_MAX)
  {
    hide Stream, NumberedFromZero, VerifyEvent;
    if eventVersion <= ledgerVersion {
      PositionsOf(ledger, ledgerVersion, key, eventVersion);
    }
    VerifiedIsInStream(ledger, ledgerVersion, key, b.upper.value);
    if b.lower.Some? {
      VerifiedIsInStream(ledger, ledgerVersion, key, b.lower.value);
    }
  }

  /**
   * Without a count and without an upper event nothing is known about later events: every event at or
   * below the version is accepted, and so is the absence of events.
   */
  lemma {:induction false} UncountedAcceptsAnyEvent(
    ledger: EventLedger, ledgerVersion: nat, key: EventKey, eventVersion: nat, b: Bracket)
    requires ledgerVersion < |ledger| && b.upper.None?
    ensures Verify(ledger, ledgerVersion, key, None, eventVersion, b)
       <==> eventVersion <= ledgerVersion && (b.lower.Some? ==> Placed(ledger, key, eventVersion + 1, b.lower.value))
  {
  }

  /** Then the answer is the right one exactly when the stream says so, which the check does not see. */
  lemma {:induction false} UncountedCanMislead(
    ledger: EventLedger, ledgerVersion: nat, key: EventKey, eventVersion: nat)
    requires NumberedFromZero(ledger, key) && eventVersion <= ledgerVersion < |ledger|
    requires Stream(ledger, key, eventVersion + 1) != []
    ensures Verify(ledger, ledgerVersion, key, None, eventVersion, Bracket(None, None))
    ensures !IsLatest(ledger, key, eventVersion, None)
  {
  }

  /** No accepted bracket contradicts a given count: the events shown are counted, and the last one is the last. */
  lemma {:induction false} CountIsRespected(
    ledger: EventLedger, ledgerVersion: nat, key: EventKey, count: nat, eventVersion: nat, b: Bracket)
    requires Verify(ledger, ledgerVersion, key, Some(count), eventVersion, b)
    ensures b.upper.Some? ==> b.upper.value.event.sequenceNumber < count
    ensures b.upper.None? ==> count == if b.lower.Some? then SaturatingNext(b.lower.value.event.sequenceNumber) else 0
    ensures b.upper.Some? ==>
              b.upper.value.event.sequenceNumber
              == if b.lower.Some? then SaturatingNext(b.lower.value.event.sequenceNumber) else 0
  {
  }
}
