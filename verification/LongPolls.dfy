/** Requests that a node remembers until it has something new. */
module LongPolls {
  import opened LedgerTypes
  import opened History
  import opened LedgerStorage
  import opened SyncProtocol
  import opened Responder
  import opened Requester
  import opened SyncSafety
  import opened SyncCompletion

  /** The request of `peer`, which came at time `since`, is remembered. */
  predicate Waiting(n: Node, peer: Peer, request: GetChunkRequest, since: nat) {
    peer in n.subscriptions && n.subscriptions[peer] == PendingFor(n.config, request, since)
  }

  /** When a request that came at time `since` is given up: after its own time, but no later than this node's. */
  function Deadline(config: Config, request: GetChunkRequest, since: nat): nat {
    since + (if request.target.HighestAvailable? then Min(request.target.timeoutMs, config.maxTimeoutMs)
             else config.maxTimeoutMs)
  }

  /** From `n` to `m` exactly that response, if any, was sent to the peer. */
  ghost predicate SentTo(n: Node, m: Node, peer: Peer, sent: Option<GetChunkResponse>) {
    forall response: GetChunkResponse {:trigger m.responses[(peer, response)]} ::
      m.responses[(peer, response)] == n.responses[(peer, response)] + (if sent == Some(response) then 1 else 0)
  }

  function Sendable(answer: Result<GetChunkResponse, SyncError>): Option<GetChunkResponse> {
    if answer.Ok? then Some(answer.value) else None
  }

  /**
   * The request is forgotten in the step from `n` to `m`: its time was over and it is sent nothing, or
   * something newer than it knows is committed, and then it was sent, once, the answer that it would get
   * now if it came now.
   */
  ghost predicate Settled(n: Node, m: Node, now: nat, peer: Peer, request: GetChunkRequest, since: nat) {
    && peer !in m.subscriptions && Readable(m.storage)
    && if Deadline(n.config, request, since) <= now then SentTo(n, m, peer, None)
       else !MustWait(m.storage, request) && SentTo(n, m, peer, Sendable(Answer(m.storage, m.config, request)))
  }

  /** The request still has to wait when the long polls are checked. */
  predicate MayWait(m: Node, now: nat, request: GetChunkRequest, since: nat) {
    MustWait(m.storage, request) && now < Deadline(m.config, request, since)
  }

  /** A request that has to wait is remembered with the time and limits that its answer will need. */
  lemma {:induction false} WaitingStarts(n: Node, peer: Peer, request: GetChunkRequest, now: nat)
    requires Readable(n.storage) && CheckRequest(request) == Ok(()) && MustWait(n.storage, request)
    ensures Waiting(Step(n, RequestArrives(peer, request, now)), peer, request, now)
    ensures Step(n, RequestArrives(peer, request, now)).responses == n.responses
  {
  }

  lemma {:induction false} ReachedKeepsPolls(n: Node)
    ensures var m := CheckReached(n).0;
            m.subscriptions == n.subscriptions && m.responses == n.responses && m.storage == n.storage
            && m.config == n.config
  {
  }

  lemma {:induction false} CheckSettles(c: Node, now: nat, peer: Peer, request: GetChunkRequest, since: nat)
    requires InSync(c) && Waiting(c, peer, request, since) && !request.target.WaypointTarget?
    ensures var m := SubscriptionsChecked(c, now);
            || (Waiting(m, peer, request, since) && MayWait(m, now, request, since) && SentTo(c, m, peer, None))
            || Settled(c, m, now, peer, request, since)
  {
    hide AnswerTargetAndHighest, StateOf, Readable;
    ViewOfStorage(c.storage);
    var answer := Answer(c.storage, c.config, request);
    assert AnswerPending(c.storage, c.subscriptions[peer]) == answer;
    if IsReady(c, peer, now) && answer.Ok? {
      assert (peer, answer.value) in Deliveries(c, now);
    }
  }

  lemma {:induction false} CommitSettles(n: Node, now: nat, peer: Peer, request: GetChunkRequest, since: nat)
    requires Readable(n.storage) && Waiting(n, peer, request, since) && !request.target.WaypointTarget?
    ensures var m := OnCommit(n, now).0;
            || (Waiting(m, peer, request, since) && MayWait(m, now, request, since) && SentTo(n, m, peer, None))
            || Settled(n, m, now, peer, request, since)
  {
    hide Answer, StateOf, SubscriptionsChecked, CheckReached, Readable, PendingFor, MustWait, Deadline;
    CheckSettles(n.Refreshed(), now, peer, request, since);
    ReachedKeepsPolls(SubscriptionsChecked(n.Refreshed(), now));
    CheckedKeepsStorage(n.Refreshed(), now);
  }

  lemma {:induction false} CheckedKeepsStorage(n: Node, now: nat)
    requires Readable(n.storage)
    ensures SubscriptionsChecked(n, now).storage == n.storage && SubscriptionsChecked(n, now).config == n.config
  {
  }

  /** The time at which an event has the long polls checked. */
  function CheckTime(event: Event): nat {
    match event
    case CommitNotified(now) => now
    case ResponseArrives(_, _, now) => now
    case _ => 0
  }

  /** The event is a commit notice, and storage can be read. */
  predicate Commits(n: Node, event: Event) {
    event.CommitNotified? && Readable(n.storage)
  }

  lemma {:induction false} SettledIsForgotten(
    n: Node, m: Node, now: nat, peer: Peer, request: GetChunkRequest, since: nat)
    requires Settled(n, m, now, peer, request, since)
    ensures !Waiting(m, peer, request, since)
  {
  }

  lemma {:induction false} StepKeepsOrSettles(
    n: Node, event: Event, peer: Peer, request: GetChunkRequest, since: nat)
    requires Waiting(n, peer, request, since) && !request.target.WaypointTarget?
    requires !(event.RequestArrives? && event.peer == peer)
    ensures var m := Step(n, event);
            || (&& Waiting(m, peer, request, since) && SentTo(n, m, peer, None)
                && (Commits(n, event) ==> MayWait(m, event.now, request, since)))
            || (&& (event.CommitNotified? || event.ResponseArrives?)
                && Settled(n, m, CheckTime(event), peer, request, since))
  {
    hide Answer, OnCommit, ApplyChunk, CheckResponse, CurrentTarget, CheckRequest, MustWait, SyncRequestTarget,
      Readable, StateOf, PendingFor, Deadline;
    if Readable(n.storage) {
      if event.CommitNotified? {
        CommitSettles(n, event.now, peer, request, since);
      } else if event.ResponseArrives? {
        ApplyOnlyApplies(n, event.response);
        var applied := ApplyChunk(n, event.response).0;
        if Readable(applied.storage) {
          CommitSettles(applied, event.now, peer, request, since);
        }
      }
    }
  }

  /**
   * Over every run in which its peer sends no other request, a request that had to wait is remembered
   * until it is settled; before that the peer is sent nothing, and at no commit notice was there anything to send.
   */
  lemma {:induction false} WaitingUntilSettled(
    w: World, states: seq<Node>, events: seq<Event>, i: nat, j: nat, peer: Peer, request: GetChunkRequest, since: nat)
    returns (k: nat)
    requires IsRun(w, states, events) && i <= j <= |events|
    requires Waiting(states[i], peer, request, since) && !request.target.WaypointTarget?
    requires forall e | i <= e < j :: !(events[e].RequestArrives? && events[e].peer == peer)
    ensures i <= k <= j
    ensures if k == j then Waiting(states[j], peer, request, since)
            else Settled(states[k], states[k + 1], CheckTime(events[k]), peer, request, since)
    ensures SentTo(states[i], states[k], peer, None)
    ensures forall e | i <= e < k && Commits(states[e], events[e]) ::
              MayWait(states[e + 1], events[e].now, request, since)
    decreases j
  {
    hide Step, Settled, Waiting, Admissible, MayWait, Readable;
    if i == j {
      k := i;
    } else {
      k := WaitingUntilSettled(w, states, events, i, j - 1, peer, request, since);
      if k == j - 1 {
        assert StepsTo(w, states[j - 1], events[j - 1], states[j]);
        StepKeepsOrSettles(states[j - 1], events[j - 1], peer, request, since);
        if Waiting(states[j], peer, request, since) {
          if Settled(states[j - 1], states[j], CheckTime(events[j - 1]), peer, request, since) {
            SettledIsForgotten(states[j - 1], states[j], CheckTime(events[j - 1]), peer, request, since);
          }
          k := j;
        }
      }
    }
  }

  /** A request that has to wait is answered later with what the same request would get then, once. */
  lemma {:induction false} LongPollGetsTheSameAnswer(
    w: World, states: seq<Node>, events: seq<Event>, i: nat, j: nat)
    returns (k: nat)
    requires IsRun(w, states, events) && i < j <= |events|
    requires events[i].RequestArrives? && Readable(states[i].storage)
    requires CheckRequest(events[i].request) == Ok(()) && MustWait(states[i].storage, events[i].request)
    requires forall e | i < e < j :: !(events[e].RequestArrives? && events[e].peer == events[i].peer)
    ensures i < k <= j
    ensures if k == j then Waiting(states[j], events[i].peer, events[i].request, events[i].now)
            else Settled(states[k], states[k + 1], CheckTime(events[k]),
                         events[i].peer, events[i].request, events[i].now)
    ensures SentTo(states[i], states[k], events[i].peer, None)
    ensures forall e | i < e < k && Commits(states[e], events[e]) ::
              MayWait(states[e + 1], events[e].now, events[i].request, events[i].now)
  {
    hide Step, Settled, Waiting, CheckRequest, MayWait, Admissible, Readable;
    assert StepsTo(w, states[i], events[i], states[i + 1]);
    WaitingStarts(states[i], events[i].peer, events[i].request, events[i].now);
    k := WaitingUntilSettled(w, states, events, i + 1, j, events[i].peer, events[i].request, events[i].now);
  }
}
