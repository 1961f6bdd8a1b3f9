/** Which peers a chunk request goes to: scores, network levels, and the requests in flight. */
module PeerSelection {

  // ----- Networks -----

  datatype NetworkId = Validator | Public | Private(name: string) {
    predicate IsVfn() {
      Private? && name == "vfn"
    }

    /** A private network other than the one between a validator and its full nodes. */
    predicate IsOtherPrivate() {
      Private? && name != "vfn"
    }
  }

  const VFN_NETWORK: NetworkId := Private("vfn")

  datatype Ordering = Less | Equal | Greater

  /** The order of importance; two private networks that are both not the vfn network are each above the other. */
  function Compare(a: NetworkId, b: NetworkId): Ordering {
    if a == b then Equal
    else match a
      case Validator => Less
      case Public => Greater
      case Private(_) =>
        match b
        case Validator => Greater
        case Public => Less
        case Private(_) => if a.IsVfn() then Less else Greater
  }

  predicate AtMostOneOther(networks: set<NetworkId>) {
    forall a, b | a in networks && b in networks && a.IsOtherPrivate() && b.IsOtherPrivate() :: a == b
  }

  /** On these networks the comparison is a strict total order: asymmetric and transitive. */
  predicate IsOrderOn(networks: set<NetworkId>) {
    && (forall a, b | a in networks && b in networks :: Compare(a, b) == Less <==> Compare(b, a) == Greater)
    && (forall a, b, c | a in networks && b in networks && c in networks ::
          Compare(a, b) == Less && Compare(b, c) == Less ==> Compare(a, c) == Less)
  }

  /** The comparison orders a set of networks exactly when at most one is a private network other than vfn. */
  lemma {:induction false} OrderIff(networks: set<NetworkId>)
    ensures IsOrderOn(networks) <==> AtMostOneOther(networks)
  {
  }

  function Rank(n: NetworkId): nat {
    match n
    case Validator => 0
    case Private(_) => if n.IsVfn() then 1 else 2
    case Public => 3
  }

  lemma {:induction false} CompareIsRank(networks: set<NetworkId>, a: NetworkId, b: NetworkId)
    requires AtMostOneOther(networks) && a in networks && b in networks
    ensures Compare(a, b) == if Rank(a) < Rank(b) then Less else if Rank(a) == Rank(b) then Equal else Greater
    ensures Rank(a) == Rank(b) ==> a == b
  {
  }

  // ----- Peers and their scores -----

  datatype PeerNetworkId = PeerNetworkId(network: NetworkId, id: nat)

  const MAX_SCORE: real := 100.0
  const MIN_SCORE: real := 1.0
  const STARTING_SCORE: real := 50.0
  const STARTING_SCORE_PREFERRED: real := 100.0

  datatype Update = Success | EmptyChunk | ChunkVersionCannotBeApplied | InvalidChunk | InvalidChunkRequest | TimeOut

  predicate InRange(score: real) {
    MIN_SCORE <= score <= MAX_SCORE
  }

  function MaxReal(a: real, b: real): real {
    if a < b then b else a
  }

  function MinReal(a: real, b: real): real {
    if a < b then a else b
  }

  function UpdatedScore(score: real, update: Update): real {
    match update
    case Success => MinReal(score + 1.0, MAX_SCORE)
    case InvalidChunk => MaxReal(score * 0.8, MIN_SCORE)
    case ChunkVersionCannotBeApplied => MaxReal(score * 0.8, MIN_SCORE)
    case TimeOut => MaxReal(score * 0.95, MIN_SCORE)
    case EmptyChunk => MaxReal(score * 0.95, MIN_SCORE)
    case InvalidChunkRequest => MaxReal(score * 0.95, MIN_SCORE)
  }

  /**
   * Success raises a score by one and failures lower it, unless it is at its bound already. A wrong chunk
   * weighs more than four timeouts and less than five.
   */
  lemma {:induction false} ScoresMove(score: real, update: Update)
    requires InRange(score)
    ensures InRange(UpdatedScore(score, update))
    ensures update.Success? ==> UpdatedScore(score, update) == MinReal(score + 1.0, MAX_SCORE)
    ensures update.Success? && score < MAX_SCORE ==> score < UpdatedScore(score, update)
    ensures !update.Success? && MIN_SCORE < score ==> UpdatedScore(score, update) < score
    ensures update.InvalidChunk? || update.ChunkVersionCannotBeApplied? ==>
              var four := AfterTimeouts(score, 4);
              UpdatedScore(score, update) <= four && UpdatedScore(score, update) >= AfterTimeouts(score, 5)
              && (MIN_SCORE < four ==> UpdatedScore(score, update) < four)
    ensures update.EmptyChunk? || update.InvalidChunkRequest? || update.TimeOut? ==>
              UpdatedScore(score, update) == AfterTimeouts(score, 1)
  {
    assert AfterTimeouts(score, 1) == UpdatedScore(score, TimeOut);
    assert AfterTimeouts(score, 2) == UpdatedScore(AfterTimeouts(score, 1), TimeOut);
    assert AfterTimeouts(score, 3) == UpdatedScore(AfterTimeouts(score, 2), TimeOut);
    assert AfterTimeouts(score, 4) == UpdatedScore(AfterTimeouts(score, 3), TimeOut);
    assert AfterTimeouts(score, 5) == UpdatedScore(AfterTimeouts(score, 4), TimeOut);
  }

  function AfterTimeouts(score: real, n: nat): real {
    if n == 0 then score else UpdatedScore(AfterTimeouts(score, n - 1), TimeOut)
  }

  datatype RequestInfo = RequestInfo(
    firstRequestTime: nat,
    lastRequestTime: nat,
    multicastLevel: NetworkId,
    multicastStartTime: nat,
    lastRequestPeers: seq<PeerNetworkId>
  )

  datatype Timeouts = Timeouts(request: nat, multicast: nat)

  datatype Manager = Manager(
    peerScores: map<PeerNetworkId, real>,
    requests: map<nat, RequestInfo>,
    level: NetworkId
  )

  predicate IsTimeout(start: nat, duration: nat, now: nat) {
    start + duration <= now
  }

  predicate IsValidPeer(peer: PeerNetworkId, outbound: bool) {
    peer.network == Validator || peer.network.IsVfn() || outbound
  }

  function Enabled(m: Manager, peer: PeerNetworkId, preferred: bool, outbound: bool): Manager {
    if !IsValidPeer(peer, outbound) || peer in m.peerScores then m
    else m.(peerScores := m.peerScores[peer := if preferred then STARTING_SCORE_PREFERRED else STARTING_SCORE])
  }

  function Disabled(m: Manager, peer: PeerNetworkId): Manager {
    m.(peerScores := m.peerScores - {peer})
  }

  function Scored(m: Manager, peer: PeerNetworkId, update: Update): Manager {
    if peer in m.peerScores then m.(peerScores := m.peerScores[peer := UpdatedScore(m.peerScores[peer], update)]) else m
  }

  function Succeeded(m: Manager, peer: PeerNetworkId): Manager {
    Scored(if Compare(peer.network, m.level) == Less then m.(level := peer.network) else m, peer, Success)
  }

  function Penalized(m: Manager, peers: seq<PeerNetworkId>): Manager {
    if peers == [] then m else Scored(Penalized(m, peers[..|peers| - 1]), peers[|peers| - 1], TimeOut)
  }

  function NextLevel(level: NetworkId): NetworkId {
    if level == Validator then VFN_NETWORK else Public
  }

  /** Whether the request for `version` timed out; then its peers pay, and after long enough the level moves up. */
  function CheckedTimeout(m: Manager, timeouts: Timeouts, version: nat, now: nat): (Manager, bool) {
    var lastTime := if version in m.requests then m.requests[version].lastRequestTime else 0;
    if !IsTimeout(lastTime, timeouts.request, now) then (m, false)
    else if version !in m.requests then (m, true)
    else
      var info := m.requests[version];
      var penalized := Penalized(m, info.lastRequestPeers);
      (if IsTimeout(info.multicastStartTime, timeouts.multicast, now) then penalized.(level := NextLevel(m.level))
       else penalized, true)
  }

  function Added(m: Manager, version: nat, peers: seq<PeerNetworkId>, now: nat): Manager {
    var info :=
      if version !in m.requests then RequestInfo(now, now, m.level, now, peers)
      else
        var previous := m.requests[version];
        var restarted :=
          if m.level != previous.multicastLevel then previous.(multicastLevel := m.level, multicastStartTime := now)
          else previous;
        restarted.(lastRequestPeers := peers, lastRequestTime := now);
    m.(requests := m.requests[version := info])
  }

  function Removed(m: Manager, timeouts: Timeouts, version: nat, now: nat): Manager {
    m.(requests := map v | v in m.requests
                           && !(v < version && IsTimeout(m.requests[v].lastRequestTime, timeouts.request, now)) ::
                     m.requests[v])
  }

  // ----- Picking peers -----

  function Networks(m: Manager): set<NetworkId> {
    set peer | peer in m.peerScores :: peer.network
  }

  /** The first populated network at or above the multicast level. */
  predicate IsFirstAtOrAbove(m: Manager, n: NetworkId) {
    && n in Networks(m) && Compare(n, m.level) != Less
    && forall other | other in Networks(m) && Compare(other, m.level) != Less :: Compare(n, other) != Greater
  }

  /** The populated networks below the level, and the first populated one at or above it. */
  function Sampled(m: Manager): set<NetworkId> {
    set n | n in Networks(m) && (Compare(n, m.level) == Less || IsFirstAtOrAbove(m, n))
  }

  /** An order in which a map goes through the populated networks: each once. */
  predicate Enumerates(m: Manager, order: seq<NetworkId>) {
    && (forall i, j | 0 <= i < j < |order| :: order[i] != order[j])
    && (forall n | n in order :: n in Networks(m)) && (forall n | n in Networks(m) :: n in order)
  }

  predicate InOrder(order: seq<NetworkId>) {
    forall i, j | 0 <= i < j < |order| :: Compare(order[i], order[j]) == Less
  }

  /**
   * One known peer for each network of the order, up to the first that is not below the level, and the
   * level moves to that one; without such a network all are visited and the level stays.
   */
  predicate Picks(m: Manager, order: seq<NetworkId>, chosen: seq<PeerNetworkId>, level: NetworkId) {
    var k := |chosen|;
    && k <= |order|
    && (forall i | 0 <= i < k :: chosen[i] in m.peerScores && chosen[i].network == order[i])
    && (forall i | 0 <= i < k - 1 :: Compare(order[i], m.level) == Less)
    && if k > 0 && Compare(order[k - 1], m.level) != Less then level == order[k - 1]
       else k == |order| && level == m.level
  }

  function NetworksOf(peers: seq<PeerNetworkId>): set<NetworkId> {
    set i | 0 <= i < |peers| :: peers[i].network
  }

  /** Known peers, one for each sampled network, in the order of the networks. */
  predicate PicksOnePerNetwork(m: Manager, chosen: seq<PeerNetworkId>) {
    && (forall i | 0 <= i < |chosen| :: chosen[i] in m.peerScores)
    && (forall i, j | 0 <= i < j < |chosen| :: Compare(chosen[i].network, chosen[j].network) == Less)
    && NetworksOf(chosen) == Sampled(m)
  }

  predicate MovesLevel(m: Manager, level: NetworkId) {
    if exists n | n in Networks(m) :: Compare(n, m.level) != Less then IsFirstAtOrAbove(m, level) else level == m.level
  }

  /** A network of the order is sampled exactly when it is visited. */
  lemma {:induction false} SampledIsVisited(
    m: Manager, order: seq<NetworkId>, chosen: seq<PeerNetworkId>, level: NetworkId, i: nat)
    requires AtMostOneOther(Networks(m) + {m.level}) && Enumerates(m, order) && InOrder(order)
    requires Picks(m, order, chosen, level) && i < |order|
    ensures order[i] in Sampled(m) <==> i < |chosen|
    ensures Compare(order[i], m.level) != Less && i < |chosen| ==> IsFirstAtOrAbove(m, order[i]) && level == order[i]
  {
    var known, k := Networks(m) + {m.level}, |chosen|;
    assert order[i] in known;
    CompareIsRank(known, order[i], m.level);
    forall j | 0 <= j < |order|
      ensures i < j ==> Rank(order[i]) < Rank(order[j])
      ensures j < i ==> Rank(order[j]) < Rank(order[i])
      ensures Compare(order[i], order[j]) == Greater <==> j < i
    {
      assert order[j] in known;
      CompareIsRank(known, order[i], order[j]);
      CompareIsRank(known, order[j], order[i]);
    }
    if k > 0 && i >= k {
      assert order[k - 1] in known;
      CompareIsRank(known, order[k - 1], m.level);
    }
  }

  /**
   * Through ordered networks, one peer of each populated network below the level and of the first at or
   * above it is picked, and the level moves to that one.
   */
  lemma {:induction false} OrderedPick(m: Manager, order: seq<NetworkId>, chosen: seq<PeerNetworkId>, level: NetworkId)
    requires AtMostOneOther(Networks(m) + {m.level}) && Enumerates(m, order) && InOrder(order)
    requires Picks(m, order, chosen, level)
    ensures PicksOnePerNetwork(m, chosen) && MovesLevel(m, level)
  {
    hide Sampled, IsFirstAtOrAbove;
    forall n
      ensures n in NetworksOf(chosen) <==> n in Sampled(m)
    {
      SampledIsPopulated(m, n);
      if n in order {
        var i :| 0 <= i < |order| && order[i] == n;
        SampledIsVisited(m, order, chosen, level, i);
        assert i < |chosen| ==> chosen[i].network == n;
      }
    }
    if |chosen| > 0 {
      SampledIsVisited(m, order, chosen, level, |chosen| - 1);
    }
  }

  lemma {:induction false} SampledIsPopulated(m: Manager, n: NetworkId)
    ensures n in Sampled(m) ==> n in Networks(m)
  {
  }

  predicate ScoresInRange(m: Manager) {
    forall peer | peer in m.peerScores :: InRange(m.peerScores[peer])
  }

  class RequestManager {
    var peerScores: map<PeerNetworkId, real>
    var requests: map<nat, RequestInfo>
    var multicastNetworkLevel: NetworkId
    const timeouts: Timeouts

    ghost function AsManager(): Manager
      reads this
    {
      Manager(peerScores, requests, multicastNetworkLevel)
    }

    constructor (timeouts: Timeouts)
      ensures AsManager() == Manager(map[], map[], Validator) && this.timeouts == timeouts
    {
      peerScores, requests, multicastNetworkLevel := map[], map[], Validator;
      this.timeouts := timeouts;
    }

    method EnablePeer(peer: PeerNetworkId, preferred: bool, outbound: bool) returns (known: bool)
      modifies this
      ensures AsManager() == Enabled(old(AsManager()), peer, preferred, outbound)
      ensures known ==> peer in peerScores
      ensures !known ==> AsManager() == old(AsManager())
    {
      known := IsValidPeer(peer, outbound);
      if known && peer !in peerScores {
        peerScores := peerScores[peer := if preferred then STARTING_SCORE_PREFERRED else STARTING_SCORE];
      }
    }

    method DisablePeer(peer: PeerNetworkId)
      modifies this
      ensures AsManager() == Disabled(old(AsManager()), peer)
    {
      peerScores := peerScores - {peer};
    }

    method AddRequest(version: nat, peers: seq<PeerNetworkId>, now: nat)
      modifies this
      ensures AsManager() == Added(old(AsManager()), version, peers, now)
    {
      if version in requests {
        var previous := requests[version];
        if multicastNetworkLevel != previous.multicastLevel {
          previous := previous.(multicastLevel := multicastNetworkLevel, multicastStartTime := now);
        }
        requests := requests[version := previous.(lastRequestPeers := peers, lastRequestTime := now)];
      } else {
        requests := requests[version := RequestInfo(now, now, multicastNetworkLevel, now, peers)];
      }
    }

    method RemoveRequests(version: nat, now: nat)
      modifies this
      ensures AsManager() == Removed(old(AsManager()), timeouts, version, now)
    {
      var stale :=
        set v | v in requests && v < version && IsTimeout(requests[v].lastRequestTime, timeouts.request, now);
      requests := requests - stale;
    }

    method ProcessSuccessResponse(peer: PeerNetworkId)
      modifies this
      ensures AsManager() == Succeeded(old(AsManager()), peer)
    {
      if Compare(peer.network, multicastNetworkLevel) == Less {
        multicastNetworkLevel := peer.network;
      }
      UpdateScore(peer, Success);
    }

    method UpdateScore(peer: PeerNetworkId, update: Update)
      modifies this
      ensures AsManager() == Scored(old(AsManager()), peer, update)
    {
      if peer in peerScores {
        var oldScore := peerScores[peer];
        var newScore := oldScore;
        match update {
          case Success =>
            newScore := oldScore + 1.0;
            newScore := if newScore < MAX_SCORE then newScore else MAX_SCORE;
          case InvalidChunk | ChunkVersionCannotBeApplied =>
            newScore := oldScore * 0.8;
            newScore := if newScore < MIN_SCORE then MIN_SCORE else newScore;
          case TimeOut | EmptyChunk | InvalidChunkRequest =>
            newScore := oldScore * 0.95;
            newScore := if newScore < MIN_SCORE then MIN_SCORE else newScore;
        }
        peerScores := peerScores[peer := newScore];
      }
    }

    method HasRequestTimedOut(version: nat, now: nat) returns (r: bool)
      modifies this
      ensures (AsManager(), r) == CheckedTimeout(old(AsManager()), timeouts, version, now)
    {
      var lastRequestTime := if version in requests then requests[version].lastRequestTime else 0;
      r := IsTimeout(lastRequestTime, timeouts.request, now);
      if !r || version !in requests {
        return;
      }
      var info := requests[version];
      var peers := info.lastRequestPeers;
      for i := 0 to |peers|
        invariant AsManager() == Penalized(old(AsManager()), peers[..i])
      {
        assert peers[..i + 1][..i] == peers[..i];
        UpdateScore(peers[i], TimeOut);
      }
      assert peers[..|peers|] == peers;
      PenaltiesOnlyScore(old(AsManager()), peers);
      if IsTimeout(info.multicastStartTime, timeouts.multicast, now) {
        multicastNetworkLevel := if multicastNetworkLevel == Validator then VFN_NETWORK else Public;
      }
    }

    /** Samples one peer of the network; every peer with a positive score may come out. */
    method PickPeer(network: NetworkId) returns (peer: PeerNetworkId)
      requires ScoresInRange(AsManager()) && network in Networks(AsManager())
      ensures peer in peerScores && peer.network == network
    {
      peer :| peer in peerScores && peer.network == network && peerScores[peer] > 0.0;
    }

    /**
     * Goes through the populated networks, up to the first at or above the multicast level. `order` is
     * the order in which the map of networks is gone through.
     */
    method PickPeers(order: seq<NetworkId>) returns (chosen: seq<PeerNetworkId>)
      requires ScoresInRange(AsManager()) && Enumerates(AsManager(), order)
      modifies this`multicastNetworkLevel
      ensures Picks(old(AsManager()), order, chosen, multicastNetworkLevel)
      ensures chosen == [] <==> peerScores == map[]
    {
      ghost var m := AsManager();
      chosen := [];
      for i := 0 to |order|
        invariant AsManager() == m && |chosen| == i
        invariant forall k | 0 <= k < i :: chosen[k] in m.peerScores && chosen[k].network == order[k]
        invariant forall k | 0 <= k < i :: Compare(order[k], m.level) == Less
      {
        assert order[i] in order;
        var peer := PickPeer(order[i]);
        chosen := chosen + [peer];
        if Compare(order[i], multicastNetworkLevel) != Less {
          multicastNetworkLevel := order[i];
          return;
        }
      }
      EmptyIff(m, order);
    }
  }

  lemma {:induction false} EmptyIff(m: Manager, order: seq<NetworkId>)
    requires Enumerates(m, order)
    ensures order == [] <==> m.peerScores == map[]
  {
    if order != [] {
      assert order[0] in Networks(m);
    }
    if m.peerScores != map[] {
      var peer :| peer in m.peerScores;
      assert peer.network in Networks(m);
    }
  }

  lemma {:induction false} PenaltiesOnlyScore(m: Manager, peers: seq<PeerNetworkId>)
    ensures Penalized(m, peers).requests == m.requests && Penalized(m, peers).level == m.level
    ensures Penalized(m, peers).peerScores.Keys == m.peerScores.Keys
  {
    if peers != [] {
      PenaltiesOnlyScore(m, peers[..|peers| - 1]);
    }
  }

  // ----- Runs -----

  datatype Action =
    | Enable(peer: PeerNetworkId, preferred: bool, outbound: bool)
    | Disable(peer: PeerNetworkId)
    | Score(peer: PeerNetworkId, update: Update)
    | Succeed(peer: PeerNetworkId)
    | Pick(order: seq<NetworkId>, chosen: seq<PeerNetworkId>)
    | Add(version: nat, peers: seq<PeerNetworkId>, now: nat)
    | Remove(version: nat, now: nat)
    | CheckTimeout(version: nat, now: nat)

  predicate Acts(timeouts: Timeouts, m: Manager, action: Action, after: Manager) {
    match action
    case Enable(peer, preferred, outbound) => after == Enabled(m, peer, preferred, outbound)
    case Disable(peer) => after == Disabled(m, peer)
    case Score(peer, update) => after == Scored(m, peer, update)
    case Succeed(peer) => after == Succeeded(m, peer)
    case Pick(order, chosen) =>
      Enumerates(m, order) && Picks(m, order, chosen, after.level) && after == m.(level := after.level)
    case Add(version, peers, now) => after == Added(m, version, peers, now)
    case Remove(version, now) => after == Removed(m, timeouts, version, now)
    case CheckTimeout(version, now) => after == CheckedTimeout(m, timeouts, version, now).0
  }

  lemma {:induction false} PenaltiesKeepRange(m: Manager, peers: seq<PeerNetworkId>)
    requires ScoresInRange(m)
    ensures ScoresInRange(Penalized(m, peers))
  {
    if peers != [] {
      PenaltiesKeepRange(m, peers[..|peers| - 1]);
    }
  }

  lemma {:induction false} ActionsKeepRange(timeouts: Timeouts, m: Manager, action: Action, after: Manager)
    requires ScoresInRange(m) && Acts(timeouts, m, action, after)
    ensures ScoresInRange(after)
  {
    if action.CheckTimeout? && action.version in m.requests {
      PenaltiesKeepRange(m, m.requests[action.version].lastRequestPeers);
    }
  }

  predicate IsRun(timeouts: Timeouts, states: seq<Manager>, actions: seq<Action>) {
    && |states| == |actions| + 1
    && states[0] == Manager(map[], map[], Validator)
    && forall k | 0 <= k < |actions| :: Acts(timeouts, states[k], actions[k], states[k + 1])
  }

  /** Over every run from the start, scores stay between 1 and 100. */
  lemma {:induction false} ScoresStayInRange(timeouts: Timeouts, states: seq<Manager>, actions: seq<Action>, n: nat)
    requires IsRun(timeouts, states, actions) && n <= |actions|
    ensures ScoresInRange(states[n])
  {
    if n > 0 {
      ScoresStayInRange(timeouts, states, actions, n - 1);
      ActionsKeepRange(timeouts, states[n - 1], actions[n - 1], states[n]);
    }
  }

  /** Over every run, in whatever order networks are gone through, nobody is picked only when nobody is known. */
  lemma {:induction false} PicksWheneverPossible(
    timeouts: Timeouts, states: seq<Manager>, actions: seq<Action>, k: nat)
    requires IsRun(timeouts, states, actions) && k < |actions| && actions[k].Pick?
    ensures actions[k].chosen == [] <==> states[k].peerScores == map[]
    ensures forall peer | peer in states[k].peerScores :: states[k].peerScores[peer] > 0.0
  {
    ScoresStayInRange(timeouts, states, actions, k);
    assert Acts(timeouts, states[k], actions[k], states[k + 1]);
    EmptyIff(states[k], actions[k].order);
  }

  /** At the public level a request goes to one peer of every populated network. */
  lemma {:induction false} PublicLevelReachesAll(m: Manager, chosen: seq<PeerNetworkId>)
    requires m.level == Public && PicksOnePerNetwork(m, chosen)
    ensures NetworksOf(chosen) == Networks(m)
  {
  }

  // ----- What is known after a run -----

  /** The validator and vfn networks are trusted in both directions; elsewhere only peers that this node dialed. */
  predicate Admits(action: Action, peer: PeerNetworkId) {
    && action.Enable? && action.peer == peer
    && (action.outbound || peer.network == Validator || peer.network == VFN_NETWORK)
  }

  /** The peer was admitted at `k` and has not been disabled since. */
  predicate EnabledSince(actions: seq<Action>, n: nat, peer: PeerNetworkId, k: nat)
    requires n <= |actions|
  {
    k < n && Admits(actions[k], peer) && forall j | k < j < n :: actions[j] != Disable(peer)
  }

  /** Over every run, the known peers are exactly those that were admitted and have not been disabled since. */
  lemma {:induction false} KnownIff(
    timeouts: Timeouts, states: seq<Manager>, actions: seq<Action>, n: nat, peer: PeerNetworkId)
    requires IsRun(timeouts, states, actions) && n <= |actions|
    ensures peer in states[n].peerScores <==> exists k: nat :: EnabledSince(actions, n, peer, k)
  {
    if n > 0 {
      var m, action, after := states[n - 1], actions[n - 1], states[n];
      KnownIff(timeouts, states, actions, n - 1, peer);
      assert Acts(timeouts, m, action, after);
      KnownStep(timeouts, m, action, after, peer);
      forall k: nat
        ensures EnabledSince(actions, n, peer, k)
           <==> || (k == n - 1 && Admits(action, peer))
                || (EnabledSince(actions, n - 1, peer, k) && action != Disable(peer))
      {
        StillEnabled(actions, n, peer, k);
      }
      if Admits(action, peer) {
        assert EnabledSince(actions, n, peer, n - 1);
      } else if peer in m.peerScores && action != Disable(peer) {
        var k: nat :| EnabledSince(actions, n - 1, peer, k);
        assert EnabledSince(actions, n, peer, k);
      }
    }
  }

  lemma {:induction false} StillEnabled(actions: seq<Action>, n: nat, peer: PeerNetworkId, k: nat)
    requires 0 < n <= |actions|
    ensures EnabledSince(actions, n, peer, k)
       <==> || (k == n - 1 && Admits(actions[n - 1], peer))
            || (EnabledSince(actions, n - 1, peer, k) && actions[n - 1] != Disable(peer))
  {
  }

  lemma {:induction false} KnownStep(
    timeouts: Timeouts, m: Manager, action: Action, after: Manager, peer: PeerNetworkId)
    requires Acts(timeouts, m, action, after)
    ensures peer in after.peerScores
       <==> Admits(action, peer) || (peer in m.peerScores && action != Disable(peer))
  {
    if action.CheckTimeout? && action.version in m.requests {
      PenaltiesOnlyScore(m, m.requests[action.version].lastRequestPeers);
    }
  }

  /** A peer starts at the top if it is preferred, and halfway otherwise; a known peer keeps its score. */
  lemma {:induction false} StartingScores(m: Manager, peer: PeerNetworkId, preferred: bool, outbound: bool)
    requires Admits(Enable(peer, preferred, outbound), peer)
    ensures var after := Enabled(m, peer, preferred, outbound);
            && peer in after.peerScores
            && (peer in m.peerScores ==> after == m)
            && (peer !in m.peerScores && preferred ==> after.peerScores[peer] == MAX_SCORE)
            && (peer !in m.peerScores && !preferred ==> 2.0 * after.peerScores[peer] == MAX_SCORE)
  {
  }

  // ----- Requests in flight -----

  /** The action asks for the version again, or forgets the request for it that was sent at `since`. */
  predicate Supersedes(timeouts: Timeouts, action: Action, version: nat, since: nat) {
    || (action.Add? && action.version == version)
    || (action.Remove? && version < action.version && since + timeouts.request <= action.now)
  }

  /** The version was last asked for at `k`, and that has not been forgotten. */
  predicate PendingSince(timeouts: Timeouts, actions: seq<Action>, n: nat, version: nat, k: nat)
    requires n <= |actions|
  {
    && k < n && actions[k].Add? && actions[k].version == version
    && forall j | k < j < n :: !Supersedes(timeouts, actions[j], version, actions[k].now)
  }

  /** What the manager remembers of the request that was sent at `k`. */
  predicate Remembers(m: Manager, action: Action, version: nat)
    requires action.Add?
  {
    && version in m.requests
    && m.requests[version].lastRequestTime == action.now
    && m.requests[version].lastRequestPeers == action.peers
  }

  lemma {:induction false} RequestStays(
    timeouts: Timeouts, m: Manager, action: Action, after: Manager, version: nat)
    requires Acts(timeouts, m, action, after) && !(action.Add? && action.version == version)
    ensures version in after.requests
       <==> version in m.requests
            && !Supersedes(timeouts, action, version, m.requests[version].lastRequestTime)
    ensures version in after.requests ==> after.requests[version] == m.requests[version]
  {
    if action.CheckTimeout? && action.version in m.requests {
      PenaltiesOnlyScore(m, m.requests[action.version].lastRequestPeers);
    }
  }

  /**
   * Over every run, a request is in flight exactly when it was sent and has not been forgotten, and it is
   * remembered with the time and the peers of the last time it was sent.
   */
  lemma {:induction false} PendingIff(
    timeouts: Timeouts, states: seq<Manager>, actions: seq<Action>, n: nat, version: nat)
    requires IsRun(timeouts, states, actions) && n <= |actions|
    ensures version in states[n].requests <==> exists k: nat :: PendingSince(timeouts, actions, n, version, k)
    ensures forall k: nat | PendingSince(timeouts, actions, n, version, k) ::
              Remembers(states[n], actions[k], version)
  {
    hide Supersedes;
    if n > 0 {
      var m, action, after := states[n - 1], actions[n - 1], states[n];
      PendingIff(timeouts, states, actions, n - 1, version);
      assert Acts(timeouts, m, action, after);
      if action.Add? && action.version == version {
        assert PendingSince(timeouts, actions, n, version, n - 1);
        assert after == Added(m, version, action.peers, action.now);
        forall k: nat | PendingSince(timeouts, actions, n, version, k)
          ensures k == n - 1
        {
          AddedIsPending(timeouts, actions, n, k);
        }
      } else {
        RequestStays(timeouts, m, action, after, version);
        forall k: nat
          ensures PendingSince(timeouts, actions, n, version, k)
             <==> && PendingSince(timeouts, actions, n - 1, version, k)
                  && !Supersedes(timeouts, action, version, actions[k].now)
        {
          StillPending(timeouts, actions, n, version, k);
        }
      }
    }
  }

  lemma {:induction false} AddedIsPending(timeouts: Timeouts, actions: seq<Action>, n: nat, k: nat)
    requires 0 < n <= |actions| && actions[n - 1].Add?
    ensures PendingSince(timeouts, actions, n, actions[n - 1].version, k) ==> k == n - 1
  {
  }

  lemma {:induction false} StillPending(timeouts: Timeouts, actions: seq<Action>, n: nat, version: nat, k: nat)
    requires 0 < n <= |actions| && !(actions[n - 1].Add? && actions[n - 1].version == version)
    ensures PendingSince(timeouts, actions, n, version, k)
       <==> && PendingSince(timeouts, actions, n - 1, version, k)
            && !Supersedes(timeouts, actions[n - 1], version, actions[k].now)
  {
    hide Supersedes;
  }

  // ----- Timeouts -----

  /** Over every run, a request has timed out exactly when its time has passed since it was last sent, if it was. */
  lemma {:induction false} TimedOutIff(
    timeouts: Timeouts, states: seq<Manager>, actions: seq<Action>, n: nat, version: nat, now: nat)
    requires IsRun(timeouts, states, actions) && n <= |actions|
    ensures var timedOut := CheckedTimeout(states[n], timeouts, version, now).1;
            && (forall k: nat | PendingSince(timeouts, actions, n, version, k) ::
                  timedOut <==> actions[k].now + timeouts.request <= now)
            && ((forall k: nat :: !PendingSince(timeouts, actions, n, version, k)) ==>
                  (timedOut <==> timeouts.request <= now))
  {
    hide Penalized, Supersedes;
    PendingIff(timeouts, states, actions, n, version);
  }

  /** Every peer pays once for each time that it was asked. */
  lemma {:induction false} PenaltiesAre(m: Manager, peers: seq<PeerNetworkId>, peer: PeerNetworkId)
    requires peer in m.peerScores
    ensures peer in Penalized(m, peers).peerScores
    ensures Penalized(m, peers).peerScores[peer] == AfterTimeouts(m.peerScores[peer], multiset(peers)[peer])
  {
    if peers != [] {
      var front := peers[..|peers| - 1];
      PenaltiesAre(m, front, peer);
      assert peers == front + [peers[|peers| - 1]];
    }
  }

  /**
   * Over every run, a request that times out costs exactly the peers it was last sent to, each once for
   * every time it is listed; without a timeout nothing changes.
   */
  lemma {:induction false} TimeoutCosts(
    timeouts: Timeouts, states: seq<Manager>, actions: seq<Action>, n: nat, k: nat, version: nat, now: nat,
    peer: PeerNetworkId)
    requires IsRun(timeouts, states, actions) && n <= |actions| && PendingSince(timeouts, actions, n, version, k)
    requires peer in states[n].peerScores
    ensures var (after, timedOut) := CheckedTimeout(states[n], timeouts, version, now);
            && peer in after.peerScores
            && after.peerScores[peer]
               == AfterTimeouts(states[n].peerScores[peer], if timedOut then multiset(actions[k].peers)[peer] else 0)
            && after.requests == states[n].requests
            && (!timedOut ==> after == states[n])
  {
    hide Penalized, AfterTimeouts, Supersedes;
    PendingIff(timeouts, states, actions, n, version);
    assert Remembers(states[n], actions[k], version);
    PenaltiesAre(states[n], actions[k].peers, peer);
    PenaltiesOnlyScore(states[n], actions[k].peers);
    NoTimeouts(states[n].peerScores[peer]);
  }

  lemma {:induction false} NoTimeouts(score: real)
    ensures AfterTimeouts(score, 0) == score
  {
  }

  // ----- The multicast level -----

  /** The version has been asked for at one level since `s`: before that it was not in flight, or at another level. */
  predicate AtLevelSince(states: seq<Manager>, actions: seq<Action>, n: nat, version: nat, s: nat)
    requires n < |states| == |actions| + 1
  {
    && s < n && actions[s].Add? && actions[s].version == version
    && (version in states[s].requests ==> states[s].requests[version].multicastLevel != states[s].level)
    && forall j | s <= j < n && actions[j].Add? && actions[j].version == version ::
         states[j].level == states[s].level
  }

  /** Over every run, a request in flight knows its level and since when it has been asked for at that level. */
  lemma {:induction false} LevelIsTimed(
    timeouts: Timeouts, states: seq<Manager>, actions: seq<Action>, n: nat, version: nat)
    returns (s: nat)
    requires IsRun(timeouts, states, actions) && n <= |actions| && version in states[n].requests
    ensures AtLevelSince(states, actions, n, version, s)
    ensures states[n].requests[version].multicastLevel == states[s].level
    ensures states[n].requests[version].multicastStartTime == actions[s].now
  {
    assert n > 0;
    var m, action, after := states[n - 1], actions[n - 1], states[n];
    assert Acts(timeouts, m, action, after);
    if action.Add? && action.version == version {
      if version in m.requests && m.requests[version].multicastLevel == m.level {
        s := LevelIsTimed(timeouts, states, actions, n - 1, version);
      } else {
        s := n - 1;
      }
    } else {
      RequestStays(timeouts, m, action, after, version);
      s := LevelIsTimed(timeouts, states, actions, n - 1, version);
    }
  }

  /**
   * Over every run, the level moves up at a check exactly when the request timed out and has been asked
   * for at one level for as long as the multicast timeout.
   */
  lemma {:induction false} EscalatesIff(
    timeouts: Timeouts, states: seq<Manager>, actions: seq<Action>, n: nat, version: nat, now: nat)
    returns (s: nat)
    requires IsRun(timeouts, states, actions) && n <= |actions| && version in states[n].requests
    ensures AtLevelSince(states, actions, n, version, s)
    ensures var (after, timedOut) := CheckedTimeout(states[n], timeouts, version, now);
            after.level == if timedOut && actions[s].now + timeouts.multicast <= now then NextLevel(states[n].level)
                           else states[n].level
  {
    hide AtLevelSince, Penalized;
    s := LevelIsTimed(timeouts, states, actions, n, version);
    PenaltiesOnlyScore(states[n], states[n].requests[version].lastRequestPeers);
  }

  /** From the validator level no network is passed over, and two moves up reach every network. */
  lemma {:induction false} LevelsMoveUp(level: NetworkId, network: NetworkId)
    ensures Rank(level) <= Rank(NextLevel(level))
    ensures level == Validator && network != Validator ==> Rank(NextLevel(level)) <= Rank(network)
    ensures Rank(network) <= Rank(NextLevel(NextLevel(level)))
  {
  }

  /** A success over a more important network brings the level back to it; other successes leave the level. */
  lemma {:induction false} SuccessLowersLevel(m: Manager, peer: PeerNetworkId)
    requires AtMostOneOther({m.level, peer.network})
    ensures var after := Succeeded(m, peer);
            && Rank(after.level) == (if Rank(peer.network) < Rank(m.level) then Rank(peer.network) else Rank(m.level))
            && (after.level == m.level || after.level == peer.network)
            && (peer in m.peerScores ==>
                  peer in after.peerScores && after.peerScores[peer] == UpdatedScore(m.peerScores[peer], Success))
  {
    CompareIsRank({m.level, peer.network}, peer.network, m.level);
  }
}
