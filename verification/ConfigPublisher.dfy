/** On-chain configurations: a cached copy of them, and the subscribers that are told about changes. */
module ConfigPublisher {
  import opened LedgerTypes

  type ConfigId = nat

  type EventKey = nat

  datatype Payload = Payload(epoch: nat, configs: map<ConfigId, nat>)

  /** A subscriber, with the payload that was last pushed into its one-place channel. */
  datatype Subscription = Subscription(configs: set<ConfigId>, events: set<EventKey>, last: Payload)

  datatype PublishError = FetchFailed | PublishFailed

  /** What the proxy holds: the subscriptions and the cached configurations. */
  datatype Proxy = Proxy(subscriptions: seq<Subscription>, cache: Payload)

  function ChangedConfigs(before: Payload, after: Payload): set<ConfigId>
    requires after.configs.Keys <= before.configs.Keys
  {
    set id | id in after.configs && before.configs[id] != after.configs[id]
  }

  predicate IsAffected(s: Subscription, changed: set<ConfigId>, events: set<EventKey>) {
    !(changed !! s.configs) || !(events !! s.events)
  }

  /** Subscriber `i` after the notifications: told if affected and if the push does not fail. */
  function Notified(
    subscriptions: seq<Subscription>, changed: set<ConfigId>, events: set<EventKey>, payload: Payload,
    failing: set<nat>, i: nat): Subscription
    requires i < |subscriptions|
  {
    var s := subscriptions[i];
    if IsAffected(s, changed, events) && i !in failing then s.(last := payload) else s
  }

  /** One call: the fetched configurations, and the subscribers whose channel is closed, are inputs. */
  datatype Call = Call(events: set<EventKey>, fetched: Result<Payload, PublishError>, failing: set<nat>)

  /** Every payload holds every registered configuration. */
  predicate Complete(registry: set<ConfigId>, payload: Payload) {
    payload.configs.Keys == registry
  }

  predicate WellFormed(registry: set<ConfigId>, p: Proxy, call: Call) {
    Complete(registry, p.cache) && (call.fetched.Ok? ==> Complete(registry, call.fetched.value))
  }

  predicate MustPublish(call: Call) {
    call.events != {} && call.fetched.Ok?
  }

  predicate SomePushFails(p: Proxy, call: Call)
    requires call.fetched.Ok? && call.fetched.value.configs.Keys <= p.cache.configs.Keys
  {
    var changed := ChangedConfigs(p.cache, call.fetched.value);
    exists i | 0 <= i < |p.subscriptions| :: i in call.failing && IsAffected(p.subscriptions[i], changed, call.events)
  }

  function Publish(registry: set<ConfigId>, p: Proxy, call: Call): (Proxy, Result<(), PublishError>)
    requires WellFormed(registry, p, call)
  {
    if call.events == {} then (p, Ok(()))
    else if call.fetched.Err? then (p, Err(FetchFailed))
    else
      var payload := call.fetched.value;
      var changed := ChangedConfigs(p.cache, payload);
      var told := seq(|p.subscriptions|, i requires 0 <= i < |p.subscriptions| =>
        Notified(p.subscriptions, changed, call.events, payload, call.failing, i));
      (Proxy(told, payload), if SomePushFails(p, call) then Err(PublishFailed) else Ok(()))
  }

  class ExecutorProxy {
    const registry: set<ConfigId>
    var reconfigSubscriptions: seq<Subscription>
    var onChainConfigs: Payload

    ghost function AsProxy(): Proxy
      reads this
    {
      Proxy(reconfigSubscriptions, onChainConfigs)
    }

    /** Every subscriber starts with the initial configurations; a failure there aborts the start. */
    constructor (registry: set<ConfigId>, initial: Payload, bundles: seq<Subscription>)
      requires Complete(registry, initial)
      ensures this.registry == registry && onChainConfigs == initial
      ensures |reconfigSubscriptions| == |bundles|
      ensures forall i | 0 <= i < |bundles| :: reconfigSubscriptions[i] == bundles[i].(last := initial)
      ensures Coherent(AsProxy())
    {
      this.registry := registry;
      onChainConfigs := initial;
      reconfigSubscriptions := seq(|bundles|, i requires 0 <= i < |bundles| => bundles[i].(last := initial));
    }

    method PublishOnChainConfigUpdates(call: Call) returns (r: Result<(), PublishError>)
      requires WellFormed(registry, AsProxy(), call)
      modifies this
      ensures (AsProxy(), r) == Publish(registry, old(AsProxy()), call)
    {
      if call.events == {} {
        return Ok(());
      }
      if call.fetched.Err? {
        return Err(FetchFailed);
      }
      var newConfigs := call.fetched.value;
      var changed := ChangedConfigs(onChainConfigs, newConfigs);
      ghost var before := reconfigSubscriptions;
      var success := true;
      for i := 0 to |reconfigSubscriptions|
        invariant |reconfigSubscriptions| == |before| && onChainConfigs == old(onChainConfigs)
        invariant forall k | 0 <= k < i ::
                    reconfigSubscriptions[k] == Notified(before, changed, call.events, newConfigs, call.failing, k)
        invariant forall k | i <= k < |before| :: reconfigSubscriptions[k] == before[k]
        invariant success <==>
                    !exists k | 0 <= k < i :: k in call.failing && IsAffected(before[k], changed, call.events)
      {
        var subscription := reconfigSubscriptions[i];
        if IsAffected(subscription, changed, call.events) {
          if i in call.failing {
            success := false;
          } else {
            reconfigSubscriptions := reconfigSubscriptions[i := subscription.(last := newConfigs)];
          }
        }
      }
      onChainConfigs := newConfigs;
      assert reconfigSubscriptions == Publish(registry, old(AsProxy()), call).0.subscriptions;
      assert success <==> !SomePushFails(old(AsProxy()), call);
      if success {
        r := Ok(());
      } else {
        r := Err(PublishFailed);
      }
    }
  }

  // ----- Coherence -----

  /** What the subscriber last received agrees with the cache on every configuration it subscribes to. */
  predicate InformedOf(s: Subscription, cache: Payload) {
    forall id | id in s.configs && id in cache.configs ::
      id in s.last.configs && s.last.configs[id] == cache.configs[id]
  }

  predicate Coherent(p: Proxy) {
    forall i | 0 <= i < |p.subscriptions| :: InformedOf(p.subscriptions[i], p.cache)
  }

  /** One of the subscriber's configurations changes in this call, but it cannot be told. */
  predicate Misses(p: Proxy, call: Call, i: nat)
    requires i < |p.subscriptions|
  {
    && MustPublish(call) && i in call.failing
    && exists id | id in call.fetched.value.configs ::
         && id in p.subscriptions[i].configs
         && id in p.cache.configs && p.cache.configs[id] != call.fetched.value.configs[id]
  }

  /**
   * A subscriber that agrees with the cache goes on agreeing with it exactly when it does not miss a
   * change: being skipped does no harm, nor does a failed fetch or a failed push of an event alone.
   */
  lemma {:induction false} StaysInformed(registry: set<ConfigId>, p: Proxy, call: Call, i: nat)
    requires WellFormed(registry, p, call) && i < |p.subscriptions| && InformedOf(p.subscriptions[i], p.cache)
    ensures var after := Publish(registry, p, call).0;
            |after.subscriptions| == |p.subscriptions|
            && (InformedOf(after.subscriptions[i], after.cache) <==> !Misses(p, call, i))
  {
  }

  /** Some configuration of the subscriber changes, or some event of it was emitted. */
  predicate Concerns(p: Proxy, call: Call, i: nat)
    requires i < |p.subscriptions| && call.fetched.Ok?
  {
    var s, fetched := p.subscriptions[i], call.fetched.value;
    || (exists id | id in s.configs ::
          id in fetched.configs && id in p.cache.configs && p.cache.configs[id] != fetched.configs[id])
    || (exists key | key in s.events :: key in call.events)
  }

  /**
   * Who is told what: with an event, and with configurations that could be fetched, exactly the subscribers
   * that the call concerns and whose channel is open get the fetched configurations, and those are cached.
   * The call reports a failure exactly when a concerned subscriber could not be told.
   */
  lemma {:induction false} ToldIffConcerned(registry: set<ConfigId>, p: Proxy, call: Call, i: nat)
    requires WellFormed(registry, p, call) && i < |p.subscriptions|
    ensures var (after, r) := Publish(registry, p, call);
            && |after.subscriptions| == |p.subscriptions|
            && (if !MustPublish(call) then after == p
                else
                  && after.cache == call.fetched.value
                  && after.subscriptions[i] == (if Concerns(p, call, i) && i !in call.failing
                                                then p.subscriptions[i].(last := call.fetched.value)
                                                else p.subscriptions[i])
                  && (Concerns(p, call, i) && i in call.failing ==> r == Err(PublishFailed)))
            && (call.events != {} && call.fetched.Err? ==> r == Err(FetchFailed))
            && (call.events == {} ==> r == Ok(()))
            && (r == Err(PublishFailed) ==>
                  && MustPublish(call)
                  && exists k | 0 <= k < |p.subscriptions| :: k in call.failing && Concerns(p, call, k))
  {
    if MustPublish(call) {
      forall k | 0 <= k < |p.subscriptions|
        ensures IsAffected(p.subscriptions[k], ChangedConfigs(p.cache, call.fetched.value), call.events)
           <==> Concerns(p, call, k)
      {
        AffectedIsConcerned(registry, p, call, k);
      }
    }
  }

  lemma {:induction false} AffectedIsConcerned(registry: set<ConfigId>, p: Proxy, call: Call, k: nat)
    requires WellFormed(registry, p, call) && k < |p.subscriptions| && call.fetched.Ok?
    ensures IsAffected(p.subscriptions[k], ChangedConfigs(p.cache, call.fetched.value), call.events)
       <==> Concerns(p, call, k)
  {
    var s, changed := p.subscriptions[k], ChangedConfigs(p.cache, call.fetched.value);
    if id :| id in changed && id in s.configs {
      assert Concerns(p, call, k);
    } else if key :| key in call.events && key in s.events {
      assert Concerns(p, call, k);
    } else {
      assert forall id | id in s.configs :: id !in changed;
      assert !Concerns(p, call, k);
    }
  }

  /** A change that was missed is not repeated: the subscriber stays behind until something else affects it. */
  lemma {:induction false} MissedIsNotRepeated(registry: set<ConfigId>, p: Proxy, call: Call, i: nat)
    requires WellFormed(registry, p, call) && i < |p.subscriptions| && !InformedOf(p.subscriptions[i], p.cache)
    requires MustPublish(call) ==>
               !IsAffected(p.subscriptions[i], ChangedConfigs(p.cache, call.fetched.value), call.events)
    ensures var after := Publish(registry, p, call).0;
            !InformedOf(after.subscriptions[i], after.cache)
  {
  }

  // ----- Runs -----

  predicate IsRun(registry: set<ConfigId>, states: seq<Proxy>, calls: seq<Call>) {
    && |states| == |calls| + 1
    && forall k | 0 <= k < |calls| :: RunsTo(registry, states[k], calls[k], states[k + 1])
  }

  predicate RunsTo(registry: set<ConfigId>, p: Proxy, call: Call, q: Proxy) {
    WellFormed(registry, p, call) && q == Publish(registry, p, call).0
  }

  /** Over every run in which nobody misses a change, every subscriber agrees with the cache at every point. */
  lemma {:induction false} RunsStayCoherent(registry: set<ConfigId>, states: seq<Proxy>, calls: seq<Call>, n: nat)
    requires IsRun(registry, states, calls) && n <= |calls| && Coherent(states[0])
    requires forall k, i | 0 <= k < n && 0 <= i < |states[k].subscriptions| :: !Misses(states[k], calls[k], i)
    ensures Coherent(states[n])
    decreases n
  {
    if n > 0 {
      RunsStayCoherent(registry, states, calls, n - 1);
      assert RunsTo(registry, states[n - 1], calls[n - 1], states[n]);
      forall i | 0 <= i < |states[n].subscriptions|
        ensures InformedOf(states[n].subscriptions[i], states[n].cache)
      {
        CountIsFixed(registry, states[n - 1], calls[n - 1]);
        StaysInformed(registry, states[n - 1], calls[n - 1], i);
      }
    }
  }

  lemma {:induction false} CountIsFixed(registry: set<ConfigId>, p: Proxy, call: Call)
    requires WellFormed(registry, p, call)
    ensures |Publish(registry, p, call).0.subscriptions| == |p.subscriptions|
  {
  }
}
