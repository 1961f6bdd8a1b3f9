/**
 * The genuine ledger against which trust is measured, and the assumption that consensus is
 * safe: whatever a quorum of an epoch's validators signs for that epoch is genuine.
 */
module History {
  import opened LedgerTypes
  import opened Validators

  /** The epoch of version `v`: how many reconfigurations come strictly before it. */
  function EpochAt(l: seq<Transaction>, v: nat): nat
    requires v <= |l|
  {
    if v == 0 then 0
    else EpochAt(l, v - 1) + (if l[v - 1].reconfig.Some? then 1 else 0)
  }

  /** A history starts with the genesis reconfiguration, and epoch states are numbered in order. */
  predicate ValidHistory(l: seq<Transaction>) {
    && 0 < |l| <= U64_MAX
    && l[0].reconfig.Some?
    && forall v | 0 <= v < |l| :: NumberedInOrder(l, v)
  }

  predicate NumberedInOrder(l: seq<Transaction>, v: nat)
    requires v < |l|
  {
    l[v].reconfig.Some? ==> l[v].reconfig.value.epoch == EpochAt(l, v) + 1
  }

  function ContentAt(l: seq<Transaction>, v: nat): WaypointContent
    requires v < |l|
  {
    WaypointContent(EpochAt(l, v), l[..v + 1], v, l[v].timestampUsecs, l[v].reconfig)
  }

  predicate GenuineContent(l: seq<Transaction>, c: WaypointContent) {
    c.version < |l| && c == ContentAt(l, c.version)
  }

  predicate Genuine(l: seq<Transaction>, li: LedgerInfo) {
    GenuineContent(l, ContentOf(li))
  }

  predicate GenuineWaypoint(l: seq<Transaction>, w: Waypoint) {
    w.version == w.value.version && GenuineContent(l, w.value)
  }

  /** `es` is the state that some reconfiguration of the history put in place. */
  predicate IsEpochState(l: seq<Transaction>, es: EpochState) {
    exists v | 0 <= v < |l| :: l[v].reconfig == Some(es)
  }

  // ----- Order of versions and epochs -----

  lemma {:induction false} EpochMonotone(l: seq<Transaction>, u: nat, v: nat)
    requires u <= v <= |l|
    ensures EpochAt(l, u) <= EpochAt(l, v)
    ensures u < v && l[u].reconfig.Some? ==> EpochAt(l, u) < EpochAt(l, v)
    decreases v
  {
    if u < v {
      EpochMonotone(l, u, v - 1);
    }
  }

  lemma {:induction false} EpochAtMostVersion(l: seq<Transaction>, v: nat)
    requires v <= |l|
    ensures EpochAt(l, v) <= v
  {
    if v > 0 {
      EpochAtMostVersion(l, v - 1);
    }
  }

  lemma {:induction false} EpochOfPrefix(l: seq<Transaction>, n: nat, v: nat)
    requires v <= n <= |l|
    ensures EpochAt(l[..n], v) == EpochAt(l, v)
  {
    if v > 0 {
      EpochOfPrefix(l, n, v - 1);
    }
  }

  /** The version that ends epoch `e`, among the first `n`. */
  function EndVersion(l: seq<Transaction>, e: nat, n: nat): (v: nat)
    requires n <= |l| && e < EpochAt(l, n)
    ensures v < n && l[v].reconfig.Some? && EpochAt(l, v) == e
  {
    if e < EpochAt(l, n - 1) then EndVersion(l, e, n - 1) else n - 1
  }

  lemma {:induction false} EndVersionUnique(l: seq<Transaction>, u: nat, v: nat)
    requires u < |l| && v < |l| && l[u].reconfig.Some? && l[v].reconfig.Some?
    requires EpochAt(l, u) == EpochAt(l, v)
    ensures u == v
  {
    if u < v {
      EpochMonotone(l, u, v);
    } else if v < u {
      EpochMonotone(l, v, u);
    }
  }

  lemma {:induction false} EpochStateUnique(l: seq<Transaction>, a: EpochState, b: EpochState)
    requires ValidHistory(l) && IsEpochState(l, a) && IsEpochState(l, b)
    requires a.epoch == b.epoch
    ensures a == b
  {
    var u :| 0 <= u < |l| && l[u].reconfig == Some(a);
    var v :| 0 <= v < |l| && l[v].reconfig == Some(b);
    assert NumberedInOrder(l, u) && NumberedInOrder(l, v);
    EndVersionUnique(l, u, v);
  }

  /** The validators of epoch `e`, when the history reaches that epoch. */
  function EpochStateOf(l: seq<Transaction>, e: nat): (es: Option<EpochState>)
    ensures es.Some? ==> IsEpochState(l, es.value)
  {
    if 0 < e <= EpochAt(l, |l|) then l[EndVersion(l, e - 1, |l|)].reconfig else None
  }

  lemma {:induction false} EpochStateOfIs(l: seq<Transaction>, es: EpochState)
    requires ValidHistory(l) && IsEpochState(l, es)
    ensures EpochStateOf(l, es.epoch) == Some(es) && es.epoch > 0
  {
    var v :| 0 <= v < |l| && l[v].reconfig == Some(es);
    assert NumberedInOrder(l, v);
    EpochMonotone(l, v, |l|);
    EndVersionUnique(l, v, EndVersion(l, es.epoch - 1, |l|));
  }

  /** Versions and epochs of genuine ledger infos agree, and a closed epoch has no later one. */
  lemma {:induction false} GenuineOrder(l: seq<Transaction>, a: WaypointContent, b: WaypointContent)
    requires ValidHistory(l) && GenuineContent(l, a) && GenuineContent(l, b)
    ensures a.version <= b.version ==> a.epoch <= b.epoch
    ensures a.version == b.version ==> a == b
    ensures a.version < b.version && a.nextEpochState.Some? ==> a.nextEpochState.value.epoch <= b.epoch
    ensures a.nextEpochState.Some? ==> a.nextEpochState.value.epoch == a.epoch + 1
  {
    assert NumberedInOrder(l, a.version);
    if a.version <= b.version {
      EpochMonotone(l, a.version, b.version);
    }
  }

  // ----- Signatures -----

  /** A history together with every signature that exists in the world. */
  datatype World = World(history: seq<Transaction>, signed: iset<Signature>)

  ghost function Signers(w: World, v: ValidatorVerifier, li: LedgerInfo): set<Author> {
    set i | 0 <= i < |v.validators| && Signature(v.validators[i].publicKey, li) in w.signed ::
      v.validators[i].address
  }

  ghost predicate QuorumSafeFor(w: World, es: EpochState) {
    forall li: LedgerInfo {:trigger Signers(w, es.verifier, li)}
      | li.epoch == es.epoch && IsQuorum(es.verifier, Signers(w, es.verifier, li)) :: Genuine(w.history, li)
  }

  ghost predicate SafeAt(w: World, v: nat)
    requires v < |w.history|
  {
    w.history[v].reconfig.Some? ==> QuorumSafeFor(w, w.history[v].reconfig.value)
  }

  /** The safety of consensus: no quorum of an epoch signed a ledger info of that epoch that is not genuine. */
  ghost predicate Safe(w: World) {
    && ValidHistory(w.history)
    && forall v | 0 <= v < |w.history| :: SafeAt(w, v)
  }

  /** Signatures cannot be made up: those attached to a message exist. */
  ghost predicate Unforged(w: World, lis: LedgerInfoWithSignatures) {
    forall author | author in lis.signatures :: lis.signatures[author] in w.signed
  }

  ghost predicate AllUnforged(w: World, infos: seq<LedgerInfoWithSignatures>) {
    forall i | 0 <= i < |infos| :: Unforged(w, infos[i])
  }

  predicate VerifiedBy(es: EpochState, lis: LedgerInfoWithSignatures) {
    es.epoch == lis.ledgerInfo.epoch && VerifySignatures(es.verifier, lis).Ok?
  }

  lemma {:induction false} LookupIndex(validators: seq<ValidatorInfo>, author: Author) returns (i: nat)
    requires Lookup(validators, author).Some?
    ensures i < |validators| && validators[i] == Lookup(validators, author).value
    ensures validators[i].address == author
  {
    if validators[0].address == author {
      i := 0;
    } else {
      var j := LookupIndex(validators[1..], author);
      i := j + 1;
    }
  }

  /** Whatever a genuine epoch state verifies is genuine. */
  lemma {:induction false} VerifiedIsGenuine(w: World, es: EpochState, lis: LedgerInfoWithSignatures)
    requires Safe(w) && IsEpochState(w.history, es)
    requires Unforged(w, lis) && VerifiedBy(es, lis)
    ensures Genuine(w.history, lis.ledgerInfo)
  {
    var validators := es.verifier.validators;
    var signers := Signers(w, es.verifier, lis.ledgerInfo);
    forall author | author in lis.signatures
      ensures author in signers
    {
      assert ValidSignature(es.verifier, author, lis.ledgerInfo, lis.signatures[author]);
      var i := LookupIndex(validators, author);
      assert lis.signatures[author] == Signature(validators[i].publicKey, lis.ledgerInfo);
    }
    PowerMonotone(validators, lis.signatures.Keys, signers);
    var v :| 0 <= v < |w.history| && w.history[v].reconfig == Some(es);
    assert SafeAt(w, v);
  }

  /** At most a third of the voting power, that of `faulty`, ever signs for the epoch what is not genuine. */
  ghost predicate FaultsBounded(w: World, es: EpochState, faulty: set<Author>) {
    && AtMostOneThird(es.verifier, faulty)
    && forall i, li: LedgerInfo {:trigger Signature(es.verifier.validators[i].publicKey, li)}
         | && 0 <= i < |es.verifier.validators| && li.epoch == es.epoch
           && Signature(es.verifier.validators[i].publicKey, li) in w.signed
           && es.verifier.validators[i].address !in faulty :: Genuine(w.history, li)
  }

  /** The fault model behind `Safe`: in every epoch the faults are bounded. */
  lemma {:induction false} FaultBoundMakesSafe(w: World, faulty: map<nat, set<Author>>)
    requires ValidHistory(w.history)
    requires forall v | 0 <= v < |w.history| && w.history[v].reconfig.Some? ::
               var es := w.history[v].reconfig.value;
               es.epoch in faulty && FaultsBounded(w, es, faulty[es.epoch])
    ensures Safe(w)
  {
    forall v | 0 <= v < |w.history| && w.history[v].reconfig.Some?
      ensures SafeAt(w, v)
    {
      var es := w.history[v].reconfig.value;
      assert FaultsBounded(w, es, faulty[es.epoch]);
      forall li: LedgerInfo | li.epoch == es.epoch && IsQuorum(es.verifier, Signers(w, es.verifier, li))
        ensures Genuine(w.history, li)
      {
        var signers := Signers(w, es.verifier, li);
        var honest := QuorumsShareHonest(es.verifier, signers, signers, faulty[es.epoch]);
        var i :| 0 <= i < |es.verifier.validators|
                 && Signature(es.verifier.validators[i].publicKey, li) in w.signed
                 && es.verifier.validators[i].address == honest;
      }
    }
  }
}
