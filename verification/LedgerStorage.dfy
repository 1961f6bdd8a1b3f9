/**
 * The part of a node's storage and chunk executor that synchronisation relies on: the stored
 * transactions, the last ledger info of each epoch, and the latest ledger info.
 */
module LedgerStorage {
  import opened LedgerTypes
  import opened History

  const MAX_LIMIT: nat := 1000
  const MAX_NUM_EPOCH_ENDING_LEDGER_INFO: nat := 100

  datatype Storage = Storage(
    txns: seq<Transaction>,
    epochInfos: map<nat, LedgerInfoWithSignatures>,
    latest: LedgerInfoWithSignatures
  )

  datatype SyncState = SyncState(committed: LedgerInfoWithSignatures, syncedVersion: nat, trusted: EpochState) {
    function CommittedVersion(): nat {
      committed.ledgerInfo.version
    }

    function CommittedEpoch(): nat {
      committed.ledgerInfo.epoch
    }

    function TrustedEpoch(): nat {
      trusted.epoch
    }
  }

  /** A contiguous list of transactions with a proof relative to the accumulator root `proofRoot`. */
  datatype TransactionList = TransactionList(
    firstVersion: Option<nat>,
    transactions: seq<Transaction>,
    proofRoot: AccumulatorRoot
  )

  datatype StorageError =
    | BadEpochRange
    | EpochStillOpen
    | MissingLedgerInfo
    | NotEpochEnding
    | TooManyRequested
    | MissingTransactions
    | InvalidListProof
    | ListTooNew
    | ForkDetected
    | UnexpectedRetry
    | RootHashMismatch
    | EpochChangeMismatch
    | MissingEpochChange

  // ----- Reads -----

  /** Storage holds what its own start-up needs. */
  predicate Readable(st: Storage) {
    && st.latest.ledgerInfo.version < |st.txns|
    && (st.latest.ledgerInfo.EndsEpoch()
        || (var e := st.latest.ledgerInfo.epoch;
            e > 0 && e - 1 in st.epochInfos && st.epochInfos[e - 1].ledgerInfo.EndsEpoch()))
  }

  function StateOf(st: Storage): SyncState
    requires Readable(st)
  {
    var li := st.latest.ledgerInfo;
    var trusted :=
      if li.EndsEpoch() then li.nextEpochState.value
      else st.epochInfos[li.epoch - 1].ledgerInfo.nextEpochState.value;
    SyncState(st.latest, |st.txns| - 1, trusted)
  }

  function GetEpoch(st: Storage, version: nat): Result<nat, StorageError> {
    if version > |st.txns| then Err(MissingTransactions) else Ok(EpochAt(st.txns, version))
  }

  predicate EndsStoredEpoch(st: Storage, epoch: nat) {
    epoch in st.epochInfos && st.epochInfos[epoch].ledgerInfo.EndsEpoch()
  }

  function Ending(st: Storage, epoch: nat): LedgerInfoWithSignatures
    requires EndsStoredEpoch(st, epoch)
  {
    st.epochInfos[epoch]
  }

  function Endings(st: Storage, startEpoch: nat, n: nat): (infos: seq<LedgerInfoWithSignatures>)
    requires forall e | startEpoch <= e < startEpoch + n :: EndsStoredEpoch(st, e)
    ensures |infos| == n
    ensures forall i | 0 <= i < n :: infos[i] == Ending(st, startEpoch + i)
  {
    seq(n, i requires 0 <= i < n => Ending(st, startEpoch + i))
  }

  /** The ledger infos that end the epochs from `startEpoch` up to `endEpoch`, at most `limit` of them. */
  function GetEpochEndingLedgerInfos(st: Storage, startEpoch: nat, endEpoch: nat, limit: nat)
    : Result<(seq<LedgerInfoWithSignatures>, bool), StorageError>
  {
    if startEpoch > endEpoch then Err(BadEpochRange)
    else if endEpoch > st.latest.ledgerInfo.NextBlockEpoch() then Err(EpochStillOpen)
    else
      var more := endEpoch - startEpoch > limit;
      var pagingEpoch := if more then startEpoch + limit else endEpoch;
      if forall e | startEpoch <= e < pagingEpoch :: EndsStoredEpoch(st, e) then
        Ok((Endings(st, startEpoch, pagingEpoch - startEpoch), more))
      else Err(MissingLedgerInfo)
  }

  /** The ledger info that ends `epoch`. */
  function GetEpochChangeLedgerInfo(st: Storage, epoch: nat): Result<LedgerInfoWithSignatures, StorageError> {
    var (infos, _) :- GetEpochEndingLedgerInfos(st, epoch, epoch + 1, MAX_NUM_EPOCH_ENDING_LEDGER_INFO);
    if infos == [] then Err(MissingLedgerInfo) else Ok(infos[|infos| - 1])
  }

  /** The ledger info at `version`, which must end its epoch. */
  function GetEpochEndingLedgerInfo(st: Storage, version: nat): Result<LedgerInfoWithSignatures, StorageError> {
    var epoch :- GetEpoch(st, version);
    if epoch !in st.epochInfos then Err(MissingLedgerInfo)
    else if st.epochInfos[epoch].ledgerInfo.version != version || !st.epochInfos[epoch].ledgerInfo.EndsEpoch() then
      Err(NotEpochEnding)
    else Ok(st.epochInfos[epoch])
  }

  /** At most `limit` transactions from `start` on, none above `ledgerVersion`, proved relative to it. */
  function GetTransactions(st: Storage, start: nat, limit: nat, ledgerVersion: nat)
    : Result<TransactionList, StorageError>
  {
    if limit > MAX_LIMIT then Err(TooManyRequested)
    else if start > ledgerVersion || limit == 0 then Ok(TransactionList(None, [], []))
    else if ledgerVersion >= |st.txns| then Err(MissingTransactions)
    else
      var n := if limit < ledgerVersion - start + 1 then limit else ledgerVersion - start + 1;
      Ok(TransactionList(Some(start), st.txns[start..start + n], st.txns[..ledgerVersion + 1]))
  }

  // ----- Executing a chunk -----

  predicate ListVerifies(list: TransactionList, li: LedgerInfo) {
    if list.firstVersion.None? then list.transactions == []
    else
      && list.transactions != []
      && list.proofRoot == li.rootHash
      && list.firstVersion.value + |list.transactions| <= |li.rootHash|
      && li.rootHash[list.firstVersion.value..list.firstVersion.value + |list.transactions|] == list.transactions
  }

  /** The transactions of the list that storage does not hold yet. */
  function VerifyChunk(st: Storage, list: TransactionList, target: LedgerInfo)
    : Result<seq<Transaction>, StorageError>
  {
    if !ListVerifies(list, target) then Err(InvalidListProof)
    else if list.transactions == [] then Ok([])
    else if list.firstVersion.value > |st.txns| then Err(ListTooNew)
    else
      var skip := |st.txns| - list.firstVersion.value;
      if |list.transactions| <= skip then Ok([])
      else if target.rootHash[..|st.txns|] != st.txns then Err(ForkDetected)
      else Ok(list.transactions[skip..])
  }

  /** The ledger info to commit with a chunk, if any. */
  function FindChunkLi(
    target: LedgerInfoWithSignatures,
    epochChange: Option<LedgerInfoWithSignatures>,
    newTxns: seq<Transaction>,
    newEpochState: Option<EpochState>
  ): Result<Option<LedgerInfoWithSignatures>, StorageError>
    requires newTxns != []
  {
    if target.ledgerInfo.version == |newTxns| - 1 then
      if target.ledgerInfo.rootHash == newTxns then Ok(Some(target)) else Err(RootHashMismatch)
    else if epochChange.Some? then
      var li := epochChange.value.ledgerInfo;
      if && li.rootHash == newTxns
         && li.version == |newTxns| - 1
         && li.EndsEpoch()
         && li.nextEpochState == newEpochState
      then Ok(epochChange) else Err(EpochChangeMismatch)
    else if newEpochState.Some? then Err(MissingEpochChange)
    else Ok(None)
  }

  function Commit(st: Storage, newTxns: seq<Transaction>, li: Option<LedgerInfoWithSignatures>): Storage {
    if li.None? then st.(txns := newTxns)
    else Storage(newTxns, st.epochInfos[li.value.ledgerInfo.epoch := li.value], li.value)
  }

  /**
   * Executes the new transactions of a chunk and commits them, with the target ledger info when the
   * chunk ends there, or else with the given epoch change. A reconfiguration that is not the last
   * transaction makes the rest of the chunk retry, which is an error.
   */
  function ExecuteAndCommitChunk(
    st: Storage,
    list: TransactionList,
    target: LedgerInfoWithSignatures,
    epochChange: Option<LedgerInfoWithSignatures>
  ): Result<Storage, StorageError>
    requires st.txns != []
  {
    var toApply :- VerifyChunk(st, list, target.ledgerInfo);
    if !ReconfiguresLast(toApply) then Err(UnexpectedRetry)
    else
      var newTxns := st.txns + toApply;
      var li :- FindChunkLi(target, epochChange, newTxns, NewEpochState(toApply));
      Ok(Commit(st, newTxns, li))
  }

  predicate ReconfiguresLast(txns: seq<Transaction>) {
    forall i | 0 <= i < |txns| - 1 :: txns[i].reconfig.None?
  }

  function NewEpochState(txns: seq<Transaction>): Option<EpochState> {
    if txns == [] then None else txns[|txns| - 1].reconfig
  }

  // ----- Storage that mirrors a genuine history -----

  /** Storage holds the genuine ending of `epoch`. */
  predicate HoldsEnding(l: seq<Transaction>, st: Storage, epoch: nat) {
    && EndsStoredEpoch(st, epoch)
    && st.epochInfos[epoch].ledgerInfo.epoch == epoch
    && Genuine(l, st.epochInfos[epoch].ledgerInfo)
  }

  /**
   * Storage holds a prefix of the history, the genuine ending of every closed epoch, and no
   * reconfiguration above its latest ledger info.
   */
  predicate Faithful(l: seq<Transaction>, st: Storage) {
    && |st.txns| <= |l| && st.txns == l[..|st.txns|]
    && Genuine(l, st.latest.ledgerInfo) && st.latest.ledgerInfo.version < |st.txns|
    && (forall e | 0 <= e < st.latest.ledgerInfo.NextBlockEpoch() ::
          HoldsEnding(l, st, e))
    && st.latest.ledgerInfo.epoch in st.epochInfos && st.epochInfos[st.latest.ledgerInfo.epoch] == st.latest
    && (forall v | st.latest.ledgerInfo.version < v < |st.txns| :: l[v].reconfig.None?)
  }

  /** Signed by a quorum of the real validators of its epoch; the genesis ledger info is unsigned. */
  predicate Certified(l: seq<Transaction>, lis: LedgerInfoWithSignatures) {
    var es := EpochStateOf(l, lis.ledgerInfo.epoch);
    lis.ledgerInfo.epoch == 0 || (es.Some? && VerifiedBy(es.value, lis))
  }

  /** Faithful storage whose ledger infos others can verify. */
  predicate Servable(l: seq<Transaction>, st: Storage) {
    && Faithful(l, st)
    && Certified(l, st.latest)
    && forall e | 0 <= e < st.latest.ledgerInfo.NextBlockEpoch() :: HoldsCertified(l, st, e)
  }

  predicate HoldsCertified(l: seq<Transaction>, st: Storage, epoch: nat) {
    EndsStoredEpoch(st, epoch) && Certified(l, Ending(st, epoch))
  }

  lemma {:induction false} StoredEnding(l: seq<Transaction>, st: Storage, e: nat)
    requires ValidHistory(l) && Servable(l, st) && e < st.latest.ledgerInfo.NextBlockEpoch()
    ensures HoldsEnding(l, st, e)
    ensures IsEpochState(l, Ending(st, e).ledgerInfo.nextEpochState.value)
    ensures Ending(st, e).ledgerInfo.nextEpochState.value.epoch == e + 1
    ensures forall es | IsEpochState(l, es) && es.epoch == e && e > 0 :: VerifiedBy(es, Ending(st, e))
  {
    assert HoldsEnding(l, st, e) && HoldsCertified(l, st, e);
    var li := Ending(st, e).ledgerInfo;
    assert NumberedInOrder(l, li.version);
    assert l[li.version].reconfig == Some(li.nextEpochState.value);
    forall es | IsEpochState(l, es) && es.epoch == e && e > 0
      ensures VerifiedBy(es, Ending(st, e))
    {
      EpochStateOfIs(l, es);
    }
  }

  lemma {:induction false} EpochFlat(l: seq<Transaction>, u: nat, v: nat)
    requires u <= v <= |l|
    requires forall i | u <= i < v :: l[i].reconfig.None?
    ensures EpochAt(l, u) == EpochAt(l, v)
    decreases v
  {
    if u < v {
      EpochFlat(l, u, v - 1);
    }
  }

  /** The epoch a node trusts is the epoch of the next version it needs. */
  lemma {:induction false} TrustedEpochIsNext(l: seq<Transaction>, st: Storage)
    requires ValidHistory(l) && Faithful(l, st)
    ensures Readable(st)
    ensures StateOf(st).TrustedEpoch() == EpochAt(l, |st.txns|) == st.latest.ledgerInfo.NextBlockEpoch()
    ensures StateOf(st).TrustedEpoch() > 0
    ensures IsEpochState(l, StateOf(st).trusted)
  {
    var li := st.latest.ledgerInfo;
    EpochFlat(l, li.version + 1, |st.txns|);
    EpochMonotone(l, 0, |st.txns|);
    assert NumberedInOrder(l, li.version);
    if li.EndsEpoch() {
      assert l[li.version].reconfig == Some(li.nextEpochState.value);
    } else {
      assert li.version > 0;
      EpochMonotone(l, 0, li.version);
      assert HoldsEnding(l, st, li.epoch - 1);
      var ending := Ending(st, li.epoch - 1);
      assert NumberedInOrder(l, ending.ledgerInfo.version);
      assert l[ending.ledgerInfo.version].reconfig == Some(ending.ledgerInfo.nextEpochState.value);
    }
  }

  lemma {:induction false} ExtendPrefix(l: seq<Transaction>, n: nat, list: TransactionList, target: LedgerInfo)
    requires n <= |l| && Genuine(l, target) && ListVerifies(list, target)
    requires list.firstVersion.Some? && list.firstVersion.value <= n < list.firstVersion.value + |list.transactions|
    ensures var m := list.firstVersion.value + |list.transactions|;
            m <= target.version + 1 <= |l| && l[..n] + list.transactions[n - list.firstVersion.value..] == l[..m]
  {
  }

  /**
   * Committing a genuine ledger info at the end of a longer prefix keeps storage faithful, provided
   * that only the last transaction may be a reconfiguration.
   */
  lemma {:induction false} CommitKeepsFaithful(
    l: seq<Transaction>, st: Storage, m: nat, li: Option<LedgerInfoWithSignatures>)
    requires ValidHistory(l) && Faithful(l, st) && |st.txns| <= m <= |l|
    requires forall v | |st.txns| <= v < m - 1 :: l[v].reconfig.None?
    requires li.None? ==> |st.txns| < m ==> l[m - 1].reconfig.None?
    requires li.Some? ==> Genuine(l, li.value.ledgerInfo) && li.value.ledgerInfo.version == m - 1
    ensures Faithful(l, Commit(st, l[..m], li))
  {
    if li.Some? {
      TrustedEpochIsNext(l, st);
      var latest := li.value.ledgerInfo;
      var prior := st.latest.ledgerInfo;
      if latest.version == prior.version {
        GenuineOrder(l, ContentOf(prior), ContentOf(latest));
      } else {
        EpochFlat(l, prior.version + 1, m - 1);
        assert NumberedInOrder(l, prior.version);
        assert latest.epoch == prior.NextBlockEpoch();
      }
      GenuineOrder(l, ContentOf(latest), ContentOf(latest));
      var after := Commit(st, l[..m], li);
      forall e | 0 <= e < latest.NextBlockEpoch()
        ensures HoldsEnding(l, after, e)
      {
        assert e < prior.NextBlockEpoch() ==> HoldsEnding(l, st, e);
      }
    } else {
      var after := Commit(st, l[..m], li);
      forall e | 0 <= e < st.latest.ledgerInfo.NextBlockEpoch()
        ensures HoldsEnding(l, after, e)
      {
        assert HoldsEnding(l, st, e);
      }
    }
  }

  /** The transactions a chunk adds are the next ones of the history, and stay within the target. */
  lemma {:induction false} ChunkExtendsHistory(
    l: seq<Transaction>, st: Storage, list: TransactionList, target: LedgerInfo)
    returns (m: nat)
    requires Faithful(l, st) && Genuine(l, target) && VerifyChunk(st, list, target).Ok?
    ensures |st.txns| <= m <= |l|
    ensures st.txns + VerifyChunk(st, list, target).value == l[..m]
    ensures VerifyChunk(st, list, target).value == l[|st.txns|..m]
    ensures |st.txns| < m ==> m <= target.version + 1
    ensures list.firstVersion == Some(|st.txns|) ==> m == |st.txns| + |list.transactions|
  {
    var n := |st.txns|;
    var toApply := VerifyChunk(st, list, target).value;
    if toApply == [] {
      m := n;
      assert st.txns + toApply == l[..n];
    } else {
      ExtendPrefix(l, n, list, target);
      m := list.firstVersion.value + |list.transactions|;
      assert l[..m][n..] == (l[..n] + toApply)[n..] == toApply;
    }
  }

  /** Executing a chunk commits a longer prefix of the history, with a ledger info at its end or none. */
  lemma {:induction false} ExecuteCommitsPrefix(
    l: seq<Transaction>, st: Storage, list: TransactionList,
    target: LedgerInfoWithSignatures, epochChange: Option<LedgerInfoWithSignatures>)
    returns (m: nat, li: Option<LedgerInfoWithSignatures>)
    requires Faithful(l, st) && Genuine(l, target.ledgerInfo)
    requires ExecuteAndCommitChunk(st, list, target, epochChange).Ok?
    ensures |st.txns| <= m <= |l|
    ensures ExecuteAndCommitChunk(st, list, target, epochChange).value == Commit(st, l[..m], li)
    ensures forall v | |st.txns| <= v < m - 1 :: l[v].reconfig.None?
    ensures li.None? ==> |st.txns| < m ==> l[m - 1].reconfig.None?
    ensures li.Some? ==> li.value.ledgerInfo.version == m - 1 && (li.value == target || li == epochChange)
    ensures li.Some? || |st.txns| < m ==> m <= target.ledgerInfo.version + 1
    ensures m == target.ledgerInfo.version + 1 ==> li == Some(target)
    ensures list.firstVersion == Some(|st.txns|) ==> m == |st.txns| + |list.transactions|
  {
    hide VerifyChunk, FindChunkLi, Genuine, Commit;
    var toApply := VerifyChunk(st, list, target.ledgerInfo).value;
    m := ChunkExtendsHistory(l, st, list, target.ledgerInfo);
    li := FindChunkLi(target, epochChange, l[..m], NewEpochState(toApply)).value;
    ChunkLiFits(target, epochChange, l[..m], NewEpochState(toApply));
    assert forall v | |st.txns| <= v < m :: l[v] == toApply[v - |st.txns|];
  }

  lemma {:induction false} ChunkLiFits(
    target: LedgerInfoWithSignatures, epochChange: Option<LedgerInfoWithSignatures>,
    newTxns: seq<Transaction>, newEpochState: Option<EpochState>)
    requires newTxns != [] && FindChunkLi(target, epochChange, newTxns, newEpochState).Ok?
    ensures var li := FindChunkLi(target, epochChange, newTxns, newEpochState).value;
            && (li.Some? ==> li.value.ledgerInfo.version == |newTxns| - 1 && (li.value == target || li == epochChange))
            && (li.None? ==> newEpochState.None?)
            && (li.Some? && newEpochState.None? ==> li.value == target)
            && (|newTxns| == target.ledgerInfo.version + 1 ==> li == Some(target))
  {
  }

  /** Executing a chunk against a genuine target keeps storage faithful and never passes the target. */
  lemma {:induction false} ExecuteKeepsFaithful(
    l: seq<Transaction>, st: Storage, list: TransactionList,
    target: LedgerInfoWithSignatures, epochChange: Option<LedgerInfoWithSignatures>)
    requires ValidHistory(l) && Faithful(l, st) && Genuine(l, target.ledgerInfo)
    requires epochChange.Some? ==> Genuine(l, epochChange.value.ledgerInfo)
    requires ExecuteAndCommitChunk(st, list, target, epochChange).Ok?
    ensures var after := ExecuteAndCommitChunk(st, list, target, epochChange).value;
            && Faithful(l, after)
            && |st.txns| <= |after.txns|
            && (|st.txns| < |after.txns| ==> |after.txns| <= target.ledgerInfo.version + 1)
            && (list.firstVersion == Some(|st.txns|) ==> |after.txns| == |st.txns| + |list.transactions|)
  {
    var m, li := ExecuteCommitsPrefix(l, st, list, target, epochChange);
    CommitKeepsFaithful(l, st, m, li);
  }

  // ----- Any storage, any target -----

  /**
   * Whatever storage holds and whatever the target is, a chunk that is executed makes storage a prefix of
   * what the target commits to, with a list that was proved relative to it and leaves no gap, or it adds
   * nothing. A ledger info that is committed with it commits to exactly what is stored.
   */
  lemma {:induction false} ExecuteFollowsTarget(
    st: Storage, list: TransactionList, target: LedgerInfoWithSignatures, epochChange: Option<LedgerInfoWithSignatures>)
    requires st.txns != [] && ExecuteAndCommitChunk(st, list, target, epochChange).Ok?
    ensures var after := ExecuteAndCommitChunk(st, list, target, epochChange).value;
            && st.txns <= after.txns
            && (after.txns == st.txns || after.txns <= target.ledgerInfo.rootHash)
            && (list.transactions != [] ==>
                  list.proofRoot == target.ledgerInfo.rootHash && list.firstVersion.value <= |st.txns|)
            && (after.latest != st.latest ==>
                  after.latest.ledgerInfo.rootHash == after.txns && after.latest.ledgerInfo.version == |after.txns| - 1)
  {
    hide ReconfiguresLast, NewEpochState;
    var root, toApply := target.ledgerInfo.rootHash, VerifyChunk(st, list, target.ledgerInfo).value;
    if toApply != [] {
      var first, n := list.firstVersion.value, |list.transactions|;
      assert root[first..first + n] == list.transactions;
      assert toApply == root[|st.txns|..first + n];
      assert st.txns + toApply == root[..first + n];
    }
  }
}
