/**
 * Crash recovery of consensus: from the stored blocks and quorum certificates, find the root and
 * keep what descends from it.
 */
module Recovery {
  import opened LedgerTypes

  /** A block id is a hash, or the hash of the genesis block that follows an epoch-ending ledger info. */
  datatype BlockId = Hash(value: nat) | GenesisOf(li: LedgerInfo)

  datatype Block = Block(id: BlockId, epoch: nat, round: nat, parentId: BlockId)

  datatype CommitProof = Signed(lis: LedgerInfoWithSignatures) | ForGenesis(li: LedgerInfo)

  datatype QuorumCert = QuorumCert(certifiedId: BlockId, commitId: BlockId, proof: CommitProof)

  datatype RootInfo = RootInfo(block: Block, certifying: QuorumCert, ordering: QuorumCert, latest: CommitProof)

  /** A vote or timeout certificate in the database; recovery only looks at its epoch. */
  datatype Message = Message(epoch: nat, content: nat)

  datatype ConsensusDb = ConsensusDb(
    blocks: seq<Block>,
    qcs: seq<QuorumCert>,
    lastVote: Option<Message>,
    highestTimeout: Option<Message>
  )

  datatype RecoveryError = NoRoot(id: BlockId) | NoCertificate(id: BlockId) | NoLedgerInfo(id: BlockId)

  // ----- Sorting by epoch and round -----

  predicate KeyBelow(a: Block, b: Block) {
    a.epoch < b.epoch || (a.epoch == b.epoch && a.round < b.round)
  }

  predicate KeyAtMost(a: Block, b: Block) {
    !KeyBelow(b, a)
  }

  /** `b` put behind every block whose key is not above its own. */
  function InsertSorted(blocks: seq<Block>, b: Block): seq<Block> {
    var n := |blocks|;
    if n == 0 || KeyAtMost(blocks[n - 1], b) then blocks + [b]
    else InsertSorted(blocks[..n - 1], b) + [blocks[n - 1]]
  }

  /** The stable sort by epoch and round. */
  function Sort(blocks: seq<Block>): seq<Block> {
    var n := |blocks|;
    if n == 0 then [] else InsertSorted(Sort(blocks[..n - 1]), blocks[n - 1])
  }

  predicate Sorted(blocks: seq<Block>) {
    forall i, j | 0 <= i < j < |blocks| :: KeyAtMost(blocks[i], blocks[j])
  }

  lemma {:induction false} InsertPermutes(blocks: seq<Block>, b: Block)
    ensures multiset(InsertSorted(blocks, b)) == multiset(blocks) + multiset{b}
  {
    var n := |blocks|;
    if n > 0 {
      InsertPermutes(blocks[..n - 1], b);
      assert blocks == blocks[..n - 1] + [blocks[n - 1]];
    }
  }

  lemma {:induction false} InsertSortedIs(blocks: seq<Block>, b: Block)
    requires Sorted(blocks)
    ensures Sorted(InsertSorted(blocks, b))
  {
    var n := |blocks|;
    if n > 0 && !KeyAtMost(blocks[n - 1], b) {
      var front := blocks[..n - 1];
      InsertSortedIs(front, b);
      InsertPermutes(front, b);
      var inserted := InsertSorted(front, b);
      forall i | 0 <= i < |inserted|
        ensures KeyAtMost(inserted[i], blocks[n - 1])
      {
        assert inserted[i] in multiset(inserted);
      }
    }
  }

  lemma {:induction false} SortIs(blocks: seq<Block>)
    ensures Sorted(Sort(blocks)) && multiset(Sort(blocks)) == multiset(blocks)
  {
    var n := |blocks|;
    if n > 0 {
      SortIs(blocks[..n - 1]);
      InsertSortedIs(Sort(blocks[..n - 1]), blocks[n - 1]);
      InsertPermutes(Sort(blocks[..n - 1]), blocks[n - 1]);
      assert blocks == blocks[..n - 1] + [blocks[n - 1]];
    }
  }

  // ----- Pruning -----

  datatype Pruning = Pruning(kept: seq<Block>, removed: seq<BlockId>, tree: set<BlockId>)

  /** The retain pass: a block is kept when its parent is the root or was kept before. */
  function Prune(blocks: seq<Block>, root: BlockId): Pruning {
    var n := |blocks|;
    if n == 0 then Pruning([], [], {root})
    else
      var p, b := Prune(blocks[..n - 1], root), blocks[n - 1];
      if b.parentId in p.tree then Pruning(p.kept + [b], p.removed, p.tree + {b.id})
      else Pruning(p.kept, p.removed + [b.id], p.tree)
  }

  function KeepCertifying(qcs: seq<QuorumCert>, tree: set<BlockId>): seq<QuorumCert> {
    var n := |qcs|;
    if n == 0 then []
    else if qcs[n - 1].certifiedId in tree then KeepCertifying(qcs[..n - 1], tree) + [qcs[n - 1]]
    else KeepCertifying(qcs[..n - 1], tree)
  }

  method FindBlocksToPrune(root: BlockId, blocks: seq<Block>, qcs: seq<QuorumCert>)
    returns (toRemove: seq<BlockId>, kept: seq<Block>, keptQcs: seq<QuorumCert>)
    ensures Prune(blocks, root).kept == kept && Prune(blocks, root).removed == toRemove
    ensures keptQcs == KeepCertifying(qcs, Prune(blocks, root).tree)
  {
    var tree := {root};
    toRemove, kept, keptQcs := [], [], [];
    for i := 0 to |blocks|
      invariant Prune(blocks[..i], root) == Pruning(kept, toRemove, tree)
    {
      assert blocks[..i + 1][..i] == blocks[..i];
      var block := blocks[i];
      if block.parentId in tree {
        tree := tree + {block.id};
        kept := kept + [block];
      } else {
        toRemove := toRemove + [block.id];
      }
    }
    assert blocks[..|blocks|] == blocks;
    for i := 0 to |qcs|
      invariant keptQcs == KeepCertifying(qcs[..i], tree)
    {
      assert qcs[..i + 1][..i] == qcs[..i];
      if qcs[i].certifiedId in tree {
        keptQcs := keptQcs + [qcs[i]];
      }
    }
    assert qcs[..|qcs|] == qcs;
  }

  // ----- Finding the root -----

  function IndexOf(blocks: seq<Block>, id: BlockId): (i: nat)
    ensures i <= |blocks| && (i < |blocks| ==> blocks[i].id == id)
    ensures forall k | 0 <= k < i :: blocks[k].id != id
  {
    if blocks == [] then 0 else if blocks[0].id == id then 0 else 1 + IndexOf(blocks[1..], id)
  }

  function FindCertifying(qcs: seq<QuorumCert>, id: BlockId): (r: Option<QuorumCert>)
    ensures r.Some? <==> exists qc | qc in qcs :: qc.certifiedId == id
    ensures r.Some? ==> r.value in qcs && r.value.certifiedId == id
  {
    if qcs == [] then None else if qcs[0].certifiedId == id then Some(qcs[0]) else FindCertifying(qcs[1..], id)
  }

  function FindCommitting(qcs: seq<QuorumCert>, id: BlockId): (r: Option<QuorumCert>)
    ensures r.Some? <==> exists qc | qc in qcs :: qc.commitId == id
    ensures r.Some? ==> r.value in qcs && r.value.commitId == id
  {
    if qcs == [] then None else if qcs[0].commitId == id then Some(qcs[0]) else FindCommitting(qcs[1..], id)
  }

  function GenesisBlock(li: LedgerInfo): Block {
    Block(GenesisOf(li), li.epoch + 1, 0, Hash(0))
  }

  function GenesisQc(li: LedgerInfo): QuorumCert {
    QuorumCert(GenesisOf(li), GenesisOf(li), ForGenesis(li))
  }

  function RootId(ledger: LedgerInfoWithSignatures): BlockId {
    if ledger.ledgerInfo.EndsEpoch() then GenesisOf(ledger.ledgerInfo) else Hash(ledger.ledgerInfo.id)
  }

  function LatestProof(ledger: LedgerInfoWithSignatures): CommitProof {
    if ledger.ledgerInfo.EndsEpoch() then ForGenesis(ledger.ledgerInfo) else Signed(ledger)
  }

  /** The stored blocks, with the virtual genesis block when the ledger ends an epoch. */
  function AllBlocks(ledger: LedgerInfoWithSignatures, blocks: seq<Block>): seq<Block> {
    if ledger.ledgerInfo.EndsEpoch() then blocks + [GenesisBlock(ledger.ledgerInfo)] else blocks
  }

  function AllQcs(ledger: LedgerInfoWithSignatures, qcs: seq<QuorumCert>): seq<QuorumCert> {
    if ledger.ledgerInfo.EndsEpoch() then qcs + [GenesisQc(ledger.ledgerInfo)] else qcs
  }

  function RemoveAt(blocks: seq<Block>, i: nat): seq<Block>
    requires i < |blocks|
  {
    blocks[..i] + blocks[i + 1..]
  }

  datatype Recovered = Recovered(
    root: RootInfo,
    blocks: seq<Block>,
    qcs: seq<QuorumCert>,
    toPrune: seq<BlockId>,
    lastVote: Option<Message>,
    highestTimeout: Option<Message>
  )

  /** The sorted blocks without the root. */
  function Others(ledger: LedgerInfoWithSignatures, blocks: seq<Block>): seq<Block> {
    var sorted := Sort(AllBlocks(ledger, blocks));
    var i := IndexOf(sorted, RootId(ledger));
    if i < |sorted| then RemoveAt(sorted, i) else sorted
  }

  function FindRoot(ledger: LedgerInfoWithSignatures, blocks: seq<Block>, qcs: seq<QuorumCert>)
    : Result<RootInfo, RecoveryError>
  {
    var root := RootId(ledger);
    var sorted := Sort(AllBlocks(ledger, blocks));
    var all := AllQcs(ledger, qcs);
    if IndexOf(sorted, root) == |sorted| then Err(NoRoot(root))
    else
      match FindCertifying(all, root)
      case None => Err(NoCertificate(root))
      case Some(certifying) =>
        match FindCommitting(all, root)
        case None => Err(NoLedgerInfo(root))
        case Some(ordering) =>
          Ok(RootInfo(sorted[IndexOf(sorted, root)], certifying, ordering, LatestProof(ledger)))
  }

  function OfEpoch(message: Option<Message>, epoch: nat): Option<Message> {
    if message.Some? && message.value.epoch == epoch then message else None
  }

  function Recover(ledger: LedgerInfoWithSignatures, db: ConsensusDb): Result<Recovered, RecoveryError> {
    match FindRoot(ledger, db.blocks, db.qcs)
    case Err(error) => Err(error)
    case Ok(root) =>
      var p := Prune(Others(ledger, db.blocks), RootId(ledger));
      Ok(Recovered(root, p.kept, KeepCertifying(AllQcs(ledger, db.qcs), p.tree), p.removed,
                   OfEpoch(db.lastVote, root.block.epoch), OfEpoch(db.highestTimeout, root.block.epoch)))
  }

  method RecoverFrom(ledger: LedgerInfoWithSignatures, db: ConsensusDb) returns (r: Result<Recovered, RecoveryError>)
    ensures r == Recover(ledger, db)
  {
    var blocks, qcs := db.blocks, db.qcs;
    var rootId, latest := Hash(ledger.ledgerInfo.id), Signed(ledger);
    if ledger.ledgerInfo.EndsEpoch() {
      var genesis, genesisQc := GenesisBlock(ledger.ledgerInfo), GenesisQc(ledger.ledgerInfo);
      blocks := blocks + [genesis];
      qcs := qcs + [genesisQc];
      rootId, latest := genesis.id, genesisQc.proof;
    }
    blocks := Sort(blocks);
    var rootIndex := 0;
    while rootIndex < |blocks| && blocks[rootIndex].id != rootId
      invariant 0 <= rootIndex <= |blocks|
      invariant rootIndex <= IndexOf(blocks, rootId)
    {
      rootIndex := rootIndex + 1;
    }
    if rootIndex == |blocks| {
      return Err(NoRoot(rootId));
    }
    var rootBlock := blocks[rootIndex];
    blocks := RemoveAt(blocks, rootIndex);
    var certifying := FindCertifying(qcs, rootId);
    if certifying.None? {
      return Err(NoCertificate(rootId));
    }
    var ordering := FindCommitting(qcs, rootId);
    if ordering.None? {
      return Err(NoLedgerInfo(rootId));
    }
    var root := RootInfo(rootBlock, certifying.value, ordering.value, latest);
    var toPrune, kept, keptQcs := FindBlocksToPrune(rootId, blocks, qcs);
    var epoch := rootBlock.epoch;
    return Ok(Recovered(root, kept, keptQcs, toPrune, OfEpoch(db.lastVote, epoch), OfEpoch(db.highestTimeout, epoch)));
  }

  // ----- What the pass keeps -----

  function Ids(blocks: seq<Block>): set<BlockId> {
    if blocks == [] then {} else Ids(blocks[..|blocks| - 1]) + {blocks[|blocks| - 1].id}
  }

  lemma {:induction false} IdsHas(blocks: seq<Block>, id: BlockId)
    ensures id in Ids(blocks) <==> exists i | 0 <= i < |blocks| :: blocks[i].id == id
  {
    if blocks != [] {
      IdsHas(blocks[..|blocks| - 1], id);
    }
  }

  function IdSet(ids: seq<BlockId>): set<BlockId> {
    if ids == [] then {} else IdSet(ids[..|ids| - 1]) + {ids[|ids| - 1]}
  }

  predicate DistinctIds(blocks: seq<Block>) {
    forall i, j | 0 <= i < j < |blocks| :: blocks[i].id != blocks[j].id
  }

  /** Block `p` is kept when its turn comes. */
  predicate KeptAt(blocks: seq<Block>, root: BlockId, p: nat)
    requires p < |blocks|
  {
    blocks[p].parentId in Prune(blocks[..p], root).tree
  }

  lemma {:induction false} TreeIs(blocks: seq<Block>, root: BlockId)
    ensures Prune(blocks, root).tree == {root} + Ids(Prune(blocks, root).kept)
  {
    var n := |blocks|;
    if n > 0 {
      TreeIs(blocks[..n - 1], root);
      var kept := Prune(blocks[..n - 1], root).kept;
      assert (kept + [blocks[n - 1]])[..|kept|] == kept;
    }
  }

  /** The last block is kept or not, and the others are kept as without it. */
  lemma {:induction false} KeptAtEnd(blocks: seq<Block>, root: BlockId)
    requires blocks != []
    ensures var front, last := blocks[..|blocks| - 1], |blocks| - 1;
            Prune(blocks, root).kept
            == if KeptAt(blocks, root, last) then Prune(front, root).kept + [blocks[last]] else Prune(front, root).kept
  {
  }

  lemma {:induction false} KeptAtFront(blocks: seq<Block>, root: BlockId, p: nat)
    requires p < |blocks| - 1
    ensures KeptAt(blocks[..|blocks| - 1], root, p) <==> KeptAt(blocks, root, p)
  {
    assert blocks[..|blocks| - 1][..p] == blocks[..p];
  }

  lemma {:induction false} KeptIff(blocks: seq<Block>, root: BlockId, b: Block)
    ensures b in Prune(blocks, root).kept <==> exists p | 0 <= p < |blocks| :: blocks[p] == b && KeptAt(blocks, root, p)
  {
    hide KeptAt;
    var n := |blocks|;
    if n > 0 {
      var front := blocks[..n - 1];
      KeptIff(front, root, b);
      KeptAtEnd(blocks, root);
      forall p | 0 <= p < n - 1
        ensures front[p] == blocks[p] && (KeptAt(front, root, p) <==> KeptAt(blocks, root, p))
      {
        KeptAtFront(blocks, root, p);
      }
    }
  }

  /** A chain of parent links through stored blocks, from a child of the root. */
  predicate IsPath(blocks: seq<Block>, root: BlockId, path: seq<Block>) {
    && path != []
    && (forall i | 0 <= i < |path| :: path[i] in blocks)
    && path[0].parentId == root
    && forall i | 0 < i < |path| :: path[i].parentId == path[i - 1].id
  }

  /** The independent meaning of pruning: reachability along parent links. */
  ghost predicate Descends(blocks: seq<Block>, root: BlockId, b: Block) {
    exists path :: IsPath(blocks, root, path) && path[|path| - 1] == b
  }

  /** A descendant among some blocks is one among more, and its children are descendants too. */
  lemma {:induction false} DescendsFurther(front: seq<Block>, last: Block, root: BlockId, b: Block)
    requires Descends(front, root, b)
    ensures Descends(front + [last], root, b)
    ensures last.parentId == b.id ==> Descends(front + [last], root, last)
  {
    var blocks := front + [last];
    var path :| IsPath(front, root, path) && path[|path| - 1] == b;
    assert IsPath(blocks, root, path);
    if last.parentId == b.id {
      var longer := path + [last];
      assert IsPath(blocks, root, longer) && longer[|longer| - 1] == last;
    }
  }

  /** What is kept descends from the root, for any blocks in any order. */
  lemma {:induction false} KeptDescends(blocks: seq<Block>, root: BlockId, b: Block)
    requires b in Prune(blocks, root).kept
    ensures Descends(blocks, root, b)
  {
    hide IsPath;
    var n := |blocks|;
    var front, last := blocks[..n - 1], blocks[n - 1];
    assert blocks == front + [last];
    var kept := Prune(front, root).kept;
    if b in kept {
      KeptDescends(front, root, b);
      DescendsFurther(front, last, root, b);
    } else {
      TreeIs(front, root);
      IdsHas(kept, b.parentId);
      if b.parentId == root {
        ChildDescends(blocks, root, b);
      } else {
        var i :| 0 <= i < |kept| && kept[i].id == b.parentId;
        KeptDescends(front, root, kept[i]);
        DescendsFurther(front, last, root, kept[i]);
      }
    }
  }

  lemma {:induction false} ChildDescends(blocks: seq<Block>, root: BlockId, b: Block)
    requires b in blocks && b.parentId == root
    ensures Descends(blocks, root, b)
  {
    assert IsPath(blocks, root, [b]);
  }

  /** Keys rise along parent links. */
  predicate Rises(blocks: seq<Block>) {
    forall parent, child | parent in blocks && child in blocks && child.parentId == parent.id :: KeyBelow(parent, child)
  }

  lemma {:induction false} KeptGrows(blocks: seq<Block>, root: BlockId, p: nat, q: nat)
    requires p < q <= |blocks| && KeptAt(blocks, root, p)
    ensures blocks[p].id in Prune(blocks[..q], root).tree
  {
    var front := blocks[..q];
    assert front[..p] == blocks[..p];
    assert KeptAt(front, root, p) && front[p] == blocks[p];
    KeptIff(front, root, blocks[p]);
    TreeIs(front, root);
    var kept := Prune(front, root).kept;
    var i :| 0 <= i < |kept| && kept[i] == blocks[p];
    IdsHas(kept, blocks[p].id);
  }

  /** In an order in which keys rise along parent links, everything that descends from the root is kept. */
  lemma {:induction false} PathIsKept(blocks: seq<Block>, root: BlockId, path: seq<Block>)
    requires Sorted(blocks) && Rises(blocks) && IsPath(blocks, root, path)
    ensures path[|path| - 1] in Prune(blocks, root).kept
    decreases |path|
  {
    var b := path[|path| - 1];
    var q :| 0 <= q < |blocks| && blocks[q] == b;
    if |path| == 1 {
      TreeIs(blocks[..q], root);
    } else {
      var front := path[..|path| - 1];
      assert IsPath(blocks, root, front);
      PathIsKept(blocks, root, front);
      var parent := front[|front| - 1];
      KeptIff(blocks, root, parent);
      var p :| 0 <= p < |blocks| && blocks[p] == parent && KeptAt(blocks, root, p);
      assert KeyBelow(parent, b);
      KeptGrows(blocks, root, p, q);
    }
    assert KeptAt(blocks, root, q);
    KeptIff(blocks, root, b);
  }

  lemma {:induction false} PruneIsReachability(blocks: seq<Block>, root: BlockId, b: Block)
    requires Sorted(blocks) && Rises(blocks)
    ensures b in Prune(blocks, root).kept <==> Descends(blocks, root, b)
  {
    if b in Prune(blocks, root).kept {
      KeptDescends(blocks, root, b);
    }
    if Descends(blocks, root, b) {
      var path :| IsPath(blocks, root, path) && path[|path| - 1] == b;
      PathIsKept(blocks, root, path);
    }
  }

  /** Every kept block comes after its parent: the parent is the root or an earlier kept block. */
  lemma {:induction false} ParentsComeFirst(blocks: seq<Block>, root: BlockId, i: nat)
    requires i < |Prune(blocks, root).kept|
    ensures var kept := Prune(blocks, root).kept;
            kept[i].parentId == root || exists j | 0 <= j < i :: kept[j].id == kept[i].parentId
  {
    var n := |blocks|;
    var front := blocks[..n - 1];
    var kept, before := Prune(blocks, root).kept, Prune(front, root).kept;
    if i < |before| {
      ParentsComeFirst(front, root, i);
      assert forall j | 0 <= j <= i :: kept[j] == before[j];
    } else {
      TreeIs(front, root);
      IdsHas(before, kept[i].parentId);
      assert forall j | 0 <= j < i :: kept[j] == before[j];
    }
  }

  /** The blocks whose id is not in `ids`, in order. */
  function Without(blocks: seq<Block>, ids: set<BlockId>): seq<Block> {
    var n := |blocks|;
    if n == 0 then []
    else if blocks[n - 1].id in ids then Without(blocks[..n - 1], ids)
    else Without(blocks[..n - 1], ids) + [blocks[n - 1]]
  }

  lemma {:induction false} WithoutHas(blocks: seq<Block>, ids: set<BlockId>, b: Block)
    ensures b in Without(blocks, ids) <==> b in blocks && b.id !in ids
  {
    var n := |blocks|;
    if n > 0 {
      WithoutHas(blocks[..n - 1], ids, b);
      assert blocks == blocks[..n - 1] + [blocks[n - 1]];
    }
  }

  lemma {:induction false} WithoutAppend(blocks: seq<Block>, more: seq<Block>, ids: set<BlockId>)
    ensures Without(blocks + more, ids) == Without(blocks, ids) + Without(more, ids)
  {
    var n := |more|;
    if n == 0 {
      assert blocks + more == blocks;
    } else {
      assert (blocks + more)[..|blocks + more| - 1] == blocks + more[..n - 1];
      WithoutAppend(blocks, more[..n - 1], ids);
    }
  }

  lemma {:induction false} WithoutNone(blocks: seq<Block>, ids: set<BlockId>)
    requires forall i | 0 <= i < |blocks| :: blocks[i].id !in ids
    ensures Without(blocks, ids) == blocks
  {
    var n := |blocks|;
    if n > 0 {
      WithoutNone(blocks[..n - 1], ids);
    }
  }

  lemma {:induction false} WithoutTwice(blocks: seq<Block>, a: set<BlockId>, b: set<BlockId>)
    ensures Without(Without(blocks, a), b) == Without(Without(blocks, b), a)
  {
    var n := |blocks|;
    if n > 0 {
      var last := blocks[n - 1..];
      assert blocks == blocks[..n - 1] + last;
      WithoutTwice(blocks[..n - 1], a, b);
      WithoutAppend(Without(blocks[..n - 1], a), Without(last, a), b);
      WithoutAppend(Without(blocks[..n - 1], b), Without(last, b), a);
      WithoutAppend(blocks[..n - 1], last, a);
      WithoutAppend(blocks[..n - 1], last, b);
    }
  }

  /** The pass splits the blocks: the ids it returns are exactly those of the blocks it does not keep. */
  lemma {:induction false} PruneSplits(blocks: seq<Block>, root: BlockId)
    requires DistinctIds(blocks)
    ensures var p := Prune(blocks, root);
            && p.kept == Without(blocks, IdSet(p.removed))
            && IdSet(p.removed) == Ids(blocks) - Ids(p.kept)
            && |p.kept| + |p.removed| == |blocks|
  {
    var n := |blocks|;
    if n > 0 {
      var front, last := blocks[..n - 1], blocks[n - 1];
      PruneSplits(front, root);
      IdsHas(front, last.id);
      var before := Prune(front, root);
      if last.parentId in before.tree {
        assert (before.kept + [last])[..|before.kept|] == before.kept;
      } else {
        assert (before.removed + [last.id])[..|before.removed|] == before.removed;
        WithoutMore(front, IdSet(before.removed), last.id);
        KeptAreIds(front, root);
      }
    }
  }

  lemma {:induction false} KeptAreIds(blocks: seq<Block>, root: BlockId)
    ensures Ids(Prune(blocks, root).kept) <= Ids(blocks)
  {
    var n := |blocks|;
    if n > 0 {
      KeptAreIds(blocks[..n - 1], root);
      var kept := Prune(blocks[..n - 1], root).kept;
      assert (kept + [blocks[n - 1]])[..|kept|] == kept;
    }
  }

  lemma {:induction false} WithoutMore(blocks: seq<Block>, ids: set<BlockId>, id: BlockId)
    requires id !in Ids(blocks)
    ensures Without(blocks, ids + {id}) == Without(blocks, ids)
  {
    var n := |blocks|;
    if n > 0 {
      WithoutMore(blocks[..n - 1], ids, id);
    }
  }

  /** A second pass over what was kept keeps all of it. */
  lemma {:induction false} PruneAgain(blocks: seq<Block>, root: BlockId)
    ensures var p := Prune(blocks, root);
            Prune(p.kept, root) == Pruning(p.kept, [], p.tree)
  {
    var n := |blocks|;
    if n > 0 {
      PruneAgain(blocks[..n - 1], root);
      var before, last := Prune(blocks[..n - 1], root), blocks[n - 1];
      assert (before.kept + [last])[..|before.kept|] == before.kept;
    }
  }

  // ----- Sorting and deleting -----

  lemma {:induction false} InsertCommutes(blocks: seq<Block>, b: Block, ids: set<BlockId>)
    requires Sorted(blocks)
    ensures Without(InsertSorted(blocks, b), ids)
         == if b.id in ids then Without(blocks, ids) else InsertSorted(Without(blocks, ids), b)
  {
    var n := |blocks|;
    if n == 0 || KeyAtMost(blocks[n - 1], b) {
      assert (blocks + [b])[..n] == blocks;
      if b.id !in ids {
        InsertAtEnd(Without(blocks, ids), b, blocks, ids);
      }
    } else {
      var front, last := blocks[..n - 1], blocks[n - 1];
      InsertCommutes(front, b, ids);
      var inserted := InsertSorted(front, b);
      assert (inserted + [last])[..|inserted|] == inserted;
      if b.id !in ids && last.id !in ids {
        var kept := Without(front, ids);
        assert (kept + [last])[..|kept|] == kept;
      }
    }
  }

  lemma {:induction false} InsertAtEnd(kept: seq<Block>, b: Block, blocks: seq<Block>, ids: set<BlockId>)
    requires Sorted(blocks) && kept == Without(blocks, ids)
    requires blocks != [] ==> KeyAtMost(blocks[|blocks| - 1], b)
    ensures InsertSorted(kept, b) == kept + [b]
  {
    if kept != [] {
      var last := kept[|kept| - 1];
      WithoutHas(blocks, ids, last);
    }
  }

  /** Deleting blocks and sorting commute. */
  lemma {:induction false} SortCommutes(blocks: seq<Block>, ids: set<BlockId>)
    ensures Sort(Without(blocks, ids)) == Without(Sort(blocks), ids)
  {
    var n := |blocks|;
    if n > 0 {
      var front, last := blocks[..n - 1], blocks[n - 1];
      SortCommutes(front, ids);
      SortIs(front);
      InsertCommutes(Sort(front), last, ids);
      var kept := Without(front, ids);
      assert last.id !in ids ==> (kept + [last])[..|kept|] == kept;
    }
  }

  // ----- Recovery as a whole -----

  /** Removing the root from blocks with distinct ids is deleting its id. */
  lemma {:induction false} RootRemoved(blocks: seq<Block>, i: nat)
    requires DistinctIds(blocks) && i < |blocks|
    ensures RemoveAt(blocks, i) == Without(blocks, {blocks[i].id})
  {
    var ids := {blocks[i].id};
    var upTo, rest := blocks[..i + 1], blocks[i + 1..];
    assert upTo[..i] == blocks[..i];
    assert blocks == upTo + rest;
    WithoutAppend(upTo, rest, ids);
    WithoutNone(blocks[..i], ids);
    WithoutNone(rest, ids);
  }

  /** Sorting keeps ids distinct. */
  lemma {:induction false} SortKeepsDistinct(blocks: seq<Block>)
    requires DistinctIds(blocks)
    ensures DistinctIds(Sort(blocks))
  {
    var n := |blocks|;
    if n > 0 {
      var front, last := blocks[..n - 1], blocks[n - 1];
      SortKeepsDistinct(front);
      SortIs(front);
      forall i | 0 <= i < |Sort(front)|
        ensures Sort(front)[i].id != last.id
      {
        assert Sort(front)[i] in multiset(front);
      }
      InsertKeepsDistinct(Sort(front), last);
    }
  }

  lemma {:induction false} InsertKeepsDistinct(blocks: seq<Block>, b: Block)
    requires DistinctIds(blocks) && forall i | 0 <= i < |blocks| :: blocks[i].id != b.id
    ensures DistinctIds(InsertSorted(blocks, b))
  {
    var n := |blocks|;
    if n > 0 && !KeyAtMost(blocks[n - 1], b) {
      var front := blocks[..n - 1];
      InsertKeepsDistinct(front, b);
      InsertPermutes(front, b);
      var inserted := InsertSorted(front, b);
      forall i | 0 <= i < |inserted|
        ensures inserted[i].id != blocks[n - 1].id
      {
        assert inserted[i] in multiset(inserted);
      }
    }
  }

  lemma {:induction false} OthersAre(ledger: LedgerInfoWithSignatures, blocks: seq<Block>)
    requires DistinctIds(AllBlocks(ledger, blocks))
    requires var sorted := Sort(AllBlocks(ledger, blocks)); IndexOf(sorted, RootId(ledger)) < |sorted|
    ensures Others(ledger, blocks) == Without(Sort(AllBlocks(ledger, blocks)), {RootId(ledger)})
    ensures DistinctIds(Sort(AllBlocks(ledger, blocks)))
    ensures Sorted(Others(ledger, blocks)) && DistinctIds(Others(ledger, blocks))
  {
    var all := AllBlocks(ledger, blocks);
    SortIs(all);
    SortKeepsDistinct(all);
    RootRemoved(Sort(all), IndexOf(Sort(all), RootId(ledger)));
    WithoutSorted(Sort(all), {RootId(ledger)});
    WithoutDistinct(Sort(all), {RootId(ledger)});
  }

  lemma {:induction false} WithoutDistinct(blocks: seq<Block>, ids: set<BlockId>)
    requires DistinctIds(blocks)
    ensures DistinctIds(Without(blocks, ids))
  {
    var n := |blocks|;
    if n > 0 {
      var front := blocks[..n - 1];
      WithoutDistinct(front, ids);
      forall i | 0 <= i < |Without(front, ids)|
        ensures Without(front, ids)[i].id != blocks[n - 1].id
      {
        WithoutHas(front, ids, Without(front, ids)[i]);
      }
    }
  }

  /** What a successful recovery consists of. */
  lemma {:induction false} RecoveredIs(ledger: LedgerInfoWithSignatures, db: ConsensusDb)
    requires Recover(ledger, db).Ok?
    ensures var r := Recover(ledger, db).value;
            var sorted, root := Sort(AllBlocks(ledger, db.blocks)), RootId(ledger);
            var p := Prune(Others(ledger, db.blocks), root);
            && IndexOf(sorted, root) < |sorted| && r.root.block == sorted[IndexOf(sorted, root)]
            && r.blocks == p.kept && r.toPrune == p.removed
            && r.qcs == KeepCertifying(AllQcs(ledger, db.qcs), p.tree)
  {
    hide Sort, AllBlocks, AllQcs, Prune, KeepCertifying, Others, IndexOf, FindCertifying, FindCommitting;
  }

  lemma {:induction false} OthersHas(ledger: LedgerInfoWithSignatures, blocks: seq<Block>, b: Block)
    requires DistinctIds(AllBlocks(ledger, blocks))
    requires var sorted := Sort(AllBlocks(ledger, blocks)); IndexOf(sorted, RootId(ledger)) < |sorted|
    ensures b in Others(ledger, blocks) <==> b in AllBlocks(ledger, blocks) && b.id != RootId(ledger)
  {
    hide Sort, AllBlocks, Others, Without, DistinctIds, Sorted;
    OthersAre(ledger, blocks);
    InSorted(AllBlocks(ledger, blocks), b);
    WithoutHas(Sort(AllBlocks(ledger, blocks)), {RootId(ledger)}, b);
  }

  /** Recovery keeps exactly the stored blocks that descend from the root along parent links, in key order. */
  lemma {:induction false} RecoveryKeepsDescendants(ledger: LedgerInfoWithSignatures, db: ConsensusDb, b: Block)
    requires Recover(ledger, db).Ok?
    requires DistinctIds(AllBlocks(ledger, db.blocks)) && Rises(AllBlocks(ledger, db.blocks))
    ensures var r, others := Recover(ledger, db).value, Others(ledger, db.blocks);
            && r.root.block in AllBlocks(ledger, db.blocks) && r.root.block.id == RootId(ledger)
            && (b in others <==> b in AllBlocks(ledger, db.blocks) && b.id != RootId(ledger))
            && (b in r.blocks <==> Descends(others, RootId(ledger), b))
            && Sorted(r.blocks)
  {
    hide Sort, AllBlocks, Others, Without, DistinctIds, Sorted, Recover, Prune, Rises, Descends, IndexOf;
    var all, root, others := AllBlocks(ledger, db.blocks), RootId(ledger), Others(ledger, db.blocks);
    RecoveredIs(ledger, db);
    OthersAre(ledger, db.blocks);
    OthersHas(ledger, db.blocks, b);
    InSorted(all, Recover(ledger, db).value.root.block);
    OthersRise(all, others, root);
    PruneIsReachability(others, root, b);
    PruneSplits(others, root);
    WithoutSorted(others, IdSet(Prune(others, root).removed));
  }

  /** It returns exactly the ids of the other blocks, and keeps the certificates of the root and of kept blocks. */
  lemma {:induction false} RecoveryPrunesTheRest(ledger: LedgerInfoWithSignatures, db: ConsensusDb, qc: QuorumCert)
    requires Recover(ledger, db).Ok? && DistinctIds(AllBlocks(ledger, db.blocks))
    ensures var r, others := Recover(ledger, db).value, Others(ledger, db.blocks);
            && r.blocks == Without(others, IdSet(r.toPrune))
            && IdSet(r.toPrune) == Ids(others) - Ids(r.blocks)
            && RootId(ledger) !in IdSet(r.toPrune)
            && (qc in r.qcs <==>
                  qc in AllQcs(ledger, db.qcs) && (qc.certifiedId == RootId(ledger) || qc.certifiedId in Ids(r.blocks)))
  {
    hide Sort, AllBlocks, Others, Without, DistinctIds, Sorted, Recover, Prune, IndexOf, AllQcs, KeepCertifying, Ids;
    var root, others := RootId(ledger), Others(ledger, db.blocks);
    RecoveredIs(ledger, db);
    OthersAre(ledger, db.blocks);
    PruneSplits(others, root);
    RootIsNotOther(ledger, db.blocks);
    KeepCertifyingHas(AllQcs(ledger, db.qcs), Prune(others, root).tree, qc);
    TreeIs(others, root);
  }

  lemma {:induction false} RootIsNotOther(ledger: LedgerInfoWithSignatures, blocks: seq<Block>)
    requires DistinctIds(AllBlocks(ledger, blocks))
    requires var sorted := Sort(AllBlocks(ledger, blocks)); IndexOf(sorted, RootId(ledger)) < |sorted|
    ensures RootId(ledger) !in Ids(Others(ledger, blocks))
  {
    hide Sort, AllBlocks, Without, DistinctIds, Sorted, Others, IndexOf;
    var others := Others(ledger, blocks);
    IdsHas(others, RootId(ledger));
    forall i | 0 <= i < |others|
      ensures others[i].id != RootId(ledger)
    {
      OthersHas(ledger, blocks, others[i]);
    }
  }

  lemma {:induction false} InSorted(blocks: seq<Block>, b: Block)
    ensures b in Sort(blocks) <==> b in blocks
  {
    SortIs(blocks);
    assert b in Sort(blocks) <==> b in multiset(Sort(blocks));
    assert b in blocks <==> b in multiset(blocks);
  }

  lemma {:induction false} OthersRise(all: seq<Block>, others: seq<Block>, root: BlockId)
    requires Rises(all) && others == Without(Sort(all), {root})
    ensures Rises(others)
  {
    forall parent, child | parent in others && child in others && child.parentId == parent.id
      ensures KeyBelow(parent, child)
    {
      WithoutHas(Sort(all), {root}, parent);
      WithoutHas(Sort(all), {root}, child);
      InSorted(all, parent);
      InSorted(all, child);
    }
  }

  lemma {:induction false} WithoutSorted(blocks: seq<Block>, ids: set<BlockId>)
    requires Sorted(blocks)
    ensures Sorted(Without(blocks, ids))
  {
    var n := |blocks|;
    if n > 0 {
      var front := blocks[..n - 1];
      WithoutSorted(front, ids);
      forall i | 0 <= i < |Without(front, ids)|
        ensures KeyAtMost(Without(front, ids)[i], blocks[n - 1])
      {
        WithoutHas(front, ids, Without(front, ids)[i]);
      }
    }
  }

  lemma {:induction false} KeepCertifyingHas(qcs: seq<QuorumCert>, tree: set<BlockId>, qc: QuorumCert)
    ensures qc in KeepCertifying(qcs, tree) <==> qc in qcs && qc.certifiedId in tree
  {
    var n := |qcs|;
    if n > 0 {
      KeepCertifyingHas(qcs[..n - 1], tree, qc);
      assert qcs == qcs[..n - 1] + [qcs[n - 1]];
    }
  }

  // ----- When recovery succeeds, and from which root -----

  /** The first certificate that certifies the block. */
  predicate FirstToCertify(qcs: seq<QuorumCert>, id: BlockId, qc: QuorumCert) {
    && qc.certifiedId == id
    && exists i | 0 <= i < |qcs| :: qcs[i] == qc && forall k | 0 <= k < i :: qcs[k].certifiedId != id
  }

  /** The first certificate that commits the block. */
  predicate FirstToCommit(qcs: seq<QuorumCert>, id: BlockId, qc: QuorumCert) {
    && qc.commitId == id
    && exists i | 0 <= i < |qcs| :: qcs[i] == qc && forall k | 0 <= k < i :: qcs[k].commitId != id
  }

  lemma {:induction false} CertifyingIsFirst(qcs: seq<QuorumCert>, id: BlockId)
    ensures FindCertifying(qcs, id).Some? ==> FirstToCertify(qcs, id, FindCertifying(qcs, id).value)
  {
    if qcs != [] && qcs[0].certifiedId == id {
      assert qcs[0] == FindCertifying(qcs, id).value;
    } else if FindCertifying(qcs, id).Some? {
      CertifyingIsFirst(qcs[1..], id);
      var qc := FindCertifying(qcs, id).value;
      var i :| 0 <= i < |qcs[1..]| && qcs[1..][i] == qc && forall k | 0 <= k < i :: qcs[1..][k].certifiedId != id;
      assert qcs[i + 1] == qc && forall k | 0 < k < i + 1 :: qcs[k] == qcs[1..][k - 1];
    }
  }

  lemma {:induction false} CommittingIsFirst(qcs: seq<QuorumCert>, id: BlockId)
    ensures FindCommitting(qcs, id).Some? ==> FirstToCommit(qcs, id, FindCommitting(qcs, id).value)
  {
    if qcs != [] && qcs[0].commitId == id {
      assert qcs[0] == FindCommitting(qcs, id).value;
    } else if FindCommitting(qcs, id).Some? {
      CommittingIsFirst(qcs[1..], id);
      var qc := FindCommitting(qcs, id).value;
      var i :| 0 <= i < |qcs[1..]| && qcs[1..][i] == qc && forall k | 0 <= k < i :: qcs[1..][k].commitId != id;
      assert qcs[i + 1] == qc && forall k | 0 < k < i + 1 :: qcs[k] == qcs[1..][k - 1];
    }
  }

  predicate IsStored(blocks: seq<Block>, id: BlockId) {
    exists i | 0 <= i < |blocks| :: blocks[i].id == id
  }

  predicate IsCertified(qcs: seq<QuorumCert>, id: BlockId) {
    exists qc | qc in qcs :: qc.certifiedId == id
  }

  predicate IsCommitted(qcs: seq<QuorumCert>, id: BlockId) {
    exists qc | qc in qcs :: qc.commitId == id
  }

  lemma {:induction false} StoredIsFound(blocks: seq<Block>, id: BlockId)
    ensures IndexOf(Sort(blocks), id) < |Sort(blocks)| <==> IsStored(blocks, id)
  {
    hide Sort, IndexOf;
    var sorted, i := Sort(blocks), IndexOf(Sort(blocks), id);
    if i < |sorted| {
      InSorted(blocks, sorted[i]);
      var k :| 0 <= k < |blocks| && blocks[k] == sorted[i];
    } else if IsStored(blocks, id) {
      var k :| 0 <= k < |blocks| && blocks[k].id == id;
      InSorted(blocks, blocks[k]);
    }
  }

  /**
   * A ledger that ends its epoch always recovers, whatever the database holds. Otherwise the block with the
   * ledger's id, a certificate of it and one that commits it must be stored, and the first that is missing
   * is what the error names.
   */
  lemma {:induction false} RecoversIff(ledger: LedgerInfoWithSignatures, db: ConsensusDb)
    ensures var id, r := Hash(ledger.ledgerInfo.id), Recover(ledger, db);
            if ledger.ledgerInfo.EndsEpoch() then r.Ok?
            else if !IsStored(db.blocks, id) then r == Err(NoRoot(id))
            else if !IsCertified(db.qcs, id) then r == Err(NoCertificate(id))
            else if !IsCommitted(db.qcs, id) then r == Err(NoLedgerInfo(id))
            else r.Ok?
  {
    hide Sort, Others, Prune, KeepCertifying, IndexOf, FindCertifying, FindCommitting, IsStored;
    var li, all, qcs := ledger.ledgerInfo, AllBlocks(ledger, db.blocks), AllQcs(ledger, db.qcs);
    StoredIsFound(all, RootId(ledger));
    if li.EndsEpoch() {
      GenesisIsStored(ledger, db.blocks);
      assert qcs[|qcs| - 1] == GenesisQc(li);
    }
  }

  lemma {:induction false} GenesisIsStored(ledger: LedgerInfoWithSignatures, blocks: seq<Block>)
    requires ledger.ledgerInfo.EndsEpoch()
    ensures IsStored(AllBlocks(ledger, blocks), RootId(ledger))
  {
    assert AllBlocks(ledger, blocks)[|blocks|].id == RootId(ledger);
  }

  /**
   * The root of a recovery: certified and committed by the first stored certificates that do so, before the
   * virtual ones of the genesis block, and with the proof that the ledger is committed.
   */
  lemma {:induction false} RootIsFirst(ledger: LedgerInfoWithSignatures, db: ConsensusDb)
    requires Recover(ledger, db).Ok?
    ensures var root, id := Recover(ledger, db).value.root, RootId(ledger);
            && root.block.id == id
            && (if IsCertified(db.qcs, id) then FirstToCertify(db.qcs, id, root.certifying)
                else root.certifying == GenesisQc(ledger.ledgerInfo))
            && (if IsCommitted(db.qcs, id) then FirstToCommit(db.qcs, id, root.ordering)
                else root.ordering == GenesisQc(ledger.ledgerInfo))
            && (!ledger.ledgerInfo.EndsEpoch() ==> root.latest == Signed(ledger))
            && (ledger.ledgerInfo.EndsEpoch() ==> root.latest == GenesisQc(ledger.ledgerInfo).proof)
  {
    hide Sort, Others, Prune, KeepCertifying, IndexOf, FindCertifying, FindCommitting, FirstToCertify, FirstToCommit;
    var id, all := RootId(ledger), AllQcs(ledger, db.qcs);
    CertifyingIsFirst(all, id);
    CommittingIsFirst(all, id);
    var root := Recover(ledger, db).value.root;
    FirstOfMore(db.qcs, GenesisQc(ledger.ledgerInfo), id, root.certifying);
    FirstCommitOfMore(db.qcs, GenesisQc(ledger.ledgerInfo), id, root.ordering);
  }

  lemma {:induction false} FirstOfMore(qcs: seq<QuorumCert>, last: QuorumCert, id: BlockId, qc: QuorumCert)
    ensures FirstToCertify(qcs + [last], id, qc) ==>
              if IsCertified(qcs, id) then FirstToCertify(qcs, id, qc) else qc == last
    ensures FirstToCertify(qcs, id, qc) ==> IsCertified(qcs, id)
  {
    if FirstToCertify(qcs + [last], id, qc) && IsCertified(qcs, id) {
      var more := qcs + [last];
      var i :| 0 <= i < |more| && more[i] == qc && forall k | 0 <= k < i :: more[k].certifiedId != id;
      var other :| other in qcs && other.certifiedId == id;
      var k :| 0 <= k < |qcs| && qcs[k] == other;
      assert more[k] == other;
      assert i < |qcs| && forall j | 0 <= j < i :: qcs[j] == more[j];
      assert qcs[i] == qc;
    }
  }

  lemma {:induction false} FirstCommitOfMore(qcs: seq<QuorumCert>, last: QuorumCert, id: BlockId, qc: QuorumCert)
    ensures FirstToCommit(qcs + [last], id, qc) ==>
              if IsCommitted(qcs, id) then FirstToCommit(qcs, id, qc) else qc == last
    ensures FirstToCommit(qcs, id, qc) ==> IsCommitted(qcs, id)
  {
    if FirstToCommit(qcs + [last], id, qc) && IsCommitted(qcs, id) {
      var more := qcs + [last];
      var i :| 0 <= i < |more| && more[i] == qc && forall k | 0 <= k < i :: more[k].commitId != id;
      var other :| other in qcs && other.commitId == id;
      var k :| 0 <= k < |qcs| && qcs[k] == other;
      assert more[k] == other;
      assert i < |qcs| && forall j | 0 <= j < i :: qcs[j] == more[j];
      assert qcs[i] == qc;
    }
  }

  /** The kept blocks come by epoch, and within an epoch by round. */
  lemma {:induction false} RecoveredInOrder(ledger: LedgerInfoWithSignatures, db: ConsensusDb, i: nat, j: nat)
    requires Recover(ledger, db).Ok? && DistinctIds(AllBlocks(ledger, db.blocks)) && Rises(AllBlocks(ledger, db.blocks))
    requires i < j < |Recover(ledger, db).value.blocks|
    ensures var a, b := Recover(ledger, db).value.blocks[i], Recover(ledger, db).value.blocks[j];
            a.epoch < b.epoch || (a.epoch == b.epoch && a.round <= b.round)
  {
    hide Recover, AllBlocks, DistinctIds, Rises;
    RecoveryKeepsDescendants(ledger, db, Recover(ledger, db).value.blocks[i]);
  }

  // ----- The recovered vote and timeout certificate -----

  /** A stored message survives unchanged exactly when it is of the epoch. */
  predicate KeptIfOf(stored: Option<Message>, recovered: Option<Message>, epoch: nat) {
    match stored
    case None => recovered.None?
    case Some(message) =>
      && (recovered == stored <==> message.epoch == epoch)
      && (recovered.None? <==> message.epoch != epoch)
  }

  /**
   * The last vote and the highest timeout certificate are recovered exactly when they are of the epoch of
   * the root: the epoch after the ledger's when that has ended, and otherwise the epoch of the stored
   * block with the ledger's id.
   */
  lemma {:induction false} MessagesOfRootEpoch(ledger: LedgerInfoWithSignatures, db: ConsensusDb)
    requires Recover(ledger, db).Ok?
    ensures var r := Recover(ledger, db).value;
            && KeptIfOf(db.lastVote, r.lastVote, r.root.block.epoch)
            && KeptIfOf(db.highestTimeout, r.highestTimeout, r.root.block.epoch)
            && (ledger.ledgerInfo.EndsEpoch() && DistinctIds(AllBlocks(ledger, db.blocks)) ==>
                  && r.root.block.epoch == ledger.ledgerInfo.epoch + 1
                  && forall b: Block | b.epoch == r.root.block.epoch && b.round > 0 :: KeyBelow(r.root.block, b))
            && (!ledger.ledgerInfo.EndsEpoch() ==>
                  r.root.block in db.blocks && r.root.block.id == Hash(ledger.ledgerInfo.id))
  {
    hide Sort, Others, Prune, KeepCertifying, IndexOf, FindCertifying, FindCommitting;
    RecoveredIs(ledger, db);
    var all, root := AllBlocks(ledger, db.blocks), Recover(ledger, db).value.root.block;
    InSorted(all, root);
    if ledger.ledgerInfo.EndsEpoch() {
      var i :| 0 <= i < |all| && all[i] == root;
      assert all[|all| - 1] == GenesisBlock(ledger.ledgerInfo);
    }
  }

  // ----- Running recovery again -----

  /** The certificates that are not keyed by a deleted id. */
  function WithoutQcs(qcs: seq<QuorumCert>, ids: set<BlockId>): seq<QuorumCert> {
    if qcs == [] then []
    else if qcs[0].certifiedId in ids then WithoutQcs(qcs[1..], ids)
    else [qcs[0]] + WithoutQcs(qcs[1..], ids)
  }

  /** The database after start-up: what recovery gave up is deleted, and so are messages of other epochs. */
  function AfterStart(ledger: LedgerInfoWithSignatures, db: ConsensusDb): ConsensusDb {
    match Recover(ledger, db)
    case Err(_) => db
    case Ok(r) =>
      var ids := IdSet(r.toPrune);
      ConsensusDb(Without(db.blocks, ids), WithoutQcs(db.qcs, ids), r.lastVote, r.highestTimeout)
  }

  lemma {:induction false} CertifyingStays(qcs: seq<QuorumCert>, ids: set<BlockId>, id: BlockId)
    requires id !in ids
    ensures FindCertifying(WithoutQcs(qcs, ids), id) == FindCertifying(qcs, id)
  {
    if qcs != [] {
      CertifyingStays(qcs[1..], ids, id);
    }
  }

  lemma {:induction false} WithoutQcsHas(qcs: seq<QuorumCert>, ids: set<BlockId>, qc: QuorumCert)
    ensures qc in WithoutQcs(qcs, ids) <==> qc in qcs && qc.certifiedId !in ids
  {
    if qcs != [] {
      WithoutQcsHas(qcs[1..], ids, qc);
      assert qcs == [qcs[0]] + qcs[1..];
    }
  }

  lemma {:induction false} WithoutQcsAppend(qcs: seq<QuorumCert>, qc: QuorumCert, ids: set<BlockId>)
    ensures WithoutQcs(qcs + [qc], ids)
         == if qc.certifiedId in ids then WithoutQcs(qcs, ids) else WithoutQcs(qcs, ids) + [qc]
  {
    if qcs == [] {
      assert qcs + [qc] == [qc];
    } else {
      assert (qcs + [qc])[1..] == qcs[1..] + [qc];
      WithoutQcsAppend(qcs[1..], qc, ids);
    }
  }

  lemma {:induction false} KeptQcsStay(qcs: seq<QuorumCert>, ids: set<BlockId>, tree: set<BlockId>)
    requires ids !! tree
    ensures KeepCertifying(WithoutQcs(qcs, ids), tree) == KeepCertifying(qcs, tree)
  {
    var n := |qcs|;
    if n > 0 {
      var front, last := qcs[..n - 1], qcs[n - 1];
      assert qcs == front + [last];
      WithoutQcsAppend(front, last, ids);
      KeptQcsStay(front, ids, tree);
      var kept := WithoutQcs(front, ids);
      assert (kept + [last])[..|kept|] == kept;
    }
  }

  /** The virtual genesis block and its certificate are added again, whatever was deleted. */
  lemma {:induction false} GenesisStays(ledger: LedgerInfoWithSignatures, db: ConsensusDb, ids: set<BlockId>)
    requires RootId(ledger) !in ids
    ensures AllBlocks(ledger, Without(db.blocks, ids)) == Without(AllBlocks(ledger, db.blocks), ids)
    ensures AllQcs(ledger, WithoutQcs(db.qcs, ids)) == WithoutQcs(AllQcs(ledger, db.qcs), ids)
  {
    if ledger.ledgerInfo.EndsEpoch() {
      var genesis := GenesisBlock(ledger.ledgerInfo);
      assert (db.blocks + [genesis])[..|db.blocks|] == db.blocks;
      WithoutQcsAppend(db.qcs, GenesisQc(ledger.ledgerInfo), ids);
    }
  }

  /** With distinct ids there is one block of an id, wherever it stands. */
  lemma {:induction false} SameBlock(blocks: seq<Block>, ids: set<BlockId>, id: BlockId)
    requires DistinctIds(blocks) && id !in ids && IndexOf(blocks, id) < |blocks|
    ensures var left := Without(blocks, ids);
            IndexOf(left, id) < |left| && left[IndexOf(left, id)] == blocks[IndexOf(blocks, id)]
  {
    var left, b := Without(blocks, ids), blocks[IndexOf(blocks, id)];
    WithoutHas(blocks, ids, b);
    var i :| 0 <= i < |left| && left[i] == b;
    var found := left[IndexOf(left, id)];
    WithoutHas(blocks, ids, found);
  }

  /** The blocks that a second run looks at are the ones that the first run kept. */
  lemma {:induction false} SecondRunSees(ledger: LedgerInfoWithSignatures, db: ConsensusDb)
    requires Recover(ledger, db).Ok? && DistinctIds(AllBlocks(ledger, db.blocks))
    ensures var first, again := Recover(ledger, db).value, AfterStart(ledger, db);
            var sorted := Sort(AllBlocks(ledger, again.blocks));
            && IndexOf(sorted, RootId(ledger)) < |sorted|
            && sorted[IndexOf(sorted, RootId(ledger))] == first.root.block
            && Others(ledger, again.blocks) == first.blocks
  {
    hide Sort, AllBlocks, Without, DistinctIds, Sorted, Recover, Prune, IndexOf, AllQcs, KeepCertifying, Ids, IdSet,
      WithoutQcs, Others;
    var all, root := AllBlocks(ledger, db.blocks), RootId(ledger);
    var ids := IdSet(Recover(ledger, db).value.toPrune);
    RecoveredIs(ledger, db);
    OthersAre(ledger, db.blocks);
    PruneSplits(Others(ledger, db.blocks), root);
    RootIsNotOther(ledger, db.blocks);
    GenesisStays(ledger, db, ids);
    SortCommutes(all, ids);
    SameBlock(Sort(all), ids, root);
    WithoutDistinct(all, ids);
    OthersAre(ledger, AfterStart(ledger, db).blocks);
    WithoutTwice(Sort(all), {root}, ids);
  }

  /**
   * Recovery is idempotent: run again on its own result it finds the same root, keeps the same blocks
   * and certificates in the same order, and prunes nothing. It can do so exactly when a certificate
   * that commits the root certifies an id that was not pruned.
   */
  lemma {:induction false} RecoveryIsIdempotent(ledger: LedgerInfoWithSignatures, db: ConsensusDb)
    requires Recover(ledger, db).Ok? && DistinctIds(AllBlocks(ledger, db.blocks))
    ensures var first, again := Recover(ledger, db).value, Recover(ledger, AfterStart(ledger, db));
            && (again.Ok? <==> exists qc | qc in AllQcs(ledger, db.qcs) ::
                  qc.commitId == RootId(ledger) && qc.certifiedId !in IdSet(first.toPrune))
            && (again.Ok? ==>
                  && again.value.root.block == first.root.block
                  && again.value.root.certifying == first.root.certifying
                  && again.value.root.ordering.certifiedId !in IdSet(first.toPrune)
                  && (first.root.ordering.certifiedId !in IdSet(first.toPrune) ==>
                        again.value.root.ordering == first.root.ordering)
                  && again.value.root.latest == first.root.latest
                  && again.value.blocks == first.blocks && again.value.qcs == first.qcs
                  && again.value.toPrune == []
                  && again.value.lastVote == first.lastVote && again.value.highestTimeout == first.highestTimeout
                  && AfterStart(ledger, AfterStart(ledger, db)) == AfterStart(ledger, db))
  {
    hide Sort, AllBlocks, Without, DistinctIds, Sorted, Prune, IndexOf, AllQcs, KeepCertifying, Ids, IdSet,
      WithoutQcs, Others;
    var root := RootId(ledger);
    var first, later := Recover(ledger, db).value, AfterStart(ledger, db);
    var ids := IdSet(first.toPrune);
    RecoveredIs(ledger, db);
    SecondRunSees(ledger, db);
    PruneAgain(Others(ledger, db.blocks), root);
    RecoveryPrunesTheRest(ledger, db, QuorumCert(root, root, LatestProof(ledger)));
    PrunedIsDisjoint(ledger, db);
    GenesisStays(ledger, db, ids);
    CertifyingStays(AllQcs(ledger, db.qcs), ids, root);
    CommittingLeft(AllQcs(ledger, db.qcs), ids, root);
    CommittingStays(AllQcs(ledger, db.qcs), ids, root);
    KeptQcsStay(AllQcs(ledger, db.qcs), ids, Prune(Others(ledger, db.blocks), root).tree);
    NothingDeleted(later);
  }

  lemma {:induction false} PrunedIsDisjoint(ledger: LedgerInfoWithSignatures, db: ConsensusDb)
    requires Recover(ledger, db).Ok? && DistinctIds(AllBlocks(ledger, db.blocks))
    ensures IdSet(Recover(ledger, db).value.toPrune) !! Prune(Others(ledger, db.blocks), RootId(ledger)).tree
  {
    hide Sort, AllBlocks, Without, DistinctIds, Sorted, Recover, Prune, IndexOf, AllQcs, KeepCertifying, Ids,
      IdSet, Others;
    RecoveredIs(ledger, db);
    RecoveryPrunesTheRest(ledger, db, QuorumCert(RootId(ledger), RootId(ledger), LatestProof(ledger)));
    TreeIs(Others(ledger, db.blocks), RootId(ledger));
  }

  lemma {:induction false} CommittingLeft(qcs: seq<QuorumCert>, ids: set<BlockId>, id: BlockId)
    ensures FindCommitting(WithoutQcs(qcs, ids), id).Some?
       <==> exists qc | qc in qcs :: qc.commitId == id && qc.certifiedId !in ids
  {
    hide WithoutQcs;
    if FindCommitting(WithoutQcs(qcs, ids), id).Some? {
      WithoutQcsHas(qcs, ids, FindCommitting(WithoutQcs(qcs, ids), id).value);
    }
    if exists qc | qc in qcs :: qc.commitId == id && qc.certifiedId !in ids {
      var qc :| qc in qcs && qc.commitId == id && qc.certifiedId !in ids;
      WithoutQcsHas(qcs, ids, qc);
    }
  }

  /** The first certificate that commits a block is found again, unless it is deleted. */
  lemma {:induction false} CommittingStays(qcs: seq<QuorumCert>, ids: set<BlockId>, id: BlockId)
    ensures var before, after := FindCommitting(qcs, id), FindCommitting(WithoutQcs(qcs, ids), id);
            && (before.Some? && before.value.certifiedId !in ids ==> after == before)
            && (after.Some? ==> after.value.certifiedId !in ids)
  {
    if qcs != [] {
      CommittingStays(qcs[1..], ids, id);
    }
  }

  /** What is stored under the id, if anything, descends from the root. */
  ghost predicate DescendsIfStored(others: seq<Block>, root: BlockId, id: BlockId) {
    forall b | b in others && b.id == id :: Descends(others, root, b)
  }

  lemma {:induction false} PrunedIff(ledger: LedgerInfoWithSignatures, db: ConsensusDb, id: BlockId)
    requires Recover(ledger, db).Ok?
    requires DistinctIds(AllBlocks(ledger, db.blocks)) && Rises(AllBlocks(ledger, db.blocks))
    ensures id !in IdSet(Recover(ledger, db).value.toPrune)
       <==> DescendsIfStored(Others(ledger, db.blocks), RootId(ledger), id)
  {
    hide Sort, AllBlocks, Others, Without, DistinctIds, Sorted, Recover, Rises, Descends, IdSet, Ids;
    var others, kept := Others(ledger, db.blocks), Recover(ledger, db).value.blocks;
    RecoveryPrunesTheRest(ledger, db, GenesisQc(ledger.ledgerInfo));
    IdsHas(others, id);
    IdsHas(kept, id);
    forall b: Block
      ensures b in kept <==> Descends(others, RootId(ledger), b)
      ensures b in kept ==> b in others
    {
      RecoveryKeepsDescendants(ledger, db, b);
      if Descends(others, RootId(ledger), b) {
        DescendantIsStored(others, RootId(ledger), b);
      }
    }
    OthersDistinct(ledger, db);
  }

  lemma {:induction false} DescendantIsStored(others: seq<Block>, root: BlockId, b: Block)
    requires Descends(others, root, b)
    ensures b in others
  {
  }

  lemma {:induction false} OthersDistinct(ledger: LedgerInfoWithSignatures, db: ConsensusDb)
    requires Recover(ledger, db).Ok? && DistinctIds(AllBlocks(ledger, db.blocks))
    ensures forall a, b | a in Others(ledger, db.blocks) && b in Others(ledger, db.blocks) && a.id == b.id :: a == b
  {
    hide Sort, AllBlocks, Others, Sorted, Recover, IndexOf, Prune, KeepCertifying;
    RecoveredIs(ledger, db);
    OthersAre(ledger, db.blocks);
  }

  /**
   * When a second run succeeds, read off the database: some certificate that commits the root certifies
   * an id under which nothing is stored, the root, or a block that descends from the root.
   */
  lemma {:induction false} SecondRunSucceedsIff(ledger: LedgerInfoWithSignatures, db: ConsensusDb)
    requires Recover(ledger, db).Ok?
    requires DistinctIds(AllBlocks(ledger, db.blocks)) && Rises(AllBlocks(ledger, db.blocks))
    ensures Recover(ledger, AfterStart(ledger, db)).Ok?
       <==> exists qc | qc in AllQcs(ledger, db.qcs) ::
              && qc.commitId == RootId(ledger)
              && DescendsIfStored(Others(ledger, db.blocks), RootId(ledger), qc.certifiedId)
  {
    hide Recover, AfterStart, AllBlocks, AllQcs, Others, DescendsIfStored, DistinctIds, Rises, IdSet;
    RecoveryIsIdempotent(ledger, db);
    forall id: BlockId
      ensures id !in IdSet(Recover(ledger, db).value.toPrune)
         <==> DescendsIfStored(Others(ledger, db.blocks), RootId(ledger), id)
    {
      PrunedIff(ledger, db, id);
    }
  }

  lemma {:induction false} NothingDeleted(db: ConsensusDb)
    ensures IdSet([]) == {} && Without(db.blocks, {}) == db.blocks && WithoutQcs(db.qcs, {}) == db.qcs
  {
    WithoutNone(db.blocks, {});
    NoQcDeleted(db.qcs);
  }

  lemma {:induction false} NoQcDeleted(qcs: seq<QuorumCert>)
    ensures WithoutQcs(qcs, {}) == qcs
  {
    if qcs != [] {
      NoQcDeleted(qcs[1..]);
    }
  }

  /** A root, a dangling block, and a certificate of each; the dangling block's certificate commits the root. */
  function DanglingDb(ledger: LedgerInfoWithSignatures): ConsensusDb {
    ConsensusDb([Block(Hash(1), 1, 1, Hash(0)), Block(Hash(2), 1, 2, Hash(9))],
                [QuorumCert(Hash(1), Hash(0), Signed(ledger)), QuorumCert(Hash(2), Hash(1), Signed(ledger))],
                None, None)
  }

  lemma {:induction false} DanglingIsPruned(ledger: LedgerInfoWithSignatures)
    requires !ledger.ledgerInfo.EndsEpoch() && ledger.ledgerInfo.id == 1
    ensures Recover(ledger, DanglingDb(ledger)).Ok?
    ensures Recover(ledger, DanglingDb(ledger)).value.toPrune == [Hash(2)]
  {
    var db := DanglingDb(ledger);
    SortOfTwo(db.blocks[0], db.blocks[1]);
    assert Others(ledger, db.blocks) == [db.blocks[1]];
    assert Prune([db.blocks[1]], Hash(1)).removed == [Hash(2)];
    assert db.qcs[0] in db.qcs && db.qcs[1] in db.qcs;
  }

  /** The condition matters: here the only certificate that commits the root certifies a dangling block. */
  lemma {:induction false} SecondRunCanFail(ledger: LedgerInfoWithSignatures)
    requires !ledger.ledgerInfo.EndsEpoch() && ledger.ledgerInfo.id == 1
    ensures Rises(DanglingDb(ledger).blocks) && Recover(ledger, DanglingDb(ledger)).Ok?
    ensures Recover(ledger, AfterStart(ledger, DanglingDb(ledger))).Err?
  {
    hide Recover, AfterStart;
    DanglingIsPruned(ledger);
    assert IdSet([Hash(2)]) == {Hash(2)};
    RecoveryIsIdempotent(ledger, DanglingDb(ledger));
  }

  lemma {:induction false} SortOfTwo(a: Block, b: Block)
    requires KeyAtMost(a, b)
    ensures Sort([a, b]) == [a, b]
  {
    assert [a, b][..1] == [a];
    assert [a][..0] == [];
    assert Sort([a]) == [a];
  }

  // ----- The order of reading -----

  predicate SameMembers<T(==)>(a: seq<T>, b: seq<T>) {
    (forall x | x in a :: x in b) && (forall x | x in b :: x in a)
  }

  lemma {:induction false} DescendsInBoth(a: seq<Block>, b: seq<Block>, root: BlockId, block: Block)
    requires (forall x | x in a :: x in b) && Descends(a, root, block)
    ensures Descends(b, root, block)
  {
  }

  lemma {:induction false} FoundInBoth(ledger: LedgerInfoWithSignatures, a: ConsensusDb, b: ConsensusDb)
    requires SameMembers(a.blocks, b.blocks) && SameMembers(a.qcs, b.qcs) && Recover(ledger, a).Ok?
    ensures Recover(ledger, b).Ok?
  {
    hide Sort, Prune, Others, KeepCertifying;
    RecoveredIs(ledger, a);
    var root, block := RootId(ledger), Recover(ledger, a).value.root.block;
    InSorted(AllBlocks(ledger, a.blocks), block);
    InSorted(AllBlocks(ledger, b.blocks), block);
    var sorted := Sort(AllBlocks(ledger, b.blocks));
    assert IndexOf(sorted, root) < |sorted| by {
      var i :| 0 <= i < |sorted| && sorted[i] == block;
    }
    assert SameMembers(AllQcs(ledger, a.qcs), AllQcs(ledger, b.qcs));
  }

  /** The order in which the database returns blocks and certificates does not change what is recovered. */
  lemma {:induction false} ReadingOrderIsIrrelevant(
    ledger: LedgerInfoWithSignatures, a: ConsensusDb, b: ConsensusDb, block: Block)
    requires SameMembers(a.blocks, b.blocks) && SameMembers(a.qcs, b.qcs) && Recover(ledger, a).Ok?
    requires DistinctIds(AllBlocks(ledger, a.blocks)) && Rises(AllBlocks(ledger, a.blocks))
    requires DistinctIds(AllBlocks(ledger, b.blocks)) && Rises(AllBlocks(ledger, b.blocks))
    ensures Recover(ledger, b).Ok?
    ensures var ra, rb := Recover(ledger, a).value, Recover(ledger, b).value;
            ra.root.block == rb.root.block && (block in ra.blocks <==> block in rb.blocks)
  {
    hide Sort, Prune, KeepCertifying, Others, Recover, IndexOf, Rises, Descends, Sorted;
    FoundInBoth(ledger, a, b);
    RecoveredIs(ledger, a);
    RecoveredIs(ledger, b);
    var ra, rb, root := Recover(ledger, a).value, Recover(ledger, b).value, RootId(ledger);
    RecoveryKeepsDescendants(ledger, a, block);
    RecoveryKeepsDescendants(ledger, b, block);
    assert SameMembers(AllBlocks(ledger, a.blocks), AllBlocks(ledger, b.blocks));
    var all := AllBlocks(ledger, a.blocks);
    var i :| 0 <= i < |all| && all[i] == ra.root.block;
    var j :| 0 <= j < |all| && all[j] == rb.root.block;
    var othersA, othersB := Others(ledger, a.blocks), Others(ledger, b.blocks);
    forall x
      ensures x in othersA <==> x in othersB
    {
      OthersHas(ledger, a.blocks, x);
      OthersHas(ledger, b.blocks, x);
    }
    if Descends(othersA, root, block) {
      DescendsInBoth(othersA, othersB, root, block);
    }
    if Descends(othersB, root, block) {
      DescendsInBoth(othersB, othersA, root, block);
    }
  }
}
