/** The votes of one round: an index by ledger info that forms quorum and timeout certificates. */
module VoteAggregation {
  import opened LedgerTypes
  import opened Validators

  datatype VoteData = VoteData(epoch: nat, round: nat, proposed: nat)

  type TimeoutSignature = nat

  datatype Vote = Vote(
    voteData: VoteData,
    author: Author,
    ledgerInfo: LedgerInfo,
    signature: Signature,
    timeoutSignature: Option<TimeoutSignature>
  ) {
    predicate IsTimeout() {
      timeoutSignature.Some?
    }
  }

  datatype Timeout = Timeout(epoch: nat, round: nat)

  datatype TimeoutCertificate = TimeoutCertificate(timeout: Timeout, signatures: map<Author, TimeoutSignature>)

  datatype QuorumCert = QuorumCert(voteData: VoteData, certified: LedgerInfoWithSignatures)

  datatype Reception =
    | VoteAdded(votingPower: nat)
    | DuplicateVote
    | EquivocateVote
    | NewQuorumCertificate(qc: QuorumCert)
    | NewTimeoutCertificate(tc: TimeoutCertificate)
    | ErrorAddingVote(error: VerifyError)

  /** The contents of a collector: the vote recorded for each author, and the signatures per ledger info. */
  datatype Book = Book(
    votes: map<Author, Vote>,
    index: map<LedgerInfo, LedgerInfoWithSignatures>,
    partialTc: Option<TimeoutCertificate>
  )

  const EMPTY: Book := Book(map[], map[], None)

  /** The first signature of an author is kept. */
  function AddSignature<S>(signatures: map<Author, S>, author: Author, signature: S): map<Author, S> {
    if author in signatures then signatures else signatures[author := signature]
  }

  function EntryFor(b: Book, li: LedgerInfo): LedgerInfoWithSignatures {
    if li in b.index then b.index[li] else LedgerInfoWithSignatures(li, map[])
  }

  function CollectTimeout(b: Book, vote: Vote, v: ValidatorVerifier, votingPower: nat): (Book, Reception) {
    match vote.timeoutSignature
    case None => (b, VoteAdded(votingPower))
    case Some(signature) =>
      var tc := b.partialTc.GetOr(TimeoutCertificate(Timeout(vote.voteData.epoch, vote.voteData.round), map[]));
      var signed := tc.(signatures := AddSignature(tc.signatures, vote.author, signature));
      var after := b.(partialTc := Some(signed));
      match CheckVotingPower(v, signed.signatures.Keys)
      case Ok(_) => (after, NewTimeoutCertificate(signed))
      case Err(TooLittleVotingPower(_, _)) => (after, VoteAdded(votingPower))
      case Err(error) => (after, ErrorAddingVote(error))
  }

  /** The vote is recorded before the voting power is looked at, and stays recorded. */
  function Record(b: Book, vote: Vote): Book {
    var entry := EntryFor(b, vote.ledgerInfo);
    var signed := entry.(signatures := AddSignature(entry.signatures, vote.author, vote.signature));
    Book(b.votes[vote.author := vote], b.index[vote.ledgerInfo := signed], b.partialTc)
  }

  function Store(b: Book, vote: Vote, v: ValidatorVerifier): (Book, Reception) {
    var after := Record(b, vote);
    var signed := EntryFor(after, vote.ledgerInfo);
    match CheckVotingPower(v, signed.signatures.Keys)
    case Ok(_) => (after, NewQuorumCertificate(QuorumCert(vote.voteData, signed)))
    case Err(TooLittleVotingPower(votingPower, _)) => CollectTimeout(after, vote, v, votingPower)
    case Err(error) => (after, ErrorAddingVote(error))
  }

  function Insert(b: Book, vote: Vote, v: ValidatorVerifier): (Book, Reception) {
    if vote.author !in b.votes then Store(b, vote, v)
    else if vote.ledgerInfo != b.votes[vote.author].ledgerInfo then (b, EquivocateVote)
    else if vote.IsTimeout() && !b.votes[vote.author].IsTimeout() then Store(b, vote, v)
    else (b, DuplicateVote)
  }

  class PendingVotes {
    var liToVotes: map<LedgerInfo, LedgerInfoWithSignatures>
    var maybePartialTc: Option<TimeoutCertificate>
    var authorToVote: map<Author, Vote>

    ghost function AsBook(): Book
      reads this
    {
      Book(authorToVote, liToVotes, maybePartialTc)
    }

    constructor ()
      ensures AsBook() == EMPTY
    {
      liToVotes, maybePartialTc, authorToVote := map[], None, map[];
    }

    method InsertVote(vote: Vote, v: ValidatorVerifier) returns (r: Reception)
      modifies this
      ensures (AsBook(), r) == Insert(old(AsBook()), vote, v)
    {
      // Has the author voted in this round already?
      if vote.author in authorToVote {
        var previous := authorToVote[vote.author];
        if vote.ledgerInfo != previous.ledgerInfo {
          return EquivocateVote;
        }
        var newTimeoutVote := vote.IsTimeout() && !previous.IsTimeout();
        if !newTimeoutVote {
          return DuplicateVote;
        }
      }

      authorToVote := authorToVote[vote.author := vote];

      // Can a quorum certificate be formed?
      var li := vote.ledgerInfo;
      if li !in liToVotes {
        liToVotes := liToVotes[li := LedgerInfoWithSignatures(li, map[])];
      }
      var signatures := AddSignature(liToVotes[li].signatures, vote.author, vote.signature);
      liToVotes := liToVotes[li := liToVotes[li].(signatures := signatures)];
      assert AsBook() == Record(old(AsBook()), vote);
      var votingPower := 0;
      match CheckVotingPower(v, signatures.Keys) {
        case Ok(_) => return NewQuorumCertificate(QuorumCert(vote.voteData, liToVotes[li]));
        case Err(TooLittleVotingPower(power, _)) => votingPower := power;
        case Err(error) => return ErrorAddingVote(error);
      }

      // Can a timeout certificate be formed?
      if vote.timeoutSignature.Some? {
        if maybePartialTc.None? {
          maybePartialTc := Some(TimeoutCertificate(Timeout(vote.voteData.epoch, vote.voteData.round), map[]));
        }
        var timeouts := AddSignature(maybePartialTc.value.signatures, vote.author, vote.timeoutSignature.value);
        maybePartialTc := Some(maybePartialTc.value.(signatures := timeouts));
        match CheckVotingPower(v, timeouts.Keys) {
          case Ok(_) => return NewTimeoutCertificate(maybePartialTc.value);
          case Err(TooLittleVotingPower(_, _)) =>
          case Err(error) => return ErrorAddingVote(error);
        }
      }
      return VoteAdded(votingPower);
    }
  }

  // ----- The index invariant -----

  /** The authors whose recorded vote is for `li`. */
  function VotersFor(b: Book, li: LedgerInfo): set<Author> {
    set author | author in b.votes && b.votes[author].ledgerInfo == li
  }

  function TimeoutVoters(b: Book): set<Author> {
    set author | author in b.votes && b.votes[author].IsTimeout()
  }

  predicate IndexedExactly(b: Book, li: LedgerInfo) {
    EntryFor(b, li).ledgerInfo == li && EntryFor(b, li).signatures.Keys == VotersFor(b, li)
  }

  ghost predicate WellIndexed(b: Book) {
    && (forall li {:trigger IndexedExactly(b, li)} :: IndexedExactly(b, li))
    && TimeoutSigners(b) <= TimeoutVoters(b)
  }

  lemma {:induction false} RecordIndexes(b: Book, vote: Vote, li: LedgerInfo)
    requires IndexedExactly(b, li)
    requires vote.author in b.votes ==> b.votes[vote.author].ledgerInfo == vote.ledgerInfo
    ensures IndexedExactly(Record(b, vote), li)
  {
  }

  function TimeoutSigners(b: Book): set<Author> {
    if b.partialTc.Some? then b.partialTc.value.signatures.Keys else {}
  }

  /** Storing a vote records it, and at most adds its author to the timeout certificate. */
  lemma {:induction false} StoreRecords(b: Book, vote: Vote, v: ValidatorVerifier)
    ensures var after := Store(b, vote, v).0;
            && after.votes == Record(b, vote).votes && after.index == Record(b, vote).index
            && (TimeoutSigners(after) == TimeoutSigners(b)
                || (vote.IsTimeout() && TimeoutSigners(after) == TimeoutSigners(b) + {vote.author}))
  {
    hide CheckVotingPower;
  }

  lemma {:induction false} RecordKeepsTimeouts(b: Book, vote: Vote)
    requires vote.author in b.votes && b.votes[vote.author].IsTimeout() ==> vote.IsTimeout()
    ensures TimeoutVoters(b) <= TimeoutVoters(Record(b, vote))
    ensures vote.IsTimeout() ==> vote.author in TimeoutVoters(Record(b, vote))
  {
  }

  lemma {:induction false} IndexDependsOn(a: Book, b: Book, li: LedgerInfo)
    requires a.votes == b.votes && a.index == b.index
    ensures IndexedExactly(a, li) == IndexedExactly(b, li) && TimeoutVoters(a) == TimeoutVoters(b)
  {
  }

  /** Every insertion keeps the index exact, whatever it reports. */
  lemma {:induction false} InsertKeepsIndex(b: Book, vote: Vote, v: ValidatorVerifier)
    requires WellIndexed(b)
    ensures WellIndexed(Insert(b, vote, v).0)
  {
    hide Store, Record, IndexedExactly, TimeoutVoters;
    var after := Insert(b, vote, v).0;
    if after != b {
      StoreRecords(b, vote, v);
      forall li {:trigger IndexedExactly(after, li)}
        ensures IndexedExactly(after, li)
      {
        assert IndexedExactly(b, li);
        RecordIndexes(b, vote, li);
        IndexDependsOn(after, Record(b, vote), li);
      }
      RecordKeepsTimeouts(b, vote);
      IndexDependsOn(after, Record(b, vote), vote.ledgerInfo);
    }
  }

  // ----- Any sequence of insertions -----

  /** The book after the first `n` votes. */
  function Collect(v: ValidatorVerifier, votes: seq<Vote>, n: nat): Book
    requires n <= |votes|
  {
    if n == 0 then EMPTY else Insert(Collect(v, votes, n - 1), votes[n - 1], v).0
  }

  /** What the insertion of vote `i` reports. */
  function ReceptionAt(v: ValidatorVerifier, votes: seq<Vote>, i: nat): Reception
    requires i < |votes|
  {
    Insert(Collect(v, votes, i), votes[i], v).1
  }

  lemma {:induction false} AlwaysWellIndexed(v: ValidatorVerifier, votes: seq<Vote>, n: nat)
    requires n <= |votes|
    ensures WellIndexed(Collect(v, votes, n))
  {
    if n == 0 {
      forall li {:trigger IndexedExactly(EMPTY, li)}
        ensures IndexedExactly(EMPTY, li)
      {
        assert VotersFor(EMPTY, li) == {};
      }
    } else {
      AlwaysWellIndexed(v, votes, n - 1);
      InsertKeepsIndex(Collect(v, votes, n - 1), votes[n - 1], v);
    }
  }

  /** The first of the first `n` votes that is by `author`. */
  function FirstBy(votes: seq<Vote>, n: nat, author: Author): (i: nat)
    requires n <= |votes|
    ensures i <= n && (i < n ==> votes[i].author == author)
    ensures forall k | 0 <= k < i :: votes[k].author != author
  {
    if n == 0 then 0
    else if FirstBy(votes, n - 1, author) < n - 1 then FirstBy(votes, n - 1, author)
    else if votes[n - 1].author == author then n - 1
    else n
  }

  /** The recorded vote of an author is for the ledger info of the author's first vote. */
  ghost predicate RecordsFirst(b: Book, votes: seq<Vote>, n: nat, author: Author)
    requires n <= |votes|
  {
    var first := FirstBy(votes, n, author);
    && (author in b.votes <==> first < n)
    && (first < n ==>
          && b.votes[author].author == author
          && b.votes[author].ledgerInfo == votes[first].ledgerInfo
          && (b.votes[author].IsTimeout() <==>
                exists k | 0 <= k < n :: TimesOut(votes[k], author, votes[first].ledgerInfo)))
  }

  predicate TimesOut(vote: Vote, author: Author, li: LedgerInfo) {
    vote.author == author && vote.ledgerInfo == li && vote.IsTimeout()
  }

  /** What an insertion does to the recorded votes. */
  lemma {:induction false} InsertVotes(b: Book, vote: Vote, v: ValidatorVerifier)
    ensures var after := Insert(b, vote, v).0;
            after.votes == if vote.author !in b.votes then b.votes[vote.author := vote]
                           else if vote.ledgerInfo == b.votes[vote.author].ledgerInfo && vote.IsTimeout()
                                   && !b.votes[vote.author].IsTimeout() then b.votes[vote.author := vote]
                           else b.votes
  {
    hide Store;
    StoreRecords(b, vote, v);
  }

  lemma {:induction false} RecordedIsFirst(v: ValidatorVerifier, votes: seq<Vote>, n: nat, author: Author)
    requires n <= |votes|
    ensures RecordsFirst(Collect(v, votes, n), votes, n, author)
  {
    hide Insert;
    if n > 0 {
      RecordedIsFirst(v, votes, n - 1, author);
      InsertVotes(Collect(v, votes, n - 1), votes[n - 1], v);
    }
  }

  /**
   * The signers of a ledger info are exactly the authors whose first vote was for it. A vote that was
   * repeated, came later or equivocates makes no difference.
   */
  lemma {:induction false} SignersAreFirstVoters(
    v: ValidatorVerifier, votes: seq<Vote>, n: nat, li: LedgerInfo, author: Author)
    requires n <= |votes|
    ensures author in EntryFor(Collect(v, votes, n), li).signatures
       <==> FirstBy(votes, n, author) < n && votes[FirstBy(votes, n, author)].ledgerInfo == li
  {
    hide Collect;
    AlwaysWellIndexed(v, votes, n);
    assert IndexedExactly(Collect(v, votes, n), li);
    RecordedIsFirst(v, votes, n, author);
  }

  predicate SomeVote(votes: seq<Vote>, author: Author, li: LedgerInfo) {
    exists k | 0 <= k < |votes| :: votes[k].author == author && votes[k].ledgerInfo == li
  }

  /** Every author votes for one ledger info only. */
  predicate NonEquivocating(votes: seq<Vote>) {
    forall i, j | 0 <= i < |votes| && 0 <= j < |votes| && votes[i].author == votes[j].author ::
      votes[i].ledgerInfo == votes[j].ledgerInfo
  }

  /** Without equivocation the signers of a ledger info are all who voted for it. */
  lemma {:induction false} SignersAreVoters(v: ValidatorVerifier, votes: seq<Vote>, li: LedgerInfo, author: Author)
    requires NonEquivocating(votes)
    ensures author in EntryFor(Collect(v, votes, |votes|), li).signatures <==> SomeVote(votes, author, li)
  {
    hide Collect;
    SignersAreFirstVoters(v, votes, |votes|, li, author);
  }

  /** Without equivocation the signer sets do not depend on the order or the repetition of votes. */
  lemma {:induction false} ArrivalOrderIsIrrelevant(v: ValidatorVerifier, a: seq<Vote>, b: seq<Vote>, li: LedgerInfo)
    requires NonEquivocating(a) && NonEquivocating(b)
    requires forall vote :: vote in a <==> vote in b
    ensures EntryFor(Collect(v, a, |a|), li).signatures.Keys == EntryFor(Collect(v, b, |b|), li).signatures.Keys
  {
    hide Collect, EntryFor;
    forall author
      ensures author in EntryFor(Collect(v, a, |a|), li).signatures
         <==> author in EntryFor(Collect(v, b, |b|), li).signatures
    {
      SignersAreVoters(v, a, li, author);
      SignersAreVoters(v, b, li, author);
      SameVotesSameVoters(a, b, author, li);
      SameVotesSameVoters(b, a, author, li);
    }
  }

  lemma {:induction false} SameVotesSameVoters(a: seq<Vote>, b: seq<Vote>, author: Author, li: LedgerInfo)
    requires forall vote :: vote in a ==> vote in b
    ensures SomeVote(a, author, li) ==> SomeVote(b, author, li)
  {
    if SomeVote(a, author, li) {
      var k :| 0 <= k < |a| && a[k].author == author && a[k].ledgerInfo == li;
      assert a[k] in b;
    }
  }

  // ----- Certificates -----

  /** A certificate carries the signatures that its voters' votes carried, and its voters are a quorum. */
  predicate CertifiedBy(v: ValidatorVerifier, votes: seq<Vote>, n: nat, li: LedgerInfoWithSignatures)
    requires n <= |votes|
  {
    && li.signatures.Keys <= Addresses(v.validators)
    && IsQuorum(v, li.signatures.Keys)
    && forall author | author in li.signatures :: CastBefore(votes, n, author, li)
  }

  predicate CastBefore(votes: seq<Vote>, n: nat, author: Author, li: LedgerInfoWithSignatures)
    requires n <= |votes| && author in li.signatures
  {
    exists k | 0 <= k < n :: CarriedBy(votes[k], author, li.ledgerInfo, li.signatures[author])
  }

  predicate CarriedBy(vote: Vote, author: Author, li: LedgerInfo, signature: Signature) {
    vote.author == author && vote.ledgerInfo == li && vote.signature == signature
  }

  /** Every signature in the index was carried by a vote that was inserted. */
  lemma {:induction false} SignaturesAreCast(
    v: ValidatorVerifier, votes: seq<Vote>, n: nat, li: LedgerInfo, author: Author)
    requires n <= |votes| && author in EntryFor(Collect(v, votes, n), li).signatures
    ensures EntryFor(Collect(v, votes, n), li).ledgerInfo == li
    ensures CastBefore(votes, n, author, EntryFor(Collect(v, votes, n), li))
  {
    hide Insert;
    AlwaysWellIndexed(v, votes, n);
    assert IndexedExactly(Collect(v, votes, n), li);
    if n > 0 {
      var before := Collect(v, votes, n - 1);
      InsertIndex(before, votes[n - 1], v, li, author);
      if author in EntryFor(before, li).signatures {
        SignaturesAreCast(v, votes, n - 1, li, author);
        var k :| 0 <= k < n - 1 && CarriedBy(votes[k], author, li, EntryFor(before, li).signatures[author]);
        assert CarriedBy(votes[k], author, li, EntryFor(Collect(v, votes, n), li).signatures[author]);
      } else {
        assert CarriedBy(votes[n - 1], author, li, EntryFor(Collect(v, votes, n), li).signatures[author]);
      }
    }
  }

  /** What an insertion does to the signatures of a ledger info: it keeps all, and adds at most its own. */
  lemma {:induction false} InsertIndex(b: Book, vote: Vote, v: ValidatorVerifier, li: LedgerInfo, author: Author)
    ensures var before, after := EntryFor(b, li), EntryFor(Insert(b, vote, v).0, li);
            && (author in before.signatures ==>
                  author in after.signatures && after.signatures[author] == before.signatures[author])
            && (author in after.signatures && author !in before.signatures ==>
                  vote.author == author && vote.ledgerInfo == li && after.signatures[author] == vote.signature)
  {
    hide Store;
    StoreRecords(b, vote, v);
  }

  /** A quorum certificate is reported for the ledger info of the vote, with all signatures collected for it. */
  lemma {:induction false} QcComesFromIndex(b: Book, vote: Vote, v: ValidatorVerifier)
    requires Insert(b, vote, v).1.NewQuorumCertificate?
    ensures var (after, r) := Insert(b, vote, v);
            && r.qc == QuorumCert(vote.voteData, EntryFor(after, vote.ledgerInfo))
            && r.qc.certified.signatures.Keys <= Addresses(v.validators)
            && IsQuorum(v, r.qc.certified.signatures.Keys)
            && vote.author in r.qc.certified.signatures
  {
  }

  lemma {:induction false} ReportedQcIsCertified(v: ValidatorVerifier, votes: seq<Vote>, i: nat)
    requires i < |votes| && ReceptionAt(v, votes, i).NewQuorumCertificate?
    ensures var qc := ReceptionAt(v, votes, i).qc;
            && qc.voteData == votes[i].voteData
            && qc.certified.ledgerInfo == votes[i].ledgerInfo
            && qc.certified == EntryFor(Collect(v, votes, i + 1), votes[i].ledgerInfo)
            && qc.certified.signatures != map[]
            && CertifiedBy(v, votes, i + 1, qc.certified)
  {
    hide Insert, EntryFor, CastBefore, IsQuorum;
    QcComesFromIndex(Collect(v, votes, i), votes[i], v);
    var qc := ReceptionAt(v, votes, i).qc;
    forall author | author in qc.certified.signatures
      ensures CastBefore(votes, i + 1, author, qc.certified)
    {
      SignaturesAreCast(v, votes, i + 1, votes[i].ledgerInfo, author);
    }
    SignaturesAreCast(v, votes, i + 1, votes[i].ledgerInfo, votes[i].author);
  }

  lemma {:induction false} SignersOnlyGrow(v: ValidatorVerifier, votes: seq<Vote>, i: nat, j: nat, li: LedgerInfo)
    requires i <= j <= |votes|
    ensures EntryFor(Collect(v, votes, i), li).signatures.Keys <= EntryFor(Collect(v, votes, j), li).signatures.Keys
    decreases j
  {
    hide Insert, EntryFor;
    if i < j {
      SignersOnlyGrow(v, votes, i, j - 1, li);
      forall author | author in EntryFor(Collect(v, votes, j - 1), li).signatures
        ensures author in EntryFor(Collect(v, votes, j), li).signatures
      {
        InsertIndex(Collect(v, votes, j - 1), votes[j - 1], v, li, author);
      }
    }
  }

  lemma {:induction false} QuorumHasPower(v: ValidatorVerifier, a: set<Author>)
    requires a != {} && a <= Addresses(v.validators) && IsQuorum(v, a)
    ensures AtMostOneThird(v, {})
  {
    PowerOfNobody(v.validators);
    PowerMonotone(v.validators, a, Addresses(v.validators));
  }

  /** One collector certifies at most one ledger info, however many voters equivocate. */
  lemma {:induction false} OneCertifiedPerCollector(v: ValidatorVerifier, votes: seq<Vote>, i: nat, j: nat)
    requires i <= j < |votes|
    requires ReceptionAt(v, votes, i).NewQuorumCertificate? && ReceptionAt(v, votes, j).NewQuorumCertificate?
    ensures ReceptionAt(v, votes, i).qc.certified.ledgerInfo == ReceptionAt(v, votes, j).qc.certified.ledgerInfo
  {
    hide Collect, ReceptionAt, IsQuorum, EntryFor, AtMostOneThird, CastBefore;
    ReportedQcIsCertified(v, votes, i);
    ReportedQcIsCertified(v, votes, j);
    var a, b := votes[i].ledgerInfo, votes[j].ledgerInfo;
    var signersA := EntryFor(Collect(v, votes, i + 1), a).signatures.Keys;
    var signersB := EntryFor(Collect(v, votes, j + 1), b).signatures.Keys;
    SignersOnlyGrow(v, votes, i + 1, j + 1, a);
    QuorumHasPower(v, signersA);
    var author := QuorumsShareHonest(v, signersA, signersB, {});
    SignersAreFirstVoters(v, votes, j + 1, a, author);
    SignersAreFirstVoters(v, votes, j + 1, b, author);
  }

  /** Outside `byzantine`, nobody sends the two collectors votes for different ledger infos. */
  predicate HonestVoteOnce(a: seq<Vote>, b: seq<Vote>, byzantine: set<Author>) {
    forall i, j | 0 <= i < |a| && 0 <= j < |b| && a[i].author == b[j].author && a[i].author !in byzantine ::
      a[i].ledgerInfo == b[j].ledgerInfo
  }

  /**
   * Agreement across collectors: whatever votes two collectors see, in whatever order, with whatever
   * repetitions and equivocations by at most a third of the voting power, their quorum certificates
   * carry the same ledger info.
   */
  lemma {:induction false} CollectorsAgree(
    v: ValidatorVerifier, a: seq<Vote>, i: nat, b: seq<Vote>, j: nat, byzantine: set<Author>)
    requires i < |a| && j < |b|
    requires AtMostOneThird(v, byzantine) && HonestVoteOnce(a, b, byzantine)
    requires ReceptionAt(v, a, i).NewQuorumCertificate? && ReceptionAt(v, b, j).NewQuorumCertificate?
    ensures ReceptionAt(v, a, i).qc.certified.ledgerInfo == ReceptionAt(v, b, j).qc.certified.ledgerInfo
  {
    hide Collect, ReceptionAt, IsQuorum, EntryFor, AtMostOneThird, Addresses;
    ReportedQcIsCertified(v, a, i);
    ReportedQcIsCertified(v, b, j);
    var qcA, qcB := ReceptionAt(v, a, i).qc.certified, ReceptionAt(v, b, j).qc.certified;
    var author := QuorumsShareHonest(v, qcA.signatures.Keys, qcB.signatures.Keys, byzantine);
    assert CastBefore(a, i + 1, author, qcA) && CastBefore(b, j + 1, author, qcB);
    var p :| 0 <= p < i + 1 && CarriedBy(a[p], author, qcA.ledgerInfo, qcA.signatures[author]);
    var q :| 0 <= q < j + 1 && CarriedBy(b[q], author, qcB.ledgerInfo, qcB.signatures[author]);
  }

  /** No certificate is missed: once the signers of a ledger info are a quorum, one has been reported for it. */
  lemma {:induction false} QuorumIsReported(v: ValidatorVerifier, votes: seq<Vote>, n: nat, li: LedgerInfo)
    returns (i: nat)
    requires n <= |votes| && v.validators != []
    requires EntryFor(Collect(v, votes, n), li).signatures.Keys <= Addresses(v.validators)
    requires IsQuorum(v, EntryFor(Collect(v, votes, n), li).signatures.Keys)
    ensures i < n && ReceptionAt(v, votes, i).NewQuorumCertificate?
    ensures ReceptionAt(v, votes, i).qc.certified.ledgerInfo == li
  {
    hide Insert, EntryFor, IsQuorum, Addresses;
    if n == 0 {
      NothingIsNoQuorum(v, li);
    } else {
      var before, vote := Collect(v, votes, n - 1), votes[n - 1];
      if EntryFor(before, li).signatures.Keys == EntryFor(Collect(v, votes, n), li).signatures.Keys {
        i := QuorumIsReported(v, votes, n - 1, li);
      } else {
        NewSignerReports(before, vote, v, li);
        i := n - 1;
        ReportedQcIsCertified(v, votes, i);
      }
    }
  }

  lemma {:induction false} NothingIsNoQuorum(v: ValidatorVerifier, li: LedgerInfo)
    requires v.validators != []
    ensures !IsQuorum(v, EntryFor(EMPTY, li).signatures.Keys)
  {
    PowerOfNobody(v.validators);
    assert EntryFor(EMPTY, li).signatures.Keys == {};
  }

  /** The insertion that adds a signer to a quorum reports the certificate. */
  lemma {:induction false} NewSignerReports(b: Book, vote: Vote, v: ValidatorVerifier, li: LedgerInfo)
    requires EntryFor(b, li).signatures.Keys != EntryFor(Insert(b, vote, v).0, li).signatures.Keys
    requires EntryFor(Insert(b, vote, v).0, li).signatures.Keys <= Addresses(v.validators)
    requires IsQuorum(v, EntryFor(Insert(b, vote, v).0, li).signatures.Keys)
    ensures vote.ledgerInfo == li && Insert(b, vote, v).1.NewQuorumCertificate?
  {
    hide IsQuorum, Addresses, CollectTimeout;
    StoreRecords(b, vote, v);
    assert vote.ledgerInfo == li;
    assert EntryFor(Insert(b, vote, v).0, li) == EntryFor(Record(b, vote), li);
    assert CheckVotingPower(v, EntryFor(Record(b, vote), li).signatures.Keys) == Ok(()) by {
      QuorumPasses(v, EntryFor(Record(b, vote), li).signatures.Keys);
    }
  }

  lemma {:induction false} QuorumPasses(v: ValidatorVerifier, authors: set<Author>)
    requires authors <= Addresses(v.validators) && IsQuorum(v, authors)
    ensures CheckVotingPower(v, authors) == Ok(())
  {
  }

  /** A timeout certificate is signed by a quorum of authors who all sent a timeout vote. */
  lemma {:induction false} TimeoutsAreVoted(v: ValidatorVerifier, votes: seq<Vote>, i: nat, author: Author)
    requires i < |votes| && ReceptionAt(v, votes, i).NewTimeoutCertificate?
    requires author in ReceptionAt(v, votes, i).tc.signatures
    ensures IsQuorum(v, ReceptionAt(v, votes, i).tc.signatures.Keys)
    ensures exists k | 0 <= k <= i :: votes[k].author == author && votes[k].IsTimeout()
  {
    hide Insert, IsQuorum;
    var b := Collect(v, votes, i);
    TcComesFromBook(b, votes[i], v);
    AlwaysWellIndexed(v, votes, i + 1);
    RecordedIsFirst(v, votes, i + 1, author);
    assert author in TimeoutVoters(Collect(v, votes, i + 1));
  }

  lemma {:induction false} TcComesFromBook(b: Book, vote: Vote, v: ValidatorVerifier)
    requires Insert(b, vote, v).1.NewTimeoutCertificate?
    ensures var (after, r) := Insert(b, vote, v);
            after.partialTc == Some(r.tc) && IsQuorum(v, r.tc.signatures.Keys)
  {
  }

  // ----- What the certificates and receptions say -----

  /**
   * The honest are enough: when everyone outside a tolerated set votes first for `li`, and all voters are
   * known, a certificate for `li` is reported.
   */
  lemma {:induction false} HonestVotesCertify(v: ValidatorVerifier, votes: seq<Vote>, li: LedgerInfo, f: set<Author>)
    returns (i: nat)
    requires AtMostOneThird(v, f)
    requires forall k | 0 <= k < |votes| :: votes[k].author in Addresses(v.validators)
    requires forall author | author in Addresses(v.validators) - f ::
               var first := FirstBy(votes, |votes|, author); first < |votes| && votes[first].ledgerInfo == li
    ensures i < |votes| && ReceptionAt(v, votes, i).NewQuorumCertificate?
    ensures ReceptionAt(v, votes, i).qc.certified.ledgerInfo == li
  {
    hide Collect, EntryFor, ReceptionAt, Addresses;
    var signers := EntryFor(Collect(v, votes, |votes|), li).signatures.Keys;
    forall author
      ensures author in signers ==> author in Addresses(v.validators)
      ensures author in Addresses(v.validators) - f ==> author in signers
    {
      SignersAreFirstVoters(v, votes, |votes|, li, author);
    }
    HonestAreQuorum(v, f);
    PowerMonotone(v.validators, Addresses(v.validators) - f, signers);
    i := QuorumIsReported(v, votes, |votes|, li);
  }

  /** An unknown voter for a ledger info prevents every later certificate for it. */
  lemma {:induction false} UnknownVoterBlocks(v: ValidatorVerifier, votes: seq<Vote>, i: nat, author: Author)
    requires i < |votes| && author !in Addresses(v.validators)
    requires author in EntryFor(Collect(v, votes, i), votes[i].ledgerInfo).signatures
    ensures !ReceptionAt(v, votes, i).NewQuorumCertificate?
  {
    hide Collect, EntryFor, Addresses;
    if ReceptionAt(v, votes, i).NewQuorumCertificate? {
      ReportedQcIsCertified(v, votes, i);
      SignersOnlyGrow(v, votes, i, i + 1, votes[i].ledgerInfo);
    }
  }

  function TimeoutOf(vote: Vote): Timeout {
    Timeout(vote.voteData.epoch, vote.voteData.round)
  }

  /** The certificate is about the timeout of an inserted vote, and its signatures were carried by votes. */
  ghost predicate TcIsCast(tc: TimeoutCertificate, votes: seq<Vote>, n: nat)
    requires n <= |votes|
  {
    && (exists k | 0 <= k < n :: votes[k].IsTimeout() && tc.timeout == TimeoutOf(votes[k]))
    && forall author | author in tc.signatures :: TimeoutCastBefore(tc, votes, n, author)
  }

  predicate TimeoutCastBefore(tc: TimeoutCertificate, votes: seq<Vote>, n: nat, author: Author)
    requires n <= |votes| && author in tc.signatures
  {
    exists k | 0 <= k < n :: CarriesTimeout(votes[k], author, tc.signatures[author])
  }

  predicate CarriesTimeout(vote: Vote, author: Author, signature: TimeoutSignature) {
    vote.author == author && vote.timeoutSignature == Some(signature)
  }

  /** What an insertion does to the partial timeout certificate. */
  lemma {:induction false} InsertTimeout(b: Book, vote: Vote, v: ValidatorVerifier)
    ensures var (after, r) := Insert(b, vote, v);
            && (after.partialTc == b.partialTc
                || (&& vote.IsTimeout() && after.partialTc.Some?
                    && (var tc := after.partialTc.value;
                        && tc.timeout == (if b.partialTc.Some? then b.partialTc.value.timeout else TimeoutOf(vote))
                        && tc.signatures == AddSignature(
                                              if b.partialTc.Some? then b.partialTc.value.signatures else map[],
                                              vote.author, vote.timeoutSignature.value))))
            && (r.NewTimeoutCertificate? ==> after.partialTc == Some(r.tc))
  {
    hide CheckVotingPower;
  }

  lemma {:induction false} PartialTcIsCast(v: ValidatorVerifier, votes: seq<Vote>, n: nat)
    requires n <= |votes| && Collect(v, votes, n).partialTc.Some?
    ensures TcIsCast(Collect(v, votes, n).partialTc.value, votes, n)
  {
    hide Insert;
    if n > 0 {
      var before, vote := Collect(v, votes, n - 1), votes[n - 1];
      var tc := Collect(v, votes, n).partialTc.value;
      InsertTimeout(before, vote, v);
      if before.partialTc.Some? {
        PartialTcIsCast(v, votes, n - 1);
      }
      forall author | author in tc.signatures
        ensures TimeoutCastBefore(tc, votes, n, author)
      {
        if before.partialTc.Some? && author in before.partialTc.value.signatures {
          assert TimeoutCastBefore(before.partialTc.value, votes, n - 1, author);
          var k :| 0 <= k < n - 1 && CarriesTimeout(votes[k], author, before.partialTc.value.signatures[author]);
          assert CarriesTimeout(votes[k], author, tc.signatures[author]);
        } else {
          assert CarriesTimeout(vote, author, tc.signatures[author]);
        }
      }
    }
  }

  /**
   * A timeout certificate of a round is about that epoch and round, and each of its signatures was carried
   * by an inserted timeout vote of its author.
   */
  lemma {:induction false} TimeoutCertificateIsCast(
    v: ValidatorVerifier, votes: seq<Vote>, i: nat, epoch: nat, round: nat)
    requires i < |votes| && ReceptionAt(v, votes, i).NewTimeoutCertificate?
    requires forall k | 0 <= k < |votes| :: votes[k].voteData.epoch == epoch && votes[k].voteData.round == round
    ensures var tc := ReceptionAt(v, votes, i).tc;
            && tc.timeout == Timeout(epoch, round)
            && forall author | author in tc.signatures :: TimeoutCastBefore(tc, votes, i + 1, author)
  {
    hide Insert;
    InsertTimeout(Collect(v, votes, i), votes[i], v);
    PartialTcIsCast(v, votes, i + 1);
  }

  /** The author of vote `i` has not timed out before, for the ledger info of the vote. */
  predicate NewTimeout(votes: seq<Vote>, i: nat)
    requires i < |votes|
  {
    votes[i].IsTimeout() && forall k | 0 <= k < i :: !TimesOut(votes[k], votes[i].author, votes[i].ledgerInfo)
  }

  /** Equivocation and repetition are reported exactly when the author's first vote makes them so. */
  lemma {:induction false} RepeatedVotes(v: ValidatorVerifier, votes: seq<Vote>, i: nat)
    requires i < |votes|
    ensures var first := FirstBy(votes, i, votes[i].author);
            var r := ReceptionAt(v, votes, i);
            && (r.EquivocateVote? <==> first < i && votes[first].ledgerInfo != votes[i].ledgerInfo)
            && (r.DuplicateVote? <==>
                  first < i && votes[first].ledgerInfo == votes[i].ledgerInfo && !NewTimeout(votes, i))
  {
    hide Store, Collect;
    RecordedIsFirst(v, votes, i, votes[i].author);
    StoreReports(Collect(v, votes, i), votes[i], v);
  }

  lemma {:induction false} StoreReports(b: Book, vote: Vote, v: ValidatorVerifier)
    ensures var (after, r) := Store(b, vote, v);
            var signers := EntryFor(Record(b, vote), vote.ledgerInfo).signatures.Keys;
            && !r.EquivocateVote? && !r.DuplicateVote?
            && (r.VoteAdded? ==> signers <= Addresses(v.validators) && !IsQuorum(v, signers)
                                 && r.votingPower == Power(v.validators, signers))
            && (r.ErrorAddingVote? ==> r.error == UnknownAuthor)
            && (r.ErrorAddingVote? && !vote.IsTimeout() ==> !(signers <= Addresses(v.validators)))
  {
  }

  /** An added vote reports the power of those whose first vote was for its ledger info: less than a quorum. */
  lemma {:induction false} AddedVotes(v: ValidatorVerifier, votes: seq<Vote>, i: nat)
    requires i < |votes|
    ensures var r := ReceptionAt(v, votes, i);
            var signers := EntryFor(Collect(v, votes, i + 1), votes[i].ledgerInfo).signatures.Keys;
            && (r.VoteAdded? ==> signers <= Addresses(v.validators) && !IsQuorum(v, signers)
                                 && r.votingPower == Power(v.validators, signers))
            && (r.ErrorAddingVote? ==> r.error == UnknownAuthor)
  {
    hide Store, Record;
    var b := Collect(v, votes, i);
    StoreReports(b, votes[i], v);
    StoreRecords(b, votes[i], v);
  }

  // ----- No timeout is missed -----

  /** The insertion that makes the timeout signers a quorum reports the timeout certificate. */
  lemma {:induction false} NewTimeoutReports(b: Book, vote: Vote, v: ValidatorVerifier)
    requires TimeoutSigners(Insert(b, vote, v).0) != TimeoutSigners(b)
    requires CheckVotingPower(v, TimeoutSigners(Insert(b, vote, v).0)) == Ok(())
    ensures Insert(b, vote, v).1.NewTimeoutCertificate?
  {
    hide CheckVotingPower;
  }

  /** A new timeout vote signs the partial certificate, unless a certificate or an unknown voter comes first. */
  lemma {:induction false} TimeoutIsCollected(b: Book, vote: Vote, v: ValidatorVerifier)
    requires vote.IsTimeout()
    requires vote.author !in b.votes
             || (b.votes[vote.author].ledgerInfo == vote.ledgerInfo && !b.votes[vote.author].IsTimeout())
    ensures var (after, r) := Insert(b, vote, v);
            || r.NewQuorumCertificate?
            || !(EntryFor(after, vote.ledgerInfo).signatures.Keys <= Addresses(v.validators))
            || vote.author in TimeoutSigners(after)
  {
  }

  lemma {:induction false} SignersAreKnown(v: ValidatorVerifier, votes: seq<Vote>, n: nat, li: LedgerInfo)
    requires n <= |votes|
    requires forall k | 0 <= k < n :: votes[k].author in Addresses(v.validators)
    ensures EntryFor(Collect(v, votes, n), li).signatures.Keys <= Addresses(v.validators)
  {
    hide Collect, EntryFor, Addresses;
    forall author | author in EntryFor(Collect(v, votes, n), li).signatures
      ensures author in Addresses(v.validators)
    {
      SignersAreFirstVoters(v, votes, n, li, author);
    }
  }

  /** Until a quorum certificate is reported, all recorded timeout voters sign the partial timeout certificate. */
  lemma {:induction false} TimeoutVotersSign(v: ValidatorVerifier, votes: seq<Vote>, n: nat)
    requires n <= |votes|
    requires forall k | 0 <= k < n :: votes[k].author in Addresses(v.validators)
    requires forall k | 0 <= k < n :: !ReceptionAt(v, votes, k).NewQuorumCertificate?
    ensures TimeoutVoters(Collect(v, votes, n)) <= TimeoutSigners(Collect(v, votes, n))
  {
    hide Insert, Addresses, EntryFor, TimeoutSigners;
    if n > 0 {
      var b, vote := Collect(v, votes, n - 1), votes[n - 1];
      TimeoutVotersSign(v, votes, n - 1);
      SignersAreKnown(v, votes, n, vote.ledgerInfo);
      assert !ReceptionAt(v, votes, n - 1).NewQuorumCertificate?;
      InsertVotes(b, vote, v);
      TimeoutSignersStay(b, vote, v);
      if Insert(b, vote, v).0.votes != b.votes && vote.IsTimeout() {
        TimeoutIsCollected(b, vote, v);
      }
    }
  }

  lemma {:induction false} TimeoutSignersStay(b: Book, vote: Vote, v: ValidatorVerifier)
    ensures TimeoutSigners(b) <= TimeoutSigners(Insert(b, vote, v).0)
  {
    hide Store;
    StoreRecords(b, vote, v);
  }

  lemma {:induction false} TimeoutQuorumIsReported(v: ValidatorVerifier, votes: seq<Vote>, n: nat) returns (i: nat)
    requires n <= |votes| && v.validators != []
    requires CheckVotingPower(v, TimeoutSigners(Collect(v, votes, n))) == Ok(())
    ensures i < n && ReceptionAt(v, votes, i).NewTimeoutCertificate?
  {
    hide Insert, TimeoutSigners;
    if n == 0 {
      PowerOfNobody(v.validators);
      NobodyTimesOut();
    } else if TimeoutSigners(Collect(v, votes, n - 1)) == TimeoutSigners(Collect(v, votes, n)) {
      i := TimeoutQuorumIsReported(v, votes, n - 1);
    } else {
      NewTimeoutReports(Collect(v, votes, n - 1), votes[n - 1], v);
      i := n - 1;
    }
  }

  lemma {:induction false} NobodyTimesOut()
    ensures TimeoutSigners(EMPTY) == {}
  {
  }

  /** The author sent a timeout vote for the ledger info of the author's first vote. */
  predicate TimedOut(votes: seq<Vote>, author: Author) {
    var first := FirstBy(votes, |votes|, author);
    first < |votes| && exists k | 0 <= k < |votes| :: TimesOut(votes[k], author, votes[first].ledgerInfo)
  }

  /** A round ends: when everyone outside a tolerated set times out, some certificate is reported. */
  lemma {:induction false} HonestTimeoutsCertify(v: ValidatorVerifier, votes: seq<Vote>, f: set<Author>)
    returns (i: nat)
    requires AtMostOneThird(v, f)
    requires forall k | 0 <= k < |votes| :: votes[k].author in Addresses(v.validators)
    requires forall author | author in Addresses(v.validators) - f :: TimedOut(votes, author)
    ensures i < |votes|
    ensures ReceptionAt(v, votes, i).NewQuorumCertificate? || ReceptionAt(v, votes, i).NewTimeoutCertificate?
  {
    hide Collect, ReceptionAt, Addresses, TimeoutSigners, AtMostOneThird, Power;
    if k :| 0 <= k < |votes| && ReceptionAt(v, votes, k).NewQuorumCertificate? {
      i := k;
    } else {
      var b := Collect(v, votes, |votes|);
      TimeoutVotersSign(v, votes, |votes|);
      AlwaysWellIndexed(v, votes, |votes|);
      forall author
        ensures author in TimeoutSigners(b) ==> author in Addresses(v.validators)
        ensures author in Addresses(v.validators) - f ==> author in TimeoutSigners(b)
      {
        RecordedIsFirst(v, votes, |votes|, author);
      }
      HonestAreQuorum(v, f);
      PowerMonotone(v.validators, Addresses(v.validators) - f, TimeoutSigners(b));
      HaveValidators(v, f);
      i := TimeoutQuorumIsReported(v, votes, |votes|);
    }
  }

  lemma {:induction false} HaveValidators(v: ValidatorVerifier, f: set<Author>)
    requires AtMostOneThird(v, f)
    ensures v.validators != []
  {
  }
}
