/** Voting power, quorums and signature checks of one validator set. */
module Validators {
  import opened LedgerTypes

  datatype VerifyError =
    | UnknownAuthor
    | TooLittleVotingPower(votingPower: nat, quorumVotingPower: nat)
    | TooManySignatures(numOfSignatures: nat, numOfAuthors: nat)
    | InvalidSignature

  /** The voting power that `validators` gives to the authors in `authors`. */
  function Power(validators: seq<ValidatorInfo>, authors: set<Author>): nat {
    if validators == [] then 0
    else (if validators[0].address in authors then validators[0].votingPower else 0)
         + Power(validators[1..], authors)
  }

  function Addresses(validators: seq<ValidatorInfo>): set<Author> {
    set i | 0 <= i < |validators| :: validators[i].address
  }

  function TotalPower(v: ValidatorVerifier): nat {
    Power(v.validators, Addresses(v.validators))
  }

  /** `2f + 1`, or zero when there is no validator. */
  function QuorumPower(v: ValidatorVerifier): nat {
    if v.validators == [] then 0 else TotalPower(v) * 2 / 3 + 1
  }

  function Lookup(validators: seq<ValidatorInfo>, author: Author): Option<ValidatorInfo> {
    if validators == [] then None
    else if validators[0].address == author then Some(validators[0])
    else Lookup(validators[1..], author)
  }

  function CheckVotingPower(v: ValidatorVerifier, authors: set<Author>): Result<(), VerifyError> {
    if !(authors <= Addresses(v.validators)) then Err(UnknownAuthor)
    else
      var power := Power(v.validators, authors);
      if power < QuorumPower(v) then Err(TooLittleVotingPower(power, QuorumPower(v))) else Ok(())
  }

  predicate ValidSignature(v: ValidatorVerifier, author: Author, message: LedgerInfo, signature: Signature) {
    var info := Lookup(v.validators, author);
    info.Some? && signature.publicKey == info.value.publicKey && signature.message == message
  }

  function VerifySignatures(v: ValidatorVerifier, lis: LedgerInfoWithSignatures): Result<(), VerifyError> {
    if |lis.signatures| > |v.validators| then
      Err(TooManySignatures(|lis.signatures|, |v.validators|))
    else
      var _ :- CheckVotingPower(v, lis.signatures.Keys);
      if forall author | author in lis.signatures ::
        ValidSignature(v, author, lis.ledgerInfo, lis.signatures[author])
      then Ok(()) else Err(InvalidSignature)
  }

  // ----- Arithmetic of voting power -----

  lemma {:induction false} PowerMonotone(validators: seq<ValidatorInfo>, a: set<Author>, b: set<Author>)
    requires a * Addresses(validators) <= b
    ensures Power(validators, a) <= Power(validators, b)
  {
    if validators != [] {
      AddressesTail(validators);
      PowerMonotone(validators[1..], a, b);
    }
  }

  lemma {:induction false} AddressesTail(validators: seq<ValidatorInfo>)
    requires validators != []
    ensures Addresses(validators) == {validators[0].address} + Addresses(validators[1..])
  {
  }

  /** Inclusion and exclusion for voting power. */
  lemma {:induction false} PowerUnion(validators: seq<ValidatorInfo>, a: set<Author>, b: set<Author>)
    ensures Power(validators, a + b) + Power(validators, a * b) == Power(validators, a) + Power(validators, b)
  {
    if validators != [] {
      PowerUnion(validators[1..], a, b);
    }
  }

  /** At most `f` of `3f + 1` votes: three times the power of `authors` is below the total. */
  predicate AtMostOneThird(v: ValidatorVerifier, authors: set<Author>) {
    3 * Power(v.validators, authors) < TotalPower(v)
  }

  predicate IsQuorum(v: ValidatorVerifier, authors: set<Author>) {
    Power(v.validators, authors) >= QuorumPower(v)
  }

  /** Two quorums share more voting power than any set holding at most a third of it. */
  lemma {:induction false} QuorumIntersection(v: ValidatorVerifier, a: set<Author>, b: set<Author>)
    requires v.validators != []
    requires IsQuorum(v, a) && IsQuorum(v, b)
    ensures 3 * Power(v.validators, a * b) > TotalPower(v)
  {
    PowerUnion(v.validators, a, b);
    PowerMonotone(v.validators, a + b, Addresses(v.validators));
  }

  /** Two quorums of one validator set share an author outside any set `f` of at most a third. */
  lemma {:induction false} QuorumsShareHonest(v: ValidatorVerifier, a: set<Author>, b: set<Author>, f: set<Author>)
    returns (author: Author)
    requires IsQuorum(v, a) && IsQuorum(v, b) && AtMostOneThird(v, f)
    ensures author in a && author in b && author !in f
  {
    QuorumIntersection(v, a, b);
    if a * b <= f {
      PowerMonotone(v.validators, a * b, f);
      assert false;
    }
    author :| author in a * b && author !in f;
  }

  /** Known authors are enough exactly when they hold more than two thirds of the power, if anyone holds any. */
  lemma {:induction false} EnoughIff(v: ValidatorVerifier, authors: set<Author>)
    ensures CheckVotingPower(v, authors) == Ok(())
       <==> && authors <= Addresses(v.validators)
            && (v.validators != [] ==> 3 * Power(v.validators, authors) > 2 * TotalPower(v))
    ensures CheckVotingPower(v, authors) == Err(UnknownAuthor) <==> !(authors <= Addresses(v.validators))
  {
  }

  /** Signatures verify exactly when their authors are enough and each one is its author's over the ledger info. */
  lemma {:induction false} VerifiesIff(v: ValidatorVerifier, lis: LedgerInfoWithSignatures)
    ensures VerifySignatures(v, lis) == Ok(())
       <==> && CheckVotingPower(v, lis.signatures.Keys) == Ok(())
            && forall author | author in lis.signatures ::
                 ValidSignature(v, author, lis.ledgerInfo, lis.signatures[author])
  {
    hide CheckVotingPower, ValidSignature;
    if CheckVotingPower(v, lis.signatures.Keys).Ok? {
      assert CheckVotingPower(v, lis.signatures.Keys).value == ();
      EnoughIff(v, lis.signatures.Keys);
      KnownAreFew(v.validators, lis.signatures.Keys);
    }
  }

  lemma {:induction false} KnownAreFew(validators: seq<ValidatorInfo>, authors: set<Author>)
    requires authors <= Addresses(validators)
    ensures |authors| <= |validators|
  {
    if validators != [] {
      AddressesTail(validators);
      var rest := authors - {validators[0].address};
      KnownAreFew(validators[1..], rest);
      assert authors <= rest + {validators[0].address};
      assert authors == rest || authors == rest + {validators[0].address};
    } else {
      assert authors == {};
    }
  }

  /** Too many signatures are refused first, then authors that are not enough, then signatures that do not verify. */
  lemma {:induction false} SignatureErrors(v: ValidatorVerifier, lis: LedgerInfoWithSignatures)
    ensures var r, power := VerifySignatures(v, lis), CheckVotingPower(v, lis.signatures.Keys);
            if |lis.signatures| > |v.validators| then
              r == Err(TooManySignatures(|lis.signatures|, |v.validators|))
            else if power.Err? then r == power
            else r.Ok? || r == Err(InvalidSignature)
  {
    hide CheckVotingPower, ValidSignature;
  }

  /** The validators outside any tolerated set of faulty ones are enough, whatever the faulty ones do. */
  lemma {:induction false} HonestAreQuorum(v: ValidatorVerifier, f: set<Author>)
    requires AtMostOneThird(v, f)
    ensures CheckVotingPower(v, Addresses(v.validators) - f) == Ok(())
  {
    var all := Addresses(v.validators);
    assert (all - f) + all * f == all && (all - f) * (all * f) == {};
    PowerUnion(v.validators, all - f, all * f);
    PowerOfNobody(v.validators);
    PowerMonotone(v.validators, all * f, f);
  }

  // ----- The loop of the source -----

  predicate DistinctAddresses(validators: seq<ValidatorInfo>) {
    forall i, j | 0 <= i < j < |validators| :: validators[i].address != validators[j].address
  }

  lemma {:induction false} LookupFindsAddresses(validators: seq<ValidatorInfo>, author: Author)
    ensures Lookup(validators, author).Some? <==> author in Addresses(validators)
    ensures Lookup(validators, author).Some? ==> Lookup(validators, author).value.address == author
  {
    if validators != [] {
      AddressesTail(validators);
      LookupFindsAddresses(validators[1..], author);
    }
  }

  lemma {:induction false} PowerWithout(validators: seq<ValidatorInfo>, authors: set<Author>, author: Author)
    requires author !in Addresses(validators)
    ensures Power(validators, authors + {author}) == Power(validators, authors)
  {
    if validators != [] {
      AddressesTail(validators);
      PowerWithout(validators[1..], authors, author);
    }
  }

  lemma {:induction false} PowerAdd(validators: seq<ValidatorInfo>, authors: set<Author>, author: Author)
    requires DistinctAddresses(validators)
    requires author !in authors && author in Addresses(validators)
    ensures Lookup(validators, author).Some?
    ensures Power(validators, authors + {author})
         == Power(validators, authors) + Lookup(validators, author).value.votingPower
  {
    AddressesTail(validators);
    if validators[0].address == author {
      assert author !in Addresses(validators[1..]);
      PowerWithout(validators[1..], authors, author);
    } else {
      PowerAdd(validators[1..], authors, author);
    }
  }

  function AuthorSet(authors: seq<Author>): set<Author> {
    set author | author in authors
  }

  /**
   * The loop that adds up the voting power of an aggregated signature's authors, stopping at
   * the first unknown one. It sees every author once, in any order.
   */
  method CheckVotingPowerOf(v: ValidatorVerifier, authors: seq<Author>) returns (r: Result<(), VerifyError>)
    requires DistinctAddresses(v.validators)
    requires forall i, j | 0 <= i < j < |authors| :: authors[i] != authors[j]
    ensures r == CheckVotingPower(v, AuthorSet(authors))
  {
    var aggregated := 0;
    var i := 0;
    PowerOfNobody(v.validators);
    assert AuthorSet(authors[..0]) == {};
    while i < |authors|
      invariant 0 <= i <= |authors|
      invariant AuthorSet(authors[..i]) <= Addresses(v.validators)
      invariant aggregated == Power(v.validators, AuthorSet(authors[..i]))
    {
      var info := Lookup(v.validators, authors[i]);
      LookupFindsAddresses(v.validators, authors[i]);
      if info.None? {
        return Err(UnknownAuthor);
      }
      PowerAdd(v.validators, AuthorSet(authors[..i]), authors[i]);
      assert AuthorSet(authors[..i + 1]) == AuthorSet(authors[..i]) + {authors[i]};
      aggregated := aggregated + info.value.votingPower;
      i := i + 1;
    }
    assert authors[..i] == authors;
    if aggregated < QuorumPower(v) {
      return Err(TooLittleVotingPower(aggregated, QuorumPower(v)));
    }
    return Ok(());
  }

  lemma {:induction false} PowerOfNobody(validators: seq<ValidatorInfo>)
    ensures Power(validators, {}) == 0
  {
    if validators != [] {
      PowerOfNobody(validators[1..]);
    }
  }
}
