/**
 What the votes received so far say about the answer to the next one: which
 votes are accepted, which refused and how, and when each kind of certificate is
 handed out and with what in it.
 */
module VoteHistory {
  import opened State
  import opened PendingVotes

  // --- Accepted and refused votes ---

  /** The vote carries a timeout signature of either kind. */
  predicate Timeout(vote: Vote) {
    vote.timeout.Some? || vote.twoChain.Some?
  }

  /** The author has sent a timeout vote for `digest`. */
  ghost predicate TimedOut(votes: seq<Vote>, a: nat, digest: nat) {
    exists j: nat :: j < |votes| && votes[j].author == a && votes[j].digest == digest && Timeout(votes[j])
  }

  /** The first vote of its author, or its first timeout vote for the digest of that first vote. */
  ghost predicate Accepted(votes: seq<Vote>, i: nat)
    requires i < |votes|
  {
    var vote := votes[i];
    NotBefore(votes, vote.author, i) ||
    (FirstFor(votes[..i], vote.author, vote.digest) && Timeout(vote) &&
     !TimedOut(votes[..i], vote.author, vote.digest))
  }

  lemma TimedOutExtends(votes: seq<Vote>, a: nat, digest: nat)
    requires votes != []
    ensures TimedOut(votes, a, digest) <==>
              var init, last := votes[..|votes| - 1], votes[|votes| - 1];
              TimedOut(init, a, digest) || (last.author == a && last.digest == digest && Timeout(last))
  {
    var init, last := votes[..|votes| - 1], votes[|votes| - 1];
    if j: nat :| j < |init| && init[j].author == a && init[j].digest == digest && Timeout(init[j]) {
      assert votes[j] == init[j];
    }
    if j: nat :| j < |votes| && votes[j].author == a && votes[j].digest == digest && Timeout(votes[j]) {
      assert j < |init| ==> init[j] == votes[j];
    }
    if last.author == a && last.digest == digest && Timeout(last) {
      assert votes[|votes| - 1] == last;
    }
  }

  /** The stored vote of an author is a timeout vote exactly when one for its digest has come in. */
  lemma {:induction false} StoredTimeout(votes: seq<Vote>, v: Verifier, a: nat)
    requires a in After(votes, v).authorToVote
    ensures var stored := After(votes, v).authorToVote[a];
            stored.author == a && (Timeout(stored) <==> TimedOut(votes, a, stored.digest))
  {
    var init, last := votes[..|votes| - 1], votes[|votes| - 1];
    InsertStores(After(init, v), last, v);
    TimedOutExtends(votes, a, After(votes, v).authorToVote[a].digest);
    if a in After(init, v).authorToVote {
      StoredTimeout(init, v, a);
    } else {
      NeverTimedOut(init, v, a, last.digest);
    }
  }

  lemma NeverTimedOut(votes: seq<Vote>, v: Verifier, a: nat, digest: nat)
    requires a !in After(votes, v).authorToVote
    ensures !TimedOut(votes, a, digest)
  {
    StoredIsFirst(votes, v, a, digest);
  }

  /** Acceptance in terms of the votes received. */
  lemma AcceptedIff(votes: seq<Vote>, v: Verifier, i: nat)
    requires i < |votes|
    ensures Accepts(After(votes[..i], v), votes[i]) <==> Accepted(votes, i)
  {
    var a, d := votes[i].author, votes[i].digest;
    var b := After(votes[..i], v);
    StoredIsFirst(votes[..i], v, a, d);
    assert NotBefore(votes, a, i) <==> NotBefore(votes[..i], a, i);
    if a in b.authorToVote { StoredTimeout(votes[..i], v, a); }
  }

  /**
   A vote is an equivocation exactly when the first vote of its author was for
   another digest, and a duplicate exactly when it was for the same one and this
   is not the first timeout vote for it.
   */
  lemma RefusedIff(votes: seq<Vote>, v: Verifier, i: nat)
    requires i < |votes|
    ensures var a, d := votes[i].author, votes[i].digest;
            && (ResultOf(votes, v, i).EquivocateVote? <==>
                !NotBefore(votes, a, i) && !FirstFor(votes[..i], a, d))
            && (ResultOf(votes, v, i).DuplicateVote? <==>
                FirstFor(votes[..i], a, d) && (!Timeout(votes[i]) || TimedOut(votes[..i], a, d)))
  {
    var a, d := votes[i].author, votes[i].digest;
    AcceptedIff(votes, v, i);
    StoredIsFirst(votes[..i], v, a, d);
    assert NotBefore(votes, a, i) <==> NotBefore(votes[..i], a, i);
    InsertRefuses(After(votes[..i], v), votes[i], v);
  }

  lemma InsertRefuses(b: Book, vote: Vote, v: Verifier)
    ensures var r := Insert(b, vote, v).1;
            && (r.EquivocateVote? <==>
                vote.author in b.authorToVote && b.authorToVote[vote.author].digest != vote.digest)
            && (r.DuplicateVote? <==> !Accepts(b, vote) && b.authorToVote[vote.author].digest == vote.digest)
  {
  }

  // --- At most one timeout vote per author counts ---

  lemma FirstForStays(votes: seq<Vote>, i: nat, j: nat, a: nat, digest: nat)
    requires j <= i <= |votes| && FirstFor(votes[..j], a, digest)
    ensures FirstFor(votes[..i], a, digest)
  {
    var m: nat :| m < j && votes[..j][m].author == a && votes[..j][m].digest == digest && NotBefore(votes[..j], a, m);
    assert votes[..i][m] == votes[..j][m] && NotBefore(votes[..i], a, m);
  }

  /** The digest of an accepted vote is the one its author voted for first. */
  lemma AcceptedIsFirst(votes: seq<Vote>, j: nat, i: nat)
    requires j < i <= |votes| && Accepted(votes, j)
    ensures FirstFor(votes[..i], votes[j].author, votes[j].digest)
  {
    var a := votes[j].author;
    if NotBefore(votes, a, j) {
      assert votes[..i][j] == votes[j] && NotBefore(votes[..i], a, j);
    } else {
      FirstForStays(votes, i, j, a, votes[j].digest);
    }
  }

  lemma TimeoutOnce(votes: seq<Vote>, j: nat, i: nat)
    requires j < i < |votes| && Accepted(votes, j) && Accepted(votes, i)
    requires Timeout(votes[j]) && Timeout(votes[i])
    ensures votes[j].author != votes[i].author
  {
    var a := votes[i].author;
    if votes[j].author == a {
      AcceptedIsFirst(votes, j, i);
    }
  }

  // --- Which votes count towards a timeout certificate ---

  ghost function PowerOf(v: Verifier, authors: set<nat>): nat {
    SumPower(v.powers, authors * v.powers.Keys)
  }

  /** All authors whose first vote is for the digest of vote `i` are known, and they do not reach the quorum. */
  ghost predicate Short(votes: seq<Vote>, v: Verifier, i: nat)
    requires i < |votes|
  {
    AllKnown(votes[..i + 1], v, votes[i].digest) &&
    SumPower(v.powers, FirstVoters(votes[..i + 1], v, votes[i].digest)) < v.quorum
  }

  ghost predicate TimeoutCounts(votes: seq<Vote>, v: Verifier, i: nat)
    requires i < |votes|
  {
    Accepted(votes, i) && votes[i].timeout.Some? && Short(votes, v, i)
  }

  /** The authors of the first `n` votes with a timeout signature that counts. */
  ghost function TimeoutSigners(votes: seq<Vote>, v: Verifier, n: nat): set<nat>
    requires n <= |votes|
  {
    set j: nat | j < n && TimeoutCounts(votes, v, j) :: votes[j].author
  }

  ghost predicate TimeoutReached(votes: seq<Vote>, v: Verifier, i: nat)
    requires i < |votes|
  {
    TimeoutCounts(votes, v, i) && PowerOf(v, TimeoutSigners(votes, v, i + 1)) >= v.quorum
  }

  ghost predicate TwoChainCounts(votes: seq<Vote>, v: Verifier, i: nat)
    requires i < |votes|
  {
    Accepted(votes, i) && votes[i].twoChain.Some? && Short(votes, v, i) && !TimeoutReached(votes, v, i)
  }

  ghost function TwoChainSigners(votes: seq<Vote>, v: Verifier, n: nat): set<nat>
    requires n <= |votes|
  {
    set j: nat | j < n && TwoChainCounts(votes, v, j) :: votes[j].author
  }

  ghost predicate TwoChainReached(votes: seq<Vote>, v: Verifier, i: nat)
    requires i < |votes|
  {
    TwoChainCounts(votes, v, i) && PowerOf(v, TwoChainSigners(votes, v, i + 1)) >= v.quorum
  }

  /** The author of a vote that counts is known. */
  lemma ShortKnown(votes: seq<Vote>, v: Verifier, i: nat)
    requires i < |votes| && Accepted(votes, i) && Short(votes, v, i)
    ensures votes[i].author in v.powers
  {
    AcceptedIsFirst(votes, i, i + 1);
  }

  lemma SignersKnown(votes: seq<Vote>, v: Verifier, n: nat)
    requires n <= |votes|
    ensures TimeoutSigners(votes, v, n) <= v.powers.Keys && TwoChainSigners(votes, v, n) <= v.powers.Keys
  {
    forall j: nat | j < n && Accepted(votes, j) && Short(votes, v, j) ensures votes[j].author in v.powers {
      ShortKnown(votes, v, j);
    }
  }

  // --- What the book keeps of them ---

  function Signed(tc: Option<map<nat, nat>>): map<nat, nat> {
    if tc.Some? then tc.value else map[]
  }

  function SignedTwo(tc: Option<TwoChain>): map<nat, (nat, nat)> {
    if tc.Some? then tc.value.signed else map[]
  }

  ghost predicate PowerShort(b: Book, vote: Vote, v: Verifier) {
    Accepts(b, vote) && CheckPower(v, SignaturesFor(Insert(b, vote, v).0, vote.digest).Keys).TooLittle?
  }

  /** The legacy half of one vote. */
  lemma InsertTimeout(b: Book, vote: Vote, v: Verifier)
    ensures var (b', r) := Insert(b, vote, v);
            var counts := PowerShort(b, vote, v) && vote.timeout.Some?;
            && Signed(b'.partialTc) == (if counts
                                        then AddSignature(Signed(b.partialTc), vote.author, vote.timeout.value)
                                        else Signed(b.partialTc))
            && (r.NewTimeoutCertificate? <==> counts && CheckPower(v, Signed(b'.partialTc).Keys) == Reached)
            && (r.NewTimeoutCertificate? ==> r.timeouts == Signed(b'.partialTc))
  {
    InsertStores(b, vote, v);
  }

  /** The two-chain half; it is not reached when the legacy half has returned. */
  lemma InsertTwoChain(b: Book, vote: Vote, v: Verifier)
    ensures var (b', r) := Insert(b, vote, v);
            var stops := vote.timeout.Some? && !CheckPower(v, Signed(b'.partialTc).Keys).TooLittle?;
            var counts := PowerShort(b, vote, v) && vote.twoChain.Some? && !stops;
            && SignedTwo(b'.partialTwoChain) == (if counts
                                                 then SignedTwo(b.partialTwoChain)[vote.author := vote.twoChain.value]
                                                 else SignedTwo(b.partialTwoChain))
            && (r.NewTwoChainCertificate? <==> counts && CheckPower(v, SignedTwo(b'.partialTwoChain).Keys) == Reached)
            && (r.NewTwoChainCertificate? ==> r.cert.signed == SignedTwo(b'.partialTwoChain))
  {
    InsertStores(b, vote, v);
    if PowerShort(b, vote, v) {
      TimeoutStepTwoChain(Stored(b, vote), vote, v, CheckPower(v, Stored(b, vote).votes[vote.digest].Keys).power);
    }
  }

  lemma TimeoutStepTwoChain(b: Book, vote: Vote, v: Verifier, power: nat)
    ensures var (b', r) := TimeoutStep(b, vote, v, power);
            var stops := vote.timeout.Some? && !CheckPower(v, Signed(b'.partialTc).Keys).TooLittle?;
            var counts := vote.twoChain.Some? && !stops;
            && SignedTwo(b'.partialTwoChain) == (if counts
                                                 then SignedTwo(b.partialTwoChain)[vote.author := vote.twoChain.value]
                                                 else SignedTwo(b.partialTwoChain))
            && (r.NewTwoChainCertificate? <==> counts && CheckPower(v, SignedTwo(b'.partialTwoChain).Keys) == Reached)
            && (r.NewTwoChainCertificate? ==> r.cert.signed == SignedTwo(b'.partialTwoChain))
            && (r.ErrorAddingVote? ==>
                || (vote.timeout.Some? && CheckPower(v, Signed(b'.partialTc).Keys).UnknownAuthor?)
                || (counts && CheckPower(v, SignedTwo(b'.partialTwoChain).Keys).UnknownAuthor?))
  {
  }

  /** In terms of the votes received. */
  lemma ShortIff(votes: seq<Vote>, v: Verifier, i: nat)
    requires i < |votes|
    ensures PowerShort(After(votes[..i], v), votes[i], v) <==> Accepted(votes, i) && Short(votes, v, i)
  {
    AcceptedIff(votes, v, i);
    StepOf(votes, v, i);
    KnownAndShort(votes[..i + 1], v, votes[i].digest);
  }

  lemma KnownAndShort(votes: seq<Vote>, v: Verifier, digest: nat)
    ensures CheckPower(v, SignersOf(votes, v, digest)).TooLittle? <==>
            AllKnown(votes, v, digest) && SumPower(v.powers, FirstVoters(votes, v, digest)) < v.quorum
  {
    SignersAreFirst(votes, v, digest);
  }

  /** The partial certificates hold exactly the signatures that count. */
  ghost predicate TimeoutsTracked(votes: seq<Vote>, v: Verifier, n: nat)
    requires n <= |votes|
  {
    var signed := Signed(After(votes[..n], v).partialTc);
    && signed.Keys == TimeoutSigners(votes, v, n)
    && forall j: nat | j < n && TimeoutCounts(votes, v, j) :: signed[votes[j].author] == votes[j].timeout.value
  }

  ghost predicate TwoChainsTracked(votes: seq<Vote>, v: Verifier, n: nat)
    requires n <= |votes|
  {
    var signed := SignedTwo(After(votes[..n], v).partialTwoChain);
    && signed.Keys == TwoChainSigners(votes, v, n)
    && forall j: nat | j < n && TwoChainCounts(votes, v, j) :: signed[votes[j].author] == votes[j].twoChain.value
  }

  lemma TimeoutsStep(votes: seq<Vote>, v: Verifier, i: nat)
    requires i < |votes|
    ensures var before, after := Signed(After(votes[..i], v).partialTc), Signed(After(votes[..i + 1], v).partialTc);
            after == if TimeoutCounts(votes, v, i)
                     then AddSignature(before, votes[i].author, votes[i].timeout.value) else before
    ensures TimeoutSigners(votes, v, i + 1) ==
            TimeoutSigners(votes, v, i) + if TimeoutCounts(votes, v, i) then {votes[i].author} else {}
  {
    StepOf(votes, v, i);
    ShortIff(votes, v, i);
    InsertTimeout(After(votes[..i], v), votes[i], v);
  }

  lemma TimeoutsNext(votes: seq<Vote>, v: Verifier, i: nat)
    requires i < |votes| && TimeoutsTracked(votes, v, i)
    ensures TimeoutsTracked(votes, v, i + 1)
  {
    TimeoutsStep(votes, v, i);
    if TimeoutCounts(votes, v, i) {
      forall j: nat | j < i && TimeoutCounts(votes, v, j) ensures votes[j].author != votes[i].author {
        TimeoutOnce(votes, j, i);
      }
    }
  }

  lemma {:induction false} TimeoutsAlways(votes: seq<Vote>, v: Verifier, n: nat)
    requires n <= |votes|
    ensures TimeoutsTracked(votes, v, n)
  {
    if n == 0 {
    } else {
      TimeoutsAlways(votes, v, n - 1);
      TimeoutsNext(votes, v, n - 1);
    }
  }

  /** What the check of the legacy certificate finds. */
  lemma TimeoutPower(votes: seq<Vote>, v: Verifier, i: nat)
    requires i < |votes|
    ensures var keys := Signed(After(votes[..i + 1], v).partialTc).Keys;
            && keys == TimeoutSigners(votes, v, i + 1)
            && CheckPower(v, keys) == (if PowerOf(v, keys) < v.quorum then TooLittle(PowerOf(v, keys)) else Reached)
  {
    TimeoutsAlways(votes, v, i + 1);
    SignersKnown(votes, v, i + 1);
    var keys := TimeoutSigners(votes, v, i + 1);
    assert keys * v.powers.Keys == keys;
  }

  /**
   A timeout certificate is handed out exactly when the vote counts and the
   authors that count so far reach the quorum; it holds exactly their signatures.
   */
  lemma TimeoutCertificateIff(votes: seq<Vote>, v: Verifier, i: nat)
    requires i < |votes|
    ensures ResultOf(votes, v, i).NewTimeoutCertificate? <==> TimeoutReached(votes, v, i)
    ensures ResultOf(votes, v, i).NewTimeoutCertificate? ==>
              var signed := ResultOf(votes, v, i).timeouts;
              && signed.Keys == TimeoutSigners(votes, v, i + 1)
              && forall j: nat | j <= i && TimeoutCounts(votes, v, j) ::
                   signed[votes[j].author] == votes[j].timeout.value
  {
    StepOf(votes, v, i);
    ShortIff(votes, v, i);
    InsertTimeout(After(votes[..i], v), votes[i], v);
    TimeoutPower(votes, v, i);
    TimeoutsAlways(votes, v, i + 1);
  }

  lemma TwoChainsStep(votes: seq<Vote>, v: Verifier, i: nat)
    requires i < |votes|
    ensures var before := SignedTwo(After(votes[..i], v).partialTwoChain);
            var after := SignedTwo(After(votes[..i + 1], v).partialTwoChain);
            after == if TwoChainCounts(votes, v, i) then before[votes[i].author := votes[i].twoChain.value] else before
    ensures TwoChainSigners(votes, v, i + 1) ==
            TwoChainSigners(votes, v, i) + if TwoChainCounts(votes, v, i) then {votes[i].author} else {}
  {
    StepOf(votes, v, i);
    ShortIff(votes, v, i);
    InsertTwoChain(After(votes[..i], v), votes[i], v);
    TimeoutPower(votes, v, i);
  }

  lemma TwoChainsNext(votes: seq<Vote>, v: Verifier, i: nat)
    requires i < |votes| && TwoChainsTracked(votes, v, i)
    ensures TwoChainsTracked(votes, v, i + 1)
  {
    TwoChainsStep(votes, v, i);
    if TwoChainCounts(votes, v, i) {
      forall j: nat | j < i && TwoChainCounts(votes, v, j) ensures votes[j].author != votes[i].author {
        TimeoutOnce(votes, j, i);
      }
    }
  }

  lemma {:induction false} TwoChainsAlways(votes: seq<Vote>, v: Verifier, n: nat)
    requires n <= |votes|
    ensures TwoChainsTracked(votes, v, n)
  {
    if n == 0 {
    } else {
      TwoChainsAlways(votes, v, n - 1);
      TwoChainsNext(votes, v, n - 1);
    }
  }

  lemma TwoChainPower(votes: seq<Vote>, v: Verifier, i: nat)
    requires i < |votes|
    ensures var keys := SignedTwo(After(votes[..i + 1], v).partialTwoChain).Keys;
            && keys == TwoChainSigners(votes, v, i + 1)
            && CheckPower(v, keys) == (if PowerOf(v, keys) < v.quorum then TooLittle(PowerOf(v, keys)) else Reached)
  {
    TwoChainsAlways(votes, v, i + 1);
    SignersKnown(votes, v, i + 1);
    var keys := TwoChainSigners(votes, v, i + 1);
    assert keys * v.powers.Keys == keys;
  }

  /**
   A two-chain certificate is handed out exactly when the vote counts towards it
   and the authors that count so far reach the quorum; it holds exactly their
   rounds and signatures, and the highest of these rounds.
   */
  lemma TwoChainCertificateIff(votes: seq<Vote>, v: Verifier, i: nat)
    requires i < |votes|
    ensures ResultOf(votes, v, i).NewTwoChainCertificate? <==> TwoChainReached(votes, v, i)
    ensures ResultOf(votes, v, i).NewTwoChainCertificate? ==>
              var cert := ResultOf(votes, v, i).cert;
              && HighestRound(cert) && cert.signed.Keys == TwoChainSigners(votes, v, i + 1)
              && forall j: nat | j <= i && TwoChainCounts(votes, v, j) ::
                   cert.signed[votes[j].author] == votes[j].twoChain.value
  {
    StepOf(votes, v, i);
    ShortIff(votes, v, i);
    InsertTwoChain(After(votes[..i], v), votes[i], v);
    TimeoutPower(votes, v, i);
    TwoChainPower(votes, v, i);
    TwoChainsAlways(votes, v, i + 1);
    if ResultOf(votes, v, i).NewTwoChainCertificate? { TwoChainCertificateHighest(votes, v, i); }
  }

  // --- The remaining answers ---

  /** A quorum certificate holds the signature of the first vote of each of its signers. */
  lemma {:induction false} SignatureIsFirst(votes: seq<Vote>, v: Verifier, a: nat, j: nat)
    requires j < |votes| && votes[j].author == a && NotBefore(votes, a, j)
    ensures var signatures := SignaturesFor(After(votes, v), votes[j].digest);
            a in signatures && signatures[a] == votes[j].signature
  {
    var init, last := votes[..|votes| - 1], votes[|votes| - 1];
    InsertStores(After(init, v), last, v);
    if j < |init| {
      assert init[j] == votes[j] && NotBefore(init, a, j);
      SignatureIsFirst(init, v, a, j);
    } else {
      assert init == votes[..j];
      FirstIsNew(init, v, a, last.digest);
    }
  }

  lemma FirstIsNew(votes: seq<Vote>, v: Verifier, a: nat, digest: nat)
    requires NotBefore(votes, a, |votes|)
    ensures a !in After(votes, v).authorToVote && a !in SignaturesFor(After(votes, v), digest)
  {
    StoredIsFirst(votes, v, a, digest);
    SignersExact(votes, v, digest, a);
  }

  /** The signers of a quorum certificate are the first voters for its digest, with the signatures of these votes. */
  lemma CertificateSignatures(votes: seq<Vote>, v: Verifier, i: nat)
    requires i < |votes| && ResultOf(votes, v, i).NewQuorumCertificate?
    ensures ResultOf(votes, v, i).digest == votes[i].digest
    ensures forall a :: a in ResultOf(votes, v, i).signatures <==> FirstFor(votes[..i + 1], a, votes[i].digest)
    ensures forall j: nat | j <= i && votes[j].digest == votes[i].digest && NotBefore(votes, votes[j].author, j) ::
              var signatures := ResultOf(votes, v, i).signatures;
              votes[j].author in signatures && signatures[votes[j].author] == votes[j].signature
  {
    StepOf(votes, v, i);
    InsertReports(After(votes[..i], v), votes[i], v);
    var d := votes[i].digest;
    forall a ensures a in ResultOf(votes, v, i).signatures <==> FirstFor(votes[..i + 1], a, d) {
      SignersExact(votes[..i + 1], v, d, a);
    }
    forall j: nat | j <= i && votes[j].digest == d && NotBefore(votes, votes[j].author, j)
      ensures votes[j].author in ResultOf(votes, v, i).signatures
      ensures ResultOf(votes, v, i).signatures[votes[j].author] == votes[j].signature
    {
      SignatureIsFirst(votes[..i + 1], v, votes[j].author, j);
    }
  }

  lemma InsertErrs(b: Book, vote: Vote, v: Verifier)
    ensures var (b', r) := Insert(b, vote, v);
            r.ErrorAddingVote? ==>
              && Accepts(b, vote)
              && (|| CheckPower(v, SignaturesFor(b', vote.digest).Keys).UnknownAuthor?
                  || CheckPower(v, Signed(b'.partialTc).Keys).UnknownAuthor?
                  || CheckPower(v, SignedTwo(b'.partialTwoChain).Keys).UnknownAuthor?)
  {
    InsertStores(b, vote, v);
    if PowerShort(b, vote, v) {
      TimeoutStepTwoChain(Stored(b, vote), vote, v, CheckPower(v, Stored(b, vote).votes[vote.digest].Keys).power);
    }
  }

  /** An accepted vote is an error exactly when an author whose first vote is for its digest is unknown. */
  lemma ErrorIff(votes: seq<Vote>, v: Verifier, i: nat)
    requires i < |votes|
    ensures ResultOf(votes, v, i).ErrorAddingVote? <==>
            Accepted(votes, i) && !AllKnown(votes[..i + 1], v, votes[i].digest)
  {
    AcceptedIff(votes, v, i);
    CertificateIff(votes, v, i);
    StepOf(votes, v, i);
    InsertErrs(After(votes[..i], v), votes[i], v);
    SignersAreFirst(votes[..i + 1], v, votes[i].digest);
    TimeoutPower(votes, v, i);
    TwoChainPower(votes, v, i);
  }

  /** Otherwise it is only counted: no certificate of any kind is due. */
  lemma VoteAddedIff(votes: seq<Vote>, v: Verifier, i: nat)
    requires i < |votes|
    ensures ResultOf(votes, v, i).VoteAdded? <==>
            Accepted(votes, i) && Short(votes, v, i) && !TimeoutReached(votes, v, i) && !TwoChainReached(votes, v, i)
    ensures ResultOf(votes, v, i).VoteAdded? ==>
            ResultOf(votes, v, i).power == SumPower(v.powers, FirstVoters(votes[..i + 1], v, votes[i].digest))
  {
    AcceptedIff(votes, v, i);
    RefusedIff(votes, v, i);
    CertificateIff(votes, v, i);
    TimeoutCertificateIff(votes, v, i);
    TwoChainCertificateIff(votes, v, i);
    ErrorIff(votes, v, i);
    if ResultOf(votes, v, i).VoteAdded? {
      VoteAddedExact(votes, v, i);
      SignersAreFirst(votes[..i + 1], v, votes[i].digest);
    }
  }
}
