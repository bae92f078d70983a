/**
 Vote aggregation for one round: what one vote does to the book of votes, and
 what holds after any sequence of votes.
 */
module PendingVotes {
  import opened State

  /** Ledger-info digests and signatures are opaque numbers. */
  datatype Vote = Vote(author: nat, digest: nat, signature: nat, timeout: Option<nat>, twoChain: Option<(nat, nat)>) {

    predicate IsTimeout() {
      timeout.Some? || twoChain.Some?
    }
  }

  /** The voting power of the known validators, and the power a quorum needs. */
  datatype Verifier = Verifier(powers: map<nat, nat>, quorum: nat)

  datatype Power = Reached | TooLittle(power: nat) | UnknownAuthor

  datatype Reception =
    | VoteAdded(power: nat)
    | DuplicateVote
    | EquivocateVote
    | NewQuorumCertificate(digest: nat, signatures: map<nat, nat>)
    | NewTimeoutCertificate(timeouts: map<nat, nat>)
    | NewTwoChainCertificate(cert: TwoChain)
    | ErrorAddingVote

  /** A partial two-chain timeout certificate: the highest round carried, and each signer's round and signature. */
  datatype TwoChain = TwoChain(hqcRound: nat, signed: map<nat, (nat, nat)>)

  datatype Book = Book(
    authorToVote: map<nat, Vote>,
    votes: map<nat, map<nat, nat>>,
    partialTc: Option<map<nat, nat>>,
    partialTwoChain: Option<TwoChain>)

  const EMPTY_BOOK := Book(map[], map[], None, None)

  // --- Voting power ---

  ghost function SumPower(powers: map<nat, nat>, authors: set<nat>): nat
    requires authors <= powers.Keys
  {
    if authors == {} then 0
    else var a :| a in authors; powers[a] + SumPower(powers, authors - {a})
  }

  lemma {:induction false} SumPowerRemove(powers: map<nat, nat>, authors: set<nat>, a: nat)
    requires authors <= powers.Keys && a in authors
    ensures SumPower(powers, authors) == powers[a] + SumPower(powers, authors - {a})
    decreases authors
  {
    var b :| b in authors && SumPower(powers, authors) == powers[b] + SumPower(powers, authors - {b});
    if a != b {
      SumPowerRemove(powers, authors - {b}, a);
      SumPowerRemove(powers, authors - {a}, b);
      assert authors - {a} - {b} == authors - {b} - {a};
    }
  }

  lemma {:induction false} SumPowerUnion(powers: map<nat, nat>, x: set<nat>, y: set<nat>)
    requires x + y <= powers.Keys && x !! y
    ensures SumPower(powers, x + y) == SumPower(powers, x) + SumPower(powers, y)
    decreases y
  {
    if y == {} {
      assert x + y == x;
    } else {
      var b :| b in y;
      SumPowerRemove(powers, x + y, b);
      SumPowerRemove(powers, y, b);
      assert x + y - {b} == x + (y - {b});
      SumPowerUnion(powers, x, y - {b});
    }
  }

  lemma SumPowerSubset(powers: map<nat, nat>, x: set<nat>, y: set<nat>)
    requires x <= y <= powers.Keys
    ensures SumPower(powers, x) <= SumPower(powers, y)
  {
    assert y == x + (y - x);
    SumPowerUnion(powers, x, y - x);
  }

  ghost function CheckPower(v: Verifier, authors: set<nat>): Power {
    if !(authors <= v.powers.Keys) then UnknownAuthor
    else if SumPower(v.powers, authors) < v.quorum then TooLittle(SumPower(v.powers, authors))
    else Reached
  }

  /** check_voting_power: adds up the power, author by author, in any order. */
  method CheckVotingPower(v: Verifier, authors: set<nat>) returns (r: Power)
    ensures r == CheckPower(v, authors)
  {
    var total, todo := 0, authors;
    while todo != {}
      invariant todo <= authors && authors - todo <= v.powers.Keys
      invariant total == SumPower(v.powers, authors - todo)
      decreases |todo|
    {
      var a :| a in todo;
      if a !in v.powers { return UnknownAuthor; }
      var rest := todo - {a};
      SumPowerRemove(v.powers, authors - rest, a);
      assert authors - rest - {a} == authors - todo;
      total := total + v.powers[a];
      todo := rest;
    }
    assert authors - todo == authors;
    r := if total < v.quorum then TooLittle(total) else Reached;
  }

  // --- One vote ---

  /** or_insert: the first signature of an author stays. */
  function AddSignature(signatures: map<nat, nat>, author: nat, signature: nat): map<nat, nat> {
    if author in signatures then signatures else signatures[author := signature]
  }

  function SignaturesFor(b: Book, digest: nat): map<nat, nat> {
    if digest in b.votes then b.votes[digest] else map[]
  }

  /** The vote is new, or the first timeout for the digest its author has voted for. */
  predicate Accepts(b: Book, vote: Vote) {
    vote.author in b.authorToVote ==>
      var previous := b.authorToVote[vote.author];
      vote.digest == previous.digest && vote.IsTimeout() && !previous.IsTimeout()
  }

  function Stored(b: Book, vote: Vote): Book {
    b.(authorToVote := b.authorToVote[vote.author := vote],
       votes := b.votes[vote.digest := AddSignature(SignaturesFor(b, vote.digest), vote.author, vote.signature)])
  }

  function WithTimeout(b: Book, vote: Vote): Book
    requires vote.timeout.Some?
  {
    var tc := if b.partialTc.Some? then b.partialTc.value else map[];
    b.(partialTc := Some(AddSignature(tc, vote.author, vote.timeout.value)))
  }

  function WithTwoChain(b: Book, vote: Vote): Book
    requires vote.twoChain.Some?
  {
    var round := vote.twoChain.value.0;
    var tc := if b.partialTwoChain.Some? then b.partialTwoChain.value else TwoChain(round, map[]);
    b.(partialTwoChain := Some(TwoChain(if round > tc.hqcRound then round else tc.hqcRound,
                                        tc.signed[vote.author := vote.twoChain.value])))
  }

  ghost function TwoChainStep(b: Book, vote: Vote, v: Verifier, power: nat): (Book, Reception) {
    if vote.twoChain.None? then (b, VoteAdded(power))
    else
      var b' := WithTwoChain(b, vote);
      match CheckPower(v, b'.partialTwoChain.value.signed.Keys)
      case Reached => (b', NewTwoChainCertificate(b'.partialTwoChain.value))
      case UnknownAuthor => (b', ErrorAddingVote)
      case TooLittle(_) => (b', VoteAdded(power))
  }

  ghost function TimeoutStep(b: Book, vote: Vote, v: Verifier, power: nat): (Book, Reception) {
    if vote.timeout.None? then TwoChainStep(b, vote, v, power)
    else
      var b' := WithTimeout(b, vote);
      match CheckPower(v, b'.partialTc.value.Keys)
      case Reached => (b', NewTimeoutCertificate(b'.partialTc.value))
      case UnknownAuthor => (b', ErrorAddingVote)
      case TooLittle(_) => TwoChainStep(b', vote, v, power)
  }

  /** The whole effect of one vote. */
  ghost function Insert(b: Book, vote: Vote, v: Verifier): (Book, Reception) {
    if !Accepts(b, vote) then
      (b, if vote.digest == b.authorToVote[vote.author].digest then DuplicateVote else EquivocateVote)
    else
      var b' := Stored(b, vote);
      match CheckPower(v, b'.votes[vote.digest].Keys)
      case Reached => (b', NewQuorumCertificate(vote.digest, b'.votes[vote.digest]))
      case UnknownAuthor => (b', ErrorAddingVote)
      case TooLittle(power) => TimeoutStep(b', vote, v, power)
  }

  class PendingVotes {
    var authorToVote: map<nat, Vote>
    var liDigestToVotes: map<nat, map<nat, nat>>
    var maybePartialTc: Option<map<nat, nat>>
    var maybePartialTwoChainTc: Option<TwoChain>

    ghost function Contents(): Book
      reads this
    {
      Book(authorToVote, liDigestToVotes, maybePartialTc, maybePartialTwoChainTc)
    }

    constructor ()
      ensures Contents() == EMPTY_BOOK
    {
      authorToVote, liDigestToVotes := map[], map[];
      maybePartialTc, maybePartialTwoChainTc := None, None;
    }

    method InsertVote(vote: Vote, v: Verifier) returns (r: Reception)
      modifies this
      ensures (Contents(), r) == Insert(old(Contents()), vote, v)
    {
      if vote.author in authorToVote {
        var previous := authorToVote[vote.author];
        if vote.digest == previous.digest {
          var newTimeoutVote := vote.IsTimeout() && !previous.IsTimeout();
          if !newTimeoutVote { return DuplicateVote; }
        } else {
          return EquivocateVote;
        }
      }
      authorToVote := authorToVote[vote.author := vote];
      var signatures := if vote.digest in liDigestToVotes then liDigestToVotes[vote.digest] else map[];
      signatures := AddSignature(signatures, vote.author, vote.signature);
      liDigestToVotes := liDigestToVotes[vote.digest := signatures];
      assert Contents() == Stored(old(Contents()), vote);
      var reached := CheckVotingPower(v, signatures.Keys);
      match reached
      case Reached => return NewQuorumCertificate(vote.digest, signatures);
      case UnknownAuthor => return ErrorAddingVote;
      case TooLittle(power) => r := AddTimeouts(vote, v, power);
    }

    /** The timeout half of insert_vote. */
    method AddTimeouts(vote: Vote, v: Verifier, power: nat) returns (r: Reception)
      modifies this`maybePartialTc, this`maybePartialTwoChainTc
      ensures (Contents(), r) == TimeoutStep(old(Contents()), vote, v, power)
    {
      if vote.timeout.Some? {
        var tc := if maybePartialTc.Some? then maybePartialTc.value else map[];
        tc := AddSignature(tc, vote.author, vote.timeout.value);
        maybePartialTc := Some(tc);
        var reached := CheckVotingPower(v, tc.Keys);
        match reached
        case Reached => return NewTimeoutCertificate(tc);
        case UnknownAuthor => return ErrorAddingVote;
        case TooLittle(_) =>
      }
      if vote.twoChain.Some? {
        var (round, signature) := vote.twoChain.value;
        var tc := if maybePartialTwoChainTc.Some? then maybePartialTwoChainTc.value else TwoChain(round, map[]);
        if round > tc.hqcRound { tc := tc.(hqcRound := round); }
        tc := tc.(signed := tc.signed[vote.author := (round, signature)]);
        maybePartialTwoChainTc := Some(tc);
        var reached := CheckVotingPower(v, tc.signed.Keys);
        match reached
        case Reached => return NewTwoChainCertificate(tc);
        case UnknownAuthor => return ErrorAddingVote;
        case TooLittle(_) =>
      }
      r := VoteAdded(power);
    }
  }

  // --- What every vote keeps ---

  /** Each author is signed up for exactly one digest: the one of its stored vote. */
  ghost predicate OneDigestEach(b: Book) {
    forall d: nat, a: nat :: a in SignaturesFor(b, d) <==> a in b.authorToVote && b.authorToVote[a].digest == d
  }

  /** The two-chain certificate carries the highest signed round, as its verification demands. */
  ghost predicate HighestRound(tc: TwoChain) {
    && (exists a :: a in tc.signed && tc.signed[a].0 == tc.hqcRound)
    && (forall a | a in tc.signed :: tc.signed[a].0 <= tc.hqcRound)
  }

  ghost predicate TimeoutsSound(b: Book) {
    b.partialTwoChain.Some? ==>
      && HighestRound(b.partialTwoChain.value)
      && forall a | a in b.partialTwoChain.value.signed :: a in b.authorToVote && b.authorToVote[a].IsTimeout()
  }

  ghost predicate Sound(b: Book) {
    OneDigestEach(b) && TimeoutsSound(b)
  }

  lemma StoredSound(b: Book, vote: Vote)
    requires Sound(b) && Accepts(b, vote)
    ensures Sound(Stored(b, vote))
    ensures Stored(b, vote).partialTwoChain.Some? ==> vote.author !in Stored(b, vote).partialTwoChain.value.signed
  {
    var b' := Stored(b, vote);
    forall d: nat, a: nat
      ensures a in SignaturesFor(b', d) <==> a in b'.authorToVote && b'.authorToVote[a].digest == d
    {
      assert a in SignaturesFor(b, d) <==> a in b.authorToVote && b.authorToVote[a].digest == d;
    }
  }

  lemma TwoChainHighest(b: Book, vote: Vote)
    requires vote.twoChain.Some?
    requires b.partialTwoChain.Some? ==>
             HighestRound(b.partialTwoChain.value) && vote.author !in b.partialTwoChain.value.signed
    ensures HighestRound(WithTwoChain(b, vote).partialTwoChain.value)
  {
    var tc := WithTwoChain(b, vote).partialTwoChain.value;
    assert vote.author in tc.signed;
    if b.partialTwoChain.Some? && vote.twoChain.value.0 <= b.partialTwoChain.value.hqcRound {
      var a :| a in b.partialTwoChain.value.signed &&
          b.partialTwoChain.value.signed[a].0 == b.partialTwoChain.value.hqcRound;
      assert a in tc.signed && tc.signed[a].0 == tc.hqcRound;
    }
  }

  /** The timeout half leaves the votes alone. */
  lemma TimeoutKeepsVotes(b: Book, vote: Vote, v: Verifier, power: nat)
    ensures var b' := TimeoutStep(b, vote, v, power).0; b'.authorToVote == b.authorToVote && b'.votes == b.votes
  {
  }

  lemma TimeoutSound(b: Book, vote: Vote, v: Verifier, power: nat)
    requires Sound(b) && vote.author in b.authorToVote && b.authorToVote[vote.author] == vote
    requires b.partialTwoChain.Some? ==> vote.author !in b.partialTwoChain.value.signed
    ensures Sound(TimeoutStep(b, vote, v, power).0)
  {
    if vote.twoChain.Some? {
      TwoChainHighest(b, vote);
      assert vote.timeout.Some? ==>
             WithTwoChain(WithTimeout(b, vote), vote).partialTwoChain == WithTwoChain(b, vote).partialTwoChain;
    }
    TimeoutKeepsVotes(b, vote, v, power);
    var b' := TimeoutStep(b, vote, v, power).0;
    assert forall d: nat :: SignaturesFor(b', d) == SignaturesFor(b, d);
  }

  lemma InsertSound(b: Book, vote: Vote, v: Verifier)
    requires Sound(b)
    ensures Sound(Insert(b, vote, v).0)
  {
    if Accepts(b, vote) {
      StoredSound(b, vote);
      var p := CheckPower(v, Stored(b, vote).votes[vote.digest].Keys);
      if p.TooLittle? { TimeoutSound(Stored(b, vote), vote, v, p.power); }
    }
  }

  // --- Any sequence of votes ---

  ghost function After(votes: seq<Vote>, v: Verifier): Book {
    if votes == [] then EMPTY_BOOK else Insert(After(votes[..|votes| - 1], v), votes[|votes| - 1], v).0
  }

  /** What is returned for vote `i`. */
  ghost function ResultOf(votes: seq<Vote>, v: Verifier, i: nat): Reception
    requires i < |votes|
  {
    Insert(After(votes[..i], v), votes[i], v).1
  }

  lemma {:induction false} AfterSound(votes: seq<Vote>, v: Verifier)
    ensures Sound(After(votes, v))
  {
    if votes == [] {
    } else {
      AfterSound(votes[..|votes| - 1], v);
      InsertSound(After(votes[..|votes| - 1], v), votes[|votes| - 1], v);
    }
  }

  /** The authors stored for a digest. */
  ghost function SignersOf(votes: seq<Vote>, v: Verifier, digest: nat): set<nat> {
    SignaturesFor(After(votes, v), digest).Keys
  }

  /** No author ever counts for two digests. */
  lemma SignersDisjoint(votes: seq<Vote>, v: Verifier, d: nat, e: nat)
    requires d != e
    ensures SignersOf(votes, v, d) !! SignersOf(votes, v, e)
  {
    AfterSound(votes, v);
    var b := After(votes, v);
    assert forall a: nat :: a in SignaturesFor(b, d) <==> a in b.authorToVote && b.authorToVote[a].digest == d;
    assert forall a: nat :: a in SignaturesFor(b, e) <==> a in b.authorToVote && b.authorToVote[a].digest == e;
  }

  /** The author's first vote of the round is for `digest`. */
  ghost predicate FirstFor(votes: seq<Vote>, a: nat, digest: nat) {
    exists i: nat :: i < |votes| && votes[i].author == a && votes[i].digest == digest && NotBefore(votes, a, i)
  }

  ghost predicate NotBefore(votes: seq<Vote>, a: nat, i: nat)
    requires i <= |votes|
  {
    forall j | 0 <= j < i :: votes[j].author != a
  }

  lemma FirstForExtends(votes: seq<Vote>, a: nat, digest: nat)
    requires votes != []
    ensures FirstFor(votes, a, digest) <==>
              var init, last := votes[..|votes| - 1], votes[|votes| - 1];
              FirstFor(init, a, digest) || (NotBefore(init, a, |init|) && last.author == a && last.digest == digest)
  {
    var init, last := votes[..|votes| - 1], votes[|votes| - 1];
    if FirstFor(votes, a, digest) {
      var i: nat :| i < |votes| && votes[i].author == a && votes[i].digest == digest && NotBefore(votes, a, i);
      assert i < |init| ==> init[i] == votes[i] && NotBefore(init, a, i);
    }
    if FirstFor(init, a, digest) {
      var i: nat :| i < |init| && init[i].author == a && init[i].digest == digest && NotBefore(init, a, i);
      assert votes[i] == init[i] && NotBefore(votes, a, i);
    }
    if NotBefore(init, a, |init|) && last.author == a && last.digest == digest {
      assert NotBefore(votes, a, |init|);
    }
  }

  lemma InsertStores(b: Book, vote: Vote, v: Verifier)
    ensures Insert(b, vote, v).0.authorToVote ==
            if Accepts(b, vote) then b.authorToVote[vote.author := vote] else b.authorToVote
    ensures Insert(b, vote, v).0.votes == if Accepts(b, vote) then Stored(b, vote).votes else b.votes
  {
    if Accepts(b, vote) {
      var p := CheckPower(v, Stored(b, vote).votes[vote.digest].Keys);
      if p.TooLittle? { TimeoutKeepsVotes(Stored(b, vote), vote, v, p.power); }
    }
  }

  /** What each result says about the book. */
  lemma InsertReports(b: Book, vote: Vote, v: Verifier)
    ensures var (b', r) := Insert(b, vote, v);
            var signatures := SignaturesFor(b', vote.digest);
            && (r.VoteAdded? ==> CheckPower(v, signatures.Keys) == TooLittle(r.power))
            && (r.NewQuorumCertificate? ==>
                  r.digest == vote.digest && vote.author in r.signatures && r.signatures == signatures &&
                  CheckPower(v, signatures.Keys) == Reached)
            && (r.NewTwoChainCertificate? ==> b'.partialTwoChain == Some(r.cert))
  {
    InsertStores(b, vote, v);
  }

  lemma InsertCertifies(b: Book, vote: Vote, v: Verifier)
    ensures var (b', r) := Insert(b, vote, v);
            var power := CheckPower(v, SignaturesFor(b', vote.digest).Keys);
            && (r.NewQuorumCertificate? <==> Accepts(b, vote) && power == Reached)
            && (Accepts(b, vote) && power == UnknownAuthor ==> r == ErrorAddingVote)
  {
    InsertStores(b, vote, v);
  }

  /** The stored vote of an author is for the digest of its first vote. */
  lemma {:induction false} StoredIsFirst(votes: seq<Vote>, v: Verifier, a: nat, digest: nat)
    ensures a in After(votes, v).authorToVote <==> !NotBefore(votes, a, |votes|)
    ensures FirstFor(votes, a, digest) <==>
            a in After(votes, v).authorToVote && After(votes, v).authorToVote[a].digest == digest
  {
    if votes == [] {
    } else {
      var init, last := votes[..|votes| - 1], votes[|votes| - 1];
      StoredIsFirst(init, v, a, digest);
      InsertStores(After(init, v), last, v);
      FirstForExtends(votes, a, digest);
      assert NotBefore(votes, a, |votes|) <==> NotBefore(init, a, |init|) && last.author != a;
    }
  }

  /** The signers of a digest are exactly the authors whose first vote is for it. */
  lemma SignersExact(votes: seq<Vote>, v: Verifier, digest: nat, a: nat)
    ensures a in SignersOf(votes, v, digest) <==> FirstFor(votes, a, digest)
  {
    AfterSound(votes, v);
    StoredIsFirst(votes, v, a, digest);
    var b := After(votes, v);
    assert a in SignaturesFor(b, digest) <==> a in b.authorToVote && b.authorToVote[a].digest == digest;
  }

  lemma StepOf(votes: seq<Vote>, v: Verifier, i: nat)
    requires i < |votes|
    ensures After(votes[..i + 1], v) == Insert(After(votes[..i], v), votes[i], v).0
  {
    assert votes[..i + 1][..i] == votes[..i];
  }

  /** VoteAdded reports exactly the power of the distinct authors stored for the digest, all of them known. */
  lemma VoteAddedExact(votes: seq<Vote>, v: Verifier, i: nat)
    requires i < |votes| && ResultOf(votes, v, i).VoteAdded?
    ensures var signers := SignersOf(votes[..i + 1], v, votes[i].digest);
            signers <= v.powers.Keys && ResultOf(votes, v, i).power == SumPower(v.powers, signers) < v.quorum
  {
    StepOf(votes, v, i);
    InsertReports(After(votes[..i], v), votes[i], v);
  }

  /** A quorum certificate is for the digest of the vote, and its signers are known and have the power of a quorum. */
  lemma CertificateBacked(votes: seq<Vote>, v: Verifier, i: nat)
    requires i < |votes| && ResultOf(votes, v, i).NewQuorumCertificate?
    ensures ResultOf(votes, v, i).digest == votes[i].digest
    ensures var signers := SignersOf(votes[..i + 1], v, votes[i].digest);
            ResultOf(votes, v, i).signatures.Keys == signers <= v.powers.Keys && SumPower(v.powers, signers) >= v.quorum
    ensures votes[i].author in v.powers
  {
    StepOf(votes, v, i);
    InsertReports(After(votes[..i], v), votes[i], v);
  }

  /** The known validators whose first vote is for `digest`. */
  ghost function FirstVoters(votes: seq<Vote>, v: Verifier, digest: nat): set<nat> {
    set a | a in v.powers.Keys && FirstFor(votes, a, digest)
  }

  ghost predicate AllKnown(votes: seq<Vote>, v: Verifier, digest: nat) {
    forall a | FirstFor(votes, a, digest) :: a in v.powers
  }

  lemma SignersAreFirst(votes: seq<Vote>, v: Verifier, digest: nat)
    ensures AllKnown(votes, v, digest) <==> SignersOf(votes, v, digest) <= v.powers.Keys
    ensures AllKnown(votes, v, digest) ==> SignersOf(votes, v, digest) == FirstVoters(votes, v, digest)
  {
    forall a ensures a in SignersOf(votes, v, digest) <==> FirstFor(votes, a, digest) {
      SignersExact(votes, v, digest, a);
    }
  }

  /**
   A vote is answered with a certificate exactly when it is accepted, all
   authors whose first vote is for its digest are known, and they have the power
   of a quorum. While one of them is unknown, every accepted vote is an error.
   */
  lemma CertificateIff(votes: seq<Vote>, v: Verifier, i: nat)
    requires i < |votes|
    ensures ResultOf(votes, v, i).NewQuorumCertificate? <==>
              && Accepts(After(votes[..i], v), votes[i])
              && AllKnown(votes[..i + 1], v, votes[i].digest)
              && SumPower(v.powers, FirstVoters(votes[..i + 1], v, votes[i].digest)) >= v.quorum
    ensures Accepts(After(votes[..i], v), votes[i]) && !AllKnown(votes[..i + 1], v, votes[i].digest) ==>
              ResultOf(votes, v, i) == ErrorAddingVote
  {
    StepOf(votes, v, i);
    InsertCertifies(After(votes[..i], v), votes[i], v);
    SignersAreFirst(votes[..i + 1], v, votes[i].digest);
  }

  lemma SignersGrow(votes: seq<Vote>, v: Verifier, i: nat, j: nat, digest: nat)
    requires i <= j <= |votes|
    ensures SignersOf(votes[..i], v, digest) <= SignersOf(votes[..j], v, digest)
  {
    forall a | a in SignersOf(votes[..i], v, digest) ensures a in SignersOf(votes[..j], v, digest) {
      SignersExact(votes[..i], v, digest, a);
      SignersExact(votes[..j], v, digest, a);
      var m: nat :| m < i && votes[..i][m].author == a && votes[..i][m].digest == digest && NotBefore(votes[..i], a, m);
      assert votes[..j][m] == votes[..i][m] && NotBefore(votes[..j], a, m);
    }
  }

  /** With a quorum above half of the total power, at most one digest is ever certified in a round. */
  lemma OneCertificatePerRound(votes: seq<Vote>, v: Verifier, i: nat, j: nat)
    requires i <= j < |votes| && 2 * v.quorum > SumPower(v.powers, v.powers.Keys)
    requires ResultOf(votes, v, i).NewQuorumCertificate? && ResultOf(votes, v, j).NewQuorumCertificate?
    ensures ResultOf(votes, v, i).digest == ResultOf(votes, v, j).digest
  {
    CertificateBacked(votes, v, i);
    CertificateBacked(votes, v, j);
    var d, e := votes[i].digest, votes[j].digest;
    var x, y := SignersOf(votes[..i + 1], v, d), SignersOf(votes[..j + 1], v, e);
    SignersGrow(votes, v, i + 1, j + 1, d);
    if d != e {
      SignersDisjoint(votes[..j + 1], v, d, e);
      SumPowerUnion(v.powers, x, y);
      SumPowerSubset(v.powers, x + y, v.powers.Keys);
    }
  }

  /** The verifier every epoch starts with: a quorum is more than two thirds. */
  ghost function DefaultVerifier(powers: map<nat, nat>): Verifier {
    Verifier(powers, if powers == map[] then 0 else SumPower(powers, powers.Keys) * 2 / 3 + 1)
  }

  /** That is the least number above two thirds of the total, and any two such quorums share more than a third. */
  lemma DefaultQuorum(powers: map<nat, nat>, x: set<nat>, y: set<nat>)
    requires powers != map[] && x <= powers.Keys && y <= powers.Keys
    requires SumPower(powers, x) >= DefaultVerifier(powers).quorum
    requires SumPower(powers, y) >= DefaultVerifier(powers).quorum
    ensures var total, quorum := SumPower(powers, powers.Keys), DefaultVerifier(powers).quorum;
            3 * (quorum - 1) <= 2 * total < 3 * quorum && 3 * SumPower(powers, x * y) > total
  {
    assert x == (x - y) + x * y && x + y == (x - y) + y;
    SumPowerUnion(powers, x - y, x * y);
    SumPowerUnion(powers, x - y, y);
    SumPowerSubset(powers, x + y, powers.Keys);
  }

  /** With the default quorum the condition always holds. */
  lemma OneCertificateByDefault(votes: seq<Vote>, powers: map<nat, nat>, i: nat, j: nat)
    requires i <= j < |votes|
    requires ResultOf(votes, DefaultVerifier(powers), i).NewQuorumCertificate?
    requires ResultOf(votes, DefaultVerifier(powers), j).NewQuorumCertificate?
    ensures ResultOf(votes, DefaultVerifier(powers), i).digest == ResultOf(votes, DefaultVerifier(powers), j).digest
  {
    CertificateBacked(votes, DefaultVerifier(powers), i);
    OneCertificatePerRound(votes, DefaultVerifier(powers), i, j);
  }

  /** Every two-chain certificate handed out carries the highest round its signers signed. */
  lemma TwoChainCertificateHighest(votes: seq<Vote>, v: Verifier, i: nat)
    requires i < |votes| && ResultOf(votes, v, i).NewTwoChainCertificate?
    ensures HighestRound(ResultOf(votes, v, i).cert)
  {
    StepOf(votes, v, i);
    InsertReports(After(votes[..i], v), votes[i], v);
    AfterSound(votes[..i + 1], v);
  }
}
