/**
 Committee thresholds and the intersection of two quorum certificates.
 */
module Quorum {

  /** A committee is its set of node ids, one stake each. */
  type Committee = set<nat>

  function QuorumThreshold(c: Committee): nat {
    2 * |c| / 3 + 1
  }

  function ValidityThreshold(c: Committee): nat {
    |c| / 3 + 1
  }

  function MaxFaults(c: Committee): nat
    requires |c| >= 1
  {
    (|c| - 1) / 3
  }

  /** Committee::new inserts the ids one by one. */
  method NewCommittee(ids: seq<nat>) returns (c: Committee)
    ensures forall x :: x in c <==> x in ids
  {
    c := {};
    for i := 0 to |ids|
      invariant forall x :: x in c <==> x in ids[..i]
    {
      assert ids[..i + 1] == ids[..i] + [ids[i]];
      c := c + {ids[i]};
    }
    assert ids[..|ids|] == ids;
  }

  /**
   A quorum is everyone but the tolerated faults; validity needs more than the faults, and a quorum
   can do without them.
   */
  lemma Thresholds(c: Committee)
    requires |c| >= 1
    ensures 3 * MaxFaults(c) < |c| <= 3 * MaxFaults(c) + 3
    ensures QuorumThreshold(c) == |c| - MaxFaults(c)
    ensures MaxFaults(c) < ValidityThreshold(c) <= QuorumThreshold(c) <= |c|
    ensures 2 * QuorumThreshold(c) >= |c| + MaxFaults(c) + 1
    ensures 2 * MaxFaults(c) + 1 <= QuorumThreshold(c)
    ensures ValidityThreshold(c) == MaxFaults(c) + 1 <==> |c| % 3 != 0
  {
  }

  /** A macro vote or a slot vote: `at` is the height or the slot. */
  datatype BallotVote = BallotVote(view: nat, at: nat, digest: nat, voter: nat)

  /** A macro or slot certificate. */
  datatype Certificate = Certificate(view: nat, at: nat, digest: nat, votes: seq<BallotVote>) {

    /** verify: enough votes, all of them for this certificate. */
    predicate Verify(threshold: nat) {
      |votes| >= threshold &&
      forall i | 0 <= i < |votes| :: votes[i].digest == digest && votes[i].view == view && votes[i].at == at
    }

    function Voters(): set<nat> {
      set i | 0 <= i < |votes| :: votes[i].voter
    }

    ghost predicate DistinctVoters() {
      forall i, j | 0 <= i < j < |votes| :: votes[i].voter != votes[j].voter
    }
  }

  lemma {:induction false} DistinctCount(votes: seq<BallotVote>)
    requires forall i, j | 0 <= i < j < |votes| :: votes[i].voter != votes[j].voter
    ensures |set i | 0 <= i < |votes| :: votes[i].voter| == |votes|
  {
    if votes == [] {
    } else {
      var init, last := votes[..|votes| - 1], votes[|votes| - 1];
      DistinctCount(init);
      var before := set i | 0 <= i < |init| :: init[i].voter;
      assert (set i | 0 <= i < |votes| :: votes[i].voter) == before + {last.voter};
      assert last.voter !in before;
    }
  }

  lemma SubsetSize(x: set<nat>, y: set<nat>)
    requires x <= y
    ensures |x| <= |y|
  {
    assert y == x + (y - x);
  }

  /** Inclusion and exclusion inside the committee. */
  lemma Overlap(c: Committee, x: set<nat>, y: set<nat>)
    requires x <= c && y <= c
    ensures |x * y| >= |x| + |y| - |c|
  {
    assert |x + y| == |x| + |y| - |x * y|;
    SubsetSize(x + y, c);
  }

  /** The committee members among the voters reach the quorum threshold. */
  ghost predicate Backed(c: Committee, p: Certificate) {
    |p.Voters() * c| >= QuorumThreshold(c)
  }

  /** A verified certificate with distinct committee voters is backed. */
  lemma DistinctIsBacked(c: Committee, p: Certificate)
    requires p.Verify(QuorumThreshold(c)) && p.DistinctVoters() && p.Voters() <= c
    ensures Backed(c, p)
  {
    DistinctCount(p.votes);
    assert p.Voters() * c == p.Voters();
  }

  /** The node voted twice in one view at one height, for different digests. */
  ghost predicate Equivocates(n: nat, p: Certificate, q: Certificate) {
    exists v, w ::
      && v in p.votes && w in q.votes && v.voter == n == w.voter
      && v.view == w.view && v.at == w.at && v.digest != w.digest
  }

  lemma SharedEquivocates(p: Certificate, q: Certificate, n: nat, i: nat, j: nat)
    requires p.Verify(i) && q.Verify(j) && n in p.Voters() * q.Voters()
    requires p.view == q.view && p.at == q.at && p.digest != q.digest
    ensures Equivocates(n, p, q)
  {
    var x :| 0 <= x < |p.votes| && p.votes[x].voter == n;
    var y :| 0 <= y < |q.votes| && q.votes[y].voter == n;
    assert p.votes[x].digest == p.digest && q.votes[y].digest == q.digest;
  }

  // --- When a certificate meets every quorum ---

  /** The committee members among the voters outnumber the tolerated faults twice over. */
  ghost predicate Anchored(c: Committee, p: Certificate)
    requires |c| >= 1
  {
    |p.Voters() * c| >= 2 * MaxFaults(c) + 1
  }

  lemma BackedIsAnchored(c: Committee, p: Certificate)
    requires |c| >= 1 && Backed(c, p)
    ensures Anchored(c, p)
  {
    Thresholds(c);
  }

  /** The certificates share at least one committee member more than the tolerated faults. */
  ghost predicate Meets(c: Committee, p: Certificate, q: Certificate)
    requires |c| >= 1
  {
    |p.Voters() * q.Voters() * c| >= MaxFaults(c) + 1
  }

  /**
   An anchored certificate and a backed one share at least one committee member
   more than the tolerated faults, whatever else is among their votes. If both
   verify for the same view and height but for different digests, each of the
   shared members has signed both.
   */
  lemma QuorumIntersection(c: Committee, p: Certificate, q: Certificate)
    requires |c| >= 1 && Anchored(c, p) && Backed(c, q)
    ensures Meets(c, p, q)
    ensures forall i, j | p.Verify(i) && q.Verify(j) && p.view == q.view && p.at == q.at && p.digest != q.digest ::
              forall n | n in p.Voters() * q.Voters() :: Equivocates(n, p, q)
  {
    Overlap(c, p.Voters() * c, q.Voters() * c);
    assert (p.Voters() * c) * (q.Voters() * c) == p.Voters() * q.Voters() * c;
    Thresholds(c);
    forall i, j, n |
      && p.Verify(i) && q.Verify(j) && p.view == q.view && p.at == q.at && p.digest != q.digest
      && n in p.Voters() * q.Voters()
      ensures Equivocates(n, p, q)
    {
      SharedEquivocates(p, q, n, i, j);
    }
  }

  /** A subset of the size asked for. */
  lemma {:induction false} SubsetOfSize(v: set<nat>, k: nat) returns (w: set<nat>)
    requires k <= |v|
    ensures w <= v && |w| == k
  {
    if k == 0 {
      w := {};
    } else {
      var x :| x in v;
      w := SubsetOfSize(v - {x}, k - 1);
      w := w + {x};
    }
  }

  /** A committee voter set that is too small is met in no more members than the tolerated faults by some quorum. */
  lemma QuorumAround(c: Committee, v: set<nat>) returns (q: set<nat>)
    requires |c| >= 1 && v <= c && |v| <= 2 * MaxFaults(c)
    ensures q <= c && |q| >= QuorumThreshold(c) && |v * q| <= MaxFaults(c)
  {
    Thresholds(c);
    var w := SubsetOfSize(v, if |v| <= MaxFaults(c) then |v| else MaxFaults(c));
    q := (c - v) + w;
    assert v * q == w;
    assert |c - v| == |c| - |v| && |q| == |c - v| + |w|;
  }

  /** One vote of each. */
  lemma {:induction false} VotesOf(voters: set<nat>, view: nat, at: nat, d: nat) returns (votes: seq<BallotVote>)
    ensures |votes| == |voters|
    ensures forall i | 0 <= i < |votes| :: votes[i].view == view && votes[i].at == at && votes[i].digest == d
    ensures (set i | 0 <= i < |votes| :: votes[i].voter) == voters
    decreases |voters|
  {
    if voters == {} {
      votes := [];
    } else {
      var x :| x in voters;
      var rest := VotesOf(voters - {x}, view, at, d);
      votes := rest + [BallotVote(view, at, d, x)];
      assert forall i | 0 <= i < |rest| :: votes[i] == rest[i];
      assert votes[|rest|].voter == x;
      assert (set i | 0 <= i < |votes| :: votes[i].voter) == (set i | 0 <= i < |rest| :: rest[i].voter) + {x};
    }
  }

  /** Whenever a quorum of members votes for a digest, there is a certificate of them that verifies. */
  lemma QuorumCertifies(c: Committee, voters: set<nat>, view: nat, at: nat, d: nat) returns (p: Certificate)
    requires voters <= c && |voters| >= QuorumThreshold(c)
    ensures p.view == view && p.at == at && p.digest == d && p.Voters() == voters
    ensures p.Verify(QuorumThreshold(c)) && Backed(c, p)
  {
    var votes := VotesOf(voters, view, at, d);
    p := Certificate(view, at, d, votes);
    assert p.Voters() == voters && voters * c == voters;
  }

  /**
   A certificate shares enough members with every backed certificate that
   verifies exactly when it is anchored.
   */
  lemma MeetsEveryQuorumIff(c: Committee, p: Certificate)
    requires |c| >= 1
    ensures Anchored(c, p) <==>
            forall q: Certificate | q.Verify(QuorumThreshold(c)) && Backed(c, q) :: Meets(c, p, q)
  {
    if Anchored(c, p) {
      forall q: Certificate | q.Verify(QuorumThreshold(c)) && Backed(c, q) ensures Meets(c, p, q) {
        QuorumIntersection(c, p, q);
      }
    } else {
      var voters := QuorumAround(c, p.Voters() * c);
      var q := QuorumCertifies(c, voters, p.view, p.at, p.digest);
      assert p.Voters() * q.Voters() * c == (p.Voters() * c) * voters;
      assert q.Verify(QuorumThreshold(c)) && Backed(c, q) && !Meets(c, p, q);
    }
  }

  /** With at most the tolerated number of equivocating members, no such certificates conflict. */
  lemma NoConflict(c: Committee, faulty: set<nat>, p: Certificate, q: Certificate)
    requires |c| >= 1 && Anchored(c, p) && Backed(c, q)
    requires p.Verify(QuorumThreshold(c)) && q.Verify(QuorumThreshold(c))
    requires |faulty| <= MaxFaults(c) && p.view == q.view && p.at == q.at
    requires forall n | n in p.Voters() * q.Voters() * c && Equivocates(n, p, q) :: n in faulty
    ensures p.digest == q.digest
  {
    QuorumIntersection(c, p, q);
    if p.digest != q.digest {
      forall n | n in p.Voters() * q.Voters() * c ensures n in faulty {
        SharedEquivocates(p, q, n, QuorumThreshold(c), QuorumThreshold(c));
      }
      SubsetSize(p.Voters() * q.Voters() * c, faulty);
    }
  }

  /** verify alone does not anchor a certificate: one voter, repeated, makes two verified certificates that conflict. */
  lemma RepeatedVoter(c: Committee, n: nat, view: nat, at: nat, d: nat, e: nat) returns (p: Certificate, q: Certificate)
    requires n in c && d != e
    ensures p.Verify(QuorumThreshold(c)) && q.Verify(QuorumThreshold(c))
    ensures p.view == q.view && p.at == q.at && p.digest != q.digest
    ensures p.Voters() == q.Voters() == {n}
  {
    var k := QuorumThreshold(c);
    p := Certificate(view, at, d, seq(k, _ => BallotVote(view, at, d, n)));
    q := Certificate(view, at, e, seq(k, _ => BallotVote(view, at, e, n)));
    assert p.votes[0].voter == n && q.votes[0].voter == n;
  }
}
