/**
 The interleaved order, position by position: by round first, and inside a round
 by the size of the group and then by its hash.
 */
module Rounds {
  import opened Stablecoin
  import opened Cado
  import opened Interleave

  /** The round of position `p`: how many of its group come before it. */
  ghost function Round(h: Hash, r: Txs, p: nat): nat
    requires p < |r|
  {
    |OfClass(h, r[..p], G(h, r[p]))|
  }

  lemma RoundOfHead(h: Hash, gs: Groups, rest: Txs, p: nat)
    requires Classed(h, gs) && p < |Heads(gs)|
    ensures Round(h, Heads(gs) + rest, p) == 0
  {
    var r := Heads(gs) + rest;
    assert r[..p] == Heads(gs)[..p];
    forall t | t in r[..p] ensures G(h, t) != G(h, r[p]) {
      var i :| 0 <= i < p && r[..p][i] == t;
      HeadsDiffer(h, gs, i, p);
    }
    OfClassNone(h, r[..p], G(h, r[p]));
  }

  /** The group of an element that comes after the first round has a head in it. */
  lemma OneInHeads(h: Hash, gs: Groups, t: StablecoinTx)
    requires Classed(h, gs) && t in RoundRobin(Tails(gs))
    ensures |OfClass(h, Heads(gs), G(h, t))| == 1
  {
    RoundRobinMember(Tails(gs), t);
    var a :| 0 <= a < |gs| && t in Tails(gs)[a];
    assert t in gs[a] && gs[a][0] in gs[a];
    OfClassHeads(h, gs, a, G(h, t));
  }

  lemma RoundAfter(h: Hash, heads: Txs, rest: Txs, p: nat)
    requires p < |rest|
    ensures Round(h, heads + rest, |heads| + p) == |OfClass(h, heads, G(h, rest[p]))| + Round(h, rest, p)
  {
    var r := heads + rest;
    assert r[..|heads| + p] == heads + rest[..p] && r[|heads| + p] == rest[p];
    OfClassConcat(h, heads, rest[..p], G(h, rest[p]));
  }

  lemma RoundNext(h: Hash, heads: Txs, rest: Txs, r: Txs, p: nat)
    requires r == heads + rest && |heads| <= p < |r| && |OfClass(h, heads, G(h, rest[p - |heads|]))| == 1
    ensures Round(h, r, p) == 1 + Round(h, rest, p - |heads|)
  {
    RoundAfter(h, heads, rest, p - |heads|);
  }

  lemma Unrolled(gs: Groups) returns (heads: Txs, rest: Txs)
    requires RoundRobin(gs) != []
    ensures heads == Heads(gs) && rest == RoundRobin(Tails(gs)) && RoundRobin(gs) == heads + rest
    ensures Total(Tails(gs)) < Total(gs)
  {
    TotalTails(gs);
    heads, rest := Heads(gs), RoundRobin(Tails(gs));
  }

  /** The round in which an element is dealt. */
  ghost function RoundNo(gs: Groups, p: nat): nat
    requires p < |RoundRobin(gs)|
    decreases Total(gs)
  {
    TotalTails(gs);
    if p < |Heads(gs)| then 0 else 1 + RoundNo(Tails(gs), p - |Heads(gs)|)
  }

  /** In every round each group that is left gives one element, so the round is the number of those given before. */
  lemma {:induction false} RoundIs(h: Hash, gs: Groups, p: nat)
    requires Classed(h, gs) && p < |RoundRobin(gs)|
    ensures Round(h, RoundRobin(gs), p) == RoundNo(gs, p)
    decreases Total(gs)
  {
    var heads, rest := Unrolled(gs);
    ClassedTails(h, gs);
    if p < |heads| {
      RoundOfHead(h, gs, rest, p);
    } else {
      OneInHeads(h, gs, rest[p - |heads|]);
      RoundNext(h, heads, rest, RoundRobin(gs), p);
      RoundIs(h, Tails(gs), p - |heads|);
    }
  }

  lemma HeadGroup(gs: Groups, p: nat) returns (a: nat)
    requires p < |Heads(gs)|
    ensures a < |gs| && Heads(gs)[p] in gs[a] && p < |Live(gs)| && a == Live(gs)[p]
  {
    LiveHeads(gs);
    a := Live(gs)[p];
  }

  lemma LaterGroup(gs: Groups, p: nat) returns (a: nat)
    requires p < |RoundRobin(gs)|
    ensures a < |gs| && RoundRobin(gs)[p] in gs[a]
  {
    RoundRobinMember(gs, RoundRobin(gs)[p]);
    a :| a < |gs| && RoundRobin(gs)[p] in gs[a];
  }

  lemma HeadsOrder(gs: Groups, p: nat, q: nat) returns (a: nat, b: nat)
    requires p < q < |Heads(gs)|
    ensures a < b < |gs| && Heads(gs)[p] in gs[a] && Heads(gs)[q] in gs[b]
  {
    a := HeadGroup(gs, p);
    b := HeadGroup(gs, q);
    LiveIndices(gs);
  }

  /** Where two elements come from: the earlier one is dealt in an earlier round, or comes from an earlier group. */
  lemma {:induction false} RoundRobinOrder(gs: Groups, p: nat, q: nat) returns (a: nat, b: nat)
    requires p < q < |RoundRobin(gs)|
    ensures a < |gs| && b < |gs| && RoundRobin(gs)[p] in gs[a] && RoundRobin(gs)[q] in gs[b]
    ensures RoundNo(gs, p) < RoundNo(gs, q) || (RoundNo(gs, p) == RoundNo(gs, q) && a < b)
    decreases Total(gs)
  {
    var heads, rest := Unrolled(gs);
    if q < |heads| {
      a, b := HeadsOrder(gs, p, q);
    } else if p < |heads| {
      a := LaterGroup(gs, p);
      b := LaterGroup(gs, q);
    } else {
      a, b := RoundRobinOrder(Tails(gs), p - |heads|, q - |heads|);
      InTail(gs, a, rest[p - |heads|]);
      InTail(gs, b, rest[q - |heads|]);
    }
  }

  lemma InTail(gs: Groups, a: nat, t: StablecoinTx)
    requires a < |gs| && t in Tails(gs)[a]
    ensures t in gs[a]
  {
  }

  // --- The order of the groups ---

  lemma {:induction false} PlaceOfSize(gs: Groups, a: nat) returns (x: nat)
    requires a < |gs|
    ensures x < |OfSize(gs, |gs[a]|)| && OfSize(gs, |gs[a]|)[x] == gs[a]
  {
    var init := gs[..|gs| - 1];
    if a < |init| {
      x := PlaceOfSize(init, a);
    } else {
      x := |OfSize(init, |gs[a]|)|;
    }
  }

  lemma {:induction false} PlacesOfSize(gs: Groups, a: nat, b: nat) returns (x: nat, y: nat)
    requires a < b < |gs| && |gs[a]| == |gs[b]|
    ensures var s := OfSize(gs, |gs[a]|); x < y < |s| && s[x] == gs[a] && s[y] == gs[b]
  {
    var init := gs[..|gs| - 1];
    if b < |init| {
      x, y := PlacesOfSize(init, a, b);
    } else {
      x := PlaceOfSize(init, a);
      y := |OfSize(init, |gs[a]|)|;
    }
  }

  /** Where an element of OfSize comes from, before position `n` if it is among the first. */
  lemma {:induction false} FromOfSize(gs: Groups, n: nat, x: nat, y: nat) returns (i: nat, j: nat)
    requires x < y < |OfSize(gs, n)|
    ensures i < j < |gs| && gs[i] == OfSize(gs, n)[x] && gs[j] == OfSize(gs, n)[y]
  {
    var init := gs[..|gs| - 1];
    if y < |OfSize(init, n)| {
      i, j := FromOfSize(init, n, x, y);
    } else {
      i := OneFromOfSize(init, n, x);
      j := |init|;
    }
  }

  lemma {:induction false} OneFromOfSize(gs: Groups, n: nat, x: nat) returns (i: nat)
    requires x < |OfSize(gs, n)|
    ensures i < |gs| && gs[i] == OfSize(gs, n)[x]
  {
    var init := gs[..|gs| - 1];
    if x < |OfSize(init, n)| {
      i := OneFromOfSize(init, n, x);
    } else {
      i := |init|;
    }
  }

  /** Sorted by size, a group comes before another if it is larger, or as large and before it already. */
  lemma BySizeOrder(gs: Groups, a: nat, b: nat) returns (i: nat, j: nat)
    requires a < b < |BySize(gs)|
    ensures |BySize(gs)[a]| >= |BySize(gs)[b]|
    ensures |BySize(gs)[a]| == |BySize(gs)[b]| ==> i < j < |gs| && gs[i] == BySize(gs)[a] && gs[j] == BySize(gs)[b]
  {
    var n := |BySize(gs)[a]|;
    BySizeMeaning(gs, n);
    i, j := 0, 0;
    if |BySize(gs)[b]| == n {
      var x, y := PlacesOfSize(BySize(gs), a, b);
      i, j := FromOfSize(gs, n, x, y);
    }
  }

  // --- The order as a whole ---

  /** The number of transactions with the domain hash of position `p`. */
  ghost function GroupSize(h: Hash, r: Txs, p: nat): nat
    requires p < |r|
  {
    |OfClass(h, r, G(h, r[p]))|
  }

  /** By round, then by size of the group, largest first, then by domain hash. */
  ghost predicate InRounds(h: Hash, r: Txs, p: nat, q: nat)
    requires p < |r| && q < |r|
  {
    || Round(h, r, p) < Round(h, r, q)
    || (&& Round(h, r, p) == Round(h, r, q)
        && (|| GroupSize(h, r, p) > GroupSize(h, r, q)
            || (&& GroupSize(h, r, p) == GroupSize(h, r, q)
                && h(r[p].ConflictDomain()) < h(r[q].ConflictDomain()))))
  }

  lemma SizeOfGroup(h: Hash, gs: Groups, p: nat, a: nat)
    requires Classed(h, gs) && p < |RoundRobin(gs)| && a < |gs| && RoundRobin(gs)[p] in gs[a]
    ensures GroupSize(h, RoundRobin(gs), p) == |gs[a]|
  {
    assert gs[a][0] in gs[a];
    RoundRobinKeepsGroup(h, gs, a, G(h, RoundRobin(gs)[p]));
  }

  lemma DealtInRounds(h: Hash, gs: Groups, p: nat, q: nat)
    requires Ascends(h, gs) && p < q < |RoundRobin(BySize(gs))|
    ensures InRounds(h, RoundRobin(BySize(gs)), p, q)
  {
    var bs, r := BySize(gs), RoundRobin(BySize(gs));
    AscendsClassed(h, gs);
    BySizeClassed(h, gs);
    var a, b := RoundRobinOrder(bs, p, q);
    RoundIs(h, bs, p);
    RoundIs(h, bs, q);
    SizeOfGroup(h, bs, p, a);
    SizeOfGroup(h, bs, q, b);
    if Round(h, r, p) == Round(h, r, q) {
      var i, j := BySizeOrder(gs, a, b);
      if |bs[a]| == |bs[b]| {
        assert Uniform(h, gs[i]) && Uniform(h, gs[j]) && ClassOf(h, gs[i]) < ClassOf(h, gs[j]);
      }
    }
  }

  /**
   The output of cado_interleave, position by position. Together with its
   elements and the order inside each domain hash this determines the output.
   */
  lemma InterleavedInRounds(h: Hash, s: Txs, p: nat, q: nat)
    requires p < q < |Interleaved(h, s)|
    ensures InRounds(h, Interleaved(h, s), p, q)
  {
    ConcatenatedMeaning(h, s);
    StretchesAscend(h, Concatenated(h, s));
    DealtInRounds(h, Stretches(h, Concatenated(h, s)), p, q);
  }
}
