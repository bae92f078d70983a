/**
 The interleaving order: the groups of the concatenated order, largest first,
 dealt out round-robin.
 */
module Interleave {
  import opened Stablecoin
  import opened Cado
  import Sorting

  type Groups = seq<Txs>

  // --- Groups ---

  /** All transactions of one hash class, in order. */
  ghost function OfClass(h: Hash, s: Txs, g: nat): Txs {
    if s == [] then []
    else OfClass(h, s[..|s| - 1], g) + if G(h, s[|s| - 1]) == g then [s[|s| - 1]] else []
  }

  lemma {:induction false} OfClassConcat(h: Hash, s: Txs, s': Txs, g: nat)
    ensures OfClass(h, s + s', g) == OfClass(h, s, g) + OfClass(h, s', g)
  {
    if s' == [] {
      assert s + s' == s;
    } else {
      var init := s'[..|s'| - 1];
      OfClassConcat(h, s, init, g);
      assert (s + s')[..|s + s'| - 1] == s + init;
    }
  }

  lemma {:induction false} OfClassNone(h: Hash, s: Txs, g: nat)
    requires forall t | t in s :: G(h, t) != g
    ensures OfClass(h, s, g) == []
  {
    if s == [] {
    } else {
      OfClassNone(h, s[..|s| - 1], g);
    }
  }

  lemma {:induction false} OfClassAll(h: Hash, s: Txs, g: nat)
    requires forall t | t in s :: G(h, t) == g
    ensures OfClass(h, s, g) == s
  {
    if s == [] {
    } else {
      OfClassAll(h, s[..|s| - 1], g);
    }
  }

  lemma {:induction false} OfClassCount(h: Hash, s: Txs, t: StablecoinTx)
    ensures multiset(OfClass(h, s, G(h, t)))[t] == multiset(s)[t]
  {
    if s == [] {
    } else {
      OfClassCount(h, s[..|s| - 1], t);
      assert s == s[..|s| - 1] + [s[|s| - 1]];
    }
  }

  /** Lists with the same classes are permutations of each other. */
  lemma SameClasses(h: Hash, s: Txs, s': Txs)
    requires forall g: nat :: OfClass(h, s, g) == OfClass(h, s', g)
    ensures multiset(s) == multiset(s')
  {
    forall t ensures multiset(s)[t] == multiset(s')[t] {
      OfClassCount(h, s, t);
      OfClassCount(h, s', t);
    }
  }

  ghost function Flatten(gs: Groups): Txs {
    if gs == [] then [] else Flatten(gs[..|gs| - 1]) + gs[|gs| - 1]
  }

  /** Every group is of one class and no two groups share a class. */
  ghost predicate Classed(h: Hash, gs: Groups) {
    forall a, b, t, u | 0 <= a < |gs| && 0 <= b < |gs| && t in gs[a] && u in gs[b] :: G(h, t) == G(h, u) <==> a == b
  }

  lemma {:induction false} FlattenMember(gs: Groups, t: StablecoinTx)
    ensures t in Flatten(gs) <==> exists a :: 0 <= a < |gs| && t in gs[a]
  {
    if gs == [] {
    } else {
      FlattenMember(gs[..|gs| - 1], t);
    }
  }

  lemma {:induction false} OfClassFlatten(h: Hash, gs: Groups, a: nat, g: nat)
    requires Classed(h, gs) && a < |gs| && gs[a] != [] && G(h, gs[a][0]) == g
    ensures OfClass(h, Flatten(gs), g) == gs[a]
  {
    var init, last := gs[..|gs| - 1], gs[|gs| - 1];
    OfClassConcat(h, Flatten(init), last, g);
    if a < |gs| - 1 {
      OfClassFlatten(h, init, a, g);
      OfClassNone(h, last, g);
    } else {
      forall t | t in Flatten(init) ensures G(h, t) != g {
        FlattenMember(init, t);
      }
      OfClassNone(h, Flatten(init), g);
      OfClassAll(h, last, g);
    }
  }

  /** The maximal stretches of one class. */
  ghost function Stretches(h: Hash, s: Txs): (r: Groups)
    ensures s != [] ==> r != []
  {
    if s == [] then []
    else
      var init, t := s[..|s| - 1], s[|s| - 1];
      Extended(Stretches(h, init), SameClass(h, init, t), t)
  }

  predicate SameClass(h: Hash, s: Txs, t: StablecoinTx) {
    s != [] && G(h, s[|s| - 1]) == G(h, t)
  }

  /** One more element, in the last group or in a new one. */
  function Extended(r: Groups, same: bool, t: StablecoinTx): (r': Groups)
    requires same ==> r != []
    ensures r' != []
  {
    if same then r[|r| - 1 := r[|r| - 1] + [t]] else r + [[t]]
  }

  /** Appending a whole group that starts a new class. */
  lemma {:induction false} StretchesAppend(h: Hash, s: Txs, group: Txs)
    requires group != [] && forall t | t in group :: G(h, t) == G(h, group[0])
    requires s != [] ==> G(h, s[|s| - 1]) != G(h, group[0])
    ensures Stretches(h, s + group) == Stretches(h, s) + [group]
  {
    var init, t := group[..|group| - 1], group[|group| - 1];
    assert group == init + [t] && s + group == (s + init) + [t];
    StretchesUnfold(h, s + init, t);
    if init == [] {
      assert s + init == s;
    } else {
      StretchesAppend(h, s, init);
      assert (s + init)[|s + init| - 1] == init[|init| - 1] && init[|init| - 1] in group;
      ExtendedLast(Stretches(h, s), init, t);
    }
  }

  lemma ExtendedLast(r: Groups, g: Txs, t: StablecoinTx)
    ensures Extended(r + [g], true, t) == r + [g + [t]]
  {
  }

  // --- Largest group first, ties in order ---

  function BySizeInsert(gs: Groups, g: Txs): Groups {
    if gs != [] && |gs[|gs| - 1]| < |g| then BySizeInsert(gs[..|gs| - 1], g) + [gs[|gs| - 1]]
    else gs + [g]
  }

  function BySize(gs: Groups): Groups {
    if gs == [] then [] else BySizeInsert(BySize(gs[..|gs| - 1]), gs[|gs| - 1])
  }

  ghost predicate Descending(gs: Groups) {
    forall a, b | 0 <= a < b < |gs| :: |gs[a]| >= |gs[b]|
  }

  ghost function OfSize(gs: Groups, n: nat): Groups {
    if gs == [] then [] else OfSize(gs[..|gs| - 1], n) + if |gs[|gs| - 1]| == n then [gs[|gs| - 1]] else []
  }

  lemma {:induction false} BySizeInsertDescending(gs: Groups, g: Txs)
    requires Descending(gs)
    ensures Descending(BySizeInsert(gs, g)) && forall x | x in BySizeInsert(gs, g) :: x == g || x in gs
  {
    if gs != [] && |gs[|gs| - 1]| < |g| {
      var init, last := gs[..|gs| - 1], gs[|gs| - 1];
      BySizeInsertDescending(init, g);
      forall x | x in BySizeInsert(init, g) ensures |x| >= |last| {
      }
    }
  }

  lemma OfSizeAppend(gs: Groups, g: Txs, n: nat)
    ensures OfSize(gs + [g], n) == OfSize(gs, n) + if |g| == n then [g] else []
  {
    assert (gs + [g])[..|gs + [g]| - 1] == gs;
  }

  lemma {:induction false} BySizeInsertStable(gs: Groups, g: Txs, n: nat)
    ensures OfSize(BySizeInsert(gs, g), n) == OfSize(gs, n) + if |g| == n then [g] else []
  {
    OfSizeAppend(gs, g, n);
    if gs != [] && |gs[|gs| - 1]| < |g| {
      var init, last := gs[..|gs| - 1], gs[|gs| - 1];
      BySizeInsertStable(init, g, n);
      OfSizeAppend(BySizeInsert(init, g), last, n);
    }
  }

  /** The stable sort by decreasing size: descending, and groups of one size stay in order. */
  lemma {:induction false} BySizeMeaning(gs: Groups, n: nat)
    ensures Descending(BySize(gs)) && OfSize(BySize(gs), n) == OfSize(gs, n)
  {
    if gs == [] {
    } else {
      BySizeMeaning(gs[..|gs| - 1], n);
      BySizeInsertDescending(BySize(gs[..|gs| - 1]), gs[|gs| - 1]);
      BySizeInsertStable(BySize(gs[..|gs| - 1]), gs[|gs| - 1], n);
    }
  }

  /** Where a group goes: the list is cut at that place. */
  lemma {:induction false} BySizeInsertCut(gs: Groups, g: Txs) returns (p: nat)
    ensures p <= |gs| && BySizeInsert(gs, g) == gs[..p] + [g] + gs[p..]
  {
    if gs != [] && |gs[|gs| - 1]| < |g| {
      p := BySizeInsertCut(gs[..|gs| - 1], g);
    } else {
      p := |gs|;
    }
  }

  lemma BySizeInsertPermutes(gs: Groups, g: Txs)
    ensures multiset(BySizeInsert(gs, g)) == multiset(gs) + multiset{g}
  {
    var p := BySizeInsertCut(gs, g);
    Sorting.InsertPermutes(gs, p, g);
  }

  lemma {:induction false} BySizePermutes(gs: Groups)
    ensures multiset(BySize(gs)) == multiset(gs)
  {
    if gs == [] {
    } else {
      var init, g := gs[..|gs| - 1], gs[|gs| - 1];
      BySizePermutes(init);
      BySizeInsertPermutes(BySize(init), g);
      assert gs == init + [g];
    }
  }

  lemma BySizeMember(gs: Groups, x: Txs)
    ensures x in BySize(gs) <==> x in gs
  {
    BySizePermutes(gs);
    assert x in BySize(gs) <==> x in multiset(BySize(gs));
    assert x in gs <==> x in multiset(gs);
  }

  lemma {:induction false} BySizeClassed(h: Hash, gs: Groups)
    requires Classed(h, gs)
    ensures Classed(h, BySize(gs))
  {
    if gs == [] {
    } else {
      var init, g := gs[..|gs| - 1], gs[|gs| - 1];
      BySizeClassed(h, init);
      var p := BySizeInsertCut(BySize(init), g);
      forall x, t, u | x in BySize(init) && t in x && u in g ensures G(h, t) != G(h, u) {
        BySizeMember(init, x);
        var b :| 0 <= b < |init| && init[b] == x;
        assert t in gs[b] && u in gs[|init|];
      }
      ClassedInsert(h, BySize(init), g, p);
    }
  }

  lemma ClassedInsert(h: Hash, r: Groups, g: Txs, p: nat)
    requires Classed(h, r) && p <= |r| && forall t, u | t in g && u in g :: G(h, t) == G(h, u)
    requires forall x, t, u | x in r && t in x && u in g :: G(h, t) != G(h, u)
    ensures Classed(h, r[..p] + [g] + r[p..])
  {
    var q := r[..p] + [g] + r[p..];
    forall a, b, t, u | 0 <= a < |q| && 0 <= b < |q| && t in q[a] && u in q[b]
      ensures G(h, t) == G(h, u) <==> a == b
    {
      if a != p { assert q[a] == r[if a < p then a else a - 1]; }
      if b != p { assert q[b] == r[if b < p then b else b - 1]; }
    }
  }

  // --- Round-robin ---

  function Total(gs: Groups): nat {
    if gs == [] then 0 else Total(gs[..|gs| - 1]) + |gs[|gs| - 1]|
  }

  /** The first element of every group that has one. */
  function Heads(gs: Groups): Txs {
    if gs == [] then []
    else Heads(gs[..|gs| - 1]) + if gs[|gs| - 1] == [] then [] else [gs[|gs| - 1][0]]
  }

  function Tail(g: Txs): Txs {
    if g == [] then [] else g[1..]
  }

  function Tails(gs: Groups): (r: Groups)
    ensures |r| == |gs|
  {
    seq(|gs|, a requires 0 <= a < |gs| => Tail(gs[a]))
  }

  lemma {:induction false} TotalTails(gs: Groups)
    ensures Total(Tails(gs)) + |Heads(gs)| == Total(gs)
    ensures |Heads(gs)| == 0 <==> Total(gs) == 0
  {
    if gs == [] {
    } else {
      TotalTails(gs[..|gs| - 1]);
      assert Tails(gs)[..|gs| - 1] == Tails(gs[..|gs| - 1]);
    }
  }

  /** Round after round, one element of every group that still has one. */
  ghost function RoundRobin(gs: Groups): Txs
    decreases Total(gs)
  {
    if Heads(gs) == [] then [] else TotalTails(gs); Heads(gs) + RoundRobin(Tails(gs))
  }

  /** The groups that still have an element, in order. */
  ghost function Live(gs: Groups): seq<nat> {
    if gs == [] then []
    else Live(gs[..|gs| - 1]) + if gs[|gs| - 1] == [] then [] else [|gs| - 1]
  }

  lemma {:induction false} LiveIndices(gs: Groups)
    ensures forall p | 0 <= p < |Live(gs)| :: Live(gs)[p] < |gs| && gs[Live(gs)[p]] != []
    ensures forall p, q | 0 <= p < q < |Live(gs)| :: Live(gs)[p] < Live(gs)[q]
    ensures forall a: nat | a < |gs| && gs[a] != [] :: a in Live(gs)
  {
    if gs == [] {
    } else {
      var init := gs[..|gs| - 1];
      LiveIndices(init);
      assert forall a: nat | a < |init| :: init[a] == gs[a];
    }
  }

  lemma {:induction false} LiveMatchesHeads(gs: Groups)
    ensures |Live(gs)| == |Heads(gs)|
    ensures forall p | 0 <= p < |Live(gs)| ::
              Live(gs)[p] < |gs| && gs[Live(gs)[p]] != [] && Heads(gs)[p] == gs[Live(gs)[p]][0]
  {
    if gs == [] {
    } else {
      var init := gs[..|gs| - 1];
      LiveMatchesHeads(init);
      assert forall a: nat | a < |init| :: init[a] == gs[a];
    }
  }

  lemma LiveHeads(gs: Groups)
    ensures |Live(gs)| == |Heads(gs)|
    ensures forall p | 0 <= p < |Live(gs)| ::
              Live(gs)[p] < |gs| && gs[Live(gs)[p]] != [] && Heads(gs)[p] == gs[Live(gs)[p]][0]
    ensures forall p, q | 0 <= p < q < |Live(gs)| :: Live(gs)[p] < Live(gs)[q]
    ensures forall a: nat | a < |gs| && gs[a] != [] :: a in Live(gs)
  {
    LiveIndices(gs);
    LiveMatchesHeads(gs);
  }

  lemma ClassedTails(h: Hash, gs: Groups)
    requires Classed(h, gs)
    ensures Classed(h, Tails(gs))
  {
    assert forall a, t | 0 <= a < |gs| && t in Tails(gs)[a] :: t in gs[a];
  }

  lemma {:induction false} RoundRobinMember(gs: Groups, t: StablecoinTx)
    requires t in RoundRobin(gs)
    ensures exists a :: 0 <= a < |gs| && t in gs[a]
    decreases Total(gs)
  {
    if t in Heads(gs) {
      LiveHeads(gs);
      var p :| 0 <= p < |Heads(gs)| && Heads(gs)[p] == t;
      assert t in gs[Live(gs)[p]];
    } else {
      TotalTails(gs);
      RoundRobinMember(Tails(gs), t);
      var a :| 0 <= a < |gs| && t in Tails(gs)[a];
      assert t in gs[a];
    }
  }

  // --- The order inside a group is kept ---

  /** The heads before the last group are of other classes. */
  lemma HeadsOfOthers(h: Hash, gs: Groups, g: nat)
    requires Classed(h, gs) && gs != [] && gs[|gs| - 1] != [] && G(h, gs[|gs| - 1][0]) == g
    ensures forall t | t in Heads(gs[..|gs| - 1]) :: G(h, t) != g
  {
    var init, last := gs[..|gs| - 1], gs[|gs| - 1];
    LiveHeads(init);
    forall t | t in Heads(init) ensures G(h, t) != g {
      var p :| 0 <= p < |Heads(init)| && Heads(init)[p] == t;
      assert t in gs[Live(init)[p]] && last[0] in last;
    }
  }

  lemma {:induction false} OfClassHeads(h: Hash, gs: Groups, a: nat, g: nat)
    requires Classed(h, gs) && a < |gs| && gs[a] != [] && G(h, gs[a][0]) == g
    ensures OfClass(h, Heads(gs), g) == [gs[a][0]]
  {
    var init, last := gs[..|gs| - 1], gs[|gs| - 1];
    OfClassConcat(h, Heads(init), if last == [] then [] else [last[0]], g);
    if a < |gs| - 1 {
      OfClassHeads(h, init, a, g);
      assert last != [] ==> last[0] in last;
    } else {
      HeadsOfOthers(h, gs, g);
      OfClassNone(h, Heads(init), g);
    }
  }

  lemma GroupUsedUp(h: Hash, gs: Groups, a: nat, g: nat)
    requires Classed(h, gs) && a < |gs| && gs[a] != [] && G(h, gs[a][0]) == g && Tails(gs)[a] == []
    ensures OfClass(h, RoundRobin(Tails(gs)), g) == []
  {
    forall t | t in RoundRobin(Tails(gs)) ensures G(h, t) != g {
      RoundRobinMember(Tails(gs), t);
      var b :| 0 <= b < |gs| && t in Tails(gs)[b];
      assert t in gs[b] && gs[a][0] in gs[a];
    }
    OfClassNone(h, RoundRobin(Tails(gs)), g);
  }

  /** The elements of one group come out in the order they had. */
  lemma {:induction false} RoundRobinKeepsGroup(h: Hash, gs: Groups, a: nat, g: nat)
    requires Classed(h, gs) && a < |gs| && gs[a] != [] && G(h, gs[a][0]) == g
    ensures OfClass(h, RoundRobin(gs), g) == gs[a]
    decreases |gs[a]|
  {
    RoundRobinUnrolls(gs, a);
    OfClassHeads(h, gs, a, g);
    OfClassConcat(h, Heads(gs), RoundRobin(Tails(gs)), g);
    assert gs[a] == [gs[a][0]] + Tails(gs)[a];
    if Tails(gs)[a] == [] {
      GroupUsedUp(h, gs, a, g);
    } else {
      ClassedTails(h, gs);
      assert gs[a][1] in gs[a] && gs[a][0] in gs[a];
      RoundRobinKeepsGroup(h, Tails(gs), a, g);
    }
  }

  lemma RoundRobinUnrolls(gs: Groups, a: nat)
    requires a < |gs| && gs[a] != []
    ensures RoundRobin(gs) == Heads(gs) + RoundRobin(Tails(gs))
  {
    LiveHeads(gs);
  }

  // --- Spread ---

  lemma HeadsDiffer(h: Hash, gs: Groups, p: nat, q: nat)
    requires Classed(h, gs) && p < q < |Heads(gs)|
    ensures G(h, Heads(gs)[p]) != G(h, Heads(gs)[q])
  {
    LiveHeads(gs);
    var a, b := Live(gs)[p], Live(gs)[q];
    assert Heads(gs)[p] in gs[a] && Heads(gs)[q] in gs[b];
  }

  /** If a round ends and the next begins with the same group, only that group is left. */
  lemma LastOfRound(h: Hash, gs: Groups) returns (x: nat)
    requires Classed(h, gs) && Heads(gs) != [] && Heads(Tails(gs)) != []
    requires G(h, Heads(gs)[|Heads(gs)| - 1]) == G(h, Heads(Tails(gs))[0])
    ensures x < |gs| && forall b | 0 <= b < |gs| && b != x :: Tails(gs)[b] == []
  {
    LiveHeads(gs);
    LiveHeads(Tails(gs));
    x := Live(gs)[|Heads(gs)| - 1];
    var y := Live(Tails(gs))[0];
    assert Heads(gs)[|Heads(gs)| - 1] in gs[x] && Heads(Tails(gs))[0] in gs[y];
    assert x == y;
    forall b: nat | b < |gs| && b != x ensures Tails(gs)[b] == [] {
      if b < x {
        assert b !in Live(Tails(gs));
      } else {
        assert b !in Live(gs);
      }
    }
  }

  lemma OneGroupLeft(h: Hash, gs: Groups, x: nat, t: StablecoinTx, u: StablecoinTx)
    requires Classed(h, gs) && x < |gs| && forall b | 0 <= b < |gs| && b != x :: gs[b] == []
    requires t in RoundRobin(gs) && u in RoundRobin(gs)
    ensures G(h, t) == G(h, u)
  {
    RoundRobinMember(gs, t);
    RoundRobinMember(gs, u);
    assert t in gs[x] && u in gs[x];
  }

  /** Two neighbours of one group are followed by that group only. */
  ghost predicate SpreadAt(h: Hash, s: Txs, p: nat) {
    p + 1 < |s| && G(h, s[p]) == G(h, s[p + 1]) ==> forall q | p < q < |s| :: G(h, s[q]) == G(h, s[p])
  }

  lemma SpreadBetweenRounds(h: Hash, gs: Groups, p: nat)
    requires Classed(h, gs) && Heads(gs) != [] && p == |Heads(gs)| - 1
    ensures SpreadAt(h, Heads(gs) + RoundRobin(Tails(gs)), p)
  {
    var heads, rest := Heads(gs), RoundRobin(Tails(gs));
    if rest != [] && G(h, heads[p]) == G(h, rest[0]) {
      var x := LastOfRound(h, gs);
      ClassedTails(h, gs);
      forall t | t in rest ensures G(h, t) == G(h, rest[0]) {
        OneGroupLeft(h, Tails(gs), x, rest[0], t);
      }
    }
  }

  lemma SpreadLater(h: Hash, s: Txs, s': Txs, p: nat)
    requires SpreadAt(h, s', p)
    ensures SpreadAt(h, s + s', |s| + p)
  {
    forall q | |s| <= q < |s + s'| ensures (s + s')[q] == s'[q - |s|] {
    }
  }

  lemma {:induction false} RoundRobinSpread(h: Hash, gs: Groups, p: nat)
    requires Classed(h, gs)
    ensures SpreadAt(h, RoundRobin(gs), p)
    decreases Total(gs)
  {
    TotalTails(gs);
    if Heads(gs) == [] {
    } else if p + 1 < |Heads(gs)| {
      HeadsDiffer(h, gs, p, p + 1);
    } else if p + 1 == |Heads(gs)| {
      SpreadBetweenRounds(h, gs, p);
    } else {
      ClassedTails(h, gs);
      RoundRobinSpread(h, Tails(gs), p - |Heads(gs)|);
      SpreadLater(h, Heads(gs), RoundRobin(Tails(gs)), p - |Heads(gs)|);
    }
  }

  // --- The whole interleaved order ---

  ghost predicate Uniform(h: Hash, g: Txs) {
    g != [] && forall t | t in g :: G(h, t) == G(h, g[0])
  }

  ghost function ClassOf(h: Hash, g: Txs): nat {
    if g == [] then 0 else G(h, g[0])
  }

  /** Groups of one class each, in order of their class. */
  ghost predicate Ascends(h: Hash, gs: Groups) {
    && (forall a | 0 <= a < |gs| :: Uniform(h, gs[a]))
    && (forall a, b | 0 <= a < b < |gs| :: ClassOf(h, gs[a]) < ClassOf(h, gs[b]))
  }

  lemma AscendsClassed(h: Hash, gs: Groups)
    requires Ascends(h, gs)
    ensures Classed(h, gs)
  {
    forall a, t | 0 <= a < |gs| && t in gs[a] ensures G(h, t) == ClassOf(h, gs[a]) {
      assert Uniform(h, gs[a]);
    }
  }

  ghost predicate ByClass(h: Hash, s: Txs) {
    forall i, j | 0 <= i < j < |s| :: G(h, s[i]) <= G(h, s[j])
  }

  ghost predicate EndsIn(h: Hash, gs: Groups, g: nat) {
    gs != [] && ClassOf(h, gs[|gs| - 1]) == g
  }

  lemma FlattenAppend(r: Groups, g: Txs)
    ensures Flatten(r + [g]) == Flatten(r) + g
  {
    assert (r + [g])[..|r + [g]| - 1] == r;
  }

  lemma StartNew(h: Hash, r: Groups, t: StablecoinTx)
    requires Ascends(h, r) && (r != [] ==> ClassOf(h, r[|r| - 1]) < G(h, t))
    ensures Ascends(h, r + [[t]]) && EndsIn(h, r + [[t]], G(h, t))
  {
    var q := r + [[t]];
    assert Uniform(h, [t]);
    forall a | 0 <= a < |q| ensures Uniform(h, q[a]) {
      assert a < |r| ==> q[a] == r[a];
    }
    forall a, b | 0 <= a < b < |q| ensures ClassOf(h, q[a]) < ClassOf(h, q[b]) {
      assert q[a] == r[a] && (b < |r| ==> q[b] == r[b]);
    }
  }

  lemma ExtendLast(h: Hash, r: Groups, t: StablecoinTx)
    requires EndsIn(h, r, G(h, t)) && Ascends(h, r)
    ensures var r' := r[|r| - 1 := r[|r| - 1] + [t]];
            Ascends(h, r') && Flatten(r') == Flatten(r) + [t] && EndsIn(h, r', G(h, t))
  {
    var last := r[|r| - 1];
    var r' := r[|r| - 1 := last + [t]];
    assert r'[..|r| - 1] == r[..|r| - 1];
    assert Flatten(r[..|r| - 1]) + (last + [t]) == Flatten(r) + [t];
    assert Uniform(h, last) && Uniform(h, last + [t]);
  }

  lemma ExtendedAscends(h: Hash, r: Groups, same: bool, t: StablecoinTx)
    requires Ascends(h, r) && (same ==> EndsIn(h, r, G(h, t)))
    requires !same && r != [] ==> ClassOf(h, r[|r| - 1]) < G(h, t)
    ensures var r' := Extended(r, same, t);
            Flatten(r') == Flatten(r) + [t] && Ascends(h, r') && EndsIn(h, r', G(h, t))
  {
    if same {
      ExtendLast(h, r, t);
    } else {
      StartNew(h, r, t);
      FlattenAppend(r, [t]);
    }
  }

  ghost predicate Cuts(h: Hash, s: Txs, r: Groups) {
    && Flatten(r) == s && Ascends(h, r)
    && (s != [] ==> EndsIn(h, r, G(h, s[|s| - 1])))
    && (s == [] ==> r == [])
  }

  lemma CutsExtended(h: Hash, s: Txs, r: Groups)
    requires s != [] && Cuts(h, s[..|s| - 1], r) && (|s| > 1 ==> G(h, s[|s| - 2]) <= G(h, s[|s| - 1]))
    ensures SameClass(h, s[..|s| - 1], s[|s| - 1]) ==> r != []
    ensures Cuts(h, s, Extended(r, SameClass(h, s[..|s| - 1], s[|s| - 1]), s[|s| - 1]))
  {
    var init, t := s[..|s| - 1], s[|s| - 1];
    ExtendedAscends(h, r, SameClass(h, init, t), t);
    assert s == init + [t];
  }

  lemma CutsNext(h: Hash, s: Txs)
    requires s != [] && ByClass(h, s) && Cuts(h, s[..|s| - 1], Stretches(h, s[..|s| - 1]))
    ensures Cuts(h, s, Stretches(h, s))
  {
    CutsExtended(h, s, Stretches(h, s[..|s| - 1]));
  }

  /** The stretches of a list in order of class: nothing is lost, and each stretch is a whole class. */
  lemma {:induction false} StretchesAscend(h: Hash, s: Txs)
    requires ByClass(h, s)
    ensures Cuts(h, s, Stretches(h, s))
  {
    if s == [] {
    } else {
      InitByClass(h, s);
      StretchesAscend(h, s[..|s| - 1]);
      CutsNext(h, s);
    }
  }

  lemma InitByClass(h: Hash, s: Txs)
    requires ByClass(h, s) && s != []
    ensures ByClass(h, s[..|s| - 1])
  {
  }

  lemma StretchesUnfold(h: Hash, s: Txs, t: StablecoinTx)
    ensures Stretches(h, s + [t]) == Extended(Stretches(h, s), SameClass(h, s, t), t)
    ensures s == [] ==> Stretches(h, s) == []
  {
    assert (s + [t])[..|s + [t]| - 1] == s;
  }

  lemma DealtPresent(h: Hash, runs: Groups, a: nat, g: nat)
    requires Ascends(h, runs) && a < |runs| && ClassOf(h, runs[a]) == g
    ensures OfClass(h, RoundRobin(BySize(runs)), g) == OfClass(h, Flatten(runs), g)
  {
    assert Uniform(h, runs[a]);
    AscendsClassed(h, runs);
    BySizeClassed(h, runs);
    BySizeMember(runs, runs[a]);
    var b :| 0 <= b < |BySize(runs)| && BySize(runs)[b] == runs[a];
    RoundRobinKeepsGroup(h, BySize(runs), b, g);
    OfClassFlatten(h, runs, a, g);
  }

  lemma DealtAbsent(h: Hash, runs: Groups, g: nat)
    requires forall x, t | x in runs && t in x :: G(h, t) != g
    ensures OfClass(h, RoundRobin(BySize(runs)), g) == OfClass(h, Flatten(runs), g)
  {
    forall t | t in Flatten(runs) ensures G(h, t) != g {
      FlattenMember(runs, t);
    }
    OfClassNone(h, Flatten(runs), g);
    forall t | t in RoundRobin(BySize(runs)) ensures G(h, t) != g {
      RoundRobinMember(BySize(runs), t);
      var b :| 0 <= b < |BySize(runs)| && t in BySize(runs)[b];
      BySizeMember(runs, BySize(runs)[b]);
    }
    OfClassNone(h, RoundRobin(BySize(runs)), g);
  }

  /** Dealing out the runs of a list keeps every class in order. */
  lemma DealtKeepsClass(h: Hash, s: Txs, g: nat)
    requires ByClass(h, s)
    ensures OfClass(h, RoundRobin(BySize(Stretches(h, s))), g) == OfClass(h, s, g)
  {
    StretchesAscend(h, s);
    var runs := Stretches(h, s);
    if a: nat :| a < |runs| && ClassOf(h, runs[a]) == g {
      DealtPresent(h, runs, a, g);
    } else {
      forall x, t | x in runs && t in x ensures G(h, t) != g {
        var a :| 0 <= a < |runs| && runs[a] == x;
        assert Uniform(h, runs[a]);
      }
      DealtAbsent(h, runs, g);
    }
  }

  lemma DealtPermutes(h: Hash, s: Txs)
    requires ByClass(h, s)
    ensures multiset(RoundRobin(BySize(Stretches(h, s)))) == multiset(s)
  {
    forall g: nat ensures OfClass(h, RoundRobin(BySize(Stretches(h, s))), g) == OfClass(h, s, g) {
      DealtKeepsClass(h, s, g);
    }
    SameClasses(h, RoundRobin(BySize(Stretches(h, s))), s);
  }

  /** cado_interleave, as a function of the list it is given. */
  ghost function Interleaved(h: Hash, s: Txs): Txs {
    RoundRobin(BySize(Stretches(h, Concatenated(h, s))))
  }

  /** Transactions with the same domain hash are in order of sender, nonce and transaction hash. */
  ghost predicate AscendingInDomains(h: Hash, s: Txs) {
    forall i, j | 0 <= i < j < |s| && h(s[i].ConflictDomain()) == h(s[j].ConflictDomain()) :: AscendingIn(s[i], s[j])
  }

  /** Where two elements of a class are found in it. */
  lemma {:induction false} PlacesInClass(h: Hash, s: Txs, i: nat, j: nat) returns (p: nat, q: nat)
    requires i < j < |s| && G(h, s[i]) == G(h, s[j])
    ensures var c := OfClass(h, s, G(h, s[j])); p < q < |c| && c[p] == s[i] && c[q] == s[j]
  {
    var init, g := s[..|s| - 1], G(h, s[j]);
    if j < |s| - 1 {
      p, q := PlacesInClass(h, init, i, j);
    } else {
      p := PlaceInClass(h, init, i);
      q := |OfClass(h, init, g)|;
    }
  }

  lemma {:induction false} PlaceInClass(h: Hash, s: Txs, i: nat) returns (p: nat)
    requires i < |s|
    ensures var c := OfClass(h, s, G(h, s[i])); p < |c| && c[p] == s[i]
  {
    var init := s[..|s| - 1];
    if i < |s| - 1 {
      p := PlaceInClass(h, init, i);
    } else {
      p := |OfClass(h, init, G(h, s[i]))|;
    }
  }

  lemma {:induction false} ClassAscends(h: Hash, s: Txs, g: nat)
    requires Sorted(h, s)
    ensures forall t | t in OfClass(h, s, g) :: t in s && G(h, t) == g
    ensures forall p, q | 0 <= p < q < |OfClass(h, s, g)| :: AscendingIn(OfClass(h, s, g)[p], OfClass(h, s, g)[q])
  {
    if s == [] {
    } else {
      var init, t := s[..|s| - 1], s[|s| - 1];
      ClassAscends(h, init, g);
      forall u | u in OfClass(h, init, g) && G(h, t) == g ensures AscendingIn(u, t) {
        var i :| 0 <= i < |init| && init[i] == u;
        assert Before(h, s[i], t);
      }
    }
  }

  /** A list with the classes of a sorted one is in order inside each of them. */
  lemma ClassesAscend(h: Hash, c: Txs, s: Txs)
    requires Sorted(h, c) && forall g: nat :: OfClass(h, s, g) == OfClass(h, c, g)
    ensures AscendingInDomains(h, s)
  {
    forall i, j | 0 <= i < j < |s| && h(s[i].ConflictDomain()) == h(s[j].ConflictDomain())
      ensures AscendingIn(s[i], s[j])
    {
      var p, q := PlacesInClass(h, s, i, j);
      ClassAscends(h, c, G(h, s[j]));
    }
  }

  /**
   The output is a permutation of the first occurrences. Every hash group keeps
   its order, and two neighbours share a group only if nothing but that group
   follows.
   */
  lemma InterleavedMeaning(h: Hash, s: Txs)
    ensures multiset(Interleaved(h, s)) == multiset(Dedup(s))
    ensures forall g: nat :: OfClass(h, Interleaved(h, s), g) == OfClass(h, Concatenated(h, s), g)
    ensures AscendingInDomains(h, Interleaved(h, s))
    ensures forall p: nat :: SpreadAt(h, Interleaved(h, s), p)
  {
    ConcatenatedMeaning(h, s);
    var c := Concatenated(h, s);
    assert ByClass(h, c);
    DealtPermutes(h, c);
    forall g: nat ensures OfClass(h, Interleaved(h, s), g) == OfClass(h, c, g) {
      DealtKeepsClass(h, c, g);
    }
    ClassesAscend(h, c, Interleaved(h, s));
    StretchesAscend(h, c);
    AscendsClassed(h, Stretches(h, c));
    BySizeClassed(h, Stretches(h, c));
    forall p: nat ensures SpreadAt(h, Interleaved(h, s), p) {
      RoundRobinSpread(h, BySize(Stretches(h, c)), p);
    }
  }

  /**
   cado_interleave, too, gives one result for all orders of arrival exactly when no key has two
   different transactions.
   */
  lemma InterleavedCanonicalIff(h: Hash, s: Txs)
    ensures Consistent(s) <==> forall s': Txs | multiset(s') == multiset(s) :: Interleaved(h, s') == Interleaved(h, s)
  {
    if Consistent(s) {
      ConcatenatedCanonicalIff(h, s);
      forall s': Txs | multiset(s') == multiset(s) ensures Interleaved(h, s') == Interleaved(h, s) {
        assert Concatenated(h, s') == Concatenated(h, s);
      }
    } else {
      var s' := OrderMatters(s);
      InterleavedMeaning(h, s);
      InterleavedMeaning(h, s');
      assert Interleaved(h, s') != Interleaved(h, s);
    }
  }
}
