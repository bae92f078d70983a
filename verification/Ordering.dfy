/**
 The loops of the two orderings, each proved to compute the order specified in
 Cado and Interleave.
 */
module Ordering {
  import opened Stablecoin
  import opened Cado
  import opened Interleave
  import Sorting

  /** Retains the first transaction of every key. */
  method RetainFirst(txs: Txs) returns (r: Txs)
    ensures r == Dedup(txs)
    ensures UniqueKeys(r) && forall t :: t in r <==> First(txs, t)
  {
    r := [];
    var seen: set<(nat, nat)> := {};
    for i := 0 to |txs|
      invariant r == Dedup(txs[..i]) && seen == KeysOf(txs[..i])
    {
      var t := txs[i];
      assert txs[..i + 1] == txs[..i] + [t];
      KeysAppend(txs[..i], t);
      DedupAppend(txs[..i], t);
      if Key(t) !in seen {
        seen := seen + {Key(t)};
        r := r + [t];
      }
    }
    assert txs[..|txs|] == txs;
    RetainedExact(txs, r);
  }

  // --- Sorting one group ---

  ghost predicate NoneAfter(s: Txs) {
    forall i, j | 0 <= i < j < |s| :: !Less(s[j], s[i])
  }

  /** sort_by on (sender, nonce, transaction hash). */
  method SortGroup(s: Txs) returns (r: Txs)
    ensures NoneAfter(r) && multiset(r) == multiset(s)
  {
    r := Sorting.Sort(s, Less);
    forall i, j | 0 <= i < j < |r| ensures !Less(r[j], r[i]) {
    }
  }

  /** Inside one class, with distinct keys, that is the order of the whole. */
  lemma GroupSorted(h: Hash, s: Txs)
    requires NoneAfter(s) && UniqueKeys(s) && forall t, u | t in s && u in s :: G(h, t) == G(h, u)
    ensures Sorted(h, s)
  {
    forall i, j | 0 <= i < j < |s| ensures Before(h, s[i], s[j]) {
      assert s[i] in s && s[j] in s;
    }
  }

  // --- Grouping ---

  /** `groups` holds the classes of `s`. */
  ghost predicate Grouped(h: Hash, s: Txs, groups: map<nat, Txs>) {
    forall g: nat :: OfClass(h, s, g) == if g in groups then groups[g] else []
  }

  ghost predicate NoEmpty(groups: map<nat, Txs>) {
    forall g | g in groups :: groups[g] != []
  }

  method GroupByHash(h: Hash, s: Txs) returns (groups: map<nat, Txs>)
    ensures Grouped(h, s, groups) && NoEmpty(groups)
  {
    groups := map[];
    for i := 0 to |s|
      invariant Grouped(h, s[..i], groups) && NoEmpty(groups)
    {
      var g := G(h, s[i]);
      assert s[..i + 1][..i] == s[..i];
      groups := groups[g := (if g in groups then groups[g] else []) + [s[i]]];
    }
    assert s[..|s|] == s;
  }

  lemma {:induction false} OfClassMember(h: Hash, s: Txs, g: nat, t: StablecoinTx)
    ensures t in OfClass(h, s, g) <==> t in s && G(h, t) == g
  {
    if s == [] {
    } else {
      OfClassMember(h, s[..|s| - 1], g, t);
      assert s == s[..|s| - 1] + [s[|s| - 1]];
    }
  }

  lemma {:induction false} OfClassUnique(h: Hash, s: Txs, g: nat)
    requires UniqueKeys(s)
    ensures UniqueKeys(OfClass(h, s, g))
  {
    if s == [] {
    } else {
      var init, t := s[..|s| - 1], s[|s| - 1];
      OfClassUnique(h, init, g);
      forall i | 0 <= i < |OfClass(h, init, g)| ensures Key(OfClass(h, init, g)[i]) != Key(t) {
        OfClassMember(h, init, g, OfClass(h, init, g)[i]);
      }
    }
  }

  /** Group `g` after sorting: its elements, in the order of the whole. */
  ghost predicate Arranged(h: Hash, s: Txs, g: nat, group: Txs) {
    && group != [] && Sorted(h, group) && multiset(group) == multiset(OfClass(h, s, g))
    && forall t | t in group :: G(h, t) == g
  }

  lemma SortedIsArranged(h: Hash, s: Txs, g: nat, group: Txs)
    requires UniqueKeys(s) && OfClass(h, s, g) != []
    requires NoneAfter(group) && multiset(group) == multiset(OfClass(h, s, g))
    ensures Arranged(h, s, g, group)
  {
    OfClassUnique(h, s, g);
    PermutedUnique(OfClass(h, s, g), group);
    SameLength(OfClass(h, s, g), group);
    forall t | t in group ensures G(h, t) == g {
      OfClassMember(h, s, g, t);
    }
    GroupSorted(h, group);
  }

  /** The smallest key of an ordered map. */
  method Least(s: set<nat>) returns (m: nat)
    requires s != {}
    ensures m in s && forall x | x in s :: m <= x
  {
    m :| m in s;
    var todo := s - {m};
    while todo != {}
      invariant todo <= s && m in s && forall x | x in s && x !in todo :: m <= x
      decreases |todo|
    {
      var x :| x in todo;
      if x < m { m := x; }
      todo := todo - {x};
    }
  }

  ghost predicate AllArranged(h: Hash, s: Txs, groups: map<nat, Txs>, keys: set<nat>) {
    keys <= groups.Keys && forall g | g in keys :: Arranged(h, s, g, groups[g])
  }

  /** Sorts every group in place. */
  method SortAll(h: Hash, s: Txs, given: map<nat, Txs>) returns (groups: map<nat, Txs>)
    requires UniqueKeys(s) && Grouped(h, s, given) && NoEmpty(given)
    ensures groups.Keys == given.Keys && AllArranged(h, s, groups, groups.Keys)
  {
    groups := given;
    var todo := groups.Keys;
    while todo != {}
      invariant todo <= given.Keys == groups.Keys
      invariant forall g | g in todo :: groups[g] == given[g]
      invariant AllArranged(h, s, groups, given.Keys - todo)
      decreases |todo|
    {
      var g :| g in todo;
      assert OfClass(h, s, g) == given[g];
      var sorted := SortGroup(groups[g]);
      SortedIsArranged(h, s, g, sorted);
      groups := groups[g := sorted];
      todo := todo - {g};
    }
  }

  /** The values of an ordered map, by increasing key. */
  method ValuesInOrder(groups: map<nat, Txs>) returns (gs: Groups, ghost cls: seq<nat>)
    ensures |cls| == |gs| && forall a | 0 <= a < |gs| :: cls[a] in groups && gs[a] == groups[cls[a]]
    ensures forall a, b | 0 <= a < b < |gs| :: cls[a] < cls[b]
    ensures forall g | g in groups :: g in cls
  {
    gs, cls := [], [];
    var todo := groups.Keys;
    while todo != {}
      invariant todo <= groups.Keys && |cls| == |gs|
      invariant forall a | 0 <= a < |gs| :: cls[a] in groups && gs[a] == groups[cls[a]]
      invariant forall a, g | 0 <= a < |cls| && g in todo :: cls[a] < g
      invariant forall a, b | 0 <= a < b < |cls| :: cls[a] < cls[b]
      invariant forall g | g in groups && g !in todo :: g in cls
      decreases |todo|
    {
      var g := Least(todo);
      gs := gs + [groups[g]];
      cls := cls + [g];
      todo := todo - {g};
    }
  }

  /** The sorted groups in order of their hash. */
  method SortedGroups(h: Hash, s: Txs) returns (gs: Groups)
    requires UniqueKeys(s)
    ensures gs == Stretches(h, InOrder(h, s))
  {
    var grouped := GroupByHash(h, s);
    var groups := SortAll(h, s, grouped);
    ghost var cls;
    gs, cls := ValuesInOrder(groups);
    forall a | 0 <= a < |gs| ensures Arranged(h, s, cls[a], gs[a]) {
      assert cls[a] in groups;
    }
    forall g: nat | g !in cls ensures OfClass(h, s, g) == [] {
      assert g !in groups && g !in grouped;
    }
    ListedIsStretches(h, s, gs, cls);
  }

  ghost predicate Listed(h: Hash, s: Txs, gs: Groups, cls: seq<nat>) {
    && |cls| == |gs|
    && (forall a | 0 <= a < |gs| :: Arranged(h, s, cls[a], gs[a]))
    && (forall a, b | 0 <= a < b < |gs| :: cls[a] < cls[b])
    && (forall g: nat | g !in cls :: OfClass(h, s, g) == [])
  }

  lemma ListedAscends(h: Hash, s: Txs, gs: Groups, cls: seq<nat>)
    requires Listed(h, s, gs, cls)
    ensures Ascends(h, gs) && forall a | 0 <= a < |gs| :: Sorted(h, gs[a])
  {
    forall a | 0 <= a < |gs| ensures Uniform(h, gs[a]) && ClassOf(h, gs[a]) == cls[a] {
      assert Arranged(h, s, cls[a], gs[a]);
      assert gs[a][0] in gs[a];
    }
  }

  lemma {:induction false} FlattenSorted(h: Hash, gs: Groups)
    requires Ascends(h, gs) && forall a | 0 <= a < |gs| :: Sorted(h, gs[a])
    ensures Sorted(h, Flatten(gs))
  {
    if gs == [] {
    } else {
      var init, last := gs[..|gs| - 1], gs[|gs| - 1];
      FlattenSorted(h, init);
      forall t, u | t in Flatten(init) && u in last ensures Before(h, t, u) {
        FlattenMember(init, t);
        var a :| 0 <= a < |init| && t in init[a];
        assert Uniform(h, gs[a]) && Uniform(h, last) && ClassOf(h, gs[a]) < ClassOf(h, last);
      }
      ConcatSorted(h, Flatten(init), last);
    }
  }

  lemma ConcatSorted(h: Hash, s: Txs, s': Txs)
    requires Sorted(h, s) && Sorted(h, s') && forall t, u | t in s && u in s' :: Before(h, t, u)
    ensures Sorted(h, s + s')
  {
    var q := s + s';
    forall i, j | 0 <= i < j < |q| ensures Before(h, q[i], q[j]) {
      assert q[i] == if i < |s| then s[i] else s'[i - |s|];
      assert q[j] == if j < |s| then s[j] else s'[j - |s|];
    }
  }

  lemma {:induction false} StretchesFlatten(h: Hash, gs: Groups)
    requires Ascends(h, gs)
    ensures Stretches(h, Flatten(gs)) == gs
  {
    if gs == [] {
    } else {
      var init, last := gs[..|gs| - 1], gs[|gs| - 1];
      StretchesFlatten(h, init);
      LastIsNew(h, gs);
      StretchesAppend(h, Flatten(init), last);
      assert gs == init + [last];
    }
  }

  /** The last group starts a class of its own. */
  lemma LastIsNew(h: Hash, gs: Groups)
    requires Ascends(h, gs) && gs != []
    ensures var init, last := gs[..|gs| - 1], gs[|gs| - 1];
            && Ascends(h, init) && Uniform(h, last)
            && (Flatten(init) != [] ==> G(h, Flatten(init)[|Flatten(init)| - 1]) != G(h, last[0]))
  {
    var init, last := gs[..|gs| - 1], gs[|gs| - 1];
    assert Uniform(h, last);
    var s := Flatten(init);
    if s != [] {
      FlattenMember(init, s[|s| - 1]);
      var a :| 0 <= a < |init| && s[|s| - 1] in init[a];
      assert Uniform(h, gs[a]) && ClassOf(h, gs[a]) < ClassOf(h, last);
    }
  }

  lemma ListedPermutes(h: Hash, s: Txs, gs: Groups, cls: seq<nat>)
    requires Listed(h, s, gs, cls)
    ensures multiset(Flatten(gs)) == multiset(s)
  {
    ListedAscends(h, s, gs, cls);
    AscendsClassed(h, gs);
    forall t ensures multiset(Flatten(gs))[t] == multiset(s)[t] {
      var g := G(h, t);
      OfClassCount(h, Flatten(gs), t);
      OfClassCount(h, s, t);
      if a: nat :| a < |cls| && cls[a] == g {
        assert Arranged(h, s, g, gs[a]) && gs[a][0] in gs[a];
        OfClassFlatten(h, gs, a, g);
      } else {
        ClassAbsent(h, s, gs, cls, g);
      }
    }
  }

  lemma ClassAbsent(h: Hash, s: Txs, gs: Groups, cls: seq<nat>, g: nat)
    requires Listed(h, s, gs, cls) && g !in cls
    ensures OfClass(h, Flatten(gs), g) == OfClass(h, s, g) == []
  {
    forall t | t in Flatten(gs) ensures G(h, t) != g {
      FlattenMember(gs, t);
      var a :| 0 <= a < |gs| && t in gs[a];
      assert Arranged(h, s, cls[a], gs[a]);
    }
    OfClassNone(h, Flatten(gs), g);
  }

  lemma ListedIsStretches(h: Hash, s: Txs, gs: Groups, cls: seq<nat>)
    requires UniqueKeys(s) && Listed(h, s, gs, cls)
    ensures gs == Stretches(h, InOrder(h, s))
  {
    ListedAscends(h, s, gs, cls);
    FlattenSorted(h, gs);
    ListedPermutes(h, s, gs, cls);
    InOrderSorted(h, s);
    SortedUnique(h, Flatten(gs), InOrder(h, s));
    StretchesFlatten(h, gs);
  }

  // --- The two orderings ---

  /** cado_ordering. */
  method CadoOrdering(h: Hash, txs: Txs) returns (r: Txs)
    ensures r == Concatenated(h, txs)
    ensures UniqueKeys(r) && (forall t :: t in r <==> First(txs, t)) && Ascending(h, r)
  {
    var first := RetainFirst(txs);
    DedupUnique(txs);
    var gs := SortedGroups(h, first);
    r := [];
    for a := 0 to |gs|
      invariant r == Flatten(gs[..a])
    {
      FlattenAppend(gs[..a], gs[a]);
      assert gs[..a + 1] == gs[..a] + [gs[a]];
      r := r + gs[a];
    }
    assert gs[..|gs|] == gs;
    ConcatenatedMeaning(h, txs);
    RetainedExact(txs, Concatenated(h, txs));
    StretchesAscend(h, InOrder(h, first));
  }

  /** Behind the last group that is no smaller. */
  method InsertBySize(gs: Groups, g: Txs) returns (r: Groups)
    ensures r == BySizeInsert(gs, g)
  {
    var p := |gs|;
    assert gs[..p] == gs && gs[p..] == [];
    while p > 0 && |gs[p - 1]| < |g|
      invariant 0 <= p <= |gs| && BySizeInsert(gs, g) == BySizeInsert(gs[..p], g) + gs[p..]
    {
      assert gs[..p][..p - 1] == gs[..p - 1] && gs[p - 1..] == [gs[p - 1]] + gs[p..];
      p := p - 1;
    }
    assert gs[..p] == [] || gs[..p][p - 1] == gs[p - 1];
    r := gs[..p] + [g] + gs[p..];
  }

  /** groups.sort_by on the length, largest first; the sort is stable. */
  method SortBySize(gs: Groups) returns (r: Groups)
    ensures r == BySize(gs)
  {
    r := [];
    for i := 0 to |gs|
      invariant r == BySize(gs[..i])
    {
      assert gs[..i + 1][..i] == gs[..i];
      r := InsertBySize(r, gs[i]);
    }
    assert gs[..|gs|] == gs;
  }

  /** One round over all iterators. */
  method OneRound(gs: Groups) returns (out: Txs, rest: Groups)
    ensures out == Heads(gs) && rest == Tails(gs)
  {
    out, rest := [], gs;
    for a := 0 to |gs|
      invariant out == Heads(gs[..a]) && |rest| == |gs|
      invariant forall b | 0 <= b < |gs| :: rest[b] == if b < a then Tail(gs[b]) else gs[b]
    {
      assert gs[..a + 1][..a] == gs[..a];
      if rest[a] != [] {
        out := out + [rest[a][0]];
        rest := rest[a := rest[a][1..]];
      }
    }
    assert gs[..|gs|] == gs;
  }

  lemma RoundRobinNext(gs: Groups)
    ensures Heads(gs) != [] ==> RoundRobin(gs) == Heads(gs) + RoundRobin(Tails(gs)) && Total(Tails(gs)) < Total(gs)
    ensures Heads(gs) == [] ==> RoundRobin(gs) == [] && Tails(gs) == gs
  {
    TotalTails(gs);
    if Heads(gs) == [] { LiveHeads(gs); }
  }

  /** Rounds until one of them takes nothing. */
  method Deal(gs: Groups) returns (r: Txs)
    ensures r == RoundRobin(gs)
  {
    r := [];
    var iters, any := gs, true;
    while any
      invariant r + RoundRobin(iters) == RoundRobin(gs) && (!any ==> RoundRobin(iters) == [])
      decreases any, Total(iters)
    {
      var heads, rest := OneRound(iters);
      RoundRobinNext(iters);
      any := heads != [];
      r := r + heads;
      iters := rest;
    }
  }

  /** cado_interleave. */
  method CadoInterleave(h: Hash, txs: Txs) returns (r: Txs)
    ensures r == Interleaved(h, txs)
    ensures UniqueKeys(r) && (forall t :: t in r <==> First(txs, t)) && AscendingInDomains(h, r)
  {
    var first := RetainFirst(txs);
    DedupUnique(txs);
    var groups := SortedGroups(h, first);
    groups := SortBySize(groups);
    r := Deal(groups);
    InterleavedMeaning(h, txs);
    RetainedExact(txs, Interleaved(h, txs));
  }
}
