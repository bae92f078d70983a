/**
 Conflict-aware deterministic ordering: what the concatenated order means, and
 when it does not depend on the order of arrival. The domain hash `h` is an
 arbitrary function.
 */
module Cado {
  import opened Stablecoin

  type Txs = seq<StablecoinTx>
  type Hash = nat -> nat

  // --- Deduplication by (sender, nonce) ---

  function Key(t: StablecoinTx): (nat, nat) {
    (t.Sender(), t.nonce)
  }

  function KeysOf(s: Txs): set<(nat, nat)> {
    set t | t in s :: Key(t)
  }

  /** No two transactions have the same sender and nonce. */
  ghost predicate UniqueKeys(s: Txs) {
    forall i, j | 0 <= i < j < |s| :: s[i].Sender() == s[j].Sender() ==> s[i].nonce != s[j].nonce
  }

  /** The first transaction of its sender with its nonce. */
  ghost predicate FirstAt(s: Txs, i: nat)
    requires i < |s|
  {
    forall j | 0 <= j < i :: s[j].Sender() == s[i].Sender() ==> s[j].nonce != s[i].nonce
  }

  /** Some occurrence of `t` has no earlier transaction with its sender and nonce. */
  ghost predicate First(s: Txs, t: StablecoinTx) {
    exists i: nat :: i < |s| && s[i] == t && FirstAt(s, i)
  }

  /** Keeps the first transaction of every key. */
  ghost function Dedup(s: Txs): Txs {
    if s == [] then []
    else
      var init, t := s[..|s| - 1], s[|s| - 1];
      Dedup(init) + if Key(t) in KeysOf(init) then [] else [t]
  }

  lemma KeysAppend(s: Txs, t: StablecoinTx)
    ensures KeysOf(s + [t]) == KeysOf(s) + {Key(t)}
  {
    assert forall u :: u in s + [t] <==> u in s || u == t;
  }

  lemma DedupAppend(s: Txs, t: StablecoinTx)
    ensures Dedup(s + [t]) == if Key(t) in KeysOf(s) then Dedup(s) else Dedup(s) + [t]
  {
    assert (s + [t])[..|s + [t]| - 1] == s;
  }

  lemma AppendUnique(s: Txs, t: StablecoinTx)
    requires UniqueKeys(s) && Key(t) !in KeysOf(s)
    ensures UniqueKeys(s + [t])
  {
    forall i | 0 <= i < |s| ensures Key(s[i]) in KeysOf(s) {
    }
  }

  lemma {:induction false} DedupUnique(s: Txs)
    ensures UniqueKeys(Dedup(s)) && KeysOf(Dedup(s)) == KeysOf(s)
    ensures forall t | t in Dedup(s) :: t in s
  {
    if s == [] {
    } else {
      var init, t := s[..|s| - 1], s[|s| - 1];
      DedupUnique(init);
      assert s == init + [t];
      KeysAppend(init, t);
      if Key(t) !in KeysOf(init) {
        KeysAppend(Dedup(init), t);
        AppendUnique(Dedup(init), t);
      }
    }
  }

  /** Deduplication keeps exactly the first transaction of every sender and nonce. */
  lemma {:induction false} DedupExact(s: Txs, t: StablecoinTx)
    ensures t in Dedup(s) <==> First(s, t)
  {
    if s == [] {
    } else {
      var init, last := s[..|s| - 1], s[|s| - 1];
      DedupExact(init, t);
      FirstExtends(s, t);
      LastIsFirst(s);
    }
  }

  lemma LastIsFirst(s: Txs)
    requires s != []
    ensures FirstAt(s, |s| - 1) <==> Key(s[|s| - 1]) !in KeysOf(s[..|s| - 1])
  {
    var init, t := s[..|s| - 1], s[|s| - 1];
    forall i | 0 <= i < |init| ensures Key(s[i]) in KeysOf(init) {
      assert init[i] == s[i];
    }
    if Key(t) in KeysOf(init) {
      var u :| u in init && Key(u) == Key(t);
      var i :| 0 <= i < |init| && init[i] == u;
      assert s[i] == u;
    }
  }

  lemma FirstExtends(s: Txs, t: StablecoinTx)
    requires s != []
    ensures First(s, t) <==> First(s[..|s| - 1], t) || (s[|s| - 1] == t && FirstAt(s, |s| - 1))
  {
    var init := s[..|s| - 1];
    forall i: nat | i < |init| ensures FirstAt(init, i) <==> FirstAt(s, i) {
    }
    if First(init, t) {
      var i: nat :| i < |init| && init[i] == t && FirstAt(init, i);
      assert s[i] == t && FirstAt(s, i);
    }
    if First(s, t) {
      var i: nat :| i < |s| && s[i] == t && FirstAt(s, i);
      assert i < |init| ==> init[i] == t && FirstAt(init, i);
    }
  }

  lemma {:induction false} DedupAll(s: Txs)
    requires UniqueKeys(s)
    ensures Dedup(s) == s
  {
    if s == [] {
    } else {
      DedupAll(s[..|s| - 1]);
    }
  }

  // --- Multisets of lists without repetition ---

  lemma {:induction false} UniqueOnce(s: Txs, t: StablecoinTx)
    requires UniqueKeys(s)
    ensures multiset(s)[t] == if t in s then 1 else 0
  {
    if s == [] {
    } else {
      UniqueOnce(s[..|s| - 1], t);
      assert s == s[..|s| - 1] + [s[|s| - 1]];
    }
  }

  lemma SameElements(s: Txs, s': Txs)
    requires UniqueKeys(s) && UniqueKeys(s') && forall t :: t in s <==> t in s'
    ensures multiset(s) == multiset(s')
  {
    forall t ensures multiset(s)[t] == multiset(s')[t] {
      UniqueOnce(s, t);
      UniqueOnce(s', t);
    }
  }

  lemma PermutedUnique(s: Txs, s': Txs)
    requires UniqueKeys(s) && multiset(s) == multiset(s')
    ensures UniqueKeys(s') && |s| == |s'|
  {
    SameLength(s, s');
    forall i, j | 0 <= i < j < |s'| ensures Key(s'[i]) != Key(s'[j]) {
      TwiceIn(s', i, j);
      UniqueOnce(s, s'[i]);
      assert s'[i] in s && s'[j] in s;
      var p :| 0 <= p < |s| && s[p] == s'[i];
      var q :| 0 <= q < |s| && s[q] == s'[j];
    }
  }

  lemma TwiceIn(s: Txs, i: nat, j: nat)
    requires i < j < |s|
    ensures s[i] == s[j] ==> multiset(s)[s[i]] >= 2
  {
    assert s == s[..i] + [s[i]] + s[i + 1..j] + [s[j]] + s[j + 1..];
  }

  // --- The concatenated order ---

  function G(h: Hash, t: StablecoinTx): nat {
    h(t.ConflictDomain())
  }

  /** The order inside a group: sender, then nonce, then transaction hash. */
  predicate Less(x: StablecoinTx, y: StablecoinTx) {
    || x.Sender() < y.Sender()
    || (x.Sender() == y.Sender() && (x.nonce < y.nonce || (x.nonce == y.nonce && x.txHash < y.txHash)))
  }

  predicate Before(h: Hash, x: StablecoinTx, y: StablecoinTx) {
    G(h, x) < G(h, y) || (G(h, x) == G(h, y) && Less(x, y))
  }

  ghost predicate Sorted(h: Hash, s: Txs) {
    forall i, j | 0 <= i < j < |s| :: Before(h, s[i], s[j])
  }

  /** Ascending in domain hash, sender, nonce and transaction hash, compared in this order. */
  ghost predicate Ascending(h: Hash, s: Txs) {
    forall i, j | 0 <= i < j < |s| ::
      var x, y := s[i], s[j];
      if h(x.ConflictDomain()) != h(y.ConflictDomain()) then h(x.ConflictDomain()) < h(y.ConflictDomain())
      else AscendingIn(x, y)
  }

  /** Ascending in sender, nonce and transaction hash, compared in this order. */
  predicate AscendingIn(x: StablecoinTx, y: StablecoinTx) {
    if x.Sender() != y.Sender() then x.Sender() < y.Sender()
    else if x.nonce != y.nonce then x.nonce < y.nonce
    else x.txHash < y.txHash
  }

  lemma SameHead(h: Hash, s: Txs, s': Txs)
    requires Sorted(h, s) && Sorted(h, s') && s != [] && s' != [] && s[0] in s' && s'[0] in s
    ensures s[0] == s'[0]
  {
    var i :| 0 <= i < |s'| && s'[i] == s[0];
    var j :| 0 <= j < |s| && s[j] == s'[0];
    assert i == 0 || j == 0;
  }

  lemma TailsEqual(s: Txs, s': Txs)
    requires s != [] && s' != [] && s[0] == s'[0] && multiset(s) == multiset(s')
    ensures multiset(s[1..]) == multiset(s'[1..])
  {
    assert s == [s[0]] + s[1..] && s' == [s'[0]] + s'[1..];
    assert multiset(s[1..]) == multiset(s) - multiset{s[0]};
  }

  lemma SameLength(s: Txs, s': Txs)
    requires multiset(s) == multiset(s')
    ensures |s| == |s'| && forall t :: t in s <==> t in s'
  {
    assert |s| == |multiset(s)| && |s'| == |multiset(s')|;
    assert forall t :: t in s <==> t in multiset(s);
    assert forall t :: t in s' <==> t in multiset(s');
  }

  /** A list is determined by its elements and being sorted. */
  lemma {:induction false} SortedUnique(h: Hash, s: Txs, s': Txs)
    requires Sorted(h, s) && Sorted(h, s') && multiset(s) == multiset(s')
    ensures s == s'
  {
    SameLength(s, s');
    if s == [] {
    } else {
      SameHead(h, s, s');
      TailsEqual(s, s');
      SortedUnique(h, s[1..], s'[1..]);
      assert s == [s[0]] + s[1..] && s' == [s'[0]] + s'[1..];
    }
  }

  ghost function InsertSorted(h: Hash, s: Txs, x: StablecoinTx): Txs {
    if s != [] && Before(h, x, s[|s| - 1]) then InsertSorted(h, s[..|s| - 1], x) + [s[|s| - 1]]
    else s + [x]
  }

  /** The transactions in order of (domain hash, sender, nonce, transaction hash). */
  ghost function InOrder(h: Hash, s: Txs): Txs {
    if s == [] then [] else InsertSorted(h, InOrder(h, s[..|s| - 1]), s[|s| - 1])
  }

  lemma AppendSorted(h: Hash, r: Txs, t: StablecoinTx)
    requires Sorted(h, r) && forall u | u in r :: Before(h, u, t)
    ensures Sorted(h, r + [t])
  {
  }

  lemma {:induction false} InsertSortedKeeps(h: Hash, s: Txs, x: StablecoinTx)
    requires Sorted(h, s) && forall t | t in s :: Key(t) != Key(x)
    ensures Sorted(h, InsertSorted(h, s, x)) && multiset(InsertSorted(h, s, x)) == multiset(s) + multiset{x}
    ensures forall t | t in InsertSorted(h, s, x) :: t == x || t in s
  {
    if s == [] {
    } else {
      var init, t := s[..|s| - 1], s[|s| - 1];
      assert s == init + [t];
      if Before(h, x, t) {
        InsertSortedKeeps(h, init, x);
        AppendSorted(h, InsertSorted(h, init, x), t);
      } else {
        AppendSorted(h, s, x);
      }
    }
  }

  lemma {:induction false} InOrderSorted(h: Hash, s: Txs)
    requires UniqueKeys(s)
    ensures Sorted(h, InOrder(h, s)) && multiset(InOrder(h, s)) == multiset(s)
  {
    if s == [] {
    } else {
      var init, t := s[..|s| - 1], s[|s| - 1];
      InOrderSorted(h, init);
      assert s == init + [t];
      SameLength(InOrder(h, init), init);
      InsertSortedKeeps(h, InOrder(h, init), t);
    }
  }

  /** cado_ordering, as a function of the list it is given. */
  ghost function Concatenated(h: Hash, s: Txs): Txs {
    InOrder(h, Dedup(s))
  }

  /** The output is a permutation of the first occurrences, in order of hash, sender, nonce and transaction hash. */
  lemma ConcatenatedMeaning(h: Hash, s: Txs)
    ensures multiset(Concatenated(h, s)) == multiset(Dedup(s))
    ensures Sorted(h, Concatenated(h, s)) && Ascending(h, Concatenated(h, s))
  {
    DedupUnique(s);
    InOrderSorted(h, Dedup(s));
  }

  /** What a permutation of the retained transactions holds: the first of every sender and nonce, once. */
  lemma RetainedExact(s: Txs, r: Txs)
    requires multiset(r) == multiset(Dedup(s))
    ensures UniqueKeys(r) && forall t :: t in r <==> First(s, t)
  {
    DedupUnique(s);
    PermutedUnique(Dedup(s), r);
    SameLength(Dedup(s), r);
    forall t ensures t in r <==> First(s, t) {
      DedupExact(s, t);
    }
  }

  // --- The order of arrival does not matter ---

  /** Transactions of the same sender and nonce are the same transaction. */
  ghost predicate Consistent(s: Txs) {
    forall t, u | t in s && u in s && t.Sender() == u.Sender() && t.nonce == u.nonce :: t == u
  }

  lemma ConsistentDedup(s: Txs, t: StablecoinTx)
    requires Consistent(s)
    ensures t in Dedup(s) <==> t in s
  {
    DedupUnique(s);
    if t in s {
      assert Key(t) in KeysOf(Dedup(s));
      var u :| u in Dedup(s) && Key(u) == Key(t);
    }
  }

  lemma PermutedDedup(s: Txs, s': Txs)
    requires Consistent(s) && multiset(s) == multiset(s')
    ensures multiset(Dedup(s)) == multiset(Dedup(s'))
  {
    SameLength(s, s');
    forall t ensures t in Dedup(s) <==> t in Dedup(s') {
      ConsistentDedup(s, t);
      ConsistentDedup(s', t);
    }
    DedupUnique(s);
    DedupUnique(s');
    SameElements(Dedup(s), Dedup(s'));
  }

  lemma SameOrder(h: Hash, s: Txs, s': Txs)
    requires UniqueKeys(s) && UniqueKeys(s') && multiset(s) == multiset(s')
    ensures InOrder(h, s) == InOrder(h, s')
  {
    InOrderSorted(h, s);
    InOrderSorted(h, s');
    SortedUnique(h, InOrder(h, s), InOrder(h, s'));
  }

  function ToFront(s: Txs, p: nat): Txs
    requires p < |s|
  {
    [s[p]] + s[..p] + s[p + 1..]
  }

  lemma ToFrontPermutes(s: Txs, p: nat)
    requires p < |s|
    ensures multiset(ToFront(s, p)) == multiset(s)
  {
    assert s == s[..p] + [s[p]] + s[p + 1..];
  }

  /** Two different transactions of one key: the one that comes first survives. */
  lemma OrderMatters(s: Txs) returns (s': Txs)
    requires !Consistent(s)
    ensures multiset(s') == multiset(s) && multiset(Dedup(s')) != multiset(Dedup(s))
  {
    var t, u :| t in s && u in s && Key(t) == Key(u) && t != u;
    DedupUnique(s);
    OneOfKey(Dedup(s), t, u);
    var x := if t in Dedup(s) then u else t;
    var p :| 0 <= p < |s| && s[p] == x;
    s' := ToFront(s, p);
    ToFrontPermutes(s, p);
    assert s'[0] == x && FirstAt(s', 0);
    DedupExact(s', x);
    assert x in multiset(Dedup(s')) && x !in multiset(Dedup(s));
  }

  lemma OneOfKey(s: Txs, t: StablecoinTx, u: StablecoinTx)
    requires UniqueKeys(s) && Key(t) == Key(u) && t != u
    ensures !(t in s && u in s)
  {
  }

  /** cado_ordering gives one result for all orders of arrival exactly when no key has two different transactions. */
  lemma ConcatenatedCanonicalIff(h: Hash, s: Txs)
    ensures Consistent(s) <==> forall s': Txs | multiset(s') == multiset(s) :: Concatenated(h, s') == Concatenated(h, s)
  {
    DedupUnique(s);
    ConcatenatedMeaning(h, s);
    if Consistent(s) {
      forall s': Txs | multiset(s') == multiset(s) ensures Concatenated(h, s') == Concatenated(h, s) {
        PermutedDedup(s, s');
        DedupUnique(s');
        SameOrder(h, Dedup(s), Dedup(s'));
      }
    } else {
      var s' := OrderMatters(s);
      ConcatenatedMeaning(h, s');
      assert Concatenated(h, s') != Concatenated(h, s);
    }
  }

  /** With distinct keys nothing is dropped and no order of arrival matters. */
  lemma DistinctIsCanonical(h: Hash, s: Txs, s': Txs)
    requires UniqueKeys(s) && multiset(s) == multiset(s')
    ensures Dedup(s) == s && multiset(Concatenated(h, s)) == multiset(s) && Concatenated(h, s') == Concatenated(h, s)
  {
    DedupAll(s);
    PermutedUnique(s, s');
    DedupAll(s');
    SameOrder(h, s, s');
    ConcatenatedMeaning(h, s);
  }
}
