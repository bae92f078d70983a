/**
 Recovery of the block tree from storage: finding the root, and pruning what
 does not descend from it in one pass.
 */
module Recovery {
  import opened State
  import Sorting

  datatype Block = Block(id: nat, parent: nat, epoch: nat, round: nat)

  /** A certificate: the block it certifies and the block it commits. */
  datatype Cert = Cert(certified: nat, commit: nat, signatures: nat)

  /** The latest ledger info of the storage; at the end of an epoch it stands for a virtual genesis block. */
  datatype Ledger = Ledger(block: nat, genesis: Option<(Block, Cert)>)

  datatype RootInfo = RootInfo(block: Block, quorumCert: Cert, orderedCert: Cert)

  datatype Found = Found(root: RootInfo) | NoRoot | NoQuorumCert | NoOrderedCert

  function RootId(l: Ledger): nat {
    if l.genesis.Some? then l.genesis.value.0.id else l.block
  }

  function AllBlocks(l: Ledger, blocks: seq<Block>): seq<Block> {
    blocks + if l.genesis.Some? then [l.genesis.value.0] else []
  }

  function AllCerts(l: Ledger, certs: seq<Cert>): seq<Cert> {
    certs + if l.genesis.Some? then [l.genesis.value.1] else []
  }

  /** The key the blocks are sorted by. */
  predicate Earlier(x: Block, y: Block) {
    x.epoch < y.epoch || (x.epoch == y.epoch && x.round < y.round)
  }

  /** Ascending in (epoch, round). */
  ghost predicate SortedBlocks(s: seq<Block>) {
    forall i, j | 0 <= i < j < |s| ::
      s[i].epoch < s[j].epoch || (s[i].epoch == s[j].epoch && s[i].round <= s[j].round)
  }

  // --- Finding the root ---

  /** The first certificate for which `p` holds. */
  ghost predicate FirstCert(certs: seq<Cert>, p: Cert -> bool, c: Cert) {
    exists i :: 0 <= i < |certs| && certs[i] == c && p(c) && forall j | 0 <= j < i :: !p(certs[j])
  }

  function Certifies(id: nat): Cert -> bool {
    (c: Cert) => c.certified == id
  }

  function Commits(id: nat): Cert -> bool {
    (c: Cert) => c.commit == id
  }

  method FindCert(certs: seq<Cert>, p: Cert -> bool) returns (c: Option<Cert>)
    ensures c.Some? ==> FirstCert(certs, p, c.value)
    ensures c.None? ==> forall x | x in certs :: !p(x)
  {
    for i := 0 to |certs|
      invariant forall j | 0 <= j < i :: !p(certs[j])
    {
      if p(certs[i]) { return Some(certs[i]); }
    }
    c := None;
  }

  method SortBlocks(s: seq<Block>) returns (r: seq<Block>)
    ensures SortedBlocks(r) && multiset(r) == multiset(s)
  {
    r := Sorting.Sort(s, Earlier);
    forall i, j | 0 <= i < j < |r| ensures !Earlier(r[j], r[i]) {
    }
  }

  lemma RemoveAt(s: seq<Block>, i: nat)
    requires i < |s| && SortedBlocks(s)
    ensures SortedBlocks(s[..i] + s[i + 1..]) && multiset(s[..i] + s[i + 1..]) + multiset{s[i]} == multiset(s)
  {
    assert s == s[..i] + [s[i]] + s[i + 1..];
    var r := s[..i] + s[i + 1..];
    forall a, b | 0 <= a < b < |r| ensures !Earlier(r[b], r[a]) {
      assert r[a] == s[if a < i then a else a + 1] && r[b] == s[if b < i then b else b + 1];
    }
  }

  lemma SameMembers(s: seq<Block>, s': seq<Block>)
    requires multiset(s) == multiset(s')
    ensures forall b :: b in s <==> b in s'
  {
    assert forall b :: b in s <==> b in multiset(s);
    assert forall b :: b in s' <==> b in multiset(s');
  }

  /** Everything but the root, in order. */
  ghost predicate Rest(all: seq<Block>, root: Block, rest: seq<Block>) {
    SortedBlocks(rest) && multiset(rest) + multiset{root} == multiset(all)
  }

  /**
   find_root: the block with the root's id, its certificate and the certificate
   that commits it, or which of them is missing.
   */
  method FindRoot(l: Ledger, blocks: seq<Block>, certs: seq<Cert>)
    returns (r: Found, rest: seq<Block>, certs': seq<Cert>)
    ensures certs' == AllCerts(l, certs)
    ensures r.NoRoot? <==> forall b | b in AllBlocks(l, blocks) :: b.id != RootId(l)
    ensures r.NoQuorumCert? <==> !r.NoRoot? && forall c | c in certs' :: c.certified != RootId(l)
    ensures r.NoOrderedCert? <==> !r.NoRoot? && !r.NoQuorumCert? && forall c | c in certs' :: c.commit != RootId(l)
    ensures r.Found? ==> r.root.block.id == RootId(l) && Rest(AllBlocks(l, blocks), r.root.block, rest)
    ensures l.genesis.None? ==> (r.NoRoot? <==> forall b | b in blocks :: b.id != l.block)
    ensures l.genesis.None? && r.Found? ==> r.root.block in blocks && r.root.block.id == l.block
    ensures l.genesis.Some? ==> !r.NoRoot?
    ensures l.genesis.Some? && r.Found? ==> r.root.block.id == l.genesis.value.0.id
    ensures r.Found? ==> FirstCert(certs', Certifies(RootId(l)), r.root.quorumCert)
    ensures r.Found? ==> FirstCert(certs', Commits(RootId(l)), r.root.orderedCert)
  {
    var all := AllBlocks(l, blocks);
    certs' := AllCerts(l, certs);
    rest := SortBlocks(all);
    SameMembers(rest, all);
    var i := 0;
    while i < |rest| && rest[i].id != RootId(l)
      invariant i <= |rest| && forall j | 0 <= j < i :: rest[j].id != RootId(l)
    {
      i := i + 1;
    }
    if i == |rest| { return NoRoot, rest, certs'; }
    var root := rest[i];
    assert root in all;
    RemoveAt(rest, i);
    rest := rest[..i] + rest[i + 1..];
    var quorumCert := FindCert(certs', Certifies(RootId(l)));
    if quorumCert.None? { return NoQuorumCert, rest, certs'; }
    var orderedCert := FindCert(certs', Commits(RootId(l)));
    if orderedCert.None? { return NoOrderedCert, rest, certs'; }
    r := Found(RootInfo(root, quorumCert.value, orderedCert.value));
  }

  // --- Pruning ---

  /** The ids that hang together with the root, in one pass from left to right. */
  ghost function Tree(root: nat, bs: seq<Block>): set<nat> {
    if bs == [] then {root}
    else
      var tree, b := Tree(root, bs[..|bs| - 1]), bs[|bs| - 1];
      if b.parent in tree then tree + {b.id} else tree
  }

  ghost function Kept(root: nat, bs: seq<Block>): seq<Block> {
    if bs == [] then []
    else
      var init, b := bs[..|bs| - 1], bs[|bs| - 1];
      Kept(root, init) + if b.parent in Tree(root, init) then [b] else []
  }

  ghost function Removed(root: nat, bs: seq<Block>): seq<nat> {
    if bs == [] then []
    else
      var init, b := bs[..|bs| - 1], bs[|bs| - 1];
      Removed(root, init) + if b.parent in Tree(root, init) then [] else [b.id]
  }

  ghost function CertsIn(certs: seq<Cert>, tree: set<nat>): seq<Cert> {
    if certs == [] then []
    else CertsIn(certs[..|certs| - 1], tree) + if certs[|certs| - 1].certified in tree then [certs[|certs| - 1]] else []
  }

  /** find_blocks_to_prune. */
  method FindBlocksToPrune(root: nat, bs: seq<Block>, certs: seq<Cert>)
    returns (kept: seq<Block>, keptCerts: seq<Cert>, toRemove: seq<nat>)
    ensures kept == Kept(root, bs) && toRemove == Removed(root, bs) && keptCerts == CertsIn(certs, Tree(root, bs))
  {
    var tree := {root};
    kept, keptCerts, toRemove := [], [], [];
    for i := 0 to |bs|
      invariant tree == Tree(root, bs[..i]) && kept == Kept(root, bs[..i]) && toRemove == Removed(root, bs[..i])
    {
      assert bs[..i + 1][..i] == bs[..i];
      if bs[i].parent in tree {
        tree := tree + {bs[i].id};
        kept := kept + [bs[i]];
      } else {
        toRemove := toRemove + [bs[i].id];
      }
    }
    assert bs[..|bs|] == bs;
    for i := 0 to |certs|
      invariant keptCerts == CertsIn(certs[..i], tree)
    {
      assert certs[..i + 1][..i] == certs[..i];
      if certs[i].certified in tree { keptCerts := keptCerts + [certs[i]]; }
    }
    assert certs[..|certs|] == certs;
  }

  /** `b` reaches the root in `n` further steps from parent to parent. */
  ghost predicate ReachesIn(bs: seq<Block>, root: nat, b: Block, n: nat)
    decreases n
  {
    if n == 0 then b.parent == root
    else exists c | c in bs :: c.id == b.parent && ReachesIn(bs, root, c, n - 1)
  }

  /** The parent chain of `b` reaches the root. */
  ghost predicate Descends(bs: seq<Block>, root: nat, b: Block) {
    exists n: nat :: ReachesIn(bs, root, b, n)
  }

  /** Parents have a smaller (epoch, round) than their children. */
  ghost predicate ParentsEarlier(bs: seq<Block>) {
    forall b, c | b in bs && c in bs && c.id == b.parent ::
      c.epoch < b.epoch || (c.epoch == b.epoch && c.round < b.round)
  }

  lemma {:induction false} ReachesMore(bs: seq<Block>, bs': seq<Block>, root: nat, b: Block, n: nat)
    requires ReachesIn(bs, root, b, n) && forall c | c in bs :: c in bs'
    ensures ReachesIn(bs', root, b, n)
    decreases n
  {
    if n == 0 {
    } else {
      var c :| c in bs && c.id == b.parent && ReachesIn(bs, root, c, n - 1);
      ReachesMore(bs, bs', root, c, n - 1);
    }
  }

  lemma DescendsStep(bs: seq<Block>, root: nat, b: Block, c: Block)
    requires c in bs && c.id == b.parent && Descends(bs, root, c)
    ensures Descends(bs, root, b)
  {
    var n: nat :| ReachesIn(bs, root, c, n);
    assert ReachesIn(bs, root, b, n + 1);
  }

  lemma DescendsMore(bs: seq<Block>, bs': seq<Block>, root: nat, b: Block)
    requires Descends(bs, root, b) && forall c | c in bs :: c in bs'
    ensures Descends(bs', root, b)
  {
    var n: nat :| ReachesIn(bs, root, b, n);
    ReachesMore(bs, bs', root, b, n);
  }

  lemma {:induction false} ParentInTree(root: nat, init: seq<Block>, bs: seq<Block>, b: Block)
    requires b.parent in Tree(root, init) && forall c | c in init :: c in bs
    ensures Descends(bs, root, b)
    decreases |init|
  {
    if b.parent == root {
      assert ReachesIn(bs, root, b, 0);
    } else {
      var p, c := init[..|init| - 1], init[|init| - 1];
      if b.parent in Tree(root, p) {
        ParentInTree(root, p, bs, b);
      } else {
        ParentInTree(root, p, bs, c);
        DescendsStep(bs, root, b, c);
      }
    }
  }

  lemma {:induction false} TreeGrows(root: nat, bs: seq<Block>, i: nat)
    requires i <= |bs|
    ensures Tree(root, bs[..i]) <= Tree(root, bs) && root in Tree(root, bs)
  {
    if i < |bs| {
      TreeGrows(root, bs[..|bs| - 1], i);
      assert bs[..|bs| - 1][..i] == bs[..i];
    } else {
      assert bs[..i] == bs;
      if bs != [] { TreeGrows(root, bs[..|bs| - 1], |bs| - 1); }
    }
  }

  /** A parent comes before its child. */
  lemma ParentAt(bs: seq<Block>, i: nat, c: Block) returns (k: nat)
    requires SortedBlocks(bs) && ParentsEarlier(bs) && i < |bs| && c in bs && c.id == bs[i].parent
    ensures k < i && bs[k] == c
  {
    k :| k < |bs| && bs[k] == c;
  }

  /** Whatever descends from the root is reached by the pass before its turn. */
  lemma {:induction false} DescendantInTime(root: nat, bs: seq<Block>, i: nat, n: nat)
    requires SortedBlocks(bs) && ParentsEarlier(bs) && i < |bs| && ReachesIn(bs, root, bs[i], n)
    ensures bs[i].parent in Tree(root, bs[..i])
    decreases n
  {
    if n == 0 {
      TreeGrows(root, bs[..i], 0);
    } else {
      var c :| c in bs && c.id == bs[i].parent && ReachesIn(bs, root, c, n - 1);
      var k := ParentAt(bs, i, c);
      DescendantInTime(root, bs, k, n - 1);
      TreeTakes(root, bs, k, i);
    }
  }

  lemma TreeTakes(root: nat, bs: seq<Block>, k: nat, i: nat)
    requires k < i <= |bs| && bs[k].parent in Tree(root, bs[..k])
    ensures bs[k].id in Tree(root, bs[..i])
  {
    assert bs[..k + 1][..k] == bs[..k];
    assert bs[k].id in Tree(root, bs[..k + 1]);
    TreeGrows(root, bs[..i], k + 1);
    assert bs[..i][..k + 1] == bs[..k + 1];
  }

  /** Block `b` at position `i` finds its parent in the tree built so far. */
  ghost predicate TakenAt(root: nat, bs: seq<Block>, b: Block, i: nat) {
    i < |bs| && bs[i] == b && b.parent in Tree(root, bs[..i])
  }

  lemma TakenBefore(root: nat, bs: seq<Block>, b: Block, i: nat)
    requires bs != [] && i < |bs| - 1
    ensures TakenAt(root, bs[..|bs| - 1], b, i) <==> TakenAt(root, bs, b, i)
  {
    assert bs[..|bs| - 1][..i] == bs[..i];
  }

  lemma {:induction false} KeptAt(root: nat, bs: seq<Block>, b: Block)
    ensures b in Kept(root, bs) <==> exists i: nat :: TakenAt(root, bs, b, i)
  {
    if bs == [] {
    } else {
      var init, last := bs[..|bs| - 1], bs[|bs| - 1];
      KeptAt(root, init, b);
      forall i: nat | i < |init| ensures TakenAt(root, init, b, i) <==> TakenAt(root, bs, b, i) {
        TakenBefore(root, bs, b, i);
      }
      assert TakenAt(root, bs, b, |init|) <==> last == b && b.parent in Tree(root, init);
    }
  }

  /** One pass keeps precisely the blocks whose parent chain reaches the root. */
  lemma KeptExact(root: nat, bs: seq<Block>, b: Block)
    requires SortedBlocks(bs) && ParentsEarlier(bs)
    ensures b in Kept(root, bs) <==> b in bs && Descends(bs, root, b)
  {
    KeptAt(root, bs, b);
    if b in bs && Descends(bs, root, b) {
      var i :| 0 <= i < |bs| && bs[i] == b;
      var n: nat :| ReachesIn(bs, root, b, n);
      DescendantInTime(root, bs, i, n);
      assert TakenAt(root, bs, b, i);
    }
    if i: nat :| TakenAt(root, bs, b, i) {
      ParentInTree(root, bs[..i], bs, b);
    }
  }

  lemma {:induction false} RemovedAt(root: nat, bs: seq<Block>, x: nat)
    ensures x in Removed(root, bs) <==> exists i ::
            0 <= i < |bs| && bs[i].id == x && bs[i].parent !in Tree(root, bs[..i])
  {
    if bs == [] {
    } else {
      var init := bs[..|bs| - 1];
      RemovedAt(root, init, x);
      assert forall i | 0 <= i < |init| :: init[..i] == bs[..i];
      assert bs[..|init|] == init;
    }
  }

  ghost predicate UniqueIds(bs: seq<Block>) {
    forall b, c | b in bs && c in bs && b.id == c.id :: b == c
  }

  /** It lists precisely the others for removal. */
  lemma RemovedExact(root: nat, bs: seq<Block>, x: nat)
    requires SortedBlocks(bs) && ParentsEarlier(bs)
    ensures x in Removed(root, bs) <==> exists b | b in bs :: b.id == x && !Descends(bs, root, b)
  {
    RemovedAt(root, bs, x);
    if x in Removed(root, bs) {
      var i :| 0 <= i < |bs| && bs[i].id == x && bs[i].parent !in Tree(root, bs[..i]);
      if Descends(bs, root, bs[i]) {
        var n: nat :| ReachesIn(bs, root, bs[i], n);
        DescendantInTime(root, bs, i, n);
      }
    }
    if b :| b in bs && b.id == x && !Descends(bs, root, b) {
      var i :| 0 <= i < |bs| && bs[i] == b;
      if b.parent in Tree(root, bs[..i]) { ParentInTree(root, bs[..i], bs, b); }
    }
  }

  /** The tree is the root and the kept blocks. */
  lemma {:induction false} TreeExact(root: nat, bs: seq<Block>, x: nat)
    ensures x in Tree(root, bs) <==> x == root || exists b | b in Kept(root, bs) :: b.id == x
  {
    if bs == [] {
    } else {
      TreeExact(root, bs[..|bs| - 1], x);
      if bs[|bs| - 1].parent in Tree(root, bs[..|bs| - 1]) { assert bs[|bs| - 1] in Kept(root, bs); }
    }
  }

  lemma {:induction false} CertsExact(certs: seq<Cert>, tree: set<nat>, c: Cert)
    ensures c in CertsIn(certs, tree) <==> c in certs && c.certified in tree
  {
    if certs == [] {
    } else {
      CertsExact(certs[..|certs| - 1], tree, c);
    }
  }

  /** Each parent is the root or comes earlier in the list. */
  ghost predicate Topological(root: nat, bs: seq<Block>) {
    forall j | 0 <= j < |bs| :: bs[j].parent == root || exists i :: 0 <= i < j && bs[i].id == bs[j].parent
  }

  /** What one pass keeps is in topological order, and still sorted. */
  lemma {:induction false} KeptInOrder(root: nat, bs: seq<Block>)
    requires SortedBlocks(bs)
    ensures Topological(root, Kept(root, bs)) && SortedBlocks(Kept(root, bs))
    ensures forall b | b in Kept(root, bs) :: b in bs
  {
    if bs == [] {
    } else {
      var init, b := bs[..|bs| - 1], bs[|bs| - 1];
      KeptInOrder(root, init);
      TreeExact(root, init, b.parent);
      var kept := Kept(root, init);
      forall x | x in kept ensures !Earlier(b, x) {
        var i :| 0 <= i < |init| && init[i] == x;
        assert bs[i] == x;
      }
      if b.parent in Tree(root, init) {
        KeptAppend(root, kept, b);
      } else {
        assert Kept(root, bs) == kept;
      }
    }
  }

  lemma KeptAppend(root: nat, kept: seq<Block>, b: Block)
    requires Topological(root, kept) && SortedBlocks(kept) && forall x | x in kept :: !Earlier(b, x)
    requires b.parent == root || exists c | c in kept :: c.id == b.parent
    ensures Topological(root, kept + [b]) && SortedBlocks(kept + [b])
  {
    var more := kept + [b];
    forall j | 0 <= j < |more|
      ensures more[j].parent == root || exists i :: 0 <= i < j && more[i].id == more[j].parent
    {
      if j < |kept| {
        if kept[j].parent != root {
          var i :| 0 <= i < j && kept[i].id == kept[j].parent;
          assert more[i].id == more[j].parent;
        }
      } else if b.parent != root {
        var c :| c in kept && c.id == b.parent;
        var i :| 0 <= i < |kept| && kept[i] == c;
        assert more[i].id == more[j].parent;
      }
    }
    forall i, j | 0 <= i < j < |more| ensures !Earlier(more[j], more[i]) {
      assert more[i] in kept;
    }
  }

  // --- Recovery as a whole ---

  /** Taking the root out of the list does not cut any chain to it. */
  lemma {:induction false} RootNotNeeded(all: seq<Block>, root: Block, rest: seq<Block>, b: Block, n: nat)
    requires Rest(all, root, rest) && ReachesIn(all, root.id, b, n)
    ensures Descends(rest, root.id, b)
    decreases n
  {
    if n == 0 {
      assert ReachesIn(rest, root.id, b, 0);
    } else {
      var c :| c in all && c.id == b.parent && ReachesIn(all, root.id, c, n - 1);
      assert c in multiset(all);
      if c in rest {
        RootNotNeeded(all, root, rest, c, n - 1);
        DescendsStep(rest, root.id, b, c);
      } else {
        assert c == root;
        assert ReachesIn(rest, root.id, b, 0);
      }
    }
  }

  lemma RestDescends(all: seq<Block>, root: Block, rest: seq<Block>, b: Block)
    requires Rest(all, root, rest)
    ensures Descends(rest, root.id, b) <==> Descends(all, root.id, b)
  {
    if Descends(all, root.id, b) {
      var n: nat :| ReachesIn(all, root.id, b, n);
      RootNotNeeded(all, root, rest, b, n);
    }
    if Descends(rest, root.id, b) {
      RestMember(all, root, rest);
      DescendsMore(rest, all, root.id, b);
    }
  }

  lemma RestMember(all: seq<Block>, root: Block, rest: seq<Block>)
    requires Rest(all, root, rest)
    ensures forall c | c in rest :: c in all
  {
    forall c | c in rest ensures c in all {
      assert c in multiset(rest);
      assert c in multiset(all);
    }
  }

  datatype Recovered =
    | Recovered(root: RootInfo, blocks: seq<Block>, certs: seq<Cert>, toPrune: seq<nat>)
    | Failed(why: Found)

  /** What recovery keeps and what it lists for removal. */
  ghost predicate PrunedExactly(all: seq<Block>, certs: seq<Cert>, rest: seq<Block>, r: Recovered)
    requires r.Recovered?
  {
    var root := r.root.block.id;
    && (forall b :: b in r.blocks <==> b in rest && Descends(all, root, b))
    && (forall x :: x in r.toPrune <==> exists b | b in rest :: b.id == x && !Descends(all, root, b))
    && (forall c :: c in r.certs <==>
        c in certs && (c.certified == root || exists b | b in r.blocks :: b.id == c.certified))
  }

  /** The ledger ends an epoch: the genesis of the next one comes with the certificate that certifies and commits it. */
  predicate EpochEnd(l: Ledger) {
    && l.genesis.Some?
    && l.genesis.value.1.certified == l.genesis.value.0.id && l.genesis.value.1.commit == l.genesis.value.0.id
  }

  /**
   RecoveryData::new up to the pruned lists. At the end of an epoch it always
   succeeds, with the virtual genesis as its root.
   */
  method Recover(l: Ledger, blocks: seq<Block>, certs: seq<Cert>) returns (r: Recovered, ghost rest: seq<Block>)
    ensures r.Failed? ==> !r.why.Found?
    ensures r == Failed(NoRoot) <==> forall b | b in AllBlocks(l, blocks) :: b.id != RootId(l)
    ensures EpochEnd(l) ==> r.Recovered? && r.root.block.id == l.genesis.value.0.id
    ensures r.Recovered? && l.genesis.None? ==> r.root.block in blocks && r.root.block.id == l.block
    ensures r == Failed(NoQuorumCert) <==>
              r != Failed(NoRoot) && forall c | c in AllCerts(l, certs) :: c.certified != RootId(l)
    ensures r == Failed(NoOrderedCert) <==>
              && r != Failed(NoRoot) && r != Failed(NoQuorumCert)
              && forall c | c in AllCerts(l, certs) :: c.commit != RootId(l)
    ensures r.Recovered? ==> r.root.block.id == RootId(l) && Rest(AllBlocks(l, blocks), r.root.block, rest)
    ensures r.Recovered? ==> FirstCert(AllCerts(l, certs), Certifies(RootId(l)), r.root.quorumCert)
    ensures r.Recovered? ==> FirstCert(AllCerts(l, certs), Commits(RootId(l)), r.root.orderedCert)
    ensures r.Recovered? ==> Topological(RootId(l), r.blocks) && SortedBlocks(r.blocks)
    ensures r.Recovered? && ParentsEarlier(AllBlocks(l, blocks)) ==>
              PrunedExactly(AllBlocks(l, blocks), AllCerts(l, certs), rest, r)
    ensures r.Recovered? && ParentsEarlier(AllBlocks(l, blocks)) && UniqueIds(AllBlocks(l, blocks)) ==>
              forall b | b in r.blocks :: b.id !in r.toPrune
  {
    var found, others, allCerts := FindRoot(l, blocks, certs);
    rest := others;
    if !found.Found? { return Failed(found), rest; }
    var root := found.root.block;
    var kept, keptCerts, toPrune := FindBlocksToPrune(root.id, others, allCerts);
    r := Recovered(found.root, kept, keptCerts, toPrune);
    RestMember(AllBlocks(l, blocks), root, rest);
    KeptInOrder(root.id, rest);
    if ParentsEarlier(AllBlocks(l, blocks)) { PruneExact(AllBlocks(l, blocks), allCerts, rest, r); }
  }

  lemma PruneExact(all: seq<Block>, certs: seq<Cert>, rest: seq<Block>, r: Recovered)
    requires ParentsEarlier(all) && r.Recovered? && Rest(all, r.root.block, rest)
    requires var root := r.root.block.id;
             r.blocks == Kept(root, rest) && r.toPrune == Removed(root, rest) &&
             r.certs == CertsIn(certs, Tree(root, rest))
    ensures PrunedExactly(all, certs, rest, r)
  {
    var root := r.root.block.id;
    RestMember(all, r.root.block, rest);
    forall b ensures Descends(rest, root, b) <==> Descends(all, root, b) {
      RestDescends(all, r.root.block, rest, b);
    }
    forall b ensures b in r.blocks <==> b in rest && Descends(all, root, b) {
      KeptExact(root, rest, b);
    }
    forall x ensures x in r.toPrune <==> exists b | b in rest :: b.id == x && !Descends(all, root, b) {
      RemovedExact(root, rest, x);
    }
    forall c
      ensures c in r.certs <==>
              c in certs && (c.certified == root || exists b | b in r.blocks :: b.id == c.certified)
    {
      CertsExact(certs, Tree(root, rest), c);
      TreeExact(root, rest, c.certified);
    }
  }
}
