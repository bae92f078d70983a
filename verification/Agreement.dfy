/**
 Replicas that receive the same transactions in any order, and execute them in
 any interleaving, end in the same state.
 */
module Agreement {
  import opened State
  import opened Protocol
  import opened Runs
  import opened Serial
  import opened Stablecoin
  import opened HotDelta
  import opened Execution
  import opened Cado
  import opened Interleave
  import opened Rounds

  datatype CadoMode = Disabled | Concatenate | Interleaving

  /** cado_with_mode, as a function of the list it is given. */
  ghost function Ordered(mode: CadoMode, h: Hash, s: Txs): Txs {
    match mode
    case Disabled => s
    case Concatenate => Concatenated(h, s)
    case Interleaving => Interleaved(h, s)
  }

  /** What each mode does to a list. */
  lemma OrderedMeaning(mode: CadoMode, h: Hash, s: Txs)
    ensures var r := Ordered(mode, h, s);
            match mode
            case Disabled => r == s
            case Concatenate => Ascending(h, r)
            case Interleaving => AscendingInDomains(h, r) && forall p: nat, q: nat | p < q < |r| :: InRounds(h, r, p, q)
    ensures !mode.Disabled? ==>
              var r := Ordered(mode, h, s); UniqueKeys(r) && forall t :: t in r <==> First(s, t)
  {
    match mode
    case Disabled =>
    case Concatenate =>
      ConcatenatedMeaning(h, s);
      RetainedExact(s, Concatenated(h, s));
    case Interleaving =>
      InterleavedMeaning(h, s);
      RetainedExact(s, Interleaved(h, s));
      forall p: nat, q: nat | p < q < |Interleaved(h, s)| ensures InRounds(h, Interleaved(h, s), p, q) {
        InterleavedInRounds(h, s, p, q);
      }
  }

  lemma OrderedMembers(mode: CadoMode, h: Hash, s: Txs)
    ensures forall t | t in Ordered(mode, h, s) :: t in s
  {
    OrderedMeaning(mode, h, s);
  }

  /** The condition of the theorems below is met if no received transfer has the same account at both ends. */
  lemma NoSelfTransfersSuffices(mode: CadoMode, h: Hash, s: Txs)
    requires forall t | t in s :: !SelfTransfer(t)
    ensures NonePaysItself(0, Ordered(mode, h, s))
  {
    OrderedMembers(mode, h, s);
    forall i: nat | i < |Ordered(mode, h, s)| ensures !SelfTransfer(Ordered(mode, h, s)[i]) {
      assert Ordered(mode, h, s)[i] in s;
    }
  }

  /** The orderings do not depend on the order of arrival; without one, the orders of arrival must agree. */
  lemma SameOrdered(mode: CadoMode, h: Hash, s: Txs, s': Txs)
    requires multiset(s) == multiset(s') && (if mode.Disabled? then s == s' else Consistent(s))
    ensures Ordered(mode, h, s) == Ordered(mode, h, s')
  {
    if !mode.Disabled? {
      ConcatenatedCanonicalIff(h, s);
      InterleavedCanonicalIff(h, s);
    }
  }

  /** A replica: what it received, how it shards, how it executes, and a finished run. */
  datatype Replica = Replica(received: Txs, m: Manager, cf: Config, run: seq<System>)

  ghost predicate Finished(mode: CadoMode, h: Hash, p: Replica) {
    && p.cf.block == AsBlock(p.m, 0, Ordered(mode, h, p.received))
    && IsRun(p.cf, p.run) && Last(p.run).sh.done
  }

  /** The state a replica reports: the outputs of its run, with the shards folded. */
  ghost predicate Reports(p: Replica, bound: nat, state: Writes)
    requires |p.run| > 0
  {
    && Settled(p.cf, Last(p.run).sh)
    && var sharded := Replay(Outputs(Last(p.run).sh));
       ShardsBelow(sharded, bound) && forall k :: Get(state, k) == FoldGet(sharded, bound, k)
  }

  /** What one replica reports is the serial ledger of the ordered transactions. */
  lemma ReplicaIsLedger(mode: CadoMode, h: Hash, p: Replica, bound: nat, state: Writes)
    requires NonePaysItself(0, Ordered(mode, h, p.received)) && Finished(mode, h, p) && Reports(p, bound, state)
    ensures state == PlainLedger(0, Ordered(mode, h, p.received))
  {
    SerialEquivalence(p.cf, p.run);
    FoldedIsLedger(p.m, Ordered(mode, h, p.received), bound, state);
  }

  /**
   Two replicas that received the same transactions, in whatever order unless
   ordering is switched off, report the same state, whatever their hot accounts,
   shards, workers, windows, plans and interleavings.
   */
  lemma ReplicasAgree(
      mode: CadoMode, h: Hash, p: Replica, q: Replica, b: nat, c: nat, state: Writes, state': Writes)
    requires multiset(p.received) == multiset(q.received)
    requires if mode.Disabled? then p.received == q.received else Consistent(p.received)
    requires NonePaysItself(0, Ordered(mode, h, p.received))
    requires Finished(mode, h, p) && Reports(p, b, state) && Finished(mode, h, q) && Reports(q, c, state')
    ensures state == state' == PlainLedger(0, Ordered(mode, h, p.received))
  {
    SameOrdered(mode, h, p.received, q.received);
    ReplicaIsLedger(mode, h, p, b, state);
    ReplicaIsLedger(mode, h, q, c, state');
  }
}
