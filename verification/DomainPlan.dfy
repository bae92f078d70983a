/**
 The domain plan: the block cut into segments of one conflict domain, and the
 lookup table the scheduler uses.
 */
module DomainPlan {
  import opened Stablecoin

  const SUPPLY_KEY: nat := 0xFFFF_FFFF_FFFF_FFFF

  datatype Segment = Segment(start: nat, end: nat, domain: nat, writeKeys: set<nat>)

  datatype Plan = Plan(segments: seq<Segment>, parBound: seq<bool>)

  predicate TouchesSupply(t: StablecoinTx) {
    t.txType.Mint? || t.txType.Burn?
  }

  function WriteAccounts(t: StablecoinTx): set<nat> {
    {t.ConflictDomain()} + if TouchesSupply(t) then {SUPPLY_KEY} else {}
  }

  ghost predicate WritesOf(txs: seq<StablecoinTx>, lo: nat, hi: nat, keys: set<nat>)
    requires lo <= hi <= |txs|
  {
    forall k: nat :: k in keys <==> exists i :: lo <= i < hi && k in WriteAccounts(txs[i])
  }

  /** A segment covers its range: one domain, not too long, with the accounts it writes. */
  ghost predicate Covers(txs: seq<StablecoinTx>, lMax: nat, seg: Segment) {
    && seg.start < seg.end <= |txs|
    && seg.end - seg.start <= (if lMax > 1 then lMax else 1)
    && (forall i | seg.start <= i < seg.end :: txs[i].ConflictDomain() == seg.domain)
    && WritesOf(txs, seg.start, seg.end, seg.writeKeys)
  }

  /** A segment ends only at the end of the block, at a change of domain, or when it is full. */
  ghost predicate Stops(txs: seq<StablecoinTx>, lMax: nat, seg: Segment) {
    && seg.start <= seg.end <= |txs|
    && (seg.end < |txs| ==> txs[seg.end].ConflictDomain() != seg.domain || seg.end - seg.start >= lMax)
  }

  /** The segments tile the first `upto` transactions. */
  ghost predicate Tiles(segments: seq<Segment>, upto: nat) {
    && (segments == [] ==> upto == 0)
    && (segments != [] ==> segments[0].start == 0 && segments[|segments| - 1].end == upto)
    && (forall j | 0 <= j < |segments| :: segments[j].start < segments[j].end)
    && (forall j | 1 <= j < |segments| :: segments[j].start == segments[j - 1].end)
  }

  predicate Parallel(x: Segment, y: Segment) {
    y.domain == x.domain || y.writeKeys !! x.writeKeys
  }

  ghost predicate Planned(txs: seq<StablecoinTx>, lMax: nat, plan: Plan) {
    && Tiles(plan.segments, |txs|)
    && (forall j | 0 <= j < |plan.segments| ::
        Covers(txs, lMax, plan.segments[j]) && Stops(txs, lMax, plan.segments[j]))
    && |plan.parBound| == |plan.segments|
    && (forall j | 0 <= j < |plan.segments| ::
          plan.parBound[j] <==> j > 0 && Parallel(plan.segments[j - 1], plan.segments[j]))
  }

  /** Grows one segment from `start`. */
  method GrowSegment(txs: seq<StablecoinTx>, lMax: nat, start: nat) returns (seg: Segment)
    requires start < |txs|
    ensures seg.start == start && Covers(txs, lMax, seg) && Stops(txs, lMax, seg)
  {
    var domain := txs[start].ConflictDomain();
    var end := start + 1;
    while end < |txs| && txs[end].ConflictDomain() == domain && end - start < lMax
      invariant start < end <= |txs| && end - start <= (if lMax > 1 then lMax else 1)
      invariant forall i | start <= i < end :: txs[i].ConflictDomain() == domain
    {
      end := end + 1;
    }
    var keys := {};
    for i := start to end
      invariant WritesOf(txs, start, i, keys)
    {
      keys := keys + WriteAccounts(txs[i]);
    }
    seg := Segment(start, end, domain, keys);
  }

  lemma TilesAppend(segments: seq<Segment>, upto: nat, seg: Segment)
    requires Tiles(segments, upto) && seg.start == upto < seg.end
    ensures Tiles(segments + [seg], seg.end)
  {
  }

  /** The segments, from left to right. */
  method BuildSegments(txs: seq<StablecoinTx>, lMax: nat) returns (segments: seq<Segment>)
    ensures Tiles(segments, |txs|)
    ensures forall j | 0 <= j < |segments| :: Covers(txs, lMax, segments[j]) && Stops(txs, lMax, segments[j])
  {
    segments := [];
    var start := 0;
    while start < |txs|
      invariant start <= |txs| && Tiles(segments, start)
      invariant forall j | 0 <= j < |segments| :: Covers(txs, lMax, segments[j]) && Stops(txs, lMax, segments[j])
    {
      var seg := GrowSegment(txs, lMax, start);
      TilesAppend(segments, start, seg);
      segments := segments + [seg];
      start := seg.end;
    }
  }

  /** build_domain_plan. */
  method BuildDomainPlan(txs: seq<StablecoinTx>, lMax: nat) returns (plan: Plan)
    ensures Planned(txs, lMax, plan)
  {
    var segments := BuildSegments(txs, lMax);
    var parBound := seq(|segments|, _ => false);
    var j := 1;
    while j < |segments|
      invariant 1 <= j && |parBound| == |segments|
      invariant forall i | 0 <= i < |segments| :: parBound[i] <==> 0 < i < j && Parallel(segments[i - 1], segments[i])
    {
      parBound := parBound[j := Parallel(segments[j - 1], segments[j])];
      j := j + 1;
    }
    plan := Plan(segments, parBound);
  }

  // --- What a parallel boundary means ---

  ghost predicate SupplyIn(txs: seq<StablecoinTx>, seg: Segment)
    requires seg.start <= seg.end <= |txs|
  {
    exists i :: seg.start <= i < seg.end && TouchesSupply(txs[i])
  }

  lemma WriteKeysExact(txs: seq<StablecoinTx>, lMax: nat, seg: Segment, k: nat)
    requires Covers(txs, lMax, seg)
    ensures k in seg.writeKeys <==> k == seg.domain || (k == SUPPLY_KEY && SupplyIn(txs, seg))
  {
    if k == seg.domain {
      assert k in WriteAccounts(txs[seg.start]);
    } else if k == SUPPLY_KEY && SupplyIn(txs, seg) {
      var i :| seg.start <= i < seg.end && TouchesSupply(txs[i]);
      assert k in WriteAccounts(txs[i]);
    }
  }

  /**
   Two neighbours are parallel exactly when they split one domain, or their
   domains differ and the supply is not a common key of theirs. The largest
   account number stands for the supply.
   */
  lemma ParallelMeaning(txs: seq<StablecoinTx>, lMax: nat, x: Segment, y: Segment)
    requires Covers(txs, lMax, x) && Covers(txs, lMax, y)
    ensures Parallel(x, y) <==>
              y.domain == x.domain ||
              !(&& (SupplyIn(txs, x) || x.domain == 0xFFFF_FFFF_FFFF_FFFF)
                && (SupplyIn(txs, y) || y.domain == 0xFFFF_FFFF_FFFF_FFFF))
  {
    forall k: nat
      ensures k in x.writeKeys <==> k == x.domain || (k == SUPPLY_KEY && SupplyIn(txs, x))
      ensures k in y.writeKeys <==> k == y.domain || (k == SUPPLY_KEY && SupplyIn(txs, y))
    {
      WriteKeysExact(txs, lMax, x, k);
      WriteKeysExact(txs, lMax, y, k);
    }
    assert x.domain in x.writeKeys && y.domain in y.writeKeys;
    assert SUPPLY_KEY in x.writeKeys <==> SupplyIn(txs, x) || x.domain == SUPPLY_KEY;
    assert SUPPLY_KEY in y.writeKeys <==> SupplyIn(txs, y) || y.domain == SUPPLY_KEY;
  }

  // --- The lookup table ---

  /** The last segment that contains index `i`, or the number of segments. */
  function SegmentOf(segments: seq<Segment>, i: nat): nat
  {
    LastWith(segments, i, |segments|)
  }

  function LastWith(segments: seq<Segment>, i: nat, upto: nat): nat
    requires upto <= |segments|
  {
    if upto == 0 then |segments|
    else if segments[upto - 1].start <= i < segments[upto - 1].end then upto - 1
    else LastWith(segments, i, upto - 1)
  }

  /** segment_bounds. */
  function SegmentBounds(plan: Plan): seq<(nat, nat, bool)> {
    seq(|plan.segments|, j requires 0 <= j < |plan.segments| =>
      (plan.segments[j].start, plan.segments[j].end, j < |plan.parBound| && plan.parBound[j]))
  }

  /** txn_to_segment: fills a table, segment by segment. */
  method TxnToSegment(segments: seq<Segment>, n: nat) returns (table: seq<nat>)
    ensures |table| == n && forall i | 0 <= i < n :: table[i] == SegmentOf(segments, i)
  {
    var result := new nat[n](_ => |segments|);
    for j := 0 to |segments|
      invariant forall i | 0 <= i < n :: result[i] == LastWith(segments, i, j)
    {
      var stop := if segments[j].end < n then segments[j].end else n;
      var i := segments[j].start;
      while i < stop
        invariant segments[j].start <= i && (i <= stop || i == segments[j].start)
        invariant forall k | 0 <= k < n ::
                  result[k] == if segments[j].start <= k < i then j else LastWith(segments, k, j)
        decreases stop - i
      {
        result[i] := j;
        i := i + 1;
      }
    }
    table := result[..];
  }

  lemma {:induction false} LastWithFound(segments: seq<Segment>, i: nat, upto: nat, j: nat)
    requires j < upto <= |segments| && segments[j].start <= i < segments[j].end
    ensures j <= LastWith(segments, i, upto) < upto
  {
    if j < upto - 1 { LastWithFound(segments, i, upto - 1, j); }
  }

  lemma {:induction false} LastWithIn(segments: seq<Segment>, i: nat, upto: nat)
    requires upto <= |segments|
    ensures var j := LastWith(segments, i, upto);
            j <= |segments| && (j < |segments| ==> segments[j].start <= i < segments[j].end)
  {
    if upto == 0 {
    } else {
      LastWithIn(segments, i, upto - 1);
    }
  }

  lemma {:induction false} StartsAscend(segments: seq<Segment>, upto: nat, i: nat, j: nat)
    requires Tiles(segments, upto) && i < j < |segments|
    ensures segments[i].end <= segments[j].start
  {
    if i < j - 1 { StartsAscend(segments, upto, i, j - 1); }
  }

  /** Every index below the end of a tiling lies in some segment. */
  lemma {:induction false} Located(segments: seq<Segment>, upto: nat, i: nat)
    requires Tiles(segments, upto) && i < upto
    ensures exists j: nat :: j < |segments| && segments[j].start <= i < segments[j].end
  {
    var last := |segments| - 1;
    if i < segments[last].start {
      assert last > 0;
      Located(segments[..last], segments[last].start, i);
    }
  }

  /** The table sends the block onto the segments in order. */
  lemma SegmentOfMonotone(segments: seq<Segment>, upto: nat, i: nat, j: nat)
    requires Tiles(segments, upto) && i <= j
    ensures SegmentOf(segments, i) <= SegmentOf(segments, j) <= |segments|
    ensures SegmentOf(segments, j) == |segments| <==> j >= upto
  {
    LastWithIn(segments, i, |segments|);
    LastWithIn(segments, j, |segments|);
    if j < upto {
      Located(segments, upto, i);
      Located(segments, upto, j);
      var a: nat :| a < |segments| && segments[a].start <= i < segments[a].end;
      var b: nat :| b < |segments| && segments[b].start <= j < segments[b].end;
      LastWithFound(segments, i, |segments|, a);
      LastWithFound(segments, j, |segments|, b);
      var p, q := SegmentOf(segments, i), SegmentOf(segments, j);
      if q < p { StartsAscend(segments, upto, q, p); }
    } else if SegmentOf(segments, j) < |segments| - 1 {
      StartsAscend(segments, upto, SegmentOf(segments, j), |segments| - 1);
    }
  }
}
