/**
 Detection of hot receiver accounts and the number of shards they get.
 */
module Hotspots {
  import opened State
  import opened Stablecoin

  /** The account a transaction counts towards; InitBalance counts towards none. */
  function Receives(tx: StablecoinTx): Option<nat> {
    if tx.txType.InitBalance? then None else Some(tx.ConflictDomain())
  }

  function Freq(txs: seq<StablecoinTx>, a: nat): nat {
    if txs == [] then 0
    else Freq(txs[..|txs| - 1], a) + if Receives(txs[|txs| - 1]) == Some(a) then 1 else 0
  }

  function Min(x: int, y: int): int { if x <= y then x else y }

  function Max(x: int, y: int): int { if x <= y then y else x }

  /**
   The two floating-point operations of the interpolation: the quotient of two
   counters, and the product of a counter and a ratio.
   */
  datatype Floats = Floats(ratio: (nat, nat) -> real, times: (nat, real) -> real) {

    /** Both are monotone and keep zero, and a ratio is at most 1. */
    ghost predicate Valid() {
      && (forall m: nat, n: nat, d: nat | m <= n < d :: 0.0 <= ratio(m, d) <= ratio(n, d) <= 1.0)
      && (forall d: nat | d > 0 :: ratio(0, d) == 0.0)
      && (forall w: nat, r, s | 0.0 <= r <= s <= 1.0 :: 0.0 <= times(w, r) <= times(w, s))
      && (forall w: nat :: times(w, 0.0) == 0.0)
    }

    ghost predicate RatioNear(n: nat, d: nat, e: real)
      requires d > 0
    {
      n as real / d as real - e <= ratio(n, d) <= n as real / d as real + e
    }

    ghost predicate TimesNear(w: nat, r: real, e: real) {
      w as real * r - e <= times(w, r) <= w as real * r + e
    }

    /** For numbers up to `bound` neither is off by more than `e`. */
    ghost predicate Near(e: real, bound: nat) {
      && 0.0 <= e < 1.0
      && (forall n: nat, d: nat | n < d <= bound :: RatioNear(n, d, e))
      && (forall w: nat, r | w <= bound && 0.0 <= r <= 1.0 :: TimesNear(w, r, e))
    }
  }

  type Arithmetic = f: Floats | f.Valid() witness Floats((n, d) => 0.0, (w, r) => 0.0)

  /** Linear between 2 shards at `theta1` and `pMax` shards at `theta2`, clamped. */
  function ShardsFor(fl: Arithmetic, count: nat, theta1: nat, theta2: nat, pMax: nat): int
    requires count >= theta1
  {
    var p :=
      if count >= theta2 then pMax
      else if pMax < 2 then 2
      else 2 + fl.times(pMax - 2, fl.ratio(count - theta1, theta2 - theta1)).Floor;
    Max(Min(p, pMax), 2)
  }

  /** More transactions never mean fewer shards, and the count stays between 2 and `pMax`. */
  lemma ShardsMonotone(fl: Arithmetic, c: nat, d: nat, theta1: nat, theta2: nat, pMax: nat)
    requires theta1 <= c <= d
    ensures 2 <= ShardsFor(fl, c, theta1, theta2, pMax) <= ShardsFor(fl, d, theta1, theta2, pMax) <= Max(pMax, 2)
  {
    if pMax >= 2 && d < theta2 {
      var r, s := fl.ratio(c - theta1, theta2 - theta1), fl.ratio(d - theta1, theta2 - theta1);
      assert 0.0 <= r <= s <= 1.0;
      assert fl.times(pMax - 2, r) <= fl.times(pMax - 2, s);
    }
  }

  /** The ends of the scale. */
  lemma ShardsAtEnds(fl: Arithmetic, c: nat, theta1: nat, theta2: nat, pMax: nat)
    requires pMax >= 2 && theta1 <= theta2
    ensures theta1 < theta2 ==> ShardsFor(fl, theta1, theta1, theta2, pMax) == 2
    ensures c >= theta2 ==> ShardsFor(fl, c, theta1, theta2, pMax) == pMax
  {
  }

  // --- The interpolation itself ---

  lemma MulMonotone(x: real, y: real, z: real)
    requires x <= y && z >= 0.0
    ensures z * x <= z * y
  {
  }

  lemma StrictTimes(x: real, y: real, d: real)
    requires x < y && d > 0.0
    ensures x * d < y * d
  {
  }

  lemma TimesSuccessor(f: real, d: real)
    ensures (f + 1.0) * d == f * d + d
  {
  }

  lemma Reorder(w: real, r: real, d: real)
    ensures w * r * d == r * d * w
  {
  }

  lemma QuotientTimes(n: real, d: real)
    requires d > 0.0
    ensures n / d * d == n
  {
  }

  /** A value known up to `e`, times `d`. */
  lemma ErrorTimes(x: real, y: real, e: real, d: real)
    requires x - e <= y <= x + e && d >= 0.0
    ensures x * d - e * d <= y * d <= x * d + e * d
  {
    MulMonotone(x - e, y, d);
    MulMonotone(y, x + e, d);
    assert d * (x - e) == x * d - e * d && d * (x + e) == x * d + e * d;
  }

  /** The error of the ratio `r` counts `w` times, that of the product `y` once. */
  lemma ErrorBound(w: real, n: real, d: real, e: real, r: real, y: real)
    requires w >= 0.0 && d > 0.0 && n / d - e <= r <= n / d + e && w * r - e <= y <= w * r + e
    ensures w * n - (w + 1.0) * (e * d) <= y * d <= w * n + (w + 1.0) * (e * d)
  {
    QuotientTimes(n, d);
    ErrorTimes(n / d, r, e, d);
    ErrorTimes(n, r * d, e * d, w);
    ErrorTimes(w * r, y, e, d);
    Reorder(w, r, d);
    assert (w + 1.0) * (e * d) == e * d * w + e * d;
  }

  lemma Between(f: real, g: real, y: real, d: real, lo: real, hi: real)
    requires d > 0.0 && lo <= y * d <= hi && f <= y < g
    ensures f * d <= hi && lo < g * d
  {
    MulMonotone(f, y, d);
    StrictTimes(y, g, d);
  }

  /** For the largest whole number `f` up to `y`, with all products named. */
  lemma StepsShare(w: real, n: real, d: real, e: real, r: real, y: real, f: real)
    returns (fd: real, wn: real, slack: real)
    requires w >= 0.0 && d > 0.0 && n / d - e <= r <= n / d + e && w * r - e <= y <= w * r + e
    requires f <= y < f + 1.0
    ensures fd == f * d && wn == w * n && slack == (w + 1.0) * (e * d)
    ensures fd <= wn + slack && wn - slack < fd + d
  {
    fd, wn, slack := f * d, w * n, (w + 1.0) * (e * d);
    ErrorBound(w, n, d, e, r, y);
    Between(f, f + 1.0, y, d, wn - slack, wn + slack);
    TimesSuccessor(f, d);
  }

  /** A whole number of `d` parts `fd` is the share `wn`, rounded down, give or take `slack`. */
  ghost predicate Share(fd: int, wn: int, d: int, slack: real) {
    fd as real <= wn as real + slack && wn as real - slack < (fd + d) as real
  }

  lemma {:induction false} ProductAsReal(a: int, b: nat)
    ensures (a * b) as real == a as real * b as real
  {
    if b == 0 {
    } else {
      ProductAsReal(a, b - 1);
      assert a * b == a * (b - 1) + a;
    }
  }

  lemma WholeShare(w: nat, n: nat, d: nat, e: real, r: real, y: real) returns (fd: int, wn: int, slack: real)
    requires d > 0 && n as real / d as real - e <= r <= n as real / d as real + e
    requires w as real * r - e <= y <= w as real * r + e
    ensures fd == y.Floor * d && wn == w * n && slack == (w as real + 1.0) * (e * d as real)
    ensures Share(fd, wn, d, slack)
  {
    var fd', wn';
    fd', wn', slack := StepsShare(w as real, n as real, d as real, e, r, y, y.Floor as real);
    fd, wn := y.Floor * d, w * n;
    ProductAsReal(y.Floor, d);
    ProductAsReal(w, n);
  }

  lemma AtMost(w: real, r: real, e: real, y: real)
    requires w >= 0.0 && 0.0 <= r <= 1.0 && 0.0 <= e < 1.0 && y <= w * r + e
    ensures y < w + 1.0
  {
    MulMonotone(r, 1.0, w);
  }

  /** Between the thresholds, `n` of `d` up from the lower one, nothing is clamped. */
  lemma ShardsIs(fl: Arithmetic, e: real, bound: nat, theta1: nat, n: nat, d: nat, w: nat) returns (r: real, y: real)
    requires fl.Near(e, bound) && n < d <= bound && w <= bound
    ensures ShardsFor(fl, theta1 + n, theta1, theta1 + d, 2 + w) == 2 + y.Floor
    ensures n as real / d as real - e <= r <= n as real / d as real + e
    ensures w as real * r - e <= y <= w as real * r + e
  {
    r := fl.ratio(n, d);
    y := fl.times(w, r);
    assert fl.RatioNear(n, d, e) && fl.TimesNear(w, r, e);
    AtMost(w as real, r, e, y);
  }

  /**
   Between the thresholds, with operations off by at most `e`, the `f` of `w`
   shards beyond 2 are the linear share, rounded down, up to `w + 1` times that
   error.
   */
  lemma ShardsNear(fl: Arithmetic, e: real, bound: nat, theta1: nat, n: nat, d: nat, w: nat)
    returns (f: int, slack: real)
    requires fl.Near(e, bound) && n < d <= bound && w <= bound
    ensures ShardsFor(fl, theta1 + n, theta1, theta1 + d, 2 + w) == 2 + f
    ensures slack == (w as real + 1.0) * (e * d as real) && Share(f * d, w * n, d, slack)
  {
    var r, y := ShardsIs(fl, e, bound, theta1, n, d, w);
    f := y.Floor;
    var fd, wn;
    fd, wn, slack := WholeShare(w, n, d, e, r, y);
  }

  lemma WholeSuccessor(f: int, d: int)
    ensures (f + 1) * d == f * d + d
  {
  }

  /** With exact arithmetic they are the largest `f` with f / w at most n / d. */
  lemma ShardsExact(fl: Arithmetic, bound: nat, theta1: nat, n: nat, d: nat, w: nat) returns (f: int)
    requires fl.Near(0.0, bound) && n < d <= bound && w <= bound
    ensures ShardsFor(fl, theta1 + n, theta1, theta1 + d, 2 + w) == 2 + f
    ensures f * d <= w * n < (f + 1) * d
  {
    var slack;
    f, slack := ShardsNear(fl, 0.0, bound, theta1, n, d, w);
    WholeSuccessor(f, d);
  }

  /** With a small enough error they are that number, or one less where the share is a whole number of shards. */
  lemma ShardsAlmostExact(fl: Arithmetic, e: real, bound: nat, theta1: nat, n: nat, d: nat, w: nat) returns (f: int)
    requires fl.Near(e, bound) && n < d <= bound && w <= bound && (w as real + 1.0) * (e * d as real) < 1.0
    ensures ShardsFor(fl, theta1 + n, theta1, theta1 + d, 2 + w) == 2 + f
    ensures f * d <= w * n <= (f + 1) * d
  {
    var slack;
    f, slack := ShardsNear(fl, e, bound, theta1, n, d, w);
    WholeSuccessor(f, d);
  }

  // --- Where such operations come from ---

  function Quotient(rd: real -> real, x: real, y: real): real {
    if y == 0.0 then 0.0 else rd(x / y)
  }

  function Product(rd: real -> real, k: real, r: real): real {
    rd(k * r)
  }

  /** Every conversion, quotient and product rounded. */
  function Rounded(rd: real -> real): Floats {
    Floats((n: nat, d: nat) => Quotient(rd, rd(n as real), rd(d as real)),
           (w: nat, r: real) => Product(rd, rd(w as real), r))
  }

  /** A monotone rounding that keeps 0 and 1. */
  ghost predicate Rounds(rd: real -> real) {
    rd(0.0) == 0.0 && rd(1.0) == 1.0 && forall x, y :: x <= y ==> rd(x) <= rd(y)
  }

  lemma QuotientRange(x: real, y: real, d: real)
    requires 0.0 <= x <= y <= d && d > 0.0
    ensures 0.0 <= x / d <= y / d <= 1.0
  {
  }

  lemma QuotientMonotone(rd: real -> real, x: real, y: real, d: real)
    requires Rounds(rd) && 0.0 <= x <= y <= d && d > 0.0
    ensures 0.0 <= Quotient(rd, x, d) <= Quotient(rd, y, d) <= 1.0
  {
    QuotientRange(x, y, d);
    RoundsMonotone(rd, x / d, y / d);
    RoundsMonotone(rd, y / d, 1.0);
  }

  lemma PartOf(k: real, r: real)
    requires k >= 0.0 && 0.0 <= r <= 1.0
    ensures 0.0 <= k * r <= k
  {
    MulMonotone(0.0, r, k);
    MulMonotone(r, 1.0, k);
  }

  lemma ProductMonotone(rd: real -> real, k: real, r: real, s: real)
    requires Rounds(rd) && k >= 0.0 && 0.0 <= r <= s <= 1.0
    ensures 0.0 <= Product(rd, k, r) <= Product(rd, k, s)
  {
    PartOf(k, r);
    MulMonotone(r, s, k);
    RoundsMonotone(rd, k * r, k * s);
  }

  lemma RoundsMonotone(rd: real -> real, x: real, y: real)
    requires Rounds(rd) && 0.0 <= x <= y
    ensures 0.0 <= rd(x) <= rd(y)
  {
    assert rd(0.0) <= rd(x) <= rd(y);
  }

  /** The operations of any such rounding are as assumed. */
  lemma RoundedValid(rd: real -> real)
    requires Rounds(rd)
    ensures Rounded(rd).Valid()
  {
    var fl := Rounded(rd);
    forall m: nat, n: nat, d: nat | m <= n < d ensures 0.0 <= fl.ratio(m, d) <= fl.ratio(n, d) <= 1.0 {
      assert rd(0.0) <= rd(m as real) <= rd(n as real) <= rd(d as real) && rd(1.0) <= rd(d as real);
      QuotientMonotone(rd, rd(m as real), rd(n as real), rd(d as real));
    }
    forall d: nat | d > 0 ensures fl.ratio(0, d) == 0.0 {
      assert rd(1.0) <= rd(d as real);
      QuotientZero(rd, rd(d as real));
    }
    forall w: nat, r, s | 0.0 <= r <= s <= 1.0 ensures 0.0 <= fl.times(w, r) <= fl.times(w, s) {
      assert rd(0.0) <= rd(w as real);
      ProductMonotone(rd, rd(w as real), r, s);
    }
    forall w: nat ensures fl.times(w, 0.0) == 0.0 {
      ProductZero(rd, rd(w as real));
    }
  }

  lemma QuotientZero(rd: real -> real, d: real)
    requires Rounds(rd) && d > 0.0
    ensures Quotient(rd, 0.0, d) == 0.0
  {
  }

  lemma ProductZero(rd: real -> real, k: real)
    requires Rounds(rd)
    ensures Product(rd, k, 0.0) == 0.0
  {
  }

  ghost predicate Keeps(rd: real -> real, n: nat) {
    rd(n as real) == n as real
  }

  ghost predicate Off(rd: real -> real, x: real, e: real) {
    x - e <= rd(x) <= x + e
  }

  /** Up to `bound` the rounding keeps whole numbers and moves nothing by more than `e`. */
  ghost predicate RoundsNear(rd: real -> real, e: real, bound: nat) {
    && 0.0 <= e < 1.0
    && (forall n: nat | n <= bound :: Keeps(rd, n))
    && (forall x: real | 0.0 <= x <= bound as real :: Off(rd, x, e))
  }

  lemma OffAt(rd: real -> real, e: real, bound: nat, x: real)
    requires RoundsNear(rd, e, bound) && 0.0 <= x <= bound as real
    ensures x - e <= rd(x) <= x + e
  {
    assert Off(rd, x, e);
  }

  lemma QuotientNear(rd: real -> real, e: real, bound: nat, x: real, d: real)
    requires RoundsNear(rd, e, bound) && bound >= 1 && 0.0 <= x <= d && d > 0.0
    ensures x / d - e <= Quotient(rd, x, d) <= x / d + e
  {
    QuotientRange(x, x, d);
    OffAt(rd, e, bound, x / d);
  }

  lemma PartBelow(k: real, r: real, m: real)
    requires 0.0 <= k <= m && 0.0 <= r <= 1.0
    ensures 0.0 <= k * r <= m
  {
    PartOf(k, r);
  }

  lemma ProductNear(rd: real -> real, e: real, bound: nat, k: real, r: real)
    requires RoundsNear(rd, e, bound) && 0.0 <= k <= bound as real && 0.0 <= r <= 1.0
    ensures k * r - e <= Product(rd, k, r) <= k * r + e
  {
    PartBelow(k, r, bound as real);
    OffAt(rd, e, bound, k * r);
  }

  lemma RatioOff(rd: real -> real, e: real, bound: nat, n: nat, d: nat)
    requires RoundsNear(rd, e, bound) && n < d <= bound
    ensures Rounded(rd).RatioNear(n, d, e)
  {
    assert Keeps(rd, n) && Keeps(rd, d);
    QuotientNear(rd, e, bound, n as real, d as real);
    assert Rounded(rd).ratio(n, d) == Quotient(rd, n as real, d as real);
  }

  lemma TimesOff(rd: real -> real, e: real, bound: nat, w: nat, r: real)
    requires RoundsNear(rd, e, bound) && w <= bound && 0.0 <= r <= 1.0
    ensures Rounded(rd).TimesNear(w, r, e)
  {
    assert Keeps(rd, w);
    ProductNear(rd, e, bound, w as real, r);
    assert Rounded(rd).times(w, r) == Product(rd, w as real, r);
  }

  /** If the rounding is off by at most `e`, so are its operations. */
  lemma RoundedNear(rd: real -> real, e: real, bound: nat)
    requires RoundsNear(rd, e, bound)
    ensures Rounded(rd).Near(e, bound)
  {
    forall n: nat, d: nat | n < d <= bound ensures Rounded(rd).RatioNear(n, d, e) {
      RatioOff(rd, e, bound, n, d);
    }
    forall w: nat, r | w <= bound && 0.0 <= r <= 1.0 ensures Rounded(rd).TimesNear(w, r, e) {
      TimesOff(rd, e, bound, w, r);
    }
  }

  /** The frequency table of a block. */
  ghost predicate Counts(freq: map<nat, nat>, txs: seq<StablecoinTx>) {
    forall a: nat :: (a in freq <==> Freq(txs, a) > 0) && (a in freq ==> freq[a] == Freq(txs, a))
  }

  lemma CountsAgree(freq: map<nat, nat>, txs: seq<StablecoinTx>, lo: nat, hi: nat, fits: bool)
    requires Counts(freq, txs)
    ensures (forall a: nat | a in freq && lo <= freq[a] < hi :: fits) <==>
            (forall a: nat | 0 < Freq(txs, a) && lo <= Freq(txs, a) < hi :: fits)
  {
    if a: nat :| a in freq && lo <= freq[a] < hi {
      assert 0 < Freq(txs, a) && lo <= Freq(txs, a) < hi;
    }
    if a: nat :| 0 < Freq(txs, a) && lo <= Freq(txs, a) < hi {
      assert a in freq && freq[a] == Freq(txs, a);
    }
  }

  /** How often each account receives. */
  method CountReceivers(txs: seq<StablecoinTx>) returns (freq: map<nat, nat>)
    ensures Counts(freq, txs)
  {
    freq := map[];
    for i := 0 to |txs|
      invariant Counts(freq, txs[..i])
    {
      assert txs[..i + 1][..i] == txs[..i];
      match txs[i].txType
      case Transfer(_, receiver, _) => freq := Bump(freq, receiver);
      case Mint(to, _) => freq := Bump(freq, to);
      case Burn(from, _) => freq := Bump(freq, from);
      case InitBalance(_, _) =>
    }
    assert txs[..|txs|] == txs;
  }

  class HotDeltaManager {
    var shardCounts: map<nat, nat>
    var uniqueReceivers: nat
    const theta1: nat
    const theta2: nat
    const pMax: nat
    const fl: Arithmetic

    constructor (theta1: nat, theta2: nat, pMax: nat, fl: Arithmetic)
      ensures this.theta1 == theta1 && this.theta2 == theta2 && this.pMax == pMax && this.fl == fl
      ensures shardCounts == map[] && uniqueReceivers == 0
    {
      this.theta1, this.theta2, this.pMax, this.fl := theta1, theta2, pMax, fl;
      shardCounts, uniqueReceivers := map[], 0;
    }

    /** The interpolation for this frequency subtracts 2 from a smaller maximum. */
    predicate TooSmallAt(f: nat) {
      pMax < 2 && theta1 <= f < theta2
    }

    /** The number of shards of every account that reaches `theta1`. */
    method AssignShards(freq: map<nat, nat>) returns (counts: map<nat, nat>, ok: bool)
      ensures ok <==> forall a: nat | a in freq && theta1 <= freq[a] < theta2 :: pMax >= 2
      ensures forall a: nat :: a in counts <==> a in freq && freq[a] >= theta1
      ensures forall a: nat | a in counts :: counts[a] == ShardsFor(fl, freq[a], theta1, theta2, pMax)
    {
      counts, ok := map[], true;
      var todo := freq.Keys;
      while todo != {}
        invariant todo <= freq.Keys
        invariant ok <==> forall a: nat | a in freq && a !in todo :: !TooSmallAt(freq[a])
        invariant forall a: nat :: a in counts <==> a in freq && a !in todo && freq[a] >= theta1
        invariant forall a: nat | a in counts :: counts[a] == ShardsFor(fl, freq[a], theta1, theta2, pMax)
        decreases |todo|
      {
        var a :| a in todo;
        if freq[a] >= theta1 {
          if TooSmallAt(freq[a]) { ok := false; }
          counts := counts[a := ShardsFor(fl, freq[a], theta1, theta2, pMax)];
        }
        todo := todo - {a};
      }
    }

    /**
     Exactly the accounts seen at least `theta1` times become hot. `ok` is false
     exactly if a subtraction underflows, which stops a build with overflow
     checks; the table is the one of a build without them. It is one every
     execution accepts, whatever the thresholds.
     */
    method DetectHotspots(txs: seq<StablecoinTx>, ghost hash: nat -> nat) returns (ok: bool)
      modifies this
      ensures ok <==> forall a: nat | 0 < Freq(txs, a) && theta1 <= Freq(txs, a) < theta2 :: pMax >= 2
      ensures forall a: nat :: a in shardCounts <==> Freq(txs, a) > 0 && Freq(txs, a) >= theta1
      ensures forall a: nat | a in shardCounts :: shardCounts[a] == ShardsFor(fl, Freq(txs, a), theta1, theta2, pMax)
      ensures forall a: nat | a in shardCounts :: 2 <= shardCounts[a] <= Max(pMax, 2)
      ensures Shards(shardCounts, hash).Valid()
      ensures exists seen: set<nat> :: |seen| == uniqueReceivers && forall a: nat :: a in seen <==> Freq(txs, a) > 0
    {
      var freq := CountReceivers(txs);
      uniqueReceivers := |freq.Keys|;
      assert forall a: nat :: a in freq.Keys <==> Freq(txs, a) > 0;
      shardCounts, ok := AssignShards(freq);
      CountsAgree(freq, txs, theta1, theta2, pMax >= 2);
      forall a: nat | a in shardCounts ensures 2 <= shardCounts[a] <= Max(pMax, 2) {
        ShardsMonotone(fl, freq[a], freq[a], theta1, theta2, pMax);
      }
    }
  }

  function Bump(freq: map<nat, nat>, a: nat): map<nat, nat> {
    freq[a := (if a in freq then freq[a] else 0) + 1]
  }
}
