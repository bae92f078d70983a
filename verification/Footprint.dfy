/**
 What the multi-version memory holds at each index: outside the window in which
 its executor applies writes, exactly the last recorded write set, all marked
 ESTIMATE once the incarnation has been aborted.
 */
module Footprint {
  import opened State
  import opened Protocol
  import opened Ownership

  /** The output every incarnation computed: a history of the run, kept outside the state. */
  type History = map<Version, Writes>

  /** The cells are the finished writes `w` of incarnation `c`. */
  ghost predicate Prints(cells: map<StateKey, Cell>, c: nat, w: Writes) {
    && cells.Keys == w.Keys
    && forall k | k in cells :: cells[k] == Cell(false, c, w[k])
  }

  ghost predicate AllEstimate(cells: map<StateKey, Cell>) {
    forall k | k in cells :: cells[k].estimate
  }

  /** Incarnation `v` wrote `x` to `k`. */
  ghost predicate Wrote(hist: History, v: Version, k: StateKey, x: Value) {
    v in hist && k in hist[v] && hist[v][k] == x
  }

  ghost predicate CellsKnown(hist: History, i: nat, cells: map<StateKey, Cell>) {
    forall k | k in cells :: Wrote(hist, Version(i, cells[k].inc), k, cells[k].data)
  }

  /** The current incarnation of `i` has not computed an output yet. */
  ghost predicate Unwritten(a: Shared, hist: History, i: nat) {
    && i < |a.status| && i < |a.mv| && i < |a.outs|
    && a.mv[i].Keys == OutKeys(a.outs[i])
    && AllEstimate(a.mv[i])
    && Version(i, a.status[i].inc) !in hist
  }

  ghost predicate Written(a: Shared, hist: History, i: nat, c: nat) {
    && i < |a.mv| && i < |a.outs|
    && a.outs[i].Some? && Prints(a.mv[i], c, a.outs[i].value)
    && Version(i, c) in hist && hist[Version(i, c)] == a.outs[i].value
  }

  ghost predicate IndexPrint(a: Shared, hist: History, i: nat)
    requires i < |a.status| && i < |a.mv|
  {
    && CellsKnown(hist, i, a.mv[i])
    && match a.status[i]
       case ReadyToExecute(_) => Unwritten(a, hist, i)
       case Executed(c) => Written(a, hist, i, c)
       case _ => true
  }

  ghost predicate RunPrint(a: Shared, hist: History, i: nat, c: nat, p: RunPc)
    requires i < |a.mv| && i < |a.outs|
  {
    match p
    case Apply(_, w, left, prev, _) =>
      && left <= w.Keys && prev !! (w.Keys - left)
      && a.mv[i].Keys == prev + (w.Keys - left)
      && (forall k | k in prev :: a.mv[i][k].estimate && a.mv[i][k].inc < c)
      && (forall k | k in w.Keys - left :: a.mv[i][k] == Cell(false, c, w[k]))
      && Version(i, c) in hist && hist[Version(i, c)] == w
    case RecordIn(_, w, _) => Prints(a.mv[i], c, w) && Version(i, c) in hist && hist[Version(i, c)] == w
    case RecordOut(w, _) => Prints(a.mv[i], c, w) && Version(i, c) in hist && hist[Version(i, c)] == w
    case SetExecuted(_) => Written(a, hist, i, c)
    case _ => Unwritten(a, hist, i)
  }

  ghost predicate AbortPrint(a: Shared, hist: History, i: nat, c: nat, p: AbortPc)
    requires i < |a.mv| && i < |a.outs|
  {
    && a.outs[i].Some? && a.mv[i].Keys == a.outs[i].value.Keys
    && (p.Mark? ==> p.keys <= a.mv[i].Keys && forall k | k in a.mv[i].Keys - p.keys :: a.mv[i][k].estimate)
    && (p.SetAborted? ==> AllEstimate(a.mv[i]))
  }

  ghost predicate ListPrint(a: Shared, hist: History, q: seq<nat>) {
    forall m | 0 <= m < |q| :: Unwritten(a, hist, q[m])
  }

  ghost predicate PcPrint(a: Shared, hist: History, pc: Pc) {
    match pc
    case Run(i, c, p) => i < |a.mv| && i < |a.outs| && RunPrint(a, hist, i, c, p)
    case Abort(i, c, p) => i < |a.mv| && i < |a.outs| && AbortPrint(a, hist, i, c, p)
    case Fin(_, _, _, Wake(rest, _)) => ListPrint(a, hist, rest)
    case _ => true
  }

  /** Incarnations only grow: no output is known for a later incarnation than the current one. */
  ghost predicate NoneLater(a: Shared, hist: History) {
    forall v | v in hist :: v.idx < |a.status| && v.inc <= a.status[v.idx].inc
  }

  ghost predicate Footprints(n: nat, s: System, hist: History)
    requires WellSized(n, s.sh)
  {
    && NoneLater(s.sh, hist)
    && (forall i: nat | i < n :: IndexPrint(s.sh, hist, i))
    && (forall t: nat | t < |s.threads| :: PcPrint(s.sh, hist, s.threads[t]))
    && (forall d: nat | d < n :: ListPrint(s.sh, hist, s.sh.deps[d]))
  }

  // --- A step touches the footprint of one index ---

  ghost predicate SameAt(a: Shared, hist: History, b: Shared, hist': History, j: nat)
    requires j < |a.status| == |b.status| && j < |a.mv| == |b.mv| && j < |a.outs| == |b.outs|
  {
    && b.status[j] == a.status[j] && b.mv[j] == a.mv[j] && b.outs[j] == a.outs[j]
    && (forall c: nat :: Version(j, c) in hist' <==> Version(j, c) in hist)
    && (forall c: nat | Version(j, c) in hist :: hist'[Version(j, c)] == hist[Version(j, c)])
  }

  ghost predicate OnlyAt(n: nat, a: Shared, hist: History, b: Shared, hist': History, i: nat)
    requires WellSized(n, a)
  {
    && WellSized(n, b)
    && (forall j: nat | j < n && j != i :: SameAt(a, hist, b, hist', j))
  }

  /** What a step of one thread establishes at the index it works on. */
  ghost predicate Site(n: nat, a: Shared, hist: History, b: Shared, hist': History, i: nat, pc': Pc)
    requires WellSized(n, a) && i < n
  {
    && OnlyAt(n, a, hist, b, hist', i)
    && NoneLater(b, hist')
    && IndexPrint(b, hist', i)
    && PcPrint(b, hist', pc')
    && pc' != Panic
  }

  lemma SiteIncarnate(cf: Config, a: Shared, i: nat, b: Shared, pc': Pc, hist: History)
    requires WellSized(|cf.block|, a) && NoneLater(a, hist)
    requires i < |cf.block| && IndexPrint(a, hist, i)
    requires TryIncarnate(a, i, b, pc')
    ensures Site(|cf.block|, a, hist, b, hist, i, pc')
  {
  }

  /** The steps of execute_one before it has an output. */
  lemma SiteRunningEarly(cf: Config, a: Shared, i: nat, c: nat, p: RunPc, b: Shared, pc': Pc, hist: History)
    requires WellSized(|cf.block|, a) && NoneLater(a, hist) && InRange(|cf.block|, Run(i, c, p))
    requires IndexPrint(a, hist, i) && RunPrint(a, hist, i, c, p) && a.status[i] == Executing(c)
    requires Running(cf, a, i, c, p, b, pc') && !p.Apply? && !p.RecordIn? && !p.RecordOut? && !p.SetExecuted?
    requires !p.Exec?
    ensures Site(|cf.block|, a, hist, b, hist, i, pc')
  {
  }

  lemma SiteExecReads(cf: Config, a: Shared, i: nat, c: nat, log: seq<ReadDesc>, b: Shared, pc': Pc, hist: History)
    requires WellSized(|cf.block|, a) && NoneLater(a, hist) && i < |cf.block|
    requires IndexPrint(a, hist, i) && RunPrint(a, hist, i, c, Exec(log))
    requires Running(cf, a, i, c, Exec(log), b, pc') && cf.block[i].op(Vals(log)).Read?
    ensures Site(|cf.block|, a, hist, b, hist, i, pc') && pc'.Run? && !pc'.rp.Apply?
  {
  }

  lemma KnownGrows(hist: History, i: nat, c: nat, w: Writes, cells: map<StateKey, Cell>)
    requires CellsKnown(hist, i, cells) && Version(i, c) !in hist
    ensures CellsKnown(hist[Version(i, c) := w], i, cells)
  {
    forall k | k in cells ensures Wrote(hist[Version(i, c) := w], Version(i, cells[k].inc), k, cells[k].data) {
      assert Wrote(hist, Version(i, cells[k].inc), k, cells[k].data);
    }
  }

  /** Nothing written yet: what is there comes from earlier incarnations and is marked. */
  lemma FreshPrint(a: Shared, hist: History, i: nat, c: nat, log: seq<ReadDesc>, w: Writes)
    requires i < |a.status| && i < |a.mv| && i < |a.outs| && a.status[i] == Executing(c)
    requires NoneLater(a, hist) && CellsKnown(hist, i, a.mv[i]) && Unwritten(a, hist, i)
    ensures RunPrint(a, hist[Version(i, c) := w], i, c, Apply(log, w, w.Keys, OutKeys(a.outs[i]), false))
  {
    forall k | k in a.mv[i] ensures a.mv[i][k].inc < c {
      assert Wrote(hist, Version(i, a.mv[i][k].inc), k, a.mv[i][k].data);
    }
  }

  /** The first step with an output: it enters the history. */
  lemma SiteExecFinishes(
      cf: Config, a: Shared, i: nat, c: nat, log: seq<ReadDesc>, b: Shared, pc': Pc, hist: History, hist': History)
    requires WellSized(|cf.block|, a) && NoneLater(a, hist) && i < |cf.block|
    requires IndexPrint(a, hist, i) && RunPrint(a, hist, i, c, Exec(log)) && a.status[i] == Executing(c)
    requires Running(cf, a, i, c, Exec(log), b, pc') && pc'.rp.Apply? && hist' == hist[Version(i, c) := pc'.rp.w]
    ensures Site(|cf.block|, a, hist, b, hist', i, pc')
  {
    KnownGrows(hist, i, c, pc'.rp.w, a.mv[i]);
    FreshPrint(a, hist, i, c, log, pc'.rp.w);
    assert b == a && pc' == Run(i, c, Apply(log, pc'.rp.w, pc'.rp.w.Keys, OutKeys(a.outs[i]), false));
  }

  lemma SiteExec(cf: Config, a: Shared, i: nat, c: nat, log: seq<ReadDesc>, b: Shared, pc': Pc, hist: History)
    returns (hist': History)
    requires WellSized(|cf.block|, a) && NoneLater(a, hist) && i < |cf.block|
    requires IndexPrint(a, hist, i) && RunPrint(a, hist, i, c, Exec(log)) && a.status[i] == Executing(c)
    requires Running(cf, a, i, c, Exec(log), b, pc')
    ensures Site(|cf.block|, a, hist, b, hist', i, pc')
    ensures hist' == if pc'.rp.Apply? then hist[Version(i, c) := pc'.rp.w] else hist
  {
    if cf.block[i].op(Vals(log)).Finish? {
      hist' := hist[Version(i, c) := pc'.rp.w];
      SiteExecFinishes(cf, a, i, c, log, b, pc', hist, hist');
    } else {
      hist' := hist;
      SiteExecReads(cf, a, i, c, log, b, pc', hist);
    }
  }

  lemma SiteWrite(cf: Config, a: Shared, i: nat, c: nat, p: RunPc, b: Shared, pc': Pc, k: StateKey, hist: History)
    requires WellSized(|cf.block|, a) && NoneLater(a, hist) && i < |cf.block| && p.Apply?
    requires IndexPrint(a, hist, i) && RunPrint(a, hist, i, c, p) && a.status[i] == Executing(c)
    requires k in p.left && WriteOne(a, i, c, p, b, pc', k)
    ensures Site(|cf.block|, a, hist, b, hist, i, pc')
  {
  }

  lemma SiteDelete(cf: Config, a: Shared, i: nat, c: nat, p: RunPc, b: Shared, pc': Pc, k: StateKey, hist: History)
    requires WellSized(|cf.block|, a) && NoneLater(a, hist) && i < |cf.block| && p.Apply?
    requires IndexPrint(a, hist, i) && RunPrint(a, hist, i, c, p) && a.status[i] == Executing(c)
    requires p.left == {} && k in p.prev && DeleteOne(a, i, c, p, b, pc', k)
    ensures Site(|cf.block|, a, hist, b, hist, i, pc')
  {
  }

  /** The remaining steps: record input and output, set the status. */
  lemma SiteRecord(cf: Config, a: Shared, i: nat, c: nat, p: RunPc, b: Shared, pc': Pc, hist: History)
    requires WellSized(|cf.block|, a) && NoneLater(a, hist) && InRange(|cf.block|, Run(i, c, p))
    requires IndexPrint(a, hist, i) && RunPrint(a, hist, i, c, p) && a.status[i] == Executing(c)
    requires Running(cf, a, i, c, p, b, pc')
    requires p.RecordIn? || p.RecordOut? || p.SetExecuted? || (p.Apply? && p.left == {} && p.prev == {})
    ensures Site(|cf.block|, a, hist, b, hist, i, pc')
  {
  }

  lemma SiteApply(cf: Config, a: Shared, i: nat, c: nat, p: RunPc, b: Shared, pc': Pc, hist: History)
    requires WellSized(|cf.block|, a) && NoneLater(a, hist) && i < |cf.block| && p.Apply?
    requires IndexPrint(a, hist, i) && RunPrint(a, hist, i, c, p) && a.status[i] == Executing(c)
    requires Running(cf, a, i, c, p, b, pc')
    ensures Site(|cf.block|, a, hist, b, hist, i, pc')
  {
    if p.left != {} {
      var k :| k in p.left && WriteOne(a, i, c, p, b, pc', k);
      SiteWrite(cf, a, i, c, p, b, pc', k, hist);
    } else if p.prev != {} {
      var k :| k in p.prev && DeleteOne(a, i, c, p, b, pc', k);
      SiteDelete(cf, a, i, c, p, b, pc', k, hist);
    } else {
      SiteRecord(cf, a, i, c, p, b, pc', hist);
    }
  }

  lemma SiteRunning(cf: Config, a: Shared, i: nat, c: nat, p: RunPc, b: Shared, pc': Pc, hist: History)
    returns (hist': History)
    requires WellSized(|cf.block|, a) && NoneLater(a, hist) && InRange(|cf.block|, Run(i, c, p))
    requires IndexPrint(a, hist, i) && RunPrint(a, hist, i, c, p) && a.status[i] == Executing(c)
    requires Running(cf, a, i, c, p, b, pc')
    ensures Site(|cf.block|, a, hist, b, hist', i, pc')
    ensures hist' == if p.Exec? && pc'.Run? && pc'.rp.Apply? then hist[Version(i, c) := pc'.rp.w] else hist
  {
    hist' := hist;
    match p
    case Exec(log) => hist' := SiteExec(cf, a, i, c, log, b, pc', hist);
    case Apply(_, _, _, _, _) => SiteApply(cf, a, i, c, p, b, pc', hist);
    case RecordIn(_, _, _) => SiteRecord(cf, a, i, c, p, b, pc', hist);
    case RecordOut(_, _) => SiteRecord(cf, a, i, c, p, b, pc', hist);
    case SetExecuted(_) => SiteRecord(cf, a, i, c, p, b, pc', hist);
    case _ => SiteRunningEarly(cf, a, i, c, p, b, pc', hist);
  }

  lemma SiteTryAbort(cf: Config, a: Shared, i: nat, c: nat, b: Shared, pc': Pc, hist: History)
    requires WellSized(|cf.block|, a) && NoneLater(a, hist) && i < |cf.block|
    requires IndexPrint(a, hist, i) && Validating(cf, a, i, c, TryAbort, b, pc')
    ensures Site(|cf.block|, a, hist, b, hist, i, pc')
  {
  }

  lemma SiteMark(cf: Config, a: Shared, i: nat, c: nat, p: AbortPc, b: Shared, pc': Pc, hist: History, k: StateKey)
    requires WellSized(|cf.block|, a) && NoneLater(a, hist) && i < |cf.block|
    requires IndexPrint(a, hist, i) && AbortPrint(a, hist, i, c, p) && a.status[i] == Aborting(c)
    requires p.Mark? && k in p.keys && MarkOne(a, i, c, p, b, pc', k)
    ensures Site(|cf.block|, a, hist, b, hist, i, pc')
  {
  }

  lemma SiteAborted(cf: Config, a: Shared, i: nat, c: nat, p: AbortPc, b: Shared, pc': Pc, hist: History)
    requires WellSized(|cf.block|, a) && NoneLater(a, hist) && i < |cf.block|
    requires IndexPrint(a, hist, i) && AbortPrint(a, hist, i, c, p) && a.status[i] == Aborting(c)
    requires Aborted(cf, a, i, c, p, b, pc')
    ensures Site(|cf.block|, a, hist, b, hist, i, pc')
  {
    if p.Mark? && p.keys != {} {
      var k :| k in p.keys && MarkOne(a, i, c, p, b, pc', k);
      SiteMark(cf, a, i, c, p, b, pc', hist, k);
    }
  }

  lemma SiteWake(cf: Config, a: Shared, i: nat, c: nat, outside: bool, p: FinishPc, b: Shared, pc': Pc, hist: History)
    requires WellSized(|cf.block|, a) && NoneLater(a, hist) && InRange(|cf.block|, Fin(i, c, outside, p))
    requires p.Wake? && p.rest != [] && NoDup(p.rest) && ListPrint(a, hist, p.rest) && a.status[p.rest[0]].Executing?
    requires IndexPrint(a, hist, p.rest[0]) && Finishing(cf, a, i, c, outside, p, b, pc')
    ensures Site(|cf.block|, a, hist, b, hist, p.rest[0], pc')
  {
    var x := p.rest[0];
    forall m | 0 <= m < |p.rest[1..]| ensures Unwritten(b, hist, p.rest[1..][m]) {
      assert Unwritten(a, hist, p.rest[m + 1]);
      assert p.rest[m + 1] != x;
    }
    assert Unwritten(a, hist, x);
  }

  // --- The whole system ---

  /** Thread `t` alone may change the footprint of `i`. */
  predicate Mine(at: seq<Place>, i: nat, t: nat) {
    i < |at| && (at[i] == Free || at[i] == With(t) || at[i] == Waking(t))
  }

  lemma OthersKept(n: nat, s: System, t: nat, s': System, at: seq<Place>, hist: History, hist': History, i: nat, u: nat)
    requires Owned(n, s, at) && Footprints(n, s, hist) && Replaces(s, t, s') && Mine(at, i, t)
    requires OnlyAt(n, s.sh, hist, s'.sh, hist', i)
    requires u < |s.threads| && u != t
    ensures PcPrint(s'.sh, hist', s'.threads[u])
  {
    assert ThreadOwns(s.sh, s.threads[u], at, u);
    assert PcPrint(s.sh, hist, s.threads[u]);
    match s.threads[u]
    case Run(j, c, p) => assert SameAt(s.sh, hist, s'.sh, hist', j);
    case Abort(j, c, p) => assert SameAt(s.sh, hist, s'.sh, hist', j);
    case Fin(_, _, _, Wake(rest, _)) =>
      forall m | 0 <= m < |rest| ensures Unwritten(s'.sh, hist', rest[m]) {
        assert SameAt(s.sh, hist, s'.sh, hist', rest[m]);
      }
    case _ =>
  }

  lemma ListsKept(n: nat, s: System, t: nat, b: Shared, at: seq<Place>, hist: History, hist': History, i: nat, d: nat)
    requires Owned(n, s, at) && Footprints(n, s, hist) && Mine(at, i, t) && d < n
    requires OnlyAt(n, s.sh, hist, b, hist', i)
    ensures ListPrint(b, hist', s.sh.deps[d])
  {
    assert HeldBy(at, s.sh.deps[d], Parked(d));
    assert ListPrint(s.sh, hist, s.sh.deps[d]);
    forall m | 0 <= m < |s.sh.deps[d]| ensures Unwritten(b, hist', s.sh.deps[d][m]) {
      assert SameAt(s.sh, hist, b, hist', s.sh.deps[d][m]);
    }
  }

  lemma FootprintsAt(n: nat, s: System, t: nat, s': System, at: seq<Place>, hist: History, hist': History, i: nat)
    requires Owned(n, s, at) && Footprints(n, s, hist) && Replaces(s, t, s') && Mine(at, i, t)
    requires Site(n, s.sh, hist, s'.sh, hist', i, s'.threads[t])
    requires s'.sh.deps == s.sh.deps || (
               && s.threads[t].Run? && s.threads[t].rp.Park? && s.threads[t].i == i && s.threads[t].rp.d < n
               && s'.sh.deps == s.sh.deps[s.threads[t].rp.d := s.sh.deps[s.threads[t].rp.d] + [i]]
               && Unwritten(s'.sh, hist', i))
    ensures Footprints(n, s', hist')
  {
    forall j: nat | j < n ensures IndexPrint(s'.sh, hist', j) {
      assert IndexPrint(s.sh, hist, j);
      assert j != i ==> SameAt(s.sh, hist, s'.sh, hist', j);
    }
    forall u: nat | u < |s'.threads| ensures PcPrint(s'.sh, hist', s'.threads[u]) {
      if u != t { OthersKept(n, s, t, s', at, hist, hist', i, u); }
    }
    forall d: nat | d < n ensures ListPrint(s'.sh, hist', s'.sh.deps[d]) {
      ListsKept(n, s, t, s'.sh, at, hist, hist', i, d);
    }
  }

  /** Steps that leave statuses, memory and recorded outputs alone. */
  lemma FootprintsQuiet(n: nat, s: System, t: nat, s': System, hist: History)
    requires WellSized(n, s.sh) && Footprints(n, s, hist) && Replaces(s, t, s') && WellSized(n, s'.sh)
    requires s'.sh.status == s.sh.status && s'.sh.mv == s.sh.mv && s'.sh.outs == s.sh.outs
    requires PcPrint(s'.sh, hist, s'.threads[t])
    requires s'.sh.deps == s.sh.deps ||
             (s.threads[t].Fin? && s.threads[t].i < n && s'.sh.deps == s.sh.deps[s.threads[t].i := []])
    ensures Footprints(n, s', hist)
  {
    forall j: nat | j < n ensures IndexPrint(s'.sh, hist, j) {
      assert IndexPrint(s.sh, hist, j);
    }
    forall u: nat | u < |s'.threads| ensures PcPrint(s'.sh, hist, s'.threads[u]) {
      assert PcPrint(s.sh, hist, s.threads[u]);
    }
    forall d: nat | d < n ensures ListPrint(s'.sh, hist, s'.sh.deps[d]) {
      assert ListPrint(s.sh, hist, s.sh.deps[d]);
    }
  }

  /** The history after a step: an execution that has just finished adds its output. */
  function Extend(hist: History, pc: Pc, pc': Pc): History {
    if pc.Run? && pc.rp.Exec? && pc'.Run? && pc'.rp.Apply? then hist[Version(pc.i, pc.c) := pc'.rp.w] else hist
  }

  lemma FootprintsRunning(cf: Config, s: System, t: nat, s': System, at: seq<Place>, hist: History)
    requires Owned(|cf.block|, s, at) && Footprints(|cf.block|, s, hist) && Step(cf, s, t, s') && s.threads[t].Run?
    ensures WellSized(|cf.block|, s'.sh) && Footprints(|cf.block|, s', Extend(hist, s.threads[t], s'.threads[t]))
    ensures s'.threads[t] != Panic
  {
    var Run(i, c, p) := s.threads[t];
    assert ThreadOwns(s.sh, s.threads[t], at, t);
    assert PcPrint(s.sh, hist, s.threads[t]);
    var hist' := SiteRunning(cf, s.sh, i, c, p, s'.sh, s'.threads[t], hist);
    FootprintsAt(|cf.block|, s, t, s', at, hist, hist', i);
  }

  lemma FootprintsAborting(cf: Config, s: System, t: nat, s': System, at: seq<Place>, hist: History)
    requires Owned(|cf.block|, s, at) && Footprints(|cf.block|, s, hist) && Step(cf, s, t, s') && s.threads[t].Abort?
    ensures WellSized(|cf.block|, s'.sh) && Footprints(|cf.block|, s', hist)
    ensures s'.threads[t] != Panic
  {
    var Abort(i, c, p) := s.threads[t];
    assert ThreadOwns(s.sh, s.threads[t], at, t);
    assert PcPrint(s.sh, hist, s.threads[t]);
    SiteAborted(cf, s.sh, i, c, p, s'.sh, s'.threads[t], hist);
    FootprintsAt(|cf.block|, s, t, s', at, hist, hist, i);
  }

  lemma FootprintsWake(cf: Config, s: System, t: nat, s': System, at: seq<Place>, hist: History)
    requires Owned(|cf.block|, s, at) && Footprints(|cf.block|, s, hist) && Step(cf, s, t, s') && s.threads[t].Fin?
    requires s.threads[t].fp.Wake? && s.threads[t].fp.rest != []
    ensures WellSized(|cf.block|, s'.sh) && Footprints(|cf.block|, s', hist)
    ensures s'.threads[t] != Panic
  {
    var Fin(i, c, outside, p) := s.threads[t];
    assert ThreadOwns(s.sh, s.threads[t], at, t);
    assert PcPrint(s.sh, hist, s.threads[t]);
    assert Placed(s.sh, s.threads, at, p.rest[0]);
    SiteWake(cf, s.sh, i, c, outside, p, s'.sh, s'.threads[t], hist);
    FootprintsAt(|cf.block|, s, t, s', at, hist, hist, p.rest[0]);
  }

  lemma FootprintsFinishing(cf: Config, s: System, t: nat, s': System, at: seq<Place>, hist: History)
    requires Owned(|cf.block|, s, at) && Footprints(|cf.block|, s, hist) && Step(cf, s, t, s') && s.threads[t].Fin?
    ensures WellSized(|cf.block|, s'.sh) && Footprints(|cf.block|, s', hist)
    ensures s'.threads[t] != Panic
  {
    var Fin(i, c, outside, p) := s.threads[t];
    if p.Wake? && p.rest != [] {
      FootprintsWake(cf, s, t, s', at, hist);
    } else {
      assert ThreadOwns(s.sh, s.threads[t], at, t);
      assert PcPrint(s.sh, hist, s.threads[t]) && ListPrint(s.sh, hist, s.sh.deps[i]);
      FootprintsQuiet(|cf.block|, s, t, s', hist);
    }
  }

  lemma FootprintsValidating(cf: Config, s: System, t: nat, s': System, at: seq<Place>, hist: History)
    requires Owned(|cf.block|, s, at) && Footprints(|cf.block|, s, hist) && Step(cf, s, t, s')
    requires s.threads[t].Val? && s'.threads[t] != Panic
    ensures WellSized(|cf.block|, s'.sh) && Footprints(|cf.block|, s', hist)
  {
    assert ThreadOwns(s.sh, s.threads[t], at, t);
    var Val(i, c, p) := s.threads[t];
    if p.TryAbort? && s'.threads[t].Abort? {
      assert Placed(s.sh, s.threads, at, i);
      SiteTryAbort(cf, s.sh, i, c, s'.sh, s'.threads[t], hist);
      FootprintsAt(|cf.block|, s, t, s', at, hist, hist, i);
    } else {
      FootprintsQuiet(|cf.block|, s, t, s', hist);
    }
  }

  lemma FootprintsIncarnate(cf: Config, s: System, t: nat, s': System, at: seq<Place>, hist: History, i: nat)
    requires Owned(|cf.block|, s, at) && Footprints(|cf.block|, s, hist) && Replaces(s, t, s')
    requires TryIncarnate(s.sh, i, s'.sh, s'.threads[t])
    ensures WellSized(|cf.block|, s'.sh) && Footprints(|cf.block|, s', hist)
  {
    if s'.threads[t].Run? {
      assert Placed(s.sh, s.threads, at, i);
      SiteIncarnate(cf, s.sh, i, s'.sh, s'.threads[t], hist);
      FootprintsAt(|cf.block|, s, t, s', at, hist, hist, i);
    } else {
      FootprintsQuiet(|cf.block|, s, t, s', hist);
    }
  }

  lemma FootprintsPlain(cf: Config, s: System, t: nat, s': System, hist: History)
    requires WellSized(|cf.block|, s.sh) && Footprints(|cf.block|, s, hist)
    requires Step(cf, s, t, s') && Plain(s.threads[t]) && InRange(|cf.block|, s.threads[t])
    ensures WellSized(|cf.block|, s'.sh) && Footprints(|cf.block|, s', hist)
  {
    PlainMove(cf, s.sh, s.threads[t], s'.sh, s'.threads[t]);
    FootprintsQuiet(|cf.block|, s, t, s', hist);
  }

  /** The footprint invariant is preserved by every step of every thread that does not panic. */
  lemma FootprintsStep(cf: Config, s: System, t: nat, s': System, at: seq<Place>, hist: History)
    requires Owned(|cf.block|, s, at) && Footprints(|cf.block|, s, hist)
    requires Step(cf, s, t, s') && s'.threads[t] != Panic
    ensures WellSized(|cf.block|, s'.sh) && Footprints(|cf.block|, s', Extend(hist, s.threads[t], s'.threads[t]))
  {
    assert ThreadOwns(s.sh, s.threads[t], at, t);
    match s.threads[t]
    case Run(_, _, _) => FootprintsRunning(cf, s, t, s', at, hist);
    case Abort(_, _, _) => FootprintsAborting(cf, s, t, s', at, hist);
    case Fin(_, _, _, _) => FootprintsFinishing(cf, s, t, s', at, hist);
    case Val(_, _, _) => FootprintsValidating(cf, s, t, s', at, hist);
    case Claim(ExecStatus(i)) => FootprintsIncarnate(cf, s, t, s', at, hist, i);
    case Redo(i, Reincarnate) => FootprintsIncarnate(cf, s, t, s', at, hist, i);
    case _ => FootprintsPlain(cf, s, t, s', hist);
  }
}
