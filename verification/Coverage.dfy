/**
 Validation coverage: an executed transaction below the validation index has a
 read set that matches memory, or some thread holding a task is bound to
 validate or abort it or to lower the validation index to at most its index.
 */
module Coverage {
  import opened State
  import opened Protocol
  import opened Ownership
  import opened Footprint
  import opened ReadLog

  ghost predicate Good(mv: Memory, j: nat, r: ReadDesc)
    requires j <= |mv|
  {
    Validates(r, Latest(mv, r.key, j))
  }

  /** This thread is bound to deal with the mismatch of read `r` in incarnation `c` of `j`. */
  predicate Covers(pc: Pc, j: nat, c: nat, r: ReadDesc) {
    match pc
    case Claim(ValStatus(_, at)) => at == j
    case Val(i, e, p) => i == j && e == c && (p.Checking? ==> r in p.todo)
    case Abort(i, _, _) => i < j
    case Redo(i, p) => i < j && p.LowerSuffix?
    case Run(i, _, p) => i < j && (p.Apply? || p.RecordIn? || p.RecordOut? || p.SetExecuted?) && p.outside
    case Fin(i, e, outside, p) =>
      if p.LowerVal? then i <= j
      else !p.BumpVal? && ((i == j && e == c) || (i < j && outside))
    case _ => false
  }

  ghost predicate Covered(s: System, j: nat, r: ReadDesc)
    requires j < |s.sh.status| && j <= |s.sh.mv|
  {
    || Good(s.sh.mv, j, r)
    || exists u: nat :: u < |s.threads| && Covers(s.threads[u], j, s.sh.status[j].inc, r)
  }

  ghost predicate IndexCovered(n: nat, s: System, j: nat)
    requires WellSized(n, s.sh) && j < n
  {
    s.sh.status[j].Executed? && j < s.sh.val && s.sh.ins[j].Some? ==>
      forall r | r in s.sh.ins[j].value :: Covered(s, j, r)
  }

  ghost predicate AllCovered(n: nat, s: System)
    requires WellSized(n, s.sh)
  {
    forall j: nat | j < n :: IndexCovered(n, s, j)
  }

  // --- Lookups after a change at one index ---

  /** A change at `i` of the cell of `k`, seen from `j`: hidden, or visible on both sides. */
  lemma {:induction false} LatestThrough(mv: Memory, mv': Memory, k: StateKey, i: nat, j: nat)
    requires i < |mv| == |mv'| && j <= |mv| && mv' == mv[i := mv'[i]]
    ensures j <= i ==> Latest(mv', k, j) == Latest(mv, k, j)
    ensures i < j ==>
              || Latest(mv', k, j) == Latest(mv, k, j)
              || (Latest(mv', k, j) == Latest(mv', k, i + 1) && Latest(mv, k, j) == Latest(mv, k, i + 1))
  {
    if j > 0 && j != i + 1 { LatestThrough(mv, mv', k, i, j - 1); }
    if j == i + 1 && i > 0 { LatestThrough(mv, mv', k, i, i); }
  }

  lemma {:induction false} LatestUnchanged(mv: Memory, mv': Memory, k: StateKey, i: nat, j: nat)
    requires i < |mv| == |mv'| && j <= |mv| && mv' == mv[i := mv'[i]]
    requires k in mv'[i] <==> k in mv[i]
    requires k in mv[i] ==> mv'[i][k] == mv[i][k]
    ensures Latest(mv', k, j) == Latest(mv, k, j)
  {
    if j == 0 {
    } else {
      LatestUnchanged(mv, mv', k, i, j - 1);
    }
  }

  /** Replacing or removing an ESTIMATE cell never invalidates a read. */
  lemma EstimateGone(mv: Memory, mv': Memory, i: nat, k: StateKey, j: nat, r: ReadDesc)
    requires i < |mv| == |mv'| && j <= |mv| && mv' == mv[i := mv'[i]]
    requires k in mv[i] && mv[i][k].estimate
    requires mv'[i].Keys - {k} == mv[i].Keys - {k}
    requires forall x | x in mv[i] && x in mv'[i] && x != k :: mv'[i][x] == mv[i][x]
    requires Good(mv, j, r)
    ensures Good(mv', j, r)
  {
    if r.key == k {
      LatestThrough(mv, mv', k, i, j);
    } else {
      assert r.key in mv[i] <==> r.key in mv[i].Keys - {k};
      assert r.key in mv'[i] <==> r.key in mv'[i].Keys - {k};
      LatestUnchanged(mv, mv', r.key, i, j);
    }
  }

  // --- One step, seen from one read of one transaction ---

  /** Before the step there was a mismatch as well, and this thread did not cover it. */
  ghost predicate WasOpen(a: Shared, pc: Pc, j: nat, c: nat, r: ReadDesc)
    requires j < |a.status| && j <= |a.mv|
  {
    a.status[j] == Executed(c) && j < a.val && !Good(a.mv, j, r) && !Covers(pc, j, c, r)
  }

  ghost predicate OpenAfter(n: nat, b: Shared, pc': Pc, j: nat, c: nat, r: ReadDesc)
    requires WellSized(n, b) && j < n
  {
    b.status[j] == Executed(c) && j < b.val && !Good(b.mv, j, r) && !Covers(pc', j, c, r)
  }

  lemma OpenClaiming(cf: Config, a: Shared, p: ClaimPc, b: Shared, pc': Pc, j: nat, c: nat, r: ReadDesc)
    requires WellSized(|cf.block|, a) && WellSized(|cf.block|, b) && j < |cf.block|
    requires Claiming(cf, a, p, b, pc') && OpenAfter(|cf.block|, b, pc', j, c, r)
    ensures WasOpen(a, Claim(p), j, c, r)
  {
  }

  lemma OpenApplying(
      cf: Config, a: Shared, i: nat, e: nat, p: RunPc, b: Shared, pc': Pc, hist: History, j: nat, c: nat, r: ReadDesc)
    requires WellSized(|cf.block|, a) && WellSized(|cf.block|, b) && j < |cf.block| && i < |cf.block| && p.Apply?
    requires pc' != Panic
    requires RunPrint(a, hist, i, e, p) && a.status[i] == Executing(e)
    requires Running(cf, a, i, e, p, b, pc') && OpenAfter(|cf.block|, b, pc', j, c, r)
    ensures WasOpen(a, Run(i, e, p), j, c, r)
  {
    if p.left != {} {
      var k :| k in p.left && WriteOne(a, i, e, p, b, pc', k);
      if Good(a.mv, j, r) {
        if k in p.prev {
          EstimateGone(a.mv, b.mv, i, k, j, r);
        } else {
          LatestThrough(a.mv, b.mv, r.key, i, j);
        }
      }
    } else if p.prev != {} {
      var k :| k in p.prev && DeleteOne(a, i, e, p, b, pc', k);
      if Good(a.mv, j, r) { EstimateGone(a.mv, b.mv, i, k, j, r); }
    }
  }

  lemma OpenRunning(cf: Config, a: Shared, i: nat, e: nat, p: RunPc, b: Shared, pc': Pc, j: nat, c: nat, r: ReadDesc)
    requires WellSized(|cf.block|, a) && WellSized(|cf.block|, b) && j < |cf.block|
    requires InRange(|cf.block|, Run(i, e, p)) && !p.Apply?
    requires a.status[i] == Executing(e)
    requires Running(cf, a, i, e, p, b, pc') && OpenAfter(|cf.block|, b, pc', j, c, r)
    ensures WasOpen(a, Run(i, e, p), j, c, r)
  {
  }

  lemma OpenFinishing(
      cf: Config, a: Shared, i: nat, e: nat, outside: bool, p: FinishPc, b: Shared, pc': Pc, j: nat, c: nat,
      r: ReadDesc)
    requires WellSized(|cf.block|, a) && WellSized(|cf.block|, b) && j < |cf.block|
    requires InRange(|cf.block|, Fin(i, e, outside, p)) && pc' != Panic
    requires Finishing(cf, a, i, e, outside, p, b, pc') && OpenAfter(|cf.block|, b, pc', j, c, r)
    ensures WasOpen(a, Fin(i, e, outside, p), j, c, r)
  {
  }

  lemma OpenValidating(
      cf: Config, a: Shared, i: nat, e: nat, p: ValidatePc, b: Shared, pc': Pc, j: nat, c: nat, r: ReadDesc)
    requires WellSized(|cf.block|, a) && WellSized(|cf.block|, b) && j < |cf.block| && i < |cf.block| && pc' != Panic
    requires a.ins[j].Some? && r in a.ins[j].value
    requires Validating(cf, a, i, e, p, b, pc') && OpenAfter(|cf.block|, b, pc', j, c, r)
    ensures WasOpen(a, Val(i, e, p), j, c, r)
  {
  }

  lemma OpenAborted(cf: Config, a: Shared, i: nat, e: nat, p: AbortPc, b: Shared, pc': Pc, j: nat, c: nat, r: ReadDesc)
    requires WellSized(|cf.block|, a) && WellSized(|cf.block|, b) && j < |cf.block| && i < |cf.block| && pc' != Panic
    requires Aborted(cf, a, i, e, p, b, pc') && OpenAfter(|cf.block|, b, pc', j, c, r)
    ensures WasOpen(a, Abort(i, e, p), j, c, r)
  {
    if p.Mark? && p.keys != {} {
      var k :| k in p.keys && MarkOne(a, i, e, p, b, pc', k);
      LatestThrough(a.mv, b.mv, r.key, i, j);
    }
  }

  lemma OpenRedoing(cf: Config, a: Shared, i: nat, p: RedoPc, b: Shared, pc': Pc, j: nat, c: nat, r: ReadDesc)
    requires WellSized(|cf.block|, a) && WellSized(|cf.block|, b) && j < |cf.block| && i < |cf.block|
    requires Redoing(cf, a, i, p, b, pc') && OpenAfter(|cf.block|, b, pc', j, c, r)
    ensures WasOpen(a, Redo(i, p), j, c, r)
  {
  }

  lemma OpenMove(cf: Config, a: Shared, pc: Pc, b: Shared, pc': Pc, hist: History, j: nat, c: nat, r: ReadDesc)
    requires WellSized(|cf.block|, a) && WellSized(|cf.block|, b) && j < |cf.block|
    requires InRange(|cf.block|, pc) && PcPrint(a, hist, pc)
    requires pc.Run? ==> a.status[pc.i] == Executing(pc.c)
    requires Move(cf, a, pc, b, pc') && pc' != Panic && OpenAfter(|cf.block|, b, pc', j, c, r)
    requires a.ins[j].Some? && r in a.ins[j].value
    ensures WasOpen(a, pc, j, c, r)
  {
    match pc
    case Sched(p) => PlainMove(cf, a, pc, b, pc');
    case Check(k, p) => PlainMove(cf, a, pc, b, pc');
    case Claim(p) => OpenClaiming(cf, a, p, b, pc', j, c, r);
    case Run(i, e, p) =>
      if p.Apply? { OpenApplying(cf, a, i, e, p, b, pc', hist, j, c, r); }
      else { OpenRunning(cf, a, i, e, p, b, pc', j, c, r); }
    case Fin(i, e, outside, p) => OpenFinishing(cf, a, i, e, outside, p, b, pc', j, c, r);
    case Val(i, e, p) => OpenValidating(cf, a, i, e, p, b, pc', j, c, r);
    case Abort(i, e, p) => OpenAborted(cf, a, i, e, p, b, pc', j, c, r);
    case Redo(i, p) => OpenRedoing(cf, a, i, p, b, pc', j, c, r);
  }

  // --- The whole system ---

  lemma CoveredAfter(cf: Config, s: System, t: nat, s': System, at: seq<Place>, hist: History, j: nat, r: ReadDesc)
    requires Owned(|cf.block|, s, at) && Footprints(|cf.block|, s, hist) && AllCovered(|cf.block|, s)
    requires Step(cf, s, t, s') && s'.threads[t] != Panic && WellSized(|cf.block|, s'.sh)
    requires j < |cf.block| && s'.sh.status[j].Executed? && j < s'.sh.val
    requires s.sh.ins[j].Some? && r in s.sh.ins[j].value
    ensures Covered(s', j, r)
  {
    var c := s'.sh.status[j].inc;
    if OpenAfter(|cf.block|, s'.sh, s'.threads[t], j, c, r) {
      assert ThreadOwns(s.sh, s.threads[t], at, t);
      assert PcPrint(s.sh, hist, s.threads[t]);
      OpenMove(cf, s.sh, s.threads[t], s'.sh, s'.threads[t], hist, j, c, r);
      assert IndexCovered(|cf.block|, s, j);
      assert Covered(s, j, r);
      var u: nat :| u < |s.threads| && Covers(s.threads[u], j, c, r);
      assert Covers(s'.threads[u], j, c, r);
    }
  }

  /** Coverage is preserved by every step of every thread that does not panic. */
  lemma AllCoveredStep(cf: Config, s: System, t: nat, s': System, at: seq<Place>, hist: History)
    requires Owned(|cf.block|, s, at) && Footprints(|cf.block|, s, hist) && AllLogged(cf, s, hist)
    requires AllCovered(|cf.block|, s)
    requires Step(cf, s, t, s') && s'.threads[t] != Panic && WellSized(|cf.block|, s'.sh)
    ensures AllCovered(|cf.block|, s')
  {
    forall j: nat | j < |cf.block| ensures IndexCovered(|cf.block|, s', j) {
      if s'.sh.status[j].Executed? {
        InputKept(cf, s, t, s', at, j);
        forall r | s'.sh.ins[j].Some? && j < s'.sh.val && r in s'.sh.ins[j].value ensures Covered(s', j, r) {
          CoveredAfter(cf, s, t, s', at, hist, j, r);
        }
      }
    }
  }

  /** The recorded input of a transaction that is executed after the step was there before it. */
  lemma InputKept(cf: Config, s: System, t: nat, s': System, at: seq<Place>, j: nat)
    requires Owned(|cf.block|, s, at) && Step(cf, s, t, s') && s'.threads[t] != Panic && WellSized(|cf.block|, s'.sh)
    requires j < |cf.block| && s'.sh.status[j].Executed?
    ensures s'.sh.ins[j] == s.sh.ins[j]
  {
    assert ThreadOwns(s.sh, s.threads[t], at, t);
    if s.threads[t].Run? {
    } else {
      RecordsNothing(cf, s.sh, s.threads[t], s'.sh, s'.threads[t]);
    }
  }
}
