/**
 The invariants, read off for every state of every run.
 */
module Guarantees {
  import opened Protocol
  import opened Ownership
  import opened Footprint
  import opened ReadLog
  import opened Coverage
  import opened Progress
  import opened Termination
  import opened Runs

  /** No assertion, expect, unreachable or out-of-range index of the executor is ever hit. */
  lemma NoPanic(cf: Config, run: seq<System>, p: nat, u: nat)
    requires IsRun(cf, run) && p < |run| && u < |run[p].threads|
    ensures run[p].threads[u] != Panic
  {
    RunSafe(cf, run, p);
  }

  /** A transaction is in at most one dependency list, at most once, and only as a bailed-out execution. */
  ghost predicate ParkedExactly(s: System, d: nat, m: nat)
    requires d < |s.sh.deps| && m < |s.sh.deps[d]|
  {
    var x := s.sh.deps[d][m];
    && d < x < |s.sh.status|
    && s.sh.status[x].Executing?
    && (forall u: nat | u < |s.threads| :: !(s.threads[u].Run? && s.threads[u].i == x))
    && (forall e: nat, o: nat | e < |s.sh.deps| && o < |s.sh.deps[e]| && s.sh.deps[e][o] == x :: e == d && o == m)
    && (forall u: nat, o: nat | u < |s.threads| && DutyOf(s.threads[u]).Wakes? && o < |DutyOf(s.threads[u]).list| ::
          DutyOf(s.threads[u]).list[o] != x)
  }

  lemma ParkedOnce(n: nat, s: System, at: seq<Place>, d: nat, m: nat)
    requires Owned(n, s, at) && d < n && m < |s.sh.deps[d]|
    ensures ParkedExactly(s, d, m)
  {
    var x := s.sh.deps[d][m];
    assert HeldBy(at, s.sh.deps[d], Parked(d));
    assert Placed(s.sh, s.threads, at, x);
    forall u: nat | u < |s.threads| ensures ThreadOwns(s.sh, s.threads[u], at, u) {
    }
    forall e: nat | e < |s.sh.deps| ensures HeldBy(at, s.sh.deps[e], Parked(e)) {
    }
  }

  lemma ParkingExact(cf: Config, run: seq<System>, q: nat, d: nat, m: nat)
    requires IsRun(cf, run) && q < |run| && d < |run[q].sh.deps| && m < |run[q].sh.deps[d]|
    ensures ParkedExactly(run[q], d, m)
    ensures run[q].sh.status[d].Executed? ==> Taker(run[q], d)
  {
    var s := run[q];
    RunSafe(cf, run, q);
    var at, hist :| Inv(cf, s, at, hist);
    ParkedOnce(|cf.block|, s, at, d, m);
    assert Awaited(s, d);
  }

  /**
   Every executing transaction is somewhere it can go on from: with a thread
   that runs it, parked on a smaller index, or about to be resumed.
   */
  lemma ExecutingIsHeld(cf: Config, run: seq<System>, q: nat, i: nat)
    requires IsRun(cf, run) && q < |run| && i < |run[q].sh.status| && run[q].sh.status[i].Executing?
    ensures var s := run[q];
            || (exists u: nat :: u < |s.threads| && DutyOf(s.threads[u]) == Executes(Version(i, s.sh.status[i].inc)))
            || (exists u: nat :: u < |s.threads| && DutyOf(s.threads[u]).Wakes? && i in DutyOf(s.threads[u]).list)
            || (exists d: nat :: d < i && d < |s.sh.deps| && i in s.sh.deps[d])
  {
    RunSafe(cf, run, q);
    var at, hist :| Inv(cf, run[q], at, hist);
    assert Placed(run[q].sh, run[q].threads, at, i);
  }

  /** The executor of `i` is changing the memory at its index, or has not recorded the change yet. */
  predicate Applying(pc: Pc, i: nat) {
    pc.Run? && pc.i == i && (pc.rp.Apply? || pc.rp.RecordIn? || pc.rp.RecordOut?)
  }

  /**
   Memory at an index nobody is writing is its last recorded write set: current
   and unmarked when the transaction is Executed, all ESTIMATE when it is ready.
   */
  lemma FootprintExact(cf: Config, run: seq<System>, q: nat, i: nat)
    requires IsRun(cf, run) && q < |run| && i < |cf.block|
    requires forall u: nat | u < |run[q].threads| :: !Applying(run[q].threads[u], i)
    ensures var a := run[q].sh;
            && WellSized(|cf.block|, a)
            && a.mv[i].Keys == OutKeys(a.outs[i])
            && (a.status[i].Executed? ==> a.outs[i].Some? && Prints(a.mv[i], a.status[i].inc, a.outs[i].value))
            && (a.status[i].ReadyToExecute? ==> AllEstimate(a.mv[i]))
            && (forall k | k in a.mv[i] :: a.mv[i][k].inc <= a.status[i].inc)
  {
    var s := run[q];
    RunSafe(cf, run, q);
    var at, hist :| Inv(cf, s, at, hist);
    assert IndexPrint(s.sh, hist, i);
    assert Placed(s.sh, s.threads, at, i);
    match s.sh.status[i]
    case ReadyToExecute(_) =>
    case Executed(_) =>
    case Aborting(_) => assert PcPrint(s.sh, hist, s.threads[at[i].t]);
    case Executing(_) =>
      match at[i] {
        case With(t) => assert PcPrint(s.sh, hist, s.threads[t]) && !Applying(s.threads[t], i);
        case Parked(d) =>
          assert ListPrint(s.sh, hist, s.sh.deps[d]);
        case Waking(t) =>
          assert PcPrint(s.sh, hist, s.threads[t]);
        case Free =>
      }
  }

  /** Each executed transaction below the validation index matches memory or is covered by a thread with a task. */
  lemma ValidationCoverage(cf: Config, run: seq<System>, q: nat, j: nat)
    requires IsRun(cf, run) && q < |run| && j < |cf.block|
    ensures var s := run[q];
            && WellSized(|cf.block|, s.sh)
            && (s.sh.status[j].Executed? && j < s.sh.val ==>
                  && s.sh.ins[j].Some?
                  && forall r | r in s.sh.ins[j].value ::
                       || Good(s.sh.mv, j, r)
                       || exists u: nat :: u < |s.threads| && Holds(s.threads[u]) &&
                           Covers(s.threads[u], j, s.sh.status[j].inc, r))
  {
    var s := run[q];
    RunSafe(cf, run, q);
    var at, hist :| Inv(cf, s, at, hist);
    assert IndexCovered(|cf.block|, s, j) && IndexLogged(cf, s.sh, hist, j);
    if s.sh.status[j].Executed? && j < s.sh.val {
      forall r | r in s.sh.ins[j].value && !Good(s.sh.mv, j, r)
        ensures exists u: nat ::
                u < |s.threads| && Holds(s.threads[u]) && Covers(s.threads[u], j, s.sh.status[j].inc, r)
      {
        assert Covered(s, j, r);
        var u: nat :| u < |s.threads| && Covers(s.threads[u], j, s.sh.status[j].inc, r);
        assert Holds(s.threads[u]);
      }
    }
  }

  // --- The double collect, over whole runs ---

  /** State `p` of the run had both indices past the block and no active task, and nothing changed from there to `q`. */
  ghost predicate Instant(n: nat, run: seq<System>, p: nat, q: nat) {
    && p <= q < |run|
    && run[p].sh.val >= n && run[p].sh.exec >= n && run[p].sh.active == 0
    && forall o | p <= o <= q :: Frozen(run[p].sh, run[o].sh)
  }

  /** Some thread is past the second read of the decrease counter, or can still pass it. */
  predicate Concludes(a: Shared, pc: Pc) {
    pc.Check? && (pc.dp.SetDone? || (pc.dp.ReadCntAgain? && pc.dp.seen == a.cnt))
  }

  ghost predicate Concluding(s: System) {
    s.sh.done || exists u: nat :: u < |s.threads| && Concludes(s.sh, s.threads[u])
  }

  lemma ConcludesMove(cf: Config, a: Shared, pc: Pc, b: Shared, pc': Pc)
    requires WellSized(|cf.block|, a) && InRange(|cf.block|, pc) && Move(cf, a, pc, b, pc')
    ensures Concludes(b, pc') ==>
            || Concludes(a, pc)
            || (pc.Check? && pc.dp.ReadTasks? && pc'.Check? && pc'.dp == ReadCntAgain(pc.dp.seen) && b == a)
    ensures b.done ==> a.done || Concludes(a, pc)
  {
    LowerMove(cf, a, pc, b, pc');
    if pc'.Check? && !pc.Check? { FreshCheck(cf, a, pc, b, pc'); }
    if b.done && !a.done { FreshDone(cf, a, pc, b, pc'); }
  }

  /** A step after which check_done can conclude: it could before, or this step read the task counter as zero. */
  lemma ConcludingStep(cf: Config, s: System, t: nat, s': System, at: seq<Place>, hist: History)
    requires Inv(cf, s, at, hist) && Step(cf, s, t, s') && Concluding(s')
    ensures Quiet(|cf.block|, s) && Frozen(s.sh, s'.sh)
    ensures Concluding(s) || s.sh.active == 0
  {
    if Concluding(s) {
      ConcludingQuiet(cf, s, at, hist);
    } else {
      ConcludingNew(cf, s, t, s', at, hist);
    }
    QuietStep(cf, s, t, s');
  }

  lemma ConcludingQuiet(cf: Config, s: System, at: seq<Place>, hist: History)
    requires Inv(cf, s, at, hist) && Concluding(s)
    ensures Quiet(|cf.block|, s)
  {
    if !s.sh.done {
      var u: nat :| u < |s.threads| && Concludes(s.sh, s.threads[u]);
      assert Collects(|cf.block|, s, s.threads[u].dp);
    }
  }

  lemma ConcludesOther(cf: Config, s: System, t: nat, s': System, u: nat)
    requires Replaces(s, t, s') && Collected(|cf.block|, s) && s'.sh.cnt >= s.sh.cnt
    requires u < |s.threads| && u != t && Concludes(s'.sh, s'.threads[u])
    ensures Concludes(s.sh, s.threads[u])
  {
    assert Collects(|cf.block|, s, s.threads[u].dp);
  }

  lemma ConcludingNew(cf: Config, s: System, t: nat, s': System, at: seq<Place>, hist: History)
    requires Inv(cf, s, at, hist) && Step(cf, s, t, s') && Concluding(s') && !Concluding(s)
    ensures Quiet(|cf.block|, s) && s.sh.active == 0
  {
    assert ThreadOwns(s.sh, s.threads[t], at, t);
    ConcludesMove(cf, s.sh, s.threads[t], s'.sh, s'.threads[t]);
    LowerMove(cf, s.sh, s.threads[t], s'.sh, s'.threads[t]);
    forall u: nat | u < |s.threads| && u != t && Concludes(s'.sh, s'.threads[u]) ensures Concludes(s.sh, s.threads[u]) {
      ConcludesOther(cf, s, t, s', u);
    }
    assert Concludes(s'.sh, s'.threads[t]);
    assert Collects(|cf.block|, s, s.threads[t].dp);
    assert Those(s.threads, Holds) == {};
    forall w: nat | w < |s.threads| ensures !Holds(s.threads[w]) {
      assert w !in Those(s.threads, Holds);
    }
    assert NonePending(s.threads);
  }

  lemma ConcludingNext(cf: Config, run: seq<System>, q: nat)
    requires IsRun(cf, run) && q + 1 < |run| && Concluding(run[q + 1])
    ensures run[q].sh.val >= |cf.block| && run[q].sh.exec >= |cf.block| && Frozen(run[q].sh, run[q + 1].sh)
    ensures Concluding(run[q]) || run[q].sh.active == 0
  {
    var t, at, hist := StepAt(cf, run, q);
    ConcludingStep(cf, run[q], t, run[q + 1], at, hist);
  }

  /** At `p` thread `u` read the task counter, went on, and nothing has changed from then to `q`. */
  ghost predicate ReadsQuiet(n: nat, run: seq<System>, p: nat, q: nat, u: nat) {
    && p < q && Instant(n, run, p, q)
    && u < |run[p].threads| && u < |run[p + 1].threads|
    && run[p].threads[u].Check? && run[p].threads[u].dp.ReadTasks?
    && run[p + 1].threads[u].Check? && run[p + 1].threads[u].dp == ReadCntAgain(run[p].threads[u].dp.seen)
  }

  /** Thread `u` sets the done marker at `r`. */
  ghost predicate SetsDone(run: seq<System>, r: nat, u: nat) {
    && r + 1 < |run| && u < |run[r].threads|
    && run[r].threads[u].Check? && run[r].threads[u].dp == SetDone
    && !run[r].sh.done && run[r + 1].sh.done
  }

  /** The thread could conclude before this step, or it has just read the task counter as zero. */
  lemma ConcludesBefore(cf: Config, run: seq<System>, q: nat, u: nat)
    requires IsRun(cf, run) && q + 1 < |run| && u < |run[q + 1].threads|
    requires Concludes(run[q + 1].sh, run[q + 1].threads[u])
    ensures u < |run[q].threads|
    ensures Concludes(run[q].sh, run[q].threads[u]) || ReadsQuiet(|cf.block|, run, q, q + 1, u)
  {
    ConcludingNext(cf, run, q);
    var t, at, hist := StepAt(cf, run, q);
    LowerMove(cf, run[q].sh, run[q].threads[t], run[q + 1].sh, run[q + 1].threads[t]);
    if u == t {
      ConcludesMove(cf, run[q].sh, run[q].threads[t], run[q + 1].sh, run[q + 1].threads[t]);
    } else {
      ConcludesOther(cf, run[q], t, run[q + 1], u);
    }
  }

  /** A thread that can conclude has itself read the task counter in a quiet state that still stands. */
  lemma {:induction false} ConcludesSince(cf: Config, run: seq<System>, q: nat, u: nat) returns (p: nat)
    requires IsRun(cf, run) && q < |run| && u < |run[q].threads| && Concludes(run[q].sh, run[q].threads[u])
    ensures ReadsQuiet(|cf.block|, run, p, q, u)
    decreases q
  {
    ConcludesBefore(cf, run, q - 1, u);
    if Concludes(run[q - 1].sh, run[q - 1].threads[u]) {
      p := ConcludesSince(cf, run, q - 1, u);
      ConcludingNext(cf, run, q - 1);
    } else {
      p := q - 1;
    }
  }

  lemma DoneBefore(cf: Config, run: seq<System>, q: nat) returns (u: nat)
    requires IsRun(cf, run) && q + 1 < |run| && run[q + 1].sh.done
    ensures Frozen(run[q].sh, run[q + 1].sh) && (run[q].sh.done || SetsDone(run, q, u))
  {
    ConcludingNext(cf, run, q);
    var t, at, hist := StepAt(cf, run, q);
    u := t;
    if !run[q].sh.done { FreshDone(cf, run[q].sh, run[q].threads[t], run[q + 1].sh, run[q + 1].threads[t]); }
  }

  /**
   If the done marker is set, some thread has set it. At the instant this very
   thread read the task counter, both indices were at or past the block size and
   no task was active, and no status, dependency list, memory cell or recorded
   result has changed since, whatever ran between its loads and afterwards.
   */
  lemma {:induction false} DoubleCollectSound(cf: Config, run: seq<System>, q: nat) returns (p: nat, r: nat, u: nat)
    requires IsRun(cf, run) && q < |run| && run[q].sh.done
    ensures r < q && SetsDone(run, r, u) && ReadsQuiet(|cf.block|, run, p, r, u)
    ensures Instant(|cf.block|, run, p, q)
    decreases q
  {
    u := DoneBefore(cf, run, q - 1);
    if run[q - 1].sh.done {
      p, r, u := DoubleCollectSound(cf, run, q - 1);
    } else {
      r := q - 1;
      p := ConcludesSince(cf, run, r, u);
    }
  }
}
