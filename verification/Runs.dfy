/**
 Runs of the executor and what holds in every state of every run, for every
 block, every number of workers, every window and every plan.
 */
module Runs {
  import opened Protocol
  import opened Ownership
  import opened Footprint
  import opened ReadLog
  import opened Coverage
  import opened Progress
  import opened Termination

  ghost predicate AnyStep(cf: Config, s: System, s': System) {
    WellSized(|cf.block|, s.sh) && exists t: nat :: Step(cf, s, t, s')
  }

  ghost predicate IsRun(cf: Config, run: seq<System>) {
    && |run| > 0 && Init(cf, run[0])
    && forall p: nat | p + 1 < |run| :: StepsAt(cf, run, p)
  }

  ghost predicate StepsAt(cf: Config, run: seq<System>, p: nat)
    requires p + 1 < |run|
  {
    AnyStep(cf, run[p], run[p + 1])
  }

  ghost function Last(run: seq<System>): System
    requires |run| > 0
  {
    run[|run| - 1]
  }

  /** The inductive invariant; `at` and `hist` are bookkeeping of the proof. */
  ghost predicate Inv(cf: Config, s: System, at: seq<Place>, hist: History) {
    && Owned(|cf.block|, s, at)
    && Footprints(|cf.block|, s, hist)
    && AllLogged(cf, s, hist)
    && AllCovered(|cf.block|, s)
    && AllFetched(|cf.block|, s)
    && NoneLost(|cf.block|, s)
    && Counted(s)
    && Collected(|cf.block|, s)
    && (forall u: nat | u < |s.threads| :: s.threads[u] != Panic)
  }

  ghost predicate Safe(cf: Config, s: System) {
    exists at: seq<Place>, hist: History :: Inv(cf, s, at, hist)
  }

  lemma InitSafe(cf: Config, s: System)
    requires Init(cf, s)
    ensures Safe(cf, s)
  {
    var n := |cf.block|;
    var at: seq<Place> := seq(n, _ => Free);
    var hist: History := map[];
    assert Owned(n, s, at);
    assert Those(s.threads, Holds) == {};
    assert Footprints(n, s, hist);
    assert AllLogged(cf, s, hist);
    assert forall u: nat | u < |s.threads| :: s.threads[u] == Sched(Idle);
    assert AllCovered(n, s) && AllFetched(n, s) && NoneLost(n, s);
    assert Inv(cf, s, at, hist);
  }

  /** No step of any thread panics. */
  lemma NoPanicStep(cf: Config, s: System, t: nat, s': System, at: seq<Place>, hist: History)
    requires Inv(cf, s, at, hist) && Step(cf, s, t, s')
    ensures s'.threads[t] != Panic
  {
    assert ThreadOwns(s.sh, s.threads[t], at, t);
    match s.threads[t]
    case Sched(p) =>
    case Check(k, p) =>
    case Claim(p) => ThoseReplace(s.threads, t, s'.threads[t], Holds);
    case Run(i, c, p) => FootprintsRunning(cf, s, t, s', at, hist);
    case Fin(i, c, outside, p) => FootprintsFinishing(cf, s, t, s', at, hist);
    case Val(i, c, p) =>
      RecordsNothing(cf, s.sh, s.threads[t], s'.sh, s'.threads[t]);
      LoggedElse(cf, s.sh, s.threads[t], s'.sh, s'.threads[t], hist);
    case Abort(i, c, p) => FootprintsAborting(cf, s, t, s', at, hist);
    case Redo(i, p) =>
  }

  lemma StepSafe(cf: Config, s: System, t: nat, s': System, at: seq<Place>, hist: History)
    returns (at': seq<Place>, hist': History)
    requires Inv(cf, s, at, hist) && Step(cf, s, t, s')
    ensures Inv(cf, s', at', hist') && hist' == Extend(hist, s.threads[t], s'.threads[t])
  {
    NoPanicStep(cf, s, t, s', at, hist);
    assert ThreadOwns(s.sh, s.threads[t], at, t);
    hist' := Extend(hist, s.threads[t], s'.threads[t]);
    at' := OwnedStep(cf, s, t, s', at);
    assert ThreadOwns(s'.sh, s'.threads[t], at', t);
    FootprintsStep(cf, s, t, s', at, hist);
    AllLoggedStep(cf, s, t, s', at, hist);
    AllCoveredStep(cf, s, t, s', at, hist);
    AllFetchedStep(cf, s, t, s');
    NoneLostStep(cf, s, t, s');
    CountedStep(cf, s, t, s');
    CollectedStep(cf, s, t, s');
  }

  /** The invariant holds in every state of every run. */
  lemma {:induction false} RunSafe(cf: Config, run: seq<System>, q: nat)
    requires IsRun(cf, run) && q < |run|
    ensures Safe(cf, run[q])
    decreases q
  {
    if q == 0 {
      InitSafe(cf, run[0]);
    } else {
      RunSafe(cf, run, q - 1);
      var at, hist :| Inv(cf, run[q - 1], at, hist);
      assert StepsAt(cf, run, q - 1);
      var t: nat :| Step(cf, run[q - 1], t, run[q]);
      var at', hist' := StepSafe(cf, run[q - 1], t, run[q], at, hist);
    }
  }

  /** Step `q` of a run, from a state in which the invariant holds. */
  lemma StepAt(cf: Config, run: seq<System>, q: nat) returns (t: nat, at: seq<Place>, hist: History)
    requires IsRun(cf, run) && q + 1 < |run|
    ensures Inv(cf, run[q], at, hist) && Step(cf, run[q], t, run[q + 1]) && WellSized(|cf.block|, run[q + 1].sh)
    ensures Sane(|cf.block|, run[q].threads[t]) && run[q + 1].threads[t] != Panic
  {
    RunSafe(cf, run, q);
    at, hist :| Inv(cf, run[q], at, hist);
    assert StepsAt(cf, run, q);
    t :| Step(cf, run[q], t, run[q + 1]);
    assert ThreadOwns(run[q].sh, run[q].threads[t], at, t);
    NoPanicStep(cf, run[q], t, run[q + 1], at, hist);
    FootprintsStep(cf, run[q], t, run[q + 1], at, hist);
  }
}
