/**
 Every fair run finishes: if no worker that can go on is passed over for ever,
 all workers return with the serial result, in every interleaving.
 */
module Fairness {
  import opened State
  import opened Protocol
  import opened Ownership
  import opened Termination
  import opened Runs
  import opened Serial
  import opened Settling
  import Liveness
  import Overshoot

  /** Thread `u` takes a step at `q`; by Liveness.MoveChanges every step changes the program counter. */
  ghost predicate TakesStep(run: nat -> System, q: nat, u: nat) {
    u < |run(q).threads| && u < |run(q + 1).threads| && run(q + 1).threads[u] != run(q).threads[u]
  }

  ghost predicate LaterStep(run: nat -> System, p: nat, u: nat) {
    exists q: nat :: p <= q && TakesStep(run, q, u)
  }

  /** The worker has not returned and does not wait for a lock. */
  predicate Enabled(s: System, u: nat) {
    && u < |s.threads| && s.threads[u] != Sched(Stopped) && s.threads[u] != Panic
    && (Wants(s.threads[u]).Some? ==> !Locked(s.threads, Wants(s.threads[u]).value))
  }

  ghost predicate StaysEnabled(run: nat -> System, p: nat, u: nat) {
    forall q: nat | p <= q :: Enabled(run(q), u)
  }

  ghost predicate FairAt(run: nat -> System, p: nat, u: nat) {
    StaysEnabled(run, p, u) ==> LaterStep(run, p, u)
  }

  /** Weak fairness: a worker that can take a step from some moment on takes one. */
  ghost predicate Fair(cf: Config, run: nat -> System) {
    forall p: nat, u: nat | u < cf.workers :: FairAt(run, p, u)
  }

  // --- Facts about whole runs ---

  /** Workers return only after the done marker is set. */
  ghost predicate StoppedDone(cf: Config, s: System) {
    |s.threads| == cf.workers && forall u: nat | u < |s.threads| && s.threads[u] == Sched(Stopped) :: s.sh.done
  }

  lemma StoppedMove(cf: Config, a: Shared, pc: Pc, b: Shared, pc': Pc)
    requires WellSized(|cf.block|, a) && Move(cf, a, pc, b, pc')
    ensures a.done ==> b.done
    ensures pc' == Sched(Stopped) ==> b.done
  {
    if InRange(|cf.block|, pc) {
      match pc
      case Run(i, c, p) => StoppedRunning(cf, a, i, c, p, b, pc');
      case Fin(_, _, _, _) =>
      case Abort(_, _, _) => assert b.done == a.done;
      case _ =>
    }
  }

  lemma StoppedRunning(cf: Config, a: Shared, i: nat, c: nat, p: RunPc, b: Shared, pc': Pc)
    requires WellSized(|cf.block|, a) && InRange(|cf.block|, Run(i, c, p)) && Running(cf, a, i, c, p, b, pc')
    ensures b.done == a.done && pc' != Sched(Stopped)
  {
  }

  lemma {:induction false} StoppedAlways(cf: Config, run: nat -> System, p: nat)
    requires Forever(cf, run)
    ensures StoppedDone(cf, run(p))
  {
    if p == 0 {
    } else {
      StoppedAlways(cf, run, p - 1);
      StoppedNext(cf, run, p - 1);
    }
  }

  lemma StoppedNext(cf: Config, run: nat -> System, p: nat)
    requires Forever(cf, run) && StoppedDone(cf, run(p))
    ensures StoppedDone(cf, run(p + 1)) && (run(p).sh.done ==> run(p + 1).sh.done)
  {
    assert StepsFrom(cf, run, p);
    if AnyStep(cf, run(p), run(p + 1)) {
      var t: nat :| Step(cf, run(p), t, run(p + 1));
      StoppedMove(cf, run(p).sh, run(p).threads[t], run(p + 1).sh, run(p + 1).threads[t]);
    }
  }

  lemma {:induction false} IndicesBounded(cf: Config, run: nat -> System, p: nat)
    requires Forever(cf, run) && cf.workers > 0
    ensures Overshoot.Bounded(|cf.block|, run(p)) && |run(p).threads| == cf.workers
  {
    if p == 0 {
      assert Those(run(0).threads, Overshoot.WillFetchExec) == {} &&
             Those(run(0).threads, Overshoot.WillFetchVal) == {};
    } else {
      IndicesBounded(cf, run, p - 1);
      BoundedNext(cf, run, p - 1);
    }
  }

  lemma BoundedNext(cf: Config, run: nat -> System, p: nat)
    requires Forever(cf, run) && Overshoot.Bounded(|cf.block|, run(p))
    ensures Overshoot.Bounded(|cf.block|, run(p + 1)) && |run(p + 1).threads| == |run(p).threads|
  {
    assert StepsFrom(cf, run, p);
    if AnyStep(cf, run(p), run(p + 1)) {
      ForeverSafe(cf, run, p);
      var t, at, hist := StepOf(cf, run, p);
      assert ThreadOwns(run(p).sh, run(p).threads[t], at, t);
      Overshoot.BoundedStep(cf, run(p), t, run(p + 1));
    }
  }

  // --- The indices come to rest ---

  ghost predicate Calm(cf: Config, run: nat -> System, m: nat) {
    Forever(cf, run) && Fair(cf, run) && cf.workers > 0 && forall p: nat | m <= p :: StaysAt(cf, run, p)
  }

  lemma LightIndices(cf: Config, a: Shared, pc: Pc, b: Shared, pc': Pc)
    requires WellSized(|cf.block|, a) && InRange(|cf.block|, pc) && Light(pc) && Light(pc') && Move(cf, a, pc, b, pc')
    ensures a.exec <= b.exec && a.val <= b.val && b.cnt == a.cnt
    ensures pc.Claim? && pc.cp.ValFetch? ==> b.val > a.val
    ensures pc.Claim? && pc.cp.ExecFetch? ==> b.exec > a.exec
  {
  }

  ghost function Indices(s: System): (nat, nat, nat) {
    (s.sh.exec, s.sh.val, s.sh.cnt)
  }

  lemma CalmStep(cf: Config, run: nat -> System, m: nat, p: nat)
    requires Calm(cf, run, m) && m <= p
    ensures run(p).sh.exec <= run(p + 1).sh.exec && run(p).sh.val <= run(p + 1).sh.val
    ensures run(p).sh.cnt == run(p + 1).sh.cnt
  {
    ForeverSafe(cf, run, p);
    var at, hist :| Inv(cf, run(p), at, hist);
    assert StaysAt(cf, run, p);
    if SomeLightStep(cf, run(p), run(p + 1)) {
      var t: nat :| LightStep(cf, run(p), t, run(p + 1));
      assert ThreadOwns(run(p).sh, run(p).threads[t], at, t);
      LightIndices(cf, run(p).sh, run(p).threads[t], run(p + 1).sh, run(p + 1).threads[t]);
    }
  }

  lemma {:induction false} CalmGrows(cf: Config, run: nat -> System, m: nat, p: nat, q: nat)
    requires Calm(cf, run, m) && m <= p <= q
    ensures run(p).sh.exec <= run(q).sh.exec && run(p).sh.val <= run(q).sh.val && run(p).sh.cnt == run(q).sh.cnt
    decreases q
  {
    if p == q {
    } else {
      CalmGrows(cf, run, m, p, q - 1);
      CalmStep(cf, run, m, q - 1);
    }
  }

  /** Nothing but the task counter, the done marker and the program counters changes any more. */
  ghost predicate Steady(cf: Config, run: nat -> System, m: nat) {
    Calm(cf, run, m) && forall p: nat | m <= p :: Indices(run(p)) == Indices(run(m))
  }

  lemma {:induction false} BecomesSteady(cf: Config, run: nat -> System, m: nat) returns (q: nat)
    requires Calm(cf, run, m)
    ensures Steady(cf, run, q) && m <= q
    decreases 2 * (|cf.block| + cf.workers) - run(m).sh.exec - run(m).sh.val
  {
    if p: nat :| m <= p && Indices(run(p)) != Indices(run(m)) {
      CalmGrows(cf, run, m, m, p);
      IndicesBounded(cf, run, p);
      assert run(p).sh.exec + run(p).sh.val <= 2 * (|cf.block| + cf.workers);
      q := BecomesSteady(cf, run, p);
    } else {
      q := m;
    }
  }

  // --- One worker at a time ---

  lemma {:induction false} FirstStep(run: nat -> System, u: nat, p: nat, r: nat) returns (q: nat)
    requires p <= r && TakesStep(run, r, u) && forall x: nat :: u < |run(x).threads|
    ensures p <= q && TakesStep(run, q, u) && run(q).threads[u] == run(p).threads[u]
    decreases r - p
  {
    if TakesStep(run, p, u) {
      q := p;
    } else {
      q := FirstStep(run, u, p + 1, r);
    }
  }

  lemma OnlyMover(cf: Config, s: System, s': System, u: nat)
    requires SomeLightStep(cf, s, s') && u < |s.threads| == |s'.threads| && s'.threads[u] != s.threads[u]
    ensures LightStep(cf, s, u, s')
  {
    var t: nat :| LightStep(cf, s, t, s');
    assert s'.threads == s.threads[t := s'.threads[t]];
  }

  lemma ThreadInRange(cf: Config, run: nat -> System, p: nat, u: nat)
    requires Forever(cf, run) && u < cf.workers
    ensures |run(p).threads| == cf.workers && WellSized(|cf.block|, run(p).sh) && InRange(|cf.block|, run(p).threads[u])
  {
    StoppedAlways(cf, run, p);
    ForeverSafe(cf, run, p);
    var at, hist :| Inv(cf, run(p), at, hist);
    assert ThreadOwns(run(p).sh, run(p).threads[u], at, u);
  }

  // --- Once work has died out, every worker keeps taking steps ---

  lemma {:induction false} SamePc(run: nat -> System, u: nat, p: nat, q: nat)
    requires p <= q && !LaterStep(run, p, u) && forall x: nat :: u < |run(x).threads|
    ensures run(q).threads[u] == run(p).threads[u]
    decreases q
  {
    if q == p {
    } else {
      SamePc(run, u, p, q - 1);
      assert !TakesStep(run, q - 1, u);
    }
  }

  lemma AllThreads(cf: Config, run: nat -> System, u: nat)
    requires Forever(cf, run) && u < cf.workers
    ensures forall x: nat :: |run(x).threads| == cf.workers && u < |run(x).threads| && run(x).threads[u] != Panic
  {
    forall x: nat ensures |run(x).threads| == cf.workers && u < |run(x).threads| && run(x).threads[u] != Panic {
      StoppedAlways(cf, run, x);
      ForeverSafe(cf, run, x);
    }
  }

  /** A worker that needs no lock takes another step. */
  lemma FreeSteps(cf: Config, run: nat -> System, u: nat, p: nat)
    requires Forever(cf, run) && Fair(cf, run) && u < cf.workers && u < |run(p).threads|
    requires run(p).threads[u] != Sched(Stopped) && Wants(run(p).threads[u]).None?
    ensures LaterStep(run, p, u)
  {
    AllThreads(cf, run, u);
    assert FairAt(run, p, u);
    if !LaterStep(run, p, u) {
      forall q: nat | p <= q ensures Enabled(run(q), u) {
        SamePc(run, u, p, q);
      }
    }
  }

  /** Nobody holds a dependency lock any more: the holder would go on, and that is work. */
  lemma NoLock(cf: Config, run: nat -> System, m: nat, p: nat, u: nat)
    requires Calm(cf, run, m) && m <= p && u < cf.workers && u < |run(p).threads|
    ensures !(run(p).threads[u].Run? && run(p).threads[u].rp.Park?)
  {
    if run(p).threads[u].Run? && run(p).threads[u].rp.Park? {
      AllThreads(cf, run, u);
      FreeSteps(cf, run, u, p);
      var r: nat :| p <= r && TakesStep(run, r, u);
      var q := FirstStep(run, u, p, r);
      assert StaysAt(cf, run, q);
      OnlyMover(cf, run(q), run(q + 1), u);
    }
  }

  lemma KeepsStepping(cf: Config, run: nat -> System, m: nat, u: nat, p: nat)
    requires Calm(cf, run, m) && m <= p && u < cf.workers && u < |run(p).threads|
    requires run(p).threads[u] != Sched(Stopped)
    ensures LaterStep(run, p, u)
  {
    AllThreads(cf, run, u);
    assert FairAt(run, p, u);
    if !LaterStep(run, p, u) {
      forall q: nat | p <= q ensures Enabled(run(q), u) {
        SamePc(run, u, p, q);
        forall v: nat, d: nat | v < |run(q).threads| ensures !Locks(run(q).threads[v], d) {
          NoLock(cf, run, m, q, v);
        }
      }
    }
  }

  /** The next step of worker `u`. */
  lemma NextOf(cf: Config, run: nat -> System, m: nat, u: nat, p: nat) returns (q: nat)
    requires Steady(cf, run, m) && m <= p && u < cf.workers && u < |run(p).threads|
    requires run(p).threads[u] != Sched(Stopped)
    ensures p <= q && u < |run(q).threads| && u < |run(q + 1).threads| && run(q).threads[u] == run(p).threads[u]
    ensures LightStep(cf, run(q), u, run(q + 1)) && InRange(|cf.block|, run(q).threads[u])
  {
    AllThreads(cf, run, u);
    KeepsStepping(cf, run, m, u, p);
    var r: nat :| p <= r && TakesStep(run, r, u);
    q := FirstStep(run, u, p, r);
    assert StaysAt(cf, run, q);
    OnlyMover(cf, run(q), run(q + 1), u);
    ThreadInRange(cf, run, q, u);
  }

  // --- Once the indices are at rest nobody claims anything ---

  predicate Fetching(pc: Pc) {
    pc.Claim? && (pc.cp.ValFetch? || pc.cp.ExecFetch?)
  }

  predicate Guarding(pc: Pc) {
    pc.Sched? && (pc.sp.ValGuard? || pc.sp.ExecGuard?)
  }

  lemma NotFetching(cf: Config, run: nat -> System, m: nat, u: nat, p: nat)
    requires Steady(cf, run, m) && m <= p && u < cf.workers && u < |run(p).threads|
    ensures !Fetching(run(p).threads[u])
  {
    if Fetching(run(p).threads[u]) {
      var q := NextOf(cf, run, m, u, p);
      assert Indices(run(q)) == Indices(run(m)) == Indices(run(q + 1));
      LightIndices(cf, run(q).sh, run(q).threads[u], run(q + 1).sh, run(q + 1).threads[u]);
    }
  }

  lemma NotGuarding(cf: Config, run: nat -> System, m: nat, u: nat, p: nat)
    requires Steady(cf, run, m) && m <= p && u < cf.workers && u < |run(p).threads|
    ensures !Guarding(run(p).threads[u])
  {
    if Guarding(run(p).threads[u]) {
      var q := NextOf(cf, run, m, u, p);
      NotFetching(cf, run, m, u, q + 1);
    }
  }

  /** A worker that tries for a task finds that index past the block. */
  predicate TriesInVain(n: nat, s: System, pc: Pc) {
    (pc.Sched? && pc.sp.TryVal? ==> s.sh.val >= n) && (pc.Sched? && pc.sp.TryExec? ==> s.sh.exec >= n)
  }

  lemma TryingInVain(cf: Config, run: nat -> System, m: nat, u: nat, p: nat)
    requires Steady(cf, run, m) && m <= p && u < cf.workers && u < |run(p).threads|
    ensures TriesInVain(|cf.block|, run(m), run(p).threads[u])
  {
    if !TriesInVain(|cf.block|, run(m), run(p).threads[u]) {
      var q := NextOf(cf, run, m, u, p);
      assert Indices(run(q)) == Indices(run(m));
      NotGuarding(cf, run, m, u, q + 1);
    }
  }

  // --- Every worker comes back to next_task ---

  /** How far a worker is from its next turn, if it gets no new task. */
  function Stage(pc: Pc): nat {
    match pc
    case Claim(ValFetch(_)) => 24
    case Claim(ExecFetch) => 24
    case Sched(ValGuard(_)) => 23
    case Sched(ExecGuard) => 23
    case Claim(ValStatus(_, _)) => 22
    case Val(_, _, LoadSet) => 21
    case Val(_, _, Checking(_)) => 20
    case Val(_, _, TryAbort) => 19
    case Claim(ExecStatus(_)) => 19
    case Claim(Drop(_)) => 18
    case Sched(LoadVal) => 17
    case Sched(LoadExec(_)) => 16
    case Sched(TryVal(Fall(_, _))) => 15
    case Check(Fall(_, _), p) => 8 + DoneStage(p)
    case Sched(TryVal(Again)) => 7
    case Sched(TryExec) => 7
    case Check(Again, p) => DoneStage(p)
    case _ => 0
  }

  function DoneStage(p: DonePc): nat {
    match p
    case ReadCnt => 6
    case ReadVal(_) => 5
    case ReadExec(_, _) => 4
    case ReadTasks(_, _, _) => 3
    case ReadCntAgain(_) => 2
    case SetDone => 1
  }

  function LeftToCheck(pc: Pc): nat {
    match pc
    case Val(_, _, Checking(todo)) => |todo|
    case _ => 0
  }

  lemma StageFalls(cf: Config, a: Shared, pc: Pc, b: Shared, pc': Pc)
    requires WellSized(|cf.block|, a) && InRange(|cf.block|, pc) && Light(pc) && Light(pc') && Move(cf, a, pc, b, pc')
    requires pc != Sched(Idle) && !Fetching(pc) && !Guarding(pc)
    requires pc.Sched? && pc.sp.TryVal? ==> a.val >= |cf.block|
    requires pc.Sched? && pc.sp.TryExec? ==> a.exec >= |cf.block|
    ensures Stage(pc') < Stage(pc) || (Stage(pc') == Stage(pc) && LeftToCheck(pc') < LeftToCheck(pc))
  {
  }

  /** One step closer. */
  lemma Closer(cf: Config, run: nat -> System, m: nat, u: nat, p: nat) returns (q: nat)
    requires Steady(cf, run, m) && m <= p && u < cf.workers && u < |run(p).threads|
    requires run(p).threads[u] != Sched(Stopped) && run(p).threads[u] != Sched(Idle)
    ensures p < q && u < |run(q).threads|
    ensures var pc, pc' := run(p).threads[u], run(q).threads[u];
            Stage(pc') < Stage(pc) || (Stage(pc') == Stage(pc) && LeftToCheck(pc') < LeftToCheck(pc))
  {
    var r := NextOf(cf, run, m, u, p);
    NotFetching(cf, run, m, u, r);
    NotGuarding(cf, run, m, u, r);
    TryingInVain(cf, run, m, u, r);
    assert Indices(run(r)) == Indices(run(m));
    StageFalls(cf, run(r).sh, run(r).threads[u], run(r + 1).sh, run(r + 1).threads[u]);
    q := r + 1;
  }

  lemma {:induction false} ReachIdle(cf: Config, run: nat -> System, m: nat, u: nat, p: nat) returns (q: nat)
    requires Steady(cf, run, m) && m <= p && u < cf.workers && u < |run(p).threads|
    ensures p <= q && u < |run(q).threads| && (run(q).threads[u] == Sched(Idle) || run(q).threads[u] == Sched(Stopped))
    decreases Stage(run(p).threads[u]), LeftToCheck(run(p).threads[u])
  {
    if run(p).threads[u] == Sched(Idle) || run(p).threads[u] == Sched(Stopped) {
      q := p;
    } else {
      var r := Closer(cf, run, m, u, p);
      q := ReachIdle(cf, run, m, u, r);
    }
  }

  /** The next step of a worker, with the shared values it sees. */
  lemma StepOnce(cf: Config, run: nat -> System, m: nat, u: nat, p: nat) returns (q: nat)
    requires Steady(cf, run, m) && m <= p && u < cf.workers && u < |run(p).threads|
    requires run(p).threads[u] != Sched(Stopped)
    ensures p < q && u < |run(q).threads| && WellSized(|cf.block|, run(q - 1).sh)
    ensures Move(cf, run(q - 1).sh, run(p).threads[u], run(q).sh, run(q).threads[u])
    ensures Indices(run(q - 1)) == Indices(run(m)) && InRange(|cf.block|, run(p).threads[u])
    ensures !Guarding(run(q).threads[u])
  {
    var r := NextOf(cf, run, m, u, p);
    q := r + 1;
    NotGuarding(cf, run, m, u, q);
  }

  /** A worker at the start of its turn reads both indices and chooses. */
  lemma FreshChoice(cf: Config, run: nat -> System, m: nat, u: nat, p: nat) returns (q: nat)
    requires Steady(cf, run, m) && m <= p && u < cf.workers && u < |run(p).threads|
    ensures p <= q && u < |run(q).threads|
    ensures run(q).sh.done || run(q).threads[u] == Choose(cf, run(m).sh.val, run(m).sh.exec)
  {
    q := ReachIdle(cf, run, m, u, p);
    if run(q).threads[u] == Sched(Stopped) {
      StoppedAlways(cf, run, q);
    } else {
      q := StepOnce(cf, run, m, u, q);
      if run(q).threads[u] == Sched(Stopped) {
        StoppedAlways(cf, run, q);
      } else {
        q := StepOnce(cf, run, m, u, q);
        q := StepOnce(cf, run, m, u, q);
      }
    }
  }

  /** A worker held at a boundary falls through to the normal choice. */
  lemma {:induction false} FallThrough(cf: Config, run: nat -> System, m: nat, u: nat, p: nat, v: nat, e: nat)
    returns (q: nat)
    requires Steady(cf, run, m) && m <= p && u < cf.workers && u < |run(p).threads|
    requires var pc := run(p).threads[u]; pc == Sched(TryVal(Fall(v, e))) || (pc.Check? && pc.k == Fall(v, e))
    ensures p <= q && u < |run(q).threads| && run(q).threads[u] == Unthrottled(v, e)
    decreases Stage(run(p).threads[u])
  {
    q := StepOnce(cf, run, m, u, p);
    if run(q).threads[u] != Unthrottled(v, e) {
      q := FallThrough(cf, run, m, u, q, v, e);
    }
  }

  /** Both indices are past the block, or the run has finished. */
  lemma IndicesPast(cf: Config, run: nat -> System, m: nat) returns (q: nat)
    requires Steady(cf, run, m)
    ensures run(q).sh.done || (run(m).sh.val >= |cf.block| && run(m).sh.exec >= |cf.block|)
  {
    StoppedAlways(cf, run, m);
    var v, e := run(m).sh.val, run(m).sh.exec;
    q := FreshChoice(cf, run, m, 0, m);
    if !run(q).sh.done {
      TryingInVain(cf, run, m, 0, q);
      if run(q).threads[0] == Sched(TryVal(Fall(v, e))) {
        var r := FallThrough(cf, run, m, 0, q, v, e);
        TryingInVain(cf, run, m, 0, r);
      }
    }
  }

  // --- The task counter comes down to zero ---

  lemma {:induction false} UnguardedStays(cf: Config, run: nat -> System, m: nat, u: nat, p: nat, q: nat)
    requires Steady(cf, run, m) && m <= p <= q && u < cf.workers && u < |run(p).threads| && !Holds(run(p).threads[u])
    ensures u < |run(q).threads| && !Holds(run(q).threads[u])
    decreases q
  {
    if p == q {
    } else {
      UnguardedStays(cf, run, m, u, p, q - 1);
      NotGuarding(cf, run, m, u, q - 1);
      UnguardedNext(cf, run, m, u, q - 1);
    }
  }

  lemma UnguardedNext(cf: Config, run: nat -> System, m: nat, u: nat, p: nat)
    requires Steady(cf, run, m) && m <= p && u < cf.workers && u < |run(p).threads|
    requires !Holds(run(p).threads[u]) && !Guarding(run(p).threads[u])
    ensures u < |run(p + 1).threads| && !Holds(run(p + 1).threads[u])
  {
    ThreadInRange(cf, run, p, u);
    ThreadInRange(cf, run, p + 1, u);
    assert StaysAt(cf, run, p);
    if run(p + 1).threads[u] != run(p).threads[u] {
      OnlyMover(cf, run(p), run(p + 1), u);
      PlainMove(cf, run(p).sh, run(p).threads[u], run(p + 1).sh, run(p + 1).threads[u]);
    }
  }

  ghost predicate Unguarded(run: nat -> System, c: nat, q: nat) {
    forall p: nat, u: nat | q <= p && u < c :: u < |run(p).threads| ==> !Holds(run(p).threads[u])
  }

  lemma {:induction false} AllDrained(cf: Config, run: nat -> System, m: nat, c: nat) returns (q: nat)
    requires Steady(cf, run, m) && c <= cf.workers
    ensures m <= q && Unguarded(run, c, q)
  {
    if c == 0 {
      q := m;
    } else {
      var r := AllDrained(cf, run, m, c - 1);
      StoppedAlways(cf, run, r);
      q := ReachIdle(cf, run, m, c - 1, r);
      forall p: nat, u: nat | q <= p && u < c && u < |run(p).threads| ensures !Holds(run(p).threads[u]) {
        if u == c - 1 { UnguardedStays(cf, run, m, u, q, p); }
      }
    }
  }

  lemma NoneActive(cf: Config, run: nat -> System, q: nat, p: nat)
    requires Forever(cf, run) && Unguarded(run, cf.workers, q) && q <= p
    ensures run(p).sh.active == 0
  {
    ForeverSafe(cf, run, p);
    var at, hist :| Inv(cf, run(p), at, hist);
    StoppedAlways(cf, run, p);
    assert Those(run(p).threads, Holds) == {};
  }

  // --- The last double collect ---

  /** The first three loads of check_done see the resting values. */
  lemma CollectsFirst(cf: Config, run: nat -> System, m: nat, p: nat, k: Cont) returns (q: nat)
    requires Steady(cf, run, m) && m <= p && |run(p).threads| > 0 && run(p).threads[0] == Check(k, ReadCnt)
    ensures p <= q && |run(q).threads| > 0
    ensures run(q).threads[0] == Check(k, ReadTasks(run(m).sh.cnt, run(m).sh.val, run(m).sh.exec))
  {
    q := StepOnce(cf, run, m, 0, p);
    q := StepOnce(cf, run, m, 0, q);
    q := StepOnce(cf, run, m, 0, q);
  }

  /** A worker that reads the counters now sets the done marker. */
  lemma Collects(cf: Config, run: nat -> System, m: nat, r: nat, p: nat, k: Cont) returns (q: nat)
    requires Steady(cf, run, m) && m <= r <= p && Unguarded(run, cf.workers, r) && |run(p).threads| > 0
    requires run(m).sh.val >= |cf.block| && run(m).sh.exec >= |cf.block| && run(p).threads[0] == Check(k, ReadCnt)
    ensures run(q).sh.done
  {
    q := CollectsFirst(cf, run, m, p, k);
    q := StepOnce(cf, run, m, 0, q);
    NoneActive(cf, run, r, q - 1);
    q := StepOnce(cf, run, m, 0, q);
    q := StepOnce(cf, run, m, 0, q);
  }

  lemma BecomesDone(cf: Config, run: nat -> System, m: nat) returns (q: nat)
    requires Steady(cf, run, m)
    ensures run(q).sh.done
  {
    q := IndicesPast(cf, run, m);
    if !run(q).sh.done {
      var r := AllDrained(cf, run, m, cf.workers);
      StoppedAlways(cf, run, r);
      q := FreshChoice(cf, run, m, 0, r);
      if !run(q).sh.done {
        var p := StepOnce(cf, run, m, 0, q);
        q := Collects(cf, run, m, r, p, run(p).threads[0].k);
      }
    }
  }

  // --- All workers return ---

  lemma {:induction false} DoneStays(cf: Config, run: nat -> System, p: nat, q: nat)
    requires Forever(cf, run) && run(p).sh.done && p <= q
    ensures run(q).sh.done
    decreases q
  {
    if p == q {
    } else {
      DoneStays(cf, run, p, q - 1);
      StoppedAlways(cf, run, q - 1);
      StoppedNext(cf, run, q - 1);
    }
  }

  lemma {:induction false} StoppedStays(cf: Config, run: nat -> System, u: nat, p: nat, q: nat)
    requires Forever(cf, run) && p <= q && u < |run(p).threads| && run(p).threads[u] == Sched(Stopped)
    ensures u < |run(q).threads| && run(q).threads[u] == Sched(Stopped)
    decreases q
  {
    if p == q {
    } else {
      StoppedStays(cf, run, u, p, q - 1);
      assert StepsFrom(cf, run, q - 1);
      StoppedStep(cf, run(q - 1), run(q), u);
    }
  }

  lemma StoppedStep(cf: Config, s: System, s': System, u: nat)
    requires AnyStep(cf, s, s') || s' == s
    requires u < |s.threads| && s.threads[u] == Sched(Stopped)
    ensures u < |s'.threads| && s'.threads[u] == Sched(Stopped)
  {
    if s' != s { var t: nat :| Step(cf, s, t, s'); }
  }

  lemma {:induction false} FirstReturn(cf: Config, run: nat -> System, m: nat, p: nat, c: nat) returns (q: nat)
    requires Steady(cf, run, m) && m <= p && run(p).sh.done && c <= cf.workers
    ensures p <= q && |run(q).threads| == cf.workers && forall u: nat | u < c :: run(q).threads[u] == Sched(Stopped)
  {
    if c == 0 {
      q := p;
      StoppedAlways(cf, run, q);
    } else {
      var r := FirstReturn(cf, run, m, p, c - 1);
      q := ReachIdle(cf, run, m, c - 1, r);
      if run(q).threads[c - 1] == Sched(Idle) {
        q := StepOnce(cf, run, m, c - 1, q);
        DoneStays(cf, run, p, q - 1);
      }
      StoppedAlways(cf, run, q);
      forall u: nat | u < c - 1 ensures run(q).threads[u] == Sched(Stopped) {
        StoppedStays(cf, run, u, r, q);
      }
    }
  }

  /**
   Total correctness. For every block, every number of workers, every window and
   every plan: if no worker that can go on is passed over for ever, then all
   workers return, every transaction is executed, and the outputs applied in
   index order give the state of the serial execution.
   */
  lemma FairRunsFinish(cf: Config, run: nat -> System) returns (q: nat)
    requires Forever(cf, run) && Fair(cf, run) && cf.workers > 0
    ensures Returned(run(q)) && run(q).sh.done
    ensures Settled(cf, run(q).sh) && Replay(Outputs(run(q).sh)) == SerialState(cf.block)
  {
    var calm := WorkDiesOut(cf, run);
    var m := BecomesSteady(cf, run, calm);
    var p := BecomesDone(cf, run, m);
    var r := if p < m then m else p;
    DoneStays(cf, run, p, r);
    q := FirstReturn(cf, run, m, r, cf.workers);
    DoneStays(cf, run, r, q);
    ForeverSafe(cf, run, q);
    var at, hist :| Inv(cf, run(q), at, hist);
    QuietSerial(cf, run(q), at, hist);
  }

  // --- Runs that cannot go on ---

  lemma {:induction false} StoppedInRun(cf: Config, run: seq<System>, q: nat)
    requires IsRun(cf, run) && q < |run|
    ensures StoppedDone(cf, run[q])
  {
    if q == 0 {
    } else {
      StoppedInRun(cf, run, q - 1);
      assert StepsAt(cf, run, q - 1);
      var t: nat :| Step(cf, run[q - 1], t, run[q]);
      StoppedMove(cf, run[q - 1].sh, run[q - 1].threads[t], run[q].sh, run[q].threads[t]);
    }
  }

  /** A run that cannot be continued has finished, with the serial result. */
  lemma MaximalRunsFinish(cf: Config, run: seq<System>)
    requires IsRun(cf, run) && cf.workers > 0 && forall s' :: !AnyStep(cf, Last(run), s')
    ensures Returned(Last(run)) && Last(run).sh.done
    ensures Settled(cf, Last(run).sh) && Replay(Outputs(Last(run).sh)) == SerialState(cf.block)
  {
    StoppedInRun(cf, run, |run| - 1);
    forall t: nat | t < |Last(run).threads| ensures Last(run).threads[t] == Sched(Stopped) {
      if Last(run).threads[t] != Sched(Stopped) { var s' := Liveness.NeverStuck(cf, run, |run| - 1, t); }
    }
    assert Last(run).threads[0] == Sched(Stopped);
    SerialEquivalence(cf, run);
  }
}
