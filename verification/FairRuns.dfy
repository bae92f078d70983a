/**
 Fair runs exist: every finite run goes on to a fair one, by giving the workers
 turns, and therefore to a finished one.
 */
module FairRuns {
  import opened State
  import opened Protocol
  import opened Runs
  import opened Serial
  import opened Settling
  import opened Fairness
  import Liveness

  // --- One turn ---

  ghost predicate StepBy(cf: Config, s: System, u: nat, s': System) {
    WellSized(|cf.block|, s.sh) && Step(cf, s, u, s')
  }

  /** A step of worker `u` if it can take one, else any step, else none. */
  ghost function Next(cf: Config, s: System, u: nat): System {
    if exists s' :: StepBy(cf, s, u, s') then
      var s' :| StepBy(cf, s, u, s'); s'
    else if exists s' :: AnyStep(cf, s, s') then
      var s' :| AnyStep(cf, s, s'); s'
    else s
  }

  /** A step, or none because all have returned. */
  ghost predicate Goes(cf: Config, s: System, s': System) {
    AnyStep(cf, s, s') || (Returned(s) && s' == s)
  }

  /** If worker `u` can take a step it has taken one. */
  ghost predicate Served(s: System, u: nat, s': System) {
    Enabled(s, u) ==> u < |s'.threads| && s'.threads[u] != s.threads[u]
  }

  lemma NextSteps(cf: Config, s: System, u: nat)
    requires Safe(cf, s)
    ensures Goes(cf, s, Next(cf, s, u))
  {
    if s' :| StepBy(cf, s, u, s') {
      assert StepBy(cf, s, u, Next(cf, s, u));
    } else if t: nat :| t < |s.threads| && s.threads[t] != Sched(Stopped) {
      var s' := Liveness.CanStep(cf, s, t);
    }
  }

  lemma NextServes(cf: Config, s: System, u: nat)
    requires Safe(cf, s)
    ensures Served(s, u, Next(cf, s, u))
  {
    if Enabled(s, u) {
      var b, pc' := Liveness.CanMove(cf, s.sh, s.threads[u]);
      assert StepBy(cf, s, u, System(b, s.threads[u := pc']));
      var s' := Next(cf, s, u);
      assert StepBy(cf, s, u, s');
      Liveness.MoveChanges(cf, s.sh, s.threads[u], s'.sh, s'.threads[u]);
    }
  }

  lemma StepKeepsSafe(cf: Config, s: System, s': System)
    requires Safe(cf, s) && AnyStep(cf, s, s')
    ensures Safe(cf, s')
  {
    var at, hist :| Inv(cf, s, at, hist);
    var t: nat :| Step(cf, s, t, s');
    var at', hist' := StepSafe(cf, s, t, s', at, hist);
  }

  // --- Turn after turn ---

  type Pick = (System, nat) -> System

  ghost predicate Picks(cf: Config, pick: Pick) {
    forall s, u :: Safe(cf, s) ==> Goes(cf, s, pick(s, u)) && Served(s, u, pick(s, u))
  }

  /** Whose turn it is at `p`, going round among `n` workers. */
  function Whose(p: nat, n: nat): nat
    requires n > 0
  {
    if p < n then p else Whose(p - n, n)
  }

  /** The run `prefix`, and then turn after turn. */
  ghost function Turn(cf: Config, prefix: seq<System>, pick: Pick, p: nat): System
    requires |prefix| > 0 && cf.workers > 0
  {
    if p < |prefix| then prefix[p] else pick(Turn(cf, prefix, pick, p - 1), Whose(p - 1, cf.workers))
  }

  lemma {:induction false} TurnSafe(cf: Config, prefix: seq<System>, pick: Pick, p: nat)
    requires IsRun(cf, prefix) && cf.workers > 0 && Picks(cf, pick)
    ensures Safe(cf, Turn(cf, prefix, pick, p))
  {
    if p < |prefix| {
      RunSafe(cf, prefix, p);
    } else {
      TurnSafe(cf, prefix, pick, p - 1);
      var s, s' := Turn(cf, prefix, pick, p - 1), Turn(cf, prefix, pick, p);
      assert Goes(cf, s, s');
      if AnyStep(cf, s, s') { StepKeepsSafe(cf, s, s'); }
    }
  }

  ghost function Turns(cf: Config, prefix: seq<System>, pick: Pick): nat -> System
    requires |prefix| > 0 && cf.workers > 0
  {
    (p: nat) => Turn(cf, prefix, pick, p)
  }

  lemma TurnsForever(cf: Config, prefix: seq<System>, pick: Pick)
    requires IsRun(cf, prefix) && cf.workers > 0 && Picks(cf, pick)
    ensures Forever(cf, Turns(cf, prefix, pick))
  {
    var run := Turns(cf, prefix, pick);
    forall p: nat ensures StepsFrom(cf, run, p) {
      if p + 1 < |prefix| {
        assert StepsAt(cf, prefix, p);
      } else {
        TurnSafe(cf, prefix, pick, p);
        assert Goes(cf, run(p), run(p + 1));
      }
    }
  }

  // --- The turns are fair ---

  /** Everybody's turn comes again. */
  lemma {:induction false} TurnComes(p: nat, n: nat, u: nat) returns (q: nat)
    requires u < n
    ensures p <= q && Whose(q, n) == u
  {
    if p == 0 {
      q := u;
    } else {
      q := TurnComes(p - 1, n, u);
      if q < p {
        assert Whose(q + n, n) == Whose(q, n);
        q := q + n;
      }
    }
  }

  /** From `from` on, worker `u` uses its turn at `q` if it can. */
  ghost predicate UsesTurn(run: nat -> System, n: nat, from: nat, u: nat, q: nat)
    requires n > 0
  {
    from <= q && Whose(q, n) == u && Enabled(run(q), u) ==> TakesStep(run, q, u)
  }

  lemma FairByTurns(run: nat -> System, n: nat, from: nat, u: nat, p: nat)
    requires u < n && forall q: nat :: UsesTurn(run, n, from, u, q)
    ensures FairAt(run, p, u)
  {
    if StaysEnabled(run, p, u) {
      var q := TurnComes(p + from, n, u);
      assert UsesTurn(run, n, from, u, q) && Enabled(run(q), u);
      assert p <= q && TakesStep(run, q, u);
    }
  }

  lemma TurnsUsed(cf: Config, prefix: seq<System>, pick: Pick, u: nat, q: nat)
    requires IsRun(cf, prefix) && u < cf.workers && Picks(cf, pick)
    ensures UsesTurn(Turns(cf, prefix, pick), cf.workers, |prefix|, u, q)
  {
    if |prefix| <= q && Whose(q, cf.workers) == u { TurnServes(cf, prefix, pick, u, q); }
  }

  lemma TurnServes(cf: Config, prefix: seq<System>, pick: Pick, u: nat, q: nat)
    requires IsRun(cf, prefix) && u < cf.workers && Picks(cf, pick) && |prefix| <= q && Whose(q, cf.workers) == u
    ensures Served(Turn(cf, prefix, pick, q), u, Turn(cf, prefix, pick, q + 1))
  {
    TurnSafe(cf, prefix, pick, q);
  }

  /** Every finite run is the beginning of a fair one. */
  lemma FairExtension(cf: Config, prefix: seq<System>) returns (run: nat -> System)
    requires IsRun(cf, prefix) && cf.workers > 0
    ensures Forever(cf, run) && Fair(cf, run)
    ensures forall p: nat | p < |prefix| :: run(p) == prefix[p]
  {
    var pick: Pick := (s: System, u: nat) => Next(cf, s, u);
    forall s, u | Safe(cf, s) ensures Goes(cf, s, pick(s, u)) && Served(s, u, pick(s, u)) {
      NextSteps(cf, s, u);
      NextServes(cf, s, u);
    }
    run := PickedExtension(cf, prefix, pick);
  }

  lemma PickedExtension(cf: Config, prefix: seq<System>, pick: Pick) returns (run: nat -> System)
    requires IsRun(cf, prefix) && cf.workers > 0 && Picks(cf, pick)
    ensures Forever(cf, run) && Fair(cf, run)
    ensures forall p: nat | p < |prefix| :: run(p) == prefix[p]
  {
    run := Turns(cf, prefix, pick);
    TurnsForever(cf, prefix, pick);
    forall p: nat, u: nat | u < cf.workers ensures FairAt(run, p, u) {
      forall q: nat ensures UsesTurn(run, cf.workers, |prefix|, u, q) {
        TurnsUsed(cf, prefix, pick, u, q);
      }
      FairByTurns(run, cf.workers, |prefix|, u, p);
    }
  }

  /** Every configuration has a fair run. */
  lemma FairRunExists(cf: Config) returns (run: nat -> System)
    requires cf.workers > 0
    ensures Forever(cf, run) && Fair(cf, run)
  {
    var n := |cf.block|;
    var a := Shared(0, 0, 0, 0, false, seq(n, _ => ReadyToExecute(0)), seq(n, _ => []), seq(n, _ => map[]),
                    seq(n, _ => None), seq(n, _ => None));
    var s := System(a, seq(cf.workers, _ => Sched(Idle)));
    assert Init(cf, s) && IsRun(cf, [s]);
    run := FairExtension(cf, [s]);
  }

  // --- Every run can still finish ---

  lemma ReturnedStays(cf: Config, run: nat -> System, p: nat, q: nat)
    requires Forever(cf, run) && Returned(run(p)) && p <= q
    ensures Returned(run(q))
  {
    StoppedAlways(cf, run, p);
    StoppedAlways(cf, run, q);
    forall u: nat | u < |run(q).threads| ensures run(q).threads[u] == Sched(Stopped) {
      StoppedStays(cf, run, u, p, q);
    }
  }

  lemma {:induction false} FirstReturned(run: nat -> System, p: nat, r: nat) returns (q: nat)
    requires p <= r && Returned(run(r))
    ensures p <= q <= r && Returned(run(q)) && forall x: nat | p <= x < q :: !Returned(run(x))
    decreases r - p
  {
    if Returned(run(p)) {
      q := p;
    } else {
      q := FirstReturned(run, p + 1, r);
    }
  }

  ghost function Cut(run: nat -> System, q: nat): seq<System> {
    seq(q + 1, x requires 0 <= x => run(x))
  }

  lemma CutIsRun(cf: Config, prefix: seq<System>, run: nat -> System, q: nat)
    requires IsRun(cf, prefix) && Forever(cf, run) && |prefix| <= q + 1
    requires forall p: nat | p < |prefix| :: run(p) == prefix[p]
    requires forall x: nat | |prefix| - 1 <= x < q :: !Returned(run(x))
    ensures IsRun(cf, Cut(run, q)) && prefix <= Cut(run, q)
  {
    forall p: nat | p + 1 < q + 1 ensures StepsAt(cf, Cut(run, q), p) {
      if p + 1 < |prefix| {
        assert StepsAt(cf, prefix, p);
      } else {
        assert StepsFrom(cf, run, p);
      }
    }
  }

  lemma CutAtReturn(cf: Config, prefix: seq<System>, run: nat -> System, end: nat) returns (full: seq<System>)
    requires IsRun(cf, prefix) && Forever(cf, run) && Returned(run(end))
    requires forall p: nat | p < |prefix| :: run(p) == prefix[p]
    ensures IsRun(cf, full) && prefix <= full && Returned(Last(full))
  {
    var p := |prefix| - 1;
    var r := if end < p then p else end;
    ReturnedStays(cf, run, end, r);
    var q := FirstReturned(run, p, r);
    CutIsRun(cf, prefix, run, q);
    full := Cut(run, q);
    assert Last(full) == run(q);
  }

  /**
   From every state of every run the executor can still finish: every finite run
   is the beginning of one in which all workers return with the serial result.
   */
  lemma EveryRunCanFinish(cf: Config, prefix: seq<System>) returns (full: seq<System>)
    requires IsRun(cf, prefix) && cf.workers > 0
    ensures IsRun(cf, full) && prefix <= full && Returned(Last(full)) && Last(full).sh.done
    ensures Settled(cf, Last(full).sh) && Replay(Outputs(Last(full).sh)) == SerialState(cf.block)
  {
    var run := FairExtension(cf, prefix);
    var end := FairRunsFinish(cf, run);
    full := CutAtReturn(cf, prefix, run, end);
    StoppedInRun(cf, full, |full| - 1);
    assert Last(full).threads[0] == Sched(Stopped);
    SerialEquivalence(cf, full);
  }
}
