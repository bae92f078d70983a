/**
 Work dies out: every execution, abort, wake-up and re-execution makes a weight
 per transaction lighter in lexicographic order, whatever the interleaving, and
 nothing else changes it. So in every run there is a moment after which no
 transaction is executed or aborted any more.
 */
module Settling {
  import opened State
  import opened Protocol
  import opened Ownership
  import opened Footprint
  import opened Coverage
  import opened Runs
  import Stabilisation

  // --- What tasks know about the status of their transaction ---

  function Rank(st: Status): nat {
    match st
    case ReadyToExecute(_) => 0
    case Executing(_) => 1
    case Executed(_) => 2
    case Aborting(_) => 3
  }

  /** A status only moves on within an incarnation, or to a later one. */
  predicate Forward(x: Status, y: Status) {
    x == y || y.inc > x.inc || (y.inc == x.inc && Rank(x) < Rank(y))
  }

  /** Incarnation `c` has been executed. */
  predicate Reached(st: Status, c: nat) {
    st.inc > c || (st.inc == c && Rank(st) >= 2)
  }

  ghost predicate TidyPc(a: Shared, pc: Pc) {
    match pc
    case Val(i, c, p) =>
      && i < |a.status| && i < |a.ins| && Reached(a.status[i], c)
      && (p.Checking? && a.status[i] == Executed(c) ==> a.ins[i].Some? && forall r | r in p.todo :: r in a.ins[i].value)
    case Fin(i, c, _, p) =>
      i < |a.status| && Reached(a.status[i], c) && (p.Wake? ==> forall x | x in p.rest :: x > i)
    case _ => true
  }

  ghost predicate Tidy(s: System) {
    forall u: nat | u < |s.threads| :: TidyPc(s.sh, s.threads[u])
  }

  /** Statuses move forward, and inputs change only while their transaction is not executed. */
  ghost predicate MovesOn(n: nat, a: Shared, b: Shared)
    requires WellSized(n, a)
  {
    && WellSized(n, b)
    && forall i: nat | i < n :: Forward(a.status[i], b.status[i]) && (b.ins[i] == a.ins[i] || !b.status[i].Executed?)
  }

  lemma MovesOnRunning(cf: Config, a: Shared, i: nat, c: nat, p: RunPc, b: Shared, pc': Pc)
    requires WellSized(|cf.block|, a) && InRange(|cf.block|, Run(i, c, p)) && a.status[i] == Executing(c)
    requires Running(cf, a, i, c, p, b, pc') && pc' != Panic
    ensures MovesOn(|cf.block|, a, b) && TidyPc(b, pc')
  {
  }

  lemma MovesOnFinishing(cf: Config, a: Shared, i: nat, c: nat, outside: bool, p: FinishPc, b: Shared, pc': Pc)
    requires WellSized(|cf.block|, a) && InRange(|cf.block|, Fin(i, c, outside, p)) && TidyPc(a, Fin(i, c, outside, p))
    requires p.Take? ==> forall x | x in a.deps[i] :: x > i
    requires Finishing(cf, a, i, c, outside, p, b, pc') && pc' != Panic
    ensures MovesOn(|cf.block|, a, b) && TidyPc(b, pc')
  {
    if p.Wake? && p.rest != [] {
      forall x | x in p.rest[1..] ensures x > i {
        assert x in p.rest;
      }
    }
  }

  lemma MovesOnRest(cf: Config, a: Shared, pc: Pc, b: Shared, pc': Pc)
    requires WellSized(|cf.block|, a) && InRange(|cf.block|, pc) && TidyPc(a, pc) && (pc.Val? || pc.Abort? || pc.Redo?)
    requires Move(cf, a, pc, b, pc') && pc' != Panic
    ensures MovesOn(|cf.block|, a, b) && TidyPc(b, pc')
  {
    match pc
    case Val(i, c, p) => MovesOnValidating(cf, a, i, c, p, b, pc');
    case Abort(i, c, p) => MovesOnAborting(cf, a, i, c, p, b, pc');
    case Redo(i, p) =>
  }

  lemma MovesOnValidating(cf: Config, a: Shared, i: nat, c: nat, p: ValidatePc, b: Shared, pc': Pc)
    requires WellSized(|cf.block|, a) && i < |cf.block| && TidyPc(a, Val(i, c, p))
    requires Validating(cf, a, i, c, p, b, pc') && pc' != Panic
    ensures MovesOn(|cf.block|, a, b) && TidyPc(b, pc')
  {
  }

  lemma MovesOnAborting(cf: Config, a: Shared, i: nat, c: nat, p: AbortPc, b: Shared, pc': Pc)
    requires WellSized(|cf.block|, a) && i < |cf.block| && Aborted(cf, a, i, c, p, b, pc') && pc' != Panic
    ensures MovesOn(|cf.block|, a, b) && TidyPc(b, pc')
  {
  }

  lemma MovesOnMove(cf: Config, a: Shared, pc: Pc, b: Shared, pc': Pc)
    requires WellSized(|cf.block|, a) && InRange(|cf.block|, pc) && TidyPc(a, pc)
    requires pc.Run? ==> a.status[pc.i] == Executing(pc.c)
    requires pc.Fin? && pc.fp.Take? ==> forall x | x in a.deps[pc.i] :: x > pc.i
    requires Move(cf, a, pc, b, pc') && pc' != Panic
    ensures MovesOn(|cf.block|, a, b) && TidyPc(b, pc')
  {
    match pc
    case Run(i, c, p) => MovesOnRunning(cf, a, i, c, p, b, pc');
    case Fin(i, c, outside, p) => MovesOnFinishing(cf, a, i, c, outside, p, b, pc');
    case Claim(p) =>
    case Sched(_) => PlainMove(cf, a, pc, b, pc');
    case Check(_, _) => PlainMove(cf, a, pc, b, pc');
    case _ => MovesOnRest(cf, a, pc, b, pc');
  }

  lemma TidyOther(n: nat, a: Shared, b: Shared, pc: Pc)
    requires WellSized(n, a) && MovesOn(n, a, b) && TidyPc(a, pc)
    ensures TidyPc(b, pc)
  {
  }

  /** Whoever waits on `i` comes after it. */
  lemma DepsAbove(n: nat, s: System, at: seq<Place>, i: nat)
    requires Owned(n, s, at) && i < n
    ensures forall x | x in s.sh.deps[i] :: x > i
  {
    forall x | x in s.sh.deps[i] ensures x > i {
      assert HeldBy(at, s.sh.deps[i], Parked(i));
      assert Placed(s.sh, s.threads, at, x);
    }
  }

  lemma TidyStep(cf: Config, s: System, t: nat, s': System, at: seq<Place>, hist: History)
    requires Inv(cf, s, at, hist) && Tidy(s) && Step(cf, s, t, s')
    ensures Tidy(s') && MovesOn(|cf.block|, s.sh, s'.sh)
  {
    NoPanicStep(cf, s, t, s', at, hist);
    assert ThreadOwns(s.sh, s.threads[t], at, t);
    if s.threads[t].Fin? { DepsAbove(|cf.block|, s, at, s.threads[t].i); }
    MovesOnMove(cf, s.sh, s.threads[t], s'.sh, s'.threads[t]);
    forall u: nat | u < |s'.threads| ensures TidyPc(s'.sh, s'.threads[u]) {
      if u != t { TidyOther(|cf.block|, s.sh, s'.sh, s.threads[u]); }
    }
  }

  // --- The weight of a transaction ---

  ghost predicate Bad(mv: Memory, j: nat, log: seq<ReadDesc>)
    requires j <= |mv|
  {
    exists r | r in log :: !Good(mv, j, r)
  }

  /** The thread executes `k` on reads that no longer match memory. */
  ghost predicate BadRun(a: Shared, pc: Pc, k: nat)
    requires k <= |a.mv|
  {
    pc.Run? && pc.i == k &&
    match pc.rp
    case Exec(log) => Bad(a.mv, k, log)
    case ExecDep(log, _) => Bad(a.mv, k, log)
    case Apply(log, _, _, _, _) => Bad(a.mv, k, log)
    case RecordIn(log, _, _) => Bad(a.mv, k, log)
    case RecordOut(_, _) => BadInput(a, k)
    case SetExecuted(_) => BadInput(a, k)
    case _ => false
  }

  ghost predicate BadInput(a: Shared, k: nat)
    requires k <= |a.mv|
  {
    k < |a.ins| && a.ins[k].Some? && Bad(a.mv, k, a.ins[k].value)
  }

  predicate WillAbort(pc: Pc, k: nat, c: nat) {
    pc == Val(k, c, TryAbort)
  }

  /** Executed, and bound to be aborted. */
  ghost predicate Doomed(s: System, k: nat)
    requires k < |s.sh.status| && k <= |s.sh.mv|
  {
    BadInput(s.sh, k) || exists u: nat :: u < |s.threads| && WillAbort(s.threads[u], k, s.sh.status[k].inc)
  }

  ghost predicate SomeBadRun(s: System, k: nat)
    requires k <= |s.sh.mv|
  {
    exists u: nat :: u < |s.threads| && BadRun(s.sh, s.threads[u], k)
  }

  ghost function Level(s: System, k: nat): nat
    requires k < |s.sh.status| && k <= |s.sh.mv|
  {
    match s.sh.status[k]
    case ReadyToExecute(_) => 2
    case Executing(_) => if SomeBadRun(s, k) then 5 else 1
    case Executed(_) => if Doomed(s, k) then 4 else 0
    case Aborting(_) => 3
  }

  /** Dependency `d` has been executed, so a reader that met its estimate reads again. */
  predicate Resolved(a: Shared, d: nat) {
    d < |a.status| && a.status[d].Executed?
  }

  function PhaseOf(a: Shared, pc: Pc, k: nat): nat {
    match pc
    case Run(i, _, p) => (
      if i != k then 0
      else
        match p
        case LoadReads => 9
        case Pre(_) => 8
        case PreDep(_, _) => 8
        case Exec(_) => 7
        case ExecDep(_, d) => if Resolved(a, d) then 7 else 6
        case Park(_) => 5
        case Apply(_, _, _, _, _) => 3
        case RecordIn(_, _, _) => 2
        case RecordOut(_, _) => 2
        case SetExecuted(_) => 2
    )
    case Abort(i, _, p) => if i != k then 0 else if p.LoadWrites? then 2 else if p.Mark? then 1 else 0
    case _ => 0
  }

  function ReadsLeft(cf: Config, k: nat, log: seq<ReadDesc>): nat {
    if k < |cf.block| && |log| <= cf.block[k].limit then cf.block[k].limit - |log| else 0
  }

  function CountOf(cf: Config, a: Shared, pc: Pc, k: nat): nat {
    match pc
    case Run(i, _, p) => (
      if i != k then 0
      else
        match p
        case Pre(todo) => 2 * |todo| + 1
        case PreDep(todo, _) => 2 * |todo| + 2
        case Exec(log) => 2 * ReadsLeft(cf, k, log)
        case ExecDep(log, d) => if Resolved(a, d) then 2 * ReadsLeft(cf, k, log) + 1 else 0
        case Apply(_, _, left, prev, _) => |left| + |prev|
        case RecordIn(_, _, _) => 2
        case RecordOut(_, _) => 1
        case _ => 0
    )
    case Abort(i, _, p) => if i == k && p.Mark? then |p.keys| else 0
    case _ => 0
  }

  /** What is left to do after an execution or an abort. */
  function TailOf(n: nat, pc: Pc, k: nat): nat {
    match pc
    case Fin(i, _, _, p) => (
      if i != k then 0
      else
        match p
        case Take => n + 7
        case Wake(rest, _) => |rest| + 6
        case LowerExec(_) => 5
        case BumpExec => 4
        case CheckVal => 3
        case LowerVal => 2
        case BumpVal => 1
    )
    case Redo(i, p) => (
      if i != k then 0
      else
        match p
        case LowerSuffix => 4
        case BumpSuffix => 3
        case CheckExec => 2
        case Reincarnate => 1
    )
    case _ => 0
  }

  ghost function Sum(threads: seq<Pc>, f: Pc -> nat): nat {
    if threads == [] then 0 else Sum(threads[..|threads| - 1], f) + f(threads[|threads| - 1])
  }

  lemma {:induction false} SumSame(threads: seq<Pc>, f: Pc -> nat, g: Pc -> nat)
    requires forall u | 0 <= u < |threads| :: f(threads[u]) == g(threads[u])
    ensures Sum(threads, f) == Sum(threads, g)
  {
    if threads == [] {
    } else {
      SumSame(threads[..|threads| - 1], f, g);
    }
  }

  /** Replacing one thread, where the others count the same. */
  lemma {:induction false} SumReplace(threads: seq<Pc>, t: nat, pc': Pc, f: Pc -> nat, g: Pc -> nat)
    requires t < |threads| && forall u | 0 <= u < |threads| && u != t :: f(threads[u]) == g(threads[u])
    ensures Sum(threads[t := pc'], g) == Sum(threads, f) - f(threads[t]) + g(pc')
  {
    var m := |threads| - 1;
    if t == m {
      assert threads[t := pc'][..m] == threads[..m];
      SumSame(threads[..m], f, g);
    } else {
      SumReplace(threads[..m], t, pc', f, g);
      assert threads[t := pc'][..m] == threads[..m][t := pc'];
    }
  }

  datatype Weight = Weight(level: nat, phase: nat, count: nat, tail: nat)

  predicate Lighter(x: Weight, y: Weight) {
    || x.level < y.level
    || (x.level == y.level &&
        (|| x.phase < y.phase
         || (x.phase == y.phase && (x.count < y.count || (x.count == y.count && x.tail < y.tail)))))
  }

  ghost function WeightOf(cf: Config, s: System, k: nat): Weight
    requires k < |s.sh.status| && k <= |s.sh.mv|
  {
    Weight(Level(s, k),
           Sum(s.threads, pc => PhaseOf(s.sh, pc, k)),
           Sum(s.threads, pc => CountOf(cf, s.sh, pc, k)),
           Sum(s.threads, pc => TailOf(|cf.block|, pc, k)))
  }

  // --- A step seen from one transaction ---

  /** What the weight of `k` depends on below `k`. */
  ghost predicate AgreeBelow(n: nat, a: Shared, b: Shared, k: nat)
    requires WellSized(n, a) && WellSized(n, b) && k < n
  {
    forall d: nat | d < k :: b.status[d] == a.status[d] && b.mv[d] == a.mv[d]
  }

  lemma BadSame(n: nat, a: Shared, b: Shared, k: nat, log: seq<ReadDesc>)
    requires WellSized(n, a) && WellSized(n, b) && k < n && AgreeBelow(n, a, b, k)
    ensures Bad(a.mv, k, log) <==> Bad(b.mv, k, log)
  {
    forall r | r in log ensures Good(a.mv, k, r) <==> Good(b.mv, k, r) {
      Stabilisation.LatestPrefix(a.mv, b.mv, r.key, k);
    }
  }

  /** A thread that does not move counts the same for `k`. */
  lemma OtherSame(cf: Config, a: Shared, b: Shared, pc: Pc, k: nat)
    requires WellSized(|cf.block|, a) && WellSized(|cf.block|, b) && k < |cf.block| && AgreeBelow(|cf.block|, a, b, k)
    requires Sane(|cf.block|, pc) && (b.ins[k] == a.ins[k] || !(pc.Run? && pc.i == k))
    ensures PhaseOf(b, pc, k) == PhaseOf(a, pc, k) && CountOf(cf, b, pc, k) == CountOf(cf, a, pc, k)
    ensures BadRun(b, pc, k) <==> BadRun(a, pc, k)
  {
    if pc.Run? && pc.i == k {
      match pc.rp
      case Exec(log) => BadSame(|cf.block|, a, b, k, log);
      case ExecDep(log, _) => BadSame(|cf.block|, a, b, k, log);
      case Apply(log, _, _, _, _) => BadSame(|cf.block|, a, b, k, log);
      case RecordIn(log, _, _) => BadSame(|cf.block|, a, b, k, log);
      case _ => if a.ins[k].Some? { BadSame(|cf.block|, a, b, k, a.ins[k].value); }
    }
  }

  /** Thread `t` moves and the others count the same for `k`. */
  ghost predicate OthersSame(cf: Config, s: System, t: nat, s': System, k: nat)
    requires WellSized(|cf.block|, s.sh) && WellSized(|cf.block|, s'.sh) && k < |cf.block|
  {
    && Replaces(s, t, s')
    && forall u: nat | u < |s.threads| && u != t ::
         && PhaseOf(s'.sh, s.threads[u], k) == PhaseOf(s.sh, s.threads[u], k)
         && CountOf(cf, s'.sh, s.threads[u], k) == CountOf(cf, s.sh, s.threads[u], k)
         && (BadRun(s'.sh, s.threads[u], k) <==> BadRun(s.sh, s.threads[u], k))
  }

  lemma WeightParts(cf: Config, s: System, t: nat, s': System, k: nat)
    requires WellSized(|cf.block|, s.sh) && WellSized(|cf.block|, s'.sh) && k < |cf.block|
    requires OthersSame(cf, s, t, s', k)
    ensures var w, w', pc, pc' := WeightOf(cf, s, k), WeightOf(cf, s', k), s.threads[t], s'.threads[t];
            && w'.phase == w.phase - PhaseOf(s.sh, pc, k) + PhaseOf(s'.sh, pc', k)
            && w'.count == w.count - CountOf(cf, s.sh, pc, k) + CountOf(cf, s'.sh, pc', k)
            && w'.tail == w.tail - TailOf(|cf.block|, pc, k) + TailOf(|cf.block|, pc', k)
  {
    SumReplace(s.threads, t, s'.threads[t], pc => PhaseOf(s.sh, pc, k), pc => PhaseOf(s'.sh, pc, k));
    SumReplace(s.threads, t, s'.threads[t], pc => CountOf(cf, s.sh, pc, k), pc => CountOf(cf, s'.sh, pc, k));
    SumReplace(s.threads, t, s'.threads[t], pc => TailOf(|cf.block|, pc, k), pc => TailOf(|cf.block|, pc, k));
  }

  /** The thread neither runs, aborts, finishes nor redoes `k`. */
  predicate Aside(pc: Pc, k: nat) {
    !((pc.Run? || pc.Abort? || pc.Fin? || pc.Redo?) && pc.i == k)
  }

  /** Nothing the weight of `k` depends on changes, apart from the step of the thread itself. */
  ghost predicate Same(n: nat, a: Shared, b: Shared, k: nat)
    requires WellSized(n, a) && WellSized(n, b) && k < n
  {
    AgreeBelow(n, a, b, k) && b.status[k] == a.status[k] && b.ins[k] == a.ins[k]
  }

  lemma SameOthers(cf: Config, s: System, t: nat, s': System, at: seq<Place>, k: nat)
    requires Owned(|cf.block|, s, at) && WellSized(|cf.block|, s'.sh) && k < |cf.block| && Replaces(s, t, s')
    requires AgreeBelow(|cf.block|, s.sh, s'.sh, k)
    requires s'.sh.ins[k] == s.sh.ins[k] || at[k] == With(t)
    ensures OthersSame(cf, s, t, s', k)
  {
    forall u: nat | u < |s.threads| && u != t
      ensures PhaseOf(s'.sh, s.threads[u], k) == PhaseOf(s.sh, s.threads[u], k)
      ensures CountOf(cf, s'.sh, s.threads[u], k) == CountOf(cf, s.sh, s.threads[u], k)
      ensures BadRun(s'.sh, s.threads[u], k) <==> BadRun(s.sh, s.threads[u], k)
    {
      assert ThreadOwns(s.sh, s.threads[u], at, u);
      OtherSame(cf, s.sh, s'.sh, s.threads[u], k);
    }
  }

  /** The level does not rise unless the moving thread makes it. */
  lemma LevelFalls(cf: Config, s: System, t: nat, s': System, k: nat)
    requires WellSized(|cf.block|, s.sh) && WellSized(|cf.block|, s'.sh) && k < |cf.block|
    requires OthersSame(cf, s, t, s', k)
    requires Same(|cf.block|, s.sh, s'.sh, k)
    requires BadRun(s'.sh, s'.threads[t], k) ==> BadRun(s.sh, s.threads[t], k)
    requires WillAbort(s'.threads[t], k, s.sh.status[k].inc) && s.sh.status[k].Executed? ==> Doomed(s, k)
    ensures Level(s', k) <= Level(s, k)
  {
    if s.sh.ins[k].Some? { BadSame(|cf.block|, s.sh, s'.sh, k, s.sh.ins[k].value); }
    if s.sh.status[k].Executing? && SomeBadRun(s', k) {
      var u: nat :| u < |s'.threads| && BadRun(s'.sh, s'.threads[u], k);
      assert BadRun(s.sh, s.threads[u], k);
    }
    if s.sh.status[k].Executed? && Doomed(s', k) && !BadInput(s'.sh, k) {
      var u: nat :| u < |s'.threads| && WillAbort(s'.threads[u], k, s'.sh.status[k].inc);
      assert u != t ==> WillAbort(s.threads[u], k, s.sh.status[k].inc);
    }
  }

  lemma LevelKept(cf: Config, s: System, t: nat, s': System, k: nat)
    requires WellSized(|cf.block|, s.sh) && WellSized(|cf.block|, s'.sh) && k < |cf.block|
    requires OthersSame(cf, s, t, s', k)
    requires Same(|cf.block|, s.sh, s'.sh, k)
    requires BadRun(s'.sh, s'.threads[t], k) <==> BadRun(s.sh, s.threads[t], k)
    requires s.sh.status[k].Executed? && WillAbort(s'.threads[t], k, s.sh.status[k].inc) ==> Doomed(s, k)
    requires s.sh.status[k].Executed? && WillAbort(s.threads[t], k, s.sh.status[k].inc) ==> Doomed(s', k)
    ensures Level(s', k) == Level(s, k)
  {
    LevelFalls(cf, s, t, s', k);
    assert OthersSame(cf, s', t, s, k);
    LevelFalls(cf, s', t, s, k);
  }

  /** A step that does not concern `k` leaves its weight alone. */
  lemma WeightKept(cf: Config, s: System, t: nat, s': System, at: seq<Place>, k: nat)
    requires Owned(|cf.block|, s, at) && WellSized(|cf.block|, s'.sh) && k < |cf.block| && Replaces(s, t, s')
    requires Same(|cf.block|, s.sh, s'.sh, k) && Aside(s.threads[t], k) && Aside(s'.threads[t], k)
    requires s.sh.status[k].Executed? && WillAbort(s'.threads[t], k, s.sh.status[k].inc) ==> Doomed(s, k)
    requires s.sh.status[k].Executed? && WillAbort(s.threads[t], k, s.sh.status[k].inc) ==> Doomed(s', k)
    ensures WeightOf(cf, s', k) == WeightOf(cf, s, k)
  {
    SameOthers(cf, s, t, s', at, k);
    WeightParts(cf, s, t, s', k);
    LevelKept(cf, s, t, s', k);
  }

  // --- Steps that are no work ---

  /** The thread schedules, claims or validates. */
  predicate Light(pc: Pc) {
    pc.Sched? || pc.Check? || pc.Claim? || pc.Val?
  }

  lemma LightMove(cf: Config, a: Shared, pc: Pc, b: Shared, pc': Pc)
    requires WellSized(|cf.block|, a) && InRange(|cf.block|, pc) && Light(pc) && Light(pc') && Move(cf, a, pc, b, pc')
    ensures Frozen(a, b)
    ensures !pc.Val? && pc'.Val? ==> pc'.vp.LoadSet?
    ensures pc.Val? && pc'.Val? ==> pc'.i == pc.i && pc'.c == pc.c
    ensures pc.Val? && pc.vp.TryAbort? ==> a.status[pc.i] != Executed(pc.c)
    ensures pc.Val? && pc'.Val? && pc'.vp.TryAbort? ==>
              pc.vp.Checking? && pc.vp.todo != [] && !Good(a.mv, pc.i, pc.vp.todo[0])
  {
  }

  lemma LightKeeps(cf: Config, s: System, t: nat, s': System, at: seq<Place>, hist: History, k: nat)
    requires Inv(cf, s, at, hist) && Tidy(s) && Step(cf, s, t, s') && Light(s.threads[t]) && Light(s'.threads[t])
    requires k < |cf.block|
    ensures Frozen(s.sh, s'.sh) && WeightOf(cf, s', k) == WeightOf(cf, s, k)
  {
    var pc, pc' := s.threads[t], s'.threads[t];
    assert ThreadOwns(s.sh, pc, at, t);
    NoPanicStep(cf, s, t, s', at, hist);
    LightMove(cf, s.sh, pc, s'.sh, pc');
    if s.sh.status[k].Executed? && WillAbort(pc', k, s.sh.status[k].inc) {
      assert TidyPc(s.sh, pc);
      assert pc.vp.todo[0] in s.sh.ins[k].value;
      assert BadInput(s.sh, k);
    }
    WeightKept(cf, s, t, s', at, k);
  }

  // --- Steps that are work ---

  /** Nothing changes below `i`. */
  ghost predicate OnlyFrom(n: nat, a: Shared, b: Shared, i: nat)
    requires WellSized(n, a)
  {
    WellSized(n, b) && forall j: nat | j < n && j < i ::
        b.status[j] == a.status[j] && b.mv[j] == a.mv[j] && b.ins[j] == a.ins[j]
  }

  /** The weights below `i` stay and that of `i` falls. */
  ghost predicate Lightens(cf: Config, s: System, s': System, i: nat)
    requires WellSized(|cf.block|, s.sh) && WellSized(|cf.block|, s'.sh)
  {
    && i < |cf.block|
    && Lighter(WeightOf(cf, s', i), WeightOf(cf, s, i))
    && forall k: nat | k < i :: WeightOf(cf, s', k) == WeightOf(cf, s, k)
  }

  /** Where the thread works, at `i` or nowhere. */
  predicate At(pc: Pc, i: nat) {
    match pc
    case Run(j, _, _) => j == i
    case Abort(j, _, _) => j == i
    case Fin(j, _, _, _) => j == i
    case Redo(j, _) => j == i
    case Val(j, _, p) => j == i
    case _ => true
  }

  lemma BelowKept(cf: Config, s: System, t: nat, s': System, at: seq<Place>, i: nat)
    requires Owned(|cf.block|, s, at) && OnlyFrom(|cf.block|, s.sh, s'.sh, i) && Replaces(s, t, s') && i < |cf.block|
    requires At(s.threads[t], i) && At(s'.threads[t], i)
    ensures forall k: nat | k < i :: WeightOf(cf, s', k) == WeightOf(cf, s, k)
  {
    forall k: nat | k < i ensures WeightOf(cf, s', k) == WeightOf(cf, s, k) {
      WeightKept(cf, s, t, s', at, k);
    }
  }

  /** The thread itself gets lighter at `i` without a change of status. */
  predicate ThreadLightens(cf: Config, a: Shared, pc: Pc, b: Shared, pc': Pc, i: nat) {
    var n := |cf.block|;
    || PhaseOf(b, pc', i) < PhaseOf(a, pc, i)
    || (PhaseOf(b, pc', i) == PhaseOf(a, pc, i) &&
        (|| CountOf(cf, b, pc', i) < CountOf(cf, a, pc, i)
         || (CountOf(cf, b, pc', i) == CountOf(cf, a, pc, i) && TailOf(n, pc', i) < TailOf(n, pc, i))))
  }

  lemma {:induction false} LatestBlocked(mv: Memory, k: StateKey, j: nat)
    requires j <= |mv| && Latest(mv, k, j).Blocked?
    ensures var d := Latest(mv, k, j).idx; d < j && k in mv[d] && mv[d][k].estimate
  {
    if k !in mv[j - 1] { LatestBlocked(mv, k, j - 1); }
  }

  /** An executed transaction leaves no estimates. */
  ghost predicate NoEstimateDone(a: Shared, j: nat)
    requires j <= |a.mv| && j <= |a.status|
  {
    forall d: nat | d < j && a.status[d].Executed? :: forall k | k in a.mv[d] :: !a.mv[d][k].estimate
  }

  lemma BadMore(mv: Memory, j: nat, log: seq<ReadDesc>, r: ReadDesc)
    requires j <= |mv| && Good(mv, j, r)
    ensures Bad(mv, j, log + [r]) ==> Bad(mv, j, log)
  {
  }

  lemma ExecLightens(cf: Config, a: Shared, i: nat, c: nat, log: seq<ReadDesc>, b: Shared, pc': Pc)
    requires WellSized(|cf.block|, a) && i < |cf.block| && NoEstimateDone(a, i)
    requires Running(cf, a, i, c, Exec(log), b, pc')
    ensures b == a && pc'.Run? && pc'.i == i
    ensures ThreadLightens(cf, a, Run(i, c, Exec(log)), b, pc', i)
    ensures BadRun(b, pc', i) ==> BadRun(a, Run(i, c, Exec(log)), i)
  {
    var op := cf.block[i].op(Vals(log));
    if op.Read? {
      var f := Latest(a.mv, op.key, i);
      if f.Blocked? { LatestBlocked(a.mv, op.key, i); }
      if f.Hit? { BadMore(a.mv, i, log, ReadDesc(op.key, Some(f.ver), Some(f.data))); }
      if f.Miss? { BadMore(a.mv, i, log, ReadDesc(op.key, None, None)); }
    }
  }

  lemma FewerKeys(keys: set<StateKey>, k: StateKey)
    ensures |keys - {k}| <= |keys| && (k in keys ==> |keys - {k}| < |keys|)
  {
    if k in keys {
      assert keys == (keys - {k}) + {k};
    } else {
      assert keys == keys - {k};
    }
  }

  lemma WriteLightens(cf: Config, a: Shared, i: nat, c: nat, p: RunPc, b: Shared, pc': Pc, k: StateKey)
    requires WellSized(|cf.block|, a) && i < |cf.block| && p.Apply? && pc' != Panic
    requires (k in p.left && WriteOne(a, i, c, p, b, pc', k)) || (k in p.prev && DeleteOne(a, i, c, p, b, pc', k))
    ensures OnlyFrom(|cf.block|, a, b, i) && b.status == a.status && b.ins == a.ins
    ensures pc'.Run? && pc'.i == i && pc'.rp.Apply? && pc'.rp.log == p.log
    ensures |pc'.rp.left| + |pc'.rp.prev| < |p.left| + |p.prev|
  {
    FewerKeys(p.left, k);
    FewerKeys(p.prev, k);
  }

  lemma ApplyLightens(cf: Config, a: Shared, i: nat, c: nat, p: RunPc, b: Shared, pc': Pc)
    requires WellSized(|cf.block|, a) && i < |cf.block| && p.Apply? && Running(cf, a, i, c, p, b, pc') && pc' != Panic
    ensures OnlyFrom(|cf.block|, a, b, i) && b.status == a.status && b.ins == a.ins
    ensures pc'.Run? && pc'.i == i && (pc'.rp.Apply? || pc'.rp.RecordIn?) && pc'.rp.log == p.log
    ensures pc'.rp.Apply? ==> |pc'.rp.left| + |pc'.rp.prev| < |p.left| + |p.prev|
  {
    if p.left != {} {
      var k :| k in p.left && WriteOne(a, i, c, p, b, pc', k);
      WriteLightens(cf, a, i, c, p, b, pc', k);
    } else if p.prev != {} {
      var k :| k in p.prev && DeleteOne(a, i, c, p, b, pc', k);
      WriteLightens(cf, a, i, c, p, b, pc', k);
    }
  }

  lemma RunLightens(cf: Config, a: Shared, i: nat, c: nat, p: RunPc, b: Shared, pc': Pc)
    requires WellSized(|cf.block|, a) && Sane(|cf.block|, Run(i, c, p)) && NoEstimateDone(a, i) && !p.SetExecuted?
    requires Running(cf, a, i, c, p, b, pc') && pc' != Panic
    ensures OnlyFrom(|cf.block|, a, b, i) && b.status == a.status && (b.ins == a.ins || p.RecordIn?) && At(pc', i)
    ensures ThreadLightens(cf, a, Run(i, c, p), b, pc', i)
    ensures BadRun(b, pc', i) ==> BadRun(a, Run(i, c, p), i)
    ensures !pc'.Val?
  {
    match p
    case Exec(log) => ExecLightens(cf, a, i, c, log, b, pc');
    case Apply(log, _, _, _, _) =>
      ApplyLightens(cf, a, i, c, p, b, pc');
      BadSame(|cf.block|, a, b, i, log);
    case _ => OtherLightens(cf, a, i, c, p, b, pc');
  }

  lemma OtherLightens(cf: Config, a: Shared, i: nat, c: nat, p: RunPc, b: Shared, pc': Pc)
    requires WellSized(|cf.block|, a) && Sane(|cf.block|, Run(i, c, p)) && NoEstimateDone(a, i)
    requires !p.Exec? && !p.Apply? && !p.SetExecuted?
    requires Running(cf, a, i, c, p, b, pc') && pc' != Panic
    ensures OnlyFrom(|cf.block|, a, b, i) && b.status == a.status && (b.ins == a.ins || p.RecordIn?) && At(pc', i)
    ensures ThreadLightens(cf, a, Run(i, c, p), b, pc', i)
    ensures BadRun(b, pc', i) ==> BadRun(a, Run(i, c, p), i)
    ensures !pc'.Val?
  {
  }

  lemma NoneEstimated(cf: Config, s: System, at: seq<Place>, hist: History, i: nat)
    requires Inv(cf, s, at, hist) && i < |cf.block|
    ensures NoEstimateDone(s.sh, i)
  {
    forall d: nat | d < i && s.sh.status[d].Executed? ensures forall k | k in s.sh.mv[d] :: !s.sh.mv[d][k].estimate {
      assert IndexPrint(s.sh, hist, d);
    }
  }

  /** A step that keeps the status of `i` and makes its thread lighter makes `i` lighter. */
  lemma LightensByThread(cf: Config, s: System, t: nat, s': System, at: seq<Place>, i: nat)
    requires Owned(|cf.block|, s, at) && Replaces(s, t, s') && i < |cf.block| && OnlyFrom(|cf.block|, s.sh, s'.sh, i)
    requires At(s.threads[t], i) && At(s'.threads[t], i)
    requires s'.sh.status[i] == s.sh.status[i] && s'.sh.ins[i] == s.sh.ins[i]
    requires ThreadLightens(cf, s.sh, s.threads[t], s'.sh, s'.threads[t], i)
    requires BadRun(s'.sh, s'.threads[t], i) ==> BadRun(s.sh, s.threads[t], i)
    requires !(s'.threads[t].Val? && s'.threads[t].vp.TryAbort?)
    ensures Lightens(cf, s, s', i)
  {
    BelowKept(cf, s, t, s', at, i);
    SameOthers(cf, s, t, s', at, i);
    WeightParts(cf, s, t, s', i);
    LevelFalls(cf, s, t, s', i);
  }

  /** Recording the input: the status is Executing, and only this thread runs `i`. */
  lemma LightensRecord(cf: Config, s: System, t: nat, s': System, at: seq<Place>, i: nat)
    requires Owned(|cf.block|, s, at) && Replaces(s, t, s') && i < |cf.block| && OnlyFrom(|cf.block|, s.sh, s'.sh, i)
    requires s.threads[t].Run? && s.threads[t].i == i && At(s'.threads[t], i) && s'.sh.status == s.sh.status
    requires ThreadLightens(cf, s.sh, s.threads[t], s'.sh, s'.threads[t], i)
    requires BadRun(s'.sh, s'.threads[t], i) ==> BadRun(s.sh, s.threads[t], i)
    ensures Lightens(cf, s, s', i)
  {
    assert ThreadOwns(s.sh, s.threads[t], at, t);
    BelowKept(cf, s, t, s', at, i);
    SameOthers(cf, s, t, s', at, i);
    WeightParts(cf, s, t, s', i);
    if SomeBadRun(s', i) {
      var u: nat :| u < |s'.threads| && BadRun(s'.sh, s'.threads[u], i);
      assert BadRun(s.sh, s.threads[u], i);
    }
  }

  lemma LightensRunning(cf: Config, s: System, t: nat, s': System, at: seq<Place>, hist: History)
    requires Inv(cf, s, at, hist) && Step(cf, s, t, s') && s.threads[t].Run? && !s.threads[t].rp.SetExecuted?
    ensures WellSized(|cf.block|, s'.sh) && Lightens(cf, s, s', s.threads[t].i)
  {
    var Run(i, c, p) := s.threads[t];
    assert ThreadOwns(s.sh, s.threads[t], at, t);
    NoPanicStep(cf, s, t, s', at, hist);
    NoneEstimated(cf, s, at, hist, i);
    RunLightens(cf, s.sh, i, c, p, s'.sh, s'.threads[t]);
    if p.RecordIn? {
      LightensRecord(cf, s, t, s', at, i);
    } else {
      LightensByThread(cf, s, t, s', at, i);
    }
  }

  /** A change of the status of `i` to a lower level. */
  lemma LightensByLevel(cf: Config, s: System, t: nat, s': System, at: seq<Place>, i: nat)
    requires Owned(|cf.block|, s, at) && Replaces(s, t, s') && i < |cf.block| && OnlyFrom(|cf.block|, s.sh, s'.sh, i)
    requires At(s.threads[t], i) && At(s'.threads[t], i) && Level(s', i) < Level(s, i)
    ensures Lightens(cf, s, s', i)
  {
    BelowKept(cf, s, t, s', at, i);
  }

  /** An execution on reads that still match is done; one on stale reads is bound to be aborted. */
  lemma ExecutedLevel(n: nat, s: System, t: nat, s': System, i: nat, c: nat, outside: bool)
    requires WellSized(n, s.sh) && i < n && Tidy(s) && Replaces(s, t, s')
    requires s.threads[t] == Run(i, c, SetExecuted(outside)) && s'.threads[t] == Fin(i, c, outside, Take)
    requires s.sh.status[i] == Executing(c) && s'.sh == s.sh.(status := s.sh.status[i := Executed(c)])
    ensures Level(s', i) < Level(s, i)
  {
    if BadInput(s.sh, i) {
      assert BadRun(s.sh, s.threads[t], i);
    } else {
      forall u: nat | u < |s'.threads| ensures !WillAbort(s'.threads[u], i, c) {
        assert u != t ==> TidyPc(s.sh, s.threads[u]);
      }
    }
  }

  lemma LightensExecuted(cf: Config, s: System, t: nat, s': System, at: seq<Place>, hist: History)
    requires Inv(cf, s, at, hist) && Tidy(s) && Step(cf, s, t, s')
    requires s.threads[t].Run? && s.threads[t].rp.SetExecuted?
    ensures WellSized(|cf.block|, s'.sh) && Lightens(cf, s, s', s.threads[t].i)
  {
    var Run(i, c, p) := s.threads[t];
    assert ThreadOwns(s.sh, s.threads[t], at, t);
    ExecutedLevel(|cf.block|, s, t, s', i, c, p.outside);
    LightensByLevel(cf, s, t, s', at, i);
  }

  lemma LightensIncarnate(cf: Config, s: System, t: nat, s': System, at: seq<Place>, i: nat)
    requires Owned(|cf.block|, s, at) && Replaces(s, t, s') && i < |cf.block| && At(s.threads[t], i)
    requires TryIncarnate(s.sh, i, s'.sh, s'.threads[t]) && s'.threads[t].Run?
    ensures WellSized(|cf.block|, s'.sh) && Lightens(cf, s, s', i)
  {
    forall u: nat | u < |s'.threads| ensures !BadRun(s'.sh, s'.threads[u], i) {
      assert u != t ==> ThreadOwns(s.sh, s.threads[u], at, u);
    }
    LightensByLevel(cf, s, t, s', at, i);
  }

  lemma LightensTryAbort(cf: Config, s: System, t: nat, s': System, at: seq<Place>)
    requires Owned(|cf.block|, s, at) && Step(cf, s, t, s') && s.threads[t].Val? && s'.threads[t].Abort?
    requires s.threads[t].i < |cf.block|
    ensures WellSized(|cf.block|, s'.sh) && Lightens(cf, s, s', s.threads[t].i)
  {
    var i := s.threads[t].i;
    assert WillAbort(s.threads[t], i, s.sh.status[i].inc);
    assert Doomed(s, i);
    LightensByLevel(cf, s, t, s', at, i);
  }

  lemma MarkLightens(cf: Config, a: Shared, i: nat, c: nat, p: AbortPc, b: Shared, pc': Pc, k: StateKey)
    requires WellSized(|cf.block|, a) && i < |cf.block| && p.Mark? && k in p.keys && MarkOne(a, i, c, p, b, pc', k)
    requires pc' != Panic
    ensures OnlyFrom(|cf.block|, a, b, i) && b.status == a.status && b.ins == a.ins
    ensures pc'.Abort? && pc'.i == i && pc'.ap.Mark? && |pc'.ap.keys| < |p.keys|
  {
    FewerKeys(p.keys, k);
  }

  lemma AbortLightens(cf: Config, a: Shared, i: nat, c: nat, p: AbortPc, b: Shared, pc': Pc)
    requires WellSized(|cf.block|, a) && i < |cf.block| && Aborted(cf, a, i, c, p, b, pc') && pc' != Panic
    requires !p.SetAborted?
    ensures OnlyFrom(|cf.block|, a, b, i) && b.status == a.status && b.ins == a.ins && pc'.Abort? && pc'.i == i
    ensures p.LoadWrites? ==> pc'.ap.Mark?
    ensures p.Mark? ==> pc'.ap.SetAborted? || (pc'.ap.Mark? && |pc'.ap.keys| < |p.keys|)
  {
    if p.Mark? && p.keys != {} {
      var k :| k in p.keys && MarkOne(a, i, c, p, b, pc', k);
      MarkLightens(cf, a, i, c, p, b, pc', k);
    }
  }

  lemma LightensAborting(cf: Config, s: System, t: nat, s': System, at: seq<Place>, hist: History)
    requires Inv(cf, s, at, hist) && Step(cf, s, t, s') && s.threads[t].Abort?
    ensures WellSized(|cf.block|, s'.sh) && Lightens(cf, s, s', s.threads[t].i)
  {
    var Abort(i, c, p) := s.threads[t];
    assert ThreadOwns(s.sh, s.threads[t], at, t);
    NoPanicStep(cf, s, t, s', at, hist);
    if p.SetAborted? {
      LightensByLevel(cf, s, t, s', at, i);
    } else {
      AbortLightens(cf, s.sh, i, c, p, s'.sh, s'.threads[t]);
      LightensByThread(cf, s, t, s', at, i);
    }
  }

  lemma {:induction false} NoDupShort(q: seq<nat>, n: nat)
    requires NoDup(q) && forall m | 0 <= m < |q| :: q[m] < n
    ensures |q| <= n
  {
    assert q != [] ==> q[0] < n;
    if n == 0 {
    } else if m: nat :| m < |q| && q[m] == n - 1 {
      var rest := q[..m] + q[m + 1..];
      forall x, y | 0 <= x < y < |rest| ensures rest[x] != rest[y] {
        assert rest[x] == q[if x < m then x else x + 1] && rest[y] == q[if y < m then y else y + 1];
      }
      NoDupShort(rest, n - 1);
    } else {
      NoDupShort(q, n - 1);
    }
  }

  ghost predicate TailFalls(cf: Config, a: Shared, pc: Pc, b: Shared, pc': Pc, i: nat)
    requires WellSized(|cf.block|, a) && i < |cf.block|
  {
    && OnlyFrom(|cf.block|, a, b, i) && b.status[i] == a.status[i] && b.ins == a.ins && At(pc', i)
    && !pc'.Run? && !pc'.Abort? && !(pc'.Val? && pc'.vp.TryAbort?)
    && TailOf(|cf.block|, pc', i) < TailOf(|cf.block|, pc, i)
  }

  lemma FinishLightens(cf: Config, a: Shared, i: nat, c: nat, outside: bool, p: FinishPc, b: Shared, pc': Pc)
    requires WellSized(|cf.block|, a) && InRange(|cf.block|, Fin(i, c, outside, p)) && TidyPc(a, Fin(i, c, outside, p))
    requires p.Take? ==> |a.deps[i]| <= |cf.block|
    requires Finishing(cf, a, i, c, outside, p, b, pc') && pc' != Panic
    ensures TailFalls(cf, a, Fin(i, c, outside, p), b, pc', i)
  {
    if p.Wake? && p.rest != [] { assert p.rest[0] in p.rest; }
  }

  lemma RedoLightens(cf: Config, a: Shared, i: nat, p: RedoPc, b: Shared, pc': Pc)
    requires WellSized(|cf.block|, a) && i < |cf.block| && Redoing(cf, a, i, p, b, pc') && !pc'.Run?
    ensures TailFalls(cf, a, Redo(i, p), b, pc', i)
  {
  }

  lemma LightensTail(cf: Config, s: System, t: nat, s': System, at: seq<Place>, hist: History)
    requires Inv(cf, s, at, hist) && Tidy(s) && Step(cf, s, t, s') && (s.threads[t].Fin? || s.threads[t].Redo?)
    ensures WellSized(|cf.block|, s'.sh) && Lightens(cf, s, s', s.threads[t].i)
  {
    var i, pc, pc' := s.threads[t].i, s.threads[t], s'.threads[t];
    assert ThreadOwns(s.sh, pc, at, t) && TidyPc(s.sh, pc);
    NoPanicStep(cf, s, t, s', at, hist);
    if pc'.Run? {
      LightensIncarnate(cf, s, t, s', at, i);
    } else {
      if pc.Fin? {
        assert HeldBy(at, s.sh.deps[i], Parked(i));
        NoDupShort(s.sh.deps[i], |cf.block|);
        FinishLightens(cf, s.sh, i, pc.c, pc.outside, pc.fp, s'.sh, pc');
      } else {
        RedoLightens(cf, s.sh, i, pc.xp, s'.sh, pc');
      }
      LightensByThread(cf, s, t, s', at, i);
    }
  }

  // --- Every step ---

  /** A step is work, and makes some transaction lighter, or it changes no weight and none of the working memory. */
  lemma WeightStep(cf: Config, s: System, t: nat, s': System, at: seq<Place>, hist: History)
    requires Inv(cf, s, at, hist) && Tidy(s) && Step(cf, s, t, s')
    ensures WellSized(|cf.block|, s'.sh)
    ensures Light(s.threads[t]) && Light(s'.threads[t]) ==>
              Frozen(s.sh, s'.sh) && forall k: nat | k < |cf.block| :: WeightOf(cf, s', k) == WeightOf(cf, s, k)
    ensures !(Light(s.threads[t]) && Light(s'.threads[t])) ==> exists i: nat :: Lightens(cf, s, s', i)
  {
    var pc, pc' := s.threads[t], s'.threads[t];
    TidyStep(cf, s, t, s', at, hist);
    assert ThreadOwns(s.sh, pc, at, t);
    if Light(pc) && Light(pc') {
      LightMove(cf, s.sh, pc, s'.sh, pc');
      forall k: nat | k < |cf.block| ensures WeightOf(cf, s', k) == WeightOf(cf, s, k) {
        LightKeeps(cf, s, t, s', at, hist, k);
      }
    } else {
      WorkLightens(cf, s, t, s', at, hist);
    }
  }

  lemma WorkLightens(cf: Config, s: System, t: nat, s': System, at: seq<Place>, hist: History)
    requires Inv(cf, s, at, hist) && Tidy(s) && Step(cf, s, t, s') && !(Light(s.threads[t]) && Light(s'.threads[t]))
    ensures WellSized(|cf.block|, s'.sh) && exists i: nat :: Lightens(cf, s, s', i)
  {
    var pc, pc' := s.threads[t], s'.threads[t];
    assert ThreadOwns(s.sh, pc, at, t);
    match pc
    case Run(i, _, p) =>
      if p.SetExecuted? { LightensExecuted(cf, s, t, s', at, hist); } else { LightensRunning(cf, s, t, s', at, hist); }
    case Fin(_, _, _, _) => LightensTail(cf, s, t, s', at, hist);
    case Redo(_, _) => LightensTail(cf, s, t, s', at, hist);
    case Abort(_, _, _) => LightensAborting(cf, s, t, s', at, hist);
    case Val(_, _, _) => LightensTryAbort(cf, s, t, s', at);
    case Claim(p) => LightensIncarnate(cf, s, t, s', at, p.at);
    case _ => PlainMove(cf, s.sh, pc, s'.sh, pc');
  }

  // --- Infinite runs ---

  /** All workers have returned. */
  predicate Returned(s: System) {
    forall u: nat | u < |s.threads| :: s.threads[u] == Sched(Stopped)
  }

  /** One step, or none any more because all workers have returned. */
  ghost predicate StepsFrom(cf: Config, run: nat -> System, p: nat) {
    AnyStep(cf, run(p), run(p + 1)) || (Returned(run(p)) && run(p + 1) == run(p))
  }

  ghost predicate Forever(cf: Config, run: nat -> System) {
    Init(cf, run(0)) && forall p: nat :: StepsFrom(cf, run, p)
  }

  lemma {:induction false} ForeverSafe(cf: Config, run: nat -> System, p: nat)
    requires Forever(cf, run)
    ensures Safe(cf, run(p)) && Tidy(run(p))
  {
    if p == 0 {
      InitSafe(cf, run(0));
    } else {
      ForeverSafe(cf, run, p - 1);
      assert StepsFrom(cf, run, p - 1);
      if AnyStep(cf, run(p - 1), run(p)) {
        var t, at, hist := StepOf(cf, run, p - 1);
        TidyStep(cf, run(p - 1), t, run(p), at, hist);
        var at', hist' := StepSafe(cf, run(p - 1), t, run(p), at, hist);
      }
    }
  }

  lemma StepOf(cf: Config, run: nat -> System, p: nat) returns (t: nat, at: seq<Place>, hist: History)
    requires Safe(cf, run(p)) && AnyStep(cf, run(p), run(p + 1))
    ensures Inv(cf, run(p), at, hist) && Step(cf, run(p), t, run(p + 1))
  {
    at, hist :| Inv(cf, run(p), at, hist);
    t :| Step(cf, run(p), t, run(p + 1));
  }

  ghost function WeightAt(cf: Config, s: System, k: nat): Weight {
    if k < |s.sh.status| && k <= |s.sh.mv| then WeightOf(cf, s, k) else Weight(0, 0, 0, 0)
  }

  /** From state `p` to the next the first `m` weights do not rise: at most one falls, and those before it stay. */
  ghost predicate FallsAt(cf: Config, run: nat -> System, p: nat, i: nat) {
    && Lighter(WeightAt(cf, run(p + 1), i), WeightAt(cf, run(p), i))
    && forall k: nat | k < i :: WeightAt(cf, run(p + 1), k) == WeightAt(cf, run(p), k)
  }

  /** Thread `t` schedules, claims or validates. */
  ghost predicate LightStep(cf: Config, s: System, t: nat, s': System) {
    WellSized(|cf.block|, s.sh) && Step(cf, s, t, s') && Light(s.threads[t]) && Light(s'.threads[t])
  }

  ghost predicate SomeLightStep(cf: Config, s: System, s': System) {
    exists t: nat :: LightStep(cf, s, t, s')
  }

  ghost predicate StaysAt(cf: Config, run: nat -> System, p: nat) {
    && Frozen(run(p).sh, run(p + 1).sh)
    && (forall k: nat | k < |cf.block| :: WeightAt(cf, run(p + 1), k) == WeightAt(cf, run(p), k))
    && (SomeLightStep(cf, run(p), run(p + 1)) || run(p + 1) == run(p))
  }

  lemma FallsOrStays(cf: Config, run: nat -> System, p: nat)
    requires Forever(cf, run)
    ensures StaysAt(cf, run, p) || exists i: nat :: i < |cf.block| && FallsAt(cf, run, p, i)
  {
    ForeverSafe(cf, run, p);
    assert StepsFrom(cf, run, p);
    if AnyStep(cf, run(p), run(p + 1)) {
      var t, at, hist := StepOf(cf, run, p);
      StepFallsOrStays(cf, run, p, t, at, hist);
    }
  }

  lemma StepFallsOrStays(cf: Config, run: nat -> System, p: nat, t: nat, at: seq<Place>, hist: History)
    requires Inv(cf, run(p), at, hist) && Tidy(run(p)) && Step(cf, run(p), t, run(p + 1))
    ensures StaysAt(cf, run, p) || exists i: nat :: i < |cf.block| && FallsAt(cf, run, p, i)
  {
    WeightStep(cf, run(p), t, run(p + 1), at, hist);
    if !LightStep(cf, run(p), t, run(p + 1)) {
      var i: nat :| Lightens(cf, run(p), run(p + 1), i);
      assert FallsAt(cf, run, p, i);
    }
  }

  /** The first `m` weights no longer change from state `p` on. */
  ghost predicate SettledFrom(cf: Config, run: nat -> System, p: nat, m: nat) {
    forall q: nat, k: nat | p <= q && k < m :: WeightAt(cf, run(q), k) == WeightAt(cf, run(p), k)
  }

  lemma FallsNext(cf: Config, run: nat -> System, m: nat, q: nat)
    requires Forever(cf, run) && m < |cf.block|
    requires forall k: nat | k < m :: WeightAt(cf, run(q + 1), k) == WeightAt(cf, run(q), k)
    ensures var w, w' := WeightAt(cf, run(q), m), WeightAt(cf, run(q + 1), m); w' == w || Lighter(w', w)
  {
    FallsOrStays(cf, run, q);
  }

  lemma {:induction false} OnlyFalls(cf: Config, run: nat -> System, p: nat, m: nat, q: nat)
    requires Forever(cf, run) && m < |cf.block| && SettledFrom(cf, run, p, m) && p <= q
    ensures var w, w' := WeightAt(cf, run(p), m), WeightAt(cf, run(q), m); w' == w || Lighter(w', w)
    decreases q
  {
    if p == q {
    } else {
      OnlyFalls(cf, run, p, m, q - 1);
      assert forall k: nat | k < m :: WeightAt(cf, run(q - 1), k) == WeightAt(cf, run(p), k) == WeightAt(cf, run(q), k);
      FallsNext(cf, run, m, q - 1);
    }
  }

  lemma {:induction false} SettlesNext(cf: Config, run: nat -> System, p: nat, m: nat) returns (q: nat)
    requires Forever(cf, run) && m < |cf.block| && SettledFrom(cf, run, p, m)
    ensures p <= q && SettledFrom(cf, run, q, m + 1)
    decreases WeightAt(cf, run(p), m).level, WeightAt(cf, run(p), m).phase, WeightAt(cf, run(p), m).count,
              WeightAt(cf, run(p), m).tail
  {
    if r: nat :| p <= r && WeightAt(cf, run(r), m) != WeightAt(cf, run(p), m) {
      OnlyFalls(cf, run, p, m, r);
      forall x: nat, k: nat | r <= x && k < m ensures WeightAt(cf, run(x), k) == WeightAt(cf, run(r), k) {
        assert WeightAt(cf, run(x), k) == WeightAt(cf, run(p), k) == WeightAt(cf, run(r), k);
      }
      q := SettlesNext(cf, run, r, m);
    } else {
      q := p;
    }
  }

  lemma {:induction false} Settles(cf: Config, run: nat -> System, m: nat) returns (q: nat)
    requires Forever(cf, run) && m <= |cf.block|
    ensures SettledFrom(cf, run, q, m)
  {
    if m == 0 {
      q := 0;
    } else {
      var p := Settles(cf, run, m - 1);
      q := SettlesNext(cf, run, p, m - 1);
    }
  }

  /**
   In every run there is a moment after which threads at most schedule,
   claim and validate: nothing is executed, aborted, woken or re-executed any
   more, and statuses, dependencies, memory, inputs and outputs stay as they are.
   */
  lemma WorkDiesOut(cf: Config, run: nat -> System) returns (q: nat)
    requires Forever(cf, run)
    ensures forall p: nat | q <= p :: StaysAt(cf, run, p)
  {
    q := Settles(cf, run, |cf.block|);
    forall p: nat | q <= p ensures StaysAt(cf, run, p) {
      assert forall k: nat | k < |cf.block| ::
             WeightAt(cf, run(p), k) == WeightAt(cf, run(q), k) == WeightAt(cf, run(p + 1), k);
      FallsOrStays(cf, run, p);
    }
  }
}
