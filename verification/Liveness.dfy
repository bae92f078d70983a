/**
 The executor never gets stuck: as long as a worker has not returned, some
 worker can take a step.
 */
module Liveness {
  import opened State
  import opened Protocol
  import opened Runs

  // --- No deadlock ---

  /** Every thread that has not stopped can take its next step, locks aside. */
  lemma CanRun(cf: Config, a: Shared, i: nat, c: nat, p: RunPc) returns (b: Shared, pc': Pc)
    requires WellSized(|cf.block|, a) && InRange(|cf.block|, Run(i, c, p))
    ensures Running(cf, a, i, c, p, b, pc')
  {
    b := a;
    match p
    case LoadReads => pc' := Run(i, c, Pre(if a.ins[i].Some? then a.ins[i].value else []));
    case Pre(todo) =>
      if todo == [] {
        pc' := Run(i, c, Exec([]));
      } else {
        var found := Latest(a.mv, todo[0].key, i);
        pc' := Run(i, c, if found.Blocked? then PreDep(todo[1..], found.idx) else Pre(todo[1..]));
      }
    case PreDep(todo, d) => pc' := Run(i, c, if a.status[d].Executed? then Pre(todo) else Park(d));
    case Exec(log) =>
      match cf.block[i].op(Vals(log)) {
        case Read(k) =>
          match Latest(a.mv, k, i) {
            case Hit(v, x) => pc' := Run(i, c, Exec(log + [ReadDesc(k, Some(v), Some(x))]));
            case Miss => pc' := Run(i, c, Exec(log + [ReadDesc(k, None, None)]));
            case Blocked(d) => pc' := Run(i, c, ExecDep(log, d));
          }
        case Finish(w) => pc' := Run(i, c, Apply(log, w, w.Keys, OutKeys(a.outs[i]), false));
      }
    case ExecDep(log, d) => pc' := Run(i, c, if a.status[d].Executed? then Exec(log) else Park(d));
    case Park(d) => b, pc' := a.(deps := a.deps[d := a.deps[d] + [i]]), LetGo;
    case Apply(log, w, left, prev, outside) => b, pc' := CanApply(cf, a, i, c, p);
    case RecordIn(log, w, outside) => b, pc' := a.(ins := a.ins[i := Some(log)]), Run(i, c, RecordOut(w, outside));
    case RecordOut(w, outside) => b, pc' := a.(outs := a.outs[i := Some(w)]), Run(i, c, SetExecuted(outside));
    case SetExecuted(outside) =>
      if a.status[i] == Executing(c) {
        b, pc' := a.(status := a.status[i := Executed(c)]), Fin(i, c, outside, Take);
      } else {
        pc' := Panic;
      }
  }

  lemma CanApply(cf: Config, a: Shared, i: nat, c: nat, p: RunPc) returns (b: Shared, pc': Pc)
    requires WellSized(|cf.block|, a) && i < |cf.block| && p.Apply?
    ensures Running(cf, a, i, c, p, b, pc')
  {
    b := a;
    if p.left != {} {
      var k :| k in p.left;
      if k !in p.w || (k in a.mv[i] && a.mv[i][k].inc >= c) {
        pc' := Panic;
      } else {
        b := a.(mv := a.mv[i := a.mv[i][k := Cell(false, c, p.w[k])]]);
        pc' := Run(i, c, p.(left := p.left - {k}, prev := p.prev - {k}, outside := p.outside || k !in p.prev));
      }
      assert WriteOne(a, i, c, p, b, pc', k);
    } else if p.prev != {} {
      var k :| k in p.prev;
      if k !in a.mv[i] {
        pc' := Panic;
      } else {
        b, pc' := a.(mv := a.mv[i := a.mv[i] - {k}]), Run(i, c, p.(prev := p.prev - {k}));
      }
      assert DeleteOne(a, i, c, p, b, pc', k);
    } else {
      pc' := Run(i, c, RecordIn(p.log, p.w, p.outside));
    }
  }

  lemma CanFinish(cf: Config, a: Shared, i: nat, c: nat, outside: bool, p: FinishPc) returns (b: Shared, pc': Pc)
    requires WellSized(|cf.block|, a) && InRange(|cf.block|, Fin(i, c, outside, p))
    ensures Finishing(cf, a, i, c, outside, p, b, pc')
  {
    b := a;
    match p
    case Take => b, pc' := a.(deps := a.deps[i := []]), Fin(i, c, outside, Wake(a.deps[i], None));
    case Wake(rest, low) =>
      if rest == [] {
        pc' := Fin(i, c, outside, if low.Some? then LowerExec(low.value) else CheckVal);
      } else if a.status[rest[0]].Executing? {
        b := a.(status := a.status[rest[0] := ReadyToExecute(a.status[rest[0]].inc + 1)]);
        pc' := Fin(i, c, outside, Wake(rest[1..], Some(Min(low, rest[0]))));
      } else {
        pc' := Panic;
      }
    case LowerExec(target) =>
      if a.exec > target {
        b, pc' := a.(exec := target), Fin(i, c, outside, BumpExec);
      } else {
        pc' := Fin(i, c, outside, CheckVal);
      }
    case BumpExec => b, pc' := a.(cnt := a.cnt + 1), Fin(i, c, outside, CheckVal);
    case CheckVal =>
      pc' := if a.val > i then (if outside then Fin(i, c, outside, LowerVal) else Val(i, c, LoadSet)) else LetGo;
    case LowerVal => if a.val > i { b, pc' := a.(val := i), Fin(i, c, outside, BumpVal); } else { pc' := LetGo; }
    case BumpVal => b, pc' := a.(cnt := a.cnt + 1), LetGo;
  }

  lemma CanSchedule(cf: Config, a: Shared, pc: Pc) returns (b: Shared, pc': Pc)
    requires WellSized(|cf.block|, a) && (pc.Sched? || pc.Check? || pc.Claim?) && pc != Sched(Stopped) && pc != Panic
    ensures Move(cf, a, pc, b, pc')
  {
    b := a;
    match pc
    case Sched(Idle) => pc' := Sched(if a.done then Stopped else LoadVal);
    case Sched(LoadVal) => pc' := Sched(LoadExec(a.val));
    case Sched(LoadExec(v)) => pc' := Choose(cf, v, a.exec);
    case Sched(TryVal(k)) => pc' := if a.val >= |cf.block| then Check(k, ReadCnt) else Sched(ValGuard(k));
    case Sched(TryExec) => pc' := if a.exec >= |cf.block| then Check(Again, ReadCnt) else Sched(ExecGuard);
    case Sched(ValGuard(k)) => b, pc' := a.(active := a.active + 1), Claim(ValFetch(k));
    case Sched(ExecGuard) => b, pc' := a.(active := a.active + 1), Claim(ExecFetch);
    case Check(k, ReadCnt) => pc' := Check(k, ReadVal(a.cnt));
    case Check(k, ReadVal(seen)) => pc' := Check(k, ReadExec(seen, a.val));
    case Check(k, ReadExec(seen, v)) => pc' := Check(k, ReadTasks(seen, v, a.exec));
    case Check(k, ReadTasks(seen, v, e)) =>
      pc' := if e < |cf.block| || v < |cf.block| || a.active > 0 then Continue(k) else Check(k, ReadCntAgain(seen));
    case Check(k, ReadCntAgain(seen)) => pc' := if seen == a.cnt then Check(k, SetDone) else Continue(k);
    case Check(k, SetDone) => b, pc' := a.(done := true), Continue(k);
    case Claim(ValFetch(k)) => b, pc' := a.(val := a.val + 1), Claim(ValStatus(k, a.val));
    case Claim(ValStatus(k, at)) =>
      pc' := if at < |a.status| && a.status[at].Executed? then Val(at, a.status[at].inc, LoadSet) else Claim(Drop(k));
    case Claim(ExecFetch) => b, pc' := a.(exec := a.exec + 1), Claim(ExecStatus(a.exec));
    case Claim(ExecStatus(at)) => b, pc' := CanIncarnate(a, at);
    case Claim(Drop(k)) =>
      if a.active > 0 { b, pc' := a.(active := a.active - 1), Continue(k); } else { pc' := Panic; }
  }

  lemma CanIncarnate(a: Shared, i: nat) returns (b: Shared, pc': Pc)
    ensures TryIncarnate(a, i, b, pc')
  {
    if i < |a.status| && a.status[i].ReadyToExecute? {
      b, pc' := a.(status := a.status[i := Executing(a.status[i].inc)]), Run(i, a.status[i].inc, LoadReads);
    } else {
      b, pc' := a, LetGo;
    }
  }

  lemma CanValidate(cf: Config, a: Shared, pc: Pc) returns (b: Shared, pc': Pc)
    requires WellSized(|cf.block|, a) && InRange(|cf.block|, pc) && (pc.Val? || pc.Abort? || pc.Redo?)
    ensures Move(cf, a, pc, b, pc')
  {
    b := a;
    match pc
    case Val(i, c, LoadSet) => pc' := if a.ins[i].Some? then Val(i, c, Checking(a.ins[i].value)) else Panic;
    case Val(i, c, Checking(todo)) =>
      pc' := if todo == [] then LetGo
             else if Validates(todo[0], Latest(a.mv, todo[0].key, i)) then Val(i, c, Checking(todo[1..]))
             else Val(i, c, TryAbort);
    case Val(i, c, TryAbort) =>
      if a.status[i] == Executed(c) {
        b, pc' := a.(status := a.status[i := Aborting(c)]), Abort(i, c, LoadWrites);
      } else {
        pc' := LetGo;
      }
    case Abort(i, c, LoadWrites) => pc' := Abort(i, c, Mark(OutKeys(a.outs[i])));
    case Abort(i, c, Mark(keys)) =>
      if keys == {} {
        pc' := Abort(i, c, SetAborted);
      } else {
        var k :| k in keys;
        if k !in a.mv[i] {
          pc' := Panic;
        } else {
          b := a.(mv := a.mv[i := a.mv[i][k := a.mv[i][k].(estimate := true)]]);
          pc' := Abort(i, c, Mark(keys - {k}));
        }
        assert MarkOne(a, i, c, Mark(keys), b, pc', k);
      }
    case Abort(i, c, SetAborted) =>
      if a.status[i] == Aborting(c) {
        b, pc' := a.(status := a.status[i := ReadyToExecute(c + 1)]), Redo(i, LowerSuffix);
      } else {
        pc' := Panic;
      }
    case Redo(i, LowerSuffix) =>
      if a.val > i + 1 { b, pc' := a.(val := i + 1), Redo(i, BumpSuffix); } else { pc' := Redo(i, CheckExec); }
    case Redo(i, BumpSuffix) => b, pc' := a.(cnt := a.cnt + 1), Redo(i, CheckExec);
    case Redo(i, CheckExec) => pc' := if a.exec > i then Redo(i, Reincarnate) else LetGo;
    case Redo(i, Reincarnate) => b, pc' := CanIncarnate(a, i);
  }

  lemma CanMove(cf: Config, a: Shared, pc: Pc) returns (b: Shared, pc': Pc)
    requires WellSized(|cf.block|, a) && pc != Sched(Stopped) && pc != Panic
    ensures Move(cf, a, pc, b, pc')
  {
    if !InRange(|cf.block|, pc) {
      b, pc' := a, Panic;
    } else {
      match pc
      case Run(i, c, p) => b, pc' := CanRun(cf, a, i, c, p);
      case Fin(i, c, outside, p) => b, pc' := CanFinish(cf, a, i, c, outside, p);
      case Sched(_) => b, pc' := CanSchedule(cf, a, pc);
      case Check(_, _) => b, pc' := CanSchedule(cf, a, pc);
      case Claim(_) => b, pc' := CanSchedule(cf, a, pc);
      case _ => b, pc' := CanValidate(cf, a, pc);
    }
  }

  /** The thread that moves next when `t` would: itself, or the holder of the lock it waits for. */
  lemma Mover(s: System, t: nat) returns (u: nat)
    requires t < |s.threads| && s.threads[t] != Sched(Stopped) && s.threads[t] != Panic
    ensures u < |s.threads| && s.threads[u] != Sched(Stopped) && s.threads[u] != Panic
    ensures Wants(s.threads[u]).Some? ==> !Locked(s.threads, Wants(s.threads[u]).value)
  {
    u := t;
    if Wants(s.threads[t]).Some? && Locked(s.threads, Wants(s.threads[t]).value) {
      u :| u < |s.threads| && Locks(s.threads[u], Wants(s.threads[t]).value);
    }
  }

  /** Where the invariant holds and some worker has not returned, some worker can take a step. */
  lemma CanStep(cf: Config, s: System, t: nat) returns (s': System)
    requires Safe(cf, s) && t < |s.threads| && s.threads[t] != Sched(Stopped)
    ensures AnyStep(cf, s, s')
  {
    var u := Mover(s, t);
    var b, pc' := CanMove(cf, s.sh, s.threads[u]);
    s' := System(b, s.threads[u := pc']);
    assert Step(cf, s, u, s');
  }

  /** In every state of every run, as long as some worker has not returned, some worker can take a step. */
  lemma NeverStuck(cf: Config, run: seq<System>, q: nat, t: nat) returns (s': System)
    requires IsRun(cf, run) && q < |run| && t < |run[q].threads| && run[q].threads[t] != Sched(Stopped)
    ensures AnyStep(cf, run[q], s')
  {
    RunSafe(cf, run, q);
    s' := CanStep(cf, run[q], t);
  }

  // --- Every step goes on ---

  /** Every step changes the program counter of its worker. */
  lemma MoveChanges(cf: Config, a: Shared, pc: Pc, b: Shared, pc': Pc)
    requires WellSized(|cf.block|, a) && Move(cf, a, pc, b, pc') && pc != Panic
    ensures pc' != pc
  {
    if InRange(|cf.block|, pc) {
      match pc
      case Run(i, c, p) => if p.Apply? { ApplyChanges(cf, a, i, c, p, b, pc'); }
      case Abort(i, c, p) =>
        if p.Mark? && p.keys != {} { var k :| k in p.keys && MarkOne(a, i, c, p, b, pc', k); }
      case _ =>
    }
  }

  lemma ApplyChanges(cf: Config, a: Shared, i: nat, c: nat, p: RunPc, b: Shared, pc': Pc)
    requires WellSized(|cf.block|, a) && i < |cf.block| && p.Apply? && Running(cf, a, i, c, p, b, pc')
    ensures pc' != Run(i, c, p)
  {
    if p.left != {} {
      var k :| k in p.left && WriteOne(a, i, c, p, b, pc', k);
    } else if p.prev != {} {
      var k :| k in p.prev && DeleteOne(a, i, c, p, b, pc', k);
    }
  }
}
