/**
 Who works on which transaction. In every reachable state each `Executing`
 transaction is in exactly one place: with the thread that executes it, once in
 one dependency list, or once in the wake-up list of a finishing thread.
 */
module Ownership {
  import opened State
  import opened Protocol

  /** The one place a transaction is held at. */
  datatype Place = Free | With(t: nat) | Parked(d: nat) | Waking(t: nat)

  /** What a thread is responsible for. */
  datatype Duty = NoDuty | Executes(v: Version) | Aborts(v: Version) | Wakes(list: seq<nat>)

  function DutyOf(pc: Pc): Duty {
    match pc
    case Run(i, c, _) => Executes(Version(i, c))
    case Abort(i, c, _) => Aborts(Version(i, c))
    case Fin(_, _, _, Wake(rest, _)) => Wakes(rest)
    case _ => NoDuty
  }

  predicate NoDup(q: seq<nat>) {
    forall a, b | 0 <= a < b < |q| :: q[a] != q[b]
  }

  /** Indices are in range and a dependency is always on a smaller index. */
  predicate Sane(n: nat, pc: Pc) {
    && InRange(n, pc)
    && (pc.Run? && (pc.rp.PreDep? || pc.rp.ExecDep? || pc.rp.Park?) ==> pc.rp.d < pc.i)
  }

  predicate Placed(a: Shared, threads: seq<Pc>, at: seq<Place>, i: nat)
    requires i < |a.status| && i < |at|
  {
    match a.status[i]
    case ReadyToExecute(_) => at[i] == Free
    case Executed(_) => at[i] == Free
    case Aborting(c) => at[i].With? && at[i].t < |threads| && DutyOf(threads[at[i].t]) == Aborts(Version(i, c))
    case Executing(c) => (
      match at[i]
      case Free => false
      case With(t) => t < |threads| && DutyOf(threads[t]) == Executes(Version(i, c))
      case Parked(d) => d < i && d < |a.deps| && i in a.deps[d]
      case Waking(t) => t < |threads| && DutyOf(threads[t]).Wakes? && i in DutyOf(threads[t]).list
    )
  }

  predicate ThreadOwns(a: Shared, pc: Pc, at: seq<Place>, t: nat)
    requires |at| == |a.status|
  {
    && Sane(|at|, pc)
    && match DutyOf(pc)
       case NoDuty => true
       case Executes(v) => v.idx < |at| && at[v.idx] == With(t) && a.status[v.idx] == Executing(v.inc)
       case Aborts(v) => v.idx < |at| && at[v.idx] == With(t) && a.status[v.idx] == Aborting(v.inc)
       case Wakes(list) => HeldBy(at, list, Waking(t))
  }

  predicate HeldBy(at: seq<Place>, list: seq<nat>, p: Place) {
    && (forall m | 0 <= m < |list| :: list[m] < |at| && at[list[m]] == p)
    && NoDup(list)
  }

  predicate Owned(n: nat, s: System, at: seq<Place>) {
    && WellSized(n, s.sh)
    && |at| == n
    && (forall i: nat | i < n :: Placed(s.sh, s.threads, at, i))
    && (forall t: nat | t < |s.threads| :: ThreadOwns(s.sh, s.threads[t], at, t))
    && (forall d: nat | d < n :: HeldBy(at, s.sh.deps[d], Parked(d)))
  }

  // --- The effect of a step on ownership ---

  predicate Kept(a: Shared, pc: Pc, b: Shared, pc': Pc) {
    && b.status == a.status && b.deps == a.deps
    && (DutyOf(pc') == DutyOf(pc) || (DutyOf(pc) == Wakes([]) && DutyOf(pc') == NoDuty))
  }

  /** A free transaction comes into the hands of the thread. */
  predicate Acquires(a: Shared, pc: Pc, b: Shared, pc': Pc, i: nat) {
    && i < |a.status| == |b.status|
    && b.status == a.status[i := b.status[i]] && b.deps == a.deps
    && DutyOf(pc) == NoDuty
    && (|| (a.status[i].ReadyToExecute? && b.status[i].Executing? &&
        DutyOf(pc') == Executes(Version(i, b.status[i].inc)))
        || (a.status[i].Executed? && b.status[i].Aborting? && DutyOf(pc') == Aborts(Version(i, b.status[i].inc))))
  }

  /** The thread lets go of its transaction, which becomes free. */
  predicate Releases(a: Shared, pc: Pc, b: Shared, pc': Pc, i: nat) {
    && i < |a.status| == |b.status|
    && b.status == a.status[i := b.status[i]] && b.deps == a.deps
    && ((DutyOf(pc).Executes? && DutyOf(pc).v.idx == i) || (DutyOf(pc).Aborts? && DutyOf(pc).v.idx == i))
    && DutyOf(pc') == NoDuty
    && (b.status[i].ReadyToExecute? || b.status[i].Executed?)
  }

  predicate Parks(a: Shared, pc: Pc, b: Shared, pc': Pc) {
    && pc.Run? && pc.rp.Park? && DutyOf(pc') == NoDuty
    && pc.rp.d < |a.deps|
    && b.status == a.status && b.deps == a.deps[pc.rp.d := a.deps[pc.rp.d] + [pc.i]]
  }

  predicate Takes(a: Shared, pc: Pc, b: Shared, pc': Pc) {
    && pc.Fin? && pc.fp.Take? && pc.i < |a.deps|
    && DutyOf(pc') == Wakes(a.deps[pc.i])
    && b.status == a.status && b.deps == a.deps[pc.i := []]
  }

  predicate WakesOne(a: Shared, pc: Pc, b: Shared, pc': Pc) {
    && DutyOf(pc).Wakes? && DutyOf(pc).list != []
    && DutyOf(pc') == Wakes(DutyOf(pc).list[1..])
    && DutyOf(pc).list[0] < |a.status| == |b.status|
    && b.status == a.status[DutyOf(pc).list[0] := b.status[DutyOf(pc).list[0]]]
    && b.status[DutyOf(pc).list[0]].ReadyToExecute?
    && b.deps == a.deps
  }

  // --- Each effect preserves ownership ---

  predicate Replaces(s: System, t: nat, s': System) {
    t < |s.threads| && |s'.threads| == |s.threads| && s'.threads == s.threads[t := s'.threads[t]]
  }

  lemma OwnedKept(n: nat, s: System, t: nat, s': System, at: seq<Place>)
    requires Owned(n, s, at) && Replaces(s, t, s') && WellSized(n, s'.sh) && Sane(n, s'.threads[t])
    requires Kept(s.sh, s.threads[t], s'.sh, s'.threads[t])
    ensures Owned(n, s', at)
  {
    forall i: nat | i < n ensures Placed(s'.sh, s'.threads, at, i) {
      assert Placed(s.sh, s.threads, at, i);
    }
    forall u: nat | u < |s'.threads| ensures ThreadOwns(s'.sh, s'.threads[u], at, u) {
      assert ThreadOwns(s.sh, s.threads[u], at, u);
    }
  }

  lemma OwnedAcquire(n: nat, s: System, t: nat, s': System, at: seq<Place>, i: nat)
    requires Owned(n, s, at) && Replaces(s, t, s') && WellSized(n, s'.sh) && Sane(n, s'.threads[t])
    requires Acquires(s.sh, s.threads[t], s'.sh, s'.threads[t], i)
    ensures Owned(n, s', at[i := With(t)])
  {
    var at' := at[i := With(t)];
    assert Placed(s.sh, s.threads, at, i);
    forall j: nat | j < n ensures Placed(s'.sh, s'.threads, at', j) {
      assert Placed(s.sh, s.threads, at, j);
    }
    forall u: nat | u < |s'.threads| ensures ThreadOwns(s'.sh, s'.threads[u], at', u) {
      assert ThreadOwns(s.sh, s.threads[u], at, u);
    }
  }

  lemma OwnedRelease(n: nat, s: System, t: nat, s': System, at: seq<Place>, i: nat)
    requires Owned(n, s, at) && Replaces(s, t, s') && WellSized(n, s'.sh) && Sane(n, s'.threads[t])
    requires Releases(s.sh, s.threads[t], s'.sh, s'.threads[t], i)
    ensures Owned(n, s', at[i := Free])
  {
    var at' := at[i := Free];
    assert ThreadOwns(s.sh, s.threads[t], at, t);
    forall j: nat | j < n ensures Placed(s'.sh, s'.threads, at', j) {
      assert Placed(s.sh, s.threads, at, j);
    }
    forall u: nat | u < |s'.threads| ensures ThreadOwns(s'.sh, s'.threads[u], at', u) {
      assert ThreadOwns(s.sh, s.threads[u], at, u);
    }
  }

  lemma OwnedPark(n: nat, s: System, t: nat, s': System, at: seq<Place>)
    requires Owned(n, s, at) && Replaces(s, t, s') && WellSized(n, s'.sh) && Sane(n, s'.threads[t])
    requires Parks(s.sh, s.threads[t], s'.sh, s'.threads[t])
    ensures Owned(n, s', at[s.threads[t].i := Parked(s.threads[t].rp.d)])
  {
    assert ThreadOwns(s.sh, s.threads[t], at, t);
    var i, d := s.threads[t].i, s.threads[t].rp.d;
    var at' := at[i := Parked(d)];
    assert DutyOf(s.threads[t]) == Executes(Version(i, s.threads[t].c));
    forall j: nat | j < n ensures Placed(s'.sh, s'.threads, at', j) {
      assert Placed(s.sh, s.threads, at, j);
      if j == i { assert s'.sh.deps[d][|s.sh.deps[d]|] == i; }
    }
    forall u: nat | u < |s'.threads| ensures ThreadOwns(s'.sh, s'.threads[u], at', u) {
      assert ThreadOwns(s.sh, s.threads[u], at, u);
    }
    assert HeldBy(at, s.sh.deps[d], Parked(d));
  }

  /** The places after thread `t` took the whole list `list`. */
  function Taken(at: seq<Place>, list: seq<nat>, t: nat): (at': seq<Place>)
    ensures |at'| == |at|
  {
    seq(|at|, i requires 0 <= i < |at| => if i in list then Waking(t) else at[i])
  }

  lemma OwnedTake(n: nat, s: System, t: nat, s': System, at: seq<Place>)
    requires Owned(n, s, at) && Replaces(s, t, s') && WellSized(n, s'.sh) && Sane(n, s'.threads[t])
    requires Takes(s.sh, s.threads[t], s'.sh, s'.threads[t])
    ensures Owned(n, s', Taken(at, s.sh.deps[s.threads[t].i], t))
  {
    var d := s.threads[t].i;
    var list := s.sh.deps[d];
    var at' := Taken(at, list, t);
    assert HeldBy(at, list, Parked(d));
    forall j: nat | j < n ensures Placed(s'.sh, s'.threads, at', j) {
      assert Placed(s.sh, s.threads, at, j);
    }
    forall u: nat | u < |s'.threads| ensures ThreadOwns(s'.sh, s'.threads[u], at', u) {
      assert ThreadOwns(s.sh, s.threads[u], at, u);
    }
    forall e: nat | e < n ensures HeldBy(at', s'.sh.deps[e], Parked(e)) {
      assert HeldBy(at, s.sh.deps[e], Parked(e));
    }
  }

  lemma OwnedWake(n: nat, s: System, t: nat, s': System, at: seq<Place>)
    requires Owned(n, s, at) && Replaces(s, t, s') && WellSized(n, s'.sh) && Sane(n, s'.threads[t])
    requires WakesOne(s.sh, s.threads[t], s'.sh, s'.threads[t])
    ensures Owned(n, s', at[DutyOf(s.threads[t]).list[0] := Free])
  {
    assert ThreadOwns(s.sh, s.threads[t], at, t);
    var rest := DutyOf(s.threads[t]).list;
    var x := rest[0];
    var at' := at[x := Free];
    forall j: nat | j < n ensures Placed(s'.sh, s'.threads, at', j) {
      assert Placed(s.sh, s.threads, at, j);
      if j != x && j in rest { assert j in rest[1..]; }
    }
    forall u: nat | u < |s'.threads| ensures ThreadOwns(s'.sh, s'.threads[u], at', u) {
      assert ThreadOwns(s.sh, s.threads[u], at, u);
    }
  }

  // --- Every step that does not panic has one of the effects ---

  /** A lookup only finds strictly smaller indices. */
  lemma {:induction false} LatestBelow(mv: Memory, k: StateKey, j: nat)
    requires j <= |mv|
    ensures Latest(mv, k, j).Blocked? ==> Latest(mv, k, j).idx < j
    ensures Latest(mv, k, j).Hit? ==> Latest(mv, k, j).ver.idx < j
  {
    if j == 0 {
    } else {
      LatestBelow(mv, k, j - 1);
    }
  }

  ghost predicate OwnershipEffect(a: Shared, pc: Pc, b: Shared, pc': Pc) {
    || Kept(a, pc, b, pc')
    || (exists i: nat :: Acquires(a, pc, b, pc', i))
    || (exists i: nat :: Releases(a, pc, b, pc', i))
    || Parks(a, pc, b, pc')
    || Takes(a, pc, b, pc')
    || WakesOne(a, pc, b, pc')
  }

  lemma EffectOfClaiming(cf: Config, a: Shared, p: ClaimPc, b: Shared, pc': Pc)
    requires WellSized(|cf.block|, a) && Claiming(cf, a, p, b, pc') && pc' != Panic
    ensures WellSized(|cf.block|, b) && Sane(|cf.block|, pc') && OwnershipEffect(a, Claim(p), b, pc')
  {
    if p.ExecStatus? && pc'.Run? {
      assert Acquires(a, Claim(p), b, pc', p.at);
    }
  }

  lemma EffectOfRunning(cf: Config, a: Shared, i: nat, c: nat, p: RunPc, b: Shared, pc': Pc)
    requires WellSized(|cf.block|, a) && Sane(|cf.block|, Run(i, c, p)) && Running(cf, a, i, c, p, b, pc')
    requires pc' != Panic
    ensures WellSized(|cf.block|, b) && Sane(|cf.block|, pc') && OwnershipEffect(a, Run(i, c, p), b, pc')
  {
    match p
    case Exec(log) =>
      if cf.block[i].op(Vals(log)).Read? { LatestBelow(a.mv, cf.block[i].op(Vals(log)).key, i); }
    case Pre(todo) =>
      if todo != [] { LatestBelow(a.mv, todo[0].key, i); }
    case SetExecuted(outside) =>
      assert Releases(a, Run(i, c, p), b, pc', i);
    case _ =>
  }

  lemma EffectOfFinishing(cf: Config, a: Shared, i: nat, c: nat, outside: bool, p: FinishPc, b: Shared, pc': Pc)
    requires WellSized(|cf.block|, a) && Sane(|cf.block|, Fin(i, c, outside, p))
    requires Finishing(cf, a, i, c, outside, p, b, pc') && pc' != Panic
    requires p.Take? ==> Below(|cf.block|, a.deps[i])
    ensures WellSized(|cf.block|, b) && Sane(|cf.block|, pc') && OwnershipEffect(a, Fin(i, c, outside, p), b, pc')
  {
  }

  lemma EffectOfValidating(cf: Config, a: Shared, i: nat, c: nat, p: ValidatePc, b: Shared, pc': Pc)
    requires WellSized(|cf.block|, a) && i < |cf.block| && Validating(cf, a, i, c, p, b, pc') && pc' != Panic
    ensures WellSized(|cf.block|, b) && Sane(|cf.block|, pc') && OwnershipEffect(a, Val(i, c, p), b, pc')
  {
    if pc'.Abort? { assert Acquires(a, Val(i, c, p), b, pc', i); }
  }

  lemma EffectOfAborted(cf: Config, a: Shared, i: nat, c: nat, p: AbortPc, b: Shared, pc': Pc)
    requires WellSized(|cf.block|, a) && i < |cf.block| && Aborted(cf, a, i, c, p, b, pc') && pc' != Panic
    ensures WellSized(|cf.block|, b) && Sane(|cf.block|, pc') && OwnershipEffect(a, Abort(i, c, p), b, pc')
  {
    if pc'.Redo? { assert Releases(a, Abort(i, c, p), b, pc', i); }
  }

  lemma EffectOfRedoing(cf: Config, a: Shared, i: nat, p: RedoPc, b: Shared, pc': Pc)
    requires WellSized(|cf.block|, a) && i < |cf.block| && Redoing(cf, a, i, p, b, pc')
    ensures WellSized(|cf.block|, b) && Sane(|cf.block|, pc') && OwnershipEffect(a, Redo(i, p), b, pc')
  {
    if pc'.Run? { assert Acquires(a, Redo(i, p), b, pc', i); }
  }

  /** Steps that touch no transaction: scheduling, index updates, loads. */
  predicate Plain(pc: Pc) {
    || pc.Sched? || pc.Check?
    || (pc.Claim? && !pc.cp.ExecStatus?)
    || (pc.Redo? && !pc.xp.Reincarnate?)
  }

  lemma PlainMove(cf: Config, a: Shared, pc: Pc, b: Shared, pc': Pc)
    requires WellSized(|cf.block|, a) && InRange(|cf.block|, pc) && Plain(pc) && Move(cf, a, pc, b, pc')
    ensures b.status == a.status && b.deps == a.deps && b.mv == a.mv && b.ins == a.ins && b.outs == a.outs
    ensures InRange(|cf.block|, pc')
    ensures pc'.Sched? || pc'.Check? || pc'.Claim? || pc'.Redo? || (pc'.Val? && pc'.vp == LoadSet)
  {
    match pc
    case Sched(p) =>
    case Check(k, p) =>
    case Claim(p) =>
    case Redo(i, p) =>
  }

  /** execute_one and finish_abort up to set_aborted_status leave the indices and the counters alone. */
  lemma RunningCounters(cf: Config, a: Shared, i: nat, c: nat, p: RunPc, b: Shared, pc': Pc)
    requires WellSized(|cf.block|, a) && InRange(|cf.block|, Run(i, c, p)) && Running(cf, a, i, c, p, b, pc')
    ensures b.exec == a.exec && b.val == a.val && b.active == a.active
    ensures pc'.Run? || pc'.Fin? || pc' == LetGo || pc' == Panic
  {
  }

  lemma AbortedCounters(cf: Config, a: Shared, i: nat, c: nat, p: AbortPc, b: Shared, pc': Pc)
    requires WellSized(|cf.block|, a) && i < |cf.block| && Aborted(cf, a, i, c, p, b, pc')
    ensures b.exec == a.exec && b.val == a.val && b.active == a.active
    ensures pc'.Abort? || pc'.Redo? || pc' == Panic
  {
  }

  lemma EffectOfMove(cf: Config, a: Shared, pc: Pc, b: Shared, pc': Pc)
    requires WellSized(|cf.block|, a) && Sane(|cf.block|, pc) && Move(cf, a, pc, b, pc') && pc' != Panic
    requires pc.Fin? && pc.fp.Take? ==> Below(|cf.block|, a.deps[pc.i])
    ensures WellSized(|cf.block|, b) && Sane(|cf.block|, pc') && OwnershipEffect(a, pc, b, pc')
  {
    match pc
    case Sched(p) => PlainMove(cf, a, pc, b, pc');
    case Check(k, p) => PlainMove(cf, a, pc, b, pc');
    case Claim(p) => EffectOfClaiming(cf, a, p, b, pc');
    case Run(i, c, p) => EffectOfRunning(cf, a, i, c, p, b, pc');
    case Fin(i, c, outside, p) => EffectOfFinishing(cf, a, i, c, outside, p, b, pc');
    case Val(i, c, p) => EffectOfValidating(cf, a, i, c, p, b, pc');
    case Abort(i, c, p) => EffectOfAborted(cf, a, i, c, p, b, pc');
    case Redo(i, p) => EffectOfRedoing(cf, a, i, p, b, pc');
  }

  /** Ownership is preserved by every step of every thread that does not panic. */
  lemma OwnedStep(cf: Config, s: System, t: nat, s': System, at: seq<Place>) returns (at': seq<Place>)
    requires Owned(|cf.block|, s, at) && Step(cf, s, t, s') && s'.threads[t] != Panic
    ensures Owned(|cf.block|, s', at')
  {
    var n, a, pc, b, pc' := |cf.block|, s.sh, s.threads[t], s'.sh, s'.threads[t];
    assert ThreadOwns(a, pc, at, t);
    assert pc.Fin? && pc.fp.Take? ==> HeldBy(at, a.deps[pc.i], Parked(pc.i));
    EffectOfMove(cf, a, pc, b, pc');
    if Kept(a, pc, b, pc') {
      OwnedKept(n, s, t, s', at);
      at' := at;
    } else if i: nat :| Acquires(a, pc, b, pc', i) {
      OwnedAcquire(n, s, t, s', at, i);
      at' := at[i := With(t)];
    } else if i: nat :| Releases(a, pc, b, pc', i) {
      OwnedRelease(n, s, t, s', at, i);
      at' := at[i := Free];
    } else if Parks(a, pc, b, pc') {
      OwnedPark(n, s, t, s', at);
      at' := at[pc.i := Parked(pc.rp.d)];
    } else if Takes(a, pc, b, pc') {
      OwnedTake(n, s, t, s', at);
      at' := Taken(at, a.deps[pc.i], t);
    } else {
      OwnedWake(n, s, t, s', at);
      at' := at[DutyOf(pc).list[0] := Free];
    }
  }
}
