/**
 What the captured and recorded reads say: every read that came from memory
 names a version of a smaller index and carries the value that version wrote,
 and the log of a transaction is a run of that transaction.
 */
module ReadLog {
  import opened State
  import opened Protocol
  import opened Ownership
  import opened Footprint

  ghost predicate Sourced(hist: History, i: nat, r: ReadDesc) {
    match r.src
    case None => r.val == None
    case Some(v) => v.idx < i && r.val.Some? && Wrote(hist, v, r.key, r.val.value)
  }

  ghost predicate AllSourced(hist: History, i: nat, log: seq<ReadDesc>) {
    forall m | 0 <= m < |log| :: Sourced(hist, i, log[m])
  }

  /** The log follows the transaction read by read. */
  ghost predicate Follows(txn: Txn, log: seq<ReadDesc>) {
    forall m | 0 <= m < |log| :: txn.op(Vals(log[..m])) == Read(log[m].key)
  }

  ghost predicate Complete(txn: Txn, log: seq<ReadDesc>, w: Writes) {
    Follows(txn, log) && txn.op(Vals(log)) == Finish(w)
  }

  ghost predicate RunLogged(cf: Config, a: Shared, hist: History, i: nat, p: RunPc)
    requires WellSized(|cf.block|, a) && i < |cf.block|
  {
    match p
    case Exec(log) => AllSourced(hist, i, log) && Follows(cf.block[i], log)
    case ExecDep(log, _) => AllSourced(hist, i, log) && Follows(cf.block[i], log)
    case Apply(log, w, _, _, _) => AllSourced(hist, i, log) && Complete(cf.block[i], log, w)
    case RecordIn(log, w, _) => AllSourced(hist, i, log) && Complete(cf.block[i], log, w)
    case RecordOut(w, _) => a.ins[i].Some? && Complete(cf.block[i], a.ins[i].value, w)
    case SetExecuted(_) => Logged(cf, a, i)
    case _ => true
  }

  /** The recorded input and output of `i` are one complete run of transaction `i`. */
  ghost predicate Logged(cf: Config, a: Shared, i: nat)
    requires WellSized(|cf.block|, a) && i < |cf.block|
  {
    a.ins[i].Some? && a.outs[i].Some? && Complete(cf.block[i], a.ins[i].value, a.outs[i].value)
  }

  ghost predicate IndexLogged(cf: Config, a: Shared, hist: History, i: nat)
    requires WellSized(|cf.block|, a) && i < |cf.block|
  {
    && (a.ins[i].Some? ==> AllSourced(hist, i, a.ins[i].value))
    && (a.status[i].Executed? ==> Logged(cf, a, i))
  }

  ghost predicate PcLogged(cf: Config, a: Shared, hist: History, pc: Pc)
    requires WellSized(|cf.block|, a) && InRange(|cf.block|, pc)
  {
    match pc
    case Run(i, _, p) => RunLogged(cf, a, hist, i, p)
    case Fin(i, _, _, _) => a.ins[i].Some?
    case Val(i, _, p) => a.ins[i].Some? && (p.Checking? ==> AllSourced(hist, i, p.todo))
    case _ => true
  }

  ghost predicate AllLogged(cf: Config, s: System, hist: History)
    requires WellSized(|cf.block|, s.sh)
  {
    && (forall i: nat | i < |cf.block| :: IndexLogged(cf, s.sh, hist, i))
    && (forall t: nat | t < |s.threads| :: InRange(|cf.block|, s.threads[t]) && PcLogged(cf, s.sh, hist, s.threads[t]))
  }

  // --- Growth of the history ---

  ghost predicate Grows(hist: History, hist': History) {
    forall v | v in hist :: v in hist' && hist'[v] == hist[v]
  }

  lemma AllSourcedGrows(hist: History, hist': History, i: nat, log: seq<ReadDesc>)
    requires Grows(hist, hist') && AllSourced(hist, i, log)
    ensures AllSourced(hist', i, log)
  {
    forall m | 0 <= m < |log| ensures Sourced(hist', i, log[m]) {
      assert Sourced(hist, i, log[m]);
    }
  }

  lemma ExtendGrows(s: System, t: nat, s': System, hist: History)
    requires t < |s.threads| == |s'.threads| && PcPrint(s.sh, hist, s.threads[t])
    requires s.threads[t].Run? ==> s.threads[t].i < |s.sh.status| && s.sh.status[s.threads[t].i].inc == s.threads[t].c
    ensures Grows(hist, Extend(hist, s.threads[t], s'.threads[t]))
  {
  }

  // --- Steps of one thread ---

  /** A value read from memory is the one its version wrote. */
  lemma {:induction false} LatestKnown(mv: Memory, k: StateKey, j: nat, hist: History)
    requires j <= |mv| && forall i: nat | i < j :: CellsKnown(hist, i, mv[i])
    ensures var r := Latest(mv, k, j); r.Hit? ==> r.ver.idx < j && Wrote(hist, r.ver, k, r.data)
  {
    if j > 0 && k !in mv[j - 1] { LatestKnown(mv, k, j - 1, hist); }
  }

  /** Appending the read the transaction asked for. */
  lemma FollowsOne(txn: Txn, log: seq<ReadDesc>, r: ReadDesc)
    requires Follows(txn, log) && txn.op(Vals(log)) == Read(r.key)
    ensures Follows(txn, log + [r])
  {
    forall m | 0 <= m < |log + [r]| ensures txn.op(Vals((log + [r])[..m])) == Read((log + [r])[m].key) {
      assert (log + [r])[..m] == log[..m];
      if m == |log| { assert log[..m] == log; }
    }
  }

  lemma LoggedExec(cf: Config, a: Shared, i: nat, c: nat, log: seq<ReadDesc>, b: Shared, pc': Pc, hist: History)
    requires WellSized(|cf.block|, a) && i < |cf.block|
    requires forall j: nat | j < i :: CellsKnown(hist, j, a.mv[j])
    requires RunLogged(cf, a, hist, i, Exec(log)) && Running(cf, a, i, c, Exec(log), b, pc')
    ensures b == a && pc'.Run? && pc'.i == i && RunLogged(cf, b, hist, i, pc'.rp)
  {
    if cf.block[i].op(Vals(log)).Read? {
      var k := cf.block[i].op(Vals(log)).key;
      LatestKnown(a.mv, k, i, hist);
      if pc'.rp.Exec? {
        var r := pc'.rp.log[|log|];
        assert pc'.rp.log == log + [r];
        FollowsOne(cf.block[i], log, r);
        assert Sourced(hist, i, r);
      }
    }
  }

  lemma LoggedRunning(cf: Config, a: Shared, i: nat, c: nat, p: RunPc, b: Shared, pc': Pc, hist: History)
    requires WellSized(|cf.block|, a) && InRange(|cf.block|, Run(i, c, p)) && !p.Exec?
    requires RunLogged(cf, a, hist, i, p) && IndexLogged(cf, a, hist, i) && a.status[i] == Executing(c)
    requires Running(cf, a, i, c, p, b, pc') && pc' != Panic && InRange(|cf.block|, pc')
    ensures WellSized(|cf.block|, b) && PcLogged(cf, b, hist, pc') && IndexLogged(cf, b, hist, i)
    ensures a.ins[i].Some? ==> b.ins[i].Some?
    ensures forall j: nat | j < |cf.block| && j != i ::
              b.ins[j] == a.ins[j] && b.outs[j] == a.outs[j] && b.status[j] == a.status[j]
  {
  }

  // --- The whole system ---

  ghost predicate LogsOnlyAt(n: nat, a: Shared, b: Shared, i: nat)
    requires WellSized(n, a)
  {
    && WellSized(n, b)
    && (forall j: nat | j < n :: a.ins[j].Some? ==> b.ins[j].Some?)
    && (forall j: nat | j < n && j != i ::
          b.ins[j] == a.ins[j] && b.outs[j] == a.outs[j] && (b.status[j].Executed? ==> a.status[j].Executed?))
  }

  lemma PcLoggedKept(cf: Config, a: Shared, b: Shared, hist: History, hist': History, i: nat, pc: Pc)
    requires WellSized(|cf.block|, a) && LogsOnlyAt(|cf.block|, a, b, i) && Grows(hist, hist')
    requires InRange(|cf.block|, pc) && PcLogged(cf, a, hist, pc) && !(pc.Run? && pc.i == i)
    ensures PcLogged(cf, b, hist', pc)
  {
    match pc
    case Run(j, _, p) =>
      if p.Exec? || p.ExecDep? || p.Apply? || p.RecordIn? { AllSourcedGrows(hist, hist', j, p.log); }
    case Val(j, _, Checking(todo)) => AllSourcedGrows(hist, hist', j, todo);
    case _ =>
  }

  lemma IndexLoggedKept(cf: Config, a: Shared, b: Shared, hist: History, hist': History, i: nat, j: nat)
    requires WellSized(|cf.block|, a) && LogsOnlyAt(|cf.block|, a, b, i) && Grows(hist, hist')
    requires j < |cf.block| && j != i && IndexLogged(cf, a, hist, j)
    ensures IndexLogged(cf, b, hist', j)
  {
    if a.ins[j].Some? { AllSourcedGrows(hist, hist', j, a.ins[j].value); }
  }

  /** A step that changes recorded inputs and outputs at most at `i`. */
  lemma AllLoggedAt(cf: Config, s: System, t: nat, s': System, hist: History, hist': History, i: nat)
    requires WellSized(|cf.block|, s.sh) && AllLogged(cf, s, hist) && Replaces(s, t, s') && Grows(hist, hist')
    requires LogsOnlyAt(|cf.block|, s.sh, s'.sh, i)
    requires i < |cf.block| ==> IndexLogged(cf, s'.sh, hist', i)
    requires InRange(|cf.block|, s'.threads[t]) && PcLogged(cf, s'.sh, hist', s'.threads[t])
    requires forall u: nat | u < |s.threads| && u != t :: !(s.threads[u].Run? && s.threads[u].i == i)
    ensures AllLogged(cf, s', hist')
  {
    forall j: nat | j < |cf.block| ensures IndexLogged(cf, s'.sh, hist', j) {
      assert IndexLogged(cf, s.sh, hist, j);
      if j != i { IndexLoggedKept(cf, s.sh, s'.sh, hist, hist', i, j); }
    }
    forall u: nat | u < |s'.threads|
      ensures InRange(|cf.block|, s'.threads[u]) && PcLogged(cf, s'.sh, hist', s'.threads[u])
    {
      if u != t {
        assert PcLogged(cf, s.sh, hist, s.threads[u]);
        PcLoggedKept(cf, s.sh, s'.sh, hist, hist', i, s.threads[u]);
      }
    }
  }

  lemma AllLoggedRunning(cf: Config, s: System, t: nat, s': System, at: seq<Place>, hist: History)
    requires Owned(|cf.block|, s, at) && Footprints(|cf.block|, s, hist) && AllLogged(cf, s, hist)
    requires Step(cf, s, t, s') && s.threads[t].Run? && s'.threads[t] != Panic && WellSized(|cf.block|, s'.sh)
    requires InRange(|cf.block|, s'.threads[t])
    ensures AllLogged(cf, s', Extend(hist, s.threads[t], s'.threads[t]))
  {
    var Run(i, c, p) := s.threads[t];
    var hist' := Extend(hist, s.threads[t], s'.threads[t]);
    assert ThreadOwns(s.sh, s.threads[t], at, t);
    assert PcPrint(s.sh, hist, s.threads[t]) && PcLogged(cf, s.sh, hist, s.threads[t]) &&
           IndexLogged(cf, s.sh, hist, i);
    ExtendGrows(s, t, s', hist);
    forall u: nat | u < |s.threads| && u != t ensures !(s.threads[u].Run? && s.threads[u].i == i) {
      assert ThreadOwns(s.sh, s.threads[u], at, u);
    }
    if p.Exec? {
      assert forall j: nat | j < i :: IndexPrint(s.sh, hist, j) ==> CellsKnown(hist, j, s.sh.mv[j]);
      LoggedExec(cf, s.sh, i, c, p.log, s'.sh, s'.threads[t], hist);
      LoggedExtends(cf, s.sh, hist, hist', i, s'.threads[t].rp);
      if s.sh.ins[i].Some? { AllSourcedGrows(hist, hist', i, s.sh.ins[i].value); }
    } else {
      LoggedRunning(cf, s.sh, i, c, p, s'.sh, s'.threads[t], hist);
    }
    AllLoggedAt(cf, s, t, s', hist, hist', i);
  }

  lemma LoggedExtends(cf: Config, a: Shared, hist: History, hist': History, i: nat, p: RunPc)
    requires WellSized(|cf.block|, a) && i < |cf.block| && Grows(hist, hist') && RunLogged(cf, a, hist, i, p)
    ensures RunLogged(cf, a, hist', i, p)
  {
    if p.Exec? || p.ExecDep? || p.Apply? || p.RecordIn? { AllSourcedGrows(hist, hist', i, p.log); }
  }

  /** Every other step records nothing. */
  lemma RecordsNothing(cf: Config, a: Shared, pc: Pc, b: Shared, pc': Pc)
    requires WellSized(|cf.block|, a) && InRange(|cf.block|, pc) && !pc.Run? && Move(cf, a, pc, b, pc')
    ensures b.ins == a.ins && b.outs == a.outs && |b.status| == |a.status| && |b.deps| == |a.deps| && |b.mv| == |a.mv|
    ensures forall j | 0 <= j < |a.status| && b.status[j].Executed? :: a.status[j].Executed?
  {
    match pc
    case Fin(i, c, outside, p) =>
    case Abort(i, c, p) =>
    case Val(i, c, p) =>
    case Redo(i, p) =>
    case Claim(p) =>
    case _ => PlainMove(cf, a, pc, b, pc');
  }

  lemma LoggedElse(cf: Config, a: Shared, pc: Pc, b: Shared, pc': Pc, hist: History)
    requires WellSized(|cf.block|, a) && InRange(|cf.block|, pc) && !pc.Run? && Move(cf, a, pc, b, pc')
    requires PcLogged(cf, a, hist, pc) && (forall i: nat | i < |cf.block| :: IndexLogged(cf, a, hist, i))
    requires WellSized(|cf.block|, b) && b.ins == a.ins && InRange(|cf.block|, pc')
    ensures PcLogged(cf, b, hist, pc')
    ensures pc.Val? ==> pc' != Panic
  {
    match pc
    case Fin(i, c, outside, p) =>
    case Val(i, c, p) => assert IndexLogged(cf, a, hist, i);
    case Abort(i, c, p) => assert !pc'.Val? && !pc'.Fin? && !pc'.Run?;
    case Claim(p) => if p.ValStatus? && p.at < |cf.block| { assert IndexLogged(cf, a, hist, p.at); }
    case Redo(i, p) =>
    case _ => PlainMove(cf, a, pc, b, pc');
  }

  /** The recorded and captured reads stay as described, at every step that does not panic. */
  lemma AllLoggedStep(cf: Config, s: System, t: nat, s': System, at: seq<Place>, hist: History)
    requires Owned(|cf.block|, s, at) && Footprints(|cf.block|, s, hist) && AllLogged(cf, s, hist)
    requires Step(cf, s, t, s') && s'.threads[t] != Panic
    requires WellSized(|cf.block|, s'.sh) && InRange(|cf.block|, s'.threads[t])
    ensures AllLogged(cf, s', Extend(hist, s.threads[t], s'.threads[t]))
  {
    if s.threads[t].Run? {
      AllLoggedRunning(cf, s, t, s', at, hist);
    } else {
      RecordsNothing(cf, s.sh, s.threads[t], s'.sh, s'.threads[t]);
      LoggedElse(cf, s.sh, s.threads[t], s'.sh, s'.threads[t], hist);
      forall u: nat | u < |s.threads| && u != t ensures !(s.threads[u].Run? && s.threads[u].i == |cf.block|) {
        assert InRange(|cf.block|, s.threads[u]);
      }
      AllLoggedAt(cf, s, t, s', hist, hist, |cf.block|);
    }
  }
}
