/**
 The parallel executor as a transition system: one program counter per worker
 thread, one step per atomic operation or lock-protected section.
 */
module Protocol {
  import opened State

  // --- Scheduler data ---

  datatype Version = Version(idx: nat, inc: nat)

  datatype Status =
    | ReadyToExecute(inc: nat)
    | Executing(inc: nat)
    | Executed(inc: nat)
    | Aborting(inc: nat)

  // --- Multi-version memory, one map of cells per transaction index ---

  datatype Cell = Cell(estimate: bool, inc: nat, data: Value)

  type Memory = seq<map<StateKey, Cell>>

  datatype Lookup = Hit(ver: Version, data: Value) | Blocked(idx: nat) | Miss

  /** The latest cell of `k` strictly below index `j`. */
  function Latest(mv: Memory, k: StateKey, j: nat): Lookup
    requires j <= |mv|
    decreases j
  {
    if j == 0 then Miss
    else if k in mv[j - 1] then
      var c := mv[j - 1][k];
      if c.estimate then Blocked(j - 1) else Hit(Version(j - 1, c.inc), c.data)
    else Latest(mv, k, j - 1)
  }

  /**
   A read descriptor: the key and where the value came from (`None` is storage).
   `val` records the value returned; validation never looks at it.
   */
  datatype ReadDesc = ReadDesc(key: StateKey, src: Option<Version>, val: Option<Value>)

  /** The check `validate_one` makes on one descriptor. */
  predicate Validates(r: ReadDesc, found: Lookup) {
    match found
    case Hit(v, _) => r.src == Some(v)
    case Blocked(_) => false
    case Miss => r.src == None
  }

  function Vals(log: seq<ReadDesc>): seq<Option<Value>> {
    seq(|log|, m requires 0 <= m < |log| => log[m].val)
  }

  // --- Threads ---

  /** Where next_task goes on when an attempt to get a validation task returns nothing. */
  datatype Cont = Again | Fall(v: nat, e: nat)

  /** next_task without a task guard. */
  datatype SchedulePc =
    | Idle
    | LoadVal
    | LoadExec(v: nat)
    | TryVal(k: Cont)
    | TryExec
    | ValGuard(k: Cont)
    | ExecGuard
    | Stopped
    | Panicked

  /** check_done, load by load. */
  datatype DonePc =
    | ReadCnt
    | ReadVal(seen: nat)
    | ReadExec(seen: nat, v: nat)
    | ReadTasks(seen: nat, v: nat, e: nat)
    | ReadCntAgain(seen: nat)
    | SetDone

  /** Holding a task guard, with no task yet or no task any more. */
  datatype ClaimPc =
    | ValFetch(k: Cont)
    | ValStatus(k: Cont, at: nat)
    | ExecFetch
    | ExecStatus(at: nat)
    | Drop(k: Cont)

  /** execute_one and set_executed_status. */
  datatype RunPc =
    | LoadReads
    | Pre(todo: seq<ReadDesc>)
    | PreDep(todo: seq<ReadDesc>, d: nat)
    | Exec(log: seq<ReadDesc>)
    | ExecDep(log: seq<ReadDesc>, d: nat)
    | Park(d: nat)
    | Apply(log: seq<ReadDesc>, w: Writes, left: set<StateKey>, prev: set<StateKey>, outside: bool)
    | RecordIn(log: seq<ReadDesc>, w: Writes, outside: bool)
    | RecordOut(w: Writes, outside: bool)
    | SetExecuted(outside: bool)

  /** finish_execution after set_executed_status. */
  datatype FinishPc =
    | Take
    | Wake(rest: seq<nat>, low: Option<nat>)
    | LowerExec(target: nat)
    | BumpExec
    | CheckVal
    | LowerVal
    | BumpVal

  /** validate_one. */
  datatype ValidatePc = LoadSet | Checking(todo: seq<ReadDesc>) | TryAbort

  /** The abort of an invalid incarnation, up to set_aborted_status. */
  datatype AbortPc = LoadWrites | Mark(keys: set<StateKey>) | SetAborted

  /** finish_abort after set_aborted_status. */
  datatype RedoPc = LowerSuffix | BumpSuffix | CheckExec | Reincarnate

  datatype Pc =
    | Sched(sp: SchedulePc)
    | Check(k: Cont, dp: DonePc)
    | Claim(cp: ClaimPc)
    | Run(i: nat, c: nat, rp: RunPc)
    | Fin(i: nat, c: nat, outside: bool, fp: FinishPc)
    | Val(i: nat, c: nat, vp: ValidatePc)
    | Abort(i: nat, c: nat, ap: AbortPc)
    | Redo(i: nat, xp: RedoPc)

  /** The shared memory of the workers. */
  datatype Shared = Shared(
    exec: nat,
    val: nat,
    cnt: nat,
    active: nat,
    done: bool,
    status: seq<Status>,
    deps: seq<seq<nat>>,
    mv: Memory,
    ins: seq<Option<seq<ReadDesc>>>,
    outs: seq<Option<Writes>>)

  datatype System = System(sh: Shared, threads: seq<Pc>)

  /** A block, the number of workers, the backpressure window and the domain plan. */
  datatype Config = Config(
    block: seq<Txn>,
    workers: nat,
    window: nat,
    bounds: seq<(nat, nat, bool)>,
    segmentOf: seq<nat>)

  predicate WellSized(n: nat, a: Shared) {
    |a.status| == n && |a.deps| == n && |a.mv| == n && |a.ins| == n && |a.outs| == n
  }

  /** Statuses, dependency lists, memory and recorded results are the same. */
  predicate Frozen(a: Shared, b: Shared) {
    b.status == a.status && b.deps == a.deps && b.mv == a.mv && b.ins == a.ins && b.outs == a.outs
  }

  ghost predicate Init(cf: Config, s: System) {
    var n := |cf.block|;
    && s.sh == Shared(0, 0, 0, 0, false,
                      seq(n, _ => ReadyToExecute(0)), seq(n, _ => []), seq(n, _ => map[]),
                      seq(n, _ => None), seq(n, _ => None))
    && s.threads == seq(cf.workers, _ => Sched(Idle))
  }

  // --- Decisions of next_task ---

  function FindSegment(cf: Config, at: nat): nat {
    if at < |cf.segmentOf| then cf.segmentOf[at] else |cf.bounds|
  }

  /** Execution is more than a window ahead of validation. */
  predicate Backpressure(cf: Config, v: nat, e: nat) {
    cf.window > 0 && e > v && e - v > cf.window
  }

  /** Execution is past a non-parallel segment boundary that validation has not reached. */
  predicate AtBoundary(cf: Config, v: nat, e: nat) {
    && cf.bounds != []
    && FindSegment(cf, v) < FindSegment(cf, e) < |cf.bounds|
    && !cf.bounds[FindSegment(cf, e)].2
  }

  function Unthrottled(v: nat, e: nat): Pc {
    if v < e then Sched(TryVal(Again)) else Sched(TryExec)
  }

  function Choose(cf: Config, v: nat, e: nat): Pc {
    if Backpressure(cf, v, e) then Sched(TryVal(Again))
    else if AtBoundary(cf, v, e) then Sched(TryVal(Fall(v, e)))
    else Unthrottled(v, e)
  }

  function Continue(k: Cont): Pc {
    match k
    case Again => Sched(Idle)
    case Fall(v, e) => Unthrottled(v, e)
  }

  // --- Steps of one thread, on the shared memory and its program counter ---

  /** Indices a thread uses without a bounds test are inside the block. */
  predicate InRange(n: nat, pc: Pc) {
    match pc
    case Sched(_) => true
    case Check(_, _) => true
    case Claim(_) => true
    case Run(i, _, rp) => i < n && (rp.PreDep? || rp.ExecDep? || rp.Park? ==> rp.d < n)
    case Fin(i, _, _, fp) => i < n && (fp.Wake? ==> Below(n, fp.rest))
    case Val(i, _, _) => i < n
    case Abort(i, _, _) => i < n
    case Redo(i, _) => i < n
  }

  predicate Below(n: nat, q: seq<nat>) {
    forall m | 0 <= m < |q| :: q[m] < n
  }

  const LetGo: Pc := Claim(Drop(Again))
  const Panic: Pc := Sched(Panicked)

  /** try_incarnate on index `i`. */
  predicate TryIncarnate(a: Shared, i: nat, b: Shared, pc': Pc) {
    if i < |a.status| && a.status[i].ReadyToExecute? then
      && pc' == Run(i, a.status[i].inc, LoadReads)
      && b == a.(status := a.status[i := Executing(a.status[i].inc)])
    else
      && pc' == LetGo
      && b == a
  }

  /** next_task up to the creation of a task guard. */
  predicate Scheduling(cf: Config, a: Shared, p: SchedulePc, b: Shared, pc': Pc) {
    match p
    case Idle => b == a && pc' == Sched(if a.done then Stopped else LoadVal)
    case LoadVal => b == a && pc' == Sched(LoadExec(a.val))
    case LoadExec(v) => b == a && pc' == Choose(cf, v, a.exec)
    case TryVal(k) => b == a && pc' == if a.val >= |cf.block| then Check(k, ReadCnt) else Sched(ValGuard(k))
    case TryExec => b == a && pc' == if a.exec >= |cf.block| then Check(Again, ReadCnt) else Sched(ExecGuard)
    case ValGuard(k) => b == a.(active := a.active + 1) && pc' == Claim(ValFetch(k))
    case ExecGuard => b == a.(active := a.active + 1) && pc' == Claim(ExecFetch)
    case Stopped => false
    case Panicked => false
  }

  /** check_done. */
  predicate CheckingDone(cf: Config, a: Shared, k: Cont, p: DonePc, b: Shared, pc': Pc) {
    match p
    case ReadCnt => b == a && pc' == Check(k, ReadVal(a.cnt))
    case ReadVal(seen) => b == a && pc' == Check(k, ReadExec(seen, a.val))
    case ReadExec(seen, v) => b == a && pc' == Check(k, ReadTasks(seen, v, a.exec))
    case ReadTasks(seen, v, e) =>
      && b == a
      && pc' == if e < |cf.block| || v < |cf.block| || a.active > 0 then Continue(k) else Check(k, ReadCntAgain(seen))
    case ReadCntAgain(seen) => b == a && pc' == if seen == a.cnt then Check(k, SetDone) else Continue(k)
    case SetDone => b == a.(done := true) && pc' == Continue(k)
  }

  /** try_validate_next_version and try_execute_next_version under a guard, and dropping the guard. */
  predicate Claiming(cf: Config, a: Shared, p: ClaimPc, b: Shared, pc': Pc) {
    match p
    case ValFetch(k) => b == a.(val := a.val + 1) && pc' == Claim(ValStatus(k, a.val))
    case ValStatus(k, at) =>
      && b == a
      && pc' == if at < |a.status| && a.status[at].Executed? then Val(at, a.status[at].inc, LoadSet) else Claim(Drop(k))
    case ExecFetch => b == a.(exec := a.exec + 1) && pc' == Claim(ExecStatus(a.exec))
    case ExecStatus(at) => TryIncarnate(a, at, b, pc')
    case Drop(k) =>
      if a.active > 0 then b == a.(active := a.active - 1) && pc' == Continue(k)
      else b == a && pc' == Panic
  }

  function OutKeys(out: Option<Writes>): set<StateKey> {
    if out.Some? then out.value.Keys else {}
  }

  /** execute_one up to the recorded input and output, and set_executed_status. */
  predicate Running(cf: Config, a: Shared, i: nat, c: nat, p: RunPc, b: Shared, pc': Pc)
    requires WellSized(|cf.block|, a) && InRange(|cf.block|, Run(i, c, p))
  {
    match p
    case LoadReads => b == a && pc' == Run(i, c, Pre(if a.ins[i].Some? then a.ins[i].value else []))
    case Pre(todo) =>
      if todo == [] then b == a && pc' == Run(i, c, Exec([]))
      else
        var found := Latest(a.mv, todo[0].key, i);
        && b == a
        && pc' == Run(i, c, if found.Blocked? then PreDep(todo[1..], found.idx) else Pre(todo[1..]))
    case PreDep(todo, d) => b == a && pc' == Run(i, c, if a.status[d].Executed? then Pre(todo) else Park(d))
    case Exec(log) => (
      && b == a
      && match cf.block[i].op(Vals(log))
         case Read(k) => (
           match Latest(a.mv, k, i)
           case Hit(v, x) => pc' == Run(i, c, Exec(log + [ReadDesc(k, Some(v), Some(x))]))
           case Miss => pc' == Run(i, c, Exec(log + [ReadDesc(k, None, None)]))
           case Blocked(d) => pc' == Run(i, c, ExecDep(log, d))
         )
         case Finish(w) => pc' == Run(i, c, Apply(log, w, w.Keys, OutKeys(a.outs[i]), false))
    )
    case ExecDep(log, d) => b == a && pc' == Run(i, c, if a.status[d].Executed? then Exec(log) else Park(d))
    case Park(d) => b == a.(deps := a.deps[d := a.deps[d] + [i]]) && pc' == LetGo
    case Apply(log, w, left, prev, outside) =>
      if left != {} then exists k | k in left :: WriteOne(a, i, c, p, b, pc', k)
      else if prev != {} then exists k | k in prev :: DeleteOne(a, i, c, p, b, pc', k)
      else b == a && pc' == Run(i, c, RecordIn(log, w, outside))
    case RecordIn(log, w, outside) =>
      b == a.(ins := a.ins[i := Some(log)]) && pc' == Run(i, c, RecordOut(w, outside))
    case RecordOut(w, outside) =>
      b == a.(outs := a.outs[i := Some(w)]) && pc' == Run(i, c, SetExecuted(outside))
    case SetExecuted(outside) =>
      if a.status[i] == Executing(c) then
        b == a.(status := a.status[i := Executed(c)]) && pc' == Fin(i, c, outside, Take)
      else b == a && pc' == Panic
  }

  /** MVHashMap::write for one key of the output; the order of keys is left open. */
  predicate WriteOne(a: Shared, i: nat, c: nat, p: RunPc, b: Shared, pc': Pc, k: StateKey)
    requires p.Apply? && i < |a.mv|
  {
    if k !in p.w || (k in a.mv[i] && a.mv[i][k].inc >= c) then b == a && pc' == Panic
    else
      && b == a.(mv := a.mv[i := a.mv[i][k := Cell(false, c, p.w[k])]])
      && pc' == Run(i, c, p.(left := p.left - {k}, prev := p.prev - {k}, outside := p.outside || k !in p.prev))
  }

  /** MVHashMap::delete for one key of the previous write set that was not written again. */
  predicate DeleteOne(a: Shared, i: nat, c: nat, p: RunPc, b: Shared, pc': Pc, k: StateKey)
    requires p.Apply? && i < |a.mv|
  {
    if k !in a.mv[i] then b == a && pc' == Panic
    else
      && b == a.(mv := a.mv[i := a.mv[i] - {k}])
      && pc' == Run(i, c, p.(prev := p.prev - {k}))
  }

  function Min(low: Option<nat>, x: nat): nat {
    if low.Some? && low.value < x then low.value else x
  }

  /** finish_execution after set_executed_status. */
  predicate Finishing(cf: Config, a: Shared, i: nat, c: nat, outside: bool, p: FinishPc, b: Shared, pc': Pc)
    requires WellSized(|cf.block|, a) && InRange(|cf.block|, Fin(i, c, outside, p))
  {
    match p
    case Take => b == a.(deps := a.deps[i := []]) && pc' == Fin(i, c, outside, Wake(a.deps[i], None))
    case Wake(rest, low) =>
      if rest == [] then
        b == a && pc' == Fin(i, c, outside, if low.Some? then LowerExec(low.value) else CheckVal)
      else
        var x := rest[0];
        if a.status[x].Executing? then
          && b == a.(status := a.status[x := ReadyToExecute(a.status[x].inc + 1)])
          && pc' == Fin(i, c, outside, Wake(rest[1..], Some(Min(low, x))))
        else b == a && pc' == Panic
    case LowerExec(target) =>
      if a.exec > target then b == a.(exec := target) && pc' == Fin(i, c, outside, BumpExec)
      else b == a && pc' == Fin(i, c, outside, CheckVal)
    case BumpExec => b == a.(cnt := a.cnt + 1) && pc' == Fin(i, c, outside, CheckVal)
    case CheckVal =>
      && b == a
      && pc' == if a.val > i then (if outside then Fin(i, c, outside, LowerVal) else Val(i, c, LoadSet)) else LetGo
    case LowerVal =>
      if a.val > i then b == a.(val := i) && pc' == Fin(i, c, outside, BumpVal)
      else b == a && pc' == LetGo
    case BumpVal => b == a.(cnt := a.cnt + 1) && pc' == LetGo
  }

  /** validate_one. */
  predicate Validating(cf: Config, a: Shared, i: nat, c: nat, p: ValidatePc, b: Shared, pc': Pc)
    requires WellSized(|cf.block|, a) && i < |cf.block|
  {
    match p
    case LoadSet => b == a && pc' == if a.ins[i].Some? then Val(i, c, Checking(a.ins[i].value)) else Panic
    case Checking(todo) =>
      && b == a
      && pc' == if todo == [] then LetGo
                else if Validates(todo[0], Latest(a.mv, todo[0].key, i)) then Val(i, c, Checking(todo[1..]))
                else Val(i, c, TryAbort)
    case TryAbort =>
      if a.status[i] == Executed(c) then
        b == a.(status := a.status[i := Aborting(c)]) && pc' == Abort(i, c, LoadWrites)
      else b == a && pc' == LetGo
  }

  /** Marking the writes of an aborted incarnation, and set_aborted_status. */
  predicate Aborted(cf: Config, a: Shared, i: nat, c: nat, p: AbortPc, b: Shared, pc': Pc)
    requires WellSized(|cf.block|, a) && i < |cf.block|
  {
    match p
    case LoadWrites => b == a && pc' == Abort(i, c, Mark(OutKeys(a.outs[i])))
    case Mark(keys) =>
      if keys == {} then b == a && pc' == Abort(i, c, SetAborted)
      else exists k | k in keys :: MarkOne(a, i, c, p, b, pc', k)
    case SetAborted =>
      if a.status[i] == Aborting(c) then
        b == a.(status := a.status[i := ReadyToExecute(c + 1)]) && pc' == Redo(i, LowerSuffix)
      else b == a && pc' == Panic
  }

  /** MVHashMap::mark_estimate for one key of the last write set. */
  predicate MarkOne(a: Shared, i: nat, c: nat, p: AbortPc, b: Shared, pc': Pc, k: StateKey)
    requires p.Mark? && i < |a.mv|
  {
    if k !in a.mv[i] then b == a && pc' == Panic
    else
      && b == a.(mv := a.mv[i := a.mv[i][k := a.mv[i][k].(estimate := true)]])
      && pc' == Abort(i, c, Mark(p.keys - {k}))
  }

  /** finish_abort after set_aborted_status. */
  predicate Redoing(cf: Config, a: Shared, i: nat, p: RedoPc, b: Shared, pc': Pc) {
    match p
    case LowerSuffix =>
      if a.val > i + 1 then b == a.(val := i + 1) && pc' == Redo(i, BumpSuffix)
      else b == a && pc' == Redo(i, CheckExec)
    case BumpSuffix => b == a.(cnt := a.cnt + 1) && pc' == Redo(i, CheckExec)
    case CheckExec => b == a && pc' == if a.exec > i then Redo(i, Reincarnate) else LetGo
    case Reincarnate => TryIncarnate(a, i, b, pc')
  }

  /** One step of a thread; an index outside the block panics. */
  predicate Move(cf: Config, a: Shared, pc: Pc, b: Shared, pc': Pc)
    requires WellSized(|cf.block|, a)
  {
    if !InRange(|cf.block|, pc) then b == a && pc' == Panic
    else
      match pc
      case Sched(p) => Scheduling(cf, a, p, b, pc')
      case Check(k, p) => CheckingDone(cf, a, k, p, b, pc')
      case Claim(p) => Claiming(cf, a, p, b, pc')
      case Run(i, c, p) => Running(cf, a, i, c, p, b, pc')
      case Fin(i, c, outside, p) => Finishing(cf, a, i, c, outside, p, b, pc')
      case Val(i, c, p) => Validating(cf, a, i, c, p, b, pc')
      case Abort(i, c, p) => Aborted(cf, a, i, c, p, b, pc')
      case Redo(i, p) => Redoing(cf, a, i, p, b, pc')
  }

  // --- Steps of the system ---

  /** The dependency list whose lock the next step of this thread takes. */
  function Wants(pc: Pc): Option<nat> {
    match pc
    case Run(_, _, PreDep(_, d)) => Some(d)
    case Run(_, _, ExecDep(_, d)) => Some(d)
    case Fin(i, _, _, Take) => Some(i)
    case _ => None
  }

  /** The thread is inside try_add_dependency on `d`, between its status check and its push. */
  predicate Locks(pc: Pc, d: nat) {
    pc.Run? && pc.rp == Park(d)
  }

  predicate Locked(threads: seq<Pc>, d: nat) {
    exists u: nat :: u < |threads| && Locks(threads[u], d)
  }

  /** Thread `t` takes one step; a step that needs a held lock waits. */
  predicate Step(cf: Config, s: System, t: nat, s': System)
    requires WellSized(|cf.block|, s.sh)
  {
    && t < |s.threads| == |s'.threads|
    && s'.threads == s.threads[t := s'.threads[t]]
    && (Wants(s.threads[t]).Some? ==> !Locked(s.threads, Wants(s.threads[t]).value))
    && Move(cf, s.sh, s.threads[t], s'.sh, s'.threads[t])
  }
}
