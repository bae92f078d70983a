/**
 Collecting the recorded outputs: write-once result cells and the final list.
 */
module Outcome {
  import opened State

  datatype Error = InvariantViolation | UserError(code: nat)

  datatype ExecutionStatus<T> = Success(output: T) | Abort(error: Error) | SkipRest(output: T)

  /** What get_all_results returns, or that its length assertion fails. */
  datatype Collected<T> = Ok(value: seq<T>) | Err(error: Error) | Panicked

  /** The result at `i` has an output to return; only the last one may ask to skip the rest. */
  predicate Usable<T>(results: seq<Option<ExecutionStatus<T>>>, stopAt: nat, i: nat)
    requires i < |results|
  {
    results[i].Some? && (results[i].value.Success? || (results[i].value.SkipRest? && i + 1 == stopAt))
  }

  function ErrorOf<T>(res: Option<ExecutionStatus<T>>): Error {
    if res.Some? && res.value.Abort? then res.value.error else InvariantViolation
  }

  function OutputOf<T>(res: Option<ExecutionStatus<T>>): Option<T> {
    if res.Some? && !res.value.Abort? then Some(res.value.output) else None
  }

  ghost predicate UsableBelow<T>(results: seq<Option<ExecutionStatus<T>>>, stopAt: nat, m: nat) {
    m <= |results| && forall i: nat | i < m :: Usable(results, stopAt, i)
  }

  class OutcomeArray<T> {
    var results: seq<Option<ExecutionStatus<T>>>

    constructor (len: nat)
      ensures |results| == len && forall i | 0 <= i < len :: results[i] == None
    {
      results := seq(len, _ => None);
    }

    /** Each cell is set once; `ok` is the assertion that it was empty. */
    method SetResult(idx: nat, res: ExecutionStatus<T>) returns (ok: bool)
      requires idx < |results|
      modifies this
      ensures ok <==> old(results)[idx].None?
      ensures results == if ok then old(results)[idx := Some(res)] else old(results)
    {
      ok := results[idx].None?;
      if ok {
        results := results[idx := Some(res)];
      }
    }

    /**
     The outputs below `stopAt`, then skip outputs. The error is that of the
     first cell without a usable result; a `stopAt` past the end panics if there
     is no such cell.
     */
    method GetAllResults(stopAt: nat, skip: T) returns (r: Collected<T>)
      ensures r.Ok? <==> UsableBelow(results, stopAt, stopAt)
      ensures r.Ok? ==> |r.value| == |results|
      ensures r.Ok? ==> forall i | 0 <= i < |results| ::
                Some(r.value[i]) == if i < stopAt then OutputOf(results[i]) else Some(skip)
      ensures r.Err? <==> exists i: nat ::
                i < |results| && i < stopAt && UsableBelow(results, stopAt, i) && !Usable(results, stopAt, i)
      ensures forall i: nat |
                i < |results| && i < stopAt && UsableBelow(results, stopAt, i) && !Usable(results, stopAt, i) ::
                r == Err(ErrorOf(results[i]))
    {
      var final: seq<T> := [];
      var idx := 0;
      while idx < |results| && idx < stopAt
        invariant idx <= |results| && idx <= stopAt && |final| == idx && UsableBelow(results, stopAt, idx)
        invariant forall i | 0 <= i < idx :: Some(final[i]) == OutputOf(results[i])
      {
        if !Usable(results, stopAt, idx) {
          return Err(ErrorOf(results[idx]));
        }
        final := final + [results[idx].value.output];
        idx := idx + 1;
      }
      if |final| != stopAt { return Panicked; }
      r := Ok(final + seq(|results| - stopAt, _ => skip));
    }
  }

  /**
   The end of execute_transactions_parallel: takes the recorded outputs and
   returns them. A missing output panics; else the first unusable one decides.
   */
  method CollectOutputs<T>(recorded: seq<Option<ExecutionStatus<T>>>, skip: T) returns (r: Collected<T>)
    ensures r.Panicked? <==> None in recorded
    ensures r.Ok? <==> UsableBelow(recorded, |recorded|, |recorded|)
    ensures r.Ok? ==>
              |r.value| == |recorded| && forall i | 0 <= i < |recorded| :: Some(r.value[i]) == OutputOf(recorded[i])
    ensures None !in recorded ==>
              forall i: nat |
                i < |recorded| && UsableBelow(recorded, |recorded|, i) && !Usable(recorded, |recorded|, i) ::
                r == Err(ErrorOf(recorded[i]))
  {
    var outcomes := new OutcomeArray<T>(|recorded|);
    for idx := 0 to |recorded|
      invariant |outcomes.results| == |recorded|
      invariant forall i | 0 <= i < |recorded| :: outcomes.results[i] == if i < idx then recorded[i] else None
      invariant forall i | 0 <= i < idx :: recorded[i].Some?
    {
      assert Usable(recorded, |recorded|, idx) ==> recorded[idx].Some?;
      if recorded[idx].None? { return Panicked; }
      var ok := outcomes.SetResult(idx, recorded[idx].value);
      assert ok;
    }
    assert outcomes.results == recorded;
    r := outcomes.GetAllResults(|recorded|, skip);
    FirstUnusable(recorded, |recorded|, |recorded|);
  }

  /** Either all results are usable or there is a first one that is not. */
  lemma {:induction false} FirstUnusable<T>(results: seq<Option<ExecutionStatus<T>>>, stopAt: nat, m: nat)
    requires m <= |results|
    ensures UsableBelow(results, stopAt, m) ||
            exists i: nat :: i < m && UsableBelow(results, stopAt, i) && !Usable(results, stopAt, i)
  {
    if m == 0 {
    } else {
      FirstUnusable(results, stopAt, m - 1);
    }
  }
}
