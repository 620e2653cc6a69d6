/** How main hands the names to its workers (main.go:62 and main.go:80-84): the worker count
    is settled by verifyWorkerCount, and worker `i` ranges over names[start:end] for the range
    calculateLoad gives turn `i`. What a worker then does with its names is not modelled. */
module Dispatch {
  import opened Partition

  /** The slice names[start:end] worker `turn` ranges over (main.go:83-84). The slice is in
      bounds for every turn main starts, also when there are no names, so it never panics;
      it is the suffix of the names that starts at (len(names) / workers) * turn. */
  function WorkerNames(names: seq<string>, workers: int, turn: int): (batch: seq<string>)
    requires 1 <= workers && 0 <= turn < workers
    ensures |batch| <= |names| && batch == names[|names| - |batch|..]
    ensures |names| - |batch| == (|names| / workers) * turn
  {
    CalculateLoadIsSuffix(|names|, workers, turn);
    var r := CalculateLoad(|names|, workers, turn);
    names[r.start..r.end]
  }

  /** Worker 0 ranges over all the names. */
  lemma FirstWorkerTakesAll(names: seq<string>, workers: int)
    requires workers >= 1
    ensures WorkerNames(names, workers, 0) == names
  {
    assert names[0..] == names;
  }

  /** Every worker ranges over the last name, so with two workers or more that name is
      handed out more than once. */
  lemma LastNameInEveryBatch(names: seq<string>, workers: int, turn: int)
    requires names != [] && 1 <= workers && 0 <= turn < workers
    ensures names[|names| - 1] in WorkerNames(names, workers, turn)
  {
    LastIndexInEveryTurn(|names|, workers, turn);
    CalculateLoadIsSuffix(|names|, workers, turn);
    var b := WorkerNames(names, workers, turn);
    assert b[|b| - 1] == names[|names| - 1];
  }

  /** `batches` are the slices of turns 0 to |batches| - 1, in turn order. */
  predicate HandedOut(names: seq<string>, workers: int, batches: seq<seq<string>>)
    requires workers >= 1 && |batches| <= workers
  {
    forall t :: 0 <= t < |batches| ==> batches[t] == WorkerNames(names, workers, t)
  }

  /** Handing out the slice of the next turn. */
  lemma HandOutNext(names: seq<string>, workers: int, batches: seq<seq<string>>)
    requires workers >= 1 && |batches| < workers && HandedOut(names, workers, batches)
    ensures HandedOut(names, workers, batches + [WorkerNames(names, workers, |batches|)])
  {
  }

  /** main.go:62 followed by the worker loop of main.go:80-84: the worker count is the
      corrected request, never zero, and worker `t` gets the slice of turn `t`. Worker 0
      gets every name and every worker gets the last one. */
  method AssignNames(names: seq<string>, requested: int)
    returns (workers: int, batches: seq<seq<string>>)
    requires requested >= 1
    ensures workers == WorkerCount(|names|, requested)
    ensures |batches| == workers
    ensures forall t :: 0 <= t < workers ==> batches[t] == WorkerNames(names, workers, t)
    ensures batches[0] == names
    ensures names != [] ==> forall t :: 0 <= t < workers ==> names[|names| - 1] in batches[t]
  {
    workers := VerifyWorkerCount(|names|, requested);
    batches := [];
    for i := 0 to workers
      invariant |batches| == i && HandedOut(names, workers, batches)
    {
      var r := CalculateLoad(|names|, workers, i);
      CalculateLoadIsSuffix(|names|, workers, i);
      var batch := names[r.start..r.end];
      HandOutNext(names, workers, batches);
      batches := batches + [batch];
    }
    FirstWorkerTakesAll(names, workers);
    if names != [] {
      forall t | 0 <= t < workers
        ensures names[|names| - 1] in batches[t]
      {
        LastNameInEveryBatch(names, workers, t);
      }
    }
  }
}
