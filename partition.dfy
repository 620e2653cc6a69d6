/** verifyWorkerCount (main.go:99-115) and calculateLoad (main.go:118-129): how many workers
    run, and which index range [start, end) of the names each worker ranges over. */
module Partition {

  function Abs(x: int): nat {
    if x < 0 then -x else x
  }

  /** Go's `/` on `int`, which truncates toward zero (Dafny's `/` on `int` is Euclidean).
      Go panics when `b` is zero. For the non-negative dividends and positive divisors
      calculateLoad receives, it is Dafny's `/`. */
  function GoQuo(a: int, b: int): (q: int)
    requires b != 0
    ensures a >= 0 && b > 0 ==> q == a / b
  {
    var q := Abs(a) / Abs(b);
    if (a < 0) == (b < 0) then q else -q
  }

  /** GoQuo is Go's truncated division: the remainder a - q * b is smaller than the divisor
      in magnitude and, unless it is zero, has the sign of the dividend. */
  lemma GoQuoIsTruncated(a: int, b: int)
    requires b != 0
    ensures Abs(a - GoQuo(a, b) * b) < Abs(b)
    ensures a - GoQuo(a, b) * b == 0 || (a - GoQuo(a, b) * b < 0 <==> a < 0)
  {
    GoRemainder(a, b);
  }

  /** The remainder of GoQuo is the remainder of the magnitudes, with the dividend's sign. */
  lemma GoRemainder(a: int, b: int)
    requires b != 0
    ensures a - GoQuo(a, b) * b == (if a < 0 then -(Abs(a) % Abs(b)) else Abs(a) % Abs(b))
  {
    var x: int, y: int := Abs(a), Abs(b);
    var n: int, m: int := x / y, x % y;
    var q := GoQuo(a, b);
    assert x == n * y + m;
    if a >= 0 && b > 0 {
      assert q == n && a == x && b == y;
    } else if a >= 0 {
      assert q == -n && a == x && b == -y;
      assert q * b == n * y by { NegMul(n, y); }
    } else if b > 0 {
      assert q == -n && a == -x && b == y;
      assert q * b == -(n * y) by { NegMul(n, y); }
    } else {
      assert q == n && a == -x && b == -y;
      assert q * b == -(n * y) by { NegMul(n, y); }
    }
  }

  lemma NegMul(n: int, y: int)
    ensures (-n) * y == -(n * y) && n * (-y) == -(n * y) && (-n) * (-y) == n * y
  {
  }

  // ---------------------------------------------------------------------------
  // verifyWorkerCount
  // ---------------------------------------------------------------------------

  /** The float64 quotient float64(totalLoad) / float64(workers) of main.go:100, read as an
      exact rational. */
  function Ratio(totalLoad: nat, workers: int): (ratio: real)
    requires workers >= 1
    ensures ratio * workers as real == totalLoad as real
    ensures ratio >= 0.0
  {
    totalLoad as real / workers as real
  }

  /** "ratio < 1" has an exact integer reading: fewer names than workers. */
  lemma RatioBelowOne(totalLoad: nat, workers: int)
    requires workers >= 1
    ensures Ratio(totalLoad, workers) < 1.0 <==> totalLoad < workers
  {
    var q := Ratio(totalLoad, workers);
    assert q * workers as real == totalLoad as real;
  }

  /** "ratio == float64(int64(ratio))" has an exact integer reading: the workers divide the
      names evenly. (int64 truncates toward zero, which is the floor for a ratio >= 0.) */
  lemma RatioIsWhole(totalLoad: nat, workers: int)
    requires workers >= 1
    ensures Ratio(totalLoad, workers) == Ratio(totalLoad, workers).Floor as real
            <==> totalLoad % workers == 0
  {
    var q := Ratio(totalLoad, workers);
    if totalLoad % workers == 0 {
      var n := totalLoad / workers;
      RatioOfMultiple(n, workers, totalLoad);
    } else if q == q.Floor as real {
      var n := q.Floor;
      MultipleOfRatio(totalLoad, workers, n);
      ExactQuotient(totalLoad, workers, n);
    }
  }

  lemma RatioOfMultiple(n: nat, workers: int, totalLoad: nat)
    requires workers >= 1 && totalLoad == n * workers
    ensures Ratio(totalLoad, workers) == n as real
  {
    assert totalLoad as real == n as real * workers as real;
  }

  lemma MultipleOfRatio(totalLoad: nat, workers: int, n: int)
    requires workers >= 1 && Ratio(totalLoad, workers) == n as real
    ensures n * workers == totalLoad
  {
    assert totalLoad as real == n as real * workers as real;
    assert (n * workers) as real == n as real * workers as real;
  }

  lemma ExactQuotient(totalLoad: nat, workers: int, n: int)
    requires workers >= 1 && n * workers == totalLoad
    ensures totalLoad % workers == 0
  {
    var d := n - totalLoad / workers;
    assert totalLoad == (totalLoad / workers) * workers + totalLoad % workers;
    assert d * workers == n * workers - (totalLoad / workers) * workers;
    MulSign(d, workers);
  }

  /** A non-zero multiple of `w` is at least `w` away from zero. */
  lemma MulSign(d: int, w: nat)
    ensures d >= 1 ==> d * w >= w
    ensures d <= -1 ==> d * w + w <= 0
  {
    if d >= 1 {
      MulMonotone(w, 1, d);
    } else if d <= -1 {
      MulMonotone(w, d, -1);
    }
  }

  /** The worker count verifyWorkerCount settles on, stated on integers: one worker per name
      when there are fewer names than requested workers, and the request otherwise (also
      when there are no names at all). */
  function WorkerCount(totalLoad: nat, workers: int): (w: int)
    requires workers >= 1
    ensures 1 <= w <= workers
    ensures totalLoad >= 1 ==> w <= totalLoad && (w == workers || w == totalLoad)
    ensures totalLoad == 0 ==> w == workers
  {
    if 0 < totalLoad < workers then totalLoad else workers
  }

  /** verifyWorkerCount: an even split keeps the request; otherwise, while there is less than
      one name per worker, one worker is dropped at a time. The result is the smaller of the
      two counts when there are names, and never zero. */
  method VerifyWorkerCount(totalLoad: nat, workers: int) returns (w: int)
    requires workers >= 1
    ensures w == WorkerCount(totalLoad, workers)
    ensures totalLoad % workers == 0 ==> w == workers
  {
    w := workers;
    var ratio := Ratio(totalLoad, w);
    RatioIsWhole(totalLoad, w);
    if ratio == ratio.Floor as real {
      return;
    }
    RatioBelowOne(totalLoad, w);
    if ratio < 1.0 {
      while ratio < 1.0
        invariant 1 <= totalLoad <= w <= workers
        invariant ratio == Ratio(totalLoad, w)
        decreases w
      {
        RatioBelowOne(totalLoad, w);
        w := w - 1;
        ratio := Ratio(totalLoad, w);
      }
      RatioBelowOne(totalLoad, w);
      return;
    }
  }

  /** The rows of the test table (main_test.go:11-14). */
  lemma WorkerCountTestTable()
    ensures WorkerCount(1, 2) == 1
    ensures WorkerCount(3, 4) == 3
    ensures WorkerCount(4, 3) == 3
    ensures WorkerCount(10000, 10) == 10
  {
  }

  // ---------------------------------------------------------------------------
  // calculateLoad
  // ---------------------------------------------------------------------------

  /** The half-open index range [start, end) of the names one worker ranges over. */
  datatype Load = Load(start: int, end: int) {
    predicate Contains(i: int) {
      start <= i < end
    }
  }

  /** calculateLoad as written: start is load * turn, and end, load * (turn + 1), is raised
      to tasks whenever it falls short of it. The raise applies to every turn, so no end is
      short of tasks, and every range is at least one load long. */
  function CalculateLoad(tasks: int, workers: int, turn: int): (r: Load)
    requires workers != 0
    ensures r.end >= tasks && r.end >= r.start + GoQuo(tasks, workers)
  {
    var load := GoQuo(tasks, workers);
    var end := load * (turn + 1);
    Load(load * turn, if end < tasks then tasks else end)
  }

  lemma MulMonotone(a: nat, b: int, c: int)
    requires b <= c
    ensures a * b <= a * c
  {
    assert a * c - a * b == a * (c - b);
  }

  /** Whole loads of all workers fit into the tasks. */
  lemma LoadsFit(tasks: nat, workers: int)
    requires workers >= 1
    ensures 0 <= (tasks / workers) * workers <= tasks
  {
    assert tasks == (tasks / workers) * workers + tasks % workers;
  }

  /** For the arguments main passes (tasks >= 0 names, workers >= 1, 0 <= turn < workers)
      every range is the suffix [load * turn, tasks) of the index space: load * (turn + 1)
      never exceeds tasks, so the raise at main.go:124-126 lifts every end to tasks. */
  lemma CalculateLoadIsSuffix(tasks: nat, workers: int, turn: int)
    requires 1 <= workers && 0 <= turn < workers
    ensures CalculateLoad(tasks, workers, turn) == Load((tasks / workers) * turn, tasks)
    ensures 0 <= (tasks / workers) * turn <= tasks
  {
    var load := tasks / workers;
    LoadsFit(tasks, workers);
    MulMonotone(load, turn + 1, workers);
    MulMonotone(load, 0, turn);
    MulMonotone(load, turn, turn + 1);
  }

  /** Turn 0 ranges over every index. */
  lemma FirstTurnCoversAll(tasks: nat, workers: int)
    requires workers >= 1
    ensures CalculateLoad(tasks, workers, 0) == Load(0, tasks)
    ensures forall i :: 0 <= i < tasks ==> CalculateLoad(tasks, workers, 0).Contains(i)
  {
    CalculateLoadIsSuffix(tasks, workers, 0);
  }

  /** The range of a turn lies inside the range of the turn before it. */
  lemma NextTurnInside(tasks: nat, workers: int, turn: int)
    requires 1 <= workers && 0 <= turn && turn + 1 < workers
    ensures forall i :: CalculateLoad(tasks, workers, turn + 1).Contains(i) ==>
                        CalculateLoad(tasks, workers, turn).Contains(i)
  {
    CalculateLoadIsSuffix(tasks, workers, turn);
    CalculateLoadIsSuffix(tasks, workers, turn + 1);
    MulMonotone(tasks / workers, turn, turn + 1);
  }

  /** When there is at least one name, the last index lies in the range of every turn. */
  lemma LastIndexInEveryTurn(tasks: nat, workers: int, turn: int)
    requires tasks >= 1 && 1 <= workers && 0 <= turn < workers
    ensures CalculateLoad(tasks, workers, turn).Contains(tasks - 1)
  {
    var load := tasks / workers;
    CalculateLoadIsSuffix(tasks, workers, turn);
    if load == 0 {
      assert load * turn == 0;
    } else {
      LoadsFit(tasks, workers);
      MulMonotone(load, turn, workers - 1);
      MulPred(load, workers);
    }
  }

  lemma MulPred(a: nat, b: int)
    ensures a * (b - 1) == a * b - a
  {
  }

  /** No index lies in the ranges of two different turns. */
  ghost predicate PairwiseDisjoint(tasks: nat, workers: int)
    requires workers >= 1
  {
    forall s, t, i :: 0 <= s < t < workers ==>
      !(CalculateLoad(tasks, workers, s).Contains(i) && CalculateLoad(tasks, workers, t).Contains(i))
  }

  /** The ranges are disjoint only in the trivial cases: no names, or a single worker. With
      a name and two workers, the last index is taken by both. */
  lemma DisjointOnlyWhenTrivial(tasks: nat, workers: int)
    requires workers >= 1
    ensures PairwiseDisjoint(tasks, workers) <==> tasks == 0 || workers == 1
  {
    if tasks == 0 {
      forall s | 0 <= s < workers
        ensures CalculateLoad(tasks, workers, s) == Load(0, 0)
      {
        CalculateLoadIsSuffix(tasks, workers, s);
      }
    } else if workers >= 2 {
      LastIndexInEveryTurn(tasks, workers, 0);
      LastIndexInEveryTurn(tasks, workers, 1);
    }
  }

  /** The check of main_test.go:45: a row fails only when start and end both differ. */
  predicate LoadRowPasses(tasks: int, workers: int, turn: int, start: int, end: int)
    requires workers != 0
    ensures CalculateLoad(tasks, workers, turn) == Load(start, end) ==>
              LoadRowPasses(tasks, workers, turn, start, end)
    ensures CalculateLoad(tasks, workers, turn).start == start ==>
              LoadRowPasses(tasks, workers, turn, start, end)
  {
    var r := CalculateLoad(tasks, workers, turn);
    !(r.start != start && r.end != end)
  }

  /** The rows of the test table (main_test.go:33-40): every start agrees with the table and
      every row passes the check, although calculateLoad returns end == tasks in every row,
      unlike the ends 1, 2, 33, 66, 18 and 19 that the table expects. */
  lemma CalculateLoadTestTable()
    ensures CalculateLoad(3, 3, 0) == Load(0, 3) && LoadRowPasses(3, 3, 0, 0, 1)
    ensures CalculateLoad(3, 3, 1) == Load(1, 3) && LoadRowPasses(3, 3, 1, 1, 2)
    ensures CalculateLoad(3, 3, 2) == Load(2, 3) && LoadRowPasses(3, 3, 2, 2, 3)
    ensures CalculateLoad(100, 3, 0) == Load(0, 100) && LoadRowPasses(100, 3, 0, 0, 33)
    ensures CalculateLoad(100, 3, 1) == Load(33, 100) && LoadRowPasses(100, 3, 1, 33, 66)
    ensures CalculateLoad(100, 3, 2) == Load(66, 100) && LoadRowPasses(100, 3, 2, 66, 100)
    ensures CalculateLoad(37, 2, 0) == Load(0, 37) && LoadRowPasses(37, 2, 0, 0, 18)
    ensures CalculateLoad(37, 2, 1) == Load(18, 37) && LoadRowPasses(37, 2, 1, 18, 19)
  {
  }
}
