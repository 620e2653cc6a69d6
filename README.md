# github-usercheck: worker count, load ranges and name list

github-usercheck reads a list of candidate GitHub user names, one per line, and has a number
of workers probe github.com to find the names that are still free. This Dafny project
models the three sequential helpers in `main.go` that decide what each worker does, plus the
way `main` combines them:

- `splitData` turns the input bytes into the name list. It splits on newlines, trims white
  space from each line and keeps the non-empty lines in input order. It is modelled in
  `split_data.dfy`, on top of `go_strings.dfy`, which models the two `strings` calls it makes:
  `strings.Split` (main.go:134) and `strings.TrimSpace` (main.go:136). The program never
  calls `strings.Join`. Its model `JoinLines` is there only as the inverse that the
  round-trip lemmas about the split are stated against.
- `verifyWorkerCount` corrects the requested worker count against the number of names, and
  `calculateLoad` gives worker `turn` the index range `[start, end)` of the names it handles.
  Both are in `partition.dfy`:
  - `verifyWorkerCount` is a method with the source's decrement loop. Its `float64` ratio is
    read as an exact rational, and two lemmas show that each of its comparisons has an exact
    integer reading.
  - `calculateLoad` is a function. Go's truncating integer division is written out.
- The worker count at main.go:62 feeds the slice `names[start:end]` each worker ranges over
  (main.go:80-84). This is in `dispatch.dfy`.

The model is the code as written, and the code's `calculateLoad` does not split the names
among the workers. The end of every range is raised to the number of names (main.go:124-126),
not only the end of the last range. So for every turn main starts, the range is the suffix
`[(len/workers) * turn, len)`:

- turn 0 covers every name;
- each range lies inside the one before it;
- the last name is in every range.

The ranges are disjoint only when there are no names or there is one worker
(`Partition.DisjointOnlyWhenTrivial`). The comment at main.go:117 says calculateLoad
"divides" the load among the workers, and the expected ends in main_test.go:33-40 are those
of consecutive, non-overlapping ranges. The model follows the code, not that intent.

The test table of `calculateLoad` (main_test.go:33-40) expects the ends of a disjoint split.
Its check at main_test.go:45 joins the two mismatches with `&&`, so a row fails only when the
start and the end are both wrong. With the code's starts right, every row passes although
six of the eight expected ends differ from what the code returns
(`Partition.CalculateLoadTestTable`). Likewise the splitData test (main_test.go:81-86)
compares only the error and the number of names, not the names themselves;
`SplitData.SplitDataTestTable` proves the names of each row.

## Model

| member | source | states |
|---|---|---|
| GoStrings.SplitLines | main.go:134 | `strings.Split(s, "\n")` yields one piece more than there are newlines, and no piece contains a newline |
| GoStrings.JoinSplit | main.go:134 | joining the pieces of a split with newlines gives back the input |
| GoStrings.SplitJoin | main.go:134 | splitting the newline join of one or more newline-free pieces gives back the pieces |
| GoStrings.TrimLeft | main.go:136 | the leading cut of `strings.TrimSpace`, never longer than its input; its exact shape is the TrimLeftCuts row |
| GoStrings.TrimRight | main.go:136 | the trailing cut of `strings.TrimSpace`, never longer than its input; its exact shape is the TrimRightCuts row |
| GoStrings.TrimSpace | main.go:136 | `strings.TrimSpace` (both cuts), never longer than its input; its properties are the TrimSpaceCuts to TrimSpaceKeepsAbsent rows |
| GoStrings.TrimLeftCuts | main.go:136 | dropping leading white space keeps a suffix that does not start with white space, and everything dropped is white space |
| GoStrings.TrimRightCuts | main.go:136 | dropping trailing white space keeps a prefix that does not end with white space, and everything dropped is white space |
| GoStrings.TrimSpaceCuts | main.go:136 | `strings.TrimSpace` returns a slice `s[i..j]` that neither starts nor ends with white space, and everything cut off on either side is white space |
| GoStrings.TrimSpaceFixes | main.go:136 | a string that neither starts nor ends with white space is returned unchanged |
| GoStrings.TrimSpaceIdempotent | main.go:136 | trimming twice gives the same as trimming once |
| GoStrings.TrimSpaceEmpty | main.go:136-137 | a line trims to the empty string exactly when it is all white space, which is when splitData drops it |
| GoStrings.TrimSpaceKeepsAbsent | main.go:136 | trimming introduces no character that the line does not contain |
| SplitData.CleanLines | main.go:134-140 | there are never more kept names than lines |
| SplitData.Names | main.go:134-139 | the names splitData returns for the data: the trimmed, non-empty pieces of its newline split, at most one more than there are newlines |
| SplitData.CleanLinesAppend | main.go:134-140 | the names of two runs of lines are the names of the first run followed by those of the second, so input order is kept |
| SplitData.CleanLinesMembers | main.go:136-139 | a string is a kept name exactly when it is non-empty and some line trims to it |
| SplitData.CleanLinesShape | main.go:136-139 | every kept name is non-empty, is its own trim and contains no character that is absent from every line |
| SplitData.SplitData | main.go:132-143 | the loop returns the trimmed, non-empty lines of the input in order; the error is always nil; every name is non-empty, newline-free and unchanged by trimming; there are at most one more names than newlines |
| SplitData.NamesOfJoin | main.go:134-140 | the names of newline-joined, newline-free lines are exactly the lines' trimmed non-empty forms |
| SplitData.SplitDataTestLayouts | main_test.go:76-78 | in the three layouts of the test table (no trailing newline, a trailing newline, and blank lines around and between), the names are the first line and the trim of the second name line; the table is the case "jesselucas" / " forestgiant" / " " |
| SplitData.SplitDataTestTable | main_test.go:76-78 | each of the three literal inputs of the test table gives exactly the names "jesselucas" and "forestgiant", in that order |
| Partition.GoQuo | main.go:119 | Go's integer division agrees with Dafny's `/` for the non-negative dividends and positive divisors calculateLoad receives |
| Partition.GoQuoIsTruncated | main.go:119 | Go's definition of `/`: the remainder `a - q * b` is smaller than the divisor in magnitude and, unless zero, has the sign of the dividend (truncation toward zero) |
| Partition.Ratio | main.go:100 | the ratio as an exact non-negative rational: times the workers it gives the names |
| Partition.RatioIsWhole | main.go:100-101 | the ratio equals its integer truncation exactly when the workers divide the names evenly |
| Partition.RatioBelowOne | main.go:106-107 | the ratio is below one exactly when there are fewer names than workers |
| Partition.WorkerCount | main.go:99-115 | the corrected count lies between 1 and the request; with names it does not exceed the names and is either the request or the number of names; without names it is the request |
| Partition.VerifyWorkerCount | main.go:99-115 | the method's loop ends with the count above, and an even split returns the request unchanged |
| Partition.WorkerCountTestTable | main_test.go:11-14 | the rows (1,2)→1, (3,4)→3, (4,3)→3 and (10000,10)→10 |
| Partition.CalculateLoad | main.go:118-129 | calculateLoad as written, with the end raised for every turn: no end falls short of the tasks, and every range is at least one load long; its properties for the turns main starts are the CalculateLoadIsSuffix to DisjointOnlyWhenTrivial rows |
| Partition.CalculateLoadIsSuffix | main.go:118-129 | for every turn main starts, the range is `[(tasks/workers) * turn, tasks)` with `0 <= start <= tasks` |
| Partition.FirstTurnCoversAll | main.go:119-126 | turn 0's range is `[0, tasks)` and contains every index |
| Partition.NextTurnInside | main.go:119-126 | every index of turn t+1's range is in turn t's range |
| Partition.LastIndexInEveryTurn | main.go:119-126 | with at least one name, index `tasks - 1` is in every turn's range |
| Partition.DisjointOnlyWhenTrivial | main.go:119-126 | the ranges of distinct turns are pairwise disjoint exactly when there are no names or there is one worker |
| Partition.CalculateLoadTestTable | main_test.go:33-45 | the code's range for every row, all with end equal to the total; every row passes the `&&` check |
| Partition.LoadRowPasses | main_test.go:45 | the test's `&&` check: a row passes whenever the code's range equals the expected one, and also whenever the start alone matches |
| Dispatch.WorkerNames | main.go:83-84 | the slice `names[start:end]` is in bounds for every turn, including when there are no names, and is the suffix of the names that starts at `(len/workers) * turn` |
| Dispatch.FirstWorkerTakesAll | main.go:83-84 | worker 0 ranges over all the names |
| Dispatch.LastNameInEveryBatch | main.go:83-84 | every worker ranges over the last name |
| Dispatch.AssignNames | main.go:80-84 | with the count of main.go:62, the worker count is the corrected request and is never zero; worker t gets turn t's slice; worker 0 gets every name; every worker gets the last name |

## Left out

- The concurrent part of `main` (main.go:66-95) is not modelled: the goroutines, the `sync.WaitGroup`, the unbuffered `results` channel, the printing consumer and the `atomic.AddUint64` counter. Two things about it:
  - the consumer's `range results` never ends, because nothing closes the channel, so the `close(results)` at main.go:76 is never reached;
  - `resultTotal` is read at main.go:95 without synchronising with the consumer.
- What a worker does with its names is not modelled: the probe of each name, sending the free names, and the pause after each send (main.go:85-90).
- `available` (main.go:195-229) is an HTTP POST to github.com. It is network I/O.
- `getAuth` (main.go:147-191) is an HTTP GET whose response is parsed by an HTML library. It is network I/O and foreign code.
- Flag parsing, reading stdin or the file, and printing (main.go:26-51, main.go:64, main.go:95) are I/O.
- The live-network test `Test_available` (main_test.go:51-69) is not modelled.
- Partition.VerifyWorkerCount: requires `workers >= 1`; a zero or negative `-workers` flag is not modelled. With zero workers Go's ratio is infinite or NaN and its `int64` conversion is implementation-defined. With a negative count the ratio is a finite negative number. When it is whole, for example 4 names and -2 workers, or 0 names, the negative count is returned and `wg.Add` panics at main.go:68. Otherwise, for example 3 names and -2 workers, the loop at main.go:107-110 keeps decrementing until Go's `int` wraps around and comes back down to the number of names, about 2^64 iterations.
- Partition.VerifyWorkerCount: the `float64` division and comparisons are modelled as exact rational arithmetic. They agree with IEEE rounding while the counts stay well below 2^53. That agreement is not proved here.
- White space (`GoStrings.IsSpace`) is the ASCII set space, tab, newline, vertical tab, form feed and carriage return. Go's `strings.TrimSpace` also removes the Unicode spaces listed in the predicate's comment.
- SplitData.SplitData: the conversion `string(data)` is modelled as one character per input byte. UTF-8 decoding and invalid byte sequences are not modelled.
- The names' length is modelled as an unbounded integer. For every turn main starts, `load * (turn + 1)` is at most the number of names, so Go's `int` cannot overflow there.
- No disjoint, exactly-once split is stated as a property, because main.go:124-126 does not compute one. `Partition.DisjointOnlyWhenTrivial` says when the code's ranges are disjoint instead.
