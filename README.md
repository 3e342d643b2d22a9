# taskparts, modelled in Dafny

taskparts is a task-parallel runtime for C++ with a Python benchmark harness.
This project models the parts whose behaviour can be stated sequentially and
proves properties of them.

On the harness side the models are:

- `Parameter`: the parameter language of `benchmark/tool/parameter.py`. An
  expression evaluates to a list of rows, and a row is a list of key/value
  pairs. The constructors are `value`, `append`, `cross`, and the take/drop
  filters by key-value pattern (`kvp`) or by key-type pattern (`ktp`).
- `Benchmark`: how `benchmark/tool/benchmark.py` turns each row into a
  benchmark run and a run into a shell command line.
- `BenchmarkRunScript`: for `benchmark/script/benchmark_run.py`, the same
  command line, the child's environment, and how the run record is extended
  with what the child process did.

On the runtime side:

- `FixedCapacity`: the fixed-capacity ring buffer and its inline allocator.
- `Rollforward`: lookups and the well-formedness check over the
  rollforward/rollback tables of heartbeat interrupts.
- `GenRollforward`: the assembly relabeller `gen_rollforward`.
- `Spmv`: conversion of an edge list to CSR sparse-matrix form.
- `CombTree`: the combining-tree counters.
- `Timing`: cycle/time conversions.
- `Tpalrts`: the promotion-mark list.
- `SumTree`: the serial tree-sum benchmark, with an explicit continuation
  stack.
- `Taskparts`: victim selection, fork-join dependency counters, the elastic
  scheduler's counter predicates, and the logger's event kinds.

Python values are modelled by `Parameter.Scalar`: a string, an int, a float
(`real`) or a bool. Scalar equality follows Python, so `1 == 1.0 == True`.
How a float is printed by `str` is a parameter `floatRepr`. C++ unsigned and
`size_t` arithmetic is written out modulo 2^64 where it matters. An `assert`
becomes a `requires`, a `die` becomes `None`, and a null pointer is `null`
(or the address 0 in `Rollforward`).

Where the code departs from what it evidently intends, the model follows the
code:

- `mk_unit` returns no rows (benchmark/tool/parameter.py:8-9), although the
  comment above it (parameter.py:7) asks whether the unit should be one empty
  row. So `mk_cross_sequence` (parameter.py:29-33) evaluates to zero rows for
  every list whose members all evaluate (Parameter.MkCrossSequence). Crossing
  with the unit therefore gives zero rows, not the other operand.
- `append` concatenates the two row lists with no special case for the unit
  (parameter.py:126-127), so appending the unit changes nothing only because
  the unit is empty.
- Rows are never sorted by key: a row keeps its pairs in the order they were
  built, and row equality and membership depend on that order.
- `cross` is the comprehension `[r1 + r2 for r2 in v2rs for r1 in v1rs]`
  (parameter.py:130): each pair of rows is concatenated, with the outer loop
  over the right operand. It is not a merge of rows sorted by key.
- `nanoseconds_of` in the header multiplies by 10000. See Findings.
- `is_leaf` is always true. See Findings.
- `mk_instr_labels` ignores its argument.
- The rollback search is bounded by the rollforward table's size.
- The well-formedness check never looks at entry 0.
- Deduplication seeded with the last edge drops every edge of an all-equal
  list.
- `run_benchmark` starts the child with only the run's environment
  arguments. The merged environment it computes is never used.

## Model

| member | source | states |
|---|---|---|
| Parameter.MkUnit | benchmark/tool/parameter.py:8-9 | the unit expression evaluates to zero rows |
| Parameter.MkParameter | benchmark/tool/parameter.py:11-12 | evaluates to one row holding the single pair |
| Parameter.MkParameters | benchmark/tool/parameter.py:14-15 | evaluates to one single-pair row per value, in order |
| Parameter.MkAppend | benchmark/tool/parameter.py:17-18 | evaluation succeeds iff both sides do; the rows are e1's followed by e2's, lengths add, nothing deduplicated |
| Parameter.MkAppendSequence | benchmark/tool/parameter.py:20-24 | the folded expression evaluates to the concatenation of all operands' rows, failing iff one fails |
| Parameter.MkCross | benchmark/tool/parameter.py:26-27 | succeeds iff both sides succeed and no key of a right row occurs in a left row; row `j*len(v1)+i` is `v1[i] + v2[j]` |
| Parameter.MkCrossSequence | benchmark/tool/parameter.py:29-33 | starting from the unit, the fold evaluates to zero rows whenever every operand evaluates, and fails otherwise |
| Parameter.MkTakeKvp | benchmark/tool/parameter.py:35-36 | evaluates to the left rows matching some key-value pattern row, in order |
| Parameter.MkDropKvp | benchmark/tool/parameter.py:38-39 | evaluates to the left rows matching no key-value pattern row, in order |
| Parameter.MkTakeKtp | benchmark/tool/parameter.py:41-42 | evaluates to the left rows matching some key-type pattern row, in order |
| Parameter.MkDropKtp | benchmark/tool/parameter.py:44-45 | evaluates to the left rows matching no key-type pattern row, in order |
| Parameter.ScalarEq | benchmark/tool/parameter.py:64 | definition: Python `==` on two values; a string equals only the same string, and ints, floats and bools compare by numeric value |
| Parameter.KvpEq | benchmark/tool/parameter.py:64 | definition: Python `==` on two key/value pairs, equal keys and `==` values |
| Parameter.ContainsKvp | benchmark/tool/parameter.py:62-66 | definition: some pair of the row is `==` to the pattern pair |
| Parameter.KtpHolds | benchmark/tool/parameter.py:73-77 | definition: the pair has the pattern key, and a string value under the pattern "string" or an int or float value under "number" |
| Parameter.ContainsKtp | benchmark/tool/parameter.py:71-78 | definition: some pair of the row satisfies the key-type pattern |
| Parameter.HasKey | benchmark/tool/parameter.py:80-84 | definition: some pair of the row has the key |
| Parameter.RowMatches | benchmark/tool/parameter.py:50-54 | definition: every pair of the pattern row is contained in the row |
| Parameter.MatchesAny | benchmark/tool/parameter.py:56-60 | definition: the row matches at least one pattern row |
| Parameter.DoRowsMatch | benchmark/tool/parameter.py:50-54 | true iff the row contains every pair of the pattern row |
| Parameter.DoesRowMatchAny | benchmark/tool/parameter.py:56-60 | true iff some pattern row matches |
| Parameter.DoesRowContainKvp | benchmark/tool/parameter.py:62-66 | true iff some pair of the row equals the pattern pair under Python equality |
| Parameter.DoesRowContainKtp | benchmark/tool/parameter.py:68-78 | true iff some pair has the key and a string value for "string" or an int/float value for "number" |
| Parameter.DoesRowContainKey | benchmark/tool/parameter.py:80-84 | true iff some pair of the row has the key |
| Parameter.DoesRowContain | benchmark/tool/parameter.py:131-146 | the containment test the filter kind selects |
| Parameter.SelectFromExprByKey | benchmark/tool/parameter.py:86-92 | fails iff evaluation fails; otherwise every value stored under the key, row by row, in order |
| Parameter.ValuesOfKeyMember | benchmark/tool/parameter.py:86-92 | a value is selected iff some row holds it under the key |
| Parameter.ValuesInRowMember | benchmark/tool/parameter.py:89-91 | a value is collected from a row iff the row holds it under the key |
| Parameter.CheckForDuplicateKeys | benchmark/tool/parameter.py:109-113 | passes iff no key of any right row occurs in any left row |
| Parameter.CrossRows | benchmark/tool/parameter.py:130 | definition: `[r1 + r2 for r2 in v2 for r1 in v1]`, the outer loop over v2 |
| Parameter.Select | benchmark/tool/parameter.py:131-146 | definition: the rows, in order, whose match against the patterns equals the keep flag (take keeps matches, drop keeps the rest) |
| Parameter.Eval | benchmark/tool/parameter.py:118-125 | definition: `eval_rec`; a value is its own rows, any other node evaluates e1 then e2 and stops at the first failure |
| Parameter.Combine | benchmark/tool/parameter.py:126-146 | definition: the step of `eval_rec` for append, cross (after the key check) and the four filters, once both operands are evaluated |
| Parameter.CrossEvalIsCross | benchmark/tool/parameter.py:128-130 | every successful cross lays out each pair of rows at `j*len(v1)+i`, the outer loop over v2 |
| Parameter.CrossRowsLength | benchmark/tool/parameter.py:130 | the cross has len(v1)·len(v2) rows |
| Parameter.CrossRowsAt | benchmark/tool/parameter.py:130 | row `j*len(v1)+i` of the cross is `v1[i] + v2[j]` |
| Parameter.CrossRowsIsCross | benchmark/tool/parameter.py:130 | the cross lays out every pair of rows |
| Parameter.CrossRowsEmptyLeft | benchmark/tool/parameter.py:130 | crossing zero left rows gives zero rows |
| Parameter.CrossRowsAppendRight | benchmark/tool/parameter.py:130 | the cross distributes over appending right rows, in order |
| Parameter.CrossRowsAppendLeft | benchmark/tool/parameter.py:130 | the cross distributes over appending left rows, up to order |
| Parameter.WithSuffixAppend | benchmark/tool/parameter.py:130 | suffixing a row distributes over appending row lists |
| Parameter.NoSharedKeysAppendRight | benchmark/tool/parameter.py:109-113 | the key check on appended right rows holds iff it holds on each part |
| Parameter.NoSharedKeysAppendLeft | benchmark/tool/parameter.py:109-113 | the key check on appended left rows holds iff it holds on each part |
| Parameter.CrossDistributesRight | benchmark/tool/parameter.py:126-130 | `cross(c, append(a, b))` evaluates exactly like `append(cross(c, a), cross(c, b))`, failure included |
| Parameter.CrossDistributesLeft | benchmark/tool/parameter.py:126-130 | `cross(append(a, b), c)` succeeds iff `append(cross(a, c), cross(b, c))` does, with the same rows up to order |
| Parameter.CrossFailsOnSharedKey | benchmark/tool/parameter.py:109-113 | a right-row key present in any left row makes the cross fail |
| Parameter.CrossCollisionExample | benchmark/tool/parameter.py:128-130 | crossing two parameters with the same key fails |
| Parameter.CrossExample | benchmark/tool/parameter.py:128-130 | a benchmark crossed with two worker counts gives the two joined rows, in order |
| Parameter.SelectAppend | benchmark/tool/parameter.py:131-146 | filtering distributes over appending rows, so relative order is kept |
| Parameter.SelectMember | benchmark/tool/parameter.py:131-146 | a row survives take iff it is an input row that matches, and drop iff it is one that does not |
| Parameter.TakeDropPartition | benchmark/tool/parameter.py:131-146 | take and drop partition the rows: together they are the input as a multiset, and no row is in both |
| Parameter.EmptyPatternMatchesAll | benchmark/tool/parameter.py:50-60 | an empty pattern row makes take keep every row and drop keep none |
| Parameter.NoPatternsMatchNothing | benchmark/tool/parameter.py:56-60 | with no pattern rows take keeps none and drop keeps every row |
| Parameter.BoolMatchesNoType | benchmark/tool/parameter.py:68-78 | a key bound only to bools matches neither "string" nor "number" |
| Parameter.KtpNumberPattern | benchmark/tool/parameter.py:68-78 | the "number" pattern matches iff the key is bound to an int or a float |
| Parameter.KvpMatchIsPythonEquality | benchmark/tool/parameter.py:62-66 | `1.0` and `True` match the pattern value `1`, the string `"1"` does not |
| Parameter.EvalValueIdempotent | benchmark/tool/parameter.py:119-121 | a value leaf evaluates to itself, so re-evaluating a result changes nothing |
| Parameter.SelectAllUnique | benchmark/tool/parameter.py:131-146 | filtering keeps every row free of repeated keys |
| Parameter.JoinUnique | benchmark/tool/parameter.py:129-130 | joining two rows without repeated keys that pass the key check gives a row without repeated keys |
| Parameter.CrossRowsAllUnique | benchmark/tool/parameter.py:129-130 | the same for every row of a cross |
| Parameter.EvalKeepsKeysUnique | benchmark/tool/parameter.py:118-147 | if no leaf row repeats a key, no row of a successful evaluation does |
| Parameter.PutAbsent | benchmark/tool/parameter.py:151-153 | storing a new key appends it at the end, in insertion order |
| Parameter.RowToDictionary | benchmark/tool/parameter.py:151-153 | definition: `dict(zip(keys, vals))`, storing the pairs one after the other, so a repeated key keeps its first position and its last value |
| Parameter.DictionaryToRow | benchmark/tool/parameter.py:155-156 | definition: the dictionary items, in insertion order |
| Parameter.GetPut | benchmark/tool/parameter.py:151-153 | after storing, the key reads back the new value and other keys are unchanged |
| Parameter.RowToDictionaryGet | benchmark/tool/parameter.py:151-153 | the dictionary of a row maps each key to its last value in the row |
| Parameter.RowDictionaryRoundTrip | benchmark/tool/parameter.py:151-156 | for a row without repeated keys, row to dictionary to row is the identity |
| Benchmark.ClTokens | benchmark/tool/benchmark.py:12 | definition: the `-var val` token of each argument, in order |
| Benchmark.EnvTokens | benchmark/tool/benchmark.py:21-23 | definition: the `VAR=val` token of each argument, in order |
| Benchmark.StringOfClArgs | benchmark/tool/benchmark.py:8-15 | the `-var val` tokens joined by single spaces, empty for no arguments |
| Benchmark.StringOfEnvArgs | benchmark/tool/benchmark.py:17-26 | the `VAR=val` tokens joined by single spaces, empty for no arguments |
| Benchmark.GluedCommandLine | benchmark/tool/benchmark.py:30-32 | the conditional spaces round env, path and arguments give exactly one space between adjacent nonempty parts |
| Benchmark.StringOfBenchmarkRun | benchmark/tool/benchmark.py:28-32 | a non-string path is a TypeError; otherwise env tokens, path and argument tokens joined by single spaces |
| Benchmark.CommandLine | benchmark/tool/benchmark.py:28-32 | definition: env tokens, path and command-line tokens joined by single spaces |
| Benchmark.CommandLineBare | benchmark/tool/benchmark.py:28-32 | with no env and no arguments the command is the path |
| Benchmark.CommandLineOneEach | benchmark/tool/benchmark.py:28-32 | one env argument and one command-line argument render as `VAR=val path -var val`, one space apart |
| Benchmark.ClTokenExample | benchmark/tool/benchmark.py:12 | the argument `n` with value 30 prints as `-n 30` |
| Benchmark.LastValueNone | benchmark/tool/benchmark.py:39-45 | the dictionary lookup of a key fails iff no pair of the row has the key |
| Benchmark.MkBenchmarkRunPath | benchmark/tool/benchmark.py:43-45 | the run fails iff the row lacks `path_to_executable`, with a KeyError for that key; otherwise the path is that key's last value |
| Benchmark.MkBenchmarkRun | benchmark/tool/benchmark.py:43-57 | definition: a KeyError when the row dictionary lacks `path_to_executable`; otherwise the run with that path and the row's command-line and environment arguments |
| Benchmark.ClArgs | benchmark/tool/benchmark.py:46-48 | definition: the row's pairs, in order, whose key is not the path, an env key or a silent key |
| Benchmark.EnvArgs | benchmark/tool/benchmark.py:49-50 | definition: the row's pairs, in order, whose key is an env key |
| Benchmark.ClArgsMember | benchmark/tool/benchmark.py:46-48 | an argument is on the command line iff its pair is in the row and the key is neither the path, an env key nor a silent key |
| Benchmark.EnvArgsMember | benchmark/tool/benchmark.py:49-50 | an env argument is exactly a row pair whose key is an env key |
| Benchmark.EnvVarsNotOnCommandLine | benchmark/tool/benchmark.py:46-50 | no env key appears among the command-line arguments |
| Benchmark.ArgsKeepOrder | benchmark/tool/benchmark.py:46-50 | both argument lists distribute over concatenated rows, so row order is kept |
| Benchmark.ArgsPartitionRow | benchmark/tool/benchmark.py:46-50 | the command-line, env and dropped arguments together are, as multisets, exactly the arguments of the row's pairs, and their lengths add up to the row's |
| Benchmark.ArgsPartitionMember | benchmark/tool/benchmark.py:46-50 | an argument comes from a pair of the row iff it is on the command line, in the env or dropped, and it is in no two of them |
| Benchmark.DroppedMember | benchmark/tool/benchmark.py:46-50 | an argument is dropped iff its pair is in the row and its key is the path or a silent key, and not an env key |
| Benchmark.MkBenchmarkRuns | benchmark/tool/benchmark.py:62-66 | succeeds iff every row has a path; then one run per row, in order, each the run of its row |
| Benchmark.DryRuns | benchmark/tool/benchmark.py:73-79 | an evaluation error propagates; a row without a path is a KeyError; otherwise the text of the runs' command lines |
| Benchmark.PrintRuns | benchmark/tool/benchmark.py:77-78 | the loop builds the text of all runs: each command line followed by a newline, or the TypeError of the first run whose path is not a string |
| Benchmark.Lines | benchmark/tool/benchmark.py:77-78 | definition: each run's command line followed by a newline, or the TypeError of the first run whose path is not a string |
| Benchmark.LinesFailure | benchmark/tool/benchmark.py:77-78 | one failing command line makes the whole text fail with a TypeError |
| Benchmark.LinesOnlyTypeError | benchmark/tool/benchmark.py:77-78 | rendering can only fail with a TypeError |
| BenchmarkRunScript.RunRecord.constructor | benchmark/script/benchmark_run.py:59-61 | a record that has not been run has no output fields |
| BenchmarkRunScript.RawTokens | benchmark/script/benchmark_run.py:40 | definition: the printed token of each raw argument, in order |
| BenchmarkRunScript.StringOfClArgs | benchmark/script/benchmark_run.py:36-43 | the raw argument tokens joined by single spaces, empty for no arguments |
| BenchmarkRunScript.StringOfBenchmarkRun | benchmark/script/benchmark_run.py:45-49 | env tokens, path and raw tokens joined by single spaces |
| BenchmarkRunScript.Command | benchmark/script/benchmark_run.py:45-49 | definition: env tokens, path and raw argument tokens joined by single spaces |
| BenchmarkRunScript.CommandBare | benchmark/script/benchmark_run.py:45-49 | with no env and no arguments the command is the path |
| BenchmarkRunScript.LastArgIsLast | benchmark/script/benchmark_run.py:65 | the last argument with a name has it and no later argument has it; there is none iff no argument has the name |
| BenchmarkRunScript.EnvMap | benchmark/script/benchmark_run.py:65 | definition: the dict comprehension, storing each env argument's printed value in order, so a later name overrides an earlier one |
| BenchmarkRunScript.EnvMapLookup | benchmark/script/benchmark_run.py:65 | the child environment defines exactly the names of the env arguments, each bound to its last value, printed |
| BenchmarkRunScript.RunBenchmark | benchmark/script/benchmark_run.py:59-119 | the command and child environment built from the record; failed iff the child did not exit with 0; the return code recorded only on exit; timestamp, host, elapsed and output always recorded; the run description unchanged |
| BenchmarkRunScript.RunFresh | benchmark/script/benchmark_run.py:74-113 | a fresh record gets a return code iff the child exited, with its output either way; a nonzero code or a timeout marks it failed |
| FixedCapacity.InlineAllocator.constructor | include/taskparts/fixedcapacity.hpp:8-20 | `capacity` items held inline |
| FixedCapacity.InlineAllocator.Get | include/taskparts/fixedcapacity.hpp:22-26 | requires the index below the capacity; returns that item |
| FixedCapacity.InlineAllocator.Swap | include/taskparts/fixedcapacity.hpp:28-36 | the two allocators' items are exchanged |
| FixedCapacity.SwapExchanges | include/taskparts/fixedcapacity.hpp:28-36 | a client sees the two items swapped |
| FixedCapacity.RingBuffer.constructor | include/taskparts/fixedcapacity.hpp:62-63 | an empty buffer |
| FixedCapacity.RingBuffer.Size | include/taskparts/fixedcapacity.hpp:69-72 | the number of items |
| FixedCapacity.RingBuffer.Full | include/taskparts/fixedcapacity.hpp:74-77 | true iff the buffer holds `capacity` items |
| FixedCapacity.RingBuffer.Empty | include/taskparts/fixedcapacity.hpp:79-82 | true iff the buffer holds no item |
| FixedCapacity.RingBuffer.PushFront | include/taskparts/fixedcapacity.hpp:84-92 | requires not full; the item is prepended, the front slot wrapping from 0 to the last slot |
| FixedCapacity.RingBuffer.PushBack | include/taskparts/fixedcapacity.hpp:94-102 | requires not full; the item is appended in the slot after the back, wrapping round |
| FixedCapacity.RingBuffer.Front | include/taskparts/fixedcapacity.hpp:104-108 | requires not empty; the first item |
| FixedCapacity.RingBuffer.Back | include/taskparts/fixedcapacity.hpp:110-117 | requires not empty; the last item |
| FixedCapacity.RingBuffer.PopFront | include/taskparts/fixedcapacity.hpp:119-129 | requires not empty; returns and removes the first item, the front slot wrapping to 0 |
| FixedCapacity.RingBuffer.PopBack | include/taskparts/fixedcapacity.hpp:131-138 | requires not empty; returns and removes the last item |
| FixedCapacity.RingBuffer.Clear | include/taskparts/fixedcapacity.hpp:140-144 | the buffer is left empty |
| FixedCapacity.Fifo | include/taskparts/fixedcapacity.hpp:94-129 | pushing at the back and popping at the front is first in, first out |
| FixedCapacity.PushThenPeek | include/taskparts/fixedcapacity.hpp:84-117 | a pushed item is at the end it was pushed to, one more item each push |
| FixedCapacity.PushPopWraps | include/taskparts/fixedcapacity.hpp:94-138 | push/pop at the back round a wrapped buffer gives back the item and keeps the rest |
| FixedCapacity.PushPopBack | include/taskparts/fixedcapacity.hpp:94-102 | on any buffer with room, `pop_back` after `push_back(x)` returns `x` and restores the contents |
| FixedCapacity.PushPopFront | include/taskparts/fixedcapacity.hpp:84-92 | on any buffer with room, `pop_front` after `push_front(x)` returns `x` and restores the contents |
| FixedCapacity.ClearEmpties | include/taskparts/fixedcapacity.hpp:140-144 | after `clear` the buffer is empty and can be filled again |
| Rollforward.Search | include/taskparts/rollforward.hpp:39-53 | on a table sorted by `from`, the `to` of an entry with the key, or null when none has it |
| Rollforward.TryToInitiateRollforward | include/taskparts/rollforward.hpp:35-57 | a present key with a non-null target moves `*rip` to that target; otherwise `*rip` stays |
| Rollforward.TryToInitiateRollbackward | include/taskparts/rollforward.hpp:59-78 | the source of an entry with the key in the rollback table, or null; only the first rollforward-size entries are searched |
| Rollforward.RfWellFormedCheck | include/taskparts/rollforward.hpp:80-109 | passes iff every rollback entry from index 1 on inverts its rollforward entry; otherwise exits at the first one that does not; ordering problems only warn, at the indices where `from` drops |
| Rollforward.StrictlySortedNoWarnings | include/taskparts/rollforward.hpp:86-92 | a strictly sorted table draws no ordering warning |
| Rollforward.SearchFindsEntry | include/taskparts/rollforward.hpp:39-53 | a strictly sorted table finds each of its own keys |
| Rollforward.RollforwardThenBack | include/taskparts/rollforward.hpp:35-109 | for tables that are sorted and pass the check, rolling forward from entry i ≥ 1 and then back returns its source address |
| Rollforward.FirstEntryUnchecked | include/taskparts/rollforward.hpp:85-86 | a rollback table whose entry 0 does not invert the rollforward entry still passes, and the round trip then fails |
| GenRollforward.LabelOfDeclInverse | benchmark/gen_rollforward.cpp:30-37 | a line is a label iff it ends in ':' after at least one character, and `label_of_decl` drops exactly that ':' |
| GenRollforward.IsLabel | benchmark/gen_rollforward.cpp:30-33 | definition: at least two characters, the last one ':' |
| GenRollforward.LabelOfDecl | benchmark/gen_rollforward.cpp:35-37 | definition: the string without its last character; the empty string stays empty |
| GenRollforward.RollforwardLabel | benchmark/gen_rollforward.cpp:12-14 | definition: the label followed by `_rf` |
| GenRollforward.FirstIndexOf | benchmark/gen_rollforward.cpp:107 | the first position of the character, or the length when it is absent |
| GenRollforward.GetLines | benchmark/gen_rollforward.cpp:42-43 | definition: the newline-terminated pieces that `getline` reads, plus a nonempty unterminated rest |
| GenRollforward.GetLinesUnlines | benchmark/gen_rollforward.cpp:42-43 | the lines `getline` reads hold no newline and, newline terminated, give back the text |
| GenRollforward.MkLabelSet | benchmark/gen_rollforward.cpp:39-49 | the set of the labels declared on the lines of the text |
| GenRollforward.GetNbInstrs | benchmark/gen_rollforward.cpp:81-90 | the number of lines that are not labels |
| GenRollforward.InstrLinesPartition | benchmark/gen_rollforward.cpp:81-90 | every line is either an instruction line or a label line |
| GenRollforward.FirstSeparator | benchmark/gen_rollforward.cpp:53-70 | the position of the first separator character, with none before it |
| GenRollforward.IsAsmLexeme | benchmark/gen_rollforward.cpp:53-61 | definition: the six separator characters `(`, `)`, `$`, `,`, tab and space |
| GenRollforward.Lex | benchmark/gen_rollforward.cpp:63-79 | definition: the run before the first separator (possibly empty), the separator alone, then the tokens of the rest; a final run only when nonempty |
| GenRollforward.ConcatSnoc | benchmark/gen_rollforward.cpp:117-123 | concatenating one more token appends it |
| GenRollforward.LexAtSeparator | benchmark/gen_rollforward.cpp:66-70 | at a separator the pending token and the separator are emitted |
| GenRollforward.LexAsmLine | benchmark/gen_rollforward.cpp:63-79 | the lexer loop computes the tokens of the line |
| GenRollforward.LexConcat | benchmark/gen_rollforward.cpp:63-79 | concatenating the tokens of a line gives back the line |
| GenRollforward.LexTokenShape | benchmark/gen_rollforward.cpp:53-79 | every token is a single separator character or a run without separators |
| GenRollforward.LexCallFib | benchmark/gen_rollforward.cpp:63-79 | `call fib` lexes as `call`, a space, `fib` |
| GenRollforward.RelabelAll | benchmark/gen_rollforward.cpp:117-123 | definition: each token relabelled on its own, in order |
| GenRollforward.RelabelToken | benchmark/gen_rollforward.cpp:118-122 | definition: a source label becomes its `_rf` twin, any other token is kept |
| GenRollforward.RelabelLine | benchmark/gen_rollforward.cpp:114-125 | the line's tokens are concatenated, the source labels among them getting `_rf` |
| GenRollforward.RelabelNoLabels | benchmark/gen_rollforward.cpp:114-125 | a line without source labels, for instance with an empty label set, is unchanged |
| GenRollforward.RelabelExample | benchmark/gen_rollforward.cpp:12-14 | `call fib` with label `fib` becomes `call fib_rf` |
| GenRollforward.RemoveComment | benchmark/gen_rollforward.cpp:106-112 | a prefix of the line without '#', cut exactly at the first '#' |
| GenRollforward.RemoveCommentIdempotent | benchmark/gen_rollforward.cpp:106-112 | removing comments twice is removing them once; a line without '#' is unchanged |
| GenRollforward.MkInstrLabels | benchmark/gen_rollforward.cpp:92-104 | `total_nb_instrs` labels, label i being the prefix followed by i in decimal; the argument is ignored |
| GenRollforward.InstrLabel | benchmark/gen_rollforward.cpp:94-96 | definition: the prefix followed by the number in decimal |
| GenRollforward.InstrLabelsDistinct | benchmark/gen_rollforward.cpp:94-96 | different instruction numbers give different labels |
| Text.NatToString | benchmark/gen_rollforward.cpp:95 | `std::to_string` of a number: decimal digits, no leading zero |
| Text.ParseNatToString | benchmark/gen_rollforward.cpp:95 | reading the digits back gives the number |
| Text.NatToStringInjective | benchmark/gen_rollforward.cpp:95 | different numbers print differently |
| Text.JoinSpaceSnoc | benchmark/tool/benchmark.py:13 | adding one token joins it with a space, or alone at the start |
| Text.JoinSpaceAppend | benchmark/tool/benchmark.py:30-32 | joining two nonempty token lists puts one space between them |
| Text.IntToString | benchmark/tool/benchmark.py:12 | `str` of an int starts with '-' iff it is negative |
| Spmv.SortEdges | benchmark/parlay/spmv.hpp:107 | the edges are sorted lexicographically in place, a permutation of the input |
| Spmv.Insert | benchmark/parlay/spmv.hpp:107 | one insertion step extends the sorted prefix, keeping a permutation |
| Spmv.SwapAdjacent | benchmark/parlay/spmv.hpp:107 | exchanging two neighbours is a permutation |
| Spmv.DedupEdges | benchmark/parlay/spmv.hpp:108-119 | the loop that skips each edge equal to the one before it, starting from the last edge |
| Spmv.DedupFrom | benchmark/parlay/spmv.hpp:111-116 | definition: the edges that differ from the edge before them, a given edge standing before the first |
| Spmv.Dedup | benchmark/parlay/spmv.hpp:110-116 | definition: that deduplication seeded with the last edge, as `prev = edges.back()` does |
| Spmv.DedupStrictlyIncreasing | benchmark/parlay/spmv.hpp:108-119 | after dedup the edges increase strictly, so they are still sorted |
| Spmv.DedupMembers | benchmark/parlay/spmv.hpp:108-119 | on sorted edges: an all-equal list becomes empty, any other list keeps exactly its distinct edges |
| Spmv.AllSameDropped | benchmark/parlay/spmv.hpp:110-117 | sorted edges whose first and last agree are all dropped |
| Spmv.DedupFromSubset | benchmark/parlay/spmv.hpp:111-117 | dedup only keeps input edges |
| Spmv.DedupFromKeeps | benchmark/parlay/spmv.hpp:111-117 | every edge except a leading copy of the seed is kept |
| Spmv.DedupFromAbove | benchmark/parlay/spmv.hpp:111-117 | on sorted input every kept edge is above the seed |
| Spmv.DedupFromIncreasing | benchmark/parlay/spmv.hpp:111-117 | on sorted input the kept edges increase strictly |
| Spmv.AllEqualDedup | benchmark/parlay/spmv.hpp:111-117 | edges all equal to the seed are all dropped |
| Spmv.CountBelowStep | benchmark/parlay/spmv.hpp:145-153 | the next row pointer adds the row's count |
| Spmv.CountBelowAll | benchmark/parlay/spmv.hpp:126-128 | when every row is below `nb_rows`, all edges are counted |
| Spmv.CountBelowMonotone | benchmark/parlay/spmv.hpp:145-153 | row pointers never decrease |
| Spmv.CountBelowPrefix | benchmark/parlay/spmv.hpp:145-153 | on sorted edges, the edges before row r's pointer are exactly those of rows below r |
| Spmv.CountBelowZero | benchmark/parlay/spmv.hpp:147 | the first row pointer is 0 |
| Spmv.SortedKeepsRows | benchmark/parlay/spmv.hpp:107-126 | sorting and deduplication keep every row below `nb_rows` |
| Spmv.CountRows | benchmark/parlay/spmv.hpp:121-128 | requires every row below `nb_rows`; counts each row's edges |
| Spmv.ColumnIndices | benchmark/parlay/spmv.hpp:137-143 | `col_ind[k]` is the column of the k-th edge |
| Spmv.PrefixSum | benchmark/parlay/spmv.hpp:145-153 | the exclusive prefix sum in place: `row_ptr[i]` is the number of edges in rows below i |
| Spmv.CsrOfEdgelist | benchmark/parlay/spmv.hpp:106-163 | requires a nonempty list whose kept edges have rows below `nb_rows` (every edge, unless all are equal and none is kept); the edges end sorted, as a permutation; `nb_vals` is the number of distinct edges kept; `row_ptr[i]` counts the kept edges in rows below i; `col_ind[k]` is the k-th kept edge's column |
| Spmv.RowPointers | benchmark/parlay/spmv.hpp:145-153 | `row_ptr[0]` is 0 and `row_ptr[nb_rows]` is `nb_vals`; the pointers never decrease; consecutive pointers differ by the row's count; edge k lies between row i's pointers iff it is in row i |
| Spmv.MkArrowheadEdgelist | benchmark/parlay/spmv.hpp:72-84 | 3n edges: first (i,0), then (0,i), then (i,i) for each i < n |
| Spmv.ArrowheadInside | benchmark/parlay/spmv.hpp:72-84 | every arrowhead edge lies in the n×n matrix, in an arrowhead position |
| Spmv.ZeroInit | benchmark/parlay/spmv.hpp:165-171 | the first n entries become 0; the rest are unchanged |
| CombTree.Pow2 | include/taskparts/combtree.hpp:35 | a shift of 1 is positive |
| CombTree.HeapSizeOf | include/taskparts/combtree.hpp:33-36 | definition: `(1 << (height + 1)) - 1`, with `height + 1` taken modulo 2^64 |
| CombTree.NbLeaves | include/taskparts/combtree.hpp:42-44 | definition: `1 << height` |
| CombTree.FirstLeaf | include/taskparts/combtree.hpp:46-48 | definition: `heap_size_of(height - 1)`, with `height - 1` taken modulo 2^64 |
| CombTree.LeavesFillHeap | include/taskparts/combtree.hpp:33-48 | the heap has 2^(h+1)−1 nodes; the first leaf is at 2^h−1; first leaf plus leaf count is the heap size; at height 0 the wrapping `height - 1` puts the first leaf at the root |
| CombTree.ChildOf | include/taskparts/combtree.hpp:50-56 | requires d ∈ {1,2} and both the node and the child in the heap; the child lies in the heap after the node |
| CombTree.ParentOf | include/taskparts/combtree.hpp:82-85 | requires a non-root node; the parent comes before it |
| CombTree.ParentOfChild | include/taskparts/combtree.hpp:50-56 | `parent_of(child_of(n, d)) == n` for both children |
| CombTree.HasChildrenIffInner | include/taskparts/combtree.hpp:46-56 | a node has children in the heap iff it comes before the first leaf |
| CombTree.IsLeafAsWrittenAtRoot | include/taskparts/combtree.hpp:95-99 | as written, the root of a height-1 tree counts as a leaf although its children are in the heap |
| CombTree.IsLeafAsWritten | include/taskparts/combtree.hpp:95-99 | definition: `is_leaf` as written, the first leaf compared with itself; requires the node in the heap, as the assert does |
| CombTree.IsLeafAsWrittenEverywhere | include/taskparts/combtree.hpp:95-99 | as written, `is_leaf` holds of every node of the heap at every height |
| CombTree.IsLeaf | include/taskparts/combtree.hpp:95-99 | definition: the intended `is_leaf`, `n >= get_first_leaf()`, for a node in the heap |
| CombTree.IsLeafIffNoChild | include/taskparts/combtree.hpp:95-99 | the intended test: a node is a leaf iff it has no child, iff it is one of the `get_nb_leaves()` nodes from the first leaf |
| CombTree.RootIsAncestor | include/taskparts/combtree.hpp:62-68 | walking up the parents from any node reaches the root |
| CombTree.AncestorBelow | include/taskparts/combtree.hpp:82-85 | an ancestor has an index no greater than the node |
| CombTree.Tree.constructor | include/taskparts/combtree.hpp:72-75 | a heap of `heap_size_of(height)` counters |
| CombTree.Tree.IncrementCounterRec | include/taskparts/combtree.hpp:62-68 | exactly the node and its ancestors gain i; every other counter is unchanged |
| CombTree.Tree.IncrementCounter | include/taskparts/combtree.hpp:101-103 | the same, for the public entry point |
| CombTree.Tree.IncrementLeafCounter | include/taskparts/combtree.hpp:105-111 | requires l below the leaf count; the root gains i, as does every counter on the root path of leaf l, and no other |
| CombTree.Tree.ReadCounter | include/taskparts/combtree.hpp:113-116 | the counter of the node |
| CombTree.LeafIncrementReachesRoot | include/taskparts/combtree.hpp:105-116 | whatever the counters held, the root's reading rises by i and a sibling leaf's reading stays |
| Timing.DiffAfter | include/taskparts/timing.hpp:37-40 | `diff(s, s + k)` is k, even when the counter wraps |
| Timing.Diff | include/taskparts/timing.hpp:37-40 | definition: `finish - start` modulo 2^64 |
| Timing.SecondsOf | include/taskparts/timing.hpp:62-73 | an unknown frequency is fatal; otherwise milliseconds below 1000 and whole·1000 + fractional is cycles / kHz |
| Timing.NanosecondsOfAsWritten | include/taskparts/timing.hpp:75-82 | an unknown frequency is fatal; otherwise the header's `10000·cycles / kHz`, wrapping |
| Timing.NanosecondsOfAsWrittenExample | include/taskparts/timing.hpp:75-82 | at 1 kHz, 1000 cycles are one second, and the header gives 10^7 ns where 10^9 is right |
| Timing.NanosecondsOf | src/taskparts.cpp:271-273 | an unknown frequency is fatal; otherwise `1000000·cycles / kHz`, wrapping |
| Timing.NanosecondsAgreeWithSeconds | include/taskparts/timing.hpp:62-82 | without wrap-around, corrected nanoseconds/10^6 is the millisecond count, and /10^9 is `seconds_of`'s whole part |
| Timing.Milliseconds | include/taskparts/timing.hpp:68-71 | a nanosecond count splits into milliseconds and seconds by division |
| Timing.ScaledQuotient | include/taskparts/timing.hpp:81 | scaling the dividend by 10^6 scales the quotient, plus a remainder term below 10^6 |
| Tpalrts.PushBack | include/taskparts/tpalrts.hpp:90-99 | the old back's `next` becomes t, t becomes the back, and the front too on an empty list; with t linked to the old back, the list gains t at its end |
| Tpalrts.PopBack | include/taskparts/tpalrts.hpp:101-113 | requires a nonempty list; the back's predecessor becomes the back, the ends are unlinked, a single node leaves the list empty, and the list loses its last node; the back's `next` and its predecessor's `prev` keep their values, unless the node links to itself |
| Tpalrts.PopFront | include/taskparts/tpalrts.hpp:115-127 | requires a nonempty list; the front's successor becomes the front, the ends are unlinked, a single node leaves the list empty, and the list loses its first node; the front's `prev` and its successor's `next` keep their values, unless the node links to itself |
| Tpalrts.PushPopBack | include/taskparts/tpalrts.hpp:90-113 | push_back of t, linked to the old back, then pop_back restores the header and the list |
| Tpalrts.TwoMarks | include/taskparts/tpalrts.hpp:90-127 | two marks pushed at the back are popped from the front in order, then the list is empty |
| SumTree.ResumeDescend | benchmark/sum_tree.serial.cpp:50-54 | pushing a K1 frame and summing the left subtree amounts to summing the whole node |
| SumTree.Sum | benchmark/sum_tree.serial.cpp:32-56 | the answer is the stack resumed with the recursive sum of the tree, where resuming turns a K1 frame into a K2 frame with the left sum, combines and pops a K2 frame, and answers at K3; only the K3 bottom frame is left |
| SumTree.SumIterative | benchmark/sum_tree.serial.cpp:58-62 | the iterative algorithm gives `sum_recursive` of the tree, so the dispatcher's algorithms agree |
| SumTree.SumRecursive | benchmark/sum_tree.serial.cpp:64-72 | definition: `sum_recursive`, 0 for null, otherwise left sum + right sum + value |
| SumTree.SumExample | benchmark/sum_tree.serial.cpp:64-72 | a three-node tree sums to 6 |
| Taskparts.RandomOtherWorker | src/taskparts.cpp:1086-1096 | requires more than one worker; the chosen id is not the caller's and is below the worker count |
| Taskparts.EveryOtherWorkerReachable | src/taskparts.cpp:1090-1093 | every other worker is chosen by some random number |
| Taskparts.RandomOtherWorkerInjective | src/taskparts.cpp:1090-1093 | two random numbers choose the same worker iff they agree modulo `nb_workers - 1` |
| Taskparts.Vertex.constructor | src/taskparts.cpp:672-677 | a vertex with no predecessors and an empty outset |
| Taskparts.Vertex.NewIncounter | src/taskparts.cpp:679-681 | the counter becomes 0 |
| Taskparts.Vertex.Increment | src/taskparts.cpp:682-684 | the counter gains one |
| Taskparts.Vertex.Decrement | src/taskparts.cpp:686-691 | requires a positive counter; it loses one, and the vertex is scheduled iff it reaches 0 |
| Taskparts.Vertex.NewOutset | src/taskparts.cpp:692-694 | the outset becomes empty |
| Taskparts.Vertex.Add | src/taskparts.cpp:696-701 | requires an empty outset; it then holds the vertex |
| Taskparts.Vertex.ParallelNotify | src/taskparts.cpp:703-709 | nothing happens on an empty outset; otherwise its vertex is decremented once, scheduled iff that was its last predecessor, keeps its own outset, and the outset is emptied |
| Taskparts.ForkJoin | src/taskparts.cpp:672-709 | the join of two children is scheduled by the second notification, not the first, and a repeated notification does nothing |
| Taskparts.NotifyChain | src/taskparts.cpp:672-709 | along a chain a -> b -> c with one predecessor each, notifying a schedules b and keeps b's outset, so notifying b then schedules c |
| Taskparts.SentinelOnlyOnImbalance | src/taskparts.cpp:1987-1992 | a sentinel is needed only on an imbalance, and on an imbalance exactly when no worker steals |
| Taskparts.ExistsImbalance | src/taskparts.cpp:1987-1989 | definition: a surplus of at least 1 and at least one suspended worker |
| Taskparts.NeedsSentinel | src/taskparts.cpp:1990-1992 | definition: no stealer and an imbalance |
| Taskparts.KindOf | src/taskparts.cpp:1682-1699 | no tag is classified as a vertex or migration event |
| Taskparts.KindOfGroups | src/taskparts.cpp:1682-1699 | launch, algorithm, wait, suspend and phase tags are phases; exit, teardown and program points are program events; the rest are `nb_kinds`, in both directions |

## Left out

- Parameter.Scalar: a float is an exact `real`, so NaN, the infinities and rounding are not modelled. simplejson reads NaN and Infinity, and in Python `NaN == NaN` is false; in the model two equal floats always match (Parameter.KvpMatchIsPythonEquality, Parameter.DoesRowContainKvp).
- JSON-schema validation in `eval`, `mk_benchmark_runs` and `run_benchmark` calls a foreign library. The datatypes give the shapes those schemas check instead.
- Parameter.SelectFromExprByKey: the only error modelled is the key collision. A malformed expression, which fails `eval_rec`'s final `assert(False)`, cannot be built from the datatype.
- The shell, the subprocess, the timeout, `psutil`, the clock and `socket.gethostname` of `run_benchmark` are I/O. The child's behaviour is an `Outcome` parameter, and the clock and host readings are parameters.
- The warnings that `run_benchmark` prints are output and are left out. BenchmarkRunScript.RunBenchmark returns `benchmark_failed` as `failed`, which the Python code computes and then discards.
- How Python's `str` prints a float is the parameter `floatRepr`, not a model of float printing.
- `benchmark_run.py`'s `string_of_env_args` is the same as `benchmark.py`'s, and both use Benchmark.StringOfEnvArgs.
- FixedCapacity.RingBuffer: the size may reach the capacity, because `full()` tests `size() == capacity`. A zero capacity is excluded, because a zero-length C++ array is ill-formed.
- FixedCapacity.RingBuffer.PushFront: the slot write is modelled as a store. The allocator's `construct`/`destroy` lifetimes are left out.
- The qsort `sorter` and the static initialiser are left out, because the comparator's truncating subtraction is not a sound order. The lookups assume sorted tables instead.
- Rollforward: the `int64_t` cast of the table sizes is not modelled.
- Rollforward.RfWellFormedCheck: `printf` output becomes the `warnings` list of indices, and `exit(1)` becomes `ok == false`.
- In `gen_rollforward.cpp`, the `gen_*` printers, the command-line parsing, the file reading and `main`'s output are left out, as I/O around the modelled functions.
- Spmv.SortEdges: `std::sort` is modelled by an insertion sort with the same result, a sorted permutation.
- Spmv.CsrOfEdgelist: the final `edges.clear()` is not modelled, and the array is left holding the sorted edges.
- Spmv.CsrOfEdgelist: `max_col_len` and `tot_col_len`, which only feed `printf`, are left out.
- Spmv.CsrOfEdgelist: the `val` array of random floats is left out.
- Spmv.CsrOfEdgelist: `nb_rows + 1` overflow is not modelled.
- `mk_random_local_edgelist` and `mk_powerlaw_edgelist` are hash-driven generators with no contract beyond their size, and are left out.
- CombTree.HeapSizeOf: the `1 << ...` shift of an `int` is undefined for heights of 31 and more. The model computes the power of two exactly.
- CombTree.Tree: the atomic `fetch_add` is modelled as a sequential update, and `int64_t` counter overflow is not modelled. The counters start with arbitrary values, as `new combnode[...]` does not initialise them.
- CombTree.Tree.IncrementLeafCounter: the `printf` before the failing assertion is left out; the assertion becomes a `requires`.
- `rdtsc`, `now`, `since` and `spin_for` in `timing.hpp` read hardware counters or spin, and are left out.
- The rest of `tpalrts.hpp` (signal handling, the heartbeat thread) is concurrency and OS interaction, and is left out.
- SumTree.Sum: the `int` overflow of the sums is not modelled.
- SumTree.Sum: the `std::deque` and `parlay::sequence` variants share one `seq` model.
- SumTree.Sum: the global `answer` is an out-parameter.
- SumTree.Sum: the tree is an immutable value.
- `gen_input` and `teardown` of the tree-sum benchmark are left out.
- Taskparts.RandomOtherWorker: `random_number`'s hash and per-worker seed are a parameter. The model states what holds for every random number.
- Taskparts.Vertex: the `uint64_t` incounter is an unbounded `nat`, so wrap-around is not modelled.
- Taskparts.Vertex.ParallelNotify: the `decrement` callback is fixed to the vertex's own decrement, and its scheduling is a returned boolean.
- Taskparts.Vertex: `fork_join_edges` is folded into the vertex class.
- Taskparts.Vertex: the wrappers at src/taskparts.cpp:735-766 that forward to `fork_join_edges` are not separate members.
- `name_of` of the logger, the deques and the schedulers are left out, because their point is concurrency and memory ordering.
- Taskparts.KindOf: only the declared tags are modelled, so an out-of-range `event_tag` value is not.

## Findings

| source | as written | input that shows it | evidently intended | confidence | as-written member | corrected member |
|---|---|---|---|---|---|---|
| include/taskparts/timing.hpp:81 | `nanoseconds_of` returns `10000l * cycles / cpu_frequency_khz` | cpu_frequency_khz = 1, cycles = 1000 (one second) gives 10^7 ns | `1000000l * cycles / cpu_frequency_khz` (10^9 ns), as in src/taskparts.cpp:271-273 | not executed | Timing.NanosecondsOfAsWrittenExample | Timing.NanosecondsAgreeWithSeconds |
| include/taskparts/combtree.hpp:95-99 | `is_leaf` returns `f >= get_first_leaf()`, which is always true | height 1, node 0 (the root, with children 1 and 2 in the heap) is reported a leaf | `n >= get_first_leaf()` | not executed | CombTree.IsLeafAsWrittenAtRoot | CombTree.IsLeafIffNoChild |
