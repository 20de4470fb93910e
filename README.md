# callcounter: a verified model

The repository is a function-call profiler in two halves.

- **The runtime** (`src/callcounter.cpp`) is linked into a program built with `-finstrument-functions`. The compiler's entry hook counts, per thread, how often each function address is entered. When a thread ends, the thread-local table's destructor appends one line `"%p %lu %zu"` per function to a raw output file: address, count, thread tag. At process start the file is truncated. Its path is `callcounter.raw` unless `CC_OUTFILE` is set.
- **The report tool** (`src/resolver.py`) reads that file in one of two modes:
  - `--sum` adds up the counts per address under one group, `ALL_THREADS`;
  - `--threaded` keeps one group per thread tag.

  It then resolves every address to a function name and a `file:line` through `addr2line`. Finally it writes, per group, a table sorted by descending count with padded columns.

The model is written in Dafny, in six modules:

| file | module | contents |
|---|---|---|
| `wrappers.dfy` | `Wrappers` | `Option` and `Result` |
| `text.dfy` | `Text` | `str.isspace`, `strip()`, `split()`, `int()` with its base-10 grammar, `str()` of an integer, left-aligned padding, and the decimal text of `%lu`/`%zu` |
| `callcounter.dfy` | `CallCounter` | the runtime, described below |
| `resolver.dfy` | `Resolver` | the reading half of the report tool, described below |
| `report.dfy` | `Report` | the writing half of the report tool, described below |
| `roundtrip.dfy` | `Pipeline` | the meeting point of the two halves, described below |

`CallCounter` holds:
- the class `ThreadCallMap`, whose `counts` map is updated in place by `Enter`, with a ghost history of entered functions and the invariant `counts == Tally(calls)`;
- the destructor's `Flush`;
- a whole thread's life, `RunThread`;
- the output path;
- the text of a record line.

`Resolver` holds:
- the mode check;
- `ParseLine`;
- the two reading loops, each proved equal to a fold over the accepted entries;
- reference sums that define what every total means.

`Report` holds:
- the union of addresses;
- the pairing of addr2line's output lines;
- the stable sort by descending count;
- the column widths;
- the row and header text;
- the per-group and whole-report loops.

`Pipeline` proves that every line the runtime writes is read back by `ParseLine` unchanged. It also proves that the sum-mode totals of a flushed table are that table's counts.

Python's `int()` is modelled with this grammar: an optional `+` or `-`, then ASCII digits in which single underscores may separate digits. Leading zeros are allowed. Counts read by the report tool are therefore `int`, and may be negative. The model sets no bound on the number of digits. CPython 3.11 and later, and the 3.7.14, 3.8.14, 3.9.14 and 3.10.7 security releases, refuse base-10 text longer than 4300 digits by default, both in `int()` and in `str()`; see "## Left out".

## Model

| member | source | states |
|---|---|---|
| CallCounter.OutputPath | src/callcounter.cpp:38-39 | the path is the `CC_OUTFILE` value when the variable is set, otherwise the default `callcounter.raw` declared at src/callcounter.cpp:8 |
| CallCounter.Increment | src/callcounter.cpp:49-50 | `map[func]++` inserts `func` with count 1 when absent, otherwise adds one; every other key and count is unchanged; no other key appears |
| CallCounter.Tally | src/callcounter.cpp:48-51 | after a sequence of entries, a function is a key exactly when it was entered, and its count is the number of times it occurs in the sequence |
| CallCounter.TallySnoc | src/callcounter.cpp:48-51 | one more entry of a function changes the table exactly as `map[func]++` does |
| CallCounter.ThreadCallMap.constructor | src/callcounter.cpp:12-13 | a new table is empty and has seen no calls |
| CallCounter.ThreadCallMap.Enter | src/callcounter.cpp:48-51 | the table becomes `Increment(old table, func)` and the frequency invariant `counts == Tally(calls)` is kept; `caller` plays no part |
| CallCounter.ThreadCallMap.Exit | src/callcounter.cpp:53-54 | the exit hook leaves the table and the call history unchanged |
| CallCounter.ThreadCallMap.Flush | src/callcounter.cpp:15-28 | an empty table is not flushed and emits nothing; a sink that does not open emits nothing; otherwise one record per key, with no address repeated, each with that key's count and the thread's tag |
| CallCounter.FlushSize | src/callcounter.cpp:23-25 | a flush emits exactly as many records as the table has keys |
| CallCounter.DistinctAddressesCount | src/callcounter.cpp:23-25 | records with pairwise distinct addresses name as many addresses as there are records |
| CallCounter.FlushOfTally | src/callcounter.cpp:21-25 | flushing the table built from a call sequence gives one record per function entered, whose count is its positive number of entries |
| CallCounter.RunThread | src/callcounter.cpp:31 | a thread that fires hooks and ends emits nothing if it entered no function or the sink does not open, and otherwise the flush of the tally of the functions it entered; exits and callers have no effect |
| CallCounter.EnteredFunctions | src/callcounter.cpp:48-54 | every function in the result is the callee of some entry hook, the callee of every entry hook is in the result, and the result is no longer than the hook sequence |
| CallCounter.EnteredFunctionsCount | src/callcounter.cpp:48-54 | each function occurs in the entered functions exactly as many times as there are entry hooks into it, counted by `EnterCount` |
| CallCounter.Hex | src/callcounter.cpp:24 | the hexadecimal text of an address is non-empty and has no white space |
| CallCounter.PointerText | src/callcounter.cpp:24 | the `%p` text of an address is a single space-free token |
| CallCounter.HexInjective | src/callcounter.cpp:24 | different numbers have different hexadecimal texts |
| CallCounter.PointerTextInjective | src/callcounter.cpp:24 | different addresses print differently, `(nil)` included |
| CallCounter.RecordLines | src/callcounter.cpp:23-25 | one line per record, in the order emitted |
| CallCounter.AddressesSnoc | src/callcounter.cpp:23-25 | appending a record adds exactly its address to the addresses emitted |
| Text.TrimStartRemovesLeadingSpace | src/resolver.py:22 | the left trim drops exactly the leading white-space prefix |
| Text.TrimEndRemovesTrailingSpace | src/resolver.py:22 | the right trim drops exactly the trailing white-space suffix and ends in a non-space |
| Text.StripIsTrimmedSlice | src/resolver.py:22 | `strip()` is a slice of the line with only white space outside it, and starts and ends with a non-space |
| Text.StripKeepsInnerText | src/resolver.py:22 | `strip()` leaves a string with non-space ends unchanged |
| Text.TrimEndDropsTrailingSpace | src/resolver.py:22 | a trailing white-space character, such as the newline, makes no difference to the right trim |
| Text.WordLength | src/resolver.py:25 | the first field ends at the first white space or at the end of the text |
| Text.SplitGivesTokens | src/resolver.py:25 | every field of `split()` is non-empty and free of white space |
| Text.SplitSkipsLeadingSpace | src/resolver.py:25 | leading white space does not change `split()` |
| Text.WordLengthOfToken | src/resolver.py:25 | a token followed by white space or the end is read as one whole field |
| Text.SplitToken | src/resolver.py:25 | a single token splits into itself |
| Text.SplitTokenSpace | src/resolver.py:25 | a token, a space and a rest split into the token followed by the rest's fields |
| Text.SplitJoin | src/resolver.py:25 | `split()` recovers any list of tokens joined by single spaces |
| Text.JoinedTokensAreTrimmed | src/resolver.py:22 | tokens joined by spaces start and end with a non-space, so `strip()` keeps them |
| Text.DigitChar | src/callcounter.cpp:24 | the digit character of a value below ten is a digit with that value |
| Text.DecimalDigits | src/resolver.py:30 | decimal text is non-empty, all ASCII digits, in `int()`'s grammar, and worth the number |
| Text.DigitsHaveNoDoubleUnderscore | src/resolver.py:30 | a string of digits has no pair of adjacent underscores |
| Text.DecimalIsToken | src/resolver.py:25 | decimal text is one token |
| Text.ParseInt | src/resolver.py:30 | `int()` never accepts the empty field |
| Text.ParseDecimal | src/resolver.py:30 | `int()` reads the decimal text of every natural back to that natural (no digit limit; see "## Left out") |
| Text.ParseIntToString | src/resolver.py:30 | `int()` reads back `str()` of every integer, negative ones included (no digit limit; see "## Left out") |
| Text.Spaces | src/resolver.py:113 | n spaces |
| Text.PadRight | src/resolver.py:113 | `f"{s:<{w}}"` has length max(len(s), w), starts with `s` unchanged and continues with spaces only |
| Resolver.SelectMode | src/resolver.py:14-15 | the run goes ahead exactly when one of `--sum` and `--threaded` is given; otherwise it fails with the message |
| Resolver.ParseLineFields | src/resolver.py:21-33 | a blank stripped line is skipped; a line is accepted exactly when its stripped text splits into three fields and `int()` accepts the middle one; the entry is the first field, the count and the third field, both fields being tokens |
| Resolver.ParseAll | src/resolver.py:21 | one parse result per input line |
| Resolver.AcceptedConcat | src/resolver.py:21 | the accepted entries of two consecutive stretches of input are those of each, in order |
| Resolver.PresentConcat | src/resolver.py:21 | the accepted entries of two stretches of parse results are those of each, in order |
| Resolver.SumTotalsKeys | src/resolver.py:18-33 | in sum mode an address has a total exactly when some accepted line carries it |
| Resolver.SumTotalsAddUp | src/resolver.py:33 | in sum mode an address's total is the sum of the counts of the accepted lines with that address, whatever their thread field |
| Resolver.ThreadedTotalsKeys | src/resolver.py:36-51 | in threaded mode a thread has a group exactly when some accepted line names it, and the group holds the addresses of those lines |
| Resolver.ThreadedTotalsAddUp | src/resolver.py:51 | in threaded mode the total for a thread and an address is the sum of the counts of the accepted lines naming both |
| Resolver.AddressTotalSnoc | src/resolver.py:33 | appending an entry adds its count to its own address's sum and nothing to any other |
| Resolver.ThreadAddressTotalSnoc | src/resolver.py:51 | appending an entry adds its count to its own thread and address's sum and nothing to any other pair |
| Resolver.Aggregate | src/resolver.py:34 | sum mode produces exactly one group, `ALL_THREADS` |
| Resolver.SkippedLineContributesNothing | src/resolver.py:23-32 | a line the parser rejects (blank, wrong number of fields, count not an integer) changes no total in either mode, wherever it stands |
| Resolver.SumOverThreadsIsAddressTotal | src/resolver.py:33 | summing the per-thread sums of an address over a repetition-free list of threads that covers every entry gives the address's overall sum |
| Resolver.SumOverGroupsOfThreaded | src/resolver.py:51 | adding an address's totals across threaded groups equals adding its per-thread reference sums |
| Resolver.ThreadedAddsUpToSum | src/resolver.py:33 | an address's threaded totals, added over every thread group once, equal its sum-mode total |
| Resolver.AggregateSum | src/resolver.py:18-34 | the sum-mode reading loop produces exactly `Aggregate(SumMode, lines)` |
| Resolver.AggregateThreaded | src/resolver.py:36-51 | the threaded reading loop produces exactly `Aggregate(ThreadedMode, lines)` |
| Resolver.ReadCounts | src/resolver.py:14-51 | the mode error when the flags do not select one mode, otherwise the totals of the selected mode |
| Report.UniqueAddresses | src/resolver.py:54-56 | every address of every group, each exactly once |
| Report.OutputLine | src/resolver.py:69-70 | the stripped output line when it exists, otherwise `<unknown>` |
| Report.ResolveNames | src/resolver.py:58-71 | the i-th address is paired with output lines 2i and 2i+1, stripped, each `<unknown>` when the output is too short; exactly the given addresses are mapped |
| Report.PairedStep | src/resolver.py:68-71 | storing the i-th address's pair keeps every earlier address paired with its own two lines, since the addresses are distinct |
| Report.Resolve | src/resolver.py:96 | a mapped address gets its pair, any other `("<unknown>", "<unknown>")` |
| Report.InsertPermutes | src/resolver.py:95 | an insertion adds exactly the inserted item and loses none |
| Report.InsertElements | src/resolver.py:95 | every element of an insertion is the inserted item or comes from the list inserted into |
| Report.InsertSorted | src/resolver.py:95 | inserting into a list sorted by non-increasing count keeps it sorted |
| Report.SortByCount | src/resolver.py:95 | the sort keeps the number of items |
| Report.SortByCountSorts | src/resolver.py:95 | the sorted items are a permutation of the group's items, in non-increasing count order |
| Report.Rows | src/resolver.py:93-97 | one row per sorted item, in the same order, with its resolved name and its count |
| Report.BuildRows | src/resolver.py:95-97 | the `rows.append` loop builds exactly those rows |
| Report.MaxLength | src/resolver.py:100-103 | the result is at least the floor and every length, and is the floor or one of the lengths |
| Report.FuncColumn | src/resolver.py:100 | the function column lists each row's function name in row order |
| Report.FileColumn | src/resolver.py:101 | the file column lists each row's file:line in row order |
| Report.ColumnWidthsBound | src/resolver.py:100-103 | each width is at least its column title's length and at least every entry of the column, and is one of them |
| Report.RowLines | src/resolver.py:111-114 | one written line per row, in row order |
| Report.FormatRowColumns | src/resolver.py:106-114 | when the entries fit, a written line has the function padded to exactly its width, two spaces, the file padded to exactly its width, two spaces, then the count |
| Report.RowLinesInColumns | src/resolver.py:111-114 | every row line pads its columns to exactly the computed widths |
| Report.TableColumnsAligned | src/resolver.py:86-117 | a non-empty group writes its header, the column header and one line per item (all padded to the same widths), the i-th showing the i-th item by descending count, then an empty line |
| Report.GroupLinesShape | src/resolver.py:86-117 | a non-empty group writes its header, the column header, one line per item in sorted order and an empty line, in that order |
| Report.AllListedAt | src/resolver.py:85 | the per-group listings gathered by the loop list each written group's own items |
| Report.FormatGroup | src/resolver.py:86-117 | the lines written for one group are exactly `GroupLines`: only the `=== Thread t ===` header for an empty group |
| Report.WriteRows | src/resolver.py:111-114 | the row-writing loop writes exactly the row lines |
| Report.ItemsOf | src/resolver.py:95 | the listing names exactly the group's addresses, as many items as keys (so none twice), each with its total |
| Report.ReportLinesSnoc | src/resolver.py:85 | writing one more group appends exactly that group's lines |
| Report.FormatReport | src/resolver.py:84-117 | every group is written exactly once, with its own items, and the file is the groups' lines one after another |
| Report.DistinctCardinality | src/resolver.py:85 | a repetition-free list has as many elements as its set |
| Report.SumReportIsOneGroup | src/resolver.py:34 | in sum mode the report holds a single group, `ALL_THREADS` |
| Pipeline.Entries | src/callcounter.cpp:24 | one entry per record, in order: the i-th entry is the address text, count and tag of the i-th record |
| Pipeline.ReadBackLine | src/resolver.py:21-33 | a line `"<addr> <count> <tag>\n"` with any space-free address text and decimal count and tag is accepted with exactly that address text, count and tag |
| Pipeline.ReadBackRecordLine | src/callcounter.cpp:24 | every line the destructor writes is accepted by the reader with the record's address text, count and tag |
| Pipeline.ReadBackRecords | src/callcounter.cpp:23-25 | the reader accepts every line of a flush, in order, and nothing else |
| Pipeline.EntriesTotal | src/resolver.py:33 | among records with distinct addresses, the reader's sum for an address's text is that record's count, or zero when no record has it |
| Pipeline.FlushReadInSumMode | src/resolver.py:18-34 | reading one flushed table in sum mode reports, for every function, its count in the table, and zero for a function never entered |
| Pipeline.ReadBackRun | src/callcounter.cpp:41-42 | the file after a run (truncated, then every thread's flush appended) is accepted line for line: every record of every flush, none lost and none added |

## Left out

- The mutex, `thread_local` storage and destructor timing are left out. The model covers one thread's table at a time and the order in which threads append to the file. `RunThread` models the lazy creation of the thread-local on its first use.
- The thread tag `std::hash<std::thread::id>` is an input to `Flush`, because its value is implementation-defined.
- File I/O is not modelled as operations: `fopen`, `fprintf`, `fclose`, the truncation in `cc_constructor`, and Python's `open`, `write` and `print`.
  - `Flush` returns its records, and `sinkOpens` stands for the success of `fopen`.
  - The report's lines are returned as a sequence of strings, the empty string standing for the lone `"\n"`.
  - `Pipeline.RunOutput` states the file after a run.
  - The terminal copy printed alongside the file is not modelled.
- `getenv` is reduced to an optional value passed to `OutputPath`. The reassignment of the global `outfile` is not separate state.
- `%p` text is implementation-defined. `PointerText` uses the GNU C library's form: `(nil)` for null, otherwise `0x` and lower-case hex. `Pipeline.ReadBackLine` holds for any space-free address text.
- CallCounter.ThreadCallMap.Enter: the `unsigned long` counts are unbounded naturals, so a count that would wrap past 2^64-1 is not modelled.
- `argparse` is left out beyond the two mode flags. The `--binary`, `--input` and `--output` paths only name files.
- The `addr2line` subprocess is not modelled. `ResolveNames` takes its output already stripped and split into lines, and models only how those lines are paired with addresses.
- `colorize` is left out: it computes floating-point ratios and adds ANSI colour codes. Its result is printed to the terminal only, and `max_count` is used only by it. It is still called for every row at src/resolver.py:112, before that row is written to the file at :114, so when it raises it cuts the report short. That case is on the `Report.FormatGroup, Report.FormatReport:` line.
- Python dict and set iteration order is left open, as is `unordered_map` iteration order.
  - `UniqueAddresses`, `ItemsOf`, `Flush` and `FormatReport` choose any order.
  - Their contracts state only what holds for every order.
- Report.SortByCount: the sort is stable, like Python's `sorted`, but its contract does not state stability. The order among equal counts comes from dictionary order, which is itself left open.
- Text.ParseInt: `int()` also accepts non-ASCII Unicode decimal digits. The model accepts ASCII digits only.
- Text.ParseInt: the model sets no limit on the number of digits. CPython 3.11 and later (and the 3.7.14, 3.8.14, 3.9.14 and 3.10.7 security releases) raise ValueError for base-10 text of more than 4300 digits by default, a limit set by `PYTHONINTMAXSTRDIGITS` or `sys.set_int_max_str_digits`. On those versions a count field that long is skipped by the reader at src/resolver.py:30-32, while the model accepts it. The limit depends on the interpreter, not on the repository, so it is left out.
- Text.ParseDecimal, Text.ParseIntToString: the round trips hold for every number in the model. Under that CPython limit they hold only for numbers of at most 4300 digits.
- Report.RowLines: the count is written as `f"{count}"` at src/resolver.py:114. The model writes the full decimal text of every total. Under the same CPython limit, a total of more than 4300 digits never reaches :114: `colorize` raises first (see the next line).
- Report.FormatGroup, Report.FormatReport: the model always writes the whole report. The source calls `colorize(count, max_count)` for each row at src/resolver.py:112, before writing that row at :114, and the call can raise.
  - When `max_count > 0`, `count / max_count` at :75 is true division of two ints. It raises OverflowError when the quotient does not fit in a float, for example for the counts 1 and -10^309 in one group.
  - `f"{count}"` at :77-81 raises ValueError for a count of more than 4300 digits under the CPython limit described on the `Text.ParseInt:` line.
  - In either case the `with` block closes the file, which keeps every line written before the failing row. The failing row, the group's closing empty line and every later group are missing. The model's `GroupLines` and `ReportLines` contain them all.
- Report.ResolveNames: requires the addresses to be distinct, which `list(unique_addrs)` guarantees.
