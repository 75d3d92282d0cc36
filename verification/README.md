# nccl-tests run driver, modelled in Dafny

`run.py` drives one NCCL collective benchmark and turns its console output
into a report. It works in these steps:

1. It maps the chosen operation to the `<op>_perf` binary of the benchmark
   tree and builds a fixed 21-element command line. Only two values vary:
   the thread count (the number of devices) and the iteration count.
2. It adds `CUDA_VISIBLE_DEVICES` to the environment, and `NCCL_P2P_DISABLE=1`
   when p2p is disabled.
3. It reads the benchmark's standard output line by line and keeps the
   13-column result rows. For `hypercube`, which prints one column fewer,
   it inserts the `na.` placeholder at position 3.
4. It types `size`, `count` and `root` as integers.
5. It adds seven run-metadata columns to every row and reorders everything
   into a fixed 20-column layout.

The model has eight modules:

- `Wrappers` holds `Option` and `Result`.
- `Text` models the byte-string primitives the script relies on:
  `bytes.splitlines()`, `bytes.split()`, `join` and `bytes.strip()`. It also
  holds `str.split(',')`, which the script never calls: it is the inverse of
  the comma joins the script writes, used to state what they preserve. One `char` stands for one byte.
- `Decimal` models `str(int)` and the integer literals that `int()` and a
  64-bit `astype(int)` accept.
- `Invocation` models the operation table, the binary path, the argument
  vector and the environment overlay.
- `Parser` holds the output-reading loop, as a method with a loop invariant,
  and the properties of the rows it keeps.
- `Schema` models integer typing, metadata broadcast and reindexing over a
  `Table` value of header and rows.
- `Display` holds the choice of comment lines echoed to the console.
- `Run` composes the whole run.

The benchmark's output, the date and the node name are parameters of the
model. The set of files present on disk is a parameter as well.

The model follows the code as written, including two behaviours a reader
might not expect of a benchmark report:

- Integer columns accept any signed 64-bit value, including negative sizes.
- An output with no data rows gives an empty report rather than an error.

## Model

| member | source | states |
|---|---|---|
| `Invocation.BinaryName` | run.py:24-35 | every operation's table entry is the operation's name followed by `_perf` |
| `Invocation.OpMapMatchesChoices` | run.py:24-35 | the table's keys are exactly the ten accepted operations, and no two operations share a binary |
| `Invocation.BinaryPath` | run.py:38 | the path is the benchmark directory followed by `/build/<op>_perf` |
| `Invocation.Argv` | run.py:40 | the command has 21 elements and starts with the binary path |
| `Invocation.ArgvThreads` | run.py:40 | the benchmark reads `str(number of devices)` as its `--nthreads` value |
| `Invocation.ArgvIters` | run.py:40 | the benchmark reads `str(inner_loop)` as its `--iters` value, even though the fixed options come before it |
| `Invocation.ArgvSettings` | run.py:40 | parsing the `--nthreads` and `--iters` values gives back the thread count and the iteration count |
| `Invocation.SweepSettings` | run.py:40 | the fixed options request 1 GPU per thread, 4 bytes to 1G with step factor 2, blocking mode, uint8, 2 averaging passes and no check |
| `Invocation.SweepLeavesSettings` | run.py:40 | the fixed options set neither `--nthreads` nor `--iters` |
| `Invocation.ArgvFixedSweep` | run.py:40 | each fixed option reaches the benchmark with its fixed value, whatever the path, thread count and iteration count |
| `Invocation.ArgvFixedSlots` | run.py:40 | any two commands differ only at index 0 (path), index 2 (threads) and index 20 (iterations) |
| `Invocation.DeviceList` | run.py:45 | `CUDA_VISIBLE_DEVICES` is empty for no ids; otherwise splitting it on commas gives exactly `str(id)` for each device id, in order, and each field parses back to its id |
| `Invocation.Overlay` | run.py:44-47 | the overlay sets `CUDA_VISIBLE_DEVICES` to the joined ids and sets `NCCL_P2P_DISABLE` to `1` exactly when p2p is disabled; otherwise that variable and every other variable keep their inherited value or stay absent |
| `Invocation.Build` | run.py:38-47 | a missing binary fails with its path, exactly when the path is absent; otherwise the invocation carries the command and the overlaid environment |
| `Decimal.FormatInt` | run.py:40 | `str(n)` is non-empty, made of digits after an optional `-`, starts with `-` exactly when `n` is negative, is `0` for zero and has no leading zero otherwise |
| `Decimal.NatToString` | run.py:40 | the decimal digits of a natural number, non-empty, with no leading zero unless the number is zero |
| `Decimal.ParseFormat` | run.py:40 | `int(str(n)) == n` for every integer |
| `Decimal.ParseDecimal` | run.py:66-70 | `int(token)` succeeds exactly on a digit run (digits that single underscores may separate), optionally after one `+` or `-`, and gives the run's value with the sign applied |
| `Decimal.ToInt64` | run.py:66-70 | a digit run, optionally signed, converts to its signed value exactly when that value lies in the signed 64-bit range; every other token fails to convert |
| `Decimal.DigitsValueLeadingZero` | run.py:66-70 | a leading zero does not change the value of a literal |
| `Decimal.DigitsValueUnderscore` | run.py:66-70 | an underscore between digits does not change the value of a literal |
| `Decimal.ToInt64OutOfRange` | run.py:66-70 | for a value outside the signed 64-bit range, its `str(n)` text does not convert |
| `Decimal.LiteralForms` | run.py:66-70 | `+7` and `007` convert to 7, `1_000` to 1000 and `-0` to 0; `1__0`, `_1`, `1_` and `+-1` do not convert |
| `Decimal.ToInt64Format` | run.py:66-70 | every 64-bit value printed by `str` converts back to itself |
| `Text.Split` | run.py:59 | whitespace splitting yields non-empty tokens with no whitespace, never more tokens than bytes |
| `Text.SplitJoin` | run.py:59 | splitting tokens joined by single blanks gives back the tokens |
| `Text.SplitToken` | run.py:59 | a token followed by whitespace, or by nothing, is split off whole |
| `Text.SplitAligned` | run.py:59 | splitting a line of tokens laid out with leading, trailing and any non-empty separating whitespace gives back the tokens |
| `Text.AlignedKeepsLines` | run.py:52-59 | tokens and gaps without line breaks lay out into a single line |
| `Text.SplitLines` | run.py:52 | line splitting yields lines without line breaks, never more lines than bytes |
| `Text.SplitLinesTerminated` | run.py:52 | splitting newline-terminated lines gives back the lines, with no empty last line |
| `Text.SplitOn` | run.py:45 | a reader's comma split, the inverse of the join at this line (which the script does not split again): it yields at least one field, and no field contains the separator |
| `Text.SplitOnJoin` | run.py:45 | comma splitting, the reader's inverse of the join at this line, undoes a comma join of fields that hold no comma |
| `Text.JoinWiderSeparator` | run.py:101 | joining with `", "` is joining with `","` after prefixing a blank to every part but the first |
| `Text.Strip` | run.py:55 | the stripped text is a contiguous part of the input, with only whitespace cut at either end and no whitespace left at either end |
| `Parser.Repair` | run.py:60-62 | for `hypercube` with 12 tokens, the row has 13 tokens with `na.` at index 3 and the original tokens in order around it; in every other case the tokens are unchanged |
| `Parser.RowOf` | run.py:54-64 | a line yields a row only if it is not a comment, and the row then has 13 tokens |
| `Parser.DataRows` | run.py:53-64 | there are no more rows than lines, and every row has 13 tokens |
| `Parser.ParseOutput` | run.py:51-64 | the loop's report is exactly the data rows of the output's lines, with at most one row per line and 13 tokens per row |
| `Parser.RowOfCases` | run.py:59-64 | a line yields a row exactly when it is not a comment and has 13 tokens, or 12 tokens under `hypercube`; 13 tokens pass unchanged and 12 get the placeholder at index 3 |
| `Parser.CommentYieldsNothing` | run.py:54-58 | a line starting with `#` (`startswith(b'#')`) yields no row, whatever follows |
| `Parser.CommentsDoNotMatter` | run.py:54-58 | removing every comment line leaves the rows unchanged |
| `Parser.RowCountBound` | run.py:53-64 | there are never more rows than non-comment lines |
| `Parser.Sources` | run.py:53-64 | each row has a source line index, within bounds and strictly increasing |
| `Parser.SourcesYieldRows` | run.py:53-64 | the k-th row is what the k-th source line yields |
| `Parser.OtherLinesYieldNothing` | run.py:53-64 | every line that is not a source line yields no row |
| `Parser.RowsFollowOutputOrder` | run.py:53-64 | the rows are exactly the rows of the yielding lines, as a subsequence of the output in printed order |
| `Parser.RowsComeFromDataLines` | run.py:54-64 | every row comes from a non-comment line of the output |
| `Parser.ParseRendered` | run.py:52-64 | lines printed from 13-token rows, each laid out with any leading, trailing and separating whitespace, read back as the same rows for every operation |
| `Parser.AlignedRow` | run.py:54-64 | one laid-out 13-token line yields exactly its row |
| `Schema.FirstBad` | run.py:66-70 | the first row whose token in a column does not convert, with every earlier row converting; none exactly when the whole column converts |
| `Schema.TypeTable` | run.py:66-70 | typing succeeds exactly when every row's size, count and root convert; then size, count and root hold the parsed integers and every other cell keeps its token |
| `Schema.TypingFailsFast` | run.py:66-70 | a failure names an integer column and one of its tokens that does not convert; every earlier row of that column and every earlier integer column convert |
| `Schema.P2PTag` | run.py:102-105 | the tag is `shm` exactly when p2p is disabled, and `p2p` exactly when it is not |
| `Schema.EnvGet` | run.py:89-90 | a present variable gives its value, an absent one gives the default |
| `Schema.ListRepr` | run.py:101 | `str(device_ids)` is `[]` for no ids; otherwise, between the brackets, a comma split gives one field per id: the first is exactly `str` of the first id and each later one a blank followed by exactly `str` of its id, so each parses back to its id |
| `Schema.RunMetadata` | run.py:89-105 | the IOMMU and card tags come from the environment, defaulting to `unknown`; the device list is `str(device_ids)`; the p2p tag is `shm` when p2p is disabled and `p2p` otherwise; the op, date and node are the given ones |
| `Schema.SetColumn` | run.py:92-105 | assigning a constant column overwrites the column of that name, or appends it when absent; every other cell is unchanged |
| `Schema.IndexOf` | run.py:106 | the lookup finds the first position holding the name, and finds none exactly when the name is absent |
| `Schema.Reindex` | run.py:106 | the reindexed table has exactly the requested columns and the same number of rows |
| `Schema.ReindexPicksByName` | run.py:106 | each requested column takes the cells of the column of that name, or missing cells when there is none |
| `Schema.AssignFresh` | run.py:92-105 | assigning new distinct columns in turn appends them, in order, to every row |
| `Schema.Enrich` | run.py:92-105 | on a table that has none of the seven metadata columns, the seven assignments append them in order, with the same seven cells on every row |
| `Schema.EnrichAppends` | run.py:92-105 | the seven metadata columns are appended after the 13 parsed columns, with the same values on every row |
| `Schema.ColumnNamesDistinct` | run.py:50 | the 13 parsed names and the 7 metadata names are 20 distinct names |
| `Schema.ReportColumnsLayout` | run.py:106 | the report order is the 7 metadata columns followed by the 13 parsed columns in their original order, 20 in all |
| `Schema.ReindexSwap` | run.py:106 | reindexing a table whose columns are `a + b` into the order `b + a` rotates every row by `a`'s width |
| `Schema.ReportLayout` | run.py:98-106 | after enrichment the column names are distinct, and reindexing puts the metadata cells before each row's parsed cells |
| `Schema.BuildReport` | run.py:66-106 | the report exists exactly when typing succeeds, and fails with the typing error otherwise; it has the report header, and each row is the metadata cells followed by that raw row's typed cells |
| `Schema.ReportRows` | run.py:98-106 | every report row has 20 cells: the same 7 metadata cells, then the typed cells of the raw row it comes from |
| `Display.Find` | run.py:56 | `str.find` gives the lowest index where the word occurs, or -1 exactly when it does not occur |
| `Display.CommentText` | run.py:55 | the searched text is the comment without its marker, with exactly the surrounding whitespace cut |
| `Display.ShownAsWritten` | run.py:56 | the test as written shows a comment line exactly when its text mentions a word whose first mention is not at the very start |
| `Display.ShownIffMentioned` | run.py:56 | the corrected test shows exactly the comment lines whose text mentions `nThread` or `Rank` |
| `Display.LeadingWordHidden` | run.py:56 | the test as written hides a comment line whose text starts with one of the words and does not contain the other |
| `Display.ThreadBannerHidden` | run.py:56 | the thread banner `# nThread 1` is hidden by the test as written and shown by the corrected one |
| `Run.MetadataFromInherited` | run.py:89-90 | reading the IOMMU and card tags from the overlaid environment gives what the inherited environment gives |
| `Run.Run` | run.py:37-106 | a missing binary stops the run with its path; otherwise the run reports exactly the built report of the output's data rows, or the first typing failure |
| `Run.ReportCarriesRunMetadata` | run.py:92-106 | every report row starts with the date, node, inherited IOMMU and card tags, op, device list and p2p tag |
| `Run.RepairedRowTyping` | run.py:60-70 | for a 12-token `hypercube` line, the repaired row types exactly when the line's size, count and root tokens convert; those tokens give the integer cells, and the placeholder, which would not convert, stays a text cell |
| `Run.OnlyCommentsGiveEmptyReport` | run.py:53-64 | an output of only comment lines gives no rows and an empty 20-column report |
| `Run.PrintedRows` | run.py:51-64 | any number of 13-token rows printed one per newline-terminated line, each padded into columns in any way, read back from the whole output as exactly those rows, in order |
| `Run.TwoPrintedRows` | run.py:51-64 | two 13-token rows printed one per line, each padded into columns in any way, read back as those two rows, in order |
| `Run.AllReduceRows` | run.py:51-64 | the two example all_reduce lines, padded into columns in any way, read back as their rows |
| `Run.AllReduceTyping` | run.py:66-70 | the example rows type with size 4 and 8, count 1 and 2, and root -1 on both |

## Left out

- Argument parsing and output-directory creation (run.py:8-19) are process set-up. The model takes the parsed arguments as a `Config`. It assumes what argparse guarantees: the operation is one of the ten choices (`requires cfg.op in OpMap`) and the device list is non-empty (the condition of the round trip in `Invocation.DeviceList`).
- `os.path.abspath` and `os.path.exists` (run.py:38-39) touch the file system. The directory is taken as given, and the existing files are a set parameter.
- The model does not start the benchmark, check its exit code or capture its standard error (run.py:48-49). Its standard output is a parameter of `Run.Run`.
- The `numactl` and `hostname` calls, the `NODE_IS_NUMA_NODE` switch (run.py:91-97) and `pandas.Timestamp.today()` (run.py:92) are external processes and the clock. The node id and the date are parameters.
- Console output (run.py:41-42, 57, 109-116) is not modelled. Only the choice of comment lines to echo is modelled, in `Display`.
- UTF-8 decoding of comment lines (run.py:55) is not modelled. A comment line that is not valid UTF-8 makes the source raise, but not the model.
- The float columns and the maximum/minimum aggregates (run.py:71-86) are floating-point numerics and are not modelled.
- `Schema.TypeTable`: does not model the `astype(float)` failures of the time and bandwidth columns (run.py:71-77). A non-numeric token there aborts the source run, but the model's run succeeds.
- `Schema.TypeTable`: text cells keep the token's characters. The source applies `astype(str)` to byte tokens; depending on the pandas version, which the repository does not pin, that either decodes them to the same characters or renders them in Python's bytes notation (`b'uint8'`), and the model does not capture the latter.
- The CSV file and the plots (run.py:118-132) are library sinks and are not modelled.
- The pandas DataFrame is modelled as a `Table` value with a header and rows. Column assignment and reindexing are functions on that value, because no other reference to the frame exists.

## Findings

| source | as written | input that shows it | evidently intended | confidence | as-written member | corrected member |
|---|---|---|---|---|---|---|
| run.py:56 | `line.find('nThread') > 0 or line.find('Rank') > 0` | the comment line `# nThread 1`: after the marker is dropped and the text stripped, `nThread` is found at index 0, so the line is not echoed; the benchmark's `#  Rank  0 ...` lines fail the same way | echo every comment line that mentions either word (`>= 0`) | high; not executed | `Display.ThreadBannerHidden` | `Display.ShownIffMentioned` |
