# Verification of openssl-family-bench

A Dafny 4.11 model of the benchmark harness: its calibration loop, the two crypto backends, the
report generator and the profile file names. `dafny verify dfyconfig.toml` checks the whole
project. The cryptographic libraries are contracts, never implementations:

- the AEAD is any pair of functions in the sense of section 2 of RFC 5116 (opening what was sealed
  gives the plaintext back), and every library call may fail and leave debris in its output buffer;
- an established TLS connection is a reliable FIFO with a fixed capacity whose reads may be as short
  as they like;
- a handshaking peer plays a script of flights over two bounded FIFO pipes and moves as much as it
  can in each step (section 2 of RFC 8446 gives the three flights of TLS 1.3);
- the clock is an arbitrary sequence of readings, and whether a batch succeeds is arbitrary as well;
- `long double` is any monotone rounding that leaves numbers of p significant bits alone, for any p of
  at least four (53 under MSVC, 64 in the x87 format). Only the results that ask for the exact quotient
  also need the rounding error to be at most half a unit in the last place.

| file | models |
|---|---|
| `Prelude.dfy`, `Fixture.dfy` | 64-bit words, ceiling division, powers of two; the message pattern and the checksum |
| `Timer.dfy` | the two clock conversions of `src/timer.c` |
| `LongDouble.dfy` | the `long double` expression of the calibration, for every precision and rounding |
| `Calibration.dfy` | `src/runner.c` and its twin in `src/tls_main.c` |
| `AeadBackend.dfy` | `backends/openssl_aead.c` as an object with buffers overwritten in place |
| `TlsHandshake.dfy`, `TlsBackend.dfy` | `backends/openssl_tls.c`: the two-party driver, and the record loop |
| `Lifecycle.dfy` | allocation and release in both backends and both `run_case` functions |
| `Sorting.dfy`, `MarkdownTable.dfy` | sorting, sets, medians; printing and reading of Markdown tables |
| `Summary.dfy`, `SummaryOrder.dfy`, `SummaryLayout.dfy`, `SummaryText.dfy`, `SummaryCounts.dfy`, `SummaryProgram.dfy` | `scripts/summarize_results.py`: the report as a function of the rows, what it depends on, what stands where, what can be read from its text, what it conserves, and the loops that compute it |
| `ProfileName.dfy` | the file names shared by `scripts/profile_aead.sh` and `scripts/summarize_profiles.py` |

## Where the code does less than one would expect

These properties turned out to hold only under a condition, which is exact in each case.

- Calibration finds the number of iterations that fit the target, unless the target is the largest
  64-bit number, an iteration takes one nanosecond and messages have fewer than eight bytes: there
  the guard `scaled < UINT64_MAX` throws away a quotient that would have fitted
  (`Calibration.SandwichedExactlyWhen`, `Calibration.ExactExactlyWhen`). The command line
  only produces targets that are multiples of a million, which never get there
  (`Calibration.CommandLineTarget`).
- A search for a given target ends with a sample of an eighth of it if and only if at least two bytes
  per message are counted or the target is below sixteen nanoseconds; otherwise it may run out of
  64-bit counts first (`Calibration.StopsOnTimeExactlyWhen`).
- The lines of a table are read back cell by cell if and only if every line has cells and no heading
  contains a pipe, because headings are printed unescaped (`MarkdownTable.TableIsReadBackExactlyWhen`).
  For the text there must also be no line break in any heading or cell, because line breaks are
  not escaped either (`MarkdownTable.TableTextIsReadBackExactlyWhen`).
- The text of the report is independent of the order of the rows if and only if rows of one
  architecture and backend agree on the version (`SummaryOrder.TextPermutesExactlyWhen`). All other
  tables never depend on the order.
- The text of the report comes apart into its lines if and only if none of them contains a line break
  (`SummaryOrder.TextIsReadBackExactlyWhen`), which is so whenever none comes in with the rows, the
  title or the number formats (`SummaryText.TidyTextIsReadBack`).
- A profile name is read back if and only if backend, architecture and algorithm are not empty and
  hold no line break, the operation is one of the two, the size is made of digits, and the
  architecture and the algorithm cannot be cut in two: with an underscore put in front and the last
  character dropped they hold no double underscore (`ProfileName.PrintThenMatch`). A name that is not
  read back may still be read as another case (`ProfileName.EmptyBackendIsRead`). For the file on disk
  backend and architecture must also be free of slashes (`ProfileName.StatFileIsReadBack`). In the
  other direction, a name is printed back if and only if it does not end in a line break, which `$`
  lets through, and its size is written without leading zeros in ASCII digits
  (`ProfileName.MatchThenPrint`).

The results on the exact quotient are about targets below 2^p nanoseconds, if `long double` has p
significant bits: some rounding misses the target 2^p + 1 (`Calibration.LargerTargetMissed`). For
every target the result is right up to a factor of 1 + 5/2^p, except that the guard may still
discard a quotient next to the largest 64-bit number (`Calibration.SandwichWithSlack`).

## Model

| member | source | states |
|---|---|---|
| Timer.WindowsIsExactExactlyWhen | src/timer.c:12-16 | splitting off whole seconds gives the true time in nanoseconds, in 64-bit arithmetic, iff that time fits and the scaled remainder does not overflow |
| Timer.WindowsMonotone | src/timer.c:12-16 | up to the last tick whose time fits 64 bits, and for frequencies whose remainders cannot overflow, later ticks never give an earlier reading |
| Timer.PosixEmbedsOrder | src/timer.c:29 | readings are ordered as (seconds, nanoseconds), and their difference is the time between them |
| Prelude.CeilDivIsLeast | backends/openssl_tls.c:136-141 | the number of pieces that a length is cut into is the least one that covers it |
| LongDouble.ExactArithmeticIsNearest | src/runner.c:46-47 | arithmetic without rounding is one of the formats the calibration results are about |
| Calibration.Runner.RunSample | src/runner.c:5-26 | the clock is read, the batch of the given iterations run, and the clock read again; the sample is what the two readings and the batch outcome say, or a failure |
| Calibration.GuardIsExact | src/runner.c:17-24 | a sample is accepted iff the batch ran, the clock moved on from a non-zero reading and the byte count fits 64 bits; its bytes are then the true product |
| Calibration.Runner.RunSearch | src/runner.c:35-43 | the doubling loop takes exactly the samples of the search, each batch between its own two readings of the clock, and ends with the last one |
| Calibration.Runner.Calibrate | src/runner.c:28-57 | calibration fails iff a sample fails; otherwise the trace is a search and the result is chosen from its last sample |
| Calibration.MeasureCase | src/main.c:84-117 | a case reports nothing iff the search or one of its samples fails; otherwise the requested number of samples, all of the calibrated size and with the bytes of the messages, none for handshakes |
| Calibration.SearchYieldsTrace | src/runner.c:35-43 | every successful search, under any clock, starts at the start count, goes on while a sample takes less than an eighth of the target and the count can be doubled, doubles it each time, and ends with the first sample for which that is not so |
| Calibration.EveryTraceOccurs | src/runner.c:35-43 | every such trace is the trace of some run |
| Calibration.SearchLength | src/tls_main.c:99-109 | at most 58, 60 or 64 samples, with counts 64, 16 or 1 times a power of two, and no wrap-around |
| Calibration.StopsOnTimeExactlyWhen | src/runner.c:39-41 | for a given target, every successful search ends with a sample of an eighth of it iff at least two bytes per message are counted or the target is below 16 |
| Calibration.SearchCost | src/runner.c:35-43 | the search spends twice the last count less the start count |
| Calibration.SearchTime | src/runner.c:35-43 | under a fixed cost per iteration the search takes less than twice as long as its last sample |
| Calibration.WithinFifteenfold | src/runner.c:45-54 | whatever the clock, the precision and the rounding, the result is positive and at most fifteen times the last count; it is no less than that count if the elapsed time is held exactly or rounds to a number of the format |
| Calibration.Sandwich | src/runner.c:33-56 | if an iteration costs between lo and hi, target/hi <= result <= max(start, target/lo), unless the guard misfires |
| Calibration.SandwichedExactlyWhen | src/runner.c:45-51 | that holds on every run iff the guard does not misfire |
| Calibration.SandwichWithSlack | src/runner.c:45-56 | for every target and precision the result is at most max(start, target/lo), and more than target/hi - 1 where the guard is clear, both up to a factor of 1 + 5/2^p |
| Calibration.LargerTargetMissed | src/runner.c:46-49 | some nearest rounding to p < 64 bits and some run at one nanosecond an iteration miss the target 2^p + 1 |
| Calibration.CommandLineTarget | src/main.c:174-180 | for a target of whole milliseconds the guard does not misfire: the result is in the interval, and exact under a fixed cost, if the target is below 2^p; for larger targets it is within the slack, on both sides if numbers have at least 53 bits |
| Calibration.ExactExactlyWhen | src/tls_main.c:95-119 | under a fixed cost c the result is max(start, target/c) on every run iff the guard does not misfire |
| Fixture.PatternRepeatsEvery256 | backends/openssl_tls.c:202-204 | two message bytes agree iff their positions agree modulo 256, despite size_t wrap-around |
| Fixture.MisplacementIsSeen | backends/openssl_aead.c:150-152 | a message with one byte out of place passes the comparison only if it moved by a multiple of 256 |
| Fixture.XorTimesParity | backends/openssl_aead.c:220 | adding the same byte k times to the checksum leaves 0 for even k and the byte for odd k |
| AeadBackend.Create | backends/openssl_aead.c:120-165 | a backend exists iff sizes are in range, the algorithm is one of the three, its memory and context are allocated and the first seal works; it has the cipher of that name, key, nonce and message byte by byte as fixed, and (ciphertext, tag) is their seal |
| AeadBackend.Backend.EncryptOnce | backends/openssl_aead.c:68-92 | succeeds iff the library does; output and tag are then the seal, and a failure leaves the tag alone |
| AeadBackend.Backend.DecryptOnce | backends/openssl_aead.c:94-118 | succeeds iff the library does and the tag is right; the output is then the opened text |
| AeadBackend.Backend.Verify | backends/openssl_aead.c:167-180 | with a working library verification never fails: one seal, one opening, and the plaintext in the output; the invariant survives even if it fails |
| AeadBackend.Backend.RunBatch | backends/openssl_aead.c:182-222 | a batch fails iff one of its library calls does; on success it made as many seals or openings as iterations, the output starts with the ciphertext or the plaintext by operation, and the last byte of it went into the checksum; secrets, ciphertext and tag are unchanged either way |
| AeadBackend.Backend.Perform | src/main.c:78-117 | any sequence of verifications and batches keeps the invariant and, without library errors, succeeds |
| AeadBackend.OutputAfterBatch | backends/openssl_aead.c:189-219 | after a run ending in a non-empty batch the output starts with the ciphertext for seal and the plaintext for open; the bytes behind the message never change |
| AeadBackend.ChecksumOfRun | backends/openssl_aead.c:220 | after a run of verifications and non-empty batches the checksum is 0 or, if the number of batches is odd, the last byte of ciphertext or plaintext |
| AeadBackend.MisplacedByteIsSeen | backends/openssl_aead.c:171-175 | a message with a byte from another position passes the comparisons only if the positions are a multiple of 256 apart |
| TlsHandshake.Ssl.DoHandshake | backends/openssl_tls.c:71 | must not be called on a side that has finished |
| TlsHandshake.TlsPair.HandshakeStep | backends/openssl_tls.c:62-81 | a finished side is not stepped again; otherwise one step, failing only on errors other than wanting to read or write |
| TlsHandshake.TlsPair.Handshake | backends/openssl_tls.c:108-119 | the loop of at most 10000 rounds does what the driver function says, and success means both sides have finished |
| TlsHandshake.PairCreate | backends/openssl_tls.c:83-120 | a pair is handed out iff its sides and pipes can be made and the driver succeeds within 10000 rounds, for peers that exchange flights iff these take no more; both sides have then finished, and the pair is counted |
| TlsHandshake.SuccessMeansFinished | backends/openssl_tls.c:108-117 | for any peers at all: success only with both scripts played to the end |
| TlsHandshake.BrokenSideEndsDriver | backends/openssl_tls.c:108-113 | an error other than wanting to read or write ends the driver in its round, without stepping the server if the client broke |
| TlsHandshake.ScriptAt | backends/openssl_tls.c:108-117 | in the handshakes considered, each flight is sent by one side and awaited by the other, in turns |
| TlsHandshake.HandshakeSucceedsExactlyWhen | backends/openssl_tls.c:83-120 | for complementary scripts of any flights and pipes of any capacity the driver never deadlocks; it succeeds iff the closed-form number of rounds is at most 10000, in exactly that many, with every byte delivered in order and both pipes empty |
| TlsHandshake.Tls13Handshake | backends/openssl_tls.c:83-120 | the three flights of TLS 1.3 take ceil(a/C) + ceil(b/C) + ceil(c/C) - 1 rounds, and succeed iff these are at most 10000 |
| TlsBackend.Create | backends/openssl_tls.c:163-213 | a backend exists iff the size is in range, allocation and configuration work and, for transfers, a pair can be made and its handshake succeeds; the message is byte by byte as fixed, and exactly one pair was made for transfers |
| TlsBackend.Backend.Drain | backends/openssl_tls.c:149-157 | short reads of any length complete the chunk, in place |
| TlsBackend.Backend.TransferOnce | backends/openssl_tls.c:131-161 | succeeds iff the connection holds the first record; the message has then arrived, nothing is in flight, the writes were the chunks of the message and at most one record was in flight at any time |
| TlsBackend.ChunksCover | backends/openssl_tls.c:136-158 | the chunks are ceil(m/16384) in number, at most 16384 bytes each, and add up to m |
| TlsBackend.Backend.Verify | backends/openssl_tls.c:215-237 | verification succeeds iff the negotiated parameters match and the handshake or transfer works; it makes one pair or one transfer |
| TlsBackend.Backend.RunBatch | backends/openssl_tls.c:239-266 | a batch of n makes n pairs, or n transfers with n times the writes and bytes of one, compares what arrived at the end, and adds its last byte to the checksum; an empty batch compares what is there |
| TlsBackend.TransferNeverFails | backends/openssl_tls.c:252-264 | after a verification no run of commands fails, the received message stays equal to the plaintext, and the checksum keeps the parity rule |
| TlsBackend.MisplacedByteIsSeen | backends/openssl_tls.c:258-261 | a message with a byte from another position passes the comparison only if the positions are a multiple of 256 apart |
| Lifecycle.ExtendsSwapped | backends/openssl_aead.c:224-236 | what is held can be released in any order |
| Lifecycle.ExtendsTwice | backends/openssl_tls.c:268-280 | what was obtained on top of what was held is held together with it |
| Lifecycle.AeadCreate | backends/openssl_aead.c:126-164 | creation hands out all six things iff the parameters are good and none of its calls failed, and otherwise none and with nothing leaked |
| Lifecycle.AeadRunCase | src/main.c:60-119 | after a case everything obtained has been released exactly once, for every choice of failures; success is reported iff no call failed, and all calls were made then |
| Lifecycle.PairCreate | backends/openssl_tls.c:83-120 | a pair comes with both sides owning their BIOs iff no call failed; a failed creation leaves null pointers and nothing live |
| Lifecycle.TlsCreate | backends/openssl_tls.c:163-213 | creation hands out the whole backend iff no call failed, and otherwise nothing, counting a pair already torn down by a failed handshake |
| Lifecycle.TlsRunBatch | backends/openssl_tls.c:244-251 | every handshake of a batch releases its pair, also when a later one fails |
| Lifecycle.TlsRunCase | src/tls_main.c:121-192 | after a case everything obtained has been released exactly once, for every choice of failures; success is reported iff no call failed, and every iteration was made then |
| Sorting.SortDependsOnMultiset | scripts/summarize_results.py:49-56 | sorting under a total order forgets the order of its input |
| Sorting.MedianHalves | scripts/summarize_results.py:102 | at least half of the samples are at most the median and at least half at least |
| Sorting.MedianOfSorted | scripts/summarize_results.py:102 | the median is the middle sample of an odd number, and the mean of the middle two of an even number, however they are brought into order |
| MarkdownTable.Report.AppendTable | scripts/summarize_results.py:86-91 | appends the heading, delimiter, row and empty lines of a table |
| MarkdownTable.UnescapeUndoesEscape | scripts/summarize_results.py:33-34 | dropping the backslash before each pipe undoes the escaping, for every string |
| MarkdownTable.RowIsReadBackExactlyWhen | scripts/summarize_results.py:89-90 | a printed row is read back cell by cell iff it has cells, whatever pipes and backslashes they contain |
| MarkdownTable.HeadingsAreReadBackExactlyWhen | scripts/summarize_results.py:87 | headings are read back iff there are any and none of them contains a pipe |
| MarkdownTable.TableIsReadBackExactlyWhen | scripts/summarize_results.py:86-91 | a printed table is read back iff every line has cells and no heading contains a pipe |
| MarkdownTable.LinesAreReadBackExactlyWhen | scripts/summarize_results.py:199 | joined lines come apart again iff none of them contains a line break |
| MarkdownTable.TableTextIsReadBackExactlyWhen | scripts/summarize_results.py:33-34 | the text of a table is read back iff, besides, no heading and no cell contains a line break |
| Summary.SectionPermutes | scripts/summarize_results.py:120-181 | every table of measurements is the same for every order of the rows |
| SummaryOrder.ReportPermutesExactlyWhen | scripts/summarize_results.py:106-183 | the lines of the report are the same for every order of the rows iff rows of one architecture and backend agree on the version |
| SummaryOrder.TextIsJoined | scripts/summarize_results.py:199 | stripping the end of the text and adding a line break changes nothing: the text is the lines, joined |
| SummaryOrder.TextIsReadBackExactlyWhen | scripts/summarize_results.py:199 | the text comes apart into the lines of the report iff none of them contains a line break |
| SummaryText.TidyTextIsReadBack | scripts/summarize_results.py:106-199 | that is so if no line break comes in with rows, title or number formats |
| SummaryOrder.TextPermutesExactlyWhen | scripts/summarize_results.py:186-199 | the same condition decides it for the finished text |
| SummaryCounts.EverySampleOnce | scripts/summarize_results.py:94-164 | rows as the runners print them belong to exactly one of the three tables and are behind exactly one cell each: the cells' sample counts add up to the number of rows |
| SummaryCounts.RowIsReported | scripts/summarize_results.py:106-199 | for each row the runners print, the report has the table of its section in the part of its architecture, under the title and headings that belong to it, with a line of its algorithm, operation and size, or cipher, or cipher and size; under the name of its library that line shows the median of all rows that agree with it; without line breaks in the input these lines come back out of the text, and the table out of the lines iff no backend there has a pipe in its name |
| SummaryCounts.LinesAreOrdered | scripts/summarize_results.py:132-139 | the lines of a table are ordered by algorithm, operation and size, or cipher and size, sizes as numbers, without repetition |
| SummaryCounts.CellShown | scripts/summarize_results.py:135-136 | a cell shows the median of its group, or a dash iff the group has no sample |
| SummaryLayout.HeadingsAre | scripts/summarize_results.py:128-130 | the headings are the key fields, the name of each backend with the unit, and a ratio iff both of its backends occur |
| SummaryLayout.VersionsShown | scripts/summarize_results.py:106-118 | each backend has a line with its name and the version in the last of its rows |
| SummaryLayout.ArchitectureOutline | scripts/summarize_results.py:106-183 | an architecture has its heading, its versions, and the tables of AEAD rows, handshakes and transfers in this order, each iff there are such rows |
| SummaryLayout.ReportOutline | scripts/summarize_results.py:186-199 | the title and notes come first, and the k-th part is about exactly the rows of the k-th architecture |
| SummaryLayout.ArchitecturesAreCanonical | scripts/summarize_results.py:54-56 | each architecture has one part, the known ones first in their fixed order, the others by name |
| SummaryLayout.ArchitectureListedExactlyWhen | scripts/summarize_results.py:193-195 | an architecture has a part iff a row names it, or it is "unknown" and a row names none |
| SummaryCounts.CellIsMedian | scripts/summarize_results.py:100-103 | a cell has a number iff its group has a sample, and the number has half the samples on either side |
| SummaryCounts.TablesAreRectangular | scripts/summarize_results.py:72-83 | every row has a cell for every heading, whatever backends occur |
| SummaryCounts.RatioShown | scripts/summarize_results.py:59-62 | the ratio column holds the quotient of the medians iff both groups have samples and the baseline is not zero |
| SummaryCounts.PatchedRatioShown | scripts/summarize_results.py:65-69 | the same for the column of the patched library |
| SummaryCounts.BackendsAreCanonical | scripts/summarize_results.py:49-51 | each backend has one column, the known ones first in their fixed order, the others by name |
| SummaryCounts.SectionIsReadBackExactlyWhen | scripts/summarize_results.py:128-139 | a table of measurements is read back iff no backend has a pipe in its name |
| SummaryCounts.VersionsAreReadBack | scripts/summarize_results.py:114-118 | the version table is always read back |
| SummaryProgram.GroupSamples | scripts/summarize_results.py:95-99 | the first loop of the aggregation collects exactly the samples of every group, in order, or fails iff a field is missing |
| SummaryProgram.Aggregate | scripts/summarize_results.py:94-103 | the dictionary holds the median of every group and nothing else |
| SummaryProgram.AppendSection | scripts/summarize_results.py:120-139 | one block of the report, failing iff one of its rows lacks a field |
| SummaryProgram.RenderArchitecture | scripts/summarize_results.py:106-183 | the lines of one architecture, failing iff a row is incomplete |
| SummaryProgram.Render | scripts/summarize_results.py:186-199 | the report text, failing iff a row is incomplete |
| SummaryProgram.CompleteExactlyWhen | scripts/summarize_results.py:94-109 | which fields a row needs for the program not to end on it |
| SummaryProgram.PrintedRowsAreComplete | scripts/summarize_results.py:94-109 | rows as the runners print them never end it |
| ProfileName.MatchIsParse | scripts/summarize_profiles.py:10-24 | what the pattern returns is a parse of the name |
| ProfileName.MatchIsGreediest | scripts/summarize_profiles.py:10-13 | if a name has any parse there is a match, and it is at least as greedy, group by group |
| ProfileName.PrintThenMatch | scripts/profile_aead.sh:32 | reading a printed name gives all five fields back iff the fields have the form the pattern asks for and architecture and algorithm are clean |
| ProfileName.EmptyBackendIsRead | scripts/summarize_profiles.py:10-13 | a name with an empty backend that is read as another case |
| ProfileName.StatFileIsReadBack | scripts/summarize_profiles.py:17-24 | the last component of the path the shell script writes is read back iff backend and architecture are not empty, hold no line break and no slash, and the architecture is clean |
| ProfileName.SeparatorInArchitecture | scripts/summarize_profiles.py:10-13 | an architecture with a double underscore is not recovered |
| ProfileName.MatchThenPrint | scripts/summarize_profiles.py:22-23 | an accepted name is printed back iff it has no line break at its end and its size is written plainly |

## Left out

- The libraries behind `EVP_*`, `SSL_*` and `BIO_*`: ciphers, key schedules, certificates and record protection are contracts; TLS record overhead and post-handshake messages are not counted against the connection's capacity.
- Library calls inside one encryption, decryption or handshake step are one call that works or fails as a whole; `Lifecycle.dfy` only counts them.
- TlsHandshake.HandshakeSucceedsExactlyWhen: every flight carries at least one byte, and each new pair meets peers that behave alike.
- Lifecycle.AeadRunCase: models which calls may fail and what is released, not the buffers' contents, which `AeadBackend.dfy` and `TlsBackend.dfy` model.
- Calibration.Sandwich: targets of 2^p nanoseconds and more, for `long double` numbers of p < 64 significant bits, where 2^p + 1 already fails; with 53 bits these are 104 days. `Calibration.SandwichWithSlack` covers them.
- Calibration.SandwichedExactlyWhen: the same.
- Calibration.ExactExactlyWhen: the same.
- Calibration.CommandLineTarget: up to the slack only for targets of 2^p nanoseconds and more; below the interval nothing is promised for those if numbers have fewer than 53 bits.
- Timer.WindowsIsExactExactlyWhen: counter and frequency are taken as non-negative, the frequency as less than half the 64-bit range.
- Option parsing, usage texts, the case matrix and the printed text format of `src/main.c` and `src/tls_main.c`.
- Number formatting: rates, ratios and integers are printed by arbitrary functions; JSON floats are real numbers.
- SummaryProgram.Render: rows have the fields and types the runners print; a field of another JSON type is not modelled, and of a KeyError only that it happens.
- Reading result files and command lines, and writing the report.
- ProfileName.StatFileIsReadBack: whether the directories a slash in a field refers to exist.
- Counters, hotspots and bar charts of `scripts/summarize_profiles.py`, and everything in `scripts/profile_aead.sh` but the name.
- The legacy `cryptobench*.c` programs, build files, certificates and the LibreSSL patch.
