# Verified models of libmsf's base library

This project models the parts of libmsf whose behaviour is hardest to see from the code, and proves what they
are for. It covers the CRC32C checksums, the asynchronous loggers, the ring buffer, the configuration parser,
coroutine switching, the calendar, Base64, the Bloom filter, and the bracket and preprocessor machinery of the
repository's `cpplint.py`.

`dafny verify dfyconfig.toml` checks the whole project.

| file | models |
|---|---|
| `Crc32c.dfy`, `Crc32cValues.dfy` | division of bit polynomials; the hardware and the slicing-by-8 checksum; their tables and check value in numbers |
| `AsyncLogging.dfy` | `AsyncLogging`: the current and the next buffer, the logging thread, recycling |
| `ShardedLogging.dfy` | `LoggingBase` with one buffer per partition, and its final drain |
| `RingBuffer.dfy` | `Buffer`: a byte ring with one free cell, growth, scatter/gather I/O |
| `ConfigText`, `ConfigFormat`, `ConfigLines`, `ConfigRoundTrip`, `ConfigLoaded`, `ConfigEdit`, `ConfigLookups`, `ConfigParser` | the configuration file: its text format, loading, saving, editing, and what a reload does to lookups |
| `Coroutine.dfy` | `Send`, `Yield` and return as steps of a machine |
| `FlatMatching.dfy`, `BracketMatcher.dfy` | bracket matching in unsplit text; finding the other end of a bracket, forwards and backwards over lines |
| `BalancedText.dfy`, `BracketMeaning.dfy` | a grammar of balanced text, and that the searches end exactly where it says |
| `Preprocessor.dfy` | the nesting stack under `#if` / `#else` / `#endif` |
| `Calendar.dfy` | Julian day numbers |
| `Base64.dfy` | Base64 as in section 4 of RFC 4648 |
| `Bloom.dfy` | the Bloom filter |
| `Arithmetic.dfy`, `Basics.dfy` | facts about division, and definitions that several files use |

Concurrent code is a state machine: a step is what a thread does between two points where another thread may
run, and a result about "every schedule" ranges over all sequences of such steps. Beside each machine there is
a class whose methods follow the source's statements, each proved to take exactly that step. Code with loops is a
method with a loop, proved against a specification function; the results are lemmas about that function.

## Where the code does not do what its text says

The models follow the code. Each of these is a lemma below, with the exact condition where there is one.

- `Date` decodes correctly from 1 March of year -4800 on, far outside the documented years 1900 to 2500, and
  at no earlier day number (`RoundTrip`, `DecodedDateIsValid`). Before that day every 29 February has the number
  of the next day (`OrderIsCalendarOrder`). `weekDay` is documented as 0 to 6; C's remainder
  makes it negative for most day numbers below -1 (`WeekDayInRange`, `WeekDayAdvances`).
- `checksum_sw` counts groups of eight bytes in 32 bits, so it skips data from 32 GiB on (`SoftwareAgrees`).
- `bloom_create` compares its loop counter with the fraction 8.28 and sets nine bits per key; `bloom_matches`
  reads back the stored 8 and examines eight (`AcceptedExactly`).
- A buffer drops any line that is as long as the buffer (`NothingLost`). `AsyncLogging::stop` may end the
  thread with lines still in memory (`CompleteAtExit`, `StopLosesTail`).
- `SaveAs` writes a section's right comment after the line end, so it runs into the next line and hides it
  (`RoundTrip` of the configuration, `RightCommentSwallowsItem`). Lookups change exactly if the hidden line is an
  item or the header of a section that has items (`LookupsSurvive`).
- `_Send` sets `current_` before it checks and throws (`CurrentAfterSend`). A coroutine that sends to a third
  one breaks delivery (`DeliversExactly`, with the run of `NestedSendMisdelivers`).
- Matching `<` forwards and `>` backwards are inverse to each other on lines in which no `<` follows another `<`
  or `operator`, no `>` follows `operator` (directly or after one character), and no `>=` stands between spaces
  (`TemplateDuality`, `TemplateWayBack`). Each of these patterns can break it (`AngleHasNoWayBack`).

## Model

| member | source | states |
|---|---|---|
| `Polynomial.DivisionExists` | lib/base/crc32-x86.cc:68-96 | every bit string is a multiple of the generator plus `Rem`, so `Rem` is a remainder of polynomial division and not merely a shift-register rule |
| `Polynomial.RemainderUnique` | lib/base/crc32-x86.cc:68-96 | it is the only 32-bit remainder, for every generator |
| `Crc32c.FoldIsDivision` | lib/base/crc32-x86.cc:91-93 | feeding a message byte by byte, from any register, is one division of the whole message |
| `Crc32c.QuadwordIsEightBytes` | lib/base/crc32-x86.cc:84-87 | one 64-bit instruction equals eight 8-bit ones |
| `Crc32c.ChecksumHw` | lib/base/crc32-x86.cc:68-96 | whatever the address and so the alignment split, the result is the CRC32C of the data: the complement of the remainder (section 12.1 of RFC 3720), and of the byte-wise fold |
| `Crc32cSlicing.TableStep` | lib/base/crc32_sw.cc:719-725 | one table lookup is the division step for one byte |
| `Crc32cSlicing.EightLookupsStep` | lib/base/crc32_sw.cc:728-745 | eight lookups in eight tables, combined by xor, are the division step for eight bytes |
| `Crc32cSlicing.ChecksumSw` | lib/base/crc32_sw.cc:711-760 | the result is the CRC32C of the bytes that the 32-bit counter lets it see: the aligned lead, the quadwords and the tail |
| `Crc32cSlicing.SoftwareAgrees` | lib/base/crc32_sw.cc:728-745 | for a length and an address: the software checksum of all data is the CRC32C if and only if the number of quadwords fits in 32 bits |
| `Crc32cSlicing.LastByteMatters` | lib/base/crc32_sw.cc:756-759 | after any data, a last byte of 0 and a last byte of 1 give different checksums, so a skipped byte is visible |
| `Crc32cValues.GeneratorIs` | lib/base/crc32-x86.cc:68-96 | the generator, reflected, is the number 0x82f63b78 |
| `Crc32cValues.SliceIs` | lib/base/crc32_sw.cc:360-704 | every entry of every table in numbers: repeated halving, adding 0x82f63b78 for each bit shifted out |
| `Crc32cValues.SliceLinear` | lib/base/crc32_sw.cc:360-704 | in every table the entry for a sum is the sum of the entries, so the entries for single bits determine all |
| `Crc32cValues.Entries1` | lib/base/crc32_sw.cc:360-704 | the literal entry for the byte 1 in each of the eight tables |
| `Crc32cValues.Entries2` | lib/base/crc32_sw.cc:360-704 | the literal entry for the byte 2 in each of the eight tables |
| `Crc32cValues.Entries4` | lib/base/crc32_sw.cc:360-704 | the literal entry for the byte 4 in each of the eight tables |
| `Crc32cValues.Entries8` | lib/base/crc32_sw.cc:360-704 | the literal entry for the byte 8 in each of the eight tables |
| `Crc32cValues.Entries16` | lib/base/crc32_sw.cc:360-704 | the literal entry for the byte 16 in each of the eight tables |
| `Crc32cValues.Entries32` | lib/base/crc32_sw.cc:360-704 | the literal entry for the byte 32 in each of the eight tables |
| `Crc32cValues.Entries64` | lib/base/crc32_sw.cc:360-704 | the literal entry for the byte 64 in each of the eight tables |
| `Crc32cValues.Entries128` | lib/base/crc32_sw.cc:360-704 | the literal entry for the byte 128 in each of the eight tables |
| `Crc32cValues.CheckValue` | lib/base/crc32-x86.cc:68-96 | the reference checksum that both checksums are proved to compute is 0xe3069283 for the characters 1 to 9, the published check value of CRC-32C |
| `AsyncLogging.StepKeepsInv` | lib/base/async_logging.cc:184-280 | every step of a producer or of the logging thread keeps: spares ready at the lock, no starvation, one owner per buffer, all bytes in order |
| `AsyncLogging.ExecuteKeepsInv` | lib/base/async_logging.cc:184-280 | hence every schedule keeps it |
| `AsyncLogging.Conservation` | lib/base/async_logging.cc:184-280 | under every schedule, file, unwritten buffers, queued buffers and current buffer are together the appended lines that fit in a buffer, in order, each once; the file is a prefix of them |
| `AsyncLogging.NothingLost` | lib/base/log_stream.h:42-48 | under every schedule, no byte is dropped if and only if every line is shorter than 4000000 characters |
| `AsyncLogging.RecyclingNeverStarves` | lib/base/async_logging.cc:218-277 | under every schedule the asserted spares are there when the thread reaches the lock, the next buffer is missing exactly while full ones wait, and no buffer has two owners |
| `AsyncLogging.BuffersAllocated` | lib/base/async_logging.cc:184-200 | under every schedule a new buffer is made exactly by the appends that find the current buffer full and no next one |
| `AsyncLogging.FirstWrittenReused` | lib/base/async_logging.cc:257-277 | the spares come from the first two buffers written, the second one first, emptied; a spare that is there stays |
| `AsyncLogging.LastSwapIsLast` | lib/base/async_logging.cc:222-237 | in a schedule, `LastSwap` is the number of actions up to the last swap that takes place, and none takes place after it |
| `AsyncLogging.SinceSwapIs` | lib/base/async_logging.cc:184-237 | the lines that have not been swapped out are those that the schedule appends after its last swap |
| `AsyncLogging.CompleteAtExit` | lib/base/async_logging.cc:207-280 | when the thread has ended, the file is complete if and only if every line that the schedule appends after its last swap is empty or too long for a buffer |
| `AsyncLogging.StopLosesTail` | lib/base/async_logging.cc:207-280 | for every line that fits: append, stop, end of the loop leaves the file empty |
| `AsyncLogging.OneTurnWritesAll` | lib/base/async_logging.cc:222-255 | from any reachable loop head, one turn puts every line appended so far into the file |
| `AsyncLogging.Logger.constructor` | lib/base/async_logging.cc:165-176 | the initial state satisfies the invariant |
| `AsyncLogging.Logger.Append` | lib/base/async_logging.cc:184-200 | is the producer's step and keeps the invariant |
| `AsyncLogging.Logger.Stop` | lib/base/async_logging.h:238-242 | clears the flag that the thread reads, and nothing else |
| `AsyncLogging.Logger.TestRunning` | lib/base/async_logging.cc:217-220 | is the loop's condition, with the asserts at its head proved |
| `AsyncLogging.Logger.SwapBuffers` | lib/base/async_logging.cc:222-239 | is the step under the lock; afterwards there is something to write, as asserted |
| `AsyncLogging.Logger.WriteBuffer` | lib/base/async_logging.cc:252-255 | appends the next unwritten buffer to the file |
| `AsyncLogging.Logger.RecycleBuffers` | lib/base/async_logging.cc:257-277 | refills both spares from written buffers without sharing one |
| `ShardedLogging.StepInv` | lib/base/async_logging.cc:88-163 | every step of any partition's producer or of the thread keeps the invariant, whatever order the sort leaves |
| `ShardedLogging.PartitionOrder` | lib/base/async_logging.cc:119-163 | under every schedule and for every partition: its lines in the file, then in pending buffers, then in its own buffer are its accepted lines that fit in a buffer, in order |
| `ShardedLogging.SparesAreEmpty` | lib/base/async_logging.cc:107-117 | under every schedule every recycled buffer is empty, so no line is written twice |
| `ShardedLogging.Drained` | lib/base/async_logging.cc:158-163 | when the thread has ended, each partition's lines that fit in a buffer are all in the file in order, and the file is a permutation of all such lines |
| `ShardedLogging.NothingLost` | lib/base/async_logging.cc:158-163 | when the thread has ended, the file holds every accepted record exactly if every accepted line is shorter than 4000000 characters |
| `ShardedLogging.LogIsAccepted` | lib/base/async_logging.h:87-108 | the accepted lines are exactly the appends of the schedule that were enabled |
| `ShardedLogging.DrainFinishes` | lib/base/async_logging.cc:158-163 | from any reachable end of the loop, the drain ends after a known number of steps with a complete file |
| `ShardedLogging.StopFinishes` | lib/base/async_logging.cc:119-163 | from every reachable state that is stopped and does not drain yet, wherever the thread is, it ends after a known number of steps, and each partition's lines that fit are then in the file, in order |
| `ShardedLogging.EndsOnlyAfterStop` | lib/base/async_logging.cc:129-163 | under every schedule the flag is set if and only if there was no stop, and the thread drains or has ended only after one |
| `ShardedLogging.BufferBalance` | lib/base/async_logging.cc:8-117 | under every schedule the buffers that exist and those dropped by the resize are the initial ones, one for each partition and at most six spares, and those made because no spare was left |
| `ShardedLogging.Logger.constructor` | lib/base/async_logging.cc:8-33 | the initial state, with at most six spares, satisfies the invariant |
| `ShardedLogging.Logger.Append` | lib/base/async_logging.h:87-108 | is the producer's step and keeps the invariant |
| `ShardedLogging.Logger.Stop` | lib/base/async_logging.cc:48-53 | clears the flag that the thread reads, and nothing else |
| `ShardedLogging.Logger.TestRunning` | lib/base/async_logging.cc:129-130 | is the loop's condition: the thread goes on to the lock exactly while the flag is set, and else drains |
| `ShardedLogging.Logger.SwapBuffers` | lib/base/async_logging.cc:132-145 | is the swap under the lock and keeps the invariant |
| `ShardedLogging.Logger.WriteBuffer` | lib/base/async_logging.h:116-120 | appends the next buffer to write to the file and keeps the invariant |
| `ShardedLogging.Logger.SortAndRefill` | lib/base/async_logging.cc:76-117 | for any order longest first: at most twice as many spares as partitions are kept, all emptied |
| `ShardedLogging.Logger.FinalDrain` | lib/base/async_logging.cc:158-163 | ends with every partition's accepted lines that fit a buffer in the file, in order |
| `RingVectors.ReadVectorIsFree` | lib/base/buffer.cc:22-49 | for all positions: the I/O vector covers exactly the free cells in writing order, keeps one cell free, has at most three entries, and the stack buffer comes last, if at all |
| `RingVectors.WriteVectorIsReadable` | lib/base/buffer.cc:63-80 | for all positions: the I/O vector covers exactly the readable cells in reading order, in at most two entries |
| `RingBuffer.Buffer.constructor` | lib/base/buffer.h:63-70 | an empty queue of the given capacity |
| `RingBuffer.Buffer.ReadableBytes` | lib/base/buffer.h:72-78 | is the length of the queue, wrapped or not |
| `RingBuffer.Buffer.WriteableBytes` | lib/base/buffer.h:80-81 | with the readable bytes and one free cell makes up the capacity |
| `RingBuffer.Buffer.Retrieve` | lib/base/buffer.h:84-93 | drops that many bytes from the front, or refuses with -1 and changes no contents |
| `RingBuffer.Buffer.RetrieveAll` | lib/base/buffer.h:95-98 | empties the queue |
| `RingBuffer.Buffer.Receive` | lib/base/buffer.h:101-114 | copies the front without consuming it, or refuses |
| `RingBuffer.Buffer.Remove` | lib/base/buffer.h:117-132 | returns the front of the queue and drops it, or refuses and leaves all as it was |
| `RingBuffer.Buffer.HasWritten` | lib/base/buffer.h:134-143 | the cells after the writer become the end of the queue |
| `RingBuffer.Buffer.DoAppend` | lib/base/buffer.h:161-174 | puts the bytes at the end of the queue without touching what is readable |
| `RingBuffer.Buffer.MakeSpace` | lib/base/buffer.h:185-206 | growing makes exactly the room asked for and keeps the contents, straight or wrapped |
| `RingBuffer.Buffer.Append` | lib/base/buffer.h:146-159 | for data of any length: the queue ends with the data, and grows only if they do not fit, to exactly what they need |
| `RingBuffer.Buffer.ReadFd` | lib/base/buffer.cc:20-60 | everything the kernel delivered is at the end of the queue, also what went through the stack buffer; an error changes nothing and is reported |
| `RingBuffer.Buffer.WriteFd` | lib/base/buffer.cc:62-86 | what the kernel accepted is the front of the queue and is dropped |
| `RingBuffer.Fifo` | lib/base/buffer.h:84-206 | for every run of operations of the queue: all that came out, then what is left, equals what was there, then all that went in |
| `RingBuffer.Buffer.Do` | lib/base/buffer.h:84-206 | each operation does to size and contents what the queue does, and takes out and puts in exactly what the queue says for that operation, also when it is refused or the kernel delivers less |
| `RingBuffer.Buffer.Session` | lib/base/buffer.h:84-206 | for every run of operations: size, contents, everything that came out and everything that went in are those of the queue, operation by operation, so bytes leave in the order in which they came |
| `ConfigLines.LineIs` | lib/base/config_parser.cc:143-182 | for every line: blank and comment lines join the pending comment; else the first character of the trimmed text before the comment sign decides between header and item |
| `ConfigLines.ErrorsAre` | lib/base/config_parser.cc:53-118 | for every line: code 2 if and only if a header has no closing bracket, 3 if and only if the bracket follows at once, 4 if and only if the section exists, 5 if and only if an item has no equals sign; an error leaves the sections as they are |
| `ConfigLines.HeaderLine` | lib/base/config_parser.cc:53-96 | for every header line: a new last section with the trimmed name, the pending comment and the right comment, or code 4 |
| `ConfigLines.ItemLineLoads` | lib/base/config_parser.cc:98-118 | for every item line: a new last item of the last section with the trimmed key and value, the pending comment and the right comment |
| `ConfigLines.LoadStops` | lib/base/config_parser.cc:143-182 | loading goes line by line and ends at the first error |
| `ConfigLines.LoadNothingGives` | lib/base/config_parser.cc:137-140 | the empty file has the unnamed section and nothing else |
| `ConfigLines.SavedText` | lib/base/config_parser.cc:195-230 | the saved text of every clean item and section, comments and line ends included |
| `ConfigRoundTrip.LoadSave` | lib/base/config_parser.cc:120-236 | loading what was saved gives the normal form of the configuration (unnamed section first, comments ended by a line end) |
| `ConfigLoaded.LoadIsClean` | lib/base/config_parser.cc:120-187 | for every text: unique section names, the unnamed one first, and keys, values and comments that saving cannot confuse |
| `ConfigLoaded.RoundTrip` | lib/base/config_parser.cc:191-236 | for every text that loads: saving and loading again gives the same sections if and only if no section has a right comment |
| `ConfigLoaded.ReloadHasNoSectionRight` | lib/base/config_parser.cc:201-208 | no saved clean configuration loads with a section right comment |
| `ConfigLoaded.RightCommentSwallowsItem` | lib/base/config_parser.cc:201-230 | for every section with a right comment and one item without a comment: the item is gone after saving and loading |
| `ConfigEdit.SetThenLookup` | lib/base/config_parser.cc:487-532 | for every name and key: setting replaces the first value of that key (or adds it), and no other lookup changes |
| `ConfigEdit.SetThenItem` | lib/base/config_parser.cc:487-532 | the whole first item of that key after setting: new value, new comment with its sign, old right comment; every other first item is unchanged |
| `ConfigEdit.DeleteThenLookup` | lib/base/config_parser.cc:630-644 | deleting a key removes its first value, and no other lookup changes |
| `ConfigEdit.DeleteSectionThenLookup` | lib/base/config_parser.cc:618-628 | deleting a section removes all its values, and no other lookup changes |
| `ConfigEdit.ReloadNormal` | lib/base/config_parser.cc:191-236 | a clean configuration comes back in normal form if and only if no section has a right comment |
| `ConfigEdit.EditsSurviveSaving` | lib/base/config_parser.cc:120-236 | after every run of loads, sets and deletions: names stay unique; saving and loading gives the normal form if and only if no section has a right comment, and then every lookup is unchanged |
| `ConfigLookups.LookupsAfterReload` | lib/base/config_parser.cc:120-236 | for every clean configuration: loading the saved text succeeds, and every lookup gives what is left when each section right comment takes the next line with it |
| `ConfigLookups.LookupsSurvive` | lib/base/config_parser.cc:120-236 | for every clean configuration: all lookups are unchanged by saving and loading if and only if no section right comment is directly followed by an item, or by the header of a section that has items |
| `ConfigLookups.EditedLookupsSurvive` | lib/base/config_parser.cc:120-236 | the same if and only if after every run of loads, sets and deletions |
| `ConfigParser.TrimLoop` | lib/base/config_parser.cc:752-774 | both loops together remove exactly the outer spaces |
| `ConfigParser.Split` | lib/base/config_parser.cc:786-811 | both sides of the first separator, trimmed; or the whole text, when there is none |
| `ConfigParser.Parser.GetSection` | lib/base/config_parser.cc:238-246 | finds the first section of that name, exactly if there is one |
| `ConfigParser.Parser.Load` | lib/base/config_parser.cc:120-187 | sections and error code are those of the format's reading of the text (`ConfigLines`), and the sections are clean |
| `ConfigParser.Parser.UpdateSection` | lib/base/config_parser.cc:53-96 | does to the sections, and reports, what `ConfigLines` says of a header line |
| `ConfigParser.Parser.AddKeyValuePair` | lib/base/config_parser.cc:98-118 | does to the sections, and reports, what `ConfigLines` says of an item line |
| `ConfigParser.Parser.SaveAs` | lib/base/config_parser.cc:191-236 | the text is the format's writing of the sections |
| `ConfigParser.Parser.GetValue` | lib/base/config_parser.cc:409-428 | the value and the comment of the first item with the key in the first section of that name; code 9 if and only if the section is missing, 8 if and only if only the key is |
| `ConfigParser.Parser.SetValue` | lib/base/config_parser.cc:487-532 | all lookups after the call, and that clean arguments keep the configuration clean |
| `ConfigParser.Parser.DeleteSection` | lib/base/config_parser.cc:618-628 | removes the first section of that name and keeps the configuration clean |
| `ConfigParser.Parser.DeleteKey` | lib/base/config_parser.cc:630-644 | removes the first item of that key and keeps the configuration clean |
| `Coroutine.StepKeeps` | lib/base/coroutine.cc:39-97 | each step of a generator program keeps the invariant and delivers what a generator would |
| `Coroutine.GeneratorSemantics` | lib/base/coroutine.cc:39-97 | in every such run, at every step: `current_` is the coroutine that runs, and the value received is the value sent, yielded or returned |
| `Coroutine.FinishedNeverResumed` | lib/base/coroutine.cc:70-93 | in every such run a finished coroutine stays finished and never runs again |
| `Coroutine.LivesFromHistory` | lib/base/coroutine.cc:70-93 | in every such run, at every step: a coroutine is finished, running or unstarted, and executes, exactly as the sends, yields and returns so far say |
| `Coroutine.CurrentAfterSend` | lib/base/coroutine.cc:45-51 | after any send by main, `current_` is the running coroutine if and only if the check for an unstarted coroutine did not throw |
| `Coroutine.ThrownExactly` | lib/base/coroutine.cc:45-93 | a send by main throws if and only if the coroutine is finished, or unstarted and sent a value |
| `Coroutine.NestedSendEvent` | lib/base/coroutine.cc:39-93 | what every send by a coroutine does: throws, aborts, starts the other one, or resumes it with nothing |
| `Coroutine.MainCannotYield` | lib/base/coroutine.cc:42-43 | a yield by main fails the assertion |
| `Coroutine.DeliversExactly` | lib/base/coroutine.cc:39-97 | from any good state, a step delivers and leaves a good state if and only if main sends to a started or finished coroutine or sends no value, a coroutine yields or returns, or the send is to a finished coroutine |
| `Coroutine.NestedSendMisdelivers` | lib/base/coroutine.cc:57-68 | a run that breaks it: a value yielded by a coroutine that another coroutine started does not reach main |
| `Coroutine.Scheduler.Send` | lib/base/coroutine.cc:82-93 | is the step, from any coroutine to any other; in a generator program it delivers the value, starts the coroutine, or throws for a finished one |
| `Coroutine.Scheduler.Yield` | lib/base/coroutine.cc:95-97 | is the step; from a coroutine, main receives the value |
| `Coroutine.Scheduler.Return` | lib/base/coroutine.cc:76-79 | main receives the result |
| `Coroutine.Scheduler.SendTo` | lib/base/coroutine.cc:39-64 | the whole new state, on every path and without any discipline |
| `BalancedText.BracketEnds` | script/cpplint.py:1519-1594 | on one text: from an opening bracket other than `<`, the scan ends after e if and only if the text up to e is derived by the grammar as that bracket, balanced text and its own closing bracket |
| `BalancedText.AngleEnds` | script/cpplint.py:1519-1594 | the same from `<`: template arguments and `>` |
| `FlatMatching.FlatDuality` | script/cpplint.py:1519-1753 | on one text, with `<` and `>` as tentative brackets: the forward scan from an opening bracket ends after position e if and only if the backward scan from e finds that bracket |
| `BracketMatcher.EndSeen` | script/cpplint.py:1519-1594 | on any line, template heuristics and operators never change what happens to `(`, `[` and `{`, from any stack rooted in such a bracket; on regular lines the scan is the flat scan with `<` and `>` |
| `BracketMatcher.StartSeen` | script/cpplint.py:1641-1715 | the same backwards, where characters are skipped |
| `BracketMatcher.CloseIsFlat` | script/cpplint.py:1597-1638 | searching line by line is searching the concatenation, in both views |
| `BracketMatcher.ReverseIsFlat` | script/cpplint.py:1718-1753 | the same backwards |
| `BracketMeaning.CloseEnds` | script/cpplint.py:1597-1638 | for all lines: the search from an opening bracket other than `<` ends at a place if and only if the text up to there is balanced by the grammar |
| `BracketMeaning.CloseFails` | script/cpplint.py:1597-1638 | it fails if and only if no such place exists |
| `BracketMeaning.ReverseEnds` | script/cpplint.py:1718-1753 | the search back from a closing bracket other than `>` ends at a place if and only if the text from there is balanced by the grammar |
| `BracketMeaning.TemplateEnds` | script/cpplint.py:1597-1638 | on regular lines, from `<`: it ends at a place if and only if the text between is template arguments by the grammar, arrows aside |
| `BracketMeaning.OnlyFromBrackets` | script/cpplint.py:1620-1737 | from any other character, and forwards from `<<` and `<=`, nothing is found |
| `BracketMeaning.ForwardLeavesOut` | script/cpplint.py:1538-1583 | on any line and stack: angle brackets of operators and arrows are passed over, and both characters of `<<` |
| `BracketMeaning.BackwardLeavesOut` | script/cpplint.py:1663-1678 | the same backwards, each with the character before it |
| `BracketMatcher.Duality` | script/cpplint.py:1597-1753 | for all texts, with angle brackets anywhere: closing leads from one bracket to the other if and only if reverse closing leads back |
| `BracketMatcher.CloseThenReverse` | script/cpplint.py:1597-1753 | a successful search ends after a closing bracket, and the way back from there is the start |
| `BracketMatcher.SplitInvariance` | script/cpplint.py:1597-1638 | breaking the same text into other lines gives the same answer |
| `BracketMatcher.TemplateDuality` | script/cpplint.py:1597-1753 | on regular lines the same if and only if for `<` and `>` too, arrows and `<=` aside |
| `BracketMatcher.TemplateWayBack` | script/cpplint.py:1597-1753 | on regular lines every `<` that has an end has a way back from it |
| `BracketMatcher.AngleHasNoWayBack` | script/cpplint.py:1519-1753 | for each of the five patterns that a regular line excludes, a line on which the forward search from `<` succeeds and the way back fails or leads elsewhere |
| `BracketMatcher.KindsWithWayBack` | script/cpplint.py:1597-1753 | the way back exists on all texts for an opening character if and only if it is not `<` |
| `BracketMatcher.FindEndOfExpressionInLine` | script/cpplint.py:1519-1594 | the loop, with its nested pops, computes the scan that the lemmas are about |
| `BracketMatcher.FindStartOfExpressionInLine` | script/cpplint.py:1641-1715 | the same backwards |
| `BracketMatcher.CloseExpression` | script/cpplint.py:1597-1638 | the loop over lines computes the search that the lemmas are about |
| `BracketMatcher.ReverseCloseExpression` | script/cpplint.py:1718-1753 | the same backwards |
| `Preprocessor.ClassifyLine` | script/cpplint.py:2525-2579 | for every line: no directive unless its first character that is no space is the sign, and then the whole word after the sign decides, whatever spaces surround it |
| `Preprocessor.ClassifyExactly` | script/cpplint.py:2546-2566 | for every line: which words make it the start, another branch or the end of a conditional, and nothing else does |
| `Preprocessor.Erasure` | script/cpplint.py:2525-2604 | for every sequence of lines, well nested or not, and any other per-line update: outside of skipped branches the stack is that of the kept lines with no preprocessor |
| `Preprocessor.FirstBranchesOnly` | script/cpplint.py:2525-2579 | for well nested conditionals of any depth: the state is that of the text with only first branches, and the saved stack is empty again |
| `Preprocessor.CodeRun` | script/cpplint.py:2546-2579 | the same in any surroundings: whatever is saved already stays saved |
| `Preprocessor.InsideBranch` | script/cpplint.py:2546-2561 | inside the last of any number of further branches, at any depth: the branch starts from the stack before the `#if`, and the stack after the first branch is saved for the `#endif` |
| `Preprocessor.StrayDirective` | script/cpplint.py:2562-2579 | a stray `#else` or `#endif` changes no more than an ordinary line |
| `Preprocessor.KeptAreFirstBranches` | script/cpplint.py:2546-2579 | on well nested text the lines that `Erasure` keeps are those of the first branches |
| `Preprocessor.NestingState.constructor` | script/cpplint.py:2409-2430 | both stacks start empty |
| `Preprocessor.NestingState.UpdatePreprocessor` | script/cpplint.py:2525-2579 | the new stacks for each directive, with stray `#else` and `#endif` ignored |
| `Preprocessor.NestingState.UpdateAll` | script/cpplint.py:2582-2604 | a whole file leaves the stack of its kept lines |
| `Calendar.DecodeEncode` | lib/base/date.cc:16-36 | every date from the epoch -4800-03-01 on decodes from its number |
| `Calendar.EncodeDecode` | lib/base/date.cc:16-36 | every number from the epoch on is that of the decoded date, which is valid |
| `Calendar.RoundTrip` | lib/base/date.cc:16-36 | a valid date comes back if and only if it is not before the epoch |
| `Calendar.DecodedDateIsValid` | lib/base/date.cc:24-36 | the decoded date exists if and only if the number is at least -32044 |
| `Calendar.DaysOfNextDay` | lib/base/date.cc:16-22 | the next calendar day, over month ends, leap days and year ends, has the next number |
| `Calendar.DecodeCounts` | lib/base/date.cc:24-36 | decoding is counting calendar days from the epoch |
| `Calendar.OrderIsCalendarOrder` | lib/base/date.h:79-85 | for all valid dates `<` and `==` on numbers are calendar order and equality of dates, except exactly for a 29 February before the epoch and the day after it |
| `Calendar.UnixEpoch` | lib/base/date.cc:38 | 1970-01-01 is 2440588, a Thursday |
| `Calendar.FourHundredYears` | lib/base/date.cc:16-22 | 400 years are 146097 days |
| `Calendar.WeekDayInRange` | lib/base/date.h:70-71 | 0 to 6 if and only if the number is at least -1 or its successor divides by seven |
| `Calendar.WeekDayRepeats` | lib/base/date.h:70-71 | the week day repeats after 400 years under exactly that condition |
| `Calendar.WeekDayAdvances` | lib/base/date.h:70-71 | the next calendar day has the next week day if and only if the number is at least -1 or two more divides by seven |
| `Calendar.DecodeFits` | lib/base/date.cc:24-36 | from the epoch on, no 32-bit intermediate overflows if and only if the number is at most 536838867 |
| `Base64.DecodeEncode` | lib/base/base64.h:16-101 | every byte string comes back |
| `Base64.EncodeDecode` | lib/base/base64.h:16-101 | a text comes back if and only if it is canonical: whole groups, padding only at the end, unused bits zero |
| `Base64.EncodeIsCanonical` | lib/base/base64.h:16-56 | every encoding is canonical |
| `Base64.EncodeLength` | lib/base/base64.h:16-56 | four characters per started group of three bytes |
| `Base64Loops.Alphabet` | lib/base/base64.h:7-10 | the 64 characters, each at its place |
| `Base64Loops.EncodedGroup` | lib/base/base64.h:16-56 | for every group of every byte string: three bytes are one number, the four characters are its digits to base 64, and missing bytes give padding |
| `Base64Loops.DecodedGroup` | lib/base/base64.h:58-101 | for every group of every text: four characters are one number, and the bytes are its digits to base 256 |
| `Base64Loops.DecodeStops` | lib/base/base64.h:66-67 | decoding ends at the first character outside of the alphabet, whatever follows |
| `Base64Loops.EncodeLoop` | lib/base/base64.h:16-56 | the loop over two small arrays computes the encoding |
| `Base64Loops.DecodeLoop` | lib/base/base64.h:58-101 | the loop computes the decoding of any text, up to the first padding or foreign character |
| `Bloom.HashLoop` | lib/base/bloom.cc:6-12 | the loop with 32-bit wrap-around computes the hash |
| `Bloom.HashIsSum` | lib/base/bloom.cc:6-12 | the hash is the seed and the signed characters as digits to base 33, modulo 2 to the 32 |
| `Bloom.FilterSize` | lib/base/bloom.cc:14-27 | 12 bits for each key, at least 64, rounded up to bytes, and one byte for the count |
| `Bloom.DeltaRotates` | lib/base/bloom.cc:55-56 | the step between probes is the hash rotated right by 17 bits: its low 17 bits become the high ones |
| `Bloom.BloomCreate` | lib/base/bloom.cc:29-63 | appends a filter whose set bits are exactly the nine probes of each key, and keeps the prefix |
| `Bloom.FilterBits` | lib/base/bloom.cc:29-63 | in every filter a bit is set if and only if it is one of the nine probes of a listed key, and the last byte is 8 |
| `Bloom.BloomMatches` | lib/base/bloom.cc:65-93 | on any byte string: true if and only if it has a bit array and every probe it asks for, up to the count in its last byte read as a signed char, hits a set bit |
| `Bloom.AcceptedExactly` | lib/base/bloom.cc:65-93 | a key is accepted if and only if its eight examined probes are among the probes set for the listed keys |
| `Bloom.NoFalseNegatives` | lib/base/bloom.cc:29-93 | every listed key is accepted |

## Left out

- `RingBuffer.Buffer.constructor`: a capacity of 0, where the unsigned count of writeable bytes would wrap.
- `RingBuffer.Buffer.ReadFd`: the kernel is a parameter that delivers at most what the vector holds; `size_t` overflow is not modelled.
- `RingBuffer.Buffer.WriteFd`: the kernel is a parameter that accepts at most what is readable.
- `ShardedLogging.Logger.Append`: one producer per partition, and producers stopped before the final drain, since the source takes no lock there.
- `ConfigEdit.EditsSurviveSaving`: that lookups survive is stated one way there; `ConfigLookups.EditedLookupsSurvive` has the exact condition.
- `AsyncLogging.Logger.Stop`: the notification and the join are left out; a wait may end at any time, and what the thread still does are its own steps.
- `ShardedLogging.Logger.SortAndRefill`: `std::sort` is a parameter that may leave equal lengths in any order.
- `BracketMatcher.TemplateWayBack`: one way; irregular lines may have a way back too.
- `Calendar.DecodeFits`: 32-bit overflow is stated for decoding only; encoding uses unbounded integers.
- `Bloom.BloomCreate`: returns the extended string instead of updating it; overflow of 12 bits per key in `int` is not modelled.
- `Crc32cSlicing.TableStep`: the tables are defined by their formula; of the source's literals those for single bits are stated (`Entries1` and the following), and by `SliceLinear` all others are sums of them.
- Checksums: the big-endian build, the ARM code, the wrapper types and the choice by CPU features.
- Loggers: weak memory, condition variables and timeouts (a wait may end at any time), latches, rolling of log files, and the two other logger classes.
- Configuration: other comment delimiters, changing comments, numeric conversions, file errors, and pointers to sections handed out to callers; sections are held by value.
- Coroutines: stacks, failures of the context calls, thread-local state.
- cpplint: the rest of the per-line update is an arbitrary function of the line and the stack; the template argument check and all style rules.
- Date: strings, `struct tm` and the clock.
- The other modules of the repository, such as sockets, processes, signals and the memory pool: they call the operating system or would add only easy members.
